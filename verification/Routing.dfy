/** Routing from end to end: from the bytes of a partition reply and a key to the node the reply lists for it. */
module Routing {
  import opened Wire
  import opened Wrappers
  import opened Codec
  import opened CodecStream
  import opened KeyHashing
  import opened Affinity
  import opened PartitionReply
  import opened PartitionLayout
  import opened GroupRouting

  /** Events that do not touch a cache leave its latest map. */
  lemma {:induction false} LatestSurvives(log: seq<Event>, since: seq<Event>, id: i32)
    requires forall i :: 0 <= i < |since| ==> !Touches(since[i], id)
    ensures Latest(log + since, id) == Latest(log, id)
  {
    if since == [] {
      assert log + since == log;
    } else {
      var n := |since| - 1;
      LatestSurvives(log, since[..n], id);
      assert (log + since)[..|log + since| - 1] == log + since[..n];
    }
  }

  method Perform(cache: AffinityCache, e: Event)
    requires cache.Valid()
    modifies cache
    ensures cache.Valid() && cache.log == old(cache.log) + [e]
  {
    match e {
      case Applied(v, maps) => cache.Apply(v, maps);
      case Invalidated => cache.Invalidate();
      case CacheInvalidated(id) => cache.InvalidateCache(id);
    }
  }

  method PerformAll(cache: AffinityCache, es: seq<Event>)
    requires cache.Valid()
    modifies cache
    ensures cache.Valid() && cache.log == old(cache.log) + es
  {
    for i := 0 to |es|
      invariant cache.Valid() && cache.log == old(cache.log) + es[..i]
    {
      assert es[..i + 1] == es[..i] + [es[i]];
      Perform(cache, es[i]);
    }
    assert es[..|es|] == es;
  }

  method ReadAndApply(cache: AffinityCache, r: Reader, dcAware: bool, allMappings: bool, ghost reply: Reply,
      ghost rest: Bytes)
    requires cache.Valid() && GoodReply(reply) && r.rest == PutReply(reply, dcAware, allMappings) + rest
    modifies cache, r
    ensures cache.Valid() && r.rest == rest
    ensures var m := Meaning(reply, dcAware); cache.log == old(cache.log) + [Applied(m.version, m.caches)]
  {
    DecodesToMeaning(reply, dcAware, allMappings, rest);
    var partitions := ReadWithFlags(r, dcAware, allMappings);
    cache.Apply(partitions.value.version, partitions.value.caches);
  }

  /** Where the reply sends a key: the node that the group lists last for the partition of the key's Java hash, if the
      group routes by hash and the hash is known; nowhere otherwise. */
  ghost function Destination(g: Group, dcAware: bool, primary: bool, hash: Hash): Option<Node>
    requires GoodGroup(g)
  {
    if Routes(g) && hash.Known? then
      MapEmptyExactlyWhen(g.primary);
      SmallMap(g);
      RendezvousMeaning(hash.h, |NodeMap(g.primary)|);
      LastNode(ListingOf(SideNodes(g, dcAware, primary)), Rendezvous(hash.h, |NodeMap(g.primary)|))
    else None
  }

  /** Every key of every type gets exactly that answer. */
  lemma RoutedExactlyWhen(g: Group, dcAware: bool, id: i32, primary: bool, t: Ty, v: Val)
    requires GoodGroup(g) && Lists(g, id) && HasType(v, t)
    ensures id in GroupMeaning(g, dcAware)
    ensures NodeForKey(GroupMeaning(g, dcAware)[id], Write(t, v), primary) ==
      Ok(Destination(g, dcAware, primary, KeyHash(t, v)))
  {
    if !Routes(g) {
      NotRoutedByGroup(g, dcAware, id, primary, Write(t, v));
    } else if KeyHash(t, v).Known? {
      RoutedByGroup(g, dcAware, id, primary, t, v);
    } else {
      MeaningListsCaches(g, dcAware, id);
      UnknownIsNotRouted(GroupMeaning(g, dcAware)[id], t, v, primary);
    }
  }

  /** What the look-up finds once the reply has been applied and other caches have changed since. */
  lemma FoundAfterReply(log: seq<Event>, reply: Reply, dcAware: bool, since: seq<Event>, k: nat, id: i32)
    requires GoodReply(reply) && ListedLast(reply.groups, k, id)
    requires forall i :: 0 <= i < |since| ==> !Touches(since[i], id)
    ensures id in GroupMeaning(reply.groups[k], dcAware)
    ensures var m := Meaning(reply, dcAware);
      Latest(log + [Applied(m.version, m.caches)] + since, id) == Some(GroupMeaning(reply.groups[k], dcAware)[id])
  {
    var m := Meaning(reply, dcAware);
    LastDecides(reply.groups, k, id, dcAware);
    LatestIsApplied(log, m, id);
    LatestSurvives(log + [Applied(m.version, m.caches)], since, id);
  }

  /** A reply is read and applied, other caches change, a key is marshalled and looked up: for every well-formed reply,
      every flag setting, every key of every type and both maps, the answer is where the last group naming the cache
      sends the key, and exactly the reply's bytes were consumed. */
  method RouteAfterReply(cache: AffinityCache, r: Reader, dcAware: bool, allMappings: bool, later: seq<Event>,
      id: i32, t: Ty, v: Val, primary: bool, ghost reply: Reply, ghost rest: Bytes, ghost k: nat)
    returns (node: Result<Option<Node>>)
    requires cache.Valid() && GoodReply(reply) && r.rest == PutReply(reply, dcAware, allMappings) + rest
    requires ListedLast(reply.groups, k, id) && HasType(v, t)
    requires forall i :: 0 <= i < |later| ==> !Touches(later[i], id)
    modifies cache, r
    ensures cache.Valid() && r.rest == rest
    ensures node == Ok(Destination(reply.groups[k], dcAware, primary, KeyHash(t, v)))
  {
    ReadAndApply(cache, r, dcAware, allMappings, reply, rest);
    PerformAll(cache, later);
    FoundAfterReply(old(cache.log), reply, dcAware, later, k, id);
    RoutedExactlyWhen(reply.groups[k], dcAware, id, primary, t, v);
    node := MarshalAndResolve(cache, id, t, v, primary);
  }

  method MarshalAndResolve(cache: AffinityCache, id: i32, t: Ty, v: Val, primary: bool)
    returns (node: Result<Option<Node>>)
    requires cache.Valid() && HasType(v, t)
    ensures node ==
      match Latest(cache.log, id) case None => Ok(None) case Some(m) => NodeForKey(m, Write(t, v), primary)
  {
    var key := new Writer();
    WriteValue(t, v, key);
    assert [] + Write(t, v) == Write(t, v);
    node := cache.ResolveNodeForKey(id, key.buf, primary);
  }
}
