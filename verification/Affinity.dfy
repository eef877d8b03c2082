/** Partition-aware routing: from a key's hash to a partition, and from a partition to the node that the
    latest applied map lists for it. */
module Affinity {
  import opened Wire
  import opened Bits
  import opened Wrappers
  import opened Codec
  import opened KeyHashing

  type Node = Bytes
  type Version = (i64, i32)

  datatype CacheMap = CacheMap(primary: seq<Option<Node>>, dc: seq<Option<Node>>, keyFields: bool)

  // ------------------------------------------------------------------ partition of a hash

  /** Rust's `%`, which truncates toward zero. */
  function TruncRem(a: int, n: int): int
    requires n > 0
  {
    if a < 0 then -(-a % n) else a % n
  }

  function Abs(a: int): nat {
    if a < 0 then -a else a
  }

  function WrappingAbs(a: i32): i32 {
    if a == -0x8000_0000 then a else if a < 0 then -a else a
  }

  /** `rendezvous_partition`.  For n > 0 the mask n - 1 has no sign bit, so the masked value is read off
      the unsigned hash. */
  function Rendezvous(hash: i32, n: i32): i32
    requires n > 0
  {
    BaseValues();
    if And(n, n - 1) == 0 then
      var u := Unsigned(4, hash);
      And(Xor(u, u / 0x1_0000), n - 1)
    else
      RemFits(hash, n);
      var abs := WrappingAbs(TruncRem(hash, n));
      if abs < 0 then 0 else abs
  }

  lemma RemFits(a: i32, n: i32)
    requires n > 0
    ensures -n < TruncRem(a, n) < n
    ensures Abs(a) % n == Abs(TruncRem(a, n))
  {
  }

  /** Powers of two take the folded hash modulo n, all other counts the absolute value of the hash
      modulo n; the partition is always one of 0..n. */
  lemma RendezvousMeaning(hash: i32, n: i32)
    requires n > 0
    ensures Fits(4, hash)
    ensures 0 <= Rendezvous(hash, n) < n
    ensures IsPow2(n) ==> Rendezvous(hash, n) == Xor(Unsigned(4, hash), Unsigned(4, hash) / 0x1_0000) % n
    ensures !IsPow2(n) ==> Rendezvous(hash, n) == Abs(hash) % n
  {
    BaseValues();
    PowerOfTwoTest(n);
    if IsPow2(n) {
      var k: nat :| n == Pow2(k);
      var u := Unsigned(4, hash);
      AndMask(Xor(u, u / 0x1_0000), k);
    } else {
      RemFits(hash, n);
    }
  }

  lemma XorZero(x: nat)
    ensures Xor(x, 0) == x
  {
    if x > 0 { XorZero(x / 2); }
  }

  /** No partition of a map the client accepts is unreachable: small hashes are their own partition. */
  lemma EveryPartitionIsReached(p: i32, n: i32)
    requires 0 <= p < n <= 0x1_0000
    ensures Rendezvous(p, n) == p
  {
    BaseValues();
    RendezvousMeaning(p, n);
    XorZero(p);
    SmallMod(p, n);
  }

  lemma SmallMod(x: nat, n: nat)
    requires x < n
    ensures x % n == x
  {
    DivModUnique(x, n, 0, x);
  }

  // ------------------------------------------------------------------ lookups in one map

  function Side(m: CacheMap, primary: bool): seq<Option<Node>> {
    if primary then m.primary else m.dc
  }

  function At(parts: seq<Option<Node>>, p: int): Option<Node> {
    if 0 <= p < |parts| then parts[p] else None
  }

  /** The node for a marshalled key; `Err(Panic)` where hashing a malformed key panics. */
  function NodeForKey(m: CacheMap, key: Bytes, primary: bool): Result<Option<Node>> {
    var n := Wrap32(|m.primary|);
    if m.keyFields || n <= 0 then Ok(None)
    else
      match AffinityHash(key)
      case Unknown => Ok(None)
      case Aborts => Err(Panic)
      case Known(h) => Ok(At(Side(m, primary), Rendezvous(h, n)))
  }

  /** Routing end to end: a key of any type goes to the node listed for the partition of its Java hash. */
  lemma KeyGoesToItsPartition(m: CacheMap, t: Ty, v: Val, primary: bool)
    requires HasType(v, t) && !m.keyFields && 0 < |m.primary| < MAX_LEN && KeyHash(t, v).Known?
    ensures var p := Rendezvous(KeyHash(t, v).h, |m.primary|);
      && 0 <= p < |m.primary|
      && NodeForKey(m, Write(t, v), primary) == Ok(At(Side(m, primary), p))
  {
    assert Write(t, v) + [] == Write(t, v);
    HashOfMarshalled(t, v, []);
    RendezvousMeaning(KeyHash(t, v).h, |m.primary|);
    WrapFits(|m.primary|);
  }

  // ------------------------------------------------------------------ what the cache has been told

  datatype Event = Applied(version: Version, maps: map<i32, CacheMap>) | Invalidated | CacheInvalidated(id: i32)

  /** The latest map applied for a cache, unless something invalidated it since. */
  function Latest(log: seq<Event>, id: i32): Option<CacheMap> {
    if log == [] then None
    else
      var last, before := log[|log| - 1], log[..|log| - 1];
      match last
      case Applied(_, maps) => if id in maps then Some(maps[id]) else Latest(before, id)
      case Invalidated => None
      case CacheInvalidated(c) => if c == id then None else Latest(before, id)
  }

  function LatestVersion(log: seq<Event>): Option<Version> {
    if log == [] then None
    else
      match log[|log| - 1]
      case Applied(v, _) => Some(v)
      case Invalidated => None
      case CacheInvalidated(_) => LatestVersion(log[..|log| - 1])
  }

  predicate Touches(e: Event, id: i32) {
    e.Invalidated? || (e.CacheInvalidated? && e.id == id) || (e.Applied? && id in e.maps)
  }

  ghost predicate AppliedLast(log: seq<Event>, id: i32, m: CacheMap, k: nat) {
    && k < |log| && log[k].Applied? && id in log[k].maps && log[k].maps[id] == m
    && forall j :: k < j < |log| ==> !Touches(log[j], id)
  }

  /** Latest(log, id) is m exactly when some apply brought m and nothing touched the cache after it. */
  lemma {:induction false} LatestMeaning(log: seq<Event>, id: i32, m: CacheMap)
    ensures Latest(log, id) == Some(m) <==> exists k: nat :: AppliedLast(log, id, m, k)
  {
    if log != [] {
      var n := |log| - 1;
      LatestMeaning(log[..n], id, m);
      if Latest(log, id) == Some(m) {
        if Touches(log[n], id) {
          assert AppliedLast(log, id, m, n);
        } else {
          var k: nat :| AppliedLast(log[..n], id, m, k);
          assert AppliedLast(log, id, m, k);
        }
      }
      if k: nat :| AppliedLast(log, id, m, k) {
        if k < n {
          assert !Touches(log[n], id);
          assert AppliedLast(log[..n], id, m, k);
        }
      }
    }
  }

  /** After an invalidation nothing is known about any cache until the next apply. */
  lemma {:induction false} SilentUntilApply(log: seq<Event>, since: seq<Event>, id: i32)
    requires forall i :: 0 <= i < |since| ==> !since[i].Applied?
    ensures Latest(log + [Invalidated] + since, id) == None && LatestVersion(log + [Invalidated] + since) == None
  {
    var all := log + [Invalidated] + since;
    if since != [] {
      var n := |since| - 1;
      SilentUntilApply(log, since[..n], id);
      assert all[..|all| - 1] == log + [Invalidated] + since[..n];
      assert all[|all| - 1] == since[n];
    } else {
      assert all == log + [Invalidated];
    }
  }

  // ------------------------------------------------------------------ single node

  predicate MapNames(m: CacheMap, x: Node) {
    Some(x) in m.primary || Some(x) in m.dc
  }

  predicate Names(caches: map<i32, CacheMap>, x: Node) {
    exists c :: c in caches && MapNames(caches[c], x)
  }

  ghost predicate OneNode(caches: map<i32, CacheMap>) {
    forall x, y :: Names(caches, x) && Names(caches, y) ==> x == y
  }

  function Answer(caches: map<i32, CacheMap>, id: i32, p: int, primary: bool): Option<Node> {
    if id in caches then At(Side(caches[id], primary), p) else None
  }

  lemma AnswerIsNamed(caches: map<i32, CacheMap>, id: i32, p: int, primary: bool)
    requires Answer(caches, id, p, primary).Some?
    ensures Names(caches, Answer(caches, id, p, primary).value)
  {
  }

  /** With one node all lookups agree, whatever cache, partition and map they use. */
  lemma OneNodeAnswersAlike(caches: map<i32, CacheMap>, id: i32, p: int, primary: bool, id': i32, p': int,
      primary': bool)
    requires OneNode(caches)
    requires Answer(caches, id, p, primary).Some? && Answer(caches, id', p', primary').Some?
    ensures Answer(caches, id, p, primary) == Answer(caches, id', p', primary')
  {
    AnswerIsNamed(caches, id, p, primary);
    AnswerIsNamed(caches, id', p', primary');
  }

  method NodesIn(parts: seq<Option<Node>>, found: set<Node>) returns (nodes: set<Node>)
    ensures forall x :: x in nodes <==> x in found || Some(x) in parts
  {
    nodes := found;
    for i := 0 to |parts|
      invariant forall x :: x in nodes <==> x in found || Some(x) in parts[..i]
    {
      if parts[i].Some? { nodes := nodes + {parts[i].value}; }
    }
    assert parts[..|parts|] == parts;
  }

  /** The nodes named by any cached map, whatever order the hash map yields them in. */
  method AllNodes(caches: map<i32, CacheMap>) returns (nodes: set<Node>)
    ensures forall x :: x in nodes <==> Names(caches, x)
  {
    nodes := {};
    var left := caches.Keys;
    while left != {}
      invariant left <= caches.Keys
      invariant forall x :: x in nodes <==> exists c :: c in caches && c !in left && MapNames(caches[c], x)
    {
      var c :| c in left;
      nodes := NodesIn(caches[c].primary, nodes);
      nodes := NodesIn(caches[c].dc, nodes);
      left := left - {c};
    }
  }

  lemma SmallSet(nodes: set<Node>)
    ensures |nodes| <= 1 <==> forall x, y :: x in nodes && y in nodes ==> x == y
  {
    if |nodes| > 0 {
      var a :| a in nodes;
      assert |nodes| == 1 + |nodes - {a}|;
      if |nodes| > 1 {
        var b :| b in nodes - {a};
        assert a != b;
      } else {
        assert nodes - {a} == {};
        assert forall x :: x in nodes ==> x == a;
      }
    }
  }

  // ------------------------------------------------------------------ the cache

  /** `AffinityCache`.  `singleNodeCached` is the atomic copy of `singleNode`; `log` records the calls. */
  class AffinityCache {
    var version: Option<Version>
    var caches: map<i32, CacheMap>
    var singleNode: bool
    var singleNodeCached: bool
    ghost var log: seq<Event>

    /** The stored maps are exactly the latest ones, the two flags agree, and a set flag is truthful. */
    ghost predicate Valid()
      reads this
    {
      && (forall id: i32 :: Latest(log, id) == if id in caches then Some(caches[id]) else None)
      && version == LatestVersion(log)
      && (version.None? ==> caches == map[])
      && singleNodeCached == singleNode
      && (singleNode ==> OneNode(caches))
    }

    constructor ()
      ensures Valid() && log == []
    {
      version, caches, singleNode, singleNodeCached, log := None, map[], false, false, [];
    }

    method Invalidate()
      requires Valid()
      modifies this
      ensures Valid() && log == old(log) + [Invalidated]
      ensures !singleNode && version == None && caches == map[]
    {
      version, caches, singleNode := None, map[], false;
      singleNodeCached := false;
      log := log + [Invalidated];
    }

    method InvalidateCache(id: i32)
      requires Valid()
      modifies this
      ensures Valid() && log == old(log) + [CacheInvalidated(id)]
      ensures caches == old(caches) - {id} && version == old(version)
      ensures singleNode <==> OneNode(caches) && caches != map[]
    {
      caches := caches - {id};
      var nodes := AllNodes(caches);
      SmallSet(nodes);
      singleNode := |nodes| <= 1 && caches != map[];
      singleNodeCached := singleNode;
      assert (log + [CacheInvalidated(id)])[..|log|] == log;
      log := log + [CacheInvalidated(id)];
    }

    method Apply(v: Version, maps: map<i32, CacheMap>)
      requires Valid()
      modifies this
      ensures Valid() && log == old(log) + [Applied(v, maps)]
      ensures caches == old(caches) + maps && version == Some(v)
      ensures singleNode <==> OneNode(caches)
    {
      version := Some(v);
      caches := caches + maps;
      var nodes := AllNodes(caches);
      SmallSet(nodes);
      singleNode := |nodes| <= 1;
      singleNodeCached := singleNode;
      assert (log + [Applied(v, maps)])[..|log|] == log;
      log := log + [Applied(v, maps)];
    }

    method NeedsRefresh(id: i32) returns (b: bool)
      requires Valid()
      ensures b <==> Latest(log, id).None?
    {
      b := version.None? || id !in caches;
    }

    /** When the flag is read as set, no two lookups can disagree. */
    method IsSingleNode() returns (b: bool)
      requires Valid()
      ensures b == singleNode
      ensures b ==> forall id, p, primary, id', p', primary' ::
          Answer(caches, id, p, primary).Some? && Answer(caches, id', p', primary').Some?
          ==> Answer(caches, id, p, primary) == Answer(caches, id', p', primary')
    {
      b := singleNodeCached;
      if b {
        forall id, p, primary, id', p', primary' |
            Answer(caches, id, p, primary).Some? && Answer(caches, id', p', primary').Some?
          ensures Answer(caches, id, p, primary) == Answer(caches, id', p', primary')
        {
          OneNodeAnswersAlike(caches, id, p, primary, id', p', primary');
        }
      }
    }

    method NodeForPartition(id: i32, partition: i32, primary: bool) returns (node: Option<Node>)
      requires Valid()
      ensures node == Answer(caches, id, partition, primary)
      ensures node == match Latest(log, id) case None => None case Some(m) => At(Side(m, primary), partition)
    {
      if partition < 0 { return None; }
      if id !in caches { return None; }
      var parts := if primary then caches[id].primary else caches[id].dc;
      node := if partition < |parts| then parts[partition] else None;
    }

    /** Freshness check, hash, partition and lookup on one snapshot. */
    method ResolveNodeForKey(id: i32, key: Bytes, primary: bool) returns (node: Result<Option<Node>>)
      requires Valid()
      ensures node == match Latest(log, id) case None => Ok(None) case Some(m) => NodeForKey(m, key, primary)
    {
      if version.None? || id !in caches { return Ok(None); }
      var cache := caches[id];
      if cache.keyFields { return Ok(None); }
      var n := Wrap32(|cache.primary|);
      if n <= 0 { return Ok(None); }
      var hash := AffinityHash(key);
      if hash.Aborts? { return Err(Panic); }
      if hash.Unknown? { return Ok(None); }
      var partition := Rendezvous(hash.h, n);
      node := Ok(At(Side(cache, primary), partition));
    }

    /** The same answer without the freshness check: a stale cache holds no maps at all. */
    method NodeForMarshaledKey(id: i32, key: Bytes, primary: bool) returns (node: Result<Option<Node>>)
      requires Valid()
      ensures node == match Latest(log, id) case None => Ok(None) case Some(m) => NodeForKey(m, key, primary)
    {
      if id !in caches { return Ok(None); }
      var cache := caches[id];
      var n := Wrap32(|cache.primary|);
      if cache.keyFields || n <= 0 { return Ok(None); }
      var hash := AffinityHash(key);
      if hash.Aborts? { return Err(Panic); }
      if hash.Unknown? { return Ok(None); }
      var partition := Rendezvous(hash.h, n);
      node := Ok(At(Side(cache, primary), partition));
    }
  }
}
