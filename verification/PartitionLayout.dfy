/** Replies in the documented layout, and the proof that the decoder reads back what they mean. */
module PartitionLayout {
  import opened Wire
  import opened Wrappers
  import opened Uuid
  import opened Codec
  import opened CodecRoundTrip
  import opened KeyHashing
  import opened Affinity
  import opened PartitionReply

  // ------------------------------------------------------------------ replies

  datatype NodeParts = NodeParts(most: i64, least: i64, ids: seq<i32>)
  datatype CacheEntry = CacheEntry(id: i32, keyConfigs: seq<(i32, i32)>)
  datatype Group =
    | Applicable(caches: seq<CacheEntry>, primary: seq<NodeParts>, dc: seq<NodeParts>, defaultAffinity: bool)
    | NotApplicable(ids: seq<i32>)
  datatype Reply = Reply(major: i64, minor: i32, groups: seq<Group>)

  predicate GoodNode(n: NodeParts) {
    |n.ids| <= 65536 && forall i :: 0 <= i < |n.ids| ==> 0 <= n.ids[i] <= 65535
  }

  predicate GoodNodes(ns: seq<NodeParts>) {
    |ns| <= 4096 && forall i :: 0 <= i < |ns| ==> GoodNode(ns[i])
  }

  predicate GoodGroup(g: Group) {
    match g
    case Applicable(cs, primary, dc, _) =>
      && |cs| < MAX_LEN && (forall i :: 0 <= i < |cs| ==> |cs[i].keyConfigs| < MAX_LEN)
      && GoodNodes(primary) && GoodNodes(dc)
    case NotApplicable(ids) => |ids| < MAX_LEN
  }

  predicate GoodReply(r: Reply) {
    |r.groups| < MAX_LEN && forall i :: 0 <= i < |r.groups| ==> GoodGroup(r.groups[i])
  }

  // ------------------------------------------------------------------ their bytes

  function PutI32s(xs: seq<i32>): Bytes {
    if xs == [] then [] else PutI32(xs[0]) + PutI32s(xs[1..])
  }

  function PutNode(n: NodeParts): Bytes
    requires GoodNode(n)
  {
    PutI64(n.most) + (PutI64(n.least) + (PutI32(|n.ids|) + PutI32s(n.ids)))
  }

  function PutNodeList(ns: seq<NodeParts>): Bytes
    requires forall i :: 0 <= i < |ns| ==> GoodNode(ns[i])
  {
    if ns == [] then [] else PutNode(ns[0]) + PutNodeList(ns[1..])
  }

  function PutNodes(ns: seq<NodeParts>): Bytes
    requires GoodNodes(ns)
  {
    PutI32(|ns|) + PutNodeList(ns)
  }

  function PutConfigs(cs: seq<(i32, i32)>): (s: Bytes)
    ensures |s| == 8 * |cs|
  {
    if cs == [] then [] else PutI32(cs[0].0) + PutI32(cs[0].1) + PutConfigs(cs[1..])
  }

  function PutEntry(c: CacheEntry): Bytes
    requires |c.keyConfigs| < MAX_LEN
  {
    PutI32(c.id) + (PutI32(|c.keyConfigs|) + PutConfigs(c.keyConfigs))
  }

  function PutEntries(cs: seq<CacheEntry>): Bytes
    requires forall i :: 0 <= i < |cs| ==> |cs[i].keyConfigs| < MAX_LEN
  {
    if cs == [] then [] else PutEntry(cs[0]) + PutEntries(cs[1..])
  }

  function PutGroup(g: Group, dcAware: bool, allMappings: bool): Bytes
    requires GoodGroup(g)
  {
    match g
    case Applicable(cs, primary, dc, default) =>
      PutBool(true) + (PutI32(|cs|) + (PutEntries(cs) + (PutNodes(primary)
        + ((if dcAware then PutNodes(dc) else []) + (if allMappings then PutBool(default) else [])))))
    case NotApplicable(ids) => PutBool(false) + (PutI32(|ids|) + PutI32s(ids))
  }

  function PutGroups(gs: seq<Group>, dcAware: bool, allMappings: bool): Bytes
    requires forall i :: 0 <= i < |gs| ==> GoodGroup(gs[i])
  {
    if gs == [] then [] else PutGroup(gs[0], dcAware, allMappings) + PutGroups(gs[1..], dcAware, allMappings)
  }

  function PutReply(r: Reply, dcAware: bool, allMappings: bool): Bytes
    requires GoodReply(r)
  {
    PutI64(r.major) + (PutI32(r.minor) + (PutI32(|r.groups|) + PutGroups(r.groups, dcAware, allMappings)))
  }

  lemma OneNodeBytes(most: i64, least: i64, p: i32)
    requires 0 <= p <= 65535
    ensures GoodNodes([NodeParts(most, least, [p])])
    ensures PutNodes([NodeParts(most, least, [p])]) ==
      PutI32(1) + (PutI64(most) + (PutI64(least) + (PutI32(1) + PutI32(p))))
  {
    var n := NodeParts(most, least, [p]);
    assert GoodNode(n);
    assert [n][1..] == [] && [p][1..] == [];
    assert PutI32s([p]) == PutI32(p) + [] == PutI32(p);
    assert PutNodeList([n]) == PutNode(n) + [] == PutNode(n);
  }

  lemma OneEntryBytes(id: i32, keyType: i32, field: i32)
    ensures PutEntries([CacheEntry(id, [(keyType, field)])]) ==
      PutI32(id) + (PutI32(1) + (PutI32(keyType) + PutI32(field)))
  {
    var c := CacheEntry(id, [(keyType, field)]);
    assert [c][1..] == [] && c.keyConfigs[1..] == [];
    assert PutConfigs(c.keyConfigs) == PutI32(keyType) + PutI32(field) + [] == PutI32(keyType) + PutI32(field);
    assert PutEntries([c]) == PutEntry(c) + [] == PutEntry(c);
  }

  /** A reply with one group, one cache, one key configuration and one node, field by field: version, group count, then
      the group with its caches, the primary nodes, the data-centre nodes and the affinity flag. */
  lemma ReplyFieldByField(r: Reply, id: i32, keyType: i32, field: i32, most: i64, least: i64, p: i32, b: bool)
    requires 0 <= p <= 65535
    requires r.groups == [Applicable([CacheEntry(id, [(keyType, field)])], [NodeParts(most, least, [p])], [], b)]
    ensures GoodReply(r)
    ensures var entry := PutI32(id) + (PutI32(1) + (PutI32(keyType) + PutI32(field)));
      var nodes := PutI32(1) + (PutI64(most) + (PutI64(least) + (PutI32(1) + PutI32(p))));
      var group := [1] + (PutI32(1) + (entry + (nodes + (PutI32(0) + PutBool(b)))));
      PutReply(r, true, true) == PutI64(r.major) + (PutI32(r.minor) + (PutI32(1) + group))
  {
    var g := r.groups[0];
    OneNodeBytes(most, least, p);
    OneEntryBytes(id, keyType, field);
    assert PutNodes([]) == PutI32(0) + [] == PutI32(0);
    assert GoodGroup(g);
    assert r.groups[1..] == [];
    assert PutGroups(r.groups, true, true) == PutGroup(g, true, true) + [] == PutGroup(g, true, true);
  }

  // ------------------------------------------------------------------ their meaning

  function NodeText(n: NodeParts): Node {
    UuidText(n.most, n.least)
  }

  function IdsOf(x: Node, ids: seq<i32>): (l: Listing)
    requires forall i :: 0 <= i < |ids| ==> 0 <= ids[i]
    ensures |l| == |ids| && forall i :: 0 <= i < |ids| ==> l[i] == (ids[i], x)
  {
    seq(|ids|, i requires 0 <= i < |ids| => (ids[i], x))
  }

  /** All partition ids of all nodes, in order. */
  function ListingOf(ns: seq<NodeParts>): Listing
    requires forall i :: 0 <= i < |ns| ==> GoodNode(ns[i])
  {
    if ns == [] then []
    else
      assert GoodNode(ns[0]);
      IdsOf(NodeText(ns[0]), ns[0].ids) + ListingOf(ns[1..])
  }

  /** The map a node list stands for. */
  function NodeMap(ns: seq<NodeParts>): seq<Option<Node>>
    requires GoodNodes(ns)
  {
    MapOf(ListingOf(ns))
  }

  function EntriesOf(cs: seq<CacheEntry>): (es: seq<(i32, bool)>)
    ensures |es| == |cs| && forall i :: 0 <= i < |cs| ==> es[i] == (cs[i].id, cs[i].keyConfigs != [])
  {
    seq(|cs|, i requires 0 <= i < |cs| => (cs[i].id, cs[i].keyConfigs != []))
  }

  /** The caches of a group share their maps, and share the flag that some of them has key configurations;
      an empty data-centre map falls back to the primary one. */
  function GroupMeaning(g: Group, dcAware: bool): Maps
    requires GoodGroup(g)
  {
    match g
    case Applicable(cs, primary, dc, _) =>
      var p := NodeMap(primary);
      var d := if dcAware && NodeMap(dc) != [] then NodeMap(dc) else p;
      ForAll(Ids(EntriesOf(cs)), CacheMap(p, d, AnyKeyConfig(EntriesOf(cs))))
    case NotApplicable(ids) => ForAll(ids, CacheMap([], [], true))
  }

  function GroupMeanings(gs: seq<Group>, dcAware: bool): (ms: seq<Maps>)
    requires forall i :: 0 <= i < |gs| ==> GoodGroup(gs[i])
    ensures |ms| == |gs| && forall i :: 0 <= i < |gs| ==> ms[i] == GroupMeaning(gs[i], dcAware)
  {
    if gs == [] then [] else [GroupMeaning(gs[0], dcAware)] + GroupMeanings(gs[1..], dcAware)
  }

  function Meaning(r: Reply, dcAware: bool): Partitions
    requires GoodReply(r)
  {
    Partitions((r.major, r.minor), Merge(GroupMeanings(r.groups, dcAware)))
  }

  // ------------------------------------------------------------------ the decoder reads the meaning

  lemma GetPutI32Then(v: i32, a: Bytes, rest: Bytes)
    ensures GetI32(PutI32(v) + a + rest) == Got(v, a + rest)
  {
    Assoc(PutI32(v), a, rest);
    GetPutI32(v, a + rest);
  }

  lemma GetPutI64Then(v: i64, a: Bytes, rest: Bytes)
    ensures GetI64(PutI64(v) + a + rest) == Got(v, a + rest)
  {
    Assoc(PutI64(v), a, rest);
    GetPutI64(v, a + rest);
  }

  lemma {:induction false} GetPutIds(x: Node, ids: seq<i32>, rest: Bytes)
    requires forall i :: 0 <= i < |ids| ==> 0 <= ids[i] <= MAX_PARTITION_ID
    ensures GetIds(|ids|, x, PutI32s(ids) + rest) == Got(IdsOf(x, ids), rest)
  {
    if ids == [] {
      assert [] + rest == rest;
    } else {
      GetPutI32Then(ids[0], PutI32s(ids[1..]), rest);
      GetPutIds(x, ids[1..], rest);
      assert [(ids[0], x)] + IdsOf(x, ids[1..]) == IdsOf(x, ids);
    }
  }

  lemma GetPutNode(n: NodeParts, rest: Bytes)
    requires GoodNode(n)
    ensures GetNode(PutNode(n) + rest) == Got(IdsOf(NodeText(n), n.ids), rest)
  {
    var s3 := PutI32s(n.ids);
    var s2 := PutI32(|n.ids|) + s3;
    GetPutI64Then(n.most, PutI64(n.least) + s2, rest);
    GetPutI64Then(n.least, s2, rest);
    GetPutI32Then(|n.ids|, s3, rest);
    GetPutIds(NodeText(n), n.ids, rest);
  }

  lemma {:induction false} GetPutNodeList(ns: seq<NodeParts>, rest: Bytes)
    requires forall i :: 0 <= i < |ns| ==> GoodNode(ns[i])
    ensures GetNodes(|ns|, PutNodeList(ns) + rest) == Got(ListingOf(ns), rest)
  {
    if ns == [] {
      assert [] + rest == rest;
    } else {
      var tail := PutNodeList(ns[1..]) + rest;
      Assoc(PutNode(ns[0]), PutNodeList(ns[1..]), rest);
      GetPutNode(ns[0], tail);
      GetPutNodeList(ns[1..], rest);
    }
  }

  /** A node list decodes to its map and nothing behind it is touched. */
  lemma GetPutNodes(ns: seq<NodeParts>, rest: Bytes)
    requires GoodNodes(ns)
    ensures GetPartitionMap(PutNodes(ns) + rest) == Got(NodeMap(ns), rest)
  {
    GetPutI32Then(|ns|, PutNodeList(ns), rest);
    GetPutNodeList(ns, rest);
  }

  lemma GetPutEntry(c: CacheEntry, rest: Bytes)
    requires |c.keyConfigs| < MAX_LEN
    ensures GetCacheEntry(PutEntry(c) + rest) == Got((c.id, c.keyConfigs != []), rest)
  {
    var s := PutConfigs(c.keyConfigs);
    GetPutI32Then(c.id, PutI32(|c.keyConfigs|) + s, rest);
    GetPutI32Then(|c.keyConfigs|, s, rest);
    SkipPrefix(s, rest);
  }

  lemma {:induction false} GetPutEntries(cs: seq<CacheEntry>, rest: Bytes)
    requires forall i :: 0 <= i < |cs| ==> |cs[i].keyConfigs| < MAX_LEN
    ensures GetCacheEntries(|cs|, PutEntries(cs) + rest) == Got(EntriesOf(cs), rest)
  {
    if cs == [] {
      assert [] + rest == rest;
    } else {
      Assoc(PutEntry(cs[0]), PutEntries(cs[1..]), rest);
      GetPutEntry(cs[0], PutEntries(cs[1..]) + rest);
      GetPutEntries(cs[1..], rest);
      assert [(cs[0].id, cs[0].keyConfigs != [])] + EntriesOf(cs[1..]) == EntriesOf(cs);
    }
  }

  lemma {:induction false} GetPutI32s(xs: seq<i32>, rest: Bytes)
    ensures GetI32s(|xs|, PutI32s(xs) + rest) == Got(xs, rest)
  {
    if xs == [] {
      assert [] + rest == rest;
    } else {
      GetPutI32Then(xs[0], PutI32s(xs[1..]), rest);
      GetPutI32s(xs[1..], rest);
      assert [xs[0]] + xs[1..] == xs;
    }
  }

  lemma GetPutBool(b: bool, rest: Bytes)
    ensures GetBool(PutBool(b) + rest) == Got(b, rest)
  {
  }

  lemma GetPutDc(ns: seq<NodeParts>, dcAware: bool, primary: seq<Option<Node>>, rest: Bytes)
    requires GoodNodes(ns)
    ensures GetDcMap(dcAware, primary, (if dcAware then PutNodes(ns) else []) + rest)
         == Got(if dcAware && NodeMap(ns) != [] then NodeMap(ns) else primary, rest)
  {
    if dcAware { GetPutNodes(ns, rest); } else { assert [] + rest == rest; }
  }

  lemma GetPutDefault(b: bool, present: bool, rest: Bytes)
    ensures GetDefaultAffinity(present, (if present then PutBool(b) else []) + rest) == Got((), rest)
  {
  }

  lemma GetPutApplicable(g: Group, dcAware: bool, allMappings: bool, rest: Bytes)
    requires GoodGroup(g) && g.Applicable?
    ensures GetApplicable(|g.caches|, dcAware, allMappings,
        PutEntries(g.caches) + (PutNodes(g.primary) + ((if dcAware then PutNodes(g.dc) else [])
          + (if allMappings then PutBool(g.defaultAffinity) else []))) + rest)
      == Got(GroupMeaning(g, dcAware), rest)
  {
    var d := if dcAware then PutNodes(g.dc) else [];
    var b := if allMappings then PutBool(g.defaultAffinity) else [];
    var n := PutNodes(g.primary);
    Assoc(PutEntries(g.caches), n + (d + b), rest);
    Assoc(n, d + b, rest);
    Assoc(d, b, rest);
    GetPutEntries(g.caches, n + (d + b) + rest);
    GetPutNodes(g.primary, d + b + rest);
    GetPutDc(g.dc, dcAware, NodeMap(g.primary), b + rest);
    GetPutDefault(g.defaultAffinity, allMappings, rest);
  }

  lemma GetPutGroup(g: Group, dcAware: bool, allMappings: bool, rest: Bytes)
    requires GoodGroup(g)
    ensures GetGroup(dcAware, allMappings, PutGroup(g, dcAware, allMappings) + rest) ==
      Got(GroupMeaning(g, dcAware), rest)
  {
    match g
    case Applicable(cs, primary, dc, default) =>
      var tail := (if dcAware then PutNodes(dc) else []) + (if allMappings then PutBool(default) else []);
      var body := PutEntries(cs) + (PutNodes(primary) + tail);
      Assoc(PutBool(true), PutI32(|cs|) + body, rest);
      GetPutBool(true, PutI32(|cs|) + body + rest);
      GetPutI32Then(|cs|, body, rest);
      GetPutApplicable(g, dcAware, allMappings, rest);
    case NotApplicable(ids) =>
      Assoc(PutBool(false), PutI32(|ids|) + PutI32s(ids), rest);
      GetPutBool(false, PutI32(|ids|) + PutI32s(ids) + rest);
      GetPutI32Then(|ids|, PutI32s(ids), rest);
      GetPutI32s(ids, rest);
  }

  lemma {:induction false} GetPutGroups(gs: seq<Group>, dcAware: bool, allMappings: bool, rest: Bytes)
    requires forall i :: 0 <= i < |gs| ==> GoodGroup(gs[i])
    ensures GetGroups(|gs|, dcAware, allMappings, PutGroups(gs, dcAware, allMappings) + rest) ==
      Got(GroupMeanings(gs, dcAware), rest)
  {
    if gs == [] {
      assert [] + rest == rest;
    } else {
      var tail := PutGroups(gs[1..], dcAware, allMappings) + rest;
      Assoc(PutGroup(gs[0], dcAware, allMappings), PutGroups(gs[1..], dcAware, allMappings), rest);
      GetPutGroup(gs[0], dcAware, allMappings, tail);
      GetPutGroups(gs[1..], dcAware, allMappings, rest);
    }
  }

  /** Every well-formed reply, under all four flag settings: the decoder consumes exactly its bytes and
      yields its meaning. */
  lemma DecodesToMeaning(r: Reply, dcAware: bool, allMappings: bool, rest: Bytes)
    requires GoodReply(r)
    ensures GetReply(dcAware, allMappings, PutReply(r, dcAware, allMappings) + rest) == Got(Meaning(r, dcAware), rest)
  {
    var body := PutGroups(r.groups, dcAware, allMappings);
    GetPutI64Then(r.major, PutI32(r.minor) + (PutI32(|r.groups|) + body), rest);
    GetPutI32Then(r.minor, PutI32(|r.groups|) + body, rest);
    GetPutI32Then(|r.groups|, body, rest);
    GetPutGroups(r.groups, dcAware, allMappings, rest);
  }

  // ------------------------------------------------------------------ end to end

  /** The group names the cache. */
  ghost predicate Lists(g: Group, id: i32) {
    match g
    case Applicable(cs, _, _, _) => exists i :: 0 <= i < |cs| && cs[i].id == id
    case NotApplicable(ids) => exists i :: 0 <= i < |ids| && ids[i] == id
  }

  /** A group gives a map to exactly the caches it names. */
  lemma MeaningListsCaches(g: Group, dcAware: bool, id: i32)
    requires GoodGroup(g)
    ensures id in GroupMeaning(g, dcAware) <==> Lists(g, id)
  {
    match g
    case Applicable(cs, _, _, _) =>
      var ids := Ids(EntriesOf(cs));
      assert forall i :: 0 <= i < |cs| ==> ids[i] == cs[i].id;
    case NotApplicable(ids) =>
  }

  /** The last group that names the cache decides. */
  ghost predicate ListedLast(gs: seq<Group>, k: nat, id: i32) {
    k < |gs| && Lists(gs[k], id) && forall j :: k < j < |gs| ==> !Lists(gs[j], id)
  }

  lemma LastDecides(gs: seq<Group>, k: nat, id: i32, dcAware: bool)
    requires (forall i :: 0 <= i < |gs| ==> GoodGroup(gs[i])) && ListedLast(gs, k, id)
    ensures id in GroupMeaning(gs[k], dcAware) && id in Merge(GroupMeanings(gs, dcAware))
    ensures Merge(GroupMeanings(gs, dcAware))[id] == GroupMeaning(gs[k], dcAware)[id]
  {
    forall j | k <= j < |gs| ensures id in GroupMeaning(gs[j], dcAware) <==> Lists(gs[j], id) {
      MeaningListsCaches(gs[j], dcAware, id);
    }
    MergeTakesLast(GroupMeanings(gs, dcAware), k, id);
  }

  lemma {:induction false} MergeLacks(ms: seq<Maps>, id: i32)
    requires forall j :: 0 <= j < |ms| ==> id !in ms[j]
    ensures id !in Merge(ms)
  {
    if ms != [] { MergeLacks(ms[..|ms| - 1], id); }
  }

  /** A reply says nothing about a cache that no group names. */
  lemma UnlistedStays(r: Reply, dcAware: bool, id: i32)
    requires GoodReply(r) && forall j :: 0 <= j < |r.groups| ==> !Lists(r.groups[j], id)
    ensures id !in Meaning(r, dcAware).caches
  {
    forall j | 0 <= j < |r.groups| ensures id !in GroupMeaning(r.groups[j], dcAware) {
      MeaningListsCaches(r.groups[j], dcAware, id);
    }
    MergeLacks(GroupMeanings(r.groups, dcAware), id);
  }

  lemma {:induction false} MergeTakesLast(ms: seq<Maps>, k: nat, id: i32)
    requires k < |ms| && id in ms[k] && forall j :: k < j < |ms| ==> id !in ms[j]
    ensures id in Merge(ms) && Merge(ms)[id] == ms[k][id]
  {
    if k < |ms| - 1 { MergeTakesLast(ms[..|ms| - 1], k, id); }
  }

  lemma {:induction false} ExtentBound(l: Listing, b: nat)
    requires forall i :: 0 <= i < |l| ==> l[i].0 < b
    ensures Extent(l) <= b
  {
    if l != [] { ExtentBound(l[..|l| - 1], b); }
  }

  lemma {:induction false} ListingBound(ns: seq<NodeParts>)
    requires forall i :: 0 <= i < |ns| ==> GoodNode(ns[i])
    ensures forall i :: 0 <= i < |ListingOf(ns)| ==> ListingOf(ns)[i].0 <= MAX_PARTITION_ID
  {
    if ns != [] { ListingBound(ns[1..]); }
  }

  /** Applying a decoded reply makes the last group listing a cache the cache's map. */
  lemma AppliedReply(r: Reply, dcAware: bool, allMappings: bool, log: seq<Event>, k: nat, id: i32)
    requires GoodReply(r) && ListedLast(r.groups, k, id)
    ensures id in GroupMeaning(r.groups[k], dcAware)
    ensures var reply := GetReply(dcAware, allMappings, PutReply(r, dcAware, allMappings));
      && reply.Got? && reply.rest == []
      && Latest(log + [Applied(reply.value.version, reply.value.caches)], id) ==
           Some(GroupMeaning(r.groups[k], dcAware)[id])
  {
    DecodesAlone(r, dcAware, allMappings);
    LastDecides(r.groups, k, id, dcAware);
    LatestIsApplied(log, Meaning(r, dcAware), id);
  }

  lemma DecodesAlone(r: Reply, dcAware: bool, allMappings: bool)
    requires GoodReply(r)
    ensures GetReply(dcAware, allMappings, PutReply(r, dcAware, allMappings)) == Got(Meaning(r, dcAware), [])
  {
    var bytes := PutReply(r, dcAware, allMappings);
    assert bytes + [] == bytes;
    DecodesToMeaning(r, dcAware, allMappings, []);
  }

  lemma LatestIsApplied(log: seq<Event>, p: Partitions, id: i32)
    requires id in p.caches
    ensures Latest(log + [Applied(p.version, p.caches)], id) == Some(p.caches[id])
  {
  }

  lemma AtMap(l: Listing, p: nat)
    ensures At(MapOf(l), p) == LastNode(l, p)
  {
  }
}
