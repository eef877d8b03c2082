/** The reply that carries the partition maps: its layout, its decoder, and what the decoded maps mean. */
module PartitionReply {
  import opened Wire
  import opened Wrappers
  import opened Uuid
  import opened Codec
  import opened KeyHashing
  import opened Affinity

  const MAX_NODES := 4096
  const MAX_PARTITIONS := 65536
  const MAX_PARTITION_ID := 65535

  // ------------------------------------------------------------------ what a node list means

  /** Partition ids in the order listed, each with the node listing it. */
  type Listing = seq<(nat, Node)>

  function Extent(l: Listing): nat {
    if l == [] then 0
    else
      var before, p := Extent(l[..|l| - 1]), l[|l| - 1].0;
      if before <= p then p + 1 else before
  }

  /** The node that names p last. */
  function LastNode(l: Listing, p: nat): Option<Node> {
    if l == [] then None
    else if l[|l| - 1].0 == p then Some(l[|l| - 1].1)
    else LastNode(l[..|l| - 1], p)
  }

  function MapOf(l: Listing): (m: seq<Option<Node>>) {
    seq(Extent(l), p requires 0 <= p < Extent(l) => LastNode(l, p))
  }

  ghost predicate NamedLastAt(l: Listing, p: nat, x: Node, k: nat) {
    k < |l| && l[k] == (p, x) && forall j :: k < j < |l| ==> l[j].0 != p
  }

  /** The map has an entry for every id up to the largest; each entry is the last-listed node naming
      that id, and gaps are empty. */
  lemma {:induction false} MapMeaning(l: Listing, p: nat)
    ensures p < Extent(l) <==> exists k :: 0 <= k < |l| && l[k].0 >= p
    ensures forall x :: LastNode(l, p) == Some(x) <==> exists k: nat :: NamedLastAt(l, p, x, k)
    ensures LastNode(l, p) == None <==> forall k :: 0 <= k < |l| ==> l[k].0 != p
  {
    if l != [] {
      var n := |l| - 1;
      var before := l[..n];
      MapMeaning(before, p);
      if p < Extent(before) {
        var k :| 0 <= k < |before| && before[k].0 >= p;
        assert l[k].0 >= p;
      }
      forall x ensures LastNode(l, p) == Some(x) <==> exists k: nat :: NamedLastAt(l, p, x, k) {
        if l[n].0 == p {
          assert NamedLastAt(l, p, l[n].1, n);
        } else {
          if k: nat :| NamedLastAt(before, p, x, k) { assert NamedLastAt(l, p, x, k); }
          if k: nat :| NamedLastAt(l, p, x, k) { assert NamedLastAt(before, p, x, k); }
        }
      }
    }
  }

  /** `resize` with None, then overwrite one entry. */
  function Place(m: seq<Option<Node>>, p: nat, x: Node): (m': seq<Option<Node>>) {
    var grown := if |m| <= p then m + seq(p + 1 - |m|, _ => None) else m;
    grown[p := Some(x)]
  }

  lemma {:induction false} BeyondExtent(l: Listing, p: nat)
    requires p >= Extent(l)
    ensures LastNode(l, p) == None
  {
    if l != [] { BeyondExtent(l[..|l| - 1], p); }
  }

  /** Placing one more listed id extends the map of the listing. */
  lemma PlaceExtends(l: Listing, p: nat, x: Node)
    ensures Place(MapOf(l), p, x) == MapOf(l + [(p, x)])
  {
    var l', m := l + [(p, x)], Place(MapOf(l), p, x);
    assert l'[..|l|] == l;
    assert |m| == Extent(l');
    forall q | 0 <= q < |m| ensures m[q] == LastNode(l', q) {
      if q >= Extent(l) { BeyondExtent(l, q); }
    }
  }

  // ------------------------------------------------------------------ decoding a node list

  function GetIds(n: nat, x: Node, s: Bytes): Parse<Listing> {
    if n == 0 then Got([], s)
    else
      var (p, rest) :- GetI32(s);
      if p < 0 || p > MAX_PARTITION_ID then Bad(BadFormat)
      else
        var (l, rest') :- GetIds(n - 1, x, rest);
        Got([(p, x)] + l, rest')
  }

  function GetNode(s: Bytes): Parse<Listing> {
    var (x, rest) :- GetUuid(s);
    var (n, rest') :- GetI32(rest);
    if n < 0 || n > MAX_PARTITIONS then Bad(BadFormat) else GetIds(n, x, rest')
  }

  function GetNodes(n: nat, s: Bytes): Parse<Listing> {
    if n == 0 then Got([], s)
    else
      var (l, rest) :- GetNode(s);
      var (l', rest') :- GetNodes(n - 1, rest);
      Got(l + l', rest')
  }

  function GetPartitionMap(s: Bytes): Parse<seq<Option<Node>>> {
    var (n, rest) :- GetI32(s);
    if n < 0 || n > MAX_NODES then Bad(BadFormat)
    else
      var (l, rest') :- GetNodes(n, rest);
      Got(MapOf(l), rest')
  }

  lemma IdsNext(done: Listing, n: nat, x: Node, s: Bytes)
    requires n > 0
    ensures match GetI32(s)
      case Bad(f) => Prepend(done, GetIds(n, x, s)) == Bad(f)
      case Got(p, rest) =>
        Prepend(done, GetIds(n, x, s)) ==
          if p < 0 || p > MAX_PARTITION_ID then Bad(BadFormat) else Prepend(done + [(p, x)], GetIds(n - 1, x, rest))
  {
    if GetI32(s).Got? && 0 <= GetI32(s).value <= MAX_PARTITION_ID {
      PrependTwice(done, [(GetI32(s).value, x)], GetIds(n - 1, x, GetI32(s).rest));
    }
  }

  lemma NodesNext(done: Listing, n: nat, s: Bytes)
    requires n > 0
    ensures match GetNode(s)
      case Bad(f) => Prepend(done, GetNodes(n, s)) == Bad(f)
      case Got(l, rest) => Prepend(done, GetNodes(n, s)) == Prepend(done + l, GetNodes(n - 1, rest))
  {
    if GetNode(s).Got? {
      PrependTwice(done, GetNode(s).value, GetNodes(n - 1, GetNode(s).rest));
    }
  }

  /** The inner loop of `read_partition_map`: a node's partitions, written over the map so far. */
  method ReadIds(r: Reader, n: nat, x: Node, m: seq<Option<Node>>, ghost seen: Listing)
    returns (res: Result<seq<Option<Node>>>)
    requires m == MapOf(seen)
    modifies r
    ensures match GetIds(n, x, old(r.rest))
      case Bad(f) => res == Err(f)
      case Got(l, rest) => res == Ok(MapOf(seen + l)) && r.rest == rest
  {
    var parts, i := m, 0;
    ghost var start, done: Listing := r.rest, [];
    PrependNothing(GetIds(n, x, start));
    assert seen + done == seen;
    while i < n
      invariant 0 <= i <= n
      invariant GetIds(n, x, start) == Prepend(done, GetIds(n - i, x, r.rest))
      invariant parts == MapOf(seen + done)
    {
      IdsNext(done, n - i, x, r.rest);
      var p := r.ReadI32();
      if p.Err? { return Err(p.fault); }
      if p.value < 0 { return Err(BadFormat); }
      if p.value > MAX_PARTITION_ID { return Err(BadFormat); }
      parts := PlaceLast(parts, p.value, x, seen, done);
      done := done + [(p.value, x)];
      i := i + 1;
    }
    PrependToNothing(done, r.rest);
    res := Ok(parts);
  }

  /** `resize` and assignment of one entry. */
  method PlaceLast(parts: seq<Option<Node>>, p: nat, x: Node, ghost seen: Listing, ghost done: Listing)
    returns (parts': seq<Option<Node>>)
    requires parts == MapOf(seen + done)
    ensures parts' == MapOf(seen + (done + [(p, x)]))
  {
    ListedNext(seen, done, p, x);
    parts' := parts;
    if |parts'| <= p {
      parts' := parts' + seq(p + 1 - |parts'|, _ => None);
    }
    parts' := parts'[p := Some(x)];
  }

  lemma ListedNext(seen: Listing, done: Listing, p: nat, x: Node)
    ensures Place(MapOf(seen + done), p, x) == MapOf(seen + (done + [(p, x)]))
  {
    PlaceExtends(seen + done, p, x);
    assert seen + done + [(p, x)] == seen + (done + [(p, x)]);
  }

  /** One node of `read_partition_map`. */
  method ReadNode(r: Reader, m: seq<Option<Node>>, ghost seen: Listing) returns (res: Result<seq<Option<Node>>>)
    requires m == MapOf(seen)
    modifies r
    ensures match GetNode(old(r.rest))
      case Bad(f) => res == Err(f)
      case Got(l, rest) => res == Ok(MapOf(seen + l)) && r.rest == rest
  {
    var x := ReadUuidString(r);
    if x.Err? { return Err(x.fault); }
    var count := r.ReadI32();
    if count.Err? { return Err(count.fault); }
    if count.value < 0 { return Err(BadFormat); }
    if count.value > MAX_PARTITIONS { return Err(BadFormat); }
    res := ReadIds(r, count.value, x.value, m, seen);
  }

  method ReadNodes(r: Reader, n: nat) returns (res: Result<seq<Option<Node>>>)
    modifies r
    ensures match GetNodes(n, old(r.rest))
      case Bad(f) => res == Err(f)
      case Got(l, rest) => res == Ok(MapOf(l)) && r.rest == rest
  {
    var m, i := [], 0;
    ghost var start, done: Listing := r.rest, [];
    PrependNothing(GetNodes(n, start));
    while i < n
      invariant 0 <= i <= n
      invariant GetNodes(n, start) == Prepend(done, GetNodes(n - i, r.rest))
      invariant m == MapOf(done)
    {
      NodesNext(done, n - i, r.rest);
      ghost var l := GetNode(r.rest);
      var next := ReadNode(r, m, done);
      if next.Err? { return Err(next.fault); }
      done := done + l.value;
      m := next.value;
      i := i + 1;
    }
    PrependToNothing(done, r.rest);
    res := Ok(m);
  }

  /** `read_partition_map` */
  method ReadPartitionMap(r: Reader) returns (res: Result<seq<Option<Node>>>)
    modifies r
    ensures Follows(GetPartitionMap(old(r.rest)), res, r.rest)
  {
    var count := r.ReadI32();
    if count.Err? { return Err(count.fault); }
    if count.value < 0 { return Err(BadFormat); }
    if count.value > MAX_NODES { return Err(BadFormat); }
    res := ReadNodes(r, count.value);
  }

  // ------------------------------------------------------------------ decoding a reply

  type Maps = map<i32, CacheMap>

  /** A cache's entry in a group: its id and whether it lists key configurations. */
  function GetCacheEntry(s: Bytes): Parse<(i32, bool)> {
    var (id, rest) :- GetI32(s);
    var (n, rest') :- GetI32(rest);
    if n < 0 then Bad(BadFormat)
    else
      var (_, rest'') :- Skip(8 * n, rest');
      Got((id, n > 0), rest'')
  }

  function GetCacheEntries(n: nat, s: Bytes): Parse<seq<(i32, bool)>> {
    if n == 0 then Got([], s)
    else
      var (e, rest) :- GetCacheEntry(s);
      var (es, rest') :- GetCacheEntries(n - 1, rest);
      Got([e] + es, rest')
  }

  function GetI32s(n: nat, s: Bytes): Parse<seq<i32>> {
    if n == 0 then Got([], s)
    else
      var (x, rest) :- GetI32(s);
      var (xs, rest') :- GetI32s(n - 1, rest);
      Got([x] + xs, rest')
  }

  function Ids(es: seq<(i32, bool)>): (ids: seq<i32>)
    ensures |ids| == |es| && forall i :: 0 <= i < |es| ==> ids[i] == es[i].0
  {
    seq(|es|, i requires 0 <= i < |es| => es[i].0)
  }

  predicate AnyKeyConfig(es: seq<(i32, bool)>) {
    exists i :: 0 <= i < |es| && es[i].1
  }

  /** What a group keeps of its cache entries. */
  function Summary(es: seq<(i32, bool)>): (seq<i32>, bool) {
    (Ids(es), AnyKeyConfig(es))
  }

  /** Every listed cache gets the same map. */
  function ForAll(ids: seq<i32>, m: CacheMap): Maps {
    map id | id in ids :: m
  }

  function GetDcMap(dcAware: bool, primary: seq<Option<Node>>, s: Bytes): Parse<seq<Option<Node>>> {
    if !dcAware then Got(primary, s)
    else
      var (dc, rest) :- GetPartitionMap(s);
      Got(if dc == [] then primary else dc, rest)
  }

  function GetDefaultAffinity(present: bool, s: Bytes): Parse<()> {
    if !present then Got((), s)
    else
      var (_, rest) :- GetBool(s);
      Got((), rest)
  }

  function GetApplicable(n: nat, dcAware: bool, allMappings: bool, s: Bytes): Parse<Maps> {
    var (es, s1) :- GetCacheEntries(n, s);
    var (primary, s2) :- GetPartitionMap(s1);
    var (dc, s3) :- GetDcMap(dcAware, primary, s2);
    var (_, s4) :- GetDefaultAffinity(allMappings, s3);
    Got(ForAll(Ids(es), CacheMap(primary, dc, AnyKeyConfig(es))), s4)
  }

  function GetGroup(dcAware: bool, allMappings: bool, s: Bytes): Parse<Maps> {
    var (applicable, s1) :- GetBool(s);
    var (n, s2) :- GetI32(s1);
    if n < 0 then Bad(BadFormat)
    else if applicable then GetApplicable(n, dcAware, allMappings, s2)
    else
      var (ids, s3) :- GetI32s(n, s2);
      Got(ForAll(ids, CacheMap([], [], true)), s3)
  }

  function GetGroups(n: nat, dcAware: bool, allMappings: bool, s: Bytes): Parse<seq<Maps>> {
    if n == 0 then Got([], s)
    else
      var (g, rest) :- GetGroup(dcAware, allMappings, s);
      var (gs, rest') :- GetGroups(n - 1, dcAware, allMappings, rest);
      Got([g] + gs, rest')
  }

  /** Later groups override earlier ones. */
  function Merge(gs: seq<Maps>): Maps {
    if gs == [] then map[] else Merge(gs[..|gs| - 1]) + gs[|gs| - 1]
  }

  datatype Partitions = Partitions(version: Version, caches: Maps)

  function GetReply(dcAware: bool, allMappings: bool, s: Bytes): Parse<Partitions> {
    var (major, s1) :- GetI64(s);
    var (minor, s2) :- GetI32(s1);
    var (n, s3) :- GetI32(s2);
    if n < 0 then Bad(BadFormat)
    else
      var (gs, s4) :- GetGroups(n, dcAware, allMappings, s3);
      Got(Partitions((major, minor), Merge(gs)), s4)
  }

  // ------------------------------------------------------------------ the decoder's loops

  method ReadCacheEntry(r: Reader) returns (res: Result<(i32, bool)>)
    modifies r
    ensures Follows(GetCacheEntry(old(r.rest)), res, r.rest)
  {
    var id := r.ReadI32();
    if id.Err? { return Err(id.fault); }
    var count := r.ReadI32();
    if count.Err? { return Err(count.fault); }
    if count.value < 0 { return Err(BadFormat); }
    var i := 0;
    ghost var start := r.rest;
    while i < count.value
      invariant 0 <= i <= count.value && 8 * i <= |start|
      invariant r.rest == start[8 * i..]
    {
      var keyType := r.ReadI32();
      if keyType.Err? { return Err(keyType.fault); }
      var field := r.ReadI32();
      if field.Err? { return Err(field.fault); }
      i := i + 1;
    }
    res := Ok((id.value, count.value > 0));
  }

  lemma EntriesNext(done: seq<(i32, bool)>, n: nat, s: Bytes)
    requires n > 0
    ensures match GetCacheEntry(s)
      case Bad(f) => Prepend(done, GetCacheEntries(n, s)) == Bad(f)
      case Got(e, rest) => Prepend(done, GetCacheEntries(n, s)) == Prepend(done + [e], GetCacheEntries(n - 1, rest))
  {
    if GetCacheEntry(s).Got? {
      PrependTwice(done, [GetCacheEntry(s).value], GetCacheEntries(n - 1, GetCacheEntry(s).rest));
    }
  }

  lemma I32sNext(done: seq<i32>, n: nat, s: Bytes)
    requires n > 0
    ensures match GetI32(s)
      case Bad(f) => Prepend(done, GetI32s(n, s)) == Bad(f)
      case Got(x, rest) => Prepend(done, GetI32s(n, s)) == Prepend(done + [x], GetI32s(n - 1, rest))
  {
    if GetI32(s).Got? {
      PrependTwice(done, [GetI32(s).value], GetI32s(n - 1, GetI32(s).rest));
    }
  }

  lemma GroupsNext(done: seq<Maps>, n: nat, dcAware: bool, allMappings: bool, s: Bytes)
    requires n > 0
    ensures match GetGroup(dcAware, allMappings, s)
      case Bad(f) => Prepend(done, GetGroups(n, dcAware, allMappings, s)) == Bad(f)
      case Got(g, rest) =>
        Prepend(done, GetGroups(n, dcAware, allMappings, s)) ==
          Prepend(done + [g], GetGroups(n - 1, dcAware, allMappings, rest))
  {
    var p := GetGroup(dcAware, allMappings, s);
    if p.Got? {
      PrependTwice(done, [p.value], GetGroups(n - 1, dcAware, allMappings, p.rest));
    }
  }

  /** One turn of the loop over the caches of a group. */
  method ReadNextEntry(r: Reader, ids: seq<i32>, present: bool, ghost done: seq<(i32, bool)>)
    returns (res: Result<(seq<i32>, bool)>)
    requires (ids, present) == Summary(done)
    modifies r
    ensures match GetCacheEntry(old(r.rest))
      case Bad(f) => res == Err(f)
      case Got(e, rest) => res == Ok(Summary(done + [e])) && r.rest == rest
  {
    var e := ReadCacheEntry(r);
    if e.Err? { return Err(e.fault); }
    SummaryNext(done, e.value);
    res := Ok((ids + [e.value.0], if e.value.1 then true else present));
  }

  method ReadCacheEntries(n: nat, r: Reader) returns (res: Result<(seq<i32>, bool)>)
    modifies r
    ensures match GetCacheEntries(n, old(r.rest))
      case Bad(f) => res == Err(f)
      case Got(es, rest) => res == Ok(Summary(es)) && r.rest == rest
  {
    var state: (seq<i32>, bool), i := ([], false), 0;
    ghost var start, done: seq<(i32, bool)> := r.rest, [];
    PrependNothing(GetCacheEntries(n, start));
    while i < n
      invariant 0 <= i <= n
      invariant GetCacheEntries(n, start) == Prepend(done, GetCacheEntries(n - i, r.rest))
      invariant state == Summary(done)
    {
      EntriesNext(done, n - i, r.rest);
      ghost var e := GetCacheEntry(r.rest);
      var next := ReadNextEntry(r, state.0, state.1, done);
      if next.Err? { return Err(next.fault); }
      done := done + [e.value];
      state := next.value;
      i := i + 1;
    }
    PrependToNothing(done, r.rest);
    res := Ok(state);
  }

  lemma SummaryNext(es: seq<(i32, bool)>, e: (i32, bool))
    ensures Summary(es + [e]) == (Summary(es).0 + [e.0], Summary(es).1 || e.1)
  {
    var es' := es + [e];
    assert es'[|es|] == e;
    assert forall i :: 0 <= i < |es| ==> es'[i] == es[i];
    assert Ids(es') == Ids(es) + [e.0];
  }

  method ReadI32s(n: nat, r: Reader) returns (res: Result<seq<i32>>)
    modifies r
    ensures Follows(GetI32s(n, old(r.rest)), res, r.rest)
  {
    var ids: seq<i32>, i := [], 0;
    ghost var start := r.rest;
    PrependNothing(GetI32s(n, start));
    while i < n
      invariant 0 <= i <= n
      invariant GetI32s(n, start) == Prepend(ids, GetI32s(n - i, r.rest))
    {
      I32sNext(ids, n - i, r.rest);
      var x := r.ReadI32();
      if x.Err? { return Err(x.fault); }
      ids := ids + [x.value];
      i := i + 1;
    }
    PrependToNothing(ids, r.rest);
    res := Ok(ids);
  }

  /** The final loops of a group: `caches.insert` for every listed id. */
  method InsertAll(caches: Maps, ids: seq<i32>, m: CacheMap) returns (out: Maps)
    ensures out == caches + ForAll(ids, m)
  {
    out := caches;
    for i := 0 to |ids|
      invariant out == caches + ForAll(ids[..i], m)
    {
      out := out[ids[i] := m];
      assert ids[..i + 1] == ids[..i] + [ids[i]];
    }
    assert ids[..|ids|] == ids;
  }

  method ReadApplicable(n: nat, dcAware: bool, allMappings: bool, r: Reader, caches: Maps) returns (res: Result<Maps>)
    modifies r
    ensures match GetApplicable(n, dcAware, allMappings, old(r.rest))
      case Bad(f) => res == Err(f)
      case Got(g, rest) => res == Ok(caches + g) && r.rest == rest
  {
    var entries := ReadCacheEntries(n, r);
    if entries.Err? { return Err(entries.fault); }
    var primary := ReadPartitionMap(r);
    if primary.Err? { return Err(primary.fault); }
    var dc := primary.value;
    if dcAware {
      var read := ReadPartitionMap(r);
      if read.Err? { return Err(read.fault); }
      if |read.value| != 0 { dc := read.value; }
    }
    if allMappings {
      var ignored := r.ReadBool();
      if ignored.Err? { return Err(ignored.fault); }
    }
    var out := InsertAll(caches, entries.value.0, CacheMap(primary.value, dc, entries.value.1));
    res := Ok(out);
  }

  method ReadGroup(dcAware: bool, allMappings: bool, r: Reader, caches: Maps) returns (res: Result<Maps>)
    modifies r
    ensures match GetGroup(dcAware, allMappings, old(r.rest))
      case Bad(f) => res == Err(f)
      case Got(g, rest) => res == Ok(caches + g) && r.rest == rest
  {
    var applicable := r.ReadBool();
    if applicable.Err? { return Err(applicable.fault); }
    var n := r.ReadI32();
    if n.Err? { return Err(n.fault); }
    if n.value < 0 { return Err(BadFormat); }
    if applicable.value {
      res := ReadApplicable(n.value, dcAware, allMappings, r, caches);
    } else {
      var ids := ReadI32s(n.value, r);
      if ids.Err? { return Err(ids.fault); }
      var out := InsertAll(caches, ids.value, CacheMap([], [], true));
      res := Ok(out);
    }
  }

  method ReadGroups(n: nat, dcAware: bool, allMappings: bool, r: Reader) returns (res: Result<Maps>)
    modifies r
    ensures match GetGroups(n, dcAware, allMappings, old(r.rest))
      case Bad(f) => res == Err(f)
      case Got(gs, rest) => res == Ok(Merge(gs)) && r.rest == rest
  {
    var caches: Maps, i := map[], 0;
    ghost var start, done: seq<Maps> := r.rest, [];
    PrependNothing(GetGroups(n, dcAware, allMappings, start));
    while i < n
      invariant 0 <= i <= n
      invariant GetGroups(n, dcAware, allMappings, start) ==
        Prepend(done, GetGroups(n - i, dcAware, allMappings, r.rest))
      invariant caches == Merge(done)
    {
      GroupsNext(done, n - i, dcAware, allMappings, r.rest);
      ghost var g := GetGroup(dcAware, allMappings, r.rest);
      var next := ReadGroup(dcAware, allMappings, r, caches);
      if next.Err? { return Err(next.fault); }
      MergeNext(done, g.value);
      done := done + [g.value];
      caches := next.value;
      i := i + 1;
    }
    PrependToNothing(done, r.rest);
    res := Ok(caches);
  }

  lemma MergeNext(gs: seq<Maps>, g: Maps)
    ensures Merge(gs + [g]) == Merge(gs) + g
  {
    assert (gs + [g])[..|gs|] == gs;
  }

  /** `CachePartitionsResponse::read_with_flags` */
  method ReadWithFlags(r: Reader, dcAware: bool, allMappings: bool) returns (res: Result<Partitions>)
    modifies r
    ensures Follows(GetReply(dcAware, allMappings, old(r.rest)), res, r.rest)
  {
    var major := r.ReadI64();
    if major.Err? { return Err(major.fault); }
    var minor := r.ReadI32();
    if minor.Err? { return Err(minor.fault); }
    var n := r.ReadI32();
    if n.Err? { return Err(n.fault); }
    if n.value < 0 { return Err(BadFormat); }
    var caches := ReadGroups(n.value, dcAware, allMappings, r);
    if caches.Err? { return Err(caches.fault); }
    res := Ok(Partitions((major.value, minor.value), caches.value));
  }
}
