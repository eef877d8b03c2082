/** The topology cache: seed and discovered endpoints, and the precomputed list the request path reads. */
module Topology {
  import opened Wrappers

  type Endpoint = string
  type NodeId = string
  type Version = (int, int)

  // ------------------------------------------------------------------ removing duplicates

  ghost predicate Distinct<T>(s: seq<T>) {
    forall i, j :: 0 <= i < j < |s| ==> s[i] != s[j]
  }

  /** The first occurrence of everything in s, in order. */
  function Dedupe(s: seq<string>): seq<string> {
    if s == [] then []
    else
      var n := |s| - 1;
      if s[n] in s[..n] then Dedupe(s[..n]) else Dedupe(s[..n]) + [s[n]]
  }

  /** `dedupe`: filter by insertion into a hash set. */
  method DedupeLoop(s: seq<string>) returns (d: seq<string>)
    ensures d == Dedupe(s)
  {
    d := [];
    var seen: set<string> := {};
    for i := 0 to |s|
      invariant d == Dedupe(s[..i])
      invariant forall x :: x in seen <==> x in s[..i]
    {
      assert s[..i + 1][..i] == s[..i];
      if s[i] !in seen { d := d + [s[i]]; }
      seen := seen + {s[i]};
    }
    assert s[..|s|] == s;
  }

  function First(s: seq<string>, x: string): (i: nat)
    requires x in s
    ensures i < |s| && s[i] == x && x !in s[..i]
  {
    if s[0] == x then 0 else
      assert s == [s[0]] + s[1..];
      FirstShift(s, x); 1 + First(s[1..], x)
  }

  lemma FirstShift(s: seq<string>, x: string)
    requires s != [] && s[0] != x
    ensures forall i :: 0 <= i < |s| - 1 && x !in s[1..][..i] ==> x !in s[..1 + i]
  {
  }

  /** Nothing lost, nothing repeated, and in the order of first occurrence. */
  lemma {:induction false} DedupeMeaning(s: seq<string>)
    ensures forall x :: x in Dedupe(s) <==> x in s
    ensures Distinct(Dedupe(s))
    ensures forall i, j :: 0 <= i < j < |Dedupe(s)| ==> First(s, Dedupe(s)[i]) < First(s, Dedupe(s)[j])
  {
    if s != [] {
      var n := |s| - 1;
      var before := s[..n];
      DedupeMeaning(before);
      assert s == before + [s[n]];
      forall x | x in before ensures First(s, x) == First(before, x) {
        FirstUnique(s, x, First(before, x));
      }
      if s[n] !in before { FirstUnique(s, s[n], n); }
    }
  }

  lemma FirstUnique(s: seq<string>, x: string, i: nat)
    requires i < |s| && s[i] == x && x !in s[..i]
    ensures First(s, x) == i
  {
  }

  function NextAfter(endpoints: seq<Endpoint>, address: Endpoint): (i: nat)
    ensures endpoints != [] ==> i < |endpoints|
  {
    if address in endpoints then (First(endpoints, address) + 1) % |endpoints| else 0
  }

  function Merged(seeds: seq<Endpoint>, discovered: seq<Endpoint>): seq<Endpoint> {
    Dedupe(seeds + discovered)
  }

  // ------------------------------------------------------------------ the ordered map of nodes

  /** Lexicographic order, as `BTreeMap<String, _>` iterates. */
  predicate Leq(a: string, b: string) {
    a == [] || (b != [] && (a[0] < b[0] || (a[0] == b[0] && Leq(a[1..], b[1..]))))
  }

  lemma {:induction false} LeqTotal(a: string, b: string)
    ensures Leq(a, b) || Leq(b, a)
    ensures Leq(a, b) && Leq(b, a) ==> a == b
  {
    if a != [] && b != [] && a[0] == b[0] {
      LeqTotal(a[1..], b[1..]);
      assert a == [a[0]] + a[1..] && b == [b[0]] + b[1..];
    }
  }

  lemma {:induction false} LeqTrans(a: string, b: string, c: string)
    requires Leq(a, b) && Leq(b, c)
    ensures Leq(a, c)
  {
    if a != [] && a[0] == b[0] == c[0] { LeqTrans(a[1..], b[1..], c[1..]); }
  }

  predicate IsLeast(keys: set<string>, k: string) {
    k in keys && forall j :: j in keys ==> Leq(k, j)
  }

  lemma {:induction false} LeastExists(keys: set<string>)
    requires keys != {}
    ensures exists k :: IsLeast(keys, k)
  {
    var x :| x in keys;
    LeqTotal(x, x);
    if keys == {x} {
      assert IsLeast(keys, x);
    } else {
      LeastExists(keys - {x});
      var m :| IsLeast(keys - {x}, m);
      LeqTotal(x, m);
      if Leq(m, x) {
        assert IsLeast(keys, m);
      } else {
        forall j | j in keys ensures Leq(x, j) {
          if j != x { LeqTrans(x, m, j); }
        }
        assert IsLeast(keys, x);
      }
    }
  }

  function Least(keys: set<string>): (k: string)
    requires keys != {}
    ensures IsLeast(keys, k)
  {
    LeastExists(keys);
    assert forall a, b :: IsLeast(keys, a) && IsLeast(keys, b) ==> a == b by {
      forall a, b | IsLeast(keys, a) && IsLeast(keys, b) ensures a == b { LeqTotal(a, b); }
    }
    var k :| k in keys && IsLeast(keys, k);
    k
  }

  /** The endpoint lists of the given nodes, in key order. */
  function Lists(m: map<NodeId, seq<Endpoint>>, keys: set<NodeId>): seq<Endpoint>
    requires keys <= m.Keys
    decreases |keys|
  {
    if keys == {} then []
    else
      var k := Least(keys);
      m[k] + Lists(m, keys - {k})
  }

  function Flatten(m: map<NodeId, seq<Endpoint>>): seq<Endpoint> {
    Dedupe(Lists(m, m.Keys))
  }

  /** `flatten_discovered_nodes` */
  method FlattenLoop(m: map<NodeId, seq<Endpoint>>) returns (flat: seq<Endpoint>)
    ensures flat == Flatten(m)
  {
    flat := [];
    var left := m.Keys;
    while left != {}
      invariant left <= m.Keys
      invariant flat + Lists(m, left) == Lists(m, m.Keys)
    {
      var k := Least(left);
      assert flat + (m[k] + Lists(m, left - {k})) == flat + m[k] + Lists(m, left - {k});
      flat := flat + m[k];
      left := left - {k};
    }
    assert flat + [] == flat;
    flat := DedupeLoop(flat);
  }

  lemma {:induction false} ListsMeaning(m: map<NodeId, seq<Endpoint>>, keys: set<NodeId>)
    requires keys <= m.Keys
    ensures forall x :: x in Lists(m, keys) <==> exists k :: k in keys && x in m[k]
    decreases |keys|
  {
    if keys != {} { ListsMeaning(m, keys - {Least(keys)}); }
  }

  // ------------------------------------------------------------------ lists of nodes

  function Without(s: seq<string>, gone: seq<string>): (r: seq<string>)
    ensures forall x :: x in r <==> x in s && x !in gone
  {
    if s == [] then []
    else
      assert s == s[..|s| - 1] + [s[|s| - 1]];
      Without(s[..|s| - 1], gone) + if s[|s| - 1] in gone then [] else [s[|s| - 1]]
  }

  lemma {:induction false} WithoutDistinct(s: seq<string>, gone: seq<string>)
    requires Distinct(s)
    ensures Distinct(Without(s, gone))
  {
    if s != [] {
      var n := |s| - 1;
      WithoutDistinct(s[..n], gone);
      assert s[n] !in Without(s[..n], gone);
    }
  }

  lemma {:induction false} WithoutTwice(s: seq<string>, gone: seq<string>, x: string)
    ensures Without(Without(s, gone), [x]) == Without(s, gone + [x])
  {
    if s != [] {
      var n := |s| - 1;
      WithoutTwice(s[..n], gone, x);
      var w := Without(s[..n], gone);
      if s[n] !in gone {
        assert (w + [s[n]])[..|w|] == w;
      } else {
        assert w + [] == w;
      }
    }
  }

  lemma {:induction false} WithoutNone(s: seq<string>)
    ensures Without(s, []) == s
  {
    if s != [] {
      WithoutNone(s[..|s| - 1]);
      assert s == s[..|s| - 1] + [s[|s| - 1]];
    }
  }

  function AddOnce(s: seq<string>, x: string): (r: seq<string>)
    ensures s <= r && forall y :: y in r <==> y in s || y == x
  {
    if x in s then s else s + [x]
  }

  lemma AddOnceDistinct(s: seq<string>, x: string)
    requires Distinct(s)
    ensures Distinct(AddOnce(s, x))
  {
  }

  datatype DiscoveredNode = DiscoveredNode(id: NodeId, endpoints: seq<Endpoint>)

  function AddIds(ids: seq<NodeId>, added: seq<DiscoveredNode>): (r: seq<NodeId>)
    ensures ids <= r
    ensures forall x :: x in r <==> x in ids || exists i :: 0 <= i < |added| && added[i].id == x
  {
    if added == [] then ids else AddOnce(AddIds(ids, added[..|added| - 1]), added[|added| - 1].id)
  }

  lemma {:induction false} AddIdsDistinct(ids: seq<NodeId>, added: seq<DiscoveredNode>)
    requires Distinct(ids)
    ensures Distinct(AddIds(ids, added))
  {
    if added != [] {
      AddIdsDistinct(ids, added[..|added| - 1]);
      AddOnceDistinct(AddIds(ids, added[..|added| - 1]), added[|added| - 1].id);
    }
  }

  /** Every added node replaces what was known about it. */
  function AddNodes(m: map<NodeId, seq<Endpoint>>, added: seq<DiscoveredNode>): (r: map<NodeId, seq<Endpoint>>)
    ensures forall x :: x in r <==> x in m || exists i :: 0 <= i < |added| && added[i].id == x
  {
    if added == [] then m
    else AddNodes(m, added[..|added| - 1])[added[|added| - 1].id := Dedupe(added[|added| - 1].endpoints)]
  }

  function Recorded(m: map<NodeId, seq<Endpoint>>, id: NodeId): seq<Endpoint> {
    if id in m then m[id] else []
  }

  function WithEndpoint(m: map<NodeId, seq<Endpoint>>, id: NodeId, endpoint: Endpoint): map<NodeId, seq<Endpoint>> {
    m[id := AddOnce(Recorded(m, id), endpoint)]
  }

  function KeySet(s: seq<string>): (r: set<string>)
    ensures forall x :: x in r <==> x in s
  {
    set x | x in s
  }

  ghost predicate Covers(ids: seq<NodeId>, m: map<NodeId, seq<Endpoint>>) {
    forall k :: k in m ==> k in ids
  }

  lemma UpdateCovers(ids: seq<NodeId>, m: map<NodeId, seq<Endpoint>>, added: seq<DiscoveredNode>, removed: seq<NodeId>)
    requires Distinct(ids) && Covers(ids, m)
    ensures Covers(Without(AddIds(ids, added), removed), AddNodes(m, added) - KeySet(removed))
    ensures Distinct(Without(AddIds(ids, added), removed))
  {
    AddIdsDistinct(ids, added);
    WithoutDistinct(AddIds(ids, added), removed);
  }

  lemma RemoveNext(m: map<NodeId, seq<Endpoint>>, gone: seq<NodeId>, i: nat)
    requires i < |gone|
    ensures m - KeySet(gone[..i]) - {gone[i]} == m - KeySet(gone[..i + 1])
  {
  }

  lemma WithoutNext(s: seq<string>, gone: seq<string>, i: nat)
    requires i < |gone|
    ensures Without(Without(s, gone[..i]), [gone[i]]) == Without(s, gone[..i + 1])
  {
    assert gone[..i + 1] == gone[..i] + [gone[i]];
    WithoutTwice(s, gone[..i], gone[i]);
  }

  // ------------------------------------------------------------------ the cache

  datatype Snapshot = Snapshot(seeds: seq<Endpoint>, discovered: seq<Endpoint>, endpoints: seq<Endpoint>,
    active: Option<Endpoint>, nodeIds: seq<NodeId>, dcNodeIds: seq<NodeId>, version: Option<Version>)

  /** `TopologyCache`: the state behind the lock, and `cached`, which readers load without it. */
  class TopologyCache {
    var seeds: seq<Endpoint>
    var discovered: map<NodeId, seq<Endpoint>>
    var active: Option<Endpoint>
    var nodeIds: seq<NodeId>
    var dcNodeIds: seq<NodeId>
    var version: Option<Version>
    var cached: seq<Endpoint>

    /** The cached list is the merge recomputed from scratch; node ids are distinct and cover every
        discovered node. */
    ghost predicate Valid()
      reads this
    {
      && cached == Merged(seeds, Flatten(discovered))
      && Distinct(nodeIds) && Distinct(dcNodeIds) && Distinct(seeds)
      && Covers(nodeIds, discovered)
    }

    constructor (seedEndpoints: seq<Endpoint>)
      ensures Valid()
      ensures seeds == cached == Dedupe(seedEndpoints) && discovered == map[] && nodeIds == dcNodeIds == []
      ensures active == None && version == None
    {
      var deduped := DedupeLoop(seedEndpoints);
      DedupeMeaning(seedEndpoints);
      DedupeDistinct(deduped);
      assert deduped + [] == deduped;
      seeds, discovered, active, nodeIds, dcNodeIds, version := deduped, map[], None, [], [], None;
      cached := deduped;
    }

    method RefreshCache()
      modifies this`cached
      ensures cached == Merged(seeds, Flatten(discovered))
    {
      var flat := FlattenLoop(discovered);
      cached := DedupeLoop(seeds + flat);
    }

    /** Returns exactly the seeds that the new list no longer has, each once. */
    method ReplaceSeeds(seedEndpoints: seq<Endpoint>) returns (removed: seq<Endpoint>)
      requires Valid()
      modifies this`seeds, this`cached
      ensures Valid() && seeds == Dedupe(seedEndpoints)
      ensures forall x :: x in removed <==> x in old(seeds) && x !in seedEndpoints
      ensures Distinct(removed) && removed == Without(old(seeds), seedEndpoints)
    {
      DedupeMeaning(seedEndpoints);
      WithoutDistinct(seeds, seedEndpoints);
      var next := DedupeLoop(seedEndpoints);
      WithoutAgrees(seeds, next, seedEndpoints);
      removed := Without(seeds, next);
      seeds := next;
      RefreshCache();
    }

    /** `next_index_after`: the place behind the address, or the start of the list. */
    method NextIndexAfter(address: Endpoint) returns (i: nat)
      requires Valid()
      ensures i == NextAfter(cached, address)
    {
      if |cached| == 0 { return 0; }
      var k := 0;
      while k < |cached| && cached[k] != address
        invariant 0 <= k <= |cached| && address !in cached[..k]
      {
        k := k + 1;
      }
      if k == |cached| {
        assert cached[..k] == cached;
        return 0;
      }
      FirstUnique(cached, address, k);
      i := (k + 1) % |cached|;
    }

    method MarkActive(address: Endpoint)
      requires Valid()
      modifies this`active
      ensures Valid() && active == Some(address)
    {
      active := Some(address);
    }

    method RecordNode(id: NodeId)
      requires Valid()
      modifies this`nodeIds
      ensures Valid() && nodeIds == AddOnce(old(nodeIds), id)
    {
      AddOnceDistinct(nodeIds, id);
      if id !in nodeIds { nodeIds := nodeIds + [id]; }
    }

    method RecordNodeEndpoint(id: NodeId, endpoint: Endpoint)
      requires Valid()
      modifies this`nodeIds, this`discovered, this`cached
      ensures Valid() && nodeIds == AddOnce(old(nodeIds), id)
      ensures discovered == WithEndpoint(old(discovered), id, endpoint)
    {
      AddOnceDistinct(nodeIds, id);
      if id !in nodeIds { nodeIds := nodeIds + [id]; }
      var endpoints := if id in discovered then discovered[id] else [];
      if endpoint !in endpoints { endpoints := endpoints + [endpoint]; }
      discovered := discovered[id := endpoints];
      RefreshCache();
    }

    method SetTopologyVersion(v: Version)
      requires Valid()
      modifies this`version
      ensures Valid() && version == Some(v)
    {
      version := Some(v);
    }

    method SetCurrentDcNodes(ids: seq<NodeId>)
      requires Valid()
      modifies this`dcNodeIds
      ensures Valid() && dcNodeIds == Dedupe(ids)
    {
      DedupeMeaning(ids);
      dcNodeIds := DedupeLoop(ids);
    }

    method ClearCurrentDcNodes()
      requires Valid()
      modifies this`dcNodeIds
      ensures Valid() && dcNodeIds == []
    {
      dcNodeIds := [];
    }

    /** Versions compare by major, then minor; with no version known every one is news. */
    method NeedsRefresh(v: Version) returns (b: bool)
      ensures b <==> version.None? || version.value.0 < v.0 || (version.value.0 == v.0 && version.value.1 < v.1)
    {
      if version.None? { return true; }
      var current := version.value;
      b := if v.0 != current.0 then v.0 > current.0 else v.1 > current.1;
    }

    method ApplyDiscovery(v: Version, added: seq<DiscoveredNode>, removed: seq<NodeId>)
      requires Valid()
      modifies this
      ensures Valid() && version == Some(v)
      ensures discovered == AddNodes(old(discovered), added) - KeySet(removed)
      ensures nodeIds == Without(AddIds(old(nodeIds), added), removed)
      ensures dcNodeIds == Without(old(dcNodeIds), removed)
      ensures seeds == old(seeds) && active == old(active)
    {
      UpdateCovers(nodeIds, discovered, added, removed);
      WithoutDistinct(dcNodeIds, removed);
      ChangeNodes(added, removed);
      version := Some(v);
      RefreshCache();
    }

    method ChangeNodes(added: seq<DiscoveredNode>, removed: seq<NodeId>)
      modifies this`nodeIds, this`discovered, this`dcNodeIds
      ensures discovered == AddNodes(old(discovered), added) - KeySet(removed)
      ensures nodeIds == Without(AddIds(old(nodeIds), added), removed) && dcNodeIds == Without(old(dcNodeIds), removed)
    {
      AddAll(added);
      RemoveAll(removed);
    }

    method AddAll(added: seq<DiscoveredNode>)
      modifies this`nodeIds, this`discovered
      ensures discovered == AddNodes(old(discovered), added) && nodeIds == AddIds(old(nodeIds), added)
    {
      for i := 0 to |added|
        invariant discovered == AddNodes(old(discovered), added[..i]) && nodeIds == AddIds(old(nodeIds), added[..i])
      {
        assert added[..i + 1][..i] == added[..i];
        if added[i].id !in nodeIds { nodeIds := nodeIds + [added[i].id]; }
        var endpoints := DedupeLoop(added[i].endpoints);
        discovered := discovered[added[i].id := endpoints];
      }
      assert added[..|added|] == added;
    }

    method RemoveAll(removed: seq<NodeId>)
      modifies this`nodeIds, this`discovered, this`dcNodeIds
      ensures discovered == old(discovered) - KeySet(removed)
      ensures nodeIds == Without(old(nodeIds), removed) && dcNodeIds == Without(old(dcNodeIds), removed)
    {
      WithoutNone(nodeIds);
      WithoutNone(dcNodeIds);
      for i := 0 to |removed|
        invariant discovered == old(discovered) - KeySet(removed[..i])
        invariant nodeIds == Without(old(nodeIds), removed[..i]) && dcNodeIds == Without(old(dcNodeIds), removed[..i])
      {
        RemoveNext(old(discovered), removed, i);
        WithoutNext(old(nodeIds), removed, i);
        WithoutNext(old(dcNodeIds), removed, i);
        discovered := discovered - {removed[i]};
        nodeIds := Without(nodeIds, [removed[i]]);
        dcNodeIds := Without(dcNodeIds, [removed[i]]);
      }
      assert removed[..|removed|] == removed;
    }

    /** The recomputed snapshot lists the same endpoints the lock-free reader sees. */
    method TakeSnapshot() returns (s: Snapshot)
      requires Valid()
      ensures s.endpoints == cached == Merged(s.seeds, s.discovered)
      ensures s == Snapshot(seeds, Flatten(discovered), cached, active, nodeIds, dcNodeIds, version)
    {
      var flat := FlattenLoop(discovered);
      var merged := DedupeLoop(seeds + flat);
      s := Snapshot(seeds, flat, merged, active, nodeIds, dcNodeIds, version);
    }

    method EndpointsForNode(id: NodeId) returns (endpoints: seq<Endpoint>)
      ensures endpoints == Recorded(discovered, id)
    {
      endpoints := if id in discovered then discovered[id] else [];
    }
  }

  lemma {:induction false} DedupeDistinct(s: seq<string>)
    requires Distinct(s)
    ensures Dedupe(s) == s
  {
    if s != [] {
      DedupeDistinct(s[..|s| - 1]);
      assert s == s[..|s| - 1] + [s[|s| - 1]];
    }
  }

  lemma {:induction false} WithoutAgrees(s: seq<string>, gone: seq<string>, gone': seq<string>)
    requires forall x :: x in gone <==> x in gone'
    ensures Without(s, gone) == Without(s, gone')
  {
    if s != [] { WithoutAgrees(s[..|s| - 1], gone, gone'); }
  }

  /** What the endpoint list holds: every seed and every endpoint of every discovered node, each once. */
  lemma EndpointsMeaning(seeds: seq<Endpoint>, m: map<NodeId, seq<Endpoint>>)
    ensures Distinct(Merged(seeds, Flatten(m)))
    ensures forall x :: x in Merged(seeds, Flatten(m)) <==> x in seeds || exists k :: k in m && x in m[k]
  {
    DedupeMeaning(seeds + Flatten(m));
    DedupeMeaning(Lists(m, m.Keys));
    ListsMeaning(m, m.Keys);
  }
}
