/** What a discovery leaves behind, node by node, and in which order the endpoints stand. */
module TopologyMeaning {
  import opened Topology

  /** d lists the elements of s once each, in the order in which s first mentions them. */
  ghost predicate FirstOccurrences(d: seq<string>, s: seq<string>) {
    && Distinct(d)
    && (forall x :: x in d <==> x in s)
    && forall i, j :: 0 <= i < j < |d| ==> First(s, d[i]) < First(s, d[j])
  }

  lemma DedupeIs(s: seq<string>)
    ensures FirstOccurrences(Dedupe(s), s)
  {
    DedupeMeaning(s);
  }

  // ------------------------------------------------------------------ discovered nodes

  /** No later entry is about the same node. */
  ghost predicate LastWord(added: seq<DiscoveredNode>, i: nat) {
    i < |added| && forall j :: i < j < |added| ==> added[j].id != added[i].id
  }

  ghost predicate Mentions(added: seq<DiscoveredNode>, id: NodeId) {
    exists i :: 0 <= i < |added| && added[i].id == id
  }

  lemma {:induction false} AddedList(m: map<NodeId, seq<Endpoint>>, added: seq<DiscoveredNode>, i: nat)
    requires LastWord(added, i)
    ensures added[i].id in AddNodes(m, added) && AddNodes(m, added)[added[i].id] == Dedupe(added[i].endpoints)
  {
    var n := |added| - 1;
    if i < n { AddedList(m, added[..n], i); }
  }

  lemma {:induction false} UnmentionedList(m: map<NodeId, seq<Endpoint>>, added: seq<DiscoveredNode>, id: NodeId)
    requires !Mentions(added, id)
    ensures id in AddNodes(m, added) <==> id in m
    ensures id in m ==> AddNodes(m, added)[id] == m[id]
  {
    if added != [] {
      var n := |added| - 1;
      assert added[n].id != id;
      assert !Mentions(added[..n], id);
      UnmentionedList(m, added[..n], id);
    }
  }

  /** After a discovery update: a removed node is gone; an added one has exactly the endpoints of its last entry, each
      once and in their order; any other is as it was. */
  lemma DiscoveryMeaning(m: map<NodeId, seq<Endpoint>>, added: seq<DiscoveredNode>, removed: seq<NodeId>, id: NodeId)
    ensures var m' := AddNodes(m, added) - KeySet(removed);
      && (id in removed ==> id !in m')
      && (id !in removed && !Mentions(added, id) ==> (id in m' <==> id in m) && (id in m ==> m'[id] == m[id]))
      && (id !in removed ==> forall i: nat :: LastWord(added, i) && added[i].id == id ==>
            id in m' && FirstOccurrences(m'[id], added[i].endpoints))
  {
    if !Mentions(added, id) { UnmentionedList(m, added, id); }
    forall i: nat | LastWord(added, i) && added[i].id == id
      ensures id in AddNodes(m, added) && FirstOccurrences(AddNodes(m, added)[id], added[i].endpoints)
    {
      AddedList(m, added, i);
      DedupeIs(added[i].endpoints);
    }
  }

  lemma {:induction false} LastWordExists(added: seq<DiscoveredNode>, id: NodeId) returns (i: nat)
    requires Mentions(added, id)
    ensures LastWord(added, i) && added[i].id == id
  {
    var n := |added| - 1;
    if added[n].id == id {
      i := n;
    } else {
      var j :| 0 <= j < |added| && added[j].id == id;
      assert added[..n][j].id == id;
      i := LastWordExists(added[..n], id);
    }
  }

  /** The endpoint comes from the last entry of an added node that was not removed. */
  ghost predicate FromAdded(added: seq<DiscoveredNode>, removed: seq<NodeId>, x: Endpoint) {
    exists i: nat :: LastWord(added, i) && added[i].id !in removed && x in added[i].endpoints
  }

  /** The endpoint comes from a node known before, neither added nor removed. */
  ghost predicate FromKept(m: map<NodeId, seq<Endpoint>>, added: seq<DiscoveredNode>, removed: seq<NodeId>,
      x: Endpoint)
  {
    exists k :: k in m && !Mentions(added, k) && k !in removed && x in m[k]
  }

  lemma SourceOfEndpoint(m: map<NodeId, seq<Endpoint>>, added: seq<DiscoveredNode>, removed: seq<NodeId>, k: NodeId,
      x: Endpoint)
    requires var m' := AddNodes(m, added) - KeySet(removed); k in m' && x in m'[k]
    ensures FromAdded(added, removed, x) || FromKept(m, added, removed, x)
  {
    if Mentions(added, k) {
      var i := LastWordExists(added, k);
      AddedList(m, added, i);
      DedupeMeaning(added[i].endpoints);
      assert LastWord(added, i) && added[i].id !in removed && x in added[i].endpoints;
    } else {
      UnmentionedList(m, added, k);
      assert k in m && !Mentions(added, k) && k !in removed && x in m[k];
    }
  }

  lemma EndpointSurvives(m: map<NodeId, seq<Endpoint>>, added: seq<DiscoveredNode>, removed: seq<NodeId>, x: Endpoint)
    requires FromAdded(added, removed, x) || FromKept(m, added, removed, x)
    ensures var m' := AddNodes(m, added) - KeySet(removed); exists k :: k in m' && x in m'[k]
  {
    var m' := AddNodes(m, added) - KeySet(removed);
    if FromAdded(added, removed, x) {
      var i: nat :| LastWord(added, i) && added[i].id !in removed && x in added[i].endpoints;
      AddedList(m, added, i);
      DedupeMeaning(added[i].endpoints);
      assert added[i].id in m' && x in m'[added[i].id];
    } else {
      var k :| k in m && !Mentions(added, k) && k !in removed && x in m[k];
      UnmentionedList(m, added, k);
      assert k in m' && x in m'[k];
    }
  }

  /** The endpoint list after a discovery holds exactly the seeds, the endpoints of the added nodes and those of the
      nodes kept. */
  lemma EndpointsAfterDiscovery(seeds: seq<Endpoint>, m: map<NodeId, seq<Endpoint>>, added: seq<DiscoveredNode>,
      removed: seq<NodeId>, x: Endpoint)
    ensures x in Merged(seeds, Flatten(AddNodes(m, added) - KeySet(removed))) <==>
      x in seeds || FromAdded(added, removed, x) || FromKept(m, added, removed, x)
  {
    var m' := AddNodes(m, added) - KeySet(removed);
    EndpointsMeaning(seeds, m');
    if k :| k in m' && x in m'[k] { SourceOfEndpoint(m, added, removed, k, x); }
    if FromAdded(added, removed, x) || FromKept(m, added, removed, x) { EndpointSurvives(m, added, removed, x); }
  }

  // ------------------------------------------------------------------ order

  lemma WithoutSnoc(s: seq<string>, x: string, gone: seq<string>)
    ensures Without(s + [x], gone) == Without(s, gone) + if x in gone then [] else [x]
  {
    assert (s + [x])[..|s|] == s;
  }

  lemma DedupeSnoc(s: seq<string>, x: string)
    ensures Dedupe(s + [x]) == Dedupe(s) + if x in s then [] else [x]
  {
    assert (s + [x])[..|s|] == s;
    assert Dedupe(s) + [] == Dedupe(s);
  }

  lemma {:induction false} DedupeConcat(a: seq<string>, b: seq<string>)
    ensures Dedupe(a + b) == Dedupe(a) + Without(Dedupe(b), a)
  {
    if b == [] {
      assert a + b == a;
      assert Dedupe(a) + [] == Dedupe(a);
    } else {
      var front, x := b[..|b| - 1], b[|b| - 1];
      DedupeConcat(a, front);
      assert b == front + [x];
      ConcatAssoc(a, front, [x]);
      DedupeConcatNext(a, front, x);
    }
  }

  lemma DedupeConcatNext(a: seq<string>, front: seq<string>, x: string)
    requires Dedupe(a + front) == Dedupe(a) + Without(Dedupe(front), a)
    ensures Dedupe(a + front + [x]) == Dedupe(a) + Without(Dedupe(front + [x]), a)
  {
    var kept := Without(Dedupe(front), a);
    DedupeSnoc(a + front, x);
    DedupeSnoc(front, x);
    if x in front {
      assert Dedupe(front) + [] == Dedupe(front);
    } else {
      WithoutSnoc(Dedupe(front), x, a);
    }
    ConcatAssoc(Dedupe(a), kept, if x in a + front then [] else [x]);
  }

  lemma ConcatAssoc(a: seq<string>, b: seq<string>, c: seq<string>)
    ensures a + b + c == a + (b + c) && a + b + [] == a + b
  {
  }

  /** The seeds come first, in their order; then the discovered endpoints that are no seeds, in theirs. */
  lemma SeedsComeFirst(seeds: seq<Endpoint>, m: map<NodeId, seq<Endpoint>>)
    requires Distinct(seeds)
    ensures Merged(seeds, Flatten(m)) == seeds + Without(Flatten(m), seeds)
  {
    DedupeConcat(seeds, Flatten(m));
    DedupeDistinct(seeds);
    DedupeMeaning(Lists(m, m.Keys));
    DedupeDistinct(Flatten(m));
  }

  /** The lists of the named nodes, one after the other. */
  function Joined(m: map<NodeId, seq<Endpoint>>, ks: seq<NodeId>): seq<Endpoint>
    requires forall i :: 0 <= i < |ks| ==> ks[i] in m
  {
    if ks == [] then [] else m[ks[0]] + Joined(m, ks[1..])
  }

  ghost predicate Ascending(ks: seq<NodeId>) {
    Distinct(ks) && forall i, j :: 0 <= i < j < |ks| ==> Leq(ks[i], ks[j])
  }

  /** Nodes are visited in ascending order of their ids. */
  lemma {:induction false} NodesAscend(m: map<NodeId, seq<Endpoint>>, ks: seq<NodeId>)
    requires Ascending(ks) && KeySet(ks) <= m.Keys
    ensures (forall i :: 0 <= i < |ks| ==> ks[i] in m) && Lists(m, KeySet(ks)) == Joined(m, ks)
  {
    if ks != [] {
      assert ks[0] in KeySet(ks);
      assert ks == [ks[0]] + ks[1..];
      assert KeySet(ks[1..]) == KeySet(ks) - {ks[0]};
      NodesAscend(m, ks[1..]);
      LeastIsFirst(ks);
    }
  }

  lemma LeastIsFirst(ks: seq<NodeId>)
    requires Ascending(ks) && ks != []
    ensures KeySet(ks) != {} && Least(KeySet(ks)) == ks[0]
  {
    assert ks[0] in KeySet(ks);
    var k := Least(KeySet(ks));
    LeqTotal(k, ks[0]);
    var i :| 0 <= i < |ks| && ks[i] == k;
    assert i > 0 ==> Leq(ks[0], ks[i]);
  }

  /** Removing ids keeps the order of the rest. */
  lemma {:induction false} WithoutKeepsOrder(s: seq<string>, gone: seq<string>, i: nat, j: nat)
    requires Distinct(s) && i < j < |Without(s, gone)|
    ensures var r := Without(s, gone); r[i] in s && r[j] in s && First(s, r[i]) < First(s, r[j])
  {
    var r := Without(s, gone);
    var n := |s| - 1;
    var before := s[..n];
    assert s == before + [s[n]];
    var r' := Without(before, gone);
    forall x | x in before ensures First(s, x) == First(before, x) {
      FirstUnique(s, x, First(before, x));
    }
    if j < |r'| {
      WithoutKeepsOrder(before, gone, i, j);
    } else {
      FirstUnique(s, s[n], n);
      assert r[i] == r'[i] && r[i] in r';
    }
  }

  /** Recording an endpoint keeps what was recorded, in its place, and touches no other node. */
  lemma RecordingMeaning(m: map<NodeId, seq<Endpoint>>, id: NodeId, x: Endpoint, other: NodeId)
    ensures var m' := WithEndpoint(m, id, x);
      && x in Recorded(m', id) && Recorded(m, id) <= Recorded(m', id) && |Recorded(m', id)| <= |Recorded(m, id)| + 1
      && (x in Recorded(m, id) ==> Recorded(m', id) == Recorded(m, id))
      && (other != id ==> (other in m' <==> other in m) && Recorded(m', other) == Recorded(m, other))
  {
  }

  /** Ids compare at the first character where they differ. */
  lemma {:induction false} ComparesAtDifference(a: string, b: string, i: nat)
    requires i < |a| && i < |b| && a[..i] == b[..i] && a[i] < b[i]
    ensures Leq(a, b) && !Leq(b, a)
  {
    if i > 0 {
      assert a[0] == a[..i][0] == b[0];
      assert a[1..][..i - 1] == a[..i][1..] && b[1..][..i - 1] == b[..i][1..];
      ComparesAtDifference(a[1..], b[1..], i - 1);
    }
  }

  /** A prefix comes first. */
  lemma {:induction false} PrefixComesFirst(a: string, b: string)
    ensures Leq(a, a + b)
  {
    if a != [] {
      assert (a + b)[1..] == a[1..] + b;
      PrefixComesFirst(a[1..], b);
    }
  }
}
