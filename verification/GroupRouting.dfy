/** What a group of a reply says in its own terms: which keys it routes, and where. */
module GroupRouting {
  import opened Wire
  import opened Wrappers
  import opened Uuid
  import opened Codec
  import opened KeyHashing
  import opened Affinity
  import opened PartitionReply
  import opened PartitionLayout

  // ------------------------------------------------------------------ what a node list says, in its own terms

  /** Some node lists some partition. */
  ghost predicate ListsPartition(ns: seq<NodeParts>) {
    exists i :: 0 <= i < |ns| && ns[i].ids != []
  }

  /** Node i is the last one to list partition p. */
  ghost predicate LastToList(ns: seq<NodeParts>, p: i32, i: nat) {
    i < |ns| && p in ns[i].ids && forall j :: i < j < |ns| ==> p !in ns[j].ids
  }

  lemma ExtentZero(l: Listing)
    ensures Extent(l) == 0 <==> l == []
  {
  }

  lemma {:induction false} ListingEmpty(ns: seq<NodeParts>)
    requires forall i :: 0 <= i < |ns| ==> GoodNode(ns[i])
    ensures ListingOf(ns) == [] <==> !ListsPartition(ns)
  {
    if ns != [] {
      assert GoodNode(ns[0]);
      ListingEmpty(ns[1..]);
      if i :| 0 <= i < |ns[1..]| && ns[1..][i].ids != [] {
        assert ns[i + 1].ids != [];
      }
      if i :| 0 <= i < |ns| && ns[i].ids != [] {
        if i > 0 { assert ns[1..][i - 1].ids != []; }
      }
    }
  }

  /** The map is empty exactly when no node lists a partition. */
  lemma MapEmptyExactlyWhen(ns: seq<NodeParts>)
    requires GoodNodes(ns)
    ensures NodeMap(ns) == [] <==> !ListsPartition(ns)
  {
    ListingEmpty(ns);
    ExtentZero(ListingOf(ns));
  }

  lemma {:induction false} LastNodeConcat(a: Listing, b: Listing, p: nat)
    ensures LastNode(a + b, p) == if LastNode(b, p).Some? then LastNode(b, p) else LastNode(a, p)
  {
    if b == [] {
      assert a + b == a;
    } else {
      assert (a + b)[..|a + b| - 1] == a + b[..|b| - 1];
      LastNodeConcat(a, b[..|b| - 1], p);
    }
  }

  lemma {:induction false} LastNodeOfIds(x: Node, ids: seq<i32>, p: nat)
    requires forall i :: 0 <= i < |ids| ==> 0 <= ids[i]
    ensures LastNode(IdsOf(x, ids), p) == if p in ids then Some(x) else None
  {
    if ids != [] {
      var n := |ids| - 1;
      assert IdsOf(x, ids)[..n] == IdsOf(x, ids[..n]);
      LastNodeOfIds(x, ids[..n], p);
      assert ids == ids[..n] + [ids[n]];
    }
  }

  lemma ListingHead(ns: seq<NodeParts>, p: nat)
    requires (forall i :: 0 <= i < |ns| ==> GoodNode(ns[i])) && ns != []
    ensures LastNode(ListingOf(ns), p) ==
      if LastNode(ListingOf(ns[1..]), p).Some? then LastNode(ListingOf(ns[1..]), p)
      else if p in ns[0].ids then Some(NodeText(ns[0]))
      else None
  {
    assert GoodNode(ns[0]);
    LastNodeConcat(IdsOf(NodeText(ns[0]), ns[0].ids), ListingOf(ns[1..]), p);
    LastNodeOfIds(NodeText(ns[0]), ns[0].ids, p);
  }

  /** The map names nobody for a partition nobody lists. */
  lemma {:induction false} NobodyLists(ns: seq<NodeParts>, p: i32)
    requires (forall i :: 0 <= i < |ns| ==> GoodNode(ns[i])) && p >= 0
    requires forall i :: 0 <= i < |ns| ==> p !in ns[i].ids
    ensures LastNode(ListingOf(ns), p) == None
  {
    if ns != [] {
      NobodyLists(ns[1..], p);
      ListingHead(ns, p);
    }
  }

  /** The map names, for each partition, the last node to list it. */
  lemma {:induction false} NodeOfPartition(ns: seq<NodeParts>, p: i32, i: nat)
    requires (forall j :: 0 <= j < |ns| ==> GoodNode(ns[j])) && p >= 0 && LastToList(ns, p, i)
    ensures LastNode(ListingOf(ns), p) == Some(UuidText(ns[i].most, ns[i].least))
  {
    ListingHead(ns, p);
    if i > 0 {
      NodeOfPartition(ns[1..], p, i - 1);
    } else {
      NobodyLists(ns[1..], p);
    }
  }

  lemma {:induction false} ExtentConcat(a: Listing, b: Listing)
    ensures Extent(a + b) == if Extent(a) < Extent(b) then Extent(b) else Extent(a)
  {
    if b == [] {
      assert a + b == a;
    } else {
      assert (a + b)[..|a + b| - 1] == a + b[..|b| - 1];
      ExtentConcat(a, b[..|b| - 1]);
    }
  }

  lemma {:induction false} ExtentOfIds(x: Node, ids: seq<i32>, p: nat)
    requires forall i :: 0 <= i < |ids| ==> 0 <= ids[i]
    ensures p < Extent(IdsOf(x, ids)) <==> exists i :: 0 <= i < |ids| && ids[i] >= p
  {
    if ids != [] {
      var n := |ids| - 1;
      assert IdsOf(x, ids)[..n] == IdsOf(x, ids[..n]);
      ExtentOfIds(x, ids[..n], p);
      if i :| 0 <= i < n && ids[..n][i] >= p { assert ids[i] >= p; }
      if i :| 0 <= i < |ids| && ids[i] >= p {
        if i < n { assert ids[..n][i] >= p; }
      }
    }
  }

  /** Node i lists a partition p or higher. */
  ghost predicate ReachesTo(n: NodeParts, p: nat) {
    exists i :: 0 <= i < |n.ids| && n.ids[i] >= p
  }

  /** The map ends behind the highest partition anybody lists. */
  lemma {:induction false} MapLength(ns: seq<NodeParts>, p: nat)
    requires forall i :: 0 <= i < |ns| ==> GoodNode(ns[i])
    ensures p < |MapOf(ListingOf(ns))| <==> exists i :: 0 <= i < |ns| && ReachesTo(ns[i], p)
  {
    if ns != [] {
      assert GoodNode(ns[0]);
      MapLength(ns[1..], p);
      ExtentConcat(IdsOf(NodeText(ns[0]), ns[0].ids), ListingOf(ns[1..]));
      ExtentOfIds(NodeText(ns[0]), ns[0].ids, p);
      if i :| 0 <= i < |ns[1..]| && ReachesTo(ns[1..][i], p) { assert ReachesTo(ns[i + 1], p); }
      if i :| 0 <= i < |ns| && ReachesTo(ns[i], p) {
        if i > 0 { assert ReachesTo(ns[1..][i - 1], p); }
      }
    }
  }

  // ------------------------------------------------------------------ which keys a group routes, and where

  /** Some cache of the group has key configurations. */
  ghost predicate HasKeyConfig(g: Group)
    requires g.Applicable?
  {
    exists i :: 0 <= i < |g.caches| && g.caches[i].keyConfigs != []
  }

  /** The group routes by hash: applicable, some partition listed, no key configuration. */
  ghost predicate Routes(g: Group) {
    g.Applicable? && ListsPartition(g.primary) && !HasKeyConfig(g)
  }

  /** The node list a lookup consults. */
  ghost function SideNodes(g: Group, dcAware: bool, primary: bool): seq<NodeParts>
    requires g.Applicable?
  {
    if primary || !dcAware || !ListsPartition(g.dc) then g.primary else g.dc
  }

  lemma GroupSides(g: Group, dcAware: bool, id: i32, primary: bool)
    requires GoodGroup(g) && g.Applicable? && id in GroupMeaning(g, dcAware)
    ensures var m := GroupMeaning(g, dcAware)[id];
      && (m.keyFields <==> HasKeyConfig(g))
      && m.primary == NodeMap(g.primary) && Side(m, primary) == NodeMap(SideNodes(g, dcAware, primary))
  {
    MapEmptyExactlyWhen(g.dc);
    assert AnyKeyConfig(EntriesOf(g.caches)) <==> HasKeyConfig(g);
  }

  lemma SmallMap(g: Group)
    requires GoodGroup(g) && g.Applicable?
    ensures |NodeMap(g.primary)| <= 65536
  {
    ListingBound(g.primary);
    ExtentBound(ListingOf(g.primary), MAX_PARTITIONS);
  }

  /** A key of any type whose hash is known goes to the node its group lists last for the key's partition. */
  lemma RoutedByGroup(g: Group, dcAware: bool, id: i32, primary: bool, t: Ty, v: Val)
    requires GoodGroup(g) && Lists(g, id) && Routes(g)
    requires HasType(v, t) && KeyHash(t, v).Known?
    ensures id in GroupMeaning(g, dcAware) && 0 < |NodeMap(g.primary)| <= 65536
    ensures var p := Rendezvous(KeyHash(t, v).h, |NodeMap(g.primary)|);
      && 0 <= p < |NodeMap(g.primary)|
      && NodeForKey(GroupMeaning(g, dcAware)[id], Write(t, v), primary) ==
           Ok(LastNode(ListingOf(SideNodes(g, dcAware, primary)), p))
  {
    MeaningListsCaches(g, dcAware, id);
    MapEmptyExactlyWhen(g.primary);
    SmallMap(g);
    var m := GroupMeaning(g, dcAware)[id];
    GroupSides(g, dcAware, id, primary);
    KeyGoesToItsPartition(m, t, v, primary);
    AtMap(ListingOf(SideNodes(g, dcAware, primary)), Rendezvous(KeyHash(t, v).h, |m.primary|));
  }

  /** A group with a key configuration, without partitions, or not applicable routes no key, whatever its bytes. */
  lemma NotRoutedByGroup(g: Group, dcAware: bool, id: i32, primary: bool, key: Bytes)
    requires GoodGroup(g) && Lists(g, id) && !Routes(g)
    ensures id in GroupMeaning(g, dcAware)
    ensures NodeForKey(GroupMeaning(g, dcAware)[id], key, primary) == Ok(None)
  {
    MeaningListsCaches(g, dcAware, id);
    if g.Applicable? {
      MapEmptyExactlyWhen(g.primary);
      GroupSides(g, dcAware, id, primary);
      WrapFits(0);
    }
  }

  /** A key whose hash the client does not know is routed nowhere. */
  lemma UnknownIsNotRouted(m: CacheMap, t: Ty, v: Val, primary: bool)
    requires HasType(v, t) && !KeyHash(t, v).Known?
    ensures KeyHash(t, v).Unknown? && NodeForKey(m, Write(t, v), primary) == Ok(None)
  {
    HashAlone(t, v);
    NeverAborts(t, v);
  }

  lemma {:induction false} NeverAborts(t: Ty, v: Val)
    requires HasType(v, t)
    ensures !KeyHash(t, v).Aborts?
    decreases v
  {
    if t.Opt? && v.Just? { NeverAborts(t.inner, v.v); }
  }

  /** A reply with one node and one cache: every integer key goes to that node. */
  lemma OneNodeGetsEveryKey(most: i64, least: i64, id: i32, key: i32)
    ensures var g := Applicable([CacheEntry(id, [])], [NodeParts(most, least, [0])], [], true);
      && HasType(Num(key), Prim(I32)) && GoodGroup(g) && id in GroupMeaning(g, false)
      && NodeForKey(GroupMeaning(g, false)[id], Write(Prim(I32), Num(key)), true) == Ok(Some(UuidText(most, least)))
  {
    BaseValues();
    var n := NodeParts(most, least, [0]);
    var g := Applicable([CacheEntry(id, [])], [n], [], true);
    assert GoodNode(n);
    assert EntriesOf(g.caches)[0] == (id, false);
    assert Ids(EntriesOf(g.caches))[0] == id;
    OneEntry(n);
    assert g.caches[0].id == id && g.primary[0].ids != [];
    RoutedByGroup(g, false, id, true, Prim(I32), Num(key));
  }

  lemma OneListed(x: Node)
    ensures Extent([(0, x)]) == 1 && LastNode([(0, x)], 0) == Some(x)
  {
    var l: Listing := [(0, x)];
    assert l[..0] == [];
    assert Extent(l[..0]) == 0;
  }

  lemma OneEntry(n: NodeParts)
    requires n.ids == [0]
    ensures GoodNodes([n]) && |NodeMap([n])| == 1 && LastNode(ListingOf([n]), 0) == Some(NodeText(n))
  {
    assert GoodNode(n);
    assert [n][1..] == [];
    assert ListingOf([n]) == IdsOf(NodeText(n), n.ids) + [] == [(0, NodeText(n))];
    OneListed(NodeText(n));
  }
}
