/** The channel pool and the three indexes derived from it: by address, by node id, and the ordered list of
    default candidates. */
module ChannelManager {
  import opened Wrappers
  import opened Topology
  import opened Rotation

  class Channel {
    const address: Endpoint
    const nodeId: Option<NodeId>
    var closed: bool

    constructor (address: Endpoint, nodeId: Option<NodeId>)
      ensures this.address == address && this.nodeId == nodeId && !closed
    {
      this.address, this.nodeId, closed := address, nodeId, false;
    }

    /** Closing is permanent. */
    method Close()
      modifies this
      ensures closed
    {
      closed := true;
    }
  }

  /** The configured address resolver: none, its answer, or its failure. */
  datatype Resolver = NoResolver | Resolves(addresses: seq<Endpoint>) | Fails

  /** `"{address}#pool{i}"` and `"{address}#ch{n}"` */
  datatype Key = PoolKey(address: Endpoint, i: nat) | ChKey(address: Endpoint, n: nat)
  type Pool = map<Key, Channel>
  type AddressIndex = map<Endpoint, seq<Channel>>

  // ------------------------------------------------------------------ what the indexes must be

  ghost predicate PooledUnder(pool: Pool, keys: set<Key>, c: Channel) {
    exists k :: k in keys && k in pool && pool[k] == c
  }

  ghost predicate Pooled(pool: Pool, c: Channel) {
    PooledUnder(pool, pool.Keys, c)
  }

  ghost predicate Injective(pool: Pool) {
    forall j, k :: j in pool && k in pool && pool[j] == pool[k] ==> j == k
  }

  /** Each channel under `keys` is listed exactly once, under its own address, and nothing else is. */
  ghost predicate ListsEachOnce(pool: Pool, keys: set<Key>, index: AddressIndex) {
    && (forall a :: a in index ==> index[a] != [] && Distinct(index[a]))
    && (forall a, c :: a in index && c in index[a] ==> c.address == a && PooledUnder(pool, keys, c))
    && (forall k :: k in keys && k in pool ==> pool[k].address in index && pool[k] in index[pool[k].address])
  }

  /** The pooled channels whose address is an endpoint, each once, in the order of the endpoints. */
  ghost predicate IsCandidateList(candidates: seq<Channel>, pool: Pool, endpoints: seq<Endpoint>) {
    && Distinct(candidates)
    && (forall c :: c in candidates ==> Pooled(pool, c))
    && (forall k :: k in pool && pool[k].address in endpoints ==> pool[k] in candidates)
    && InOrder(candidates, endpoints)
  }

  ghost predicate InOrder(candidates: seq<Channel>, endpoints: seq<Endpoint>) {
    && (forall c :: c in candidates ==> c.address in endpoints)
    && forall i, j :: 0 <= i < j < |candidates| ==>
        First(endpoints, candidates[i].address) <= First(endpoints, candidates[j].address)
  }

  // ------------------------------------------------------------------ building them

  /** `build_channels_by_address`, in whatever order the hash map yields the channels. */
  method BuildByAddress(pool: Pool) returns (index: AddressIndex)
    requires Injective(pool)
    ensures ListsEachOnce(pool, pool.Keys, index)
  {
    index := map[];
    var left, done := pool.Keys, {};
    while left != {}
      invariant left + done == pool.Keys && left !! done
      invariant ListsEachOnce(pool, done, index)
    {
      var k :| k in left;
      var c := pool[k];
      var group := if c.address in index then index[c.address] else [];
      AddToIndex(pool, done, index, k);
      index := index[c.address := group + [c]];
      left, done := left - {k}, done + {k};
    }
    assert done == pool.Keys;
  }

  lemma AddToIndex(pool: Pool, done: set<Key>, index: AddressIndex, k: Key)
    requires Injective(pool) && ListsEachOnce(pool, done, index) && k in pool && k !in done
    ensures var c := pool[k];
      ListsEachOnce(pool, done + {k}, index[c.address := (if c.address in index then index[c.address] else []) + [c]])
  {
    var c := pool[k];
    var group := if c.address in index then index[c.address] else [];
    assert c !in group;
    assert Distinct(group + [c]);
    var index': AddressIndex := index[c.address := group + [c]];
    forall a: Endpoint, d: Channel | a in index' && d in index'[a]
      ensures d.address == a && PooledUnder(pool, done + {k}, d)
    {
      if d != c { assert a in index && d in index[a]; }
    }
    forall j | j in done + {k} && j in pool ensures pool[j].address in index' && pool[j] in index'[pool[j].address] {
      if j == k { assert (group + [c])[|group|] == c; }
    }
  }

  ghost predicate Group(index: AddressIndex, c: Channel) {
    c.address in index && c in index[c.address]
  }

  /** `build_default_candidates` */
  method BuildCandidates(index: AddressIndex, endpoints: seq<Endpoint>) returns (candidates: seq<Channel>)
    requires forall a, c :: a in index && c in index[a] ==> c.address == a
    ensures Distinct(candidates) && InOrder(candidates, endpoints)
    ensures forall c :: c in candidates <==> Group(index, c) && c.address in endpoints
  {
    candidates := [];
    var seen: set<Channel> := {};
    for i := 0 to |endpoints|
      invariant Distinct(candidates) && InOrder(candidates, endpoints)
      invariant forall c :: c in candidates <==> Group(index, c) && c.address in endpoints[..i]
      invariant forall c :: c in seen <==> c in candidates
    {
      if endpoints[i] in index {
        candidates, seen := AddGroup(candidates, seen, index[endpoints[i]], endpoints, i);
      }
      assert endpoints[..i + 1] == endpoints[..i] + [endpoints[i]];
    }
    assert endpoints[..|endpoints|] == endpoints;
  }

  method AddGroup(candidates: seq<Channel>, seen: set<Channel>, group: seq<Channel>, endpoints: seq<Endpoint>, i: nat)
    returns (candidates': seq<Channel>, seen': set<Channel>)
    requires i < |endpoints| && Distinct(candidates) && InOrder(candidates, endpoints)
    requires forall c :: c in seen <==> c in candidates
    requires forall c :: c in group ==> c.address == endpoints[i]
    requires forall c :: c in candidates ==> c.address in endpoints[..i]
    requires endpoints[i] in endpoints[..i] ==> forall c :: c in group ==> c in candidates
    ensures Distinct(candidates') && InOrder(candidates', endpoints)
    ensures forall c :: c in seen' <==> c in candidates'
    ensures forall c :: c in candidates' <==> c in candidates || c in group
  {
    candidates', seen' := candidates, seen;
    for j := 0 to |group|
      invariant Distinct(candidates') && InOrder(candidates', endpoints)
      invariant forall c :: c in seen' <==> c in candidates'
      invariant forall c :: c in candidates' <==> c in candidates || c in group[..j]
    {
      var c := group[j];
      if c !in seen' {
        LastInOrder(candidates', c, endpoints, i);
        candidates', seen' := candidates' + [c], seen' + {c};
      }
      assert group[..j + 1] == group[..j] + [c];
    }
    assert group[..|group|] == group;
  }

  lemma LastInOrder(list: seq<Channel>, c: Channel, endpoints: seq<Endpoint>, i: nat)
    requires i < |endpoints| && InOrder(list, endpoints) && c.address == endpoints[i] && endpoints[i] !in endpoints[..i]
    requires forall d :: d in list ==> d.address in endpoints[..i] || d.address == endpoints[i]
    ensures InOrder(list + [c], endpoints)
  {
  }

  lemma CandidatesFromIndex(candidates: seq<Channel>, pool: Pool, index: AddressIndex, endpoints: seq<Endpoint>)
    requires ListsEachOnce(pool, pool.Keys, index) && Distinct(candidates) && InOrder(candidates, endpoints)
    requires forall c :: c in candidates <==> Group(index, c) && c.address in endpoints
    ensures IsCandidateList(candidates, pool, endpoints)
  {
  }

  // ------------------------------------------------------------------ the manager

  /** What the linear scan over the pool would accept for node n. */
  ghost predicate ServesNode(pool: Pool, n: NodeId, c: Channel)
    reads c
  {
    Pooled(pool, c) && !c.closed && c.nodeId == Some(n)
  }

  /** The channels that dialling yields are new, open, and lead where they were dialled. */
  ghost predicate Dialled(pool: Pool, dialled: map<Endpoint, Channel>)
    reads set a | a in dialled :: dialled[a]
  {
    forall a :: a in dialled ==> !Pooled(pool, dialled[a]) && dialled[a].address == a && !dialled[a].closed
  }

  /** Every pooled channel to this address is closed. */
  ghost predicate NoneOpen(pool: Pool, a: Endpoint)
    reads set k | k in pool :: pool[k]
  {
    forall k :: k in pool && pool[k].address == a ==> pool[k].closed
  }

  ghost predicate DeadEnd(pool: Pool, dialled: map<Endpoint, Channel>, a: Endpoint)
    reads set k | k in pool :: pool[k]
  {
    a !in dialled && NoneOpen(pool, a)
  }

  ghost predicate AtEndpoint(pool: Pool, c: Channel, endpoints: seq<Endpoint>)
    reads c
  {
    Pooled(pool, c) && !c.closed && c.address in endpoints
  }

  ghost predicate NoneAtEndpoints(pool: Pool, endpoints: seq<Endpoint>)
    reads set k | k in pool :: pool[k]
  {
    forall k :: k in pool && pool[k].address in endpoints ==> pool[k].closed
  }

  /** A pooled, open channel to this address. */
  ghost predicate OpenAt(pool: Pool, c: Channel, a: Endpoint)
    reads c
  {
    Pooled(pool, c) && !c.closed && c.address == a
  }

  ghost function OpenSet(pool: Pool): set<Channel>
    reads set k | k in pool :: pool[k]
  {
    set k | k in pool && !pool[k].closed :: pool[k]
  }

  /** Some open pooled channel belongs to node n. */
  ghost predicate HasOwn(open: set<Channel>, n: NodeId) {
    exists c :: c in open && c.nodeId == Some(n)
  }

  function FirstOpen(group: seq<Channel>, open: set<Channel>): Option<Channel> {
    if group == [] then None else if group[0] in open then Some(group[0]) else FirstOpen(group[1..], open)
  }

  function OpenAtAddress(index: AddressIndex, open: set<Channel>, a: Endpoint): Option<Channel> {
    if a in index then FirstOpen(index[a], open) else None
  }

  /** What an address yields: its first open channel, else what dialling it gives. */
  function Choice(index: AddressIndex, open: set<Channel>, dialled: map<Endpoint, Channel>, a: Endpoint)
    : Option<Channel>
  {
    if OpenAtAddress(index, open, a).Some? then OpenAtAddress(index, open, a)
    else if a in dialled then Some(dialled[a])
    else None
  }

  /** What the first address that yields anything yields. */
  function FirstChoice(index: AddressIndex, open: set<Channel>, dialled: map<Endpoint, Channel>,
      addresses: seq<Endpoint>)
    : Option<Channel>
  {
    if addresses == [] then None
    else if Choice(index, open, dialled, addresses[0]).Some? then Choice(index, open, dialled, addresses[0])
    else FirstChoice(index, open, dialled, addresses[1..])
  }

  /** The first open channel of a group. */
  lemma {:induction false} FirstOpenMeaning(group: seq<Channel>, open: set<Channel>, i: nat)
    requires i < |group| && group[i] in open && forall j :: 0 <= j < i ==> group[j] !in open
    ensures FirstOpen(group, open) == Some(group[i])
  {
    if i > 0 { FirstOpenMeaning(group[1..], open, i - 1); }
  }

  /** The first choice is that of the first address that yields anything. */
  lemma {:induction false} FirstChoiceMeaning(index: AddressIndex, open: set<Channel>, dialled: map<Endpoint, Channel>,
      addresses: seq<Endpoint>, i: nat)
    requires i < |addresses| && Choice(index, open, dialled, addresses[i]).Some?
    requires forall j :: 0 <= j < i ==> Choice(index, open, dialled, addresses[j]).None?
    ensures FirstChoice(index, open, dialled, addresses) == Choice(index, open, dialled, addresses[i])
  {
    if i > 0 { FirstChoiceMeaning(index, open, dialled, addresses[1..], i - 1); }
  }

  lemma {:induction false} NoChoiceMeaning(index: AddressIndex, open: set<Channel>, dialled: map<Endpoint, Channel>,
      addresses: seq<Endpoint>)
    requires forall j :: 0 <= j < |addresses| ==> Choice(index, open, dialled, addresses[j]).None?
    ensures FirstChoice(index, open, dialled, addresses).None?
  {
    if addresses != [] { NoChoiceMeaning(index, open, dialled, addresses[1..]); }
  }

  /** Nothing entered the pool but channels from `extra`. */
  ghost predicate GrewBy(before: Pool, after: Pool, extra: set<Channel>) {
    forall k :: k in after ==> (k in before && before[k] == after[k]) || after[k] in extra
  }

  function ChannelsOf(dialled: map<Endpoint, Channel>): set<Channel> {
    set a | a in dialled :: dialled[a]
  }

  method Availability(channels: seq<Channel>) returns (available: seq<bool>)
    ensures |available| == |channels| && forall i :: 0 <= i < |channels| ==> available[i] == !channels[i].closed
  {
    available := [];
    for i := 0 to |channels|
      invariant |available| == i && forall j :: 0 <= j < i ==> available[j] == !channels[j].closed
    {
      available := available + [!channels[i].closed];
    }
  }

  class Manager {
    const topology: TopologyCache
    var pool: Pool
    var byAddress: AddressIndex
    var defaultCandidates: seq<Channel>
    var nodeChannels: map<NodeId, Channel>
    var nextKey: nat
    var nextIndex: nat
    var active: Channel

    /** The address and node indexes agree with the pool, and no key will be used twice. */
    ghost predicate PoolIndexed()
      reads this, set n | n in nodeChannels :: nodeChannels[n]
    {
      && Injective(pool) && nextIndex < WORD
      && (forall k :: k in pool && k.ChKey? ==> k.n < nextKey)
      && ListsEachOnce(pool, pool.Keys, byAddress)
      && (forall n :: n in nodeChannels ==> nodeChannels[n].nodeId == Some(n))
      && (forall n :: n in nodeChannels && !nodeChannels[n].closed ==> Pooled(pool, nodeChannels[n]))
    }

    /** Everything but the candidate list is up to date. */
    ghost predicate Indexed()
      reads this, topology, set n | n in nodeChannels :: nodeChannels[n]
    {
      topology.Valid() && PoolIndexed()
    }

    ghost predicate CandidatesCurrent()
      reads this, topology`cached
    {
      IsCandidateList(defaultCandidates, pool, topology.cached)
    }

    ghost predicate Valid()
      reads this, topology, set n | n in nodeChannels :: nodeChannels[n]
    {
      Indexed() && CandidatesCurrent()
    }

    /** The first connection and the rest of the initial pool; `None` stands for a connection that failed. */
    constructor (topology: TopologyCache, first: Channel, others: seq<Option<Channel>>)
      requires topology.Valid()
      requires forall i :: 0 <= i < |others| && others[i].Some? ==> others[i].value != first
      requires forall i, j :: 0 <= i < j < |others| && others[i].Some? && others[j].Some? ==>
        others[i].value != others[j].value
      ensures Valid() && this.topology == topology && Pooled(pool, first)
      ensures forall i :: 0 <= i < |others| && others[i].Some? ==> Pooled(pool, others[i].value)
      ensures forall k :: k in pool ==> pool[k] == first || Some(pool[k]) in others
    {
      var initial: Pool := map[PoolKey(first.address, 0) := first];
      assert PoolKey(first.address, 0) in initial;
      for i := 0 to |others|
        invariant Injective(initial) && forall k :: k in initial ==> k.PoolKey? && k.i <= i
        invariant forall k :: k in initial ==>
          initial[k] == first || exists j :: 0 <= j < i && others[j] == Some(initial[k])
        invariant Pooled(initial, first)
        invariant forall j :: 0 <= j < i && others[j].Some? ==> Pooled(initial, others[j].value)
      {
        if others[i].Some? {
          ghost var before := initial;
          var key := PoolKey(first.address, i + 1);
          initial := initial[key := others[i].value];
          assert forall c: Channel :: Pooled(before, c) ==> Pooled(initial, c) by {
            forall c: Channel | Pooled(before, c) ensures Pooled(initial, c) {
              StillPooled(before, key, others[i].value, c);
            }
          }
          assert key in initial;
        }
      }
      var index := BuildByAddress(initial);
      var candidates := BuildCandidates(index, topology.cached);
      CandidatesFromIndex(candidates, initial, index, topology.cached);
      this.topology := topology;
      pool, byAddress, defaultCandidates, nodeChannels, nextKey := initial, index, candidates, map[], |others| + 1;
      nextIndex, active := 0, first;
    }

    /** `store_channels_by_address` */
    method StoreChannels()
      requires topology.Valid() && Injective(pool)
      modifies this`byAddress, this`defaultCandidates
      ensures ListsEachOnce(pool, pool.Keys, byAddress) && IsCandidateList(defaultCandidates, pool, topology.cached)
    {
      byAddress := BuildByAddress(pool);
      defaultCandidates := BuildCandidates(byAddress, topology.cached);
      CandidatesFromIndex(defaultCandidates, pool, byAddress, topology.cached);
    }

    method RefreshDefaultCandidates()
      requires Indexed()
      modifies this`defaultCandidates
      ensures Valid()
    {
      var index := BuildByAddress(pool);
      defaultCandidates := BuildCandidates(index, topology.cached);
      CandidatesFromIndex(defaultCandidates, pool, index, topology.cached);
    }

    /** A newly connected channel takes a key nobody has: no pooled channel is overwritten. */
    method InsertChannel(c: Channel)
      requires Valid() && !Pooled(pool, c)
      modifies this`pool, this`byAddress, this`defaultCandidates, this`nextKey
      ensures Valid() && nextKey == old(nextKey) + 1
      ensures ChKey(c.address, old(nextKey)) !in old(pool) && pool == old(pool)[ChKey(c.address, old(nextKey)) := c]
      ensures Pooled(pool, c) && forall d: Channel :: Pooled(old(pool), d) ==> Pooled(pool, d)
    {
      ghost var before := pool;
      var key := ChKey(c.address, nextKey);
      nextKey := nextKey + 1;
      pool := pool[key := c];
      assert key in pool;
      forall d: Channel | Pooled(before, d) ensures Pooled(pool, d) { StillPooled(before, key, c, d); }
      StoreChannels();
    }

    /** `cache_channel_identity` for a channel that is pooled, or was closed since it was. */
    method CacheChannelIdentity(c: Channel)
      requires Valid() && (Pooled(pool, c) || c.closed)
      modifies this`nodeChannels, this`defaultCandidates, topology`nodeIds, topology`discovered, topology`cached
      ensures Valid()
      ensures nodeChannels == if c.nodeId.Some? then old(nodeChannels)[c.nodeId.value := c] else old(nodeChannels)
      ensures c.nodeId.Some? ==>
        && topology.nodeIds == AddOnce(old(topology.nodeIds), c.nodeId.value)
        && topology.discovered == WithEndpoint(old(topology.discovered), c.nodeId.value, c.address)
      ensures c.nodeId.None? ==>
        defaultCandidates == old(defaultCandidates) && topology.discovered == old(topology.discovered)
    {
      if c.nodeId.Some? {
        RecordIdentity(topology, c.nodeId.value, c.address);
        IndexNode(c);
        RefreshDefaultCandidates();
      }
    }

    method IndexNode(c: Channel)
      requires Indexed() && c.nodeId.Some? && (Pooled(pool, c) || c.closed)
      modifies this`nodeChannels
      ensures Indexed() && nodeChannels == old(nodeChannels)[c.nodeId.value := c]
    {
      nodeChannels := nodeChannels[c.nodeId.value := c];
    }

    /** A channel can break at any moment; the indexes stay right. */
    method Break(c: Channel)
      requires Valid()
      modifies c
      ensures Valid() && c.closed
    {
      c.Close();
    }

    /** Channels leave the pool, the indexes are rebuilt, and then the channels are closed. */
    method Drop(gone: set<Key>)
      requires Indexed() && gone <= pool.Keys
      modifies this`pool, this`byAddress, this`defaultCandidates, set k | k in pool :: pool[k]
      ensures Valid() && pool == old(pool) - gone
      ensures forall k :: k in gone ==> old(pool)[k].closed
      ensures forall k :: k in pool ==> pool[k].closed == old(pool[k].closed)
    {
      var leaving := set k | k in gone :: pool[k];
      KeptPooled(pool, gone);
      TakeFromPool(gone);
      CloseAll(leaving);
    }

    method TakeFromPool(gone: set<Key>)
      requires Indexed() && gone <= pool.Keys
      modifies this`pool, this`byAddress, this`defaultCandidates
      ensures pool == old(pool) - gone && Injective(pool)
      ensures ListsEachOnce(pool, pool.Keys, byAddress) && CandidatesCurrent()
    {
      KeptPooled(pool, gone);
      pool := pool - gone;
      StoreChannels();
    }

    /** Channels of removed nodes leave the node index and the pool, and are closed. */
    method PruneRemovedNodeChannels(removed: seq<NodeId>)
      requires Indexed()
      modifies this, set k | k in pool :: pool[k]
      ensures Indexed() && (removed != [] ==> Valid()) && nextKey == old(nextKey)
      ensures removed == [] ==> defaultCandidates == old(defaultCandidates)
      ensures nodeChannels == old(nodeChannels) - KeySet(removed)
      ensures pool == old(pool) - KeysOfNodes(old(pool), removed)
      ensures forall k :: k in KeysOfNodes(old(pool), removed) ==> old(pool)[k].closed
      ensures forall k :: k in pool ==> pool[k].closed == old(pool[k].closed)
    {
      if |removed| == 0 { return; }
      nodeChannels := nodeChannels - KeySet(removed);
      Drop(KeysOfNodes(pool, removed));
    }

    /** Channels of removed seed addresses leave the pool and are closed, unless the address is the active
        one or a discovered endpoint. */
    method PruneRemovedSeedChannels(removed: seq<Endpoint>, activeAddress: Endpoint)
      requires Valid()
      modifies this`pool, this`byAddress, this`defaultCandidates, set k | k in pool :: pool[k]
      ensures Valid()
      ensures var dropped := KeysAt(old(pool), Dropped(removed, activeAddress, Flatten(topology.discovered)));
        && pool == old(pool) - dropped
        && (forall k :: k in dropped ==> old(pool)[k].closed)
      ensures forall k :: k in pool ==> pool[k].closed == old(pool[k].closed)
    {
      if |removed| == 0 { return; }
      var snapshot := topology.TakeSnapshot();
      Drop(KeysAt(pool, Dropped(removed, activeAddress, snapshot.discovered)));
    }

    /** The topology part of `refresh_topology_from_channel`. */
    method ApplyDiscovery(v: Topology.Version, added: seq<DiscoveredNode>, removed: seq<NodeId>)
      requires Valid()
      modifies this, topology, set k | k in pool :: pool[k]
      ensures Valid()
      ensures pool == old(pool) - KeysOfNodes(old(pool), removed) && nodeChannels == old(nodeChannels) - KeySet(removed)
      ensures forall k :: k in KeysOfNodes(old(pool), removed) ==> old(pool)[k].closed
      ensures forall k :: k in pool ==> pool[k].closed == old(pool[k].closed)
      ensures topology.version == Some(v)
      ensures topology.discovered == AddNodes(old(topology.discovered), added) - KeySet(removed)
    {
      topology.ApplyDiscovery(v, added, removed);
      PruneAndRefresh(removed);
    }

    method PruneAndRefresh(removed: seq<NodeId>)
      requires Indexed()
      modifies this, set k | k in pool :: pool[k]
      ensures Valid()
      ensures pool == old(pool) - KeysOfNodes(old(pool), removed) && nodeChannels == old(nodeChannels) - KeySet(removed)
      ensures forall k :: k in KeysOfNodes(old(pool), removed) ==> old(pool)[k].closed
      ensures forall k :: k in pool ==> pool[k].closed == old(pool[k].closed)
    {
      PruneRemovedNodeChannels(removed);
      RefreshDefaultCandidates();
    }

    method RefreshSeedEndpoints(next: seq<Endpoint>) returns (removed: seq<Endpoint>)
      requires Valid()
      modifies this`defaultCandidates, topology`seeds, topology`cached
      ensures Valid() && topology.seeds == Dedupe(next) && removed == Without(old(topology.seeds), next)
    {
      removed := topology.ReplaceSeeds(next);
      RefreshDefaultCandidates();
    }

    method ChannelForAddress(a: Endpoint) returns (r: Option<Channel>)
      requires Valid()
      ensures r.Some? ==> OpenAt(pool, r.value, a)
      ensures r.None? <==> NoneOpen(pool, a)
      ensures r == OpenAtAddress(byAddress, OpenSet(pool), a)
    {
      if a !in byAddress { return None; }
      var group := byAddress[a];
      assert group[0..] == group;
      for i := 0 to |group|
        invariant forall j :: 0 <= j < i ==> group[j].closed
        invariant FirstOpen(group, OpenSet(pool)) == FirstOpen(group[i..], OpenSet(pool))
      {
        assert group[i] in group && group[i..][0] == group[i] && group[i..][1..] == group[i + 1..];
        if !group[i].closed { return Some(group[i]); }
      }
      r := None;
    }

    /** The default channel is an open pooled channel to a current endpoint or, failing that, the active one.  While the
        counter does not overflow in the scan, it is the active one only if there is no such channel. */
    method DefaultChannel() returns (c: Channel)
      requires Valid() && |defaultCandidates| < WORD
      modifies this`nextIndex
      ensures Valid()
      ensures c == active || AtEndpoint(pool, c, topology.cached)
      ensures NoneAtEndpoints(pool, topology.cached) ==> c == active
      ensures |defaultCandidates| < 2 || Undisturbed(WORD, old(nextIndex), |defaultCandidates|) ==>
        NoneAtEndpoints(pool, topology.cached) || AtEndpoint(pool, c, topology.cached)
    {
      var available := Availability(defaultCandidates);
      var pick;
      pick, nextIndex := PickDefault(available, nextIndex);
      if pick.None? { return active; }
      c := defaultCandidates[pick.value];
      assert c in defaultCandidates;
    }

    /** Index lookup, then linear scan: what is returned the scan would accept, and nothing is returned
        only if the scan accepts nothing. */
    method FindByNodeId(n: NodeId) returns (r: Option<Channel>)
      requires Valid()
      modifies this`nodeChannels
      ensures Valid()
      ensures r.Some? ==> ServesNode(pool, n, r.value)
      ensures r.None? <==> forall k :: k in pool ==> pool[k].closed || pool[k].nodeId != Some(n)
      ensures nodeChannels == if r.Some? then old(nodeChannels)[n := r.value] else old(nodeChannels)
    {
      if n in nodeChannels && !nodeChannels[n].closed { return Some(nodeChannels[n]); }
      var left := pool.Keys;
      while left != {}
        invariant left <= pool.Keys
        invariant forall k :: k in pool && k !in left ==> pool[k].closed || pool[k].nodeId != Some(n)
      {
        var k :| k in left;
        if !pool[k].closed && pool[k].nodeId == Some(n) {
          nodeChannels := nodeChannels[n := pool[k]];
          return Some(pool[k]);
        }
        left := left - {k};
      }
      r := None;
    }

    /** `connect_specific`; `dialled` is the channel a new connection yields, if it succeeds. */
    method ConnectSpecific(a: Endpoint, dialled: Option<Channel>) returns (r: Option<Channel>)
      requires Valid()
      requires dialled.Some? ==> !Pooled(pool, dialled.value) && dialled.value.address == a && !dialled.value.closed
      modifies this`pool, this`byAddress, this`nextKey, this`nodeChannels, this`defaultCandidates
      modifies topology`nodeIds, topology`discovered, topology`cached
      ensures Valid()
      ensures r.Some? ==> OpenAt(pool, r.value, a)
      ensures r.None? ==> dialled.None? && unchanged(this) && unchanged(topology)
      ensures GrewBy(old(pool), pool, if dialled.Some? then {dialled.value} else {})
      ensures var there := old(OpenAtAddress(byAddress, OpenSet(pool), a)); r == if there.Some? then there else dialled
    {
      var existing := ChannelForAddress(a);
      if existing.Some? { return existing; }
      if dialled.None? { return None; }
      InsertChannel(dialled.value);
      CacheChannelIdentity(dialled.value);
      r := dialled;
    }

    /** `channel_for_node_id`: the node's own channel if one is open, otherwise whatever the first endpoint recorded for
        the node that is no dead end yields, connecting where `dialled` says a connection succeeds.  So the channel
        returned is the node's if and only if one of its own is open or that first choice happens to be its own. */
    method ChannelForNodeId(n: NodeId, dialled: map<Endpoint, Channel>) returns (r: Option<Channel>)
      requires Valid()
      requires Dialled(pool, dialled)
      modifies this`pool, this`byAddress, this`nextKey, this`nodeChannels, this`defaultCandidates
      modifies topology`nodeIds, topology`discovered, topology`cached
      ensures Valid() && GrewBy(old(pool), pool, ChannelsOf(dialled))
      ensures r.Some? ==> Pooled(pool, r.value) && !r.value.closed
      ensures old(HasOwn(OpenSet(pool), n)) ==> r.Some? && r.value.nodeId == Some(n)
      ensures !old(HasOwn(OpenSet(pool), n)) ==>
        r == old(FirstChoice(byAddress, OpenSet(pool), dialled, Recorded(topology.discovered, n)))
      ensures r.None? ==> forall e :: e in old(Recorded(topology.discovered, n)) ==> DeadEnd(old(pool), dialled, e)
      ensures r.Some? && r.value.nodeId != Some(n) ==> r.value.address in old(Recorded(topology.discovered, n))
      ensures (r.Some? && r.value.nodeId == Some(n)) <==>
        || old(HasOwn(OpenSet(pool), n))
        || Owned(old(FirstChoice(byAddress, OpenSet(pool), dialled, Recorded(topology.discovered, n))), n)
    {
      r := FindByNodeId(n);
      if r.None? { r := ChannelForEndpointOf(n, dialled); }
    }

    method ChannelForEndpoint(a: Endpoint, dialled: map<Endpoint, Channel>) returns (r: Option<Channel>)
      requires Valid()
      requires Dialled(pool, dialled)
      modifies this`pool, this`byAddress, this`nextKey, this`nodeChannels, this`defaultCandidates
      modifies topology`nodeIds, topology`discovered, topology`cached
      ensures Valid()
      ensures r.Some? ==> OpenAt(pool, r.value, a)
      ensures r.None? ==> DeadEnd(pool, dialled, a) && unchanged(this) && unchanged(topology)
      ensures GrewBy(old(pool), pool, ChannelsOf(dialled))
      ensures r == old(Choice(byAddress, OpenSet(pool), dialled, a))
      ensures !NoneOpen(old(pool), a) ==>
        r.Some? && Pooled(old(pool), r.value) && unchanged(this) && unchanged(topology)
    {
      r := ChannelForAddress(a);
      if r.None? {
        r := ConnectSpecific(a, if a in dialled then Some(dialled[a]) else None);
      }
    }

    method ChannelForEndpointOf(n: NodeId, dialled: map<Endpoint, Channel>) returns (r: Option<Channel>)
      requires Valid()
      requires Dialled(pool, dialled)
      modifies this`pool, this`byAddress, this`nextKey, this`nodeChannels, this`defaultCandidates
      modifies topology`nodeIds, topology`discovered, topology`cached
      ensures Valid() && GrewBy(old(pool), pool, ChannelsOf(dialled))
      ensures r.Some? ==>
        Pooled(pool, r.value) && !r.value.closed && r.value.address in old(Recorded(topology.discovered, n))
      ensures r == old(FirstChoice(byAddress, OpenSet(pool), dialled, Recorded(topology.discovered, n)))
      ensures r.None? ==> forall e :: e in old(Recorded(topology.discovered, n)) ==> DeadEnd(old(pool), dialled, e)
    {
      var endpoints := topology.EndpointsForNode(n);
      ghost var index, open := byAddress, OpenSet(pool);
      assert endpoints[0..] == endpoints;
      for i := 0 to |endpoints|
        invariant Valid() && unchanged(this) && unchanged(topology)
        invariant forall j :: 0 <= j < i ==> DeadEnd(old(pool), dialled, endpoints[j])
        invariant FirstChoice(index, open, dialled, endpoints) == FirstChoice(index, open, dialled, endpoints[i..])
      {
        assert endpoints[i..][0] == endpoints[i] && endpoints[i..][1..] == endpoints[i + 1..];
        r := ChannelForEndpoint(endpoints[i], dialled);
        if r.Some? { return; }
      }
      r := None;
    }

    /** The loop of `connect_any`: the addresses in rotation from `start`, until one has an open channel or can be
        dialled. */
    method ConnectInTurn(addresses: seq<Endpoint>, start: nat, dialled: map<Endpoint, Channel>)
      returns (tried: seq<Endpoint>, r: Option<Channel>)
      requires Valid() && Dialled(pool, dialled)
      modifies this`pool, this`byAddress, this`nextKey, this`nodeChannels, this`defaultCandidates
      modifies topology`nodeIds, topology`discovered, topology`cached
      ensures Valid()
      ensures |tried| <= |addresses| && tried == RotatedTo(addresses, start, |tried|)
      ensures r.None? ==> tried == Rotated(addresses, start) && unchanged(this) && unchanged(topology)
      ensures r.None? ==> forall e :: e in tried ==> DeadEnd(pool, dialled, e)
      ensures r.Some? ==> tried != [] && OpenAt(pool, r.value, tried[|tried| - 1])
      ensures GrewBy(old(pool), pool, ChannelsOf(dialled))
    {
      tried := [];
      RotatedEnds(addresses, start);
      for step := 0 to |addresses|
        invariant Valid() && unchanged(this) && unchanged(topology)
        invariant |tried| == step && tried == RotatedTo(addresses, start, step)
        invariant forall e :: e in tried ==> DeadEnd(pool, dialled, e)
      {
        var address := addresses[(start + step) % |addresses|];
        RotatedNext(addresses, start, step);
        tried := tried + [address];
        r := ChannelForEndpoint(address, dialled);
        if r.Some? { return; }
      }
      r := None;
    }

    method MarkActive(a: Endpoint)
      requires Valid()
      modifies topology`active
      ensures Valid() && topology.active == Some(a)
    {
      topology.MarkActive(a);
    }

    /** `connect_any` behind `next_index_after(failed)`: with no endpoint left to try, each has been tried exactly
        once, the failed one last. */
    method ConnectAnyAfter(failed: Endpoint, dialled: map<Endpoint, Channel>)
      returns (tried: seq<Endpoint>, r: Option<Channel>)
      requires Valid() && Dialled(pool, dialled)
      modifies this`pool, this`byAddress, this`nextKey, this`nodeChannels, this`defaultCandidates
      modifies topology`nodeIds, topology`discovered, topology`cached, topology`active
      ensures Valid()
      ensures r.None? ==> FullRound(tried, topology.cached, failed) && unchanged(this) && unchanged(topology)
      ensures r.None? ==> forall e :: e in tried ==> DeadEnd(pool, dialled, e)
      ensures r.Some? ==> OpenAt(pool, r.value, r.value.address) && topology.active == Some(r.value.address)
      ensures GrewBy(old(pool), pool, ChannelsOf(dialled))
    {
      var start := topology.NextIndexAfter(failed);
      var endpoints := topology.cached;
      tried, r := ConnectInTurn(endpoints, start, dialled);
      if r.Some? {
        MarkActive(r.value.address);
      } else {
        EveryEndpointOnce(tried, endpoints, failed);
      }
    }

    /** `reconnect_from`: another task's replacement is taken as it is; otherwise a new round, whose channel becomes the
        active one and survives the pruning that follows. */
    method ReconnectFrom(failed: Endpoint, throttled: bool, resolver: Resolver,
        dialled: map<Endpoint, Channel>)
      returns (tried: seq<Endpoint>, r: Option<Channel>)
      requires Valid() && Dialled(pool, dialled)
      modifies this, topology, set k | k in pool :: pool[k], ChannelsOf(dialled)
      ensures Valid()
      ensures old(active.address != failed && !active.closed) ==>
        r == Some(old(active)) && unchanged(this) && unchanged(topology)
      ensures old(active.address == failed || active.closed) ==>
        if throttled || resolver.Fails? then r.None? && tried == [] && unchanged(this) && unchanged(topology)
        else if r.None? then active == old(active) && FullRound(tried, topology.cached, failed)
        else active == r.value && OpenAt(pool, r.value, r.value.address)
    {
      tried := [];
      if active.address != failed && !active.closed { return tried, Some(active); }
      if throttled { return tried, None; }
      if resolver.Fails? { return tried, None; }
      tried, r := Reconnect(failed, if resolver.NoResolver? then None else Some(resolver.addresses), dialled);
    }

    /** `resolved` is the address resolver's list, if there is a resolver. */
    method Reconnect(failed: Endpoint, resolved: Option<seq<Endpoint>>, dialled: map<Endpoint, Channel>)
      returns (tried: seq<Endpoint>, r: Option<Channel>)
      requires Valid() && Dialled(pool, dialled)
      modifies this, topology, set k | k in pool :: pool[k], ChannelsOf(dialled)
      ensures Valid()
      ensures r.None? ==> active == old(active) && FullRound(tried, topology.cached, failed)
      ensures r.Some? ==> active == r.value && OpenAt(pool, r.value, r.value.address)
    {
      var removed := [];
      if resolved.Some? { removed := RefreshSeedEndpoints(resolved.value); }
      tried, r := ConnectAnyAfter(failed, dialled);
      if r.Some? { Install(removed, r.value); }
    }

    method Install(removed: seq<Endpoint>, c: Channel)
      requires Valid() && OpenAt(pool, c, c.address)
      modifies this`active, this`pool, this`byAddress, this`defaultCandidates, set k | k in pool :: pool[k]
      ensures Valid() && active == c && OpenAt(pool, c, c.address)
    {
      ghost var k :| k in pool && pool[k] == c;
      active := c;
      PruneRemovedSeedChannels(removed, c.address);
      assert k in pool;
    }
  }

  predicate Owned(c: Option<Channel>, n: NodeId) {
    c.Some? && c.value.nodeId == Some(n)
  }

  lemma FirstOpenExists(group: seq<Channel>, open: set<Channel>, c: Channel)
    requires c in group && c in open
    ensures FirstOpen(group, open).Some? && FirstOpen(group, open).value in open
  {
  }

  /** With a single channel in the pool, every choice at its address is that channel. */
  lemma OnlyChoice(pool: Pool, index: AddressIndex, c: Channel)
    requires ListsEachOnce(pool, pool.Keys, index) && Pooled(pool, c) && forall k :: k in pool ==> pool[k] == c
    ensures FirstChoice(index, {c}, map[], [c.address]) == Some(c)
  {
    FirstOpenExists(index[c.address], {c}, c);
  }

  lemma OnlyOpen(pool: Pool, c: Channel)
    requires Pooled(pool, c) && !c.closed && forall k :: k in pool ==> pool[k] == c
    ensures OpenSet(pool) == {c}
  {
  }

  /** A manager with one open channel, of node m, at an endpoint recorded for node n: n has no channel of its own, and
      the first choice for n is m's. */
  method EndpointChangedHands(n: NodeId, m: NodeId, a: Endpoint) returns (manager: Manager, c: Channel)
    ensures fresh(manager) && fresh(manager.topology) && manager.Valid()
    ensures n in manager.topology.nodeIds && Recorded(manager.topology.discovered, n) == [a]
    ensures c.address == a && c.nodeId == Some(m) && !c.closed
    ensures OpenSet(manager.pool) == {c}
    ensures Some(c) ==
      FirstChoice(manager.byAddress, OpenSet(manager.pool), map[], Recorded(manager.topology.discovered, n))
  {
    var topology := new TopologyCache([a]);
    topology.RecordNodeEndpoint(n, a);
    c := new Channel(a, Some(m));
    manager := new Manager(topology, c, []);
    OnlyOpen(manager.pool, c);
    OnlyChoice(manager.pool, manager.byAddress, c);
  }

  /** Asked for any node n, a manager can answer with the channel of another node m: enough that an endpoint recorded
      for n is now m's. */
  method AnotherNodeAnswers(n: NodeId, m: NodeId, a: Endpoint) returns (manager: Manager, r: Option<Channel>)
    requires n != m
    ensures manager.Valid()
    ensures r.Some? && !r.value.closed && r.value.nodeId == Some(m)
  {
    var c;
    manager, c := EndpointChangedHands(n, m, a);
    r := manager.ChannelForNodeId(n, map[]);
  }

  method RecordIdentity(topology: TopologyCache, id: NodeId, address: Endpoint)
    requires topology.Valid()
    modifies topology`nodeIds, topology`discovered, topology`cached
    ensures topology.Valid() && topology.nodeIds == AddOnce(old(topology.nodeIds), id)
    ensures topology.discovered == WithEndpoint(old(topology.discovered), id, address)
  {
    topology.RecordNode(id);
    topology.RecordNodeEndpoint(id, address);
  }

  lemma StillPooled(pool: Pool, k: Key, c: Channel, d: Channel)
    requires k !in pool && Pooled(pool, d)
    ensures Pooled(pool[k := c], d)
  {
    var j :| j in pool && pool[j] == d;
    assert j in pool[k := c] && pool[k := c][j] == d;
  }

  predicate OfNode(c: Channel, ids: seq<NodeId>) {
    c.nodeId.Some? && c.nodeId.value in ids
  }

  function KeysOfNodes(pool: Pool, ids: seq<NodeId>): set<Key> {
    set k | k in pool && OfNode(pool[k], ids)
  }

  function KeysAt(pool: Pool, addresses: set<Endpoint>): set<Key> {
    set k | k in pool && pool[k].address in addresses
  }

  function Dropped(removed: seq<Endpoint>, active: Endpoint, retained: seq<Endpoint>): set<Endpoint> {
    set a | a in removed && a != active && a !in retained
  }

  /** Channels of removed nodes go, all others stay. */
  lemma StaysWithItsNode(pool: Pool, removed: seq<NodeId>, k: Key)
    requires k in pool
    ensures k in pool - KeysOfNodes(pool, removed) <==> pool[k].nodeId.None? || pool[k].nodeId.value !in removed
  {
  }

  /** A channel goes with its seed address unless the address is the active one or some discovered node's. */
  lemma StaysWithItsAddress(pool: Pool, removed: seq<Endpoint>, active: Endpoint, m: map<NodeId, seq<Endpoint>>, k: Key)
    requires k in pool
    ensures k in pool - KeysAt(pool, Dropped(removed, active, Flatten(m))) <==>
      || pool[k].address !in removed
      || pool[k].address == active
      || exists n :: n in m && pool[k].address in m[n]
  {
    DedupeMeaning(Lists(m, m.Keys));
    ListsMeaning(m, m.Keys);
  }

  /** A channel not dropped stays pooled. */
  lemma KeptPooled(pool: Pool, gone: set<Key>)
    requires Injective(pool)
    ensures Injective(pool - gone)
    ensures forall c: Channel :: Pooled(pool, c) ==> Pooled(pool - gone, c) || PooledUnder(pool, gone, c)
  {
    forall c: Channel | Pooled(pool, c) ensures Pooled(pool - gone, c) || PooledUnder(pool, gone, c) {
      var k :| k in pool && pool[k] == c;
      assert k in gone || k in pool - gone;
    }
  }

  method CloseAll(channels: set<Channel>)
    modifies channels
    ensures forall c :: c in channels ==> c.closed
  {
    var left := channels;
    while left != {}
      invariant left <= channels
      invariant forall c :: c in channels && c !in left ==> c.closed
      modifies channels
    {
      var c :| c in left;
      c.Close();
      left := left - {c};
    }
  }
}
