/** The sixteen shards together behave as one map. */
module ChannelShards {
  import opened Wrappers
  import opened ChannelProtocol
  import opened ChannelInvariant

  /** Negative correlation ids too: the shard is the remainder modulo sixteen. */
  lemma ShardIsRemainder(c: int)
    requires -0x8000_0000_0000_0000 <= c < 0x8000_0000_0000_0000
    ensures ShardOf(c) == c % 16
  {
  }

  ghost function Flat(shards: Shards): map<int, SlotId>
    requires |shards| == SHARD_COUNT
  {
    map k, c | 0 <= k < SHARD_COUNT && c in shards[k] && ShardOf(c) == k :: c := shards[k][c]
  }

  /** What a step does to a single unsharded in-flight map. */
  ghost function FlatEffect(st: State, step: Step, flat: map<int, SlotId>): map<int, SlotId>
    requires Enabled(st, step)
  {
    match step
    case Insert(a, s) => flat[st.agents[a].c := s]
    case Withdraw(a) => flat - {st.agents[a].c}
    case TakeSlot(a) => flat - {st.agents[a].frame.corr}
    case TakeShard(a) => WithoutShard(flat, st.agents[a].next)
    case _ => flat
  }

  lemma FlatLookup(shards: Shards, c: int)
    requires WellSharded(shards)
    ensures Lookup(shards, c) == if c in Flat(shards) then Some(Flat(shards)[c]) else None
  {
  }

  lemma FlatInsert(shards: Shards, c: int, s: SlotId)
    requires WellSharded(shards)
    ensures WellSharded(TableInsert(shards, c, s))
    ensures Flat(TableInsert(shards, c, s)) == Flat(shards)[c := s]
  {
    var shards' := TableInsert(shards, c, s);
    assert c in shards'[ShardOf(c)];
    forall d ensures d in Flat(shards') <==> d in Flat(shards)[c := s] {
      FlatLookup(shards, d);
      FlatLookup(shards', d);
    }
  }

  lemma FlatRemove(shards: Shards, c: int)
    requires WellSharded(shards)
    ensures WellSharded(TableRemove(shards, c))
    ensures Flat(TableRemove(shards, c)) == Flat(shards) - {c}
  {
    var shards' := TableRemove(shards, c);
    forall d ensures d in Flat(shards') <==> d in Flat(shards) - {c} {
      FlatLookup(shards, d);
      FlatLookup(shards', d);
    }
  }

  ghost function WithoutShard(flat: map<int, SlotId>, i: nat): map<int, SlotId> {
    map c | c in flat && ShardOf(c) != i :: flat[c]
  }

  lemma FlatTake(shards: Shards, i: nat)
    requires WellSharded(shards) && i < SHARD_COUNT
    ensures WellSharded(shards[i := map[]])
    ensures Flat(shards[i := map[]]) == WithoutShard(Flat(shards), i)
  {
    var shards' := shards[i := map[]];
    forall d ensures d in Flat(shards') <==> d in WithoutShard(Flat(shards), i) {
      FlatLookup(shards, d);
      FlatLookup(shards', d);
    }
  }

  lemma FlatStep(st: State, step: Step)
    requires WellSharded(st.shards) && Enabled(st, step)
    ensures Flat(Apply(st, step).shards) == FlatEffect(st, step, Flat(st.shards))
  {
    match step
    case Insert(a, s) => FlatInsert(st.shards, st.agents[a].c, s);
    case Withdraw(a) => FlatRemove(st.shards, st.agents[a].c);
    case TakeSlot(a) => TakeSlotFlat(st, a);
    case TakeShard(a) => FlatTake(st.shards, st.agents[a].next);
    case _ => OtherStepsKeepShards(st, step);
  }

  lemma TakeSlotFlat(st: State, a: AgentId)
    requires WellSharded(st.shards) && Enabled(st, TakeSlot(a))
    ensures Flat(ApplyTakeSlot(st, a).shards) == Flat(st.shards) - {st.agents[a].frame.corr}
  {
    FlatRemove(st.shards, st.agents[a].frame.corr);
    FlatLookup(st.shards, st.agents[a].frame.corr);
  }

  lemma OtherStepsKeepShards(st: State, step: Step)
    requires Enabled(st, step) && !step.Insert? && !step.Withdraw? && !step.TakeSlot? && !step.TakeShard?
    ensures Apply(st, step).shards == st.shards
  {
  }

  /** Along every run, each step changes the sharded table as it would change one flat map, and
      looking a request up in its shard is looking it up in that map. */
  lemma ShardsRefineFlatMap(run: seq<Step>, step: Step)
    requires After(run).Some? && Enabled(After(run).value, step)
    ensures var st := After(run).value;
      && WellSharded(st.shards)
      && Flat(Apply(st, step).shards) == FlatEffect(st, step, Flat(st.shards))
      && forall c :: Lookup(st.shards, c) == if c in Flat(st.shards) then Some(Flat(st.shards)[c]) else None
  {
    RunInv(run);
    var st := After(run).value;
    ShardedWell(st);
    forall c ensures Lookup(st.shards, c) == if c in Flat(st.shards) then Some(Flat(st.shards)[c]) else None {
      FlatLookup(st.shards, c);
    }
    FlatStep(st, step);
  }

  lemma ShardedWell(st: State)
    requires Inv(st)
    ensures WellSharded(st.shards)
  {
    forall k, c | 0 <= k < SHARD_COUNT && c in st.shards[k] ensures ShardOf(c) == k {
      assert EntryGood(st, k, c);
    }
  }
}
