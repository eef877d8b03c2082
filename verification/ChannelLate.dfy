/** Which slots a break completes: a slot that registered late is never given the connection error. */
module ChannelLate {
  import opened Wrappers
  import opened ChannelProtocol
  import opened ChannelInvariant

  /** A late slot is out of the drain's reach, and only the drain stores errors. */
  ghost predicate LateGood(st: State, s: SlotId)
    requires s in st.slots
  {
    && (st.slots[s].late ==> ShardOf(st.slots[s].corr) < st.emptied && s !in st.drained)
    && (st.slots[s].fills != [] && s !in st.drained ==> st.slots[s].fills[0].Reply?)
  }

  ghost predicate LateInv(st: State) {
    && (forall s {:trigger LateGood(st, s)} :: s in st.slots ==> LateGood(st, s))
    && (st.emptied == 0 ==> st.drained == {})
  }

  lemma InsertLate(st: State, a: AgentId, s: SlotId)
    requires Inv(st) && LateInv(st) && Enabled(st, Insert(a, s))
    ensures LateInv(ApplyInsert(st, a, s))
  {
    var st' := ApplyInsert(st, a, s);
    assert s !in st.drained by { assert s !in st.slots.Keys; }
    forall t | t in st'.slots ensures LateGood(st', t) {
      if t != s { assert LateGood(st, t); }
    }
  }

  lemma FillLate(st: State, step: Step)
    requires Inv(st) && LateInv(st) && Enabled(st, step) && (step.PumpFill? || step.DrainFill?)
    ensures LateInv(Apply(st, step))
  {
    var st' := Apply(st, step);
    var s := if step.PumpFill? then st.agents[step.a].held else step.s;
    assert AgentGood(st, step.a);
    assert SlotGood(st, s);
    forall t | t in st'.slots ensures LateGood(st', t) {
      assert LateGood(st, t);
    }
  }

  /** The shard taken next is the first one not yet emptied, so no late slot is in it. */
  lemma TakeShardLate(st: State, a: AgentId)
    requires Inv(st) && LateInv(st) && Enabled(st, TakeShard(a))
    ensures LateInv(ApplyTakeShard(st, a))
  {
    var st' := ApplyTakeShard(st, a);
    var i := st.agents[a].next;
    assert AgentGood(st, a);
    assert st.emptied == i;
    forall s | s in st'.slots ensures LateGood(st', s) {
      assert LateGood(st, s);
      assert SlotGood(st, s);
      if s in SlotsOf(st.shards[i]) {
        var c :| c in st.shards[i] && st.shards[i][c] == s;
        assert EntryGood(st, i, c);
      }
    }
  }

  lemma OtherLate(st: State, step: Step)
    requires Inv(st) && LateInv(st) && Enabled(st, step)
    requires !step.Insert? && !step.PumpFill? && !step.DrainFill? && !step.TakeShard?
    ensures LateInv(Apply(st, step))
  {
    var st' := Apply(st, step);
    forall s | s in st'.slots ensures LateGood(st', s) {
      assert LateGood(st, s);
    }
  }

  lemma StepLate(st: State, step: Step)
    requires Inv(st) && LateInv(st) && Enabled(st, step)
    ensures LateInv(Apply(st, step))
  {
    match step
    case Insert(a, s) => InsertLate(st, a, s);
    case PumpFill(_) => FillLate(st, step);
    case DrainFill(_, _) => FillLate(st, step);
    case TakeShard(a) => TakeShardLate(st, a);
    case _ => OtherLate(st, step);
  }

  lemma {:induction false} RunLate(run: seq<Step>)
    requires After(run).Some?
    ensures LateInv(After(run).value)
  {
    if run != [] {
      RunLate(run[..|run| - 1]);
      RunInv(run[..|run| - 1]);
      StepLate(After(run[..|run| - 1]).value, run[|run| - 1]);
    }
  }

  /** A reply reached the slot. */
  predicate Answered(slot: Slot) {
    exists i :: 0 <= i < |slot.fills| && slot.fills[i].Reply?
  }

  /** The drain's bookkeeping decides: outside `drained` a slot is done exactly when it was answered. */
  lemma DoneOutsideDrain(st: State, s: SlotId)
    requires Inv(st) && LateInv(st) && s in st.slots && s !in st.drained
    ensures |st.slots[s].fills| <= 1 && (st.slots[s].done <==> Answered(st.slots[s]))
    ensures forall i :: 0 <= i < |st.slots[s].fills| ==> st.slots[s].fills[i].Reply?
  {
    assert SlotGood(st, s);
    assert LateGood(st, s);
  }

  /** In every run, a slot that registered behind the drain is completed by a reply or not at all. */
  lemma LateOnlyByReply(run: seq<Step>, s: SlotId)
    requires After(run).Some? && s in After(run).value.slots && After(run).value.slots[s].late
    ensures var slot := After(run).value.slots[s];
      |slot.fills| <= 1 && (slot.done <==> Answered(slot)) && forall i :: 0 <= i < |slot.fills| ==> slot.fills[i].Reply?
  {
    RunInv(run);
    RunLate(run);
    assert LateGood(After(run).value, s);
    DoneOutsideDrain(After(run).value, s);
  }
}
