/** The invariant of the channel protocol and its preservation by every step. */
module ChannelInvariant {
  import opened Wrappers
  import opened ChannelProtocol

  ghost predicate EntryGood(st: State, k: nat, c: int)
    requires k < |st.shards| && c in st.shards[k]
  {
    var s := st.shards[k][c];
    && ShardOf(c) == k
    && s in st.slots && st.slots[s].corr == c && st.slots[s].place == InTable
  }

  /** A slot is filled at most once, and only with a reply to its own request or a connection error. */
  ghost predicate FilledOnce(slot: Slot) {
    && (slot.done <==> slot.place == Filled)
    && (if slot.done then slot.waker == None && |slot.fills| == 1 else slot.result == None && slot.fills == [])
    && (slot.result.Some? ==> slot.fills == [slot.result.value])
    && (slot.done ==> Deliverable(slot, slot.fills[0]))
  }

  predicate Deliverable(slot: Slot, o: Outcome) {
    if o.Reply? then o.frame.corr == slot.corr else o.error.ConnectionLost?
  }

  /** The agent that has the slot's `Arc` besides the table. */
  ghost predicate OwnedBy(st: State, s: SlotId, a: AgentId) {
    a in st.agents && st.agents[a].HasSlot() && st.agents[a].slot == s
  }

  ghost predicate SlotGood(st: State, s: SlotId)
    requires |st.shards| == SHARD_COUNT && s in st.slots
  {
    var slot := st.slots[s];
    && FilledOnce(slot)
    && (slot.place == InTable ==> Lookup(st.shards, slot.corr) == Some(s) && OwnedBy(st, s, slot.owner))
    && (slot.place.HeldBy? ==> slot.place.filler in st.agents && st.agents[slot.place.filler].Holds(s))
    && (slot.place == InTable && ShardOf(slot.corr) < st.emptied ==> slot.late && slot.owner in st.atSwap)
    && (s in st.drained ==>
          || slot.fills == [Failed(ConnectionLost(st.broken))]
          || (st.winner.Some? && slot.place == HeldBy(st.winner.value)))
  }

  /** The waiter has been notified, or the filler that took its waker is about to call it. */
  ghost predicate WakeOwed(st: State, s: SlotId, w: Waker)
    requires s in st.slots
  {
    || w in st.notified
    || (st.slots[s].waking.Some? && st.slots[s].waking.value in st.agents
      && st.agents[st.slots[s].waking.value].Wakes(w))
  }

  ghost predicate WaiterGood(st: State, a: AgentId, pc: Agent)
    requires pc.HasSlot()
  {
    && pc.slot in st.slots
    && st.slots[pc.slot].owner == a
    && st.slots[pc.slot].corr == pc.c
    && (pc.Waiting() ==> st.slots[pc.slot].place != Withdrawn)
    && (pc.Waiting() && st.slots[pc.slot].done ==> st.slots[pc.slot].result.Some?)
    && (pc.ReqPolling? || pc.ReqParked? ==> pc.cx.task == a)
    && (pc.ReqParked? ==>
          if st.slots[pc.slot].done then WakeOwed(st, pc.slot, pc.cx) else st.slots[pc.slot].waker == Some(pc.cx))
    && (pc.ReqFailing? ==> pc.error != CorrMismatch && pc.error != NoResult)
  }

  ghost predicate HolderGood(st: State, a: AgentId, pc: Agent) {
    && (pc.PumpHold? ==>
          pc.held in st.slots && st.slots[pc.held].place == HeldBy(a) && st.slots[pc.held].corr == pc.frame.corr)
    && (pc.BreakDrain? || pc.BreakWake? ==>
          forall s :: s in pc.pending ==> s in st.slots && st.slots[s].place == HeldBy(a))
  }

  ghost predicate AgentGood(st: State, a: AgentId)
    requires a in st.agents
  {
    var pc := st.agents[a];
    && HolderGood(st, a, pc)
    && (pc.HasSlot() ==> WaiterGood(st, a, pc))
    && (pc.ReqDone? && pc.outcome.Reply? ==> pc.outcome.frame.corr == pc.c)
    && (pc.ReqDone? ==> pc.outcome != Failed(CorrMismatch) && pc.outcome != Failed(NoResult))
    && (pc.ReqChecked? && st.closed ==> a in st.atSwap)
    && (pc.BreakDrain? || pc.BreakWake? || (pc.BreakSwapped? && pc.won) ==> st.winner == Some(a))
  }

  ghost predicate DistinctLive(st: State, a: AgentId, b: AgentId)
    requires a in st.agents && b in st.agents
  {
    a != b && st.agents[a].Live() && st.agents[b].Live() ==> st.agents[a].c != st.agents[b].c
  }

  /** How far the winning breaker is. */
  ghost predicate BreakerAt(st: State, pc: Agent) {
    match pc
    case BreakSwapped(d, true) => st.emptied == 0 && d == st.broken
    case BreakDrain(d, i, p) => st.emptied == i <= SHARD_COUNT && d == st.broken && p <= st.drained
    case BreakWake(d, i, p, _) => st.emptied == i <= SHARD_COUNT && d == st.broken && p <= st.drained
    case BreakDone => st.emptied == SHARD_COUNT
    case BreakAborted => st.emptied == 0
    case _ => false
  }

  ghost predicate BreakGood(st: State) {
    if st.closed then st.winner.Some? && st.winner.value in st.agents && BreakerAt(st, st.agents[st.winner.value])
    else st.winner == None && st.emptied == 0 && st.drained == {}
  }

  ghost predicate Inv(st: State) {
    && |st.shards| == SHARD_COUNT
    && (forall k, c {:trigger EntryGood(st, k, c)} :: 0 <= k < SHARD_COUNT && c in st.shards[k] ==> EntryGood(st, k, c))
    && (forall s {:trigger SlotGood(st, s)} :: s in st.slots ==> SlotGood(st, s))
    && (forall a {:trigger AgentGood(st, a)} :: a in st.agents ==> AgentGood(st, a))
    && (forall a, b {:trigger DistinctLive(st, a, b)} :: a in st.agents && b in st.agents ==> DistinctLive(st, a, b))
    && st.drained <= st.slots.Keys
    && BreakGood(st)
  }

  // ------------------------------------------------------------------ preservation

  lemma InitInv()
    ensures Inv(Init())
  {
  }

  /** Steps that move one agent, and perhaps deliver or consume notifications, and leave the table,
      the slots and the break bookkeeping alone. */
  lemma MoveKeepsInv(st: State, a: AgentId, to: Agent, st': State)
    requires Inv(st)
    requires st' == Move(st, a, to).(notified := st'.notified, lastError := st'.lastError)
    requires forall s :: to.Holds(s) <==> a in st.agents && st.agents[a].Holds(s)
    requires a in st.agents && st.agents[a].HasSlot() ==> to.HasSlot() && to.slot == st.agents[a].slot
    requires to.Live() ==> (a in st.agents && st.agents[a].Live() && st.agents[a].c == to.c) || FreshCorr(st, to.c)
    requires st.winner == Some(a) ==> BreakerAt(st, to)
    requires forall w :: w in st.notified && w.task != a ==> w in st'.notified
    requires forall w :: a in st.agents && st.agents[a].Wakes(w) ==> w in st'.notified
    requires AgentGood(st', a)
    ensures Inv(st')
  {
    forall k, c | 0 <= k < SHARD_COUNT && c in st'.shards[k] ensures EntryGood(st', k, c) {
      assert EntryGood(st, k, c);
    }
    forall s | s in st'.slots ensures SlotGood(st', s) {
      assert SlotGood(st, s);
    }
    forall b | b in st'.agents ensures AgentGood(st', b) {
      if b != a { assert AgentGood(st, b); }
    }
    forall x, y | x in st'.agents && y in st'.agents ensures DistinctLive(st', x, y) {
      if x in st.agents && y in st.agents { assert DistinctLive(st, x, y); }
    }
  }

  lemma MoveStepsInv(st: State, step: Step)
    requires Inv(st) && Enabled(st, step)
    requires step.SpawnRequest? || step.SpawnBreak? || step.CheckOpen? || step.Send? || step.TimeOut?
          || step.DropFuture? || step.Reschedule?
    ensures Inv(Apply(st, step))
  {
    var st' := Apply(st, step);
    if step.a in st.agents { assert AgentGood(st, step.a); }
    MoveKeepsInv(st, step.a, st'.agents[step.a], st');
  }

  lemma FillerMoveStepsInv(st: State, step: Step)
    requires Inv(st) && Enabled(st, step)
    requires step.Receive? || step.PumpCallWake? || step.PumpError? || step.RecordError?
          || step.DrainCallWake? || step.Finish? || step.Abort? || step.StopPump?
    ensures Inv(Apply(st, step))
  {
    var st' := Apply(st, step);
    assert AgentGood(st, step.a);
    MoveKeepsInv(st, step.a, st'.agents[step.a], st');
  }

  lemma LiveApart(st: State, a: AgentId, b: AgentId)
    requires Inv(st) && a in st.agents && b in st.agents && st.agents[a].Live() && st.agents[b].HasSlot()
    ensures AgentGood(st, b)
    ensures a == b || st.slots[st.agents[b].slot].corr != st.agents[a].c
  {
    assert AgentGood(st, b);
    assert DistinctLive(st, a, b);
  }

  lemma InsertInv(st: State, a: AgentId, s: SlotId)
    requires Inv(st) && Enabled(st, Insert(a, s))
    ensures Inv(ApplyInsert(st, a, s))
  {
    var st' := ApplyInsert(st, a, s);
    var c := st.agents[a].c;
    assert AgentGood(st, a);
    // no live request shares c, so the insertion overwrites nothing
    if c in st.shards[ShardOf(c)] {
      var t := st.shards[ShardOf(c)][c];
      assert EntryGood(st, ShardOf(c), c);
      assert SlotGood(st, t);
      LiveApart(st, a, st.slots[t].owner);
      assert false;
    }
    forall k, d | 0 <= k < SHARD_COUNT && d in st'.shards[k] ensures EntryGood(st', k, d) {
      if d in st.shards[k] { assert EntryGood(st, k, d); }
    }
    forall t | t in st'.slots ensures SlotGood(st', t) {
      if t in st.slots { assert SlotGood(st, t); }
    }
    forall b | b in st'.agents ensures AgentGood(st', b) {
      assert AgentGood(st, b);
    }
    forall x, y | x in st'.agents && y in st'.agents ensures DistinctLive(st', x, y) {
      assert DistinctLive(st, x, y);
    }
  }

  lemma PollDoneInv(st: State, a: AgentId)
    requires Inv(st) && Enabled(st, Poll(a)) && st.slots[st.agents[a].slot].done
    ensures Inv(ApplyPoll(st, a))
  {
    var st' := ApplyPoll(st, a);
    assert AgentGood(st, a);
    assert SlotGood(st, st.agents[a].slot);
    forall k, c | 0 <= k < SHARD_COUNT && c in st'.shards[k] ensures EntryGood(st', k, c) {
      assert EntryGood(st, k, c);
    }
    forall t | t in st'.slots ensures SlotGood(st', t) {
      assert SlotGood(st, t);
    }
    forall b | b in st'.agents ensures AgentGood(st', b) {
      assert AgentGood(st, b);
    }
    forall x, y | x in st'.agents && y in st'.agents ensures DistinctLive(st', x, y) {
      assert DistinctLive(st, x, y);
    }
  }

  lemma PollPendingInv(st: State, a: AgentId)
    requires Inv(st) && Enabled(st, Poll(a)) && !st.slots[st.agents[a].slot].done
    ensures Inv(ApplyPoll(st, a))
  {
    var st' := ApplyPoll(st, a);
    assert AgentGood(st, a);
    assert SlotGood(st, st.agents[a].slot);
    forall k, c | 0 <= k < SHARD_COUNT && c in st'.shards[k] ensures EntryGood(st', k, c) {
      assert EntryGood(st, k, c);
    }
    forall t | t in st'.slots ensures SlotGood(st', t) {
      assert SlotGood(st, t);
    }
    forall b | b in st'.agents ensures AgentGood(st', b) {
      assert AgentGood(st, b);
    }
    forall x, y | x in st'.agents && y in st'.agents ensures DistinctLive(st', x, y) {
      assert DistinctLive(st, x, y);
    }
  }

  /** The withdrawing request removes its own entry or none: never another request's. */
  lemma WithdrawOwnEntry(st: State, a: AgentId)
    requires Inv(st) && Enabled(st, Withdraw(a))
    ensures var c := st.agents[a].c;
      && (Lookup(st.shards, c) == None || Lookup(st.shards, c) == Some(st.agents[a].slot))
      && (st.slots[st.agents[a].slot].place == InTable <==> Lookup(st.shards, c) == Some(st.agents[a].slot))
  {
    var c := st.agents[a].c;
    assert AgentGood(st, a);
    assert SlotGood(st, st.agents[a].slot);
    if c in st.shards[ShardOf(c)] {
      var t := st.shards[ShardOf(c)][c];
      assert EntryGood(st, ShardOf(c), c);
      assert SlotGood(st, t);
      LiveApart(st, a, st.slots[t].owner);
    }
  }

  lemma WithdrawInv(st: State, a: AgentId)
    requires Inv(st) && Enabled(st, Withdraw(a))
    ensures Inv(ApplyWithdraw(st, a))
  {
    var st' := ApplyWithdraw(st, a);
    var s := st.agents[a].slot;
    assert AgentGood(st, a);
    assert SlotGood(st, s);
    WithdrawOwnEntry(st, a);
    forall k, c | 0 <= k < SHARD_COUNT && c in st'.shards[k] ensures EntryGood(st', k, c) {
      assert EntryGood(st, k, c);
    }
    forall t | t in st'.slots ensures SlotGood(st', t) {
      assert SlotGood(st, t);
    }
    forall b | b in st'.agents ensures AgentGood(st', b) {
      assert AgentGood(st, b);
    }
    forall x, y | x in st'.agents && y in st'.agents ensures DistinctLive(st', x, y) {
      assert DistinctLive(st, x, y);
    }
  }

  /** Slots leave the table into the hands of agent a: `remove` by the pump, `mem::take` by the drain. */
  lemma TakeKeepsInv(st: State, a: AgentId, taken: set<SlotId>, to: Agent, st': State)
    requires Inv(st) && a in st.agents
    requires st' == Move(st, a, to).(shards := st'.shards, slots := MarkHeld(st.slots, taken, a),
                                     emptied := st'.emptied, drained := st'.drained)
    requires |st'.shards| == SHARD_COUNT
    requires forall s :: s in taken ==> s in st.slots && st.slots[s].place == InTable
    requires forall k, c :: 0 <= k < SHARD_COUNT ==>
      (c in st'.shards[k] <==> c in st.shards[k] && st.shards[k][c] !in taken)
    requires forall k, c :: 0 <= k < SHARD_COUNT && c in st'.shards[k] ==> st'.shards[k][c] == st.shards[k][c]
    requires forall s :: !st.agents[a].Holds(s)
    requires forall s :: to.Holds(s) <==> s in taken
    requires forall w :: !st.agents[a].Wakes(w)
    requires !to.Live() && !to.ReqDone? && !st.agents[a].HasSlot()
    requires st'.drained == st.drained || (st'.drained == st.drained + taken && st.winner == Some(a))
    requires forall s ::
      s in st.slots && s !in taken && st.slots[s].place == InTable && ShardOf(st.slots[s].corr) < st'.emptied ==>
      ShardOf(st.slots[s].corr) < st.emptied
    requires BreakGood(st')
    requires AgentGood(st', a)
    ensures Inv(st')
  {
    assert st'.slots.Keys == st.slots.Keys;
    forall s | s in taken ensures s in st.slots.Keys {
    }
    forall k, c | 0 <= k < SHARD_COUNT && c in st'.shards[k] ensures EntryGood(st', k, c) {
      assert EntryGood(st, k, c);
    }
    forall s | s in st'.slots ensures SlotGood(st', s) {
      assert SlotGood(st, s);
    }
    forall b | b in st'.agents ensures AgentGood(st', b) {
      assert AgentGood(st, b);
    }
    forall x, y | x in st'.agents && y in st'.agents ensures DistinctLive(st', x, y) {
      assert DistinctLive(st, x, y);
    }
  }

  lemma TakeSlotInv(st: State, a: AgentId)
    requires Inv(st) && Enabled(st, TakeSlot(a))
    ensures Inv(ApplyTakeSlot(st, a))
  {
    var st' := ApplyTakeSlot(st, a);
    var f := st.agents[a].frame;
    assert AgentGood(st, a);
    match Lookup(st.shards, f.corr)
    case None => MoveKeepsInv(st, a, PumpIdle, st');
    case Some(s) =>
      assert EntryGood(st, ShardOf(f.corr), f.corr);
      forall k, c | 0 <= k < SHARD_COUNT && c in st.shards[k]
        ensures st.shards[k][c] == s <==> c == f.corr && k == ShardOf(f.corr)
      {
        assert EntryGood(st, k, c);
      }
      TakeKeepsInv(st, a, {s}, PumpHold(s, f), st');
  }

  lemma TakeShardInv(st: State, a: AgentId)
    requires Inv(st) && Enabled(st, TakeShard(a))
    ensures Inv(ApplyTakeShard(st, a))
  {
    var st' := ApplyTakeShard(st, a);
    var i := st.agents[a].next;
    var shard := st.shards[i];
    var taken := SlotsOf(shard);
    assert AgentGood(st, a);
    forall s | s in taken ensures s in st.slots && st.slots[s].place == InTable && ShardOf(st.slots[s].corr) == i {
      var c :| c in shard && shard[c] == s;
      assert EntryGood(st, i, c);
    }
    forall k, c | 0 <= k < SHARD_COUNT && c in st.shards[k] ensures st.shards[k][c] in taken <==> k == i {
      assert EntryGood(st, k, c);
    }
    forall s | s in st.slots && st.slots[s].place == InTable && ShardOf(st.slots[s].corr) == i ensures s in taken {
      assert SlotGood(st, s);
    }
    TakeKeepsInv(st, a, taken, st'.agents[a], st');
  }

  /** A filler that holds slot s stores outcome o in it and takes its waker. */
  lemma FillKeepsInv(st: State, a: AgentId, s: SlotId, o: Outcome, to: Agent, st': State)
    requires Inv(st) && a in st.agents && s in st.slots && st.agents[a].Holds(s)
    requires st' == WithSlot(Move(st, a, to), s, FillSlot(st.slots[s], o, a))
    requires forall t :: to.Holds(t) <==> st.agents[a].Holds(t) && t != s
    requires forall w :: !st.agents[a].Wakes(w)
    requires forall w :: TakenWaker(st.slots[s]) == Some(w) ==> to.Wakes(w)
    requires !to.Live() && !to.ReqDone? && !to.PumpHold?
    requires Deliverable(st.slots[s], o)
    requires s in st.drained ==> o == Failed(ConnectionLost(st.broken))
    requires st.winner == Some(a) ==> BreakerAt(st, to)
    requires to.BreakDrain? || to.BreakWake? || (to.BreakSwapped? && to.won) ==> st.winner == Some(a)
    ensures Inv(st')
  {
    assert AgentGood(st, a);
    assert SlotGood(st, s);
    forall k, c | 0 <= k < SHARD_COUNT && c in st'.shards[k] ensures EntryGood(st', k, c) {
      assert EntryGood(st, k, c);
    }
    forall t | t in st'.slots ensures SlotGood(st', t) {
      assert SlotGood(st, t);
    }
    forall b | b in st'.agents ensures AgentGood(st', b) {
      assert AgentGood(st, b);
      if b == a && (to.BreakDrain? || to.BreakWake?) {
        forall t | t in to.pending ensures t in st'.slots && st'.slots[t].place == HeldBy(a) {
          assert to.Holds(t);
        }
      }
    }
    forall x, y | x in st'.agents && y in st'.agents ensures DistinctLive(st', x, y) {
      assert DistinctLive(st, x, y);
    }
  }

  lemma PumpFillInv(st: State, a: AgentId)
    requires Inv(st) && Enabled(st, PumpFill(a))
    ensures Inv(ApplyPumpFill(st, a))
  {
    var st' := ApplyPumpFill(st, a);
    var pc := st.agents[a];
    assert AgentGood(st, a);
    assert SlotGood(st, pc.held);
    FillKeepsInv(st, a, pc.held, Reply(pc.frame), st'.agents[a], st');
  }

  lemma DrainFillInv(st: State, a: AgentId, s: SlotId)
    requires Inv(st) && Enabled(st, DrainFill(a, s))
    ensures Inv(ApplyDrainFill(st, a, s))
  {
    var st' := ApplyDrainFill(st, a, s);
    assert AgentGood(st, a);
    assert SlotGood(st, s);
    FillKeepsInv(st, a, s, Failed(ConnectionLost(st.agents[a].detail)), st'.agents[a], st');
  }

  lemma SwapInv(st: State, a: AgentId)
    requires Inv(st) && Enabled(st, Swap(a))
    ensures Inv(ApplySwap(st, a))
  {
    var st' := ApplySwap(st, a);
    assert AgentGood(st, a);
    if st.closed {
      MoveKeepsInv(st, a, BreakSwapped(st.agents[a].detail, false), st');
    } else {
      forall k, c | 0 <= k < SHARD_COUNT && c in st'.shards[k] ensures EntryGood(st', k, c) {
        assert EntryGood(st, k, c);
      }
      forall s | s in st'.slots ensures SlotGood(st', s) {
        assert SlotGood(st, s);
      }
      forall b | b in st'.agents ensures AgentGood(st', b) {
        assert AgentGood(st, b);
      }
      forall x, y | x in st'.agents && y in st'.agents ensures DistinctLive(st', x, y) {
        assert DistinctLive(st, x, y);
      }
    }
  }

  lemma RequestStepInv(st: State, step: Step)
    requires Inv(st) && Enabled(st, step)
    requires step.Insert? || step.Poll? || step.Withdraw?
    ensures Inv(Apply(st, step))
  {
    match step
    case Insert(a, s) => InsertInv(st, a, s);
    case Poll(a) => if st.slots[st.agents[a].slot].done { PollDoneInv(st, a); } else { PollPendingInv(st, a); }
    case Withdraw(a) => WithdrawInv(st, a);
  }

  lemma FillerStepInv(st: State, step: Step)
    requires Inv(st) && Enabled(st, step)
    requires step.TakeSlot? || step.PumpFill? || step.Swap? || step.TakeShard? || step.DrainFill?
    ensures Inv(Apply(st, step))
  {
    match step
    case TakeSlot(a) => TakeSlotInv(st, a);
    case PumpFill(a) => PumpFillInv(st, a);
    case Swap(a) => SwapInv(st, a);
    case TakeShard(a) => TakeShardInv(st, a);
    case DrainFill(a, s) => DrainFillInv(st, a, s);
  }

  lemma StepInv(st: State, step: Step)
    requires Inv(st) && Enabled(st, step)
    ensures Inv(Apply(st, step))
  {
    if step.Insert? || step.Poll? || step.Withdraw? {
      RequestStepInv(st, step);
    } else if step.TakeSlot? || step.PumpFill? || step.Swap? || step.TakeShard? || step.DrainFill? {
      FillerStepInv(st, step);
    } else if step.Receive? || step.PumpCallWake? || step.PumpError? || step.RecordError?
              || step.DrainCallWake? || step.Finish? || step.Abort? || step.StopPump? {
      FillerMoveStepsInv(st, step);
    } else {
      MoveStepsInv(st, step);
    }
  }

  lemma {:induction false} RunInv(run: seq<Step>)
    requires After(run).Some?
    ensures Inv(After(run).value)
  {
    if run == [] {
      InitInv();
    } else {
      RunInv(run[..|run| - 1]);
      StepInv(After(run[..|run| - 1]).value, run[|run| - 1]);
    }
  }
}
