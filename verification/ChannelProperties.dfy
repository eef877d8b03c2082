/** What the channel protocol guarantees in every run. */
module ChannelProperties {
  import opened Wrappers
  import opened ChannelProtocol
  import opened ChannelInvariant
  import opened ChannelLate

  /** Each slot is filled at most once, and a slot still in the table is never already done. */
  lemma FilledAtMostOnce(run: seq<Step>)
    requires After(run).Some?
    ensures var st := After(run).value;
      && (forall s :: s in st.slots ==> |st.slots[s].fills| <= 1 && (st.slots[s].done <==> |st.slots[s].fills| == 1))
      && |st.shards| == SHARD_COUNT
      && (forall k, c :: 0 <= k < SHARD_COUNT && c in st.shards[k] ==>
            st.shards[k][c] in st.slots && !st.slots[st.shards[k][c]].done && st.slots[st.shards[k][c]].corr == c)
  {
    RunInv(run);
    var st := After(run).value;
    forall s | s in st.slots ensures |st.slots[s].fills| <= 1 && (st.slots[s].done <==> |st.slots[s].fills| == 1) {
      assert SlotGood(st, s);
    }
    forall k, c | 0 <= k < SHARD_COUNT && c in st.shards[k]
      ensures st.shards[k][c] in st.slots && !st.slots[st.shards[k][c]].done && st.slots[st.shards[k][c]].corr == c
    {
      assert EntryGood(st, k, c);
      assert SlotGood(st, st.shards[k][c]);
    }
  }

  /** A filler never finds its slot already done, so `fill` never drops a result: the slot then holds the frame the
      pump had read, or the error the breaker had entered with. */
  lemma FillNeverDropsAResult(run: seq<Step>, step: Step)
    requires After(run).Some? && Enabled(After(run).value, step) && (step.PumpFill? || step.DrainFill?)
    ensures var st := After(run).value;
      var s := if step.PumpFill? then st.agents[step.a].held else step.s;
      && !st.slots[s].done
      && Apply(st, step).slots[s].result ==
           Some(if step.PumpFill? then Reply(st.agents[step.a].frame)
                else Failed(ConnectionLost(st.agents[step.a].detail)))
  {
    RunInv(run);
    var st := After(run).value;
    assert AgentGood(st, step.a);
    assert SlotGood(st, if step.PumpFill? then st.agents[step.a].held else step.s);
  }

  /** A request that returns a reply returns the one addressed to it; the mismatch error and the
      "finished without a result" fallback are never returned. */
  lemma ReplyMatchesRequest(run: seq<Step>, a: AgentId)
    requires After(run).Some? && a in After(run).value.agents && After(run).value.agents[a].ReqDone?
    ensures var pc := After(run).value.agents[a];
      && (pc.outcome.Reply? ==> pc.outcome.frame.corr == pc.c)
      && pc.outcome != Failed(CorrMismatch)
      && pc.outcome != Failed(NoResult)
  {
    RunInv(run);
    assert AgentGood(After(run).value, a);
  }

  /** The first poll after completion takes exactly the outcome that was stored, and never falls
      back: it ends in that reply or in that connection error. */
  lemma PollTakesTheStoredOutcome(run: seq<Step>, a: AgentId)
    requires After(run).Some? && Enabled(After(run).value, Poll(a))
    requires var st := After(run).value; st.slots[st.agents[a].slot].done
    ensures var st := After(run).value;
      var slot := st.slots[st.agents[a].slot];
      && |slot.fills| == 1
      && slot.result == Some(slot.fills[0])
      && Apply(st, Poll(a)).agents[a] ==
           match slot.fills[0]
           case Reply(f) => ReqDone(slot.corr, Reply(f))
           case Failed(e) => ReqFailing(slot.corr, st.agents[a].slot, e)
  {
    RunInv(run);
    var st := After(run).value;
    assert AgentGood(st, a);
    assert SlotGood(st, st.agents[a].slot);
  }

  lemma ParkedIsOwedAWake(st: State, a: AgentId)
    requires Inv(st) && a in st.agents && st.agents[a].ReqParked?
    ensures var pc := st.agents[a];
      && pc.slot in st.slots
      && (if st.slots[pc.slot].done
          then pc.cx in st.notified || exists f :: f in st.agents && st.agents[f].Wakes(pc.cx)
          else st.slots[pc.slot].waker == Some(pc.cx))
  {
    assert AgentGood(st, a);
    var slot, w := st.slots[st.agents[a].slot], st.agents[a].cx;
    if slot.done && w !in st.notified {
      assert WakeOwed(st, st.agents[a].slot, w);
      var f := slot.waking.value;
      assert f in st.agents && st.agents[f].Wakes(w);
    }
  }

  /** No lost wake-up: a parked waiter whose slot is done has been notified since it parked, or some
      filler is about to call its current waker; while the slot is not done it holds that waker. */
  lemma NoLostWakeup(run: seq<Step>, a: AgentId)
    requires After(run).Some? && a in After(run).value.agents && After(run).value.agents[a].ReqParked?
    ensures var st := After(run).value;
      var pc := st.agents[a];
      && pc.slot in st.slots
      && (if st.slots[pc.slot].done
          then pc.cx in st.notified || exists f :: f in st.agents && st.agents[f].Wakes(pc.cx)
          else st.slots[pc.slot].waker == Some(pc.cx))
  {
    RunInv(run);
    ParkedIsOwedAWake(After(run).value, a);
  }

  /** When the winning `mark_broken` has finished, every slot it found in a shard has received
      exactly one outcome, its connection error; whatever is still in the table was inserted after its
      shard was emptied, by a request that was between its `closed` check and its insert at the swap. */
  lemma AfterBreakCompletes(run: seq<Step>)
    requires After(run).Some?
    requires var st := After(run).value;
      st.winner.Some? && st.winner.value in st.agents && st.agents[st.winner.value].BreakDone?
    ensures var st := After(run).value;
      && st.closed && st.emptied == SHARD_COUNT == |st.shards|
      && (forall s :: s in st.drained ==> s in st.slots && st.slots[s].fills == [Failed(ConnectionLost(st.broken))])
      && (forall k, c :: 0 <= k < SHARD_COUNT && c in st.shards[k] ==>
            && st.shards[k][c] in st.slots
            && st.slots[st.shards[k][c]].late
            && st.slots[st.shards[k][c]].owner in st.atSwap)
  {
    RunInv(run);
    var st := After(run).value;
    forall s | s in st.drained ensures s in st.slots && st.slots[s].fills == [Failed(ConnectionLost(st.broken))] {
      assert s in st.slots.Keys;
      assert SlotGood(st, s);
    }
    forall k, c | 0 <= k < SHARD_COUNT && c in st.shards[k]
      ensures st.shards[k][c] in st.slots && st.slots[st.shards[k][c]].late
        && st.slots[st.shards[k][c]].owner in st.atSwap
    {
      assert EntryGood(st, k, c);
      assert SlotGood(st, st.shards[k][c]);
    }
  }

  /** No filler is between taking a slot and waking its waiter, and no breaker is between its swap and
      its drain. */
  ghost predicate Quiescent(st: State) {
    forall b :: b in st.agents ==> st.agents[b].Resting()
  }

  lemma ParkedInQuiescentState(st: State, a: AgentId)
    requires Inv(st) && Quiescent(st) && a in st.agents && st.agents[a].ReqParked?
    ensures var pc := st.agents[a];
      && pc.slot in st.slots
      && (st.slots[pc.slot].done <==> Lookup(st.shards, pc.c) != Some(pc.slot))
      && (st.slots[pc.slot].done ==> pc.cx in st.notified)
      && (!st.slots[pc.slot].done ==> st.slots[pc.slot].place == InTable && st.slots[pc.slot].owner == a)
  {
    var pc := st.agents[a];
    assert AgentGood(st, a);
    assert SlotGood(st, pc.slot);
    ParkedIsOwedAWake(st, a);
    if Lookup(st.shards, pc.c) == Some(pc.slot) {
      assert EntryGood(st, ShardOf(pc.c), pc.c);
    }
  }

  /** A slot still in the table of a closed channel at rest. */
  lemma LeftBehind(st: State, s: SlotId)
    requires Inv(st) && Quiescent(st) && st.closed && s in st.slots && st.slots[s].place == InTable
    ensures st.winner.Some? && st.winner.value in st.agents
    ensures st.agents[st.winner.value].BreakAborted? || (st.slots[s].late && st.slots[s].owner in st.atSwap)
  {
    assert SlotGood(st, s);
    var w := st.winner.value;
    assert w in st.agents && BreakerAt(st, st.agents[w]);
    assert st.agents[w].Resting();
  }

  /** The exact extent, in one state: who is left behind. */
  lemma LeftBehindExactly(st: State, s: SlotId)
    requires Inv(st) && LateInv(st) && Quiescent(st) && st.closed && s in st.slots
    requires st.slots[s].done || st.slots[s].place == InTable
    ensures st.winner.Some? && st.winner.value in st.agents
    ensures !st.slots[s].done <==>
      !Answered(st.slots[s]) && (st.agents[st.winner.value].BreakAborted? || st.slots[s].late)
  {
    assert SlotGood(st, s);
    assert LateGood(st, s);
    if !st.slots[s].done {
      LeftBehind(st, s);
    } else if s !in st.drained {
      DoneOutsideDrain(st, s);
    }
  }

  /** Nothing is lost: with every filler at rest, a parked request is completed and notified exactly
      when its slot has left the table.  On a closed channel it is left behind if and only if no reply
      reached it and either the winning breaker was aborted before draining or the request registered
      late; a late one was between its `closed` check and its insert at the swap. */
  lemma ParkedWhenQuiescent(run: seq<Step>, a: AgentId)
    requires After(run).Some? && Quiescent(After(run).value)
    requires a in After(run).value.agents && After(run).value.agents[a].ReqParked?
    ensures var st := After(run).value;
      var pc := st.agents[a];
      && pc.slot in st.slots && |st.shards| == SHARD_COUNT
      && (st.slots[pc.slot].done <==> Lookup(st.shards, pc.c) != Some(pc.slot))
      && (st.slots[pc.slot].done ==> pc.cx in st.notified)
      && (st.closed ==>
            && st.winner.Some? && st.winner.value in st.agents
            && (!st.slots[pc.slot].done <==>
                  !Answered(st.slots[pc.slot]) && (st.agents[st.winner.value].BreakAborted? || st.slots[pc.slot].late)))
      && (st.closed && !st.slots[pc.slot].done && st.slots[pc.slot].late ==> a in st.atSwap)
  {
    RunInv(run);
    RunLate(run);
    var st := After(run).value;
    ParkedInQuiescentState(st, a);
    var s := st.agents[a].slot;
    assert LateGood(st, s);
    assert SlotGood(st, s);
    if st.closed { LeftBehindExactly(st, s); }
  }
}
