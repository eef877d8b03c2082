/** A reply that arrives is delivered: from any state with the request parked and the pump idle, six steps suffice. */
module ChannelProgress {
  import opened Wrappers
  import opened ChannelProtocol
  import opened ChannelInvariant

  /** Request a waits for slot s, which is in the table under its id; agent b is the idle pump. */
  ghost predicate Waits(st: State, a: AgentId, b: AgentId, c: int, s: SlotId) {
    && |st.shards| == SHARD_COUNT && Lookup(st.shards, c) == Some(s)
    && a in st.agents && st.agents[a].ReqParked? && st.agents[a].c == c && st.agents[a].slot == s
    && b in st.agents && st.agents[b].PumpIdle?
  }

  /** The pump reads the frame and takes the slot out of the table. */
  lemma Takes(st: State, a: AgentId, b: AgentId, f: Frame, s: SlotId)
    requires Inv(st) && Waits(st, a, b, f.corr, s)
    ensures Enabled(st, Receive(b, f)) && Enabled(Apply(st, Receive(b, f)), TakeSlot(b))
    ensures var st' := Apply(Apply(st, Receive(b, f)), TakeSlot(b));
      && st'.agents == st.agents[b := PumpHold(s, f)] && s in st.slots && s in st'.slots
      && st'.slots[s] == st.slots[s].(place := HeldBy(b))
  {
    assert EntryGood(st, ShardOf(f.corr), f.corr);
    var st1 := Apply(st, Receive(b, f));
    assert Lookup(st1.shards, f.corr) == Some(s);
    assert st1.agents[b := PumpHold(s, f)] == st.agents[b := PumpHold(s, f)];
  }

  /** It stores the frame and wakes the request. */
  lemma Fills(st: State, a: AgentId, b: AgentId, f: Frame, s: SlotId)
    requires b in st.agents && st.agents[b] == PumpHold(s, f) && s in st.slots && !st.slots[s].done && a != b
    requires a in st.agents && st.agents[a].ReqParked? && st.slots[s].waker == Some(st.agents[a].cx)
    ensures Enabled(st, PumpFill(b)) && Enabled(Apply(st, PumpFill(b)), PumpCallWake(b))
    ensures var st' := Apply(Apply(st, PumpFill(b)), PumpCallWake(b));
      && a in st'.agents && st'.agents[a] == st.agents[a] && st.agents[a].cx in st'.notified
      && s in st'.slots && st'.slots[s].done && st'.slots[s].result == Some(Reply(f))
  {
  }

  /** Run again, the request returns the frame. */
  lemma Returns(st: State, a: AgentId, f: Frame, s: SlotId, tag: nat)
    requires a in st.agents && st.agents[a].ReqParked? && st.agents[a].c == f.corr && st.agents[a].slot == s
    requires s in st.slots && st.slots[s].done && st.slots[s].result == Some(Reply(f))
    ensures Enabled(st, Reschedule(a, tag)) && Enabled(Apply(st, Reschedule(a, tag)), Poll(a))
    ensures a in Apply(Apply(st, Reschedule(a, tag)), Poll(a)).agents
    ensures Apply(Apply(st, Reschedule(a, tag)), Poll(a)).agents[a] == ReqDone(f.corr, Reply(f))
  {
  }

  lemma TwoSteps(run: seq<Step>, x: Step, y: Step)
    requires After(run).Some? && Enabled(After(run).value, x) && Enabled(Apply(After(run).value, x), y)
    ensures After(run + [x, y]) == Some(Apply(Apply(After(run).value, x), y))
  {
    Extend(run, x);
    Extend(run + [x], y);
    assert run + [x] + [y] == run + [x, y];
  }

  lemma WaiterState(st: State, a: AgentId, b: AgentId, c: int, s: SlotId)
    requires Inv(st) && Waits(st, a, b, c, s)
    ensures s in st.slots && !st.slots[s].done && st.slots[s].waker == Some(st.agents[a].cx)
  {
    assert EntryGood(st, ShardOf(c), c);
    assert SlotGood(st, s);
    assert AgentGood(st, a);
  }

  /** In every reachable state: when a frame with the request's id arrives, the request gets exactly that frame. */
  lemma ReplyIsDelivered(run: seq<Step>, a: AgentId, b: AgentId, f: Frame, s: SlotId, tag: nat)
    requires After(run).Some? && Waits(After(run).value, a, b, f.corr, s)
    ensures var end := After(
        run + [Receive(b, f), TakeSlot(b)] + [PumpFill(b), PumpCallWake(b)] + [Reschedule(a, tag), Poll(a)]);
      end.Some? && a in end.value.agents && end.value.agents[a] == ReqDone(f.corr, Reply(f))
  {
    RunInv(run);
    var st := After(run).value;
    WaiterState(st, a, b, f.corr, s);
    Takes(st, a, b, f, s);
    TwoSteps(run, Receive(b, f), TakeSlot(b));
    var run2 := run + [Receive(b, f), TakeSlot(b)];
    Fills(After(run2).value, a, b, f, s);
    TwoSteps(run2, PumpFill(b), PumpCallWake(b));
    var run4 := run2 + [PumpFill(b), PumpCallWake(b)];
    Returns(After(run4).value, a, f, s, tag);
    TwoSteps(run4, Reschedule(a, tag), Poll(a));
  }
}
