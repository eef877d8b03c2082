/** Two runs that leave a waiter behind for ever. */
module ChannelStranding {
  import opened Wrappers
  import opened ChannelProtocol
  import opened ChannelSpent

  /** The run of a drain that finds every shard empty. */
  lemma DrainEmptyTable(run: seq<Step>, a: AgentId, d: string) returns (run': seq<Step>)
    requires After(run).Some?
    requires var st := After(run).value;
      && a in st.agents && st.agents[a].BreakDrain? && st.agents[a].detail == d && st.agents[a].pending == {}
      && st.agents[a].next == st.emptied <= SHARD_COUNT == |st.shards|
      && forall k :: 0 <= k < SHARD_COUNT ==> st.shards[k] == map[]
    ensures After(run').Some?
    ensures var st, st' := After(run).value, After(run').value;
      && st'.agents == st.agents[a := BreakDrain(d, SHARD_COUNT, {})]
      && st'.shards == st.shards && st'.slots == st.slots && st'.closed == st.closed && st'.emptied == SHARD_COUNT
    decreases SHARD_COUNT - After(run).value.agents[a].next
  {
    var st := After(run).value;
    if st.agents[a].next == SHARD_COUNT {
      run' := run;
    } else {
      var next := run + [TakeShard(a)];
      Extend(run, TakeShard(a));
      var st1 := After(next).value;
      assert SlotsOf(map[]) == {};
      assert st1.shards == st.shards;
      assert st1.slots == st.slots;
      run' := DrainEmptyTable(next, a, d);
      assert st1.agents[a := BreakDrain(d, SHARD_COUNT, {})] == st.agents[a := BreakDrain(d, SHARD_COUNT, {})];
    }
  }

  /** Request 1 with correlation id 5 up to its `closed` check. */
  lemma RunChecked() returns (run: seq<Step>)
    ensures After(run) == Some(Init().(agents := map[0 := PumpIdle, 1 := ReqChecked(5)]))
  {
    run := [SpawnRequest(1, 5)];
    Extend([], SpawnRequest(1, 5));
    assert [] + run == run;
    Extend(run, CheckOpen(1));
    run := run + [CheckOpen(1)];
    assert After(run).value.agents == map[0 := PumpIdle, 1 := ReqChecked(5)];
  }

  /** From its check to parked with waker (1, 0): insert as slot 0, send, poll. */
  lemma RunParks(run: seq<Step>) returns (run': seq<Step>)
    requires After(run).Some?
    requires var st := After(run).value;
      1 in st.agents && st.agents[1] == ReqChecked(5) && st.slots == map[] && |st.shards| == SHARD_COUNT
    ensures After(run').Some?
    ensures var st, st' := After(run).value, After(run').value;
      && st'.agents == st.agents[1 := ReqParked(5, 0, Waker(1, 0))]
      && |st'.shards| == SHARD_COUNT && st'.closed == st.closed && st'.atSwap == st.atSwap
      && 0 in st'.slots && !st'.slots[0].done && (st'.slots[0].late <==> ShardOf(5) < st.emptied)
  {
    var st := After(run).value;
    Extend(run, Insert(1, 0));
    run' := run + [Insert(1, 0)];
    Extend(run', Send(1, true, 0));
    run' := run' + [Send(1, true, 0)];
    Extend(run', Poll(1));
    run' := run' + [Poll(1)];
    assert After(run').value.agents == st.agents[1 := ReqParked(5, 0, Waker(1, 0))];
  }

  /** The response pump, agent 0, fails to read, swaps `closed`, wins, and records the error. */
  lemma RunBreaks(run: seq<Step>, d: string) returns (run': seq<Step>)
    requires After(run).Some?
    requires var st := After(run).value; !st.closed && 0 in st.agents && st.agents[0].PumpIdle?
    ensures After(run').Some?
    ensures var st, st' := After(run).value, After(run').value;
      && st'.agents == st.agents[0 := BreakDrain(d, 0, {})]
      && st'.closed && st'.shards == st.shards && st'.slots == st.slots && st'.emptied == st.emptied
  {
    var st := After(run).value;
    Extend(run, PumpError(0, d));
    run' := run + [PumpError(0, d)];
    Extend(run', Swap(0));
    run' := run' + [Swap(0)];
    Extend(run', RecordError(0));
    run' := run' + [RecordError(0)];
    assert After(run').value.agents == st.agents[0 := BreakDrain(d, 0, {})];
  }

  /** The pump breaks the channel and empties every shard while request 1 stands past its check. */
  lemma RunDrainsBeforeInsert() returns (run: seq<Step>)
    ensures After(run).Some?
    ensures var st := After(run).value;
      && st.agents == map[0 := BreakDrain("reset", SHARD_COUNT, {}), 1 := ReqChecked(5)]
      && st.closed && st.slots == map[] && |st.shards| == SHARD_COUNT == st.emptied
  {
    var checked := RunChecked();
    var broken := RunBreaks(checked, "reset");
    run := DrainEmptyTable(broken, 0, "reset");
    assert After(run).value.agents == map[0 := BreakDrain("reset", SHARD_COUNT, {}), 1 := ReqChecked(5)];
  }

  /** Late registration: the request reads `closed == false`, the pump breaks the channel and drains it completely,
      and only then the request inserts its slot and sends.  So "a broken channel completes every waiter" fails, and
      for good: `StrandedForever`.  `ParkedWhenQuiescent` says exactly for whom. */
  lemma LateRegistrationStrands() returns (run: seq<Step>)
    ensures After(run).Some? && Stranded(After(run).value, 1)
    ensures var st := After(run).value;
      0 in st.agents && st.agents[0].BreakDone? && st.slots[st.agents[1].slot].late
  {
    run := RunDrainsBeforeInsert();
    run := RunParks(run);
    run := LeaveParked(run);
  }

  lemma LeaveParked(run: seq<Step>) returns (run': seq<Step>)
    requires After(run).Some?
    requires var st := After(run).value;
      && st.agents == map[0 := BreakDrain("reset", SHARD_COUNT, {}), 1 := ReqParked(5, 0, Waker(1, 0))]
      && st.closed && 0 in st.slots && !st.slots[0].done
    ensures After(run').Some? && Stranded(After(run').value, 1) && After(run').value.slots == After(run).value.slots
    ensures After(run').value.agents == map[0 := BreakDone, 1 := ReqParked(5, 0, Waker(1, 0))]
  {
    Extend(run, Finish(0));
    run' := run + [Finish(0)];
    assert After(run').value.agents == map[0 := BreakDone, 1 := ReqParked(5, 0, Waker(1, 0))];
  }

  /** An aborted break: the response pump wins the swap and waits for the `last_error` lock; the writer
      pump loses the swap, finishes `mark_broken` and aborts the response pump, so nobody drains.  This
      waiter had registered before the break. */
  lemma AbortedBreakStrands() returns (run: seq<Step>)
    ensures After(run).Some? && Stranded(After(run).value, 1) && After(run).value.atSwap == {}
    ensures !After(run).value.slots[After(run).value.agents[1].slot].late
  {
    var checked := RunChecked();
    run := RunParks(checked);
    run := PumpLosesItsBreak(run);
    ParkedAmongTheDone(After(run).value);
  }

  lemma ParkedAmongTheDone(st: State)
    requires st.closed && 0 in st.slots && !st.slots[0].done
    requires st.agents == map[0 := BreakAborted, 1 := ReqParked(5, 0, Waker(1, 0)), 2 := BreakDone]
    ensures Stranded(st, 1)
  {
  }

  lemma PumpLosesItsBreak(run: seq<Step>) returns (run': seq<Step>)
    requires After(run).Some?
    requires var st := After(run).value;
      !st.closed && 2 !in st.agents && 0 in st.agents && st.agents[0] == PumpIdle && PastCheck(st) == {}
    ensures After(run').Some?
    ensures var st, st' := After(run).value, After(run').value;
      && st'.agents == st.agents[0 := BreakAborted][2 := BreakDone]
      && st'.closed && st'.atSwap == {} && st'.slots == st.slots
  {
    var st := After(run).value;
    Extend(run, PumpError(0, "read"));
    run' := run + [PumpError(0, "read")];
    assert PastCheck(After(run').value) == {};
    Extend(run', Swap(0));
    run' := run' + [Swap(0)];
    assert After(run').value.agents == st.agents[0 := BreakSwapped("read", true)];
    run' := WriterAbortsThePump(run');
  }

  lemma WriterAbortsThePump(run: seq<Step>) returns (run': seq<Step>)
    requires After(run).Some?
    requires var st := After(run).value;
      st.closed && 2 !in st.agents && 0 in st.agents && st.agents[0] == BreakSwapped("read", true)
    ensures After(run').Some?
    ensures var st, st' := After(run).value, After(run').value;
      && st'.agents == st.agents[0 := BreakAborted][2 := BreakDone]
      && st'.closed && st'.atSwap == st.atSwap && st'.slots == st.slots
  {
    var st := After(run).value;
    Extend(run, SpawnBreak(2, "write"));
    run' := run + [SpawnBreak(2, "write")];
    Extend(run', Swap(2));
    run' := run' + [Swap(2)];
    Extend(run', RecordError(2));
    run' := run' + [RecordError(2)];
    assert After(run').value.agents == st.agents[2 := BreakDone];
    Extend(run', Abort(0));
    run' := run' + [Abort(0)];
    assert After(run').value.agents == st.agents[0 := BreakAborted][2 := BreakDone];
  }
}
