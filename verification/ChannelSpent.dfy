/** A broken channel whose fillers are gone: whoever still waits on it waits until its own timeout. */
module ChannelSpent {
  import opened Wrappers
  import opened ChannelProtocol

  /** Closed, with no pump left and no breaker before or in its drain. */
  ghost predicate Spent(st: State) {
    st.closed && forall b :: b in st.agents ==> CannotFill(st.agents[b])
  }

  predicate CannotFill(pc: Agent) {
    pc.Resting() && !pc.PumpIdle? && !pc.PumpGot?
  }

  /** Request a still waits for slot s, or has given up on its own: timed out or dropped. */
  predicate Unserved(st: State, a: AgentId, c: int, s: SlotId) {
    && a in st.agents && s in st.slots && !st.slots[s].done
    && match st.agents[a]
       case ReqPolling(d, t, _) => d == c && t == s
       case ReqParked(d, t, _) => d == c && t == s
       case ReqFailing(d, t, e) => d == c && t == s && e.TimedOut?
       case ReqDropped(d, t) => d == c && t == s
       case ReqDone(d, o) => d == c && o == Failed(TimedOut)
       case _ => false
  }

  /** No step of a spent channel fills a slot, and it stays spent. */
  lemma SpentStep(st: State, step: Step)
    requires Spent(st) && Enabled(st, step)
    ensures Spent(Apply(st, step))
    ensures forall s :: s in st.slots ==>
      s in Apply(st, step).slots && Apply(st, step).slots[s].fills == st.slots[s].fills
    ensures forall s :: s in st.slots ==> Apply(st, step).slots[s].done == st.slots[s].done
  {
    var st' := Apply(st, step);
    if step.a in st.agents { assert CannotFill(st.agents[step.a]); }
    forall b | b in st'.agents ensures CannotFill(st'.agents[b]) {
      if b in st.agents { assert CannotFill(st.agents[b]); }
    }
  }

  lemma UnservedStep(st: State, step: Step, a: AgentId, c: int, s: SlotId)
    requires Spent(st) && Enabled(st, step) && Unserved(st, a, c, s)
    ensures Unserved(Apply(st, step), a, c, s)
  {
    SpentStep(st, step);
    if step.a in st.agents { assert CannotFill(st.agents[step.a]); }
  }

  /** A request that waits on an undone slot of a spent channel. */
  ghost predicate Stranded(st: State, a: AgentId) {
    Spent(st) && a in st.agents && st.agents[a].ReqParked? && Unserved(st, a, st.agents[a].c, st.agents[a].slot)
  }

  /** Nobody ever completes it: after any further steps its slot is undone, and the request is still waiting or has
      timed out or been dropped. */
  lemma {:induction false} StrandedForever(run: seq<Step>, more: seq<Step>, a: AgentId)
    requires After(run).Some? && Stranded(After(run).value, a) && After(run + more).Some?
    ensures var pc := After(run).value.agents[a];
      Spent(After(run + more).value) && Unserved(After(run + more).value, a, pc.c, pc.slot)
    decreases |more|
  {
    var pc := After(run).value.agents[a];
    if more == [] {
      assert run + more == run;
    } else {
      var n := |more| - 1;
      assert (run + more)[..|run + more| - 1] == run + more[..n];
      StrandedForever(run, more[..n], a);
      SpentStep(After(run + more[..n]).value, more[n]);
      UnservedStep(After(run + more[..n]).value, more[n], a, pc.c, pc.slot);
    }
  }
}
