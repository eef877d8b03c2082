/** Nothing a request returns is made up: every reply was received whole, every error was reported by a break or by
    the request's own timeout. */
module ChannelProvenance {
  import opened Wrappers
  import opened ChannelProtocol

  // ------------------------------------------------------------------ what came in

  /** The frames the response pump read, the errors `mark_broken` was entered with, the requests whose timer fired,
      those whose send was refused, and whether `closed` was swapped. */
  datatype Input = Input(
    frames: set<Frame>, details: set<string>, expired: set<AgentId>, refused: set<AgentId>, swapped: bool)

  function Note(seen: Input, step: Step): Input {
    match step
    case Receive(_, f) => seen.(frames := seen.frames + {f})
    case SpawnBreak(_, d) => seen.(details := seen.details + {d})
    case PumpError(_, d) => seen.(details := seen.details + {d})
    case TimeOut(a) => seen.(expired := seen.expired + {a})
    case Send(a, false, _) => seen.(refused := seen.refused + {a})
    case Swap(_) => seen.(swapped := true)
    case _ => seen
  }

  function Seen(run: seq<Step>): Input {
    if run == [] then Input({}, {}, {}, {}, false) else Note(Seen(run[..|run| - 1]), run[|run| - 1])
  }

  lemma {:induction false} FramesMeaning(run: seq<Step>, f: Frame)
    requires f in Seen(run).frames
    ensures exists i, b :: 0 <= i < |run| && run[i] == Receive(b, f)
  {
    var n := |run| - 1;
    if run[n].Receive? && run[n].frame == f {
      assert run[n] == Receive(run[n].a, f);
    } else {
      FramesMeaning(run[..n], f);
      var i, b :| 0 <= i < n && run[..n][i] == Receive(b, f);
      assert run[i] == Receive(b, f);
    }
  }

  /** The step enters `mark_broken` with error d. */
  predicate Breaks(step: Step, d: string) {
    (step.SpawnBreak? || step.PumpError?) && step.detail == d
  }

  lemma {:induction false} DetailsMeaning(run: seq<Step>, d: string)
    requires d in Seen(run).details
    ensures exists i :: 0 <= i < |run| && Breaks(run[i], d)
  {
    var n := |run| - 1;
    if !Breaks(run[n], d) {
      DetailsMeaning(run[..n], d);
      var i :| 0 <= i < n && Breaks(run[..n][i], d);
      assert Breaks(run[i], d);
    }
  }

  lemma {:induction false} ExpiredMeaning(run: seq<Step>, a: AgentId)
    requires a in Seen(run).expired
    ensures exists i :: 0 <= i < |run| && run[i] == TimeOut(a)
  {
    var n := |run| - 1;
    if run[n] != TimeOut(a) {
      ExpiredMeaning(run[..n], a);
      var i :| 0 <= i < n && run[..n][i] == TimeOut(a);
      assert run[i] == TimeOut(a);
    }
  }

  // ------------------------------------------------------------------ what is stored and returned

  predicate Sourced(o: Outcome, seen: Input) {
    match o
    case Reply(f) => f in seen.frames
    case Failed(e) => e.ConnectionLost? && e.detail in seen.details
  }

  /** Why request a may fail with e. */
  predicate OwnError(a: AgentId, e: Error, seen: Input) {
    match e
    case ConnectionLost(d) => d in seen.details
    case TimedOut => a in seen.expired
    case ChannelClosed => a in seen.refused || seen.swapped
    case _ => true
  }

  /** What an agent carries came in; a timeout or a refused send is the request's own. */
  predicate AgentSourced(a: AgentId, pc: Agent, seen: Input) {
    match pc
    case PumpGot(f) => f in seen.frames
    case PumpHold(_, f) => f in seen.frames
    case BreakStart(d) => d in seen.details
    case BreakSwapped(d, _) => d in seen.details
    case BreakDrain(d, _, _) => d in seen.details
    case BreakWake(d, _, _, _) => d in seen.details
    case ReqFailing(_, _, e) => OwnError(a, e, seen)
    case ReqDone(_, Reply(f)) => f in seen.frames
    case ReqDone(_, Failed(e)) => OwnError(a, e, seen)
    case _ => true
  }

  ghost predicate SlotSourced(slot: Slot, seen: Input) {
    && (slot.result.Some? ==> Sourced(slot.result.value, seen))
    && forall i :: 0 <= i < |slot.fills| ==> Sourced(slot.fills[i], seen)
  }

  ghost predicate AgentFine(st: State, a: AgentId, seen: Input)
    requires a in st.agents
  {
    AgentSourced(a, st.agents[a], seen)
  }

  ghost predicate SlotFine(st: State, s: SlotId, seen: Input)
    requires s in st.slots
  {
    SlotSourced(st.slots[s], seen)
  }

  ghost predicate StateSourced(st: State, seen: Input) {
    && (forall a {:trigger AgentFine(st, a, seen)} :: a in st.agents ==> AgentFine(st, a, seen))
    && (forall s {:trigger SlotFine(st, s, seen)} :: s in st.slots ==> SlotFine(st, s, seen))
    && (st.closed ==> seen.swapped)
  }

  lemma OtherAgent(st: State, step: Step, b: AgentId)
    requires Enabled(st, step) && b != step.a && b in Apply(st, step).agents
    ensures b in st.agents && Apply(st, step).agents[b] == st.agents[b]
  {
  }

  lemma MoreSeenByAgent(a: AgentId, pc: Agent, step: Step, seen: Input)
    requires AgentSourced(a, pc, seen)
    ensures AgentSourced(a, pc, Note(seen, step))
  {
  }

  predicate OfRequest(step: Step) {
    || step.SpawnRequest? || step.CheckOpen? || step.Insert? || step.Send? || step.Poll? || step.Reschedule?
    || step.TimeOut? || step.Withdraw? || step.DropFuture?
  }

  lemma RequestStep(st: State, step: Step, seen: Input)
    requires Enabled(st, step) && StateSourced(st, seen) && OfRequest(step)
    ensures AgentFine(Apply(st, step), step.a, Note(seen, step))
  {
    if step.a in st.agents { assert AgentFine(st, step.a, seen); }
    if step.Poll? { assert SlotFine(st, st.agents[step.a].slot, seen); }
  }

  lemma FillerStep(st: State, step: Step, seen: Input)
    requires Enabled(st, step) && StateSourced(st, seen) && !OfRequest(step)
    ensures AgentFine(Apply(st, step), step.a, Note(seen, step))
  {
    if step.a in st.agents { assert AgentFine(st, step.a, seen); }
  }

  lemma AgentStep(st: State, step: Step, a: AgentId, seen: Input)
    requires Enabled(st, step) && StateSourced(st, seen) && a in Apply(st, step).agents
    ensures AgentFine(Apply(st, step), a, Note(seen, step))
  {
    if a != step.a {
      OtherAgent(st, step, a);
      assert AgentFine(st, a, seen);
      MoreSeenByAgent(a, st.agents[a], step, seen);
    } else if OfRequest(step) {
      RequestStep(st, step, seen);
    } else {
      FillerStep(st, step, seen);
    }
  }

  /** Steps other than fills store nothing. */
  lemma KeptSlot(st: State, step: Step, s: SlotId)
    requires Enabled(st, step) && !step.PumpFill? && !step.DrainFill? && s in Apply(st, step).slots
    ensures var slot := Apply(st, step).slots[s];
      && (s !in st.slots ==> slot.fills == [] && slot.result == None)
      && (s in st.slots ==>
            slot.fills == st.slots[s].fills && (slot.result == None || slot.result == st.slots[s].result))
  {
  }

  lemma FilledSlot(st: State, step: Step, s: SlotId, seen: Input)
    requires Enabled(st, step) && StateSourced(st, seen) && (step.PumpFill? || step.DrainFill?) && s in st.slots
    ensures SlotFine(Apply(st, step), s, seen)
  {
    assert SlotFine(st, s, seen);
    assert AgentFine(st, step.a, seen);
  }

  lemma MoreSeen(slot: Slot, step: Step, seen: Input)
    requires SlotSourced(slot, seen)
    ensures SlotSourced(slot, Note(seen, step))
  {
  }

  lemma SlotStep(st: State, step: Step, s: SlotId, seen: Input)
    requires Enabled(st, step) && StateSourced(st, seen) && s in Apply(st, step).slots
    ensures SlotFine(Apply(st, step), s, Note(seen, step))
  {
    if step.PumpFill? || step.DrainFill? {
      FilledSlot(st, step, s, seen);
    } else {
      KeptSlot(st, step, s);
      if s in st.slots {
        assert SlotFine(st, s, seen);
        MoreSeen(st.slots[s], step, seen);
      }
    }
  }

  lemma SourcedStep(st: State, step: Step, seen: Input)
    requires Enabled(st, step) && StateSourced(st, seen)
    ensures StateSourced(Apply(st, step), Note(seen, step))
  {
    forall a | a in Apply(st, step).agents ensures AgentFine(Apply(st, step), a, Note(seen, step)) {
      AgentStep(st, step, a, seen);
    }
    forall s | s in Apply(st, step).slots ensures SlotFine(Apply(st, step), s, Note(seen, step)) {
      SlotStep(st, step, s, seen);
    }
  }

  lemma {:induction false} RunSourced(run: seq<Step>)
    requires After(run).Some?
    ensures StateSourced(After(run).value, Seen(run))
  {
    if run != [] {
      var before := run[..|run| - 1];
      RunSourced(before);
      SourcedStep(After(before).value, run[|run| - 1], Seen(before));
    }
  }

  lemma AgentOfRun(run: seq<Step>, a: AgentId)
    requires After(run).Some? && a in After(run).value.agents
    ensures AgentSourced(a, After(run).value.agents[a], Seen(run))
  {
    RunSourced(run);
    assert AgentFine(After(run).value, a, Seen(run));
  }

  lemma ErrorOfRun(run: seq<Step>, a: AgentId, c: int, e: Error)
    requires After(run).Some? && a in After(run).value.agents && After(run).value.agents[a] == ReqDone(c, Failed(e))
    ensures OwnError(a, e, Seen(run))
  {
    AgentOfRun(run, a);
  }

  lemma ReplyOfRun(run: seq<Step>, a: AgentId, c: int, f: Frame)
    requires After(run).Some? && a in After(run).value.agents && After(run).value.agents[a] == ReqDone(c, Reply(f))
    ensures f in Seen(run).frames
  {
    AgentOfRun(run, a);
  }

  // ------------------------------------------------------------------ every run

  /** Whatever reply a request returns, the pump received exactly that frame. */
  lemma RepliesWereReceived(run: seq<Step>, a: AgentId, c: int, f: Frame)
    requires After(run).Some? && a in After(run).value.agents && After(run).value.agents[a] == ReqDone(c, Reply(f))
    ensures exists i, b :: 0 <= i < |run| && run[i] == Receive(b, f)
  {
    ReplyOfRun(run, a, c, f);
    FramesMeaning(run, f);
  }

  /** Whatever reply was ever stored in a slot, the pump received exactly that frame. */
  lemma StoredRepliesWereReceived(run: seq<Step>, s: SlotId, k: nat, f: Frame)
    requires After(run).Some? && s in After(run).value.slots
    requires k < |After(run).value.slots[s].fills| && After(run).value.slots[s].fills[k] == Reply(f)
    ensures exists i, b :: 0 <= i < |run| && run[i] == Receive(b, f)
  {
    RunSourced(run);
    assert SlotFine(After(run).value, s, Seen(run));
    FramesMeaning(run, f);
  }

  /** Whatever connection error a request returns, some break was entered with exactly that error. */
  lemma ErrorsWereReported(run: seq<Step>, a: AgentId, c: int, d: string)
    requires After(run).Some? && a in After(run).value.agents
    requires After(run).value.agents[a] == ReqDone(c, Failed(ConnectionLost(d)))
    ensures exists i :: 0 <= i < |run| && Breaks(run[i], d)
  {
    ErrorOfRun(run, a, c, ConnectionLost(d));
    DetailsMeaning(run, d);
  }

  /** A request reports a timeout only if its own timer fired. */
  lemma TimeoutsAreTheRequestsOwn(run: seq<Step>, a: AgentId, c: int)
    requires After(run).Some? && a in After(run).value.agents
    requires After(run).value.agents[a] == ReqDone(c, Failed(TimedOut))
    ensures exists i :: 0 <= i < |run| && run[i] == TimeOut(a)
  {
    ErrorOfRun(run, a, c, TimedOut);
    ExpiredMeaning(run, a);
  }

  lemma {:induction false} RefusedMeaning(run: seq<Step>, a: AgentId)
    requires a in Seen(run).refused
    ensures exists i, tag :: 0 <= i < |run| && run[i] == Send(a, false, tag)
  {
    var n := |run| - 1;
    if run[n].Send? && run[n].a == a && !run[n].ok {
      assert run[n] == Send(a, false, run[n].tag);
    } else {
      RefusedMeaning(run[..n], a);
      var i, tag :| 0 <= i < n && run[..n][i] == Send(a, false, tag);
      assert run[i] == Send(a, false, tag);
    }
  }

  lemma {:induction false} SwappedMeaning(run: seq<Step>)
    requires Seen(run).swapped
    ensures exists i, b :: 0 <= i < |run| && run[i] == Swap(b)
  {
    var n := |run| - 1;
    if run[n].Swap? {
      assert run[n] == Swap(run[n].a);
    } else {
      SwappedMeaning(run[..n]);
      var i, b :| 0 <= i < n && run[..n][i] == Swap(b);
      assert run[i] == Swap(b);
    }
  }

  /** A request reports a closed channel only if the channel was broken or its own send was refused. */
  lemma ClosedErrorsAreReal(run: seq<Step>, a: AgentId, c: int)
    requires After(run).Some? && a in After(run).value.agents
    requires After(run).value.agents[a] == ReqDone(c, Failed(ChannelClosed))
    ensures (exists i, b :: 0 <= i < |run| && run[i] == Swap(b))
         || (exists i, tag :: 0 <= i < |run| && run[i] == Send(a, false, tag))
  {
    ErrorOfRun(run, a, c, ChannelClosed);
    if a in Seen(run).refused { RefusedMeaning(run, a); } else { SwappedMeaning(run); }
  }
}
