/** A transaction handle shared by many tasks: the steps of commit, rollback, `mark_lost`, the drop task and
    the cache-operation check, interleaved at every await of the state mutex and of the network. */
module Transaction {
  datatype TxState = Active | Committed | RolledBack | Lost
  datatype Kind = End(commit: bool) | Drop | MarkLost | Check

  /** Where a task stands: queued for the mutex, holding it, about to send TxEnd, awaiting its answer, over. */
  datatype Phase = Queued | Holding | Sending | Awaiting | Over

  datatype Task = Task(kind: Kind, phase: Phase)

  /** `sends` counts TxEnd requests, `abandoned` the commits and rollbacks cancelled while awaiting the answer to
      theirs, `admitted` the cache operations let through. */
  datatype State = State(tx: TxState, lock: int, tasks: seq<Task>, sends: nat, abandoned: nat, admitted: nat)

  datatype Step =
    | Spawn(kind: Kind) | Acquire(t: nat) | Proceed(t: nat) | Send(t: nat) | Answered(t: nat) | Cancel(t: nat)

  const NOBODY := -1

  function Init(): State {
    State(Active, NOBODY, [], 0, 0, 0)
  }

  predicate Enabled(s: State, step: Step) {
    match step
    case Spawn(_) => true
    case Acquire(t) => t < |s.tasks| && s.tasks[t].phase.Queued? && s.lock == NOBODY
    case Proceed(t) => t < |s.tasks| && s.tasks[t].phase.Holding?
    case Send(t) => t < |s.tasks| && s.tasks[t].phase.Sending?
    case Answered(t) => t < |s.tasks| && s.tasks[t].phase.Awaiting?
    case Cancel(t) => t < |s.tasks| && !s.tasks[t].phase.Over?
  }

  function At(s: State, t: nat, phase: Phase): State
    requires t < |s.tasks|
  {
    s.(tasks := s.tasks[t := s.tasks[t].(phase := phase)])
  }

  function Release(s: State, t: nat): State
    requires t < |s.tasks|
  {
    At(s, t, Over).(lock := NOBODY)
  }

  function Apply(s: State, step: Step): State
    requires Enabled(s, step)
  {
    match step
    case Spawn(k) => s.(tasks := s.tasks + [Task(k, Queued)])
    case Acquire(t) => At(s, t, Holding).(lock := t)
    case Proceed(t) =>
      (match s.tasks[t].kind
       case End(_) => if s.tx.Active? then At(s, t, Sending) else Release(s, t)
       case Drop => if s.tx.Active? then At(s, t, Sending).(tx := RolledBack) else Release(s, t)
       case MarkLost => Release(s, t).(tx := Lost)
       case Check => Release(s, t).(admitted := if s.tx.Active? then s.admitted + 1 else s.admitted))
    case Send(t) => At(s, t, Awaiting).(sends := s.sends + 1)
    case Answered(t) =>
      if s.tasks[t].kind.End? then Release(s, t).(tx := if s.tasks[t].kind.commit then Committed else RolledBack)
      else Release(s, t)
    case Cancel(t) =>
      // dropping a future drops its guard
      var s' := if s.lock == t then s.(lock := NOBODY) else s;
      var cut := s.tasks[t].phase.Awaiting? && s.tasks[t].kind.End?;
      At(s', t, Over).(abandoned := if cut then s.abandoned + 1 else s.abandoned)
  }

  predicate IsRun(run: seq<Step>)
    decreases |run|, 0
  {
    run == [] || (IsRun(run[..|run| - 1]) && Enabled(After(run[..|run| - 1]), run[|run| - 1]))
  }

  function After(run: seq<Step>): State
    requires IsRun(run)
    decreases |run|, 1
  {
    if run == [] then Init() else Apply(After(run[..|run| - 1]), run[|run| - 1])
  }

  // ------------------------------------------------------------------ the invariant

  predicate HoldsLock(p: Phase) {
    p.Holding? || p.Sending? || p.Awaiting?
  }

  /** The mutex is held by at most one task, the one recorded. */
  predicate TaskGood(s: State, t: nat)
    requires t < |s.tasks|
  {
    && (HoldsLock(s.tasks[t].phase) <==> s.lock == t)
    && (s.tasks[t].phase.Sending? || s.tasks[t].phase.Awaiting? ==> s.tasks[t].kind.End? || s.tasks[t].kind.Drop?)
  }

  ghost predicate TasksGood(s: State) {
    && (s.lock == NOBODY || 0 <= s.lock < |s.tasks|)
    && forall t: nat {:trigger TaskGood(s, t)} | t < |s.tasks| :: TaskGood(s, t)
  }

  /** How many TxEnds are accounted for besides the abandoned ones. */
  predicate SendsGood(s: State)
    requires s.lock == NOBODY || 0 <= s.lock < |s.tasks|
  {
    if s.lock == NOBODY || s.tasks[s.lock].phase.Holding? then
      s.sends == s.abandoned || (s.sends == s.abandoned + 1 && !s.tx.Active?)
    else if s.tasks[s.lock].kind.End? then
      s.tx.Active? && s.sends == s.abandoned + (if s.tasks[s.lock].phase.Awaiting? then 1 else 0)
    else
      s.tx.RolledBack? && s.sends == s.abandoned + (if s.tasks[s.lock].phase.Awaiting? then 1 else 0)
  }

  ghost predicate Inv(s: State) {
    TasksGood(s) && SendsGood(s)
  }

  lemma TasksGoodStep(s: State, step: Step)
    requires TasksGood(s) && Enabled(s, step)
    ensures TasksGood(Apply(s, step))
  {
    var s' := Apply(s, step);
    forall t: nat | t < |s'.tasks| ensures TaskGood(s', t) {
      if t < |s.tasks| { assert TaskGood(s, t); }
      if !step.Spawn? { assert TaskGood(s, step.t); }
    }
    if !step.Spawn? { assert TaskGood(s, step.t); }
  }

  lemma SendsGoodStep(s: State, step: Step)
    requires Inv(s) && Enabled(s, step)
    ensures TasksGood(Apply(s, step)) && SendsGood(Apply(s, step))
  {
    TasksGoodStep(s, step);
    if !step.Spawn? { assert TaskGood(s, step.t); }
  }

  lemma {:induction false} RunInv(run: seq<Step>)
    requires IsRun(run)
    ensures Inv(After(run))
  {
    if run != [] {
      RunInv(run[..|run| - 1]);
      SendsGoodStep(After(run[..|run| - 1]), run[|run| - 1]);
    }
  }

  // ------------------------------------------------------------------ at most one end

  /** In every run at most one TxEnd is sent beyond those whose sender was cancelled before it could record
      the end. */
  lemma AtMostOneEnd(run: seq<Step>)
    requires IsRun(run)
    ensures After(run).abandoned <= After(run).sends <= 1 + After(run).abandoned
  {
    RunInv(run);
  }

  predicate NoCancel(run: seq<Step>) {
    forall i :: 0 <= i < |run| ==> !run[i].Cancel?
  }

  lemma {:induction false} NothingAbandoned(run: seq<Step>)
    requires IsRun(run) && NoCancel(run)
    ensures After(run).abandoned == 0
  {
    if run != [] { NothingAbandoned(run[..|run| - 1]); }
  }

  /** Without cancelled futures at most one TxEnd is ever sent. */
  lemma AtMostOneEndUncancelled(run: seq<Step>)
    requires IsRun(run) && NoCancel(run)
    ensures After(run).sends <= 1
  {
    AtMostOneEnd(run);
    NothingAbandoned(run);
  }

  // ------------------------------------------------------------------ what never comes back

  lemma StepFacts(s: State, step: Step)
    requires Inv(s) && Enabled(s, step)
    ensures !s.tx.Active? ==> !Apply(s, step).tx.Active? && Apply(s, step).admitted == s.admitted
    ensures s.tx.Lost? ==> Apply(s, step).tx.Lost? && Apply(s, step).sends == s.sends
  {
    if !step.Spawn? { assert TaskGood(s, step.t); }
  }

  lemma Prefix(run: seq<Step>, k: nat)
    requires IsRun(run) && k <= |run|
    ensures IsRun(run[..k])
  {
    if k < |run| {
      Prefix(run[..|run| - 1], k);
      assert run[..|run| - 1][..k] == run[..k];
    } else {
      assert run[..k] == run;
    }
  }

  /** Once the transaction has left Active it never returns, and no cache operation is admitted again. */
  lemma {:induction false} ActiveNeverAgain(run: seq<Step>, k: nat)
    requires IsRun(run) && k <= |run| && (Prefix(run, k); !After(run[..k]).tx.Active?)
    ensures !After(run).tx.Active? && (Prefix(run, k); After(run).admitted == After(run[..k]).admitted)
  {
    if k < |run| {
      var before := run[..|run| - 1];
      assert before[..k] == run[..k];
      ActiveNeverAgain(before, k);
      RunInv(before);
      StepFacts(After(before), run[|run| - 1]);
    } else {
      assert run[..k] == run;
    }
  }

  /** Once `mark_lost` has written Lost, no TxEnd is sent any more, cancelled futures or not. */
  lemma {:induction false} SilentOnceLost(run: seq<Step>, k: nat)
    requires IsRun(run) && k <= |run| && (Prefix(run, k); After(run[..k]).tx.Lost?)
    ensures After(run).tx.Lost? && (Prefix(run, k); After(run).sends == After(run[..k]).sends)
  {
    if k < |run| {
      var before := run[..|run| - 1];
      assert before[..k] == run[..k];
      SilentOnceLost(before, k);
      RunInv(before);
      StepFacts(After(before), run[|run| - 1]);
    } else {
      assert run[..k] == run;
    }
  }

  /** Committed is not permanent: from any such state with the mutex free, `mark_lost` overwrites it. */
  lemma CommittedCanBeLost(run: seq<Step>) returns (more: seq<Step>)
    requires IsRun(run) && After(run).tx.Committed? && After(run).lock == NOBODY
    ensures IsRun(run + more) && NoCancel(more) && After(run + more).tx.Lost?
  {
    var t := |After(run).tasks|;
    more := [];
    assert run + more == run;
    more := Extend(run, more, Spawn(MarkLost));
    more := Extend(run, more, Acquire(t));
    more := Extend(run, more, Proceed(t));
  }

  // ------------------------------------------------------------------ what each call does

  /** A commit or rollback that gets hold of an Active transaction sends its TxEnd, and once that is answered the
      transaction is Committed or RolledBack accordingly. */
  lemma EndTakesEffect(run: seq<Step>, t: nat, commit: bool)
    requires IsRun(run) && t < |After(run).tasks| && After(run).tasks[t] == Task(End(commit), Holding)
    requires After(run).tx.Active?
    ensures IsRun(run + [Proceed(t), Send(t), Answered(t)])
    ensures var s := After(run + [Proceed(t), Send(t), Answered(t)]);
      && s.tx == (if commit then Committed else RolledBack)
      && s.sends == After(run).sends + 1 && s.lock == NOBODY
  {
    ThreeSteps(run, Proceed(t), Send(t), Answered(t));
  }

  /** The drop task of an Active transaction rolls it back and sends the TxEnd. */
  lemma DropTakesEffect(run: seq<Step>, t: nat)
    requires IsRun(run) && t < |After(run).tasks| && After(run).tasks[t] == Task(Drop, Holding)
    requires After(run).tx.Active?
    ensures IsRun(run + [Proceed(t), Send(t), Answered(t)])
    ensures var s := After(run + [Proceed(t), Send(t), Answered(t)]);
      s.tx.RolledBack? && s.sends == After(run).sends + 1 && s.lock == NOBODY
  {
    ThreeSteps(run, Proceed(t), Send(t), Answered(t));
  }

  lemma ThreeSteps(run: seq<Step>, a: Step, b: Step, c: Step)
    requires IsRun(run) && Enabled(After(run), a) && Enabled(Apply(After(run), a), b)
    requires Enabled(Apply(Apply(After(run), a), b), c)
    ensures IsRun(run + [a, b, c]) && After(run + [a, b, c]) == Apply(Apply(Apply(After(run), a), b), c)
  {
    assert run + [] == run;
    var one := Extend(run, [], a);
    var two := Extend(run, one, b);
    var three := Extend(run, two, c);
    assert three == [a, b, c];
  }

  /** A commit, rollback or drop that finds the transaction over sends nothing and changes nothing. */
  lemma OverIsLeftAlone(run: seq<Step>, t: nat)
    requires IsRun(run) && t < |After(run).tasks| && After(run).tasks[t].phase.Holding?
    requires (After(run).tasks[t].kind.End? || After(run).tasks[t].kind.Drop?) && !After(run).tx.Active?
    ensures IsRun(run + [Proceed(t)])
    ensures var s, s' := After(run), After(run + [Proceed(t)]);
      s'.tx == s.tx && s'.sends == s.sends && s'.tasks[t].phase.Over? && s'.lock == NOBODY
  {
    assert run + [] == run;
    var more := Extend(run, [], Proceed(t));
    assert more == [Proceed(t)];
  }

  /** A cache operation is admitted exactly when its check finds the transaction Active. */
  lemma CheckAdmitsExactlyWhen(run: seq<Step>, t: nat)
    requires IsRun(run) && t < |After(run).tasks| && After(run).tasks[t] == Task(Check, Holding)
    ensures IsRun(run + [Proceed(t)])
    ensures var s, s' := After(run), After(run + [Proceed(t)]);
      s'.tx == s.tx && s'.admitted == s.admitted + if s.tx.Active? then 1 else 0
  {
    assert run + [] == run;
    var more := Extend(run, [], Proceed(t));
    assert more == [Proceed(t)];
  }

  /** Task t is a commit whose TxEnd was answered at step i. */
  ghost predicate CommittedAt(run: seq<Step>, i: nat, t: nat)
    requires IsRun(run)
  {
    i < |run| && run[i] == Answered(t) && t < |After(run).tasks| && After(run).tasks[t].kind == End(true)
  }

  /** A transaction is Committed only because the TxEnd of some commit was answered. */
  lemma {:induction false} CommittedOnlyByCommit(run: seq<Step>)
    requires IsRun(run) && After(run).tx.Committed?
    ensures exists i: nat, t: nat :: CommittedAt(run, i, t)
  {
    var n := |run| - 1;
    var before, step := run[..n], run[n];
    if After(before).tx.Committed? {
      CommittedOnlyByCommit(before);
      var i: nat, t: nat :| CommittedAt(before, i, t);
      assert CommittedAt(run, i, t);
    } else {
      assert step.Answered?;
      assert CommittedAt(run, n, step.t);
    }
  }

  // ------------------------------------------------------------------ cancellation

  /** From any state where a commit awaits its answer, cancelling it lets a second TxEnd out. */
  lemma CancelledCommitEndsTwice(run: seq<Step>, t: nat) returns (more: seq<Step>)
    requires IsRun(run) && t < |After(run).tasks| && After(run).tasks[t] == Task(End(true), Awaiting)
    ensures IsRun(run + more) && After(run + more).sends == After(run).sends + 1
  {
    RunInv(run);
    var s := After(run);
    assert TaskGood(s, t);
    var u := |s.tasks|;
    more := [];
    assert run + more == run;
    more := Extend(run, more, Cancel(t));
    more := Extend(run, more, Spawn(End(false)));
    more := Extend(run, more, Acquire(u));
    more := Extend(run, more, Proceed(u));
    more := Extend(run, more, Send(u));
  }

  lemma Extend(run: seq<Step>, more: seq<Step>, step: Step) returns (more': seq<Step>)
    requires IsRun(run + more) && Enabled(After(run + more), step)
    ensures more' == more + [step] && IsRun(run + more') && After(run + more') == Apply(After(run + more), step)
  {
    more' := more + [step];
    assert (run + more')[..|run + more|] == run + more;
  }
}
