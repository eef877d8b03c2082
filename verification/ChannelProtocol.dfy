/** The multiplexed channel: request tasks, the response pump and `mark_broken` callers share a
    16-way sharded table of in-flight slots.  The protocol is a state machine with one step per
    mutex section, atomic access or waker call; any agents may interleave.

    Fields marked "history" record the past for stating properties; no step's guard or effect on
    the other fields depends on them. */
module ChannelProtocol {
  import opened Wrappers

  const SHARD_COUNT := 16
  const TWO_64 := 0x1_0000_0000_0000_0000

  type AgentId = int
  type SlotId = int

  datatype Frame = Frame(corr: int, body: int)
  datatype Error = ConnectionLost(detail: string) | ChannelClosed | TimedOut | CorrMismatch | NoResult
  datatype Outcome = Reply(frame: Frame) | Failed(error: Error)
  datatype Waker = Waker(task: AgentId, tag: nat)

  /** History: where a slot is between its creation and its completion. */
  datatype Place = InTable | HeldBy(filler: AgentId) | Filled | Withdrawn

  datatype Slot = Slot(
    result: Option<Outcome>, waker: Option<Waker>, done: bool,
    // history
    corr: int, owner: AgentId, place: Place, fills: seq<Outcome>, waking: Option<AgentId>, late: bool)

  /** Program counters.  Requests: `Channel::request`; pump: `attach_response_pump`;
      break: `mark_broken`, entered by either pump or by `close`. */
  datatype Agent =
    | ReqStart(c: int)
    | ReqChecked(c: int)
    | ReqInserted(c: int, slot: SlotId)
    | ReqPolling(c: int, slot: SlotId, cx: Waker)
    | ReqParked(c: int, slot: SlotId, cx: Waker)
    | ReqFailing(c: int, slot: SlotId, error: Error)
    | ReqDropped(c: int, slot: SlotId)
    | ReqDone(c: int, outcome: Outcome)
    | PumpIdle
    | PumpGot(frame: Frame)
    | PumpHold(held: SlotId, frame: Frame)
    | PumpWake(wakes: Waker)
    | PumpStopped
    | BreakStart(detail: string)
    | BreakSwapped(detail: string, won: bool)
    | BreakDrain(detail: string, next: nat, pending: set<SlotId>)
    | BreakWake(detail: string, next: nat, pending: set<SlotId>, wakes: Waker)
    | BreakDone
    | BreakAborted
  {
    predicate Live() {
      ReqStart? || ReqChecked? || HasSlot()
    }

    predicate HasSlot() {
      ReqInserted? || ReqPolling? || ReqParked? || ReqFailing? || ReqDropped?
    }

    predicate Waiting() {
      ReqInserted? || ReqPolling? || ReqParked?
    }

    predicate Holds(s: SlotId) {
      || (PumpHold? && held == s)
      || ((BreakDrain? || BreakWake?) && s in pending)
    }

    predicate Wakes(w: Waker) {
      (PumpWake? || BreakWake?) && wakes == w
    }

    /** Between operations: holds no slot, owes no wake-up and no drain. */
    predicate Resting() {
      !PumpHold? && !PumpWake? && !(BreakSwapped? && won) && !BreakDrain? && !BreakWake?
    }
  }

  type Shards = seq<map<int, SlotId>>

  datatype State = State(
    shards: Shards, slots: map<SlotId, Slot>, agents: map<AgentId, Agent>,
    closed: bool, notified: set<Waker>, lastError: Option<string>,
    // history
    winner: Option<AgentId>, broken: string, emptied: nat, atSwap: set<AgentId>, drained: set<SlotId>)

  datatype Step =
    | SpawnRequest(a: AgentId, c: int)
    | SpawnBreak(a: AgentId, detail: string)
    | CheckOpen(a: AgentId)
    | Insert(a: AgentId, s: SlotId)
    | Send(a: AgentId, ok: bool, tag: nat)
    | Poll(a: AgentId)
    | Reschedule(a: AgentId, tag: nat)
    | TimeOut(a: AgentId)
    | Withdraw(a: AgentId)
    | DropFuture(a: AgentId)
    | Receive(a: AgentId, frame: Frame)
    | TakeSlot(a: AgentId)
    | PumpFill(a: AgentId)
    | PumpCallWake(a: AgentId)
    | PumpError(a: AgentId, detail: string)
    | Swap(a: AgentId)
    | RecordError(a: AgentId)
    | TakeShard(a: AgentId)
    | DrainFill(a: AgentId, s: SlotId)
    | DrainCallWake(a: AgentId)
    | Finish(a: AgentId)
    | Abort(a: AgentId)
    | StopPump(a: AgentId)

  // ------------------------------------------------------------------ the sharded table

  /** `corr_id as usize`: two's complement reading of an i64. */
  function AsUsize(c: int): int {
    if c < 0 then c + TWO_64 else c
  }

  function ShardOf(c: int): (k: nat)
    ensures k < SHARD_COUNT
  {
    AsUsize(c) % SHARD_COUNT
  }

  predicate WellSharded(shards: Shards) {
    && |shards| == SHARD_COUNT
    && forall k, c :: 0 <= k < SHARD_COUNT && c in shards[k] ==> ShardOf(c) == k
  }

  function Lookup(shards: Shards, c: int): Option<SlotId>
    requires |shards| == SHARD_COUNT
  {
    if c in shards[ShardOf(c)] then Some(shards[ShardOf(c)][c]) else None
  }

  function TableInsert(shards: Shards, c: int, s: SlotId): Shards
    requires |shards| == SHARD_COUNT
  {
    shards[ShardOf(c) := shards[ShardOf(c)][c := s]]
  }

  function TableRemove(shards: Shards, c: int): Shards
    requires |shards| == SHARD_COUNT
  {
    shards[ShardOf(c) := shards[ShardOf(c)] - {c}]
  }

  function SlotsOf(shard: map<int, SlotId>): set<SlotId> {
    set c | c in shard :: shard[c]
  }

  // ------------------------------------------------------------------ slot operations

  /** `InFlightSlot::fill`: the first result wins, a later one is dropped. */
  function FillSlot(slot: Slot, o: Outcome, filler: AgentId): Slot {
    if slot.done then slot
    else slot.(result := Some(o), done := true, waker := None,
               place := Filled, fills := slot.fills + [o],
               waking := if slot.waker.Some? then Some(filler) else None)
  }

  /** The waker that `fill` takes out and must call. */
  function TakenWaker(slot: Slot): Option<Waker> {
    if slot.done then None else slot.waker
  }

  /** What `request` makes of the value that `WaitFuture::poll` returned. */
  function AfterPoll(c: int, s: SlotId, taken: Outcome): Agent {
    match taken
    case Reply(f) => ReqDone(c, if f.corr != c then Failed(CorrMismatch) else Reply(f))
    case Failed(e) => ReqFailing(c, s, e)
  }

  // ------------------------------------------------------------------ steps

  predicate FreshCorr(st: State, c: int) {
    forall b :: b in st.agents && st.agents[b].Live() ==> st.agents[b].c != c
  }

  predicate Enabled(st: State, step: Step) {
    match step
    case SpawnRequest(a, c) => a !in st.agents && -0x8000_0000_0000_0000 <= c < 0x8000_0000_0000_0000
      && FreshCorr(st, c)
    case SpawnBreak(a, _) => a !in st.agents
    case CheckOpen(a) => a in st.agents && st.agents[a].ReqStart?
    case Insert(a, s) => a in st.agents && st.agents[a].ReqChecked? && s !in st.slots && |st.shards| == SHARD_COUNT
    case Send(a, _, _) => a in st.agents && st.agents[a].ReqInserted?
    case Poll(a) => a in st.agents && st.agents[a].ReqPolling? && st.agents[a].slot in st.slots
    case Reschedule(a, _) => a in st.agents && st.agents[a].ReqParked?
    case TimeOut(a) => a in st.agents && st.agents[a].ReqParked?
    case Withdraw(a) => a in st.agents && st.agents[a].ReqFailing? && st.agents[a].slot in st.slots
      && |st.shards| == SHARD_COUNT
    case DropFuture(a) => a in st.agents && (st.agents[a].ReqParked? || st.agents[a].ReqPolling?)
    case Receive(a, _) => a in st.agents && st.agents[a].PumpIdle?
    case TakeSlot(a) => a in st.agents && st.agents[a].PumpGot? && |st.shards| == SHARD_COUNT
    case PumpFill(a) => a in st.agents && st.agents[a].PumpHold? && st.agents[a].held in st.slots
    case PumpCallWake(a) => a in st.agents && st.agents[a].PumpWake?
    case PumpError(a, _) => a in st.agents && st.agents[a].PumpIdle?
    case Swap(a) => a in st.agents && st.agents[a].BreakStart?
    case RecordError(a) => a in st.agents && st.agents[a].BreakSwapped?
    case TakeShard(a) =>
      && a in st.agents && st.agents[a].BreakDrain? && st.agents[a].pending == {}
      && st.agents[a].next < SHARD_COUNT == |st.shards|
    case DrainFill(a, s) => a in st.agents && st.agents[a].BreakDrain? && s in st.agents[a].pending && s in st.slots
    case DrainCallWake(a) => a in st.agents && st.agents[a].BreakWake?
    case Finish(a) => a in st.agents && st.agents[a].BreakDrain? && st.agents[a].pending == {}
      && st.agents[a].next == SHARD_COUNT
    case Abort(a) => a in st.agents && st.agents[a].BreakSwapped?
    case StopPump(a) => a in st.agents && st.agents[a].PumpIdle? && st.closed
  }

  function Others(notified: set<Waker>, a: AgentId): set<Waker> {
    set w | w in notified && w.task != a
  }

  /** Requests that have read `closed == false` and not yet inserted their slot. */
  function PastCheck(st: State): set<AgentId> {
    set b | b in st.agents && st.agents[b].ReqChecked?
  }

  function Move(st: State, a: AgentId, to: Agent): State {
    st.(agents := st.agents[a := to])
  }

  function WithSlot(st: State, s: SlotId, slot: Slot): State {
    st.(slots := st.slots[s := slot])
  }

  function MarkHeld(slots: map<SlotId, Slot>, taken: set<SlotId>, a: AgentId): map<SlotId, Slot> {
    map s | s in slots :: if s in taken then slots[s].(place := HeldBy(a)) else slots[s]
  }

  function Apply(st: State, step: Step): State
    requires Enabled(st, step)
  {
    match step
    case SpawnRequest(a, c) => Move(st, a, ReqStart(c))
    case SpawnBreak(a, d) => Move(st, a, BreakStart(d))
    case CheckOpen(a) => ApplyCheckOpen(st, a)
    case Insert(a, s) => ApplyInsert(st, a, s)
    case Send(a, ok, tag) => ApplySend(st, a, ok, tag)
    case Poll(a) => ApplyPoll(st, a)
    case Reschedule(a, tag) => ApplyReschedule(st, a, tag)
    case TimeOut(a) => Move(st, a, ReqFailing(st.agents[a].c, st.agents[a].slot, TimedOut))
    case Withdraw(a) => ApplyWithdraw(st, a)
    case DropFuture(a) => Move(st, a, ReqDropped(st.agents[a].c, st.agents[a].slot))
    case Receive(a, f) => Move(st, a, PumpGot(f))
    case TakeSlot(a) => ApplyTakeSlot(st, a)
    case PumpFill(a) => ApplyPumpFill(st, a)
    case PumpCallWake(a) => Move(st, a, PumpIdle).(notified := st.notified + {st.agents[a].wakes})
    case PumpError(a, d) => Move(st, a, BreakStart(d))
    case Swap(a) => ApplySwap(st, a)
    case RecordError(a) => ApplyRecordError(st, a)
    case TakeShard(a) => ApplyTakeShard(st, a)
    case DrainFill(a, s) => ApplyDrainFill(st, a, s)
    case DrainCallWake(a) =>
      Move(st, a, BreakDrain(st.agents[a].detail, st.agents[a].next, st.agents[a].pending))
        .(notified := st.notified + {st.agents[a].wakes})
    case Finish(a) => Move(st, a, BreakDone)
    case Abort(a) => Move(st, a, BreakAborted)
    case StopPump(a) => Move(st, a, PumpStopped)
  }

  function ApplyCheckOpen(st: State, a: AgentId): State
    requires Enabled(st, CheckOpen(a))
  {
    var c := st.agents[a].c;
    Move(st, a, if st.closed then ReqDone(c, Failed(ChannelClosed)) else ReqChecked(c))
  }

  function ApplyInsert(st: State, a: AgentId, s: SlotId): State
    requires Enabled(st, Insert(a, s))
  {
    var c := st.agents[a].c;
    var slot := Slot(None, None, false, c, a, InTable, [], None, ShardOf(c) < st.emptied);
    WithSlot(Move(st, a, ReqInserted(c, s)), s, slot).(shards := TableInsert(st.shards, c, s))
  }

  /** A failed send means the writer pump's receiver is gone. */
  function ApplySend(st: State, a: AgentId, ok: bool, tag: nat): State
    requires Enabled(st, Send(a, ok, tag))
  {
    var pc := st.agents[a];
    Move(st, a, if ok then ReqPolling(pc.c, pc.slot, Waker(a, tag)) else ReqFailing(pc.c, pc.slot, ChannelClosed))
  }

  function ApplyPoll(st: State, a: AgentId): State
    requires Enabled(st, Poll(a))
  {
    var pc := st.agents[a];
    var slot := st.slots[pc.slot];
    if slot.done then
      var taken := if slot.result.Some? then slot.result.value else Failed(NoResult);
      WithSlot(Move(st, a, AfterPoll(pc.c, pc.slot, taken)), pc.slot, slot.(result := None))
    else
      WithSlot(Move(st, a, ReqParked(pc.c, pc.slot, pc.cx)), pc.slot,
               if slot.waker == Some(pc.cx) then slot else slot.(waker := Some(pc.cx)))
  }

  /** The executor runs the task again, consuming the notifications addressed to it. */
  function ApplyReschedule(st: State, a: AgentId, tag: nat): State
    requires Enabled(st, Reschedule(a, tag))
  {
    var pc := st.agents[a];
    Move(st, a, ReqPolling(pc.c, pc.slot, Waker(a, tag)))
      .(notified := Others(st.notified, a))
  }

  function ApplyWithdraw(st: State, a: AgentId): State
    requires Enabled(st, Withdraw(a))
  {
    var pc := st.agents[a];
    var slot := st.slots[pc.slot];
    WithSlot(Move(st, a, ReqDone(pc.c, Failed(pc.error))), pc.slot,
             if slot.place == InTable then slot.(place := Withdrawn) else slot)
      .(shards := TableRemove(st.shards, pc.c))
  }

  function ApplyTakeSlot(st: State, a: AgentId): State
    requires Enabled(st, TakeSlot(a))
  {
    var f := st.agents[a].frame;
    match Lookup(st.shards, f.corr)
    case None => Move(st, a, PumpIdle)
    case Some(s) =>
      Move(st, a, PumpHold(s, f))
        .(shards := TableRemove(st.shards, f.corr), slots := MarkHeld(st.slots, {s}, a))
  }

  function ApplyPumpFill(st: State, a: AgentId): State
    requires Enabled(st, PumpFill(a))
  {
    var pc := st.agents[a];
    var slot := st.slots[pc.held];
    var to := match TakenWaker(slot) case None => PumpIdle case Some(w) => PumpWake(w);
    WithSlot(Move(st, a, to), pc.held, FillSlot(slot, Reply(pc.frame), a))
  }

  function ApplySwap(st: State, a: AgentId): State
    requires Enabled(st, Swap(a))
  {
    var d := st.agents[a].detail;
    var st' := Move(st, a, BreakSwapped(d, !st.closed));
    if st.closed then st'
    else st'.(closed := true, winner := Some(a), broken := d,
              atSwap := PastCheck(st))
  }

  function ApplyRecordError(st: State, a: AgentId): State
    requires Enabled(st, RecordError(a))
  {
    var pc := st.agents[a];
    Move(st, a, if pc.won then BreakDrain(pc.detail, 0, {}) else BreakDone).(lastError := Some(pc.detail))
  }

  function ApplyTakeShard(st: State, a: AgentId): State
    requires Enabled(st, TakeShard(a))
  {
    var pc := st.agents[a];
    var taken := SlotsOf(st.shards[pc.next]);
    Move(st, a, BreakDrain(pc.detail, pc.next + 1, taken))
      .(shards := st.shards[pc.next := map[]], slots := MarkHeld(st.slots, taken, a),
        emptied := pc.next + 1, drained := st.drained + taken)
  }

  function ApplyDrainFill(st: State, a: AgentId, s: SlotId): State
    requires Enabled(st, DrainFill(a, s))
  {
    var pc := st.agents[a];
    var slot := st.slots[s];
    var rest := pc.pending - {s};
    var to := match TakenWaker(slot)
      case None => BreakDrain(pc.detail, pc.next, rest)
      case Some(w) => BreakWake(pc.detail, pc.next, rest, w);
    WithSlot(Move(st, a, to), s, FillSlot(slot, Failed(ConnectionLost(pc.detail)), a))
  }

  function EmptyShards(n: nat): (shards: Shards)
    ensures |shards| == n && forall k :: 0 <= k < n ==> shards[k] == map[]
  {
    if n == 0 then [] else EmptyShards(n - 1) + [map[]]
  }

  /** A connected channel: no slots, the response pump running as agent 0. */
  function Init(): State {
    State(EmptyShards(SHARD_COUNT), map[], map[0 := PumpIdle], false, {}, None, None, "", 0, {}, {})
  }

  /** The state that a run leads to; None when some step of it is not enabled. */
  function After(run: seq<Step>): Option<State> {
    if run == [] then Some(Init())
    else
      match After(run[..|run| - 1])
      case None => None
      case Some(st) => var step := run[|run| - 1]; if Enabled(st, step) then Some(Apply(st, step)) else None
  }

  lemma Extend(run: seq<Step>, step: Step)
    requires After(run).Some? && Enabled(After(run).value, step)
    ensures After(run + [step]) == Some(Apply(After(run).value, step))
  {
    assert (run + [step])[..|run + [step]| - 1] == run;
  }
}
