/**
 The leadership monitor, the leader loop and linearizable reads of one node, as interleaved steps.

 Raft itself is an environment: terms are won and lost, entries are committed and applied, writes are
 acknowledged. The code under study takes its own steps in between, one shared access at a time.
 */
module Leadership {
  import opened Bytes

  const NOTIFY_BUFFER: nat := 100

  /** What raft pushes on NotifyCh; the term is not part of the message, it is there for the statements. */
  datatype Notice = Gain(term: nat) | Loss(term: nat)

  /** Where a leaderLoop goroutine stands. A term is that of the barrier which succeeded. */
  datatype LoopPc =
    | AtBarrier(issued: nat)  // waiting for Barrier, called when the last term led was `issued`
    | PastBarrier(term: nat)  // establishLeadership is about to look at its context
    | Cleared(term: nat)      // context not cancelled, about to store 1
    | Rejected                // context cancelled, about to revoke
    | Transferring            // trying to hand leadership over
    | Polling                 // WAIT, first select
    | Backoff                 // WAIT, second select
    | Serving(term: nat)      // established, waiting on stopCh
    | Leaving(established: bool)  // deferred calls still to run
    | Gone

  datatype Loop = Loop(pc: LoopPc, stop: bool, cancelled: bool)

  /** monitorLeadership: in its select, waiting for the loop to end, or returned. */
  datatype Monitor = Watching | Draining(exit: bool) | Exited

  /**
   One consistent Query. `must` are the writes acknowledged before it began, `since` the cluster's term then.
   When the flag was seen, `told` says whether the gain notification of the verified term had been handled, and
   `near` whether the barrier behind the flag was of the verified term, a later one, or the one just before.
   */
  datatype Read =
    | NoRead
    | Begun(since: nat, must: set<nat>)
    | Confirmed(term: nat, must: set<nat>)
    | Ready(must: set<nat>, told: bool, near: bool)
    | Valued(must: set<nat>, told: bool, near: bool, at: nat)
    | Answered(must: set<nat>, told: bool, near: bool, at: nat, index: nat)
    | Refused

  datatype State = State(
    committed: seq<nat>,   // the cluster's committed log: the term of each entry
    acked: set<nat>,       // positions acknowledged to a client
    clusterTerm: nat,      // highest term that has elected a leader
    elected: set<nat>,     // terms won by other nodes
    role: Option<nat>,     // the term this node leads
    led: set<nat>,         // terms this node has led
    lastLed: nat,
    dispatched: nat,       // raft.AppliedIndex: entries handed to the state machine
    applied: nat,          // entries the state machine has applied
    queue: seq<Notice>,
    consumed: nat,         // term of the last gain notification handled
    monitor: Monitor,
    cancel: Option<nat>,   // leaderLoopCancel: the loop it belongs to
    loops: map<nat, Loop>,
    nextLoop: nat,
    flag: bool,            // readyForConsistentReads
    flagTerm: nat,         // term of the barrier behind the last Store(1)
    shutdown: bool,
    warned: bool,          // one of the [WARN] branches was taken
    read: Read)

  const INIT := State([], {}, 0, {}, None, {}, 0, 0, 0, [], 0, Watching, None, map[], 0, false, 0, false, false, NoRead)

  // ---- raft ----

  datatype RaftEvent = Elect(term: nat) | Win(term: nat) | Lose | Commit(term: nat) | Ack(at: nat) | Dispatch | Apply
    | Close

  /** Everything of an earlier term is applied, and nothing of an earlier term can still be committed. */
  predicate BarrierHolds(s: State, term: nat) {
    && s.committed != [] && s.committed[|s.committed| - 1] >= term
    && forall i :: 0 <= i < |s.committed| && s.committed[i] < term ==> i < s.applied
  }

  function Max(a: nat, b: nat): nat {
    if a < b then b else a
  }

  function RaftStep(s: State, e: RaftEvent): State {
    match e
    case Elect(t) =>
      if t !in s.led then s.(clusterTerm := Max(s.clusterTerm, t), elected := s.elected + {t}) else s
    case Win(t) =>
      // votes may arrive late: a later term may have been won elsewhere by now
      if s.role.None? && t > s.lastLed && t !in s.elected && |s.queue| < NOTIFY_BUFFER then
        s.(role := Some(t), led := s.led + {t}, lastLed := t, clusterTerm := Max(s.clusterTerm, t),
           queue := s.queue + [Gain(t)])
      else s
    case Lose =>
      if s.role.Some? && |s.queue| < NOTIFY_BUFFER then s.(role := None, queue := s.queue + [Loss(s.role.value)]) else s
    case Commit(t) =>
      if (t in s.led || t in s.elected) && (s.committed != [] ==> s.committed[|s.committed| - 1] <= t)
      then s.(committed := s.committed + [t]) else s
    case Ack(i) =>
      // a leader acknowledges an entry of its own term after its own state machine has applied it
      if i < |s.committed| && (s.committed[i] in s.led ==> i < s.applied) then s.(acked := s.acked + {i}) else s
    case Dispatch => if s.dispatched < |s.committed| then s.(dispatched := s.dispatched + 1) else s
    case Apply => if s.applied < s.dispatched then s.(applied := s.applied + 1) else s
    case Close => s.(shutdown := true)
  }

  // ---- monitorLeadership ----

  datatype MonitorEvent = TakeNotice | TakeShutdown | Drained

  function StopLoop(s: State, id: nat): State
    requires id in s.loops
  {
    s.(loops := s.loops[id := s.loops[id].(stop := true)])
  }

  function MonitorStep(s: State, e: MonitorEvent): State {
    match e
    case TakeNotice =>
      if s.monitor != Watching || s.queue == [] then s
      else
        var s1 := s.(queue := s.queue[1..]);
        (match s.queue[0]
         case Gain(t) =>
           var s2 := s1.(consumed := t);
           if s.cancel.Some? then s2.(warned := true)
           else s2.(cancel := Some(s.nextLoop), nextLoop := s.nextLoop + 1,
                    loops := s.loops[s.nextLoop := Loop(AtBarrier(s.lastLed), false, false)])
         case Loss(_) =>
           if s.cancel.None? || s.cancel.value !in s.loops then s1.(warned := true)
           else StopLoop(s1, s.cancel.value).(monitor := Draining(false)))
    case TakeShutdown =>
      if s.monitor != Watching || !s.shutdown then s
      else if s.cancel.Some? && s.cancel.value in s.loops then StopLoop(s, s.cancel.value).(monitor := Draining(true))
      else s.(monitor := Exited)
    case Drained =>
      if s.monitor.Draining? && s.cancel.Some? && s.cancel.value in s.loops && s.loops[s.cancel.value].pc.Gone? then
        if s.monitor.exit then s.(monitor := Exited) else s.(monitor := Watching, cancel := None)
      else s
  }

  // ---- leaderLoop ----

  datatype LoopEvent =
    | CancelContext | BarrierDone(term: nat) | BarrierLost | BarrierFailed | CheckContext | SetReady | Revoke
    | TransferOk | TransferFailed | Poll | StopInBackoff | Retry | SeeStop | Finish

  function LoopStep(s: State, id: nat, e: LoopEvent): State {
    if id !in s.loops then s else
    var l := s.loops[id];
    if e.CancelContext? then
      if l.stop then s.(loops := s.loops[id := l.(cancelled := true)]) else s
    else if !LoopCan(s, l, e) then s
    else
      var s1 := s.(loops := s.loops[id := l.(pc := NextPc(s, l, e))]);
      if e.SetReady? then s1.(flag := true, flagTerm := l.pc.term)
      else if e.Revoke? then s1.(flag := false)
      else s1
  }

  predicate LoopCan(s: State, l: Loop, e: LoopEvent) {
    match e
    case CancelContext => false
    case BarrierDone(t) => l.pc.AtBarrier? && t in s.led && t >= l.pc.issued && BarrierHolds(s, t)
    case BarrierLost => l.pc.AtBarrier?
    case BarrierFailed => l.pc.AtBarrier?
    case CheckContext => l.pc.PastBarrier?
    case SetReady => l.pc.Cleared?
    case Revoke => l.pc.Rejected? || l.pc == Leaving(true)
    case TransferOk => l.pc.Transferring?
    case TransferFailed => l.pc.Transferring?
    case Poll => l.pc.Polling?
    case StopInBackoff => l.pc.Backoff? && l.stop
    case Retry => l.pc.Backoff?
    case SeeStop => l.pc.Serving? && l.stop
    case Finish => l.pc == Leaving(false)
  }

  function NextPc(s: State, l: Loop, e: LoopEvent): LoopPc
    requires LoopCan(s, l, e)
  {
    match e
    case BarrierDone(t) => PastBarrier(t)
    case BarrierLost => Leaving(false)
    case BarrierFailed => Polling
    case CheckContext => if l.cancelled then Rejected else Cleared(l.pc.term)
    case SetReady => Serving(l.pc.term)
    case Revoke => if l.pc.Rejected? then Transferring else Leaving(false)
    case TransferOk => Leaving(false)
    case TransferFailed => Polling
    case Poll => if l.stop then Leaving(false) else Backoff
    case StopInBackoff => Leaving(false)
    case Retry => AtBarrier(s.lastLed)
    case SeeStop => Leaving(true)
    case Finish => Gone
  }

  // ---- Query with consistent = true ----

  datatype ReadEvent = BeginRead | VerifyOk(term: nat) | VerifyFail | SeeReady | GiveUp | ReadValue | ReadIndex

  function ReadStep(s: State, e: ReadEvent): State {
    match e
    case BeginRead => s.(read := Begun(s.clusterTerm, s.acked))
    case VerifyOk(t) =>
      // a quorum confirmed this node as leader of `t` after the read began: no later term had a leader then
      if s.read.Begun? && t in s.led && s.read.since <= t then s.(read := Confirmed(t, s.read.must)) else s
    case VerifyFail => if s.read.Begun? then s.(read := Refused) else s
    case SeeReady =>
      if s.read.Confirmed? && s.flag then
        s.(read := Ready(s.read.must, s.consumed >= s.read.term, s.flagTerm + 1 >= s.read.term))
      else s
    case GiveUp => if s.read.Confirmed? then s.(read := Refused) else s
    case ReadValue => if s.read.Ready? then s.(read := Valued(s.read.must, s.read.told, s.read.near, s.applied)) else s
    case ReadIndex =>
      if s.read.Valued? then s.(read := Answered(s.read.must, s.read.told, s.read.near, s.read.at, s.dispatched)) else s
  }

  // ---- runs ----

  datatype Event = Raft(raft: RaftEvent) | Mon(mon: MonitorEvent) | InLoop(id: nat, loop: LoopEvent)
    | Reading(reading: ReadEvent)

  function Step(s: State, e: Event): State {
    match e
    case Raft(r) => RaftStep(s, r)
    case Mon(m) => MonitorStep(s, m)
    case InLoop(id, l) => LoopStep(s, id, l)
    case Reading(r) => ReadStep(s, r)
  }

  function Run(s: State, events: seq<Event>): State
    decreases |events|
  {
    if events == [] then s else Run(Step(s, events[0]), events[1..])
  }

  /** The loop goroutines that have not returned. */
  predicate Live(s: State, id: nat) {
    id in s.loops && !s.loops[id].pc.Gone?
  }

  /** The loop has stored 1 and not yet stored 0. */
  predicate Established(l: Loop) {
    l.pc.Serving? || l.pc == Leaving(true)
  }
}
