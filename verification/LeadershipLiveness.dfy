/** What the leadership protocol can always still do, and how its loops end. */
module LeadershipLiveness {
  import opened Bytes
  import opened Leadership
  import opened LeadershipProofs
  import opened LeadershipTheorems

  // ---- invariants about loops that are not stopped ----

  /** A context is cancelled only for a stopped loop, and what only a cancelled context leads to is, too. */
  predicate LoopSane(s: State, l: Loop) {
    && (l.cancelled ==> l.stop)
    && (l.pc.Rejected? || l.pc.Transferring? || l.pc == Leaving(true) ==> l.stop)
    && (l.pc.AtBarrier? ==> l.pc.issued <= s.lastLed)
  }

  ghost predicate Sane(s: State) {
    && (forall id: nat :: id in s.loops ==> LoopSane(s, s.loops[id]))
    && (s.role.Some? ==> s.role.value == s.lastLed && s.lastLed in s.led)
  }

  lemma RaftKeepsSane(s: State, e: RaftEvent)
    requires Sane(s)
    ensures Sane(RaftStep(s, e))
  {
    hide BarrierHolds;
    var s' := RaftStep(s, e);
    assert s'.loops == s.loops && s'.lastLed >= s.lastLed;
  }

  /** The loop is untouched, told to stop, or just started at its barrier. */
  predicate OnlyStops(s: State, s': State, id: nat) {
    && s'.role == s.role && s.nextLoop <= s'.nextLoop && (id in s.loops ==> id in s'.loops)
    && (id in s'.loops ==>
          || (id in s.loops && (s'.loops[id] == s.loops[id] || s'.loops[id] == s.loops[id].(stop := true)))
          || (id == s.nextLoop < s'.nextLoop && s'.loops[id] == Loop(AtBarrier(s.lastLed), false, false)))
  }

  lemma MonitorOnlyStops(s: State, e: MonitorEvent, id: nat)
    ensures OnlyStops(s, MonitorStep(s, e), id)
  {
    if e.TakeNotice? {
      NoticeOnlyStops(s, id);
      hide MonitorStep;
    }
  }

  lemma NoticeOnlyStops(s: State, id: nat)
    ensures OnlyStops(s, MonitorStep(s, TakeNotice), id)
  {
    if s.queue != [] && s.queue[0].Gain? {
    }
  }

  lemma MonitorKeepsSane(s: State, e: MonitorEvent)
    requires Sane(s)
    ensures Sane(MonitorStep(s, e))
  {
    hide MonitorStep;
    var s' := MonitorStep(s, e);
    MonitorFrame(s, e);
    MonitorOnlyStops(s, e, 0);
    forall id: nat | id in s'.loops ensures LoopSane(s', s'.loops[id]) {
      MonitorOnlyStops(s, e, id);
      assert id in s.loops ==> LoopSane(s, s.loops[id]);
    }
  }

  lemma LoopKeepsSane(s: State, id: nat, e: LoopEvent)
    requires Sane(s)
    ensures Sane(LoopStep(s, id, e))
  {
    var s' := LoopStep(s, id, e);
    LoopFrame(s, id, e);
    if id in s.loops {
      OwnStepSane(s, id, e);
    }
    hide LoopStep;
    forall x: nat | x in s'.loops ensures LoopSane(s', s'.loops[x]) {
      assert LoopSane(s, s.loops[x]);
    }
  }

  lemma OwnStepSane(s: State, id: nat, e: LoopEvent)
    requires id in s.loops && LoopSane(s, s.loops[id])
    ensures LoopSane(LoopStep(s, id, e), LoopStep(s, id, e).loops[id])
  {
    hide BarrierHolds;
  }

  lemma StepKeepsSane(s: State, e: Event)
    requires Sane(s)
    ensures Sane(Step(s, e))
  {
    match e {
      case Raft(r) => RaftKeepsSane(s, r);
      case Mon(m) => MonitorKeepsSane(s, m);
      case InLoop(id, l) => LoopKeepsSane(s, id, l);
      case Reading(r) =>
        var s' := ReadStep(s, r);
        assert s'.loops == s.loops && s'.role == s.role && s'.lastLed == s.lastLed && s'.led == s.led;
        forall x: nat | x in s'.loops ensures LoopSane(s', s'.loops[x]) {
          assert LoopSane(s, s.loops[x]);
        }
    }
  }

  lemma {:induction false} RunKeepsSane(s: State, events: seq<Event>)
    requires Sane(s)
    ensures Sane(Run(s, events))
    decreases |events|
  {
    hide Sane, Step;
    if events == [] {
    } else {
      StepKeepsSane(s, events[0]);
      RunKeepsSane(Step(s, events[0]), events[1..]);
    }
  }

  lemma ReachableSane(events: seq<Event>)
    ensures Sane(Run(INIT, events)) && Inv(Run(INIT, events))
  {
    RunKeepsSane(INIT, events);
    ReachableInv(events);
  }

  // ---- how a loop ends ----

  /** The loop is on its way out or gone although nobody stopped it. */
  predicate EndedUnasked(s: State, id: nat) {
    id in s.loops && !s.loops[id].stop && (s.loops[id].pc.Leaving? || s.loops[id].pc.Gone?)
  }

  lemma ReadLeavesLoops(s: State, r: ReadEvent)
    ensures ReadStep(s, r).loops == s.loops && ReadStep(s, r).nextLoop == s.nextLoop
  {
  }

  lemma EndInMonitor(s: State, e: MonitorEvent, id: nat)
    ensures EndedUnasked(MonitorStep(s, e), id) ==> EndedUnasked(s, id)
  {
  }

  lemma EndInLoop(s: State, x: nat, e: LoopEvent, id: nat)
    requires Sane(s)
    ensures EndedUnasked(LoopStep(s, x, e), id) ==> EndedUnasked(s, id) || (x == id && e == BarrierLost)
  {
    hide BarrierHolds;
    assert id in s.loops ==> LoopSane(s, s.loops[id]);
  }

  lemma EndStep(s: State, e: Event, id: nat)
    requires Sane(s)
    ensures EndedUnasked(Step(s, e), id) ==> EndedUnasked(s, id) || e == InLoop(id, BarrierLost)
  {
    hide RaftStep, MonitorStep, LoopStep, ReadStep;
    match e {
      case Raft(r) => RaftLeavesLoops(s, r);
      case Mon(m) => EndInMonitor(s, m, id);
      case Reading(r) => ReadLeavesLoops(s, r);
      case InLoop(x, l) => EndInLoop(s, x, l, id);
    }
  }

  lemma {:induction false} EndRun(s: State, events: seq<Event>, id: nat)
    requires Sane(s) && !EndedUnasked(s, id) && EndedUnasked(Run(s, events), id)
    ensures InLoop(id, BarrierLost) in events
    decreases |events|
  {
    hide Sane, Step, EndedUnasked;
    if events == [] {
      assert false;
    } else {
      var s1 := Step(s, events[0]);
      assert events == [events[0]] + events[1..];
      StepKeepsSane(s, events[0]);
      if EndedUnasked(s1, id) {
        EndStep(s, events[0], id);
      } else {
        EndRun(s1, events[1..], id);
      }
    }
  }

  /** In every run, a loop that ended without being stopped left because its barrier reported lost leadership. */
  lemma OnlyLostBarrierEnds(events: seq<Event>, id: nat)
    requires EndedUnasked(Run(INIT, events), id)
    ensures InLoop(id, BarrierLost) in events
  {
    EndRun(INIT, events, id);
  }

  /** The loop is running: it has not begun to leave. */
  predicate Running(s: State, id: nat) {
    id in s.loops && !s.loops[id].pc.Leaving? && !s.loops[id].pc.Gone?
  }

  /** What makes a loop return at the point where it stands. */
  predicate Returns(l: Loop, e: LoopEvent) {
    || (l.pc.AtBarrier? && e == BarrierLost)
    || (l.pc.Transferring? && e == TransferOk)
    || (l.pc.Polling? && e == Poll && l.stop)
    || (l.pc.Backoff? && e == StopInBackoff && l.stop)
    || (l.pc.Serving? && e == SeeStop && l.stop)
  }

  lemma OwnReturn(s: State, id: nat, e: LoopEvent)
    requires Running(s, id)
    ensures
      var s' := LoopStep(s, id, e);
      && (Returns(s.loops[id], e) <==> !Running(s', id))
      && (!Running(s', id) ==> s'.loops[id].pc == Leaving(s.loops[id].pc.Serving?) && s'.flag == s.flag)
  {
    hide BarrierHolds;
  }

  lemma OthersKeepRunning(s: State, id: nat, e: Event)
    requires Running(s, id) && !(e.InLoop? && e.id == id)
    ensures Running(Step(s, e), id)
  {
    hide RaftStep, MonitorStep, LoopStep, ReadStep;
    match e {
      case Raft(r) => RaftLeavesLoops(s, r);
      case Mon(m) => MonitorOnlyStops(s, m, id);
      case Reading(r) => ReadLeavesLoops(s, r);
      case InLoop(x, l) => LoopFrame(s, x, l);
    }
  }

  /**
   A running loop begins to leave exactly at one of five returns; the deferred revocation is still to run exactly if
   it had established leadership.
   */
  lemma LeavesExactly(s: State, id: nat, e: Event)
    requires Running(s, id)
    ensures
      var s' := Step(s, e);
      && (e.InLoop? && e.id == id && Returns(s.loops[id], e.loop) <==> !Running(s', id))
      && (!Running(s', id) ==> s'.loops[id].pc == Leaving(s.loops[id].pc.Serving?) && s'.flag == s.flag)
  {
    hide Running, Returns, RaftStep, MonitorStep, LoopStep, ReadStep;
    if e.InLoop? && e.id == id {
      OwnReturn(s, id, e.loop);
    } else {
      OthersKeepRunning(s, id, e);
    }
  }

  // ---- a cancelled context ----

  /** The context is cancelled and the loop has not passed its check of it. */
  predicate Doomed(s: State, id: nat) {
    && id in s.loops && s.loops[id].cancelled
    && !s.loops[id].pc.Cleared? && !s.loops[id].pc.Serving? && s.loops[id].pc != Leaving(true)
  }

  lemma DoomedLoop(s: State, x: nat, l: LoopEvent, id: nat)
    requires Doomed(s, id)
    ensures Doomed(LoopStep(s, x, l), id)
  {
    hide BarrierHolds;
  }

  lemma DoomedStep(s: State, e: Event, id: nat)
    requires Doomed(s, id) && id < s.nextLoop
    ensures Doomed(Step(s, e), id) && id < Step(s, e).nextLoop
  {
    match e {
      case Raft(r) =>
        RaftLeavesLoops(s, r);
        assert RaftStep(s, r).nextLoop == s.nextLoop;
      case Mon(m) =>
        MonitorOnlyStops(s, m, id);
        hide MonitorStep;
      case Reading(r) => ReadLeavesLoops(s, r);
      case InLoop(x, l) =>
        LoopFrame(s, x, l);
        DoomedLoop(s, x, l, id);
        hide LoopStep;
    }
  }

  /** A loop whose context is cancelled before the check never establishes leadership, whatever happens. */
  lemma {:induction false} CancelledNeverEstablishes(s: State, events: seq<Event>, id: nat)
    requires Inv(s) && Doomed(s, id)
    ensures Doomed(Run(s, events), id)
    decreases |events|
  {
    assert id < s.nextLoop;
    hide Inv, Step, Doomed;
    if events == [] {
    } else {
      DoomedStep(s, events[0], id);
      StepKeepsInv(s, events[0]);
      CancelledNeverEstablishes(Step(s, events[0]), events[1..], id);
    }
  }

  lemma OwnStep(s: State, id: nat, e: LoopEvent, pc: LoopPc)
    requires id in s.loops && !e.CancelContext? && LoopCan(s, s.loops[id], e) && NextPc(s, s.loops[id], e) == pc
    requires !e.SetReady?
    ensures Step(s, InLoop(id, e))
         == s.(loops := s.loops[id := s.loops[id].(pc := pc)], flag := s.flag && !e.Revoke?)
  {
    hide LoopCan, NextPc;
  }

  /**
   A loop stopped between its barrier and the check of its context: once the context is cancelled the check rejects,
   the flag is revoked, and after the attempt to hand leadership over the loop returns or, if that fails, polls.
   */
  lemma CancelledGoesBack(s: State, id: nat)
    requires id in s.loops && s.loops[id].stop && s.loops[id].pc.PastBarrier?
    ensures
      var s1 := Step(Step(Step(s, InLoop(id, CancelContext)), InLoop(id, CheckContext)), InLoop(id, Revoke));
      && s1 == s.(flag := false, loops := s.loops[id := Loop(Transferring, true, true)])
      && Step(s1, InLoop(id, TransferOk)).loops[id].pc == Leaving(false)
      && Step(s1, InLoop(id, TransferFailed)).loops[id].pc == Polling
  {
    var l := s.loops[id];
    var s1 := s.(loops := s.loops[id := l.(cancelled := true)]);
    assert Step(s, InLoop(id, CancelContext)) == s1;
    hide Step, BarrierHolds;
    OwnStep(s1, id, CheckContext, Rejected);
    var s2 := s.(loops := s.loops[id := l.(pc := Rejected, cancelled := true)]);
    assert s1.loops[id := s1.loops[id].(pc := Rejected)] == s2.loops;
    OwnStep(s2, id, Revoke, Transferring);
    var s3 := s.(flag := false, loops := s.loops[id := Loop(Transferring, true, true)]);
    assert s2.loops[id := s2.loops[id].(pc := Transferring)] == s3.loops;
    OwnStep(s3, id, TransferOk, Leaving(false));
    OwnStep(s3, id, TransferFailed, Polling);
  }

  // ---- a leader can always become ready ----

  /** Only the loop's own steps and Raft's replication and application. */
  predicate Unforced(e: Event, id: nat) {
    || (e.InLoop? && e.id == id)
    || (e.Raft? && (e.raft.Commit? || e.raft.Dispatch? || e.raft.Apply?))
  }

  predicate AllUnforced(events: seq<Event>, id: nat) {
    forall i :: 0 <= i < |events| ==> Unforced(events[i], id)
  }

  lemma {:induction false} Dispatches(s: State, id: nat) returns (events: seq<Event>)
    requires s.dispatched <= |s.committed|
    ensures AllUnforced(events, id) && Run(s, events) == s.(dispatched := |s.committed|)
    decreases |s.committed| - s.dispatched
  {
    if s.dispatched == |s.committed| {
      events := [];
    } else {
      var s1 := s.(dispatched := s.dispatched + 1);
      assert Step(s, Raft(Dispatch)) == s1;
      var rest := Dispatches(s1, id);
      events := [Raft(Dispatch)] + rest;
      assert events[1..] == rest;
    }
  }

  lemma {:induction false} Applies(s: State, id: nat) returns (events: seq<Event>)
    requires s.applied <= s.dispatched
    ensures AllUnforced(events, id) && Run(s, events) == s.(applied := s.dispatched)
    decreases s.dispatched - s.applied
  {
    if s.applied == s.dispatched {
      events := [];
    } else {
      var s1 := s.(applied := s.applied + 1);
      assert Step(s, Raft(Apply)) == s1;
      var rest := Applies(s1, id);
      events := [Raft(Apply)] + rest;
      assert events[1..] == rest;
    }
  }

  /** Replication catches up, and an entry of the node's own term, or a later one, is committed. */
  lemma CatchesUp(s: State, id: nat) returns (events: seq<Event>)
    requires RaftInv(s) && s.role.Some? && s.role.value in s.led
    ensures AllUnforced(events, id)
    ensures
      var s' := Run(s, events);
      && s' == s.(committed := s'.committed, dispatched := s'.dispatched, applied := s'.applied)
      && BarrierHolds(s', s.role.value)
  {
    var t := s.role.value;
    var s1 := Step(s, Raft(Commit(t)));
    assert s1 == s.(committed := s1.committed) && s1.dispatched <= |s1.committed|;
    assert s1.committed != [] && s1.committed[|s1.committed| - 1] >= t;
    var d := Dispatches(s1, id);
    var s2 := s1.(dispatched := |s1.committed|);
    var a := Applies(s2, id);
    hide Step;
    events := [Raft(Commit(t))] + (d + a);
    assert events[1..] == d + a;
    RunConcat(s1, d, a);
  }

  /** From its barrier on, nothing keeps the loop of a leader from establishing leadership. */
  lemma FromBarrier(s: State, id: nat) returns (events: seq<Event>)
    requires Inv(s) && Sane(s) && Live(s, id) && !s.loops[id].stop && s.role.Some? && s.loops[id].pc.AtBarrier?
    ensures AllUnforced(events, id) && Run(s, events).flag
  {
    var t := s.role.value;
    assert LoopSane(s, s.loops[id]);
    var up := CatchesUp(s, id);
    var s1 := Run(s, up);
    var l := s.loops[id];
    var s2 := s1.(loops := s1.loops[id := l.(pc := PastBarrier(t))]);
    assert Step(s1, InLoop(id, BarrierDone(t))) == s2;
    var s3 := s2.(loops := s2.loops[id := l.(pc := Cleared(t))]);
    assert Step(s2, InLoop(id, CheckContext)) == s3;
    assert Step(s3, InLoop(id, SetReady)).flag;
    hide Step, Inv, Sane, BarrierHolds;
    var own := [InLoop(id, BarrierDone(t)), InLoop(id, CheckContext), InLoop(id, SetReady)];
    LoopRunThree(s1, own[0], own[1], own[2]);
    events := up + own;
    RunConcat(s, up, own);
  }

  lemma LoopRunThree(s: State, a: Event, b: Event, c: Event)
    ensures Run(s, [a, b, c]) == Step(Step(Step(s, a), b), c)
  {
    hide Step;
    assert [a, b, c][1..] == [b, c] && [b, c][1..] == [c] && [c][1..] == [];
    var s1 := Step(s, a);
    var s2 := Step(s1, b);
    assert Run(s2, [c]) == Run(Step(s2, c), []);
    assert Run(s1, [b, c]) == Run(s2, [c]);
  }

  lemma Before(s: State, e: Event, rest: seq<Event>) returns (events: seq<Event>)
    ensures events == [e] + rest && Run(s, events) == Run(Step(s, e), rest)
  {
    hide Step;
    events := [e] + rest;
    assert events[1..] == rest;
  }

  /**
   From every reachable state in which the node leads and its loop is neither stopped nor leaving, the flag can still
   be set, by that loop's own steps and ordinary replication alone. In particular a barrier that failed is retried.
   */
  lemma {:induction false} BecomesReady(s: State, id: nat) returns (events: seq<Event>)
    requires Inv(s) && Sane(s) && Live(s, id) && !s.loops[id].stop && !s.loops[id].pc.Leaving? && s.role.Some?
    ensures AllUnforced(events, id) && Run(s, events).flag
    decreases match s.loops[id].pc case Polling => 2 case Backoff => 1 case _ => 0
  {
    var l := s.loops[id];
    assert LoopSane(s, l);
    match l.pc {
      case AtBarrier(_) => events := FromBarrier(s, id);
      case PastBarrier(t) =>
        var s1 := Step(s, InLoop(id, CheckContext));
        assert s1 == s.(loops := s.loops[id := l.(pc := Cleared(t))]);
        var s2 := Step(s1, InLoop(id, SetReady));
        assert s2.flag;
        hide Step;
        var rest := Before(s1, InLoop(id, SetReady), []);
        events := Before(s, InLoop(id, CheckContext), rest);
      case Cleared(_) =>
        assert Step(s, InLoop(id, SetReady)).flag;
        events := Before(s, InLoop(id, SetReady), []);
      case Polling => events := StepFirst(s, id, Poll);
      case Backoff => events := StepFirst(s, id, Retry);
      case Serving(_) =>
        assert s.flag;
        events := [];
    }
  }

  /** One step of the waiting loop, and on from there. */
  lemma {:induction false} StepFirst(s: State, id: nat, e: LoopEvent) returns (events: seq<Event>)
    requires Inv(s) && Sane(s) && Live(s, id) && !s.loops[id].stop && s.role.Some?
    requires (s.loops[id].pc == Polling && e == Poll) || (s.loops[id].pc == Backoff && e == Retry)
    ensures AllUnforced(events, id) && Run(s, events).flag
    decreases match s.loops[id].pc case Polling => 2 case Backoff => 1 case _ => 0, 0
  {
    var s1 := Step(s, InLoop(id, e));
    var pc := if e == Poll then Backoff else AtBarrier(s.lastLed);
    assert s1 == s.(loops := s.loops[id := s.loops[id].(pc := pc)]);
    StepKeepsInv(s, InLoop(id, e));
    StepKeepsSane(s, InLoop(id, e));
    hide Step, Inv, Sane;
    var rest := BecomesReady(s1, id);
    events := Before(s, InLoop(id, e), rest);
  }

  // ---- the monitor always gets on ----

  /** Nothing but the loops, the flag and the monitor's own variables has changed. */
  predicate Inward(s: State, s': State) {
    s' == s.(loops := s'.loops, nextLoop := s'.nextLoop, flag := s'.flag, flagTerm := s'.flagTerm,
      monitor := s'.monitor,
             cancel := s'.cancel, queue := s'.queue, consumed := s'.consumed)
  }

  /** Only steps of the monitor and of loops. */
  predicate AllInward(events: seq<Event>) {
    forall i :: 0 <= i < |events| ==> events[i].Mon? || events[i].InLoop?
  }

  lemma Join2(s: State, a: seq<Event>, b: seq<Event>) returns (events: seq<Event>)
    requires AllInward(a) && AllInward(b)
    ensures events == a + b && AllInward(events) && Run(s, events) == Run(Run(s, a), b)
  {
    events := a + b;
    RunConcat(s, a, b);
  }

  /** A stopped loop runs to its end. */
  lemma {:induction false} RunsOut(s: State, id: nat) returns (events: seq<Event>)
    requires Inv(s) && id in s.loops && s.loops[id].stop
    ensures AllInward(events)
    ensures
      var s' := Run(s, events);
      && Inv(s') && s' == s.(loops := s'.loops, flag := s'.flag, flagTerm := s'.flagTerm)
      && id in s'.loops && s'.loops[id].stop && s'.loops[id].pc.Gone?
    decreases Rank(s.loops[id].pc)
  {
    if s.loops[id].pc.Gone? {
      events := [];
    } else {
      var e := StoppedCanStep(s, s.loops[id]);
      StoppedStep(s, id, e);
      LoopFrame(s, id, e);
      StepKeepsInv(s, InLoop(id, e));
      hide Inv, LoopStep, LoopCan;
      var s1 := Step(s, InLoop(id, e));
      var rest := RunsOut(s1, id);
      events := Before(s, InLoop(id, e), rest);
    }
  }

  /** The monitor's wait for its loop comes to an end. */
  lemma WaitReturns(s: State) returns (events: seq<Event>)
    requires Inv(s) && s.monitor.Draining?
    ensures AllInward(events)
    ensures
      var s' := Run(s, events);
      && Inv(s') && Inward(s, s') && s'.queue == s.queue && s'.consumed == s.consumed
      && (if s.monitor.exit then s'.monitor == Exited else s'.monitor == Watching && s'.cancel == None)
  {
    var id := s.cancel.value;
    var run := RunsOut(s, id);
    var s1 := Run(s, run);
    StepKeepsInv(s1, Mon(Drained));
    var s2 := Step(s1, Mon(Drained));
    assert s2 == if s.monitor.exit then s1.(monitor := Exited) else s1.(monitor := Watching, cancel := None);
    hide Inv, Step;
    var last := Before(s1, Mon(Drained), []);
    events := Join2(s, run, last);
  }

  /** The next notification is handled: a gain starts a loop at its barrier, a loss leaves none. */
  lemma NoticeHandled(s: State) returns (events: seq<Event>)
    requires Inv(s) && s.monitor == Watching && s.queue != []
    ensures AllInward(events)
    ensures
      var s' := Run(s, events);
      && Inv(s') && Inward(s, s') && s'.monitor == Watching && s'.queue == s.queue[1..]
      && match s.queue[0]
         case Loss(_) => s'.cancel == None
         case Gain(t) =>
           && s'.consumed == t && s'.cancel.Some? && s'.cancel.value in s'.loops
           && s'.loops[s'.cancel.value] == Loop(AtBarrier(s.lastLed), false, false)
  {
    StepKeepsInv(s, Mon(TakeNotice));
    var s1 := Step(s, Mon(TakeNotice));
    NoticeTaken(s);
    if s.queue[0].Gain? {
      hide Inv, Step;
      events := Before(s, Mon(TakeNotice), []);
    } else {
      hide Inv, Step;
      var rest := WaitReturns(s1);
      events := Before(s, Mon(TakeNotice), rest);
    }
  }

  lemma NoticeTaken(s: State)
    requires Inv(s) && s.monitor == Watching && s.queue != []
    ensures
      var s1 := MonitorStep(s, TakeNotice);
      && Inward(s, s1) && s1.queue == s.queue[1..]
      && match s.queue[0]
         case Loss(_) => s1.monitor == Draining(false)
         case Gain(t) =>
           && s1.monitor == Watching && s1.consumed == t && s1.cancel == Some(s.nextLoop) && s.nextLoop in s1.loops
           && s1.loops[s.nextLoop] == Loop(AtBarrier(s.lastLed), false, false)
  {
    hide RaftInv, FlagInv, ReadInv;
    assert Alternates(s.queue, ExpectsGain(s), s.role.Some?);
  }

  lemma {:induction false} QueueDrains(s: State) returns (events: seq<Event>)
    requires Inv(s) && s.monitor == Watching
    ensures AllInward(events)
    ensures
      var s' := Run(s, events);
      Inv(s') && Inward(s, s') && s'.monitor == Watching && s'.queue == []
    decreases |s.queue|
  {
    hide Inv, Step;
    if s.queue == [] {
      events := [];
    } else {
      var first := NoticeHandled(s);
      var rest := QueueDrains(Run(s, first));
      events := Join2(s, first, rest);
    }
  }

  /** Once the node is shut down its monitor can always return, by its own steps and those of its loop. */
  lemma ShutdownCompletes(s: State) returns (events: seq<Event>)
    requires Inv(s) && s.shutdown
    ensures AllInward(events) && Run(s, events).monitor == Exited && !Run(s, events).flag
  {
    events := [];
    var s1 := s;
    if s.monitor == Draining(false) {
      events := WaitReturns(s);
      s1 := Run(s, events);
    }
    if s1.monitor == Watching {
      StepKeepsInv(s1, Mon(TakeShutdown));
      var one := Before(s1, Mon(TakeShutdown), []);
      events := Join2(s, events, one);
      s1 := Step(s1, Mon(TakeShutdown));
    }
    assert s1.monitor == Exited || s1.monitor == Draining(true);
    if s1.monitor == Draining(true) {
      var last := WaitReturns(s1);
      events := Join2(s, events, last);
      s1 := Run(s1, last);
    }
    HandledIsQuiet(s1);
  }

  lemma {:induction false} UnforcedKeeps(s: State, events: seq<Event>, id: nat)
    requires AllUnforced(events, id)
    ensures Run(s, events).role == s.role && Run(s, events).consumed == s.consumed
    decreases |events|
  {
    if events == [] {
    } else {
      assert Unforced(events[0], id);
      UnforcedStep(s, events[0], id);
      hide Step;
      assert AllUnforced(events[1..], id);
      UnforcedKeeps(Step(s, events[0]), events[1..], id);
    }
  }

  lemma UnforcedStep(s: State, e: Event, id: nat)
    requires Unforced(e, id)
    ensures Step(s, e).role == s.role && Step(s, e).consumed == s.consumed
  {
    hide BarrierHolds;
    if e.InLoop? {
      LoopFrame(s, id, e.loop);
      hide LoopStep;
    }
  }

  /** The node wins a fresh term and its loop becomes ready. */
  lemma WinsAndServes(s: State) returns (events: seq<Event>)
    requires Inv(s) && Sane(s) && s.monitor == Watching && s.queue == [] && s.role.None?
    ensures
      var s' := Run(s, events);
      s'.flag && s'.role.Some? && s'.consumed == s'.role.value
  {
    var t := s.clusterTerm + 1;
    var s1 := Step(s, Raft(Win(t)));
    assert s1.role == Some(t) && s1.queue == [Gain(t)] && s1.monitor == Watching && s1.lastLed == t;
    StepKeepsInv(s, Raft(Win(t)));
    StepKeepsSane(s, Raft(Win(t)));
    var notice := NoticeHandled(s1);
    var s2 := Run(s1, notice);
    RunKeepsSane(s1, notice);
    var id := s2.cancel.value;
    hide Inv, Sane, Step;
    var ready := BecomesReady(s2, id);
    UnforcedKeeps(s2, ready, id);
    RunConcat(s1, notice, ready);
    events := Before(s, Raft(Win(t)), notice + ready);
  }

  /**
   The protocol never gets stuck: from every reachable state of a node that is not shutting down there is a run to
   one in which it leads, its monitor knows, and it is ready for consistent reads.
   */
  lemma ReadyAgain(s: State) returns (events: seq<Event>)
    requires Inv(s) && Sane(s) && !Finishing(s)
    ensures
      var s' := Run(s, events);
      s'.flag && s'.role.Some? && s'.consumed == s'.role.value
  {
    events := [];
    var s1 := s;
    if s.monitor == Draining(false) {
      events := WaitReturns(s);
      s1 := Run(s, events);
    }
    assert Inv(s1) && s1.monitor == Watching;
    var drain := QueueDrains(s1);
    events := Join2(s, events, drain);
    s1 := Run(s1, drain);
    RunKeepsSane(s, events);
    hide Inv, Sane;
    if s1.role.Some? {
      var s2 := Step(s1, Raft(Lose));
      assert s2.role == None && s2.monitor == Watching;
      StepKeepsInv(s1, Raft(Lose));
      StepKeepsSane(s1, Raft(Lose));
      var again := QueueDrains(s2);
      RunKeepsSane(s2, again);
      var one := Before(s1, Raft(Lose), again);
      RunConcat(s, events, one);
      events := events + one;
      s1 := Run(s2, again);
    }
    var rest := WinsAndServes(s1);
    RunConcat(s, events, rest);
    events := events + rest;
  }
}
