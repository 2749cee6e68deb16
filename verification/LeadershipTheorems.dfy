/** The results about leadership and linearizable reads, over every interleaving. */
module LeadershipTheorems {
  import opened Bytes
  import opened Leadership
  import opened LeadershipProofs

  lemma ReachableInv(events: seq<Event>)
    ensures Inv(Run(INIT, events))
  {
    InitInv();
    RunKeepsInv(INIT, events);
  }

  /**
   Linearizable reads. A consistent Query returns a state containing every write acknowledged, by any leader, before
   it began, and reports an index of at least the commit index of each of those writes, if the barrier behind the
   flag it saw was of the verified term, a later one or the one just before. That is so whenever the gain
   notification of the verified term had been handled. StaleBeyond shows that the bound cannot be relaxed.
   */
  lemma LinearizableReads(events: seq<Event>)
    ensures
      var r := Run(INIT, events).read;
      r.Answered? ==> (r.told ==> r.near) && (r.near ==> forall i :: i in r.must ==> i < r.at && i + 1 <= r.index)
  {
    ReachableInv(events);
  }

  /** Without any condition, the reported index covers the state the value came from. */
  lemma ReportedIndexBound(events: seq<Event>)
    ensures var r := Run(INIT, events).read; r.Answered? ==> r.at <= r.index
  {
    ReachableInv(events);
  }

  /** At most one leaderLoop is live. */
  lemma OneLoop(events: seq<Event>, a: nat, b: nat)
    requires Live(Run(INIT, events), a) && Live(Run(INIT, events), b)
    ensures a == b
  {
    ReachableInv(events);
  }

  /**
   The flag is 1 exactly while the live loop has established leadership, after a barrier of its own, and not revoked it.
   */
  lemma ReadyExactlyWhileEstablished(events: seq<Event>)
    ensures
      var s := Run(INIT, events);
      && (s.flag <==> exists id: nat :: Live(s, id) && Established(s.loops[id]))
      && (s.flag ==> s.flagTerm in s.led && BarrierHolds(s, s.flagTerm))
  {
    var s := Run(INIT, events);
    ReachableInv(events);
    if s.flag {
      var id: nat :| Live(s, id);
      assert Established(s.loops[id]);
    }
  }

  /** A loss or a shutdown that has been fully handled. */
  predicate Handled(s: State) {
    s.monitor == Exited || (s.monitor == Watching && s.cancel.None?)
  }

  predicate NoneBelow(s: State, n: nat) {
    n <= s.nextLoop && forall id: nat :: id < n ==> !Live(s, id)
  }

  lemma HandledIsQuiet(s: State)
    requires Inv(s) && Handled(s)
    ensures !s.flag && NoneBelow(s, s.nextLoop) && forall id: nat :: !Live(s, id)
  {
    assert forall id: nat :: !Live(s, id);
  }

  lemma NoneBelowStep(s: State, e: Event, n: nat)
    requires NoneBelow(s, n)
    ensures NoneBelow(Step(s, e), n)
  {
    if e.InLoop? {
      LoopFrame(s, e.id, e.loop);
    } else if !e.Mon? {
      var s' := Step(s, e);
      assert s'.loops == s.loops && s'.nextLoop == s.nextLoop;
      assert forall id: nat :: Live(s', id) <==> Live(s, id);
    } else {
      MonitorSpawns(s, e.mon);
    }
  }

  lemma MonitorSpawns(s: State, e: MonitorEvent)
    ensures
      var s' := MonitorStep(s, e);
      s.nextLoop <= s'.nextLoop && forall id: nat :: Live(s', id) ==> Live(s, id) || id >= s.nextLoop
  {
    if !(e.TakeNotice? && s.monitor == Watching && s.queue != [] && s.queue[0].Gain?) {
      NoGainUnmoved(s, e);
    }
  }

  lemma {:induction false} NoneBelowRun(s: State, events: seq<Event>, n: nat)
    requires NoneBelow(s, n)
    ensures NoneBelow(Run(s, events), n)
    decreases |events|
  {
    hide NoneBelow, Step;
    if events == [] {
    } else {
      NoneBelowStep(s, events[0], n);
      NoneBelowRun(Step(s, events[0]), events[1..], n);
    }
  }

  /**
   Once a loss or shutdown has been handled, the flag is 0 and no loop is live; if the flag is ever 1 again, a
   later gain notification has started a new loop. This covers a stop signal racing with the store of 1.
   */
  lemma QuietUntilNextGain(before: seq<Event>, after: seq<Event>)
    requires Handled(Run(INIT, before))
    ensures
      var s, s' := Run(INIT, before), Run(Run(INIT, before), after);
      !s.flag && (forall id: nat :: !Live(s, id)) && (s'.flag ==> s'.nextLoop > s.nextLoop)
  {
    var s := Run(INIT, before);
    ReachableInv(before);
    HandledIsQuiet(s);
    NoneBelowRun(s, after, s.nextLoop);
    RunKeepsInv(s, after);
    var s' := Run(s, after);
    if s'.flag {
      var id: nat :| Live(s', id);
      assert id < s'.nextLoop;
    }
  }

  /** After the monitor has returned, the node never serves consistent reads again. */
  lemma {:induction false} ShutdownIsFinal(s: State, events: seq<Event>)
    requires Inv(s) && s.monitor == Exited
    ensures Run(s, events).monitor == Exited && !Run(s, events).flag
    decreases |events|
  {
    HandledIsQuiet(s);
    if events == [] {
    } else {
      StepKeepsInv(s, events[0]);
      assert Step(s, events[0]).monitor == Exited;
      ShutdownIsFinal(Step(s, events[0]), events[1..]);
    }
  }

  /** If the gain notification of term `t` has been handled and the flag is 1, its barrier is of a term >= t. */
  lemma FlagIsFresh(events: seq<Event>, t: nat)
    requires Run(INIT, events).flag && Run(INIT, events).consumed >= t
    ensures Run(INIT, events).flagTerm >= t
  {
    ReachableInv(events);
  }

  /** The "already running" and "not running" branches of the monitor are unreachable. */
  lemma NoWarnings(events: seq<Event>)
    ensures !Run(INIT, events).warned
  {
    ReachableInv(events);
  }

  // ---- a stopped loop ends ----

  function Rank(pc: LoopPc): nat {
    match pc
    case Backoff => 9
    case AtBarrier(_) => 8
    case PastBarrier(_) => 7
    case Cleared(_) => 6
    case Rejected => 6
    case Serving(_) => 5
    case Transferring => 5
    case Polling => 4
    case Leaving(established) => if established then 3 else 2
    case Gone => 0
  }

  lemma StoppedStep(s: State, id: nat, e: LoopEvent)
    requires id in s.loops && s.loops[id].stop && LoopCan(s, s.loops[id], e)
    ensures
      var l := LoopStep(s, id, e).loops[id];
      Rank(l.pc) < Rank(s.loops[id].pc) && l.stop
  {
    hide BarrierHolds;
  }

  lemma StoppedCanStep(s: State, l: Loop) returns (e: LoopEvent)
    requires l.stop && !l.pc.Gone?
    ensures LoopCan(s, l, e)
  {
    hide BarrierHolds;
    match l.pc {
      case AtBarrier(_) => e := BarrierLost;
      case PastBarrier(_) => e := CheckContext;
      case Cleared(_) => e := SetReady;
      case Rejected => e := Revoke;
      case Transferring => e := TransferOk;
      case Polling => e := Poll;
      case Backoff => e := Retry;
      case Serving(_) => e := SeeStop;
      case Leaving(established) => e := if established then Revoke else Finish;
    }
  }

  /**
   Once its stop channel is closed, every step of a loop brings it closer to its end and some step is always
   possible: the monitor's Wait returns after at most nine of them, retries included.
   */
  lemma StoppedLoopEnds(s: State, id: nat)
    requires Live(s, id) && s.loops[id].stop
    ensures exists e: LoopEvent :: LoopCan(s, s.loops[id], e)
    ensures forall e: LoopEvent :: LoopCan(s, s.loops[id], e) ==>
              Rank(LoopStep(s, id, e).loops[id].pc) < Rank(s.loops[id].pc) && LoopStep(s, id, e).loops[id].stop
  {
    var e := StoppedCanStep(s, s.loops[id]);
    hide LoopCan, LoopStep, Rank;
    forall e: LoopEvent | LoopCan(s, s.loops[id], e)
      ensures Rank(LoopStep(s, id, e).loops[id].pc) < Rank(s.loops[id].pc) && LoopStep(s, id, e).loops[id].stop
    {
      StoppedStep(s, id, e);
    }
  }

  // ---- the window before the notification is handled ----

  /** Another node is elected and gets a write acknowledged, then this node wins term `t`. */
  function Overtake(s: State, t: nat): seq<Event> {
    var c := s.clusterTerm;
    [Raft(Lose), Raft(Elect(c + 1)), Raft(Commit(c + 1)), Raft(Ack(|s.committed|)), Raft(Win(t))]
  }

  function ReadAt(term: nat): seq<Event> {
    [Reading(BeginRead), Reading(VerifyOk(term)), Reading(SeeReady), Reading(ReadValue), Reading(ReadIndex)]
  }

  function StaleEvents(s: State, t: nat): seq<Event> {
    Overtake(s, t) + ReadAt(t)
  }

  lemma {:induction false} RunConcat(s: State, a: seq<Event>, b: seq<Event>)
    ensures Run(s, a + b) == Run(Run(s, a), b)
    decreases |a|
  {
    hide Step;
    if a == [] {
      assert a + b == b;
    } else {
      assert (a + b)[1..] == a[1..] + b;
      RunConcat(Step(s, a[0]), a[1..], b);
    }
  }

  lemma RunFive(s: State, a: Event, b: Event, c: Event, d: Event, e: Event)
    ensures Run(s, [a, b, c, d, e]) == Step(Step(Step(Step(Step(s, a), b), c), d), e)
  {
    hide Step;
    var s1 := Step(s, a);
    var s2 := Step(s1, b);
    var s3 := Step(s2, c);
    var s4 := Step(s3, d);
    assert [a, b, c, d, e][1..] == [b, c, d, e];
    assert [b, c, d, e][1..] == [c, d, e];
    assert [c, d, e][1..] == [d, e];
    assert [d, e][1..] == [e];
    assert [e][1..] == [];
    assert Run(s4, [e]) == Run(Step(s4, e), []);
    assert Run(s3, [d, e]) == Run(s4, [e]);
    assert Run(s2, [c, d, e]) == Run(s3, [d, e]);
    assert Run(s1, [b, c, d, e]) == Run(s2, [c, d, e]);
  }

  /** The state after the other leader's write and the regained leadership; the monitor has not moved. */
  function Overtaken(s: State, t: nat): State
    requires s.role.Some?
  {
    var c := s.clusterTerm;
    s.(role := Some(t), led := s.led + {t}, lastLed := t, clusterTerm := t, elected := s.elected + {c + 1},
       committed := s.committed + [c + 1], acked := s.acked + {|s.committed|},
       queue := s.queue + [Loss(s.role.value)] + [Gain(t)])
  }

  function Lost(s: State): State
    requires s.role.Some?
  {
    s.(role := None, queue := s.queue + [Loss(s.role.value)], clusterTerm := s.clusterTerm + 1,
       elected := s.elected + {s.clusterTerm + 1})
  }

  lemma OvertakeStart(s: State)
    requires RaftInv(s) && s.role.Some? && |s.queue| + 2 <= NOTIFY_BUFFER
    ensures Step(Step(s, Raft(Lose)), Raft(Elect(s.clusterTerm + 1))) == Lost(s)
  {
  }

  lemma OvertakeEnd(s: State, t: nat)
    requires RaftInv(s) && s.role.Some? && |s.queue| + 2 <= NOTIFY_BUFFER && t >= s.clusterTerm + 2
    ensures
      var c, n := s.clusterTerm, |s.committed|;
      Step(Step(Step(Lost(s), Raft(Commit(c + 1))), Raft(Ack(n))), Raft(Win(t))) == Overtaken(s, t)
  {
    var c, n := s.clusterTerm, |s.committed|;
    CommittedBound(s);
    var s3 := Lost(s).(committed := s.committed + [c + 1]);
    assert RaftStep(Lost(s), Commit(c + 1)) == s3;
    assert s3.committed[n] == c + 1 && c + 1 !in s3.led;
    var s4 := s3.(acked := s.acked + {n});
    assert RaftStep(s3, Ack(n)) == s4;
    assert t !in s4.elected && t > s4.lastLed;
  }

  lemma CommittedBound(s: State)
    requires RaftInv(s)
    ensures s.committed != [] ==> s.committed[|s.committed| - 1] <= s.clusterTerm
  {
  }

  lemma OvertakeRun(s: State, t: nat)
    requires RaftInv(s) && s.role.Some? && |s.queue| + 2 <= NOTIFY_BUFFER && t >= s.clusterTerm + 2
    ensures Run(s, Overtake(s, t)) == Overtaken(s, t)
  {
    hide Step, Run, RaftInv, Lost, Overtaken;
    OvertakeStart(s);
    OvertakeEnd(s, t);
    var c := s.clusterTerm;
    RunFive(s, Raft(Lose), Raft(Elect(c + 1)), Raft(Commit(c + 1)), Raft(Ack(|s.committed|)), Raft(Win(t)));
  }

  lemma ReadRun(s: State, t: nat)
    requires t in s.led && s.clusterTerm == t && s.flag
    ensures Run(s, ReadAt(t)).read
         == Answered(s.acked, s.consumed >= t, s.flagTerm + 1 >= t, s.applied, s.dispatched)
  {
    RunFive(s, Reading(BeginRead), Reading(VerifyOk(t)), Reading(SeeReady), Reading(ReadValue), Reading(ReadIndex));
  }

  /**
   The condition of LinearizableReads cannot be dropped. From every reachable state in which the node leads,
   is ready, and has room for two notifications, a quick loss and regain lets another leader acknowledge a write
   which a verified read then misses; the gain notification of the verified term is still queued.
   */
  lemma StaleReadAlwaysPossible(s: State, t: nat)
    requires Inv(s) && s.flag && s.role.Some? && |s.queue| + 2 <= NOTIFY_BUFFER && t >= s.clusterTerm + 2
    ensures
      var r := Run(s, StaleEvents(s, t)).read;
      r.Answered? && !r.told && !r.near && |s.committed| in r.must && r.at <= |s.committed|
  {
    hide Run, MonitorInv, FlagInv, ReadInv, Overtake, ReadAt;
    StaleFacts(s);
    OvertakeRun(s, t);
    RunConcat(s, Overtake(s, t), ReadAt(t));
    ReadRun(Overtaken(s, t), t);
  }

  lemma StaleFacts(s: State)
    requires Inv(s)
    ensures RaftInv(s) && s.consumed <= s.lastLed && (s.flag ==> s.flagTerm <= s.lastLed)
  {
  }

  const READY_FRONT: seq<Event> :=
    [Raft(Win(1)), Mon(TakeNotice), Raft(Commit(1)), InLoop(0, BarrierDone(1)), InLoop(0, CheckContext)]
  const READY_EVENTS: seq<Event> := READY_FRONT + [InLoop(0, SetReady)]

  /** Just before the first Store(1). */
  const ALMOST_READY := INIT.(
    role := Some(1), led := {1}, lastLed := 1, clusterTerm := 1, committed := [1], consumed := 1,
    cancel := Some(0), nextLoop := 1, loops := map[0 := Loop(Cleared(1), false, false)])

  lemma FirstTerm()
    ensures Step(Step(Step(INIT, Raft(Win(1))), Mon(TakeNotice)), Raft(Commit(1)))
         == ALMOST_READY.(loops := map[0 := Loop(AtBarrier(1), false, false)])
  {
    var s1 := INIT.(role := Some(1), led := {1}, lastLed := 1, clusterTerm := 1, queue := [Gain(1)]);
    assert Step(INIT, Raft(Win(1))) == s1;
  }

  lemma FirstBarrier()
    ensures Step(Step(ALMOST_READY.(loops := map[0 := Loop(AtBarrier(1), false, false)]), InLoop(0, BarrierDone(1))),
                 InLoop(0, CheckContext)) == ALMOST_READY
  {
    var s3 := ALMOST_READY.(loops := map[0 := Loop(AtBarrier(1), false, false)]);
    var s4 := ALMOST_READY.(loops := map[0 := Loop(PastBarrier(1), false, false)]);
    assert Step(s3, InLoop(0, BarrierDone(1))).loops == s4.loops;
    assert Step(s4, InLoop(0, CheckContext)).loops == ALMOST_READY.loops;
  }

  /** The ready state in full. */
  const READY := ALMOST_READY.(flag := true, flagTerm := 1, loops := map[0 := Loop(Serving(1), false, false)])

  lemma ReadyState()
    ensures Run(INIT, READY_EVENTS) == READY
  {
    var last := [InLoop(0, SetReady)];
    assert Step(ALMOST_READY, last[0]) == READY by {
      assert LoopCan(ALMOST_READY, ALMOST_READY.loops[0], SetReady);
      assert map[0 := Loop(Cleared(1), false, false)][0 := Loop(Serving(1), false, false)]
        == map[0 := Loop(Serving(1), false, false)];
    }
    hide Step;
    FirstTerm();
    FirstBarrier();
    RunFive(INIT, Raft(Win(1)), Mon(TakeNotice), Raft(Commit(1)), InLoop(0, BarrierDone(1)), InLoop(0, CheckContext));
    RunConcat(INIT, READY_FRONT, last);
    assert last[1..] == [];
    assert Run(ALMOST_READY, last) == Run(Step(ALMOST_READY, last[0]), []);
  }

  /** States as in StaleReadAlwaysPossible exist: this run leads to one. */
  lemma ReadyRun()
    ensures
      var s := Run(INIT, READY_EVENTS);
      Inv(s) && s.flag && s.role == Some(1) && s.queue == []
  {
    hide Inv, Run;
    ReachableInv(READY_EVENTS);
    ReadyState();
  }

  /**
   The bound is exact: for every distance of two or more between the verified term and that of the barrier behind
   the flag there is a run from the start in which the read misses an acknowledged write.
   */
  lemma StaleBeyond(gap: nat)
    requires gap >= 2
    ensures
      var s, r := Run(INIT, READY_EVENTS), Run(INIT, READY_EVENTS + StaleEvents(READY, READY.flagTerm + gap)).read;
      && s.flag && s.flagTerm == READY.flagTerm
      && r.Answered? && !r.near && 1 in r.must && r.at <= 1
  {
    hide Run, Inv, StaleEvents;
    ReadyRun();
    ReadyState();
    StaleReadAlwaysPossible(READY, READY.flagTerm + gap);
    RunConcat(INIT, READY_EVENTS, StaleEvents(READY, READY.flagTerm + gap));
  }

  const WRITE_EVENTS: seq<Event> := [Raft(Dispatch), Raft(Apply), Raft(Ack(0))]

  /** LinearizableReads is not empty: here a told read answers after a write was acknowledged, and contains it. */
  lemma ToldRun()
    ensures Run(INIT, READY_EVENTS + (WRITE_EVENTS + ReadAt(1))).read == Answered({0}, true, true, 1, 1)
  {
    hide Step, Run;
    ReadyState();
    WriteRun();
    RunConcat(INIT, READY_EVENTS, WRITE_EVENTS + ReadAt(1));
    var s := Run(INIT, READY_EVENTS);
    RunConcat(s, WRITE_EVENTS, ReadAt(1));
    ReadRun(Run(s, WRITE_EVENTS), 1);
  }

  lemma WriteRun()
    ensures
      var s := Run(READY, WRITE_EVENTS);
      && s.acked == {0} && s.applied == 1 && s.dispatched == 1 && s.flag && s.flagTerm == 1 && s.consumed == 1
      && s.clusterTerm == 1 && s.led == {1}
  {
    var s1 := READY.(dispatched := 1);
    var s2 := s1.(applied := 1);
    assert Step(READY, Raft(Dispatch)) == s1 && Step(s1, Raft(Apply)) == s2;
    assert Step(s2, Raft(Ack(0))) == s2.(acked := {0});
    var es := WRITE_EVENTS;
    assert es[1..] == [Raft(Apply), Raft(Ack(0))] && es[1..][1..] == [Raft(Ack(0))] && es[1..][1..][1..] == [];
    hide Step;
    assert Run(READY, es) == Run(s1, es[1..]);
    assert Run(s1, es[1..]) == Run(s2, es[1..][1..]);
    assert Run(s2, es[1..][1..]) == Run(s2.(acked := {0}), []);
  }
}
