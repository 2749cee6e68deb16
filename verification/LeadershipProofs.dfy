/** Invariants of the leadership monitor over every run, and what they mean for linearizable reads. */
module LeadershipProofs {
  import opened Bytes
  import opened Leadership

  // ---- raft's own bookkeeping ----

  ghost predicate RaftInv(s: State) {
    && (forall i, j :: 0 <= i <= j < |s.committed| ==> s.committed[i] <= s.committed[j])
    && (forall i :: 0 <= i < |s.committed| ==> s.committed[i] in s.led || s.committed[i] in s.elected)
    && (forall t :: t in s.led ==> t <= s.lastLed && t !in s.elected)
    && (forall t :: t in s.elected ==> t <= s.clusterTerm)
    && s.lastLed <= s.clusterTerm && s.applied <= s.dispatched <= |s.committed|
    && (forall i :: i in s.acked ==> i < |s.committed| && (s.committed[i] in s.led ==> i < s.applied))
  }

  lemma RaftKeepsRaftInv(s: State, e: RaftEvent)
    requires RaftInv(s)
    ensures RaftInv(RaftStep(s, e))
  {
  }

  lemma BarrierStays(s: State, e: RaftEvent, term: nat)
    requires RaftInv(s) && BarrierHolds(s, term)
    ensures BarrierHolds(RaftStep(s, e), term)
  {
  }

  // ---- the monitor ----

  /** Gains and losses alternate, from what the monitor expects next to what the node's role is now. */
  predicate Alternates(queue: seq<Notice>, expectGain: bool, leading: bool) {
    if queue == [] then expectGain == !leading
    else queue[0].Gain? == expectGain && Alternates(queue[1..], !expectGain, leading)
  }

  lemma {:induction false} AlternatesAppend(queue: seq<Notice>, expectGain: bool, n: Notice)
    requires Alternates(queue, expectGain, !n.Gain?)
    ensures Alternates(queue + [n], expectGain, n.Gain?)
    decreases |queue|
  {
    if queue == [] {
      assert (queue + [n])[1..] == [];
    } else {
      assert (queue + [n])[1..] == queue[1..] + [n];
      AlternatesAppend(queue[1..], !expectGain, n);
    }
  }

  predicate ExpectsGain(s: State) {
    s.cancel.None? || s.monitor.Draining?
  }

  /** The monitor will never take another notice. */
  predicate Finishing(s: State) {
    s.monitor == Exited || s.monitor == Draining(true)
  }

  ghost predicate MonitorInv(s: State) {
    && !s.warned
    && (forall id: nat :: id in s.loops ==> id < s.nextLoop)
    && (s.cancel.Some? ==> s.cancel.value in s.loops)
    && (forall id: nat :: Live(s, id) ==> s.cancel == Some(id))
    && (s.monitor == Watching && s.cancel.Some? ==> !s.loops[s.cancel.value].stop)
    && (s.monitor.Draining? ==> s.cancel.Some? && s.loops[s.cancel.value].stop)
    && (s.monitor == Exited ==> forall id: nat :: !Live(s, id))
    && (!Finishing(s) ==> Alternates(s.queue, ExpectsGain(s), s.role.Some?))
    && s.consumed <= s.lastLed
    && (forall n :: n in s.queue && n.Gain? ==> n.term <= s.lastLed)
  }

  /** What a loop knows about the barrier it waits for or has passed. */
  ghost predicate LoopKnows(s: State, pc: LoopPc) {
    match pc
    case AtBarrier(issued) => issued >= s.consumed
    case PastBarrier(t) => Barred(s, t)
    case Cleared(t) => Barred(s, t)
    case Serving(t) => Barred(s, t) && s.flagTerm == t
    case _ => true
  }

  /** A barrier of this node succeeded in term `t`, not before the last gain it was told about. */
  ghost predicate Barred(s: State, t: nat) {
    t >= s.consumed && t in s.led && BarrierHolds(s, t)
  }

  ghost predicate FlagInv(s: State) {
    && (forall id: nat :: Live(s, id) ==> LoopKnows(s, s.loops[id].pc))
    && (forall id: nat :: Live(s, id) ==> (s.flag <==> Established(s.loops[id])))
    && (s.flag ==> Barred(s, s.flagTerm) && exists id: nat :: Live(s, id))
  }

  ghost predicate ReadInv(s: State) {
    match s.read
    case Begun(since, must) =>
      since <= s.clusterTerm && must <= s.acked && forall i :: i in must ==>
        i < |s.committed| && s.committed[i] <= since
    case Confirmed(t, must) =>
      t in s.led && must <= s.acked && forall i :: i in must ==> i < |s.committed| && s.committed[i] <= t
    case Ready(must, told, near) => (told ==> near) && (near ==> forall i :: i in must ==> i < s.applied)
    case Valued(must, told, near, at) =>
      at <= s.applied && (told ==> near) && (near ==> forall i :: i in must ==> i < at)
    case Answered(must, told, near, at, index) =>
      at <= index && (told ==> near) && (near ==> forall i :: i in must ==> i < at)
    case _ => true
  }

  ghost predicate Inv(s: State) {
    RaftInv(s) && MonitorInv(s) && FlagInv(s) && ReadInv(s)
  }

  lemma InitInv()
    ensures Inv(INIT)
  {
  }

  // ---- raft steps ----

  lemma RaftKeepsMonitor(s: State, e: RaftEvent)
    requires MonitorInv(s) && s.lastLed <= s.clusterTerm
    ensures MonitorInv(RaftStep(s, e))
  {
    hide Alternates, BarrierHolds;
    var s' := RaftStep(s, e);
    assert s'.loops == s.loops && s'.nextLoop == s.nextLoop && s'.cancel == s.cancel && s'.monitor == s.monitor;
    assert forall id: nat :: Live(s', id) <==> Live(s, id);
    if (e.Win? || e.Lose?) && s' != s {
      RolePushed(s, e);
    }
  }

  lemma RolePushed(s: State, e: RaftEvent)
    requires MonitorInv(s) && s.lastLed <= s.clusterTerm && (e.Win? || e.Lose?) && RaftStep(s, e) != s
    ensures
      var s' := RaftStep(s, e);
      && s'.lastLed >= s.lastLed
      && (!Finishing(s') ==> Alternates(s'.queue, ExpectsGain(s'), s'.role.Some?))
      && (forall n :: n in s'.queue && n.Gain? ==> n.term <= s'.lastLed)
  {
    hide Alternates;
    if !Finishing(s) {
      AlternatesAppend(s.queue, ExpectsGain(s), if e.Win? then Gain(e.term) else Loss(s.role.value));
    }
  }

  lemma RaftLeavesLoops(s: State, e: RaftEvent)
    ensures
      var s' := RaftStep(s, e);
      && s'.flag == s.flag && s'.loops == s.loops && s'.consumed == s.consumed && s'.flagTerm == s.flagTerm
      && s.led <= s'.led
  {
  }

  lemma RaftKeepsFlag(s: State, e: RaftEvent)
    requires RaftInv(s) && FlagInv(s)
    ensures FlagInv(RaftStep(s, e))
  {
    hide BarrierHolds, RaftInv, RaftStep;
    var s' := RaftStep(s, e);
    RaftLeavesLoops(s, e);
    forall t: nat | Barred(s, t) ensures Barred(s', t) {
      BarrierStays(s, e, t);
    }
    hide Barred;
    assert forall id: nat :: Live(s', id) <==> Live(s, id);
    forall id: nat | Live(s', id) ensures LoopKnows(s', s'.loops[id].pc) {
      assert LoopKnows(s, s.loops[id].pc);
    }
  }

  lemma RaftKeepsRead(s: State, e: RaftEvent)
    requires RaftInv(s) && ReadInv(s)
    ensures ReadInv(RaftStep(s, e))
  {
  }

  lemma RaftKeepsInv(s: State, e: RaftEvent)
    requires Inv(s)
    ensures Inv(RaftStep(s, e))
  {
    assert s.lastLed <= s.clusterTerm;
    hide RaftInv, MonitorInv, FlagInv, ReadInv, RaftStep;
    RaftKeepsRaftInv(s, e);
    RaftKeepsMonitor(s, e);
    RaftKeepsFlag(s, e);
    RaftKeepsRead(s, e);
  }

  // ---- monitor steps ----

  lemma SpawnIsOnlyLive(s: State)
    requires MonitorInv(s) && s.monitor == Watching && s.queue != [] && s.queue[0].Gain?
    ensures s.cancel.None? && forall id: nat :: Live(MonitorStep(s, TakeNotice), id) <==> id == s.nextLoop
  {
    var s' := MonitorStep(s, TakeNotice);
    assert s.cancel.None?;
    forall id: nat ensures Live(s', id) <==> id == s.nextLoop {
      if id != s.nextLoop {
        assert Live(s', id) ==> Live(s, id);
      }
    }
  }

  lemma NoticeKeepsMonitor(s: State)
    requires MonitorInv(s)
    ensures MonitorInv(MonitorStep(s, TakeNotice))
  {
    var s' := MonitorStep(s, TakeNotice);
    if s.monitor == Watching && s.queue != [] {
      assert s.queue[0] in s.queue;
      assert forall n :: n in s.queue[1..] ==> n in s.queue;
      if s.queue[0].Gain? {
        SpawnIsOnlyLive(s);
      } else {
        assert forall id: nat :: Live(s', id) <==> Live(s, id);
      }
    }
  }

  lemma StopKeepsMonitor(s: State, e: MonitorEvent)
    requires MonitorInv(s) && !e.TakeNotice?
    ensures MonitorInv(MonitorStep(s, e))
  {
    hide Alternates;
    var s' := MonitorStep(s, e);
    assert forall id: nat :: Live(s', id) <==> Live(s, id);
    if e.Drained? && s' != s {
      assert forall id: nat :: !Live(s, id);
    }
  }

  lemma GainKeepsFlag(s: State)
    requires MonitorInv(s) && FlagInv(s) && s.monitor == Watching && s.queue != [] && s.queue[0].Gain?
    ensures FlagInv(MonitorStep(s, TakeNotice))
  {
    hide BarrierHolds;
    SpawnIsOnlyLive(s);
    assert forall id: nat :: !Live(s, id);
    assert !s.flag;
    assert s.queue[0] in s.queue;
  }

  /** A monitor step that starts no loop moves no loop and leaves the flag alone. */
  lemma NoGainUnmoved(s: State, e: MonitorEvent)
    requires !(e.TakeNotice? && s.monitor == Watching && s.queue != [] && s.queue[0].Gain?)
    ensures
      var s' := MonitorStep(s, e);
      && s'.flag == s.flag && s'.flagTerm == s.flagTerm && s'.consumed == s.consumed
      && s'.loops.Keys == s.loops.Keys && (forall id: nat :: id in s.loops ==> s'.loops[id].pc == s.loops[id].pc)
  {
  }

  lemma MonitorKeepsFlag(s: State, e: MonitorEvent)
    requires MonitorInv(s) && FlagInv(s)
    ensures FlagInv(MonitorStep(s, e))
  {
    if e.TakeNotice? && s.monitor == Watching && s.queue != [] && s.queue[0].Gain? {
      GainKeepsFlag(s);
    } else {
      NoGainUnmoved(s, e);
      MonitorFrame(s, e);
      hide MonitorStep, BarrierHolds, MonitorInv;
      var s' := MonitorStep(s, e);
      assert forall id: nat :: Live(s', id) <==> Live(s, id);
      forall t: nat | BarrierHolds(s, t) ensures BarrierHolds(s', t) {
        SameBarrier(s, s', t);
      }
    }
  }

  lemma SameBarrier(s: State, s': State, t: nat)
    requires BarrierHolds(s, t) && s'.committed == s.committed && s'.applied == s.applied
    ensures BarrierHolds(s', t)
  {
  }

  predicate SameRaft(s: State, s': State) {
    && s'.committed == s.committed && s'.acked == s.acked && s'.clusterTerm == s.clusterTerm
    && s'.led == s.led && s'.elected == s.elected
    && s'.lastLed == s.lastLed && s'.dispatched == s.dispatched && s'.applied == s.applied && s'.read == s.read
  }

  lemma NoticeFrame(s: State)
    ensures SameRaft(s, MonitorStep(s, TakeNotice))
  {
    hide StopLoop;
    if s.monitor == Watching && s.queue != [] && s.queue[0].Loss? && s.cancel.Some? && s.cancel.value in s.loops {
      StopFrame(s.(queue := s.queue[1..]), s.cancel.value);
    }
  }

  lemma StopFrame(s: State, id: nat)
    requires id in s.loops
    ensures SameRaft(s, StopLoop(s, id))
  {
  }

  lemma MonitorFrame(s: State, e: MonitorEvent)
    ensures SameRaft(s, MonitorStep(s, e))
  {
    match e {
      case TakeNotice => NoticeFrame(s);
      case TakeShutdown =>
      case Drained =>
    }
  }

  lemma SameRaftKeeps(s: State, s': State)
    requires RaftInv(s) && ReadInv(s) && SameRaft(s, s')
    ensures RaftInv(s') && ReadInv(s')
  {
  }

  lemma MonitorKeepsInv(s: State, e: MonitorEvent)
    requires Inv(s)
    ensures Inv(MonitorStep(s, e))
  {
    hide RaftInv, MonitorInv, FlagInv, ReadInv, MonitorStep;
    MonitorFrame(s, e);
    SameRaftKeeps(s, MonitorStep(s, e));
    if e.TakeNotice? {
      NoticeKeepsMonitor(s);
    } else {
      StopKeepsMonitor(s, e);
    }
    MonitorKeepsFlag(s, e);
  }

  // ---- loop steps ----

  lemma LoopFrame(s: State, id: nat, e: LoopEvent)
    ensures
      var s' := LoopStep(s, id, e);
      && s' == s.(loops := s'.loops, flag := s'.flag, flagTerm := s'.flagTerm)
      && s'.loops.Keys == s.loops.Keys
      && (forall x: nat :: x in s.loops ==> s'.loops[x].stop == s.loops[x].stop)
      && (forall x: nat :: x in s.loops && x != id ==> s'.loops[x] == s.loops[x])
      && (forall x: nat :: Live(s', x) ==> Live(s, x))
  {
    GoneStays(s, id, e);
    hide LoopCan, NextPc;
  }

  lemma GoneStays(s: State, id: nat, e: LoopEvent)
    ensures id in s.loops && s.loops[id].pc.Gone? ==> !LoopCan(s, s.loops[id], e)
  {
    hide BarrierHolds;
  }

  lemma LoopKeepsMonitor(s: State, id: nat, e: LoopEvent)
    requires MonitorInv(s)
    ensures MonitorInv(LoopStep(s, id, e))
  {
    hide LoopStep, Alternates;
    LoopFrame(s, id, e);
  }

  /** A step of the live loop keeps what it knows and keeps the flag in line with it. */
  lemma LoopStepKnows(s: State, id: nat, e: LoopEvent)
    requires MonitorInv(s) && FlagInv(s) && Live(s, id) && LoopCan(s, s.loops[id], e)
    ensures
      var s' := LoopStep(s, id, e);
      && LoopKnows(s', s'.loops[id].pc) && (s'.flag <==> Established(s'.loops[id]))
        && (s'.flag ==> Barred(s', s'.flagTerm))
  {
    hide Alternates, BarrierHolds;
    var s' := LoopStep(s, id, e);
    assert LoopKnows(s, s.loops[id].pc) && (s.flag <==> Established(s.loops[id]));
    assert s'.committed == s.committed && s'.applied == s.applied && s'.led == s.led && s'.consumed == s.consumed;
    forall t: nat | BarrierHolds(s, t) ensures BarrierHolds(s', t) {
      SameBarrier(s, s', t);
    }
  }

  lemma MovedKeepsFlag(s: State, id: nat, e: LoopEvent)
    requires MonitorInv(s) && FlagInv(s) && Live(s, id) && LoopCan(s, s.loops[id], e)
    ensures FlagInv(LoopStep(s, id, e))
  {
    hide LoopStep, LoopCan, LoopKnows, Barred, Alternates, Established;
    var s' := LoopStep(s, id, e);
    LoopFrame(s, id, e);
    LoopStepKnows(s, id, e);
    EstablishedLives(s'.loops[id]);
    assert forall x: nat :: Live(s', x) ==> x == id;
    assert s'.flag ==> Live(s', id);
  }

  lemma EstablishedLives(l: Loop)
    ensures Established(l) ==> !l.pc.Gone?
  {
  }

  lemma UnmovedKeepsFlag(s: State, id: nat, e: LoopEvent)
    requires FlagInv(s) && !(Live(s, id) && LoopCan(s, s.loops[id], e))
    ensures FlagInv(LoopStep(s, id, e))
  {
    hide LoopStep, LoopCan, BarrierHolds;
    var s' := LoopStep(s, id, e);
    LoopFrame(s, id, e);
    LoopUnmoved(s, id, e);
    forall t: nat | BarrierHolds(s, t) ensures BarrierHolds(s', t) {
      SameBarrier(s, s', t);
    }
  }

  lemma LoopKeepsFlag(s: State, id: nat, e: LoopEvent)
    requires MonitorInv(s) && FlagInv(s)
    ensures FlagInv(LoopStep(s, id, e))
  {
    hide MonitorInv, FlagInv, LoopStep, LoopCan;
    if Live(s, id) && LoopCan(s, s.loops[id], e) {
      MovedKeepsFlag(s, id, e);
    } else {
      UnmovedKeepsFlag(s, id, e);
    }
  }

  lemma LoopUnmoved(s: State, id: nat, e: LoopEvent)
    requires !(Live(s, id) && LoopCan(s, s.loops[id], e))
    ensures
      var s' := LoopStep(s, id, e);
      && s'.flag == s.flag && s'.flagTerm == s.flagTerm
      && (forall x: nat :: Live(s', x) <==> Live(s, x))
      && (forall x: nat :: x in s.loops ==> s'.loops[x].pc == s.loops[x].pc)
  {
    hide BarrierHolds;
  }

  lemma LoopKeepsInv(s: State, id: nat, e: LoopEvent)
    requires Inv(s)
    ensures Inv(LoopStep(s, id, e))
  {
    hide RaftInv, MonitorInv, FlagInv, ReadInv, LoopStep;
    LoopFrame(s, id, e);
    SameRaftKeeps(s, LoopStep(s, id, e));
    LoopKeepsMonitor(s, id, e);
    LoopKeepsFlag(s, id, e);
  }

  // ---- reader steps ----

  /** The step that matters: the flag is seen after leadership was confirmed. */
  lemma SeeReadyKeepsRead(s: State)
    requires Inv(s)
    ensures ReadInv(ReadStep(s, SeeReady))
  {
    hide MonitorInv, BarrierHolds;
    if s.read.Confirmed? && s.flag && s.flagTerm + 1 >= s.read.term {
      assert Barred(s, s.flagTerm);
      forall i | i in s.read.must ensures i < s.applied {
        if s.committed[i] < s.flagTerm {
          BarrierCovers(s, s.flagTerm, i);
        } else {
          // of the barrier's term or of the verified one, both led by this node
          assert s.committed[i] in {s.flagTerm, s.read.term} && s.committed[i] in s.led && i in s.acked;
        }
      }
    }
  }

  lemma BarrierCovers(s: State, t: nat, i: nat)
    requires BarrierHolds(s, t) && i < |s.committed| && s.committed[i] < t
    ensures i < s.applied
  {
  }

  lemma ReadKeepsRead(s: State, e: ReadEvent)
    requires Inv(s)
    ensures ReadInv(ReadStep(s, e))
  {
    hide MonitorInv, FlagInv;
    if e.SeeReady? {
      SeeReadyKeepsRead(s);
    }
  }

  lemma ReadFrame(s: State, r: Read)
    requires MonitorInv(s) && FlagInv(s) && RaftInv(s)
    ensures MonitorInv(s.(read := r)) && FlagInv(s.(read := r)) && RaftInv(s.(read := r))
  {
    var s' := s.(read := r);
    assert forall id: nat :: Live(s', id) <==> Live(s, id);
    assert MonitorInv(s') by {
      hide Alternates, FlagInv, RaftInv;
    }
    assert FlagInv(s') by {
      hide MonitorInv, RaftInv, BarrierHolds;
      forall t: nat | Barred(s, t) ensures Barred(s', t) {
        SameBarrier(s, s', t);
      }
    }
  }

  lemma ReadKeepsInv(s: State, e: ReadEvent)
    requires Inv(s)
    ensures Inv(ReadStep(s, e))
  {
    ReadKeepsRead(s, e);
    var s' := ReadStep(s, e);
    assert s' == s.(read := s'.read);
    hide RaftInv, MonitorInv, FlagInv, ReadInv, ReadStep;
    ReadFrame(s, s'.read);
  }

  lemma StepKeepsInv(s: State, e: Event)
    requires Inv(s)
    ensures Inv(Step(s, e))
  {
    hide Inv;
    match e {
      case Raft(r) => RaftKeepsInv(s, r);
      case Mon(m) => MonitorKeepsInv(s, m);
      case InLoop(id, l) => LoopKeepsInv(s, id, l);
      case Reading(r) => ReadKeepsInv(s, r);
    }
  }

  lemma {:induction false} RunKeepsInv(s: State, events: seq<Event>)
    requires Inv(s)
    ensures Inv(Run(s, events))
    decreases |events|
  {
    hide Inv, Step;
    if events == [] {
    } else {
      StepKeepsInv(s, events[0]);
      RunKeepsInv(Step(s, events[0]), events[1..]);
    }
  }
}
