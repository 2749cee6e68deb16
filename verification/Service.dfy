/**
 Where Add and Get do their work: service/service.go over engine/kv.go. A Get runs interleaved with the node's own
 leadership protocol: between any two of its steps the node may lose and regain leadership, commit and apply.
 */
module Service {
  import opened Bytes
  import L = Leadership
  import P = LeadershipProofs
  import T = LeadershipTheorems

  datatype Error = UnknownCommand | NoLeader | UnknownAddress | DialFailed | CallFailed | NotConsistent | StoreError
                 | ApplyFailed

  datatype Result<+T> = Success(value: T) | Failure(error: Error)

  datatype Leader = Self | Remote(raftAddr: bytes) | Unknown

  datatype Read = Read(value: bytes, index: nat)

  /**
   What each call to the environment would answer, should it be made. The answers are independent of each other,
   so leadership may change between any two of them.
   */
  datatype Env<T> = Env(
    known: bool,
    leader: Leader,
    resolve: bytes -> Option<bytes>,
    dials: bool,
    reply: Option<T>)

  /** What forwarding does to the outside. */
  datatype Effect = CalledLeader(grpcAddr: bytes)

  /** forwardRequestToLeader: handed over with a reply, to be handled here, or an error. */
  datatype Forward<+T> = Done(reply: T) | Here | Error(error: Error)

  function ForwardRequestToLeader<T>(env: Env<T>): (Forward<T>, seq<Effect>) {
    if !env.known then (Error(UnknownCommand), [])
    else if env.leader == Self then (Here, [])
    else if env.leader == Unknown then (Error(NoLeader), [])
    else match env.resolve(env.leader.raftAddr)
      case None => (Error(UnknownAddress), [])
      case Some(addr) =>
        if !env.dials then (Error(DialFailed), [])
        else match env.reply
          case None => (Error(CallFailed), [CalledLeader(addr)])
          case Some(reply) => (Done(reply), [CalledLeader(addr)])
  }

  function Called(effects: seq<Effect>): seq<bytes> {
    seq(|effects|, i requires 0 <= i < |effects| => effects[i].grpcAddr)
  }

  // ---- Get and Add ----

  /** The steps a Get has taken, as they would appear in a log of them. */
  datatype Mark = Arrived | Replied(grpcAddr: bytes) | Kept | Verified(term: nat) | SawReady | GotValue(at: nat)
    | GotIndex(index: nat)

  /** Where a Get stands. The state a value was read from is the number of entries applied then. */
  datatype Get =
    | Idle
    | Routing                      // linearizable, about to be forwarded
    | Consistent                   // in kv.Query, from ConsistentRead on
    | Stale                        // in kv.Query, without ConsistentRead
    | StaleValued(at: nat)
    | Forwarded(reply: Read)
    | Served(at: nat, index: nat)
    | Refused

  /** Where an Add stands. */
  datatype Add =
    | AddIdle
    | AddRouting
    | Proposing                    // kept here, about to call raft.Apply
    | Waiting                      // on the future of raft.Apply
    | AddForwarded(index: nat)
    | AddReturned(index: nat)
    | AddFailed

  /**
   `must` are the writes acknowledged, by any leader, when the Get arrived. `calls` are the addresses the Add
   called, `inFlight` is the term of its entry in this leader's log, `entries` where it was committed.
   */
  datatype State = State(node: L.State, get: Get, linearizable: bool, must: set<nat>, log: seq<Mark>,
                         add: Add, calls: seq<bytes>, inFlight: Option<nat>, entries: seq<nat>)

  const START := State(L.INIT, Idle, false, {}, [], AddIdle, [], None, [])

  datatype Event =
    | AddArrive
    | AddRoute(reply: Env<nat>)
    | AddPropose                   // raft.Apply accepts the command: this node leads
    | AddCommit                    // a quorum has it, also after the future failed
    | AddReturn
    | AddFail
    | Node(e: L.Event)
    | Arrive(linearizable: bool)
    | Route(env: Env<Read>)
    | Query(r: L.ReadEvent)
    | StoreFails

  function Step(s: State, e: Event): State {
    match e
    case AddArrive => if s.add == AddIdle then s.(add := AddRouting) else s
    case AddRoute(env) =>
      if s.add != AddRouting || (env.leader == Self) != s.node.role.Some? then s
      else
        var (forward, effects) := ForwardRequestToLeader(env);
        s.(calls := s.calls + Called(effects),
           add := if forward.Done? then AddForwarded(forward.reply)
                  else if forward.Error? then AddFailed
                  else Proposing)
    case AddPropose =>
      if s.add == Proposing && s.node.role.Some? then s.(add := Waiting, inFlight := s.node.role) else s
    case AddCommit =>
      if s.inFlight.None? then s
      else
        var node := L.Step(s.node, L.Raft(L.Commit(s.inFlight.value)));
        if node == s.node then s
        else s.(node := node, inFlight := None, entries := s.entries + [|s.node.committed|])
    case AddReturn =>
      if s.add == Waiting && s.entries != [] && s.entries[0] < s.node.applied then
        s.(node := L.Step(s.node, L.Raft(L.Ack(s.entries[0]))), add := AddReturned(s.entries[0] + 1))
      else s
    case AddFail => if s.add == Proposing || s.add == Waiting then s.(add := AddFailed) else s
    case Node(n) => if n.Reading? then s else s.(node := L.Step(s.node, n))
    case Arrive(lin) =>
      if s.get != Idle then s
      else s.(get := if lin then Routing else Stale, linearizable := lin, must := s.node.acked, log := [Arrived])
    case Route(env) => RouteStep(s, env)
    case Query(r) =>
      if s.get == Consistent then ConsistentStep(s, r)
      else if s.get == Stale && r == L.ReadValue then
        s.(get := StaleValued(s.node.applied), log := s.log + [GotValue(s.node.applied)])
      else if s.get.StaleValued? && r == L.ReadIndex then
        s.(get := Served(s.get.at, s.node.dispatched), log := s.log + [GotIndex(s.node.dispatched)])
      else s
    case StoreFails =>
      if s.get == Stale || (s.get == Consistent && s.node.read.Ready?) then s.(get := Refused) else s
  }

  /**
   GetLeader sees the node's role at this moment. A request not handed over is kept, whether or not there was an error.
   */
  function RouteStep(s: State, env: Env<Read>): State {
    if s.get != Routing || (env.leader == Self) != s.node.role.Some? then s
    else
      var (forward, effects) := ForwardRequestToLeader(env);
      if forward.Done? && effects != [] && effects[0].CalledLeader? then
        s.(get := Forwarded(forward.reply), log := s.log + [Replied(effects[0].grpcAddr)])
      else s.(get := Consistent, node := L.ReadStep(s.node, L.BeginRead), log := s.log + [Kept])
  }

  /** One step of ConsistentRead and of the read behind it; a step that is not due changes nothing. */
  function ConsistentStep(s: State, r: L.ReadEvent): State {
    var node := L.ReadStep(s.node, r);
    if r == L.BeginRead || node == s.node then s
    else
      match node.read
      case Confirmed(t, _) => s.(node := node, log := s.log + [Verified(t)])
      case Ready(_, _, _) => s.(node := node, log := s.log + [SawReady])
      case Valued(_, _, _, at) => s.(node := node, log := s.log + [GotValue(at)])
      case Answered(_, _, _, at, index) => s.(node := node, get := Served(at, index), log := s.log + [GotIndex(index)])
      case _ => s.(node := node, get := Refused)
  }

  function Run(s: State, events: seq<Event>): State
    decreases |events|
  {
    if events == [] then s else Run(Step(s, events[0]), events[1..])
  }

  // ---- where a request goes ----

  /** The environment lets a request through to the leader at `grpcAddr`, whose call may still fail. */
  predicate Connects<T>(env: Env<T>, grpcAddr: bytes) {
    && env.known && env.leader.Remote? && env.resolve(env.leader.raftAddr) == Some(grpcAddr) && env.dials
  }

  /**
   An Add that is routed on a node that does not lead. It returns the leader's reply exactly if the leader is known,
   can be reached and replies; in every other case it fails. It calls the leader once if it can be reached, at the
   address the resolver gives, and nobody else.
   */
  lemma AddRoutesExactly(s: State, env: Env<nat>)
    requires s.add == AddRouting && s.node.role.None? && env.leader != Self
    ensures
      var s' := Step(s, AddRoute(env));
      && (forall n: nat :: s'.add == AddForwarded(n) <==> env.reply == Some(n) && exists g :: Connects(env, g))
      && (s'.add == AddFailed <==> env.reply.None? || !exists g :: Connects(env, g))
      && (forall g :: Connects(env, g) ==> s'.calls == s.calls + [g])
      && ((!exists g :: Connects(env, g)) ==> s'.calls == s.calls)
      && s' == s.(add := s'.add, calls := s'.calls)
  {
    if env.known && env.leader.Remote? && env.resolve(env.leader.raftAddr).Some? && env.dials {
      assert Connects(env, env.resolve(env.leader.raftAddr).value);
    }
  }

  /** On the leader an Add stays: it is proposed here and nobody is called. */
  lemma AddStaysExactly(s: State, env: Env<nat>)
    requires s.add == AddRouting && s.node.role.Some? && env.leader == Self
    ensures Step(s, AddRoute(env)) == s.(add := if env.known then Proposing else AddFailed)
  {
  }

  /**
   A linearizable Get that is routed on a node that does not lead. It returns the leader's reply, of the leader at the
   address the resolver gives, exactly if the leader is known, can be reached and replies; in every other case it is
   kept here, to be verified.
   */
  lemma GetRoutesExactly(s: State, env: Env<Read>)
    requires s.get == Routing && s.node.role.None? && env.leader != Self
    ensures
      var s' := Step(s, Route(env));
      && (forall r, g :: s'.get == Forwarded(r) && s'.log == s.log + [Replied(g)] <==>
        env.reply == Some(r) && Connects(env, g))
      && (s'.get == Consistent && s'.node.read.Begun? && s'.log == s.log + [Kept]
          <==> env.reply.None? || !exists g :: Connects(env, g))
  {
    var s' := Step(s, Route(env));
    if env.known && env.leader.Remote? && env.resolve(env.leader.raftAddr).Some? && env.dials {
      var g := env.resolve(env.leader.raftAddr).value;
      assert Connects(env, g) && forall g' :: Connects(env, g') ==> g' == g;
      if env.reply.Some? {
        assert s'.log == s.log + [Replied(g)] && s'.log[|s.log|] == Replied(g);
      } else {
        assert s'.log == s.log + [Kept] && s'.log[|s.log|] == Kept;
      }
    } else {
      assert s'.log == s.log + [Kept] && s'.log[|s.log|] == Kept;
    }
  }

  /** On the leader a linearizable Get stays, to be verified. */
  lemma GetStaysExactly(s: State, env: Env<Read>)
    requires s.get == Routing && s.node.role.Some? && env.leader == Self
    ensures
      var s' := Step(s, Route(env));
      s'.get == Consistent && s'.node.read.Begun? && s'.node.read.must == s.node.acked && s'.log == s.log + [Kept]
  {
  }

  // ---- when a Get is refused, and what it reports ----

  /**
   The steps that refuse a Get: a failed verification, a flag that does not come up in time, an error of the store.
   */
  predicate Refuses(s: State, e: Event) {
    || (e == Query(L.VerifyFail) && s.get == Consistent && s.node.read.Begun?)
    || (e == Query(L.GiveUp) && s.get == Consistent && s.node.read.Confirmed?)
    || (e == StoreFails && (s.get == Stale || (s.get == Consistent && s.node.read.Ready?)))
  }

  lemma RefusesExactly(s: State, e: Event)
    requires s.get != Refused
    ensures Refuses(s, e) <==> Step(s, e).get == Refused
  {
    hide L.Step, ForwardRequestToLeader;
  }

  lemma {:induction false} RefusedForGood(s: State, events: seq<Event>)
    requires s.get == Refused
    ensures Run(s, events).get == Refused
    decreases |events|
  {
    if events == [] {
    } else {
      RefusedStays(s, events[0]);
      hide Step;
      RefusedForGood(Step(s, events[0]), events[1..]);
    }
  }

  lemma RefusedStays(s: State, e: Event)
    requires s.get == Refused
    ensures Step(s, e).get == Refused
  {
    hide L.Step, ForwardRequestToLeader;
  }

  /**
   A Get whose verification failed, for which the node did not become ready, or whose read failed is refused, and
   never served, whatever happens later.
   */
  lemma RefusedNeverServed(s: State, e: Event, events: seq<Event>)
    requires s.get != Refused && Refuses(s, e)
    ensures Run(s, [e] + events).get == Refused
  {
    hide Step, Refuses;
    RefusesExactly(s, e);
    assert ([e] + events)[1..] == events;
    RefusedForGood(Step(s, e), events);
  }

  /** What the last step of a Get added to its log was read at that moment. */
  predicate Current(s: State, s': State) {
    && (s'.get.Served? && !s.get.Served? ==>
          s'.get.index == s.node.dispatched && s'.log == s.log + [GotIndex(s.node.dispatched)])
    && (|s'.log| > |s.log| && s'.log[|s.log|].GotValue? ==> s'.log == s.log + [GotValue(s.node.applied)])
  }

  lemma ConsistentCurrent(s: State, r: L.ReadEvent)
    ensures Current(s, ConsistentStep(s, r))
  {
  }

  /** The value is read from the state applied at that moment; the index is raft's applied index when it answers. */
  lemma ServedAtTheMoment(s: State, e: Event)
    ensures Current(s, Step(s, e))
  {
    hide L.Step, ForwardRequestToLeader;
    if e.Query? && s.get == Consistent {
      ConsistentCurrent(s, e.r);
      hide ConsistentStep;
    } else {
      hide ConsistentStep, L.ReadStep;
    }
  }

  // ---- what every run keeps ----

  /** How far a consistent read has come, and the steps behind it. */
  ghost predicate OnTheWay(s: State) {
    match s.node.read
    case Begun(_, must) => s.must <= must && s.log == [Arrived, Kept]
    case Confirmed(t, must) => s.must <= must && s.log == [Arrived, Kept, Verified(t)]
    case Ready(must, _, _) => s.must <= must && exists t :: s.log == [Arrived, Kept, Verified(t), SawReady]
    case Valued(must, _, _, at) => s.must <= must
      && exists t :: s.log == [Arrived, Kept, Verified(t), SawReady, GotValue(at)]
    case _ => false
  }

  ghost predicate Verifiedly(s: State, at: nat, index: nat) {
    exists t :: s.log == [Arrived, Kept, Verified(t), SawReady, GotValue(at), GotIndex(index)]
  }

  ghost predicate GetInv(s: State) {
    match s.get
    case Routing => s.linearizable && s.must <= s.node.acked && s.log == [Arrived]
    case Consistent => s.linearizable && OnTheWay(s)
    case Stale => !s.linearizable && s.log == [Arrived]
    case StaleValued(at) => !s.linearizable && at <= s.node.dispatched && s.log == [Arrived, GotValue(at)]
    case Forwarded(_) => s.linearizable && exists a :: s.log == [Arrived, Replied(a)]
    case Served(at, index) =>
      && at <= index
      && (!s.linearizable ==> s.log == [Arrived, GotValue(at), GotIndex(index)])
      && (s.linearizable ==>
            && s.node.read.Answered? && s.node.read.at == at && s.node.read.index == index && s.must <= s.node.read.must
            && Verifiedly(s, at, index))
    case _ => true
  }

  /** One attempt at most: a call to a leader, or an entry of this node, in flight or committed. */
  ghost predicate AddInv(s: State) {
    && |s.calls| + |s.entries| + (if s.inFlight.Some? then 1 else 0) <= 1
    && (forall i :: i in s.entries ==> i < |s.node.committed|)
    && match s.add
       case Waiting => s.calls == []
       case AddForwarded(_) => |s.calls| == 1
       case AddReturned(index) => s.calls == [] && s.entries == [index - 1] && index - 1 in s.node.acked
       case AddFailed => true
       case _ => s.calls == [] && s.entries == [] && s.inFlight.None?
  }

  lemma NodeKeepsAdd(s: State, n: L.Event)
    requires AddInv(s)
    ensures AddInv(s.(node := L.Step(s.node, n)))
  {
    NodeGrows(s.node, n);
    hide L.Step;
  }

  /** Committed entries and acknowledged writes only grow. */
  lemma NodeGrows(s: L.State, n: L.Event)
    ensures |s.committed| <= |L.Step(s, n).committed| && s.acked <= L.Step(s, n).acked
  {
    hide Framed;
    match n {
      case Reading(_) =>
      case Raft(_) =>
      case Mon(e) => MonitorFrame(s, e);
      case InLoop(id, e) => LoopFrame(s, id, e);
    }
  }

  lemma AddCommitKeeps(s: State)
    requires P.Inv(s.node) && GetInv(s) && AddInv(s) && s.inFlight.Some?
    ensures P.Inv(Step(s, AddCommit).node) && GetInv(Step(s, AddCommit)) && AddInv(Step(s, AddCommit))
  {
    hide P.Inv, GetInv;
    var n := L.Raft(L.Commit(s.inFlight.value));
    P.StepKeepsInv(s.node, n);
    NodeKeepsGet(s, n);
    SameGet(s.(node := L.Step(s.node, n)), Step(s, AddCommit));
  }

  lemma AddReturnKeeps(s: State)
    requires P.Inv(s.node) && GetInv(s) && AddInv(s)
    requires s.add == Waiting && s.entries != [] && s.entries[0] < s.node.applied
    ensures P.Inv(Step(s, AddReturn).node) && GetInv(Step(s, AddReturn)) && AddInv(Step(s, AddReturn))
  {
    hide P.Inv, GetInv;
    assert s.entries[0] in s.entries && s.entries == [s.entries[0]];
    var n := L.Raft(L.Ack(s.entries[0]));
    P.StepKeepsInv(s.node, n);
    NodeKeepsGet(s, n);
    SameGet(s.(node := L.Step(s.node, n)), Step(s, AddReturn));
  }

  lemma AddStepKeeps(s: State, e: Event)
    requires P.Inv(s.node) && GetInv(s) && AddInv(s)
    requires e.AddArrive? || e.AddRoute? || e.AddPropose? || e.AddCommit? || e.AddReturn? || e.AddFail?
    ensures P.Inv(Step(s, e).node) && GetInv(Step(s, e)) && AddInv(Step(s, e))
  {
    hide P.Inv, GetInv, L.Step;
    match e {
      case AddCommit =>
        if s.inFlight.Some? {
          AddCommitKeeps(s);
        }
      case AddReturn =>
        if s.add == Waiting && s.entries != [] && s.entries[0] < s.node.applied {
          AddReturnKeeps(s);
        }
      case _ => SameGet(s, Step(s, e));
    }
  }

  /** The Get does not depend on where the Add stands. */
  lemma SameGet(s: State, s': State)
    requires s'.node == s.node && s'.get == s.get && s'.linearizable == s.linearizable && s'.must == s.must
      && s'.log == s.log
    requires GetInv(s)
    ensures GetInv(s')
  {
  }

  lemma NodeKeepsGet(s: State, n: L.Event)
    requires GetInv(s) && !n.Reading?
    ensures GetInv(s.(node := L.Step(s.node, n)))
  {
    hide L.Step;
    NodeFrame(s.node, n);
  }

  /** The node's own steps never touch the read, and acknowledged writes and dispatched entries only grow. */
  predicate Framed(s: L.State, s': L.State) {
    s'.read == s.read && s.acked <= s'.acked && s.dispatched <= s'.dispatched
  }

  lemma RaftFrame(s: L.State, e: L.RaftEvent)
    ensures Framed(s, L.RaftStep(s, e))
  {
  }

  lemma MonitorFrame(s: L.State, e: L.MonitorEvent)
    ensures Framed(s, L.MonitorStep(s, e))
  {
  }

  lemma LoopFrame(s: L.State, id: nat, e: L.LoopEvent)
    ensures Framed(s, L.LoopStep(s, id, e))
  {
    hide L.BarrierHolds, L.LoopCan, L.NextPc;
  }

  lemma NodeFrame(s: L.State, n: L.Event)
    requires !n.Reading?
    ensures Framed(s, L.Step(s, n))
  {
    hide Framed, L.RaftStep, L.MonitorStep, L.LoopStep;
    match n {
      case Raft(e) => RaftFrame(s, e);
      case Mon(e) => MonitorFrame(s, e);
      case InLoop(id, e) => LoopFrame(s, id, e);
    }
  }

  lemma QueryKeepsGet(s: State, r: L.ReadEvent)
    requires P.Inv(s.node) && GetInv(s)
    ensures GetInv(Step(s, Query(r)))
  {
    hide P.MonitorInv, P.FlagInv;
    if s.get == Consistent {
      P.ReadKeepsInv(s.node, r);
      ConsistentKeepsGet(s, r);
    }
  }

  lemma ConsistentKeepsGet(s: State, r: L.ReadEvent)
    requires s.get == Consistent && GetInv(s) && P.ReadInv(L.ReadStep(s.node, r))
    ensures GetInv(ConsistentStep(s, r))
  {
    var s' := ConsistentStep(s, r);
    match s.node.read {
      case Confirmed(t, _) =>
        assert s'.node.read.Ready? && s' != s ==> s'.log == [Arrived, Kept, Verified(t), SawReady];
      case Ready(_, _, _) =>
        var t :| s.log == [Arrived, Kept, Verified(t), SawReady];
        assert s'.node.read.Valued? ==> s'.log == [Arrived, Kept, Verified(t), SawReady, GotValue(s'.node.read.at)];
      case Valued(_, _, _, at) =>
        var t :| s.log == [Arrived, Kept, Verified(t), SawReady, GotValue(at)];
        assert s'.get.Served? ==>
          s'.log == [Arrived, Kept, Verified(t), SawReady, GotValue(at), GotIndex(s'.get.index)];
      case _ =>
    }
  }

  lemma RouteKeepsGet(s: State, env: Env<Read>)
    requires GetInv(s)
    ensures GetInv(Step(s, Route(env)))
  {
  }

  lemma GetLeavesAdd(s: State, e: Event)
    requires AddInv(s) && (e.Arrive? || e.Route? || e.Query? || e.StoreFails?)
    ensures AddInv(Step(s, e))
  {
    hide AddInv, ForwardRequestToLeader, L.ReadStep;
    match e {
      case Route(env) => ReadLeavesLog(s.node, L.BeginRead);
      case Query(r) => ReadLeavesLog(s.node, r);
      case _ =>
    }
    SameAdd(s, Step(s, e));
  }

  lemma ReadLeavesLog(s: L.State, r: L.ReadEvent)
    ensures L.ReadStep(s, r).committed == s.committed && L.ReadStep(s, r).acked == s.acked
  {
  }

  lemma GetStepKeeps(s: State, e: Event)
    requires P.Inv(s.node) && GetInv(s) && AddInv(s)
    requires e.Arrive? || e.Route? || e.Query? || e.StoreFails?
    ensures P.Inv(Step(s, e).node) && GetInv(Step(s, e)) && AddInv(Step(s, e))
  {
    hide P.Inv, AddInv, OnTheWay, Verifiedly, ForwardRequestToLeader;
    GetLeavesAdd(s, e);
    match e {
      case Route(env) =>
        P.ReadKeepsInv(s.node, L.BeginRead);
        RouteKeepsGet(s, env);
      case Query(r) =>
        P.ReadKeepsInv(s.node, r);
        QueryKeepsGet(s, r);
      case _ =>
    }
  }

  lemma StepKeeps(s: State, e: Event)
    requires P.Inv(s.node) && GetInv(s) && AddInv(s)
    ensures P.Inv(Step(s, e).node) && GetInv(Step(s, e)) && AddInv(Step(s, e))
  {
    hide P.Inv, GetInv, AddInv, L.Step;
    match e {
      case Node(n) =>
        if !n.Reading? {
          P.StepKeepsInv(s.node, n);
          NodeKeepsGet(s, n);
          NodeKeepsAdd(s, n);
        }
      case Arrive(_) => GetStepKeeps(s, e);
      case Route(_) => GetStepKeeps(s, e);
      case Query(_) => GetStepKeeps(s, e);
      case StoreFails => GetStepKeeps(s, e);
      case _ => AddStepKeeps(s, e);
    }
  }

  /** The Add does not depend on where the Get stands. */
  lemma SameAdd(s: State, s': State)
    requires s'.add == s.add && s'.calls == s.calls && s'.inFlight == s.inFlight && s'.entries == s.entries
    requires s'.node.committed == s.node.committed && s'.node.acked == s.node.acked && AddInv(s)
    ensures AddInv(s')
  {
  }

  lemma {:induction false} RunKeeps(s: State, events: seq<Event>)
    requires P.Inv(s.node) && GetInv(s) && AddInv(s)
    ensures P.Inv(Run(s, events).node) && GetInv(Run(s, events)) && AddInv(Run(s, events))
    decreases |events|
  {
    hide P.Inv, GetInv, AddInv, Step;
    if events == [] {
    } else {
      StepKeeps(s, events[0]);
      RunKeeps(Step(s, events[0]), events[1..]);
    }
  }

  /**
   An Add makes one attempt at most, in any interleaving: it calls the leader once, or it has one entry committed
   here, never both, also when the call or the future failed and the write may yet go through. What it returns for
   a write of its own is the commit index of that entry, which is then acknowledged.
   */
  lemma AddOnce(events: seq<Event>)
    ensures
      var s := Run(START, events);
      && |s.calls| + |s.entries| <= 1
      && (s.add.AddForwarded? ==> |s.calls| == 1)
      && (s.add.AddReturned? ==> s.calls == [] && s.entries == [s.add.index - 1] && s.add.index - 1 in s.node.acked)
  {
    P.InitInv();
    RunKeeps(START, events);
  }

  /**
   A linearizable Get never degrades, in any interleaving and whatever becomes of the forwarding. It returns the
   reply of the leader it called, or a value this node read only after a successful verification and a look at the
   ready flag, both made after the Get arrived. If the barrier behind the flag was of the verified term, a later one
   or the one just before, that value contains every write acknowledged by any leader before the Get arrived, and
   the index reported is at least the commit index of each of them.
   */
  lemma LinearizableGet(events: seq<Event>)
    ensures
      var s := Run(START, events);
      && (s.get.Forwarded? ==> exists a :: s.log == [Arrived, Replied(a)])
      && (s.get.Served? && s.linearizable ==>
            && Verifiedly(s, s.get.at, s.get.index)
            && (s.node.read.Answered? && s.node.read.near ==>
                  forall i :: i in s.must ==> i < s.get.at && i + 1 <= s.get.index))
  {
    hide P.MonitorInv, P.FlagInv;
    P.InitInv();
    RunKeeps(START, events);
  }

  /** A write acknowledged before a Get arrives stays in what the Get must see. */
  predicate Remembers(s: State, w: nat) {
    w in s.node.acked && (s.get != Idle ==> w in s.must)
  }

  lemma StepRemembers(s: State, e: Event, w: nat)
    requires Remembers(s, w)
    ensures Remembers(Step(s, e), w)
  {
    hide L.Step, L.ReadStep, ForwardRequestToLeader;
    match e {
      case Node(n) => NodeGrows(s.node, n);
      case Route(_) => ReadLeavesLog(s.node, L.BeginRead);
      case Query(r) => ReadLeavesLog(s.node, r);
      case AddCommit =>
        if s.inFlight.Some? {
          NodeGrows(s.node, L.Raft(L.Commit(s.inFlight.value)));
        }
      case AddReturn =>
        if s.entries != [] {
          NodeGrows(s.node, L.Raft(L.Ack(s.entries[0])));
        }
      case _ =>
    }
  }

  lemma {:induction false} RunRemembers(s: State, events: seq<Event>, w: nat)
    requires Remembers(s, w)
    ensures Remembers(Run(s, events), w)
    decreases |events|
  {
    hide Remembers, Step;
    if events == [] {
    } else {
      StepRemembers(s, events[0], w);
      RunRemembers(Step(s, events[0]), events[1..], w);
    }
  }

  lemma {:induction false} RunConcat(s: State, a: seq<Event>, b: seq<Event>)
    ensures Run(s, a + b) == Run(Run(s, a), b)
    decreases |a|
  {
    hide Step;
    if a == [] {
      assert a + b == b;
    } else {
      assert (a + b)[1..] == a[1..] + b;
      RunConcat(Step(s, a[0]), a[1..], b);
    }
  }

  /**
   Read your writes: once an Add has returned its commit index, a linearizable Get that arrives later and is served
   here, under the condition above, reads a state containing that write and reports at least that index.
   */
  lemma ReadYourWrites(before: seq<Event>, after: seq<Event>)
    requires Run(START, before).add.AddReturned? && Run(START, before).get == Idle
    ensures
      var index, s := Run(START, before).add.index, Run(START, before + after);
      s.get.Served? && s.linearizable && s.node.read.Answered? && s.node.read.near ==>
        index <= s.get.at && index <= s.get.index
  {
    hide Step, P.Inv, GetInv, Verifiedly;
    var s := Run(START, before);
    AddOnce(before);
    RunRemembers(s, after, s.add.index - 1);
    RunConcat(START, before, after);
    LinearizableGet(before + after);
  }

  /** Every Get that is served here, linearizable or not, reports an index that covers the state its value came from. */
  lemma GetIndexBound(events: seq<Event>)
    ensures
      var s := Run(START, events);
      s.get.Served? ==>
        s.get.at <= s.get.index && (!s.linearizable ==> s.log == [Arrived, GotValue(s.get.at), GotIndex(s.get.index)])
  {
    P.InitInv();
    RunKeeps(START, events);
  }

  lemma RunThree(s: State, a: Event, b: Event, c: Event)
    ensures Run(s, [a, b, c]) == Step(Step(Step(s, a), b), c)
  {
    hide Step;
    var s1 := Step(s, a);
    var s2 := Step(s1, b);
    assert [a, b, c][1..] == [b, c] && [b, c][1..] == [c] && [c][1..] == [];
    assert Run(s2, [c]) == Run(Step(s2, c), []);
    assert Run(s1, [b, c]) == Run(s2, [c]);
  }

  const STALE_GET: seq<Event> := [Arrive(false), Query(L.ReadValue), Query(L.ReadIndex)]

  /** A Get that is not linearizable can miss any acknowledged write this node has not applied yet. */
  lemma StaleGetMisses(s: State, i: nat)
    requires s.get == Idle && i in s.node.acked && i >= s.node.applied
    ensures
      var s' := Run(s, STALE_GET);
      s'.get.Served? && i in s'.must && s'.get.at <= i
  {
    RunThree(s, Arrive(false), Query(L.ReadValue), Query(L.ReadIndex));
  }

  const BEHIND: seq<Event> := [Node(L.Raft(L.Elect(1))), Node(L.Raft(L.Commit(1))), Node(L.Raft(L.Ack(0)))]

  /** There are such writes on a node that is behind. */
  lemma BehindRun()
    ensures
      var s := Run(START, BEHIND);
      s.get == Idle && s.node.acked == {0} && s.node.applied == 0
  {
    var n1 := L.INIT.(clusterTerm := 1, elected := {1});
    var n2 := n1.(committed := [1]);
    assert L.RaftStep(L.INIT, L.Elect(1)) == n1 && L.RaftStep(n1, L.Commit(1)) == n2;
    assert L.RaftStep(n2, L.Ack(0)) == n2.(acked := {0});
    hide L.RaftStep;
    RunThree(START, BEHIND[0], BEHIND[1], BEHIND[2]);
  }

  // ---- a run of an Add and a Get after it ----

  function Nodes(es: seq<L.Event>): seq<Event> {
    seq(|es|, i requires 0 <= i < |es| => Node(es[i]))
  }

  lemma {:induction false} RunNodes(s: State, es: seq<L.Event>)
    requires forall e :: e in es ==> !e.Reading?
    ensures Run(s, Nodes(es)) == s.(node := L.Run(s.node, es))
    decreases |es|
  {
    hide L.Step;
    if es == [] {
    } else {
      assert es[0] in es && Nodes(es)[0] == Node(es[0]) && Nodes(es)[1..] == Nodes(es[1..]);
      RunNodes(Step(s, Node(es[0])), es[1..]);
    }
  }

  const ADD: seq<Event> := [AddArrive, AddRoute(Env(true, Self, _ => None, false, None)), AddPropose]
  const COMMIT: seq<Event> := [AddCommit, Node(L.Raft(L.Dispatch)), Node(L.Raft(L.Dispatch))]
  const RETURN: seq<Event> := [Node(L.Raft(L.Apply)), Node(L.Raft(L.Apply)), AddReturn]
  const GET: seq<Event> := [Arrive(true), Route(Env(true, Self, _ => None, false, None)), Query(L.VerifyOk(1))]
  const READ: seq<Event> := [Query(L.SeeReady), Query(L.ReadValue), Query(L.ReadIndex)]

  const DISPATCHED := T.READY.(committed := [1, 1], dispatched := 2)
  const APPLIED := DISPATCHED.(applied := 2, acked := {1})
  const READY_HERE := START.(node := T.READY)
  const ADDING := READY_HERE.(add := Waiting, inFlight := Some(1))
  const ADDED := START.(node := DISPATCHED, add := Waiting, entries := [1])
  const RETURNED := ADDED.(node := APPLIED, add := AddReturned(2))
  const CONFIRMED := RETURNED.(node := APPLIED.(read := L.Confirmed(1, {1})), get := Consistent, linearizable := true,
                               must := {1}, log := [Arrived, Kept, Verified(1)])

  lemma AddRuns()
    ensures Run(READY_HERE, ADD) == ADDING
  {
    RunThree(READY_HERE, ADD[0], ADD[1], ADD[2]);
  }

  lemma CommitRuns()
    ensures Run(ADDING, COMMIT) == ADDED
  {
    RunThree(ADDING, COMMIT[0], COMMIT[1], COMMIT[2]);
    var n := T.READY.(committed := [1, 1]);
    assert L.RaftStep(T.READY, L.Commit(1)) == n;
    assert L.RaftStep(n, L.Dispatch) == n.(dispatched := 1);
    assert L.RaftStep(n.(dispatched := 1), L.Dispatch) == DISPATCHED;
  }

  lemma ReturnRuns()
    ensures Run(ADDED, RETURN) == RETURNED
  {
    var n := DISPATCHED.(applied := 1);
    var n' := DISPATCHED.(applied := 2);
    assert L.RaftStep(DISPATCHED, L.Apply) == n && L.RaftStep(n, L.Apply) == n';
    assert L.RaftStep(n', L.Ack(1)) == APPLIED;
    hide L.RaftStep;
    RunThree(ADDED, RETURN[0], RETURN[1], RETURN[2]);
    assert Step(ADDED.(node := n), RETURN[1]) == ADDED.(node := n');
  }

  lemma GetRuns()
    ensures Run(RETURNED, GET) == CONFIRMED
  {
    RunThree(RETURNED, GET[0], GET[1], GET[2]);
    assert L.ReadStep(APPLIED, L.BeginRead) == APPLIED.(read := L.Begun(1, {1}));
  }

  lemma ReadRuns()
    ensures
      var s := Run(CONFIRMED, READ);
      s.get == Served(2, 2) && s.linearizable && s.node.read == L.Answered({1}, true, true, 2, 2)
  {
    var n := APPLIED.(read := L.Confirmed(1, {1}));
    var n1 := n.(read := L.Ready({1}, true, true));
    var n2 := n.(read := L.Valued({1}, true, true, 2));
    var n3 := n.(read := L.Answered({1}, true, true, 2, 2));
    assert L.ReadStep(n, L.SeeReady) == n1;
    assert L.ReadStep(n1, L.ReadValue) == n2;
    assert L.ReadStep(n2, L.ReadIndex) == n3;
    hide L.ReadStep;
    RunThree(CONFIRMED, READ[0], READ[1], READ[2]);
    var s1 := CONFIRMED.(node := n1, log := CONFIRMED.log + [SawReady]);
    var s2 := s1.(node := n2, log := s1.log + [GotValue(2)]);
    assert Step(CONFIRMED, READ[0]) == s1;
    assert Step(s1, READ[1]) == s2;
  }

  /** ReadYourWrites is not empty: an Add returns index 2, and a linearizable Get after it is served at index 2. */
  lemma WriteThenRead()
    ensures
      var before := Nodes(T.READY_EVENTS) + ADD + COMMIT + RETURN;
      var s, s' := Run(START, before), Run(START, before + (GET + READ));
      && s.add == AddReturned(2) && s.get == Idle
      && s'.get == Served(2, 2) && s'.linearizable && s'.node.read.Answered? && s'.node.read.near
  {
    hide Run, Step, L.Run;
    T.ReadyState();
    RunNodes(START, T.READY_EVENTS);
    AddRuns();
    CommitRuns();
    ReturnRuns();
    GetRuns();
    ReadRuns();
    var front := Nodes(T.READY_EVENTS);
    RunConcat(START, front, ADD);
    RunConcat(START, front + ADD, COMMIT);
    RunConcat(START, front + ADD + COMMIT, RETURN);
    RunConcat(START, front + ADD + COMMIT + RETURN, GET + READ);
    RunConcat(RETURNED, GET, READ);
  }

  /** A write whose Add failed may yet go through: proposed here, failed, and committed after that. */
  lemma FailedAddGoesThrough()
    ensures
      var s := Run(START, Nodes(T.READY_EVENTS) + ADD + [AddFail, AddCommit]);
      s.add == AddFailed && s.entries == [1] && s.node.committed == [1, 1]
  {
    var failed := ADDING.(add := AddFailed);
    assert Step(ADDING, AddFail) == failed;
    assert L.RaftStep(T.READY, L.Commit(1)) == T.READY.(committed := [1, 1]);
    var s := Step(failed, AddCommit);
    assert s.add == AddFailed && s.entries == [1] && s.node.committed == [1, 1];
    hide Step, L.RaftStep, L.Run;
    T.ReadyState();
    RunNodes(START, T.READY_EVENTS);
    AddRuns();
    var front, last := Nodes(T.READY_EVENTS), [AddFail, AddCommit];
    RunConcat(START, front, ADD);
    RunConcat(START, front + ADD, last);
    assert last[1..] == [AddCommit] && [AddCommit][1..] == [];
    assert Run(failed, [AddCommit]) == Run(s, []);
  }

  function ToLeader<T>(reply: T): Env<T> {
    Env(true, Remote([7]), _ => Some([9]), true, Some(reply))
  }

  const ADD_ROUTING := START.(add := AddRouting)

  lemma ForwardedAdd(n: nat)
    ensures Step(START, AddArrive) == ADD_ROUTING
    ensures Step(ADD_ROUTING, AddRoute(ToLeader(n))) == START.(add := AddForwarded(n), calls := [[9]])
  {
    AddRoutesExactly(ADD_ROUTING, ToLeader(n));
    assert Connects(ToLeader(n), [9]);
    assert [] + [[9]] == [[9]];
    hide Step, Connects;
  }

  lemma ForwardedGet(s: State, r: Read)
    requires s.get == Idle && s.node.role.None?
    ensures
      var s' := Step(Step(s, Arrive(true)), Route(ToLeader(r)));
      s' == s.(get := Forwarded(r), linearizable := true, must := s.node.acked, log := [Arrived, Replied([9])])
  {
  }

  /** On a follower: an Add and a Get are forwarded and return what the leader replied. */
  lemma ForwardedRun(n: nat, r: Read)
    ensures
      var s := Run(START, [AddArrive, AddRoute(ToLeader(n)), Arrive(true)] + [Route(ToLeader(r))]);
      s.add == AddForwarded(n) && s.calls == [[9]] && s.get == Forwarded(r) && s.log == [Arrived, Replied([9])]
  {
    hide Step;
    var front := [AddArrive, AddRoute(ToLeader(n)), Arrive(true)];
    var last := [Route(ToLeader(r))];
    ForwardedAdd(n);
    var s2 := Step(ADD_ROUTING, AddRoute(ToLeader(n)));
    ForwardedGet(s2, r);
    RunThree(START, front[0], front[1], front[2]);
    RunConcat(START, front, last);
    var s3 := Step(s2, Arrive(true));
    assert last[1..] == [];
    assert Run(s3, last) == Run(Step(s3, last[0]), []);
  }
}
