/** service/blocking_query.go and the Watch stream of service/service.go. */
module Watch {
  import opened Bytes

  const MAX_UINT64: nat := TWO_TO_64 - 1

  function Next(index: nat): nat {
    if index == MAX_UINT64 then 0 else index + 1
  }

  /** One run of queryFn: a value and the applied index, or an error. */
  datatype Answer = Answered(value: bytes, index: nat) | QueryFailed

  /** What the select of the polling loop picks: nondeterministic, so any sequence of these. */
  datatype Event = Timeout | Abandoned | Tick(answer: Answer)

  datatype Response = Response(value: bytes, index: nat, abandoned: bool)

  /** Pending: the call is still waiting when the events run out. */
  datatype Result = Responded(response: Response) | Failed | Pending

  /** Why a call responded; the wire format does not tell. */
  datatype Cause = Immediate | Reached | TimedOut | WasAbandoned

  /** The answers a call has seen, in order. */
  function Answers(first: Answer, events: seq<Event>): (answers: seq<Answer>)
    ensures |answers| > 0 && answers[0] == first
    decreases |events|
  {
    if events == [] then [first]
    else if events[|events| - 1].Tick? then Answers(first, events[..|events| - 1]) + [events[|events| - 1].answer]
    else Answers(first, events[..|events| - 1])
  }

  predicate Below(a: Answer, min: nat) {
    a.Answered? && a.index < min
  }

  /** The call is still in its loop after these events: every answer was below the minimum, only ticks came. */
  predicate Waiting(min: nat, first: Answer, events: seq<Event>) {
    && min > 0
    && (forall e :: e in events ==> e.Tick?)
    && (forall a :: a in Answers(first, events) ==> Below(a, min))
  }

  function Latest(first: Answer, events: seq<Event>): Answer {
    var answers := Answers(first, events);
    answers[|answers| - 1]
  }

  function Report(a: Answer): Response
    requires a.Answered?
  {
    Response(a.value, a.index, false)
  }

  /**
   What a blocking query that used up exactly `events` has returned, and why: the initial answer if that
   suffices, else the first later answer to reach the minimum, the latest answer on a timeout, or an empty
   abandoned response. An error of the query ends it at once.
   */
  predicate Returns(min: nat, first: Answer, events: seq<Event>, result: Result, cause: Cause) {
    match result
    case Pending => Waiting(min, first, events)
    case Failed =>
      && Latest(first, events) == QueryFailed
      && (events != [] ==> Waiting(min, first, events[..|events| - 1]))
    case Responded(response) =>
      match cause
      case Immediate => events == [] && first.Answered? && response == Report(first) && (min == 0 || first.index >= min)
      case Reached =>
        && events != [] && Waiting(min, first, events[..|events| - 1]) && events[|events| - 1].Tick?
        && Latest(first, events).Answered? && Latest(first, events).index >= min
        && response == Report(Latest(first, events))
      case TimedOut =>
        && events != [] && Waiting(min, first, events[..|events| - 1]) && events[|events| - 1] == Timeout
        && Latest(first, events).Answered? && response == Report(Latest(first, events))
      case WasAbandoned =>
        && events != [] && Waiting(min, first, events[..|events| - 1]) && events[|events| - 1] == Abandoned
        && response == Response([], 0, true)
  }

  /** How a call ended, after how many events, and why. */
  datatype Settled = Settled(result: Result, used: nat, cause: Cause)

  /** The polling loop with `latest` in hand and `i` events behind it. */
  function Poll(min: nat, latest: Answer, events: seq<Event>, i: nat): Settled
    requires latest.Answered? && i <= |events|
    decreases |events| - i
  {
    if i == |events| then Settled(Pending, i, Immediate)
    else match events[i]
      case Timeout => Settled(Responded(Report(latest)), i + 1, TimedOut)
      case Abandoned => Settled(Responded(Response([], 0, true)), i + 1, WasAbandoned)
      case Tick(answer) =>
        if answer == QueryFailed then Settled(Failed, i + 1, Immediate)
        else if answer.index >= min then Settled(Responded(Report(answer)), i + 1, Reached)
        else Poll(min, answer, events, i + 1)
  }

  function Settle(min: nat, first: Answer, events: seq<Event>): Settled {
    if first == QueryFailed then Settled(Failed, 0, Immediate)
    else if min == 0 || first.index >= min then Settled(Responded(Report(first)), 0, Immediate)
    else Poll(min, first, events, 0)
  }

  lemma {:induction false} PollReturns(min: nat, first: Answer, events: seq<Event>, latest: Answer, i: nat)
    requires i <= |events| && Waiting(min, first, events[..i])
    requires latest.Answered? && latest == Latest(first, events[..i])
    ensures
      var s := Poll(min, latest, events, i);
      s.used <= |events| && Returns(min, first, events[..s.used], s.result, s.cause)
    decreases |events| - i
  {
    if i == |events| {
      assert events[..i] == events;
    } else {
      assert events[..i + 1][..i] == events[..i];
      if events[i].Tick? && Below(events[i].answer, min) {
        PollReturns(min, first, events, events[i].answer, i + 1);
      }
    }
  }

  /** For every environment, what a blocking query returns is what Returns allows. */
  lemma SettleReturns(min: nat, first: Answer, events: seq<Event>)
    ensures
      var s := Settle(min, first, events);
      s.used <= |events| && Returns(min, first, events[..s.used], s.result, s.cause)
  {
    assert events[..0] == [];
    if first.Answered? && min > first.index {
      PollReturns(min, first, events, first, 0);
    }
  }

  /** The last of the query answers seen: the initial one if no tick came, else that of the last tick. */
  predicate IsLastAnswer(first: Answer, events: seq<Event>, a: Answer) {
    || (a == first && forall i :: 0 <= i < |events| ==> !events[i].Tick?)
    || exists i :: 0 <= i < |events| && events[i].Tick? && events[i].answer == a
                   && forall j :: i < j < |events| ==> !events[j].Tick?
  }

  /** What is reported to a client: the last answer, value and index, or nothing but the fact of a restore. */
  predicate Tells(first: Answer, events: seq<Event>, r: Response) {
    if r.abandoned then r.value == [] && r.index == 0 else IsLastAnswer(first, events, Answered(r.value, r.index))
  }

  lemma {:induction false} LatestIsLast(first: Answer, events: seq<Event>)
    ensures IsLastAnswer(first, events, Latest(first, events))
    decreases |events|
  {
    if events == [] {
    } else {
      var n := |events| - 1;
      LatestIsLast(first, events[..n]);
      if !events[n].Tick? {
        var a := Latest(first, events);
        assert a == Latest(first, events[..n]);
        if i :| 0 <= i < n && events[..n][i].Tick? && events[..n][i].answer == a
                && forall j :: i < j < n ==> !events[..n][j].Tick?
        {
          assert events[i].Tick? && events[i].answer == a && forall j :: i < j < |events| ==> !events[j].Tick?;
        } else {
          assert forall i :: 0 <= i < n ==> !events[..n][i].Tick?;
        }
      }
    }
  }

  /** For every environment, a response carries the last answer seen when it was given. */
  lemma SettleTells(min: nat, first: Answer, events: seq<Event>)
    ensures
      var s := Settle(min, first, events);
      s.used <= |events| && (s.result.Responded? ==> Tells(first, events[..s.used], s.result.response))
  {
    hide Settle, Latest, IsLastAnswer;
    SettleReturns(min, first, events);
    var s := Settle(min, first, events);
    LatestIsLast(first, events[..s.used]);
    if s.used == 0 {
      LatestOfNone(first);
    }
  }

  lemma LatestOfNone(first: Answer)
    ensures Latest(first, []) == first
  {
  }

  method BlockingQuery(min: nat, first: Answer, events: seq<Event>) returns (result: Result)
    ensures
      var s := Settle(min, first, events);
      && s.result == result && s.used <= |events| && Returns(min, first, events[..s.used], result, s.cause)
      && (result.Responded? ==> Tells(first, events[..s.used], result.response))
  {
    SettleReturns(min, first, events);
    SettleTells(min, first, events);
    hide Returns, Tells;
    if first == QueryFailed {
      return Failed;
    }
    var value, currentIndex: nat := first.value, first.index;
    if min == 0 || currentIndex >= min {
      return Responded(Response(value, currentIndex, false));
    }
    var i := 0;
    while i < |events|
      invariant 0 <= i <= |events|
      invariant Poll(min, Answered(value, currentIndex), events, i) == Settle(min, first, events)
    {
      match events[i] {
        case Timeout =>
          return Responded(Response(value, currentIndex, false));
        case Abandoned =>
          return Responded(Response([], 0, true));
        case Tick(answer) =>
          if answer == QueryFailed {
            return Failed;
          }
          value, currentIndex := answer.value, answer.index;
          if currentIndex >= min {
            return Responded(Response(value, currentIndex, false));
          }
      }
      i := i + 1;
    }
    result := Pending;
  }

  /** What the environment does to one turn of a watch: the context, the query answers, the select, the send. */
  datatype Turn = Turn(cancelled: bool, first: Answer, events: seq<Event>, sent: bool)

  /** The applied index never fell below `index` while the turn was polling. */
  predicate Steady(turn: Turn, index: nat) {
    && (turn.first.Answered? ==> turn.first.index >= index)
    && forall e :: e in turn.events && e.Tick? && e.answer.Answered? ==> e.answer.index >= index
  }

  /** The minimum the next query waits for; `reset` is 0 in Watch and 1 in WatchKey. */
  function NextMin(r: Response, reset: nat): nat {
    if r.abandoned then reset else Next(r.index)
  }

  /** How a response relates to its predecessor on the stream. */
  predicate Follows(p: Response, r: Response, cause: Cause, turn: Turn, reset: nat) {
    && r.abandoned == (cause == WasAbandoned)
    // ordering: a change is strictly newer, a timeout is never newer and repeats the index if that held steady
    && (!p.abandoned && p.index < MAX_UINT64 ==>
          && (cause in {Immediate, Reached} ==> r.index > p.index)
          && (cause == TimedOut ==> r.index <= p.index)
          && (cause == TimedOut && Steady(turn, p.index) ==> r.index == p.index))
    // at the last index the minimum wraps to 0, so the next response is immediate
    && (!p.abandoned && p.index == MAX_UINT64 ==> cause == Immediate)
    // after a restore Watch responds without blocking, WatchKey unless the index is still 0
    && (p.abandoned && reset == 0 ==> cause == Immediate)
    && (p.abandoned && cause != Immediate ==> turn.first.Answered? && turn.first.index < reset)
  }

  /** A blocking query with this minimum gives this response to this turn. */
  predicate Produced(turn: Turn, min: nat, r: Response, cause: Cause) {
    var s := Settle(min, turn.first, turn.events);
    s.result == Responded(r) && s.cause == cause
  }

  function MinAt(responses: seq<Response>, k: nat, start: nat, reset: nat): nat
    requires k <= |responses|
  {
    if k == 0 then start else NextMin(responses[k - 1], reset)
  }

  /** What a watch sends: turn by turn, each query waiting for the minimum its predecessor left. */
  ghost predicate Stream(responses: seq<Response>, causes: seq<Cause>, turns: seq<Turn>, start: nat, reset: nat) {
    && |responses| == |causes| <= |turns|
    && (forall k :: 0 <= k < |responses| ==> !turns[k].cancelled && turns[k].sent)
    && forall k :: 0 <= k < |responses| ==>
      Produced(turns[k], MinAt(responses, k, start, reset), responses[k], causes[k])
  }

  /** Each response tells what some moment of its turn was. */
  ghost predicate Carries(turn: Turn, r: Response) {
    exists used :: 0 <= used <= |turn.events| && Tells(turn.first, turn.events[..used], r)
  }

  /** It stops only on a cancelled context, a failed or endless query, or a failed send. */
  predicate Stops(turn: Turn, min: nat) {
    turn.cancelled || !turn.sent || !Settle(min, turn.first, turn.events).result.Responded?
  }

  lemma {:induction false} LatestSteady(turn: Turn, used: nat, index: nat)
    requires used <= |turn.events| && Steady(turn, index)
    ensures forall a :: a in Answers(turn.first, turn.events[..used]) && a.Answered? ==> a.index >= index
    decreases used
  {
    if used == 0 {
    } else {
      assert turn.events[..used][..used - 1] == turn.events[..used - 1];
      LatestSteady(turn, used - 1, index);
      assert turn.events[used - 1] in turn.events;
    }
  }

  lemma LatestIn(first: Answer, events: seq<Event>)
    ensures Latest(first, events) in Answers(first, events)
  {
  }

  /** A timeout reports an answer that was still below the minimum. */
  lemma TimeoutBelow(min: nat, first: Answer, events: seq<Event>, r: Response)
    requires Returns(min, first, events, Responded(r), TimedOut)
    ensures r.index < min && !r.abandoned
  {
    LatestIn(first, events[..|events| - 1]);
  }

  lemma FollowsFrom(p: Response, r: Response, cause: Cause, turn: Turn, reset: nat)
    requires p.index <= MAX_UINT64 && reset <= 1 && Produced(turn, NextMin(p, reset), r, cause)
    ensures Follows(p, r, cause, turn, reset)
  {
    hide Latest, Answers, Steady;
    var min := NextMin(p, reset);
    SettleReturns(min, turn.first, turn.events);
    var used := Settle(min, turn.first, turn.events).used;
    if cause == TimedOut {
      TimeoutBelow(min, turn.first, turn.events[..used], r);
      if Steady(turn, p.index) {
        LatestSteady(turn, used, p.index);
        LatestIn(turn.first, turn.events[..used]);
      }
    }
    if used > 0 && cause != Immediate {
      FirstIn(turn.first, turn.events[..used][..used - 1]);
    }
  }

  lemma FirstIn(first: Answer, events: seq<Event>)
    ensures first in Answers(first, events)
  {
  }

  /** queryFn reports a uint64. */
  predicate Uint64Answers(turn: Turn) {
    && (turn.first.Answered? ==> turn.first.index <= MAX_UINT64)
    && forall e :: e in turn.events && e.Tick? && e.answer.Answered? ==> e.answer.index <= MAX_UINT64
  }

  lemma {:induction false} AnswersAre64(turn: Turn, used: nat)
    requires used <= |turn.events| && Uint64Answers(turn)
    ensures forall a :: a in Answers(turn.first, turn.events[..used]) && a.Answered? ==> a.index <= MAX_UINT64
    decreases used
  {
    if used == 0 {
    } else {
      assert turn.events[..used][..used - 1] == turn.events[..used - 1];
      AnswersAre64(turn, used - 1);
      assert turn.events[used - 1] in turn.events;
    }
  }

  lemma ResponseIs64(min: nat, turn: Turn, r: Response, cause: Cause)
    requires Uint64Answers(turn) && Produced(turn, min, r, cause)
    ensures r.index <= MAX_UINT64
  {
    SettleReturns(min, turn.first, turn.events);
    var used := Settle(min, turn.first, turn.events).used;
    AnswersAre64(turn, used);
    LatestIn(turn.first, turn.events[..used]);
  }

  lemma FirstReaches(min: nat, turn: Turn, r: Response, cause: Cause)
    requires Produced(turn, min, r, cause)
    ensures cause in {Immediate, Reached} ==> r.index >= min
    ensures min == 0 ==> cause == Immediate
  {
    hide Settle;
    SettleReturns(min, turn.first, turn.events);
  }

  /**
   Watch ordering, for every environment and every two consecutive responses. The first response is at or above
   the requested minimum unless the query timed out or was abandoned.
   */
  lemma WatchOrdering(responses: seq<Response>, causes: seq<Cause>, turns: seq<Turn>, start: nat, reset: nat)
    requires Stream(responses, causes, turns, start, reset) && reset <= 1
    requires forall t :: t in turns ==> Uint64Answers(t)
    ensures forall k :: 0 < k < |responses| ==> Follows(responses[k - 1], responses[k], causes[k], turns[k], reset)
    ensures responses != [] && causes[0] in {Immediate, Reached} ==> responses[0].index >= start
    ensures responses != [] && start == 0 ==> causes[0] == Immediate
  {
    hide Follows, Uint64Answers, Produced;
    if responses != [] {
      FirstReaches(start, turns[0], responses[0], causes[0]);
    }
    forall k | 0 < k < |responses|
      ensures Follows(responses[k - 1], responses[k], causes[k], turns[k], reset)
    {
      assert turns[k - 1] in turns;
      ResponseIs64(MinAt(responses, k - 1, start, reset), turns[k - 1], responses[k - 1], causes[k - 1]);
      FollowsFrom(responses[k - 1], responses[k], causes[k], turns[k], reset);
    }
  }

  /** At the last index the strict order is lost: the wrapped minimum lets the same index through again. */
  lemma WrapRepeats(value: bytes)
    ensures
      var r := Response(value, MAX_UINT64, false);
      var turn := Turn(false, Answered(value, MAX_UINT64), [], true);
      Stream([r, r], [Immediate, Immediate], [turn, turn], MAX_UINT64, 0)
  {
    var r := Response(value, MAX_UINT64, false);
    var turn := Turn(false, Answered(value, MAX_UINT64), [], true);
    assert Produced(turn, MAX_UINT64, r, Immediate) && Produced(turn, 0, r, Immediate);
  }

  lemma StreamGrows(responses: seq<Response>, causes: seq<Cause>, turns: seq<Turn>, start: nat, reset: nat,
                    r: Response, cause: Cause)
    requires Stream(responses, causes, turns, start, reset) && |responses| < |turns|
    requires !turns[|responses|].cancelled && turns[|responses|].sent
    requires Produced(turns[|responses|], MinAt(responses, |responses|, start, reset), r, cause)
    ensures Stream(responses + [r], causes + [cause], turns, start, reset)
    ensures MinAt(responses + [r], |responses| + 1, start, reset) == NextMin(r, reset)
  {
    hide Produced;
    var responses', causes' := responses + [r], causes + [cause];
    forall k | 0 <= k < |responses'|
      ensures Produced(turns[k], MinAt(responses', k, start, reset), responses'[k], causes'[k])
    {
      assert MinAt(responses', k, start, reset) == MinAt(responses, k, start, reset);
    }
  }

  lemma StreamStarts(turns: seq<Turn>, start: nat, reset: nat)
    ensures Stream([], [], turns, start, reset) && MinAt([], 0, start, reset) == start
  {
  }

  lemma TurnCarries(turn: Turn, min: nat, r: Response)
    requires Settle(min, turn.first, turn.events).result == Responded(r)
    ensures Carries(turn, r)
  {
    hide Settle, Tells;
    SettleTells(min, turn.first, turn.events);
  }

  /** The Watch RPC, until its environment `turns` is used up or it ends: what it sends on the stream. */
  method Watch(minIndex: nat, turns: seq<Turn>) returns (responses: seq<Response>, ghost causes: seq<Cause>)
    ensures Stream(responses, causes, turns, minIndex, 0)
    ensures forall k :: 0 <= k < |responses| ==> Carries(turns[k], responses[k])
    ensures |responses| < |turns| ==> Stops(turns[|responses|], MinAt(responses, |responses|, minIndex, 0))
  {
    hide Returns, Settle, Tells, Carries, Stream, MinAt;
    StreamStarts(turns, minIndex, 0);
    responses, causes := [], [];
    var currentMinIndex, i: nat := minIndex, 0;
    while i < |turns|
      invariant i == |responses| <= |turns|
      invariant Stream(responses, causes, turns, minIndex, 0)
      invariant forall k :: 0 <= k < |responses| ==> Carries(turns[k], responses[k])
      invariant currentMinIndex == MinAt(responses, i, minIndex, 0)
    {
      if turns[i].cancelled {
        return;
      }
      ghost var cause := Settle(currentMinIndex, turns[i].first, turns[i].events).cause;
      var result := BlockingQuery(currentMinIndex, turns[i].first, turns[i].events);
      if !result.Responded? {
        return;
      }
      if !turns[i].sent {
        return;
      }
      var r := result.response;
      StreamGrows(responses, causes, turns, minIndex, 0, r, cause);
      TurnCarries(turns[i], currentMinIndex, r);
      responses, causes := responses + [r], causes + [cause];
      currentMinIndex := if r.abandoned then 0 else Next(r.index);
      i := i + 1;
    }
  }

  /** WatchKey: the callback takes the place of the stream, and it waits for lastIndex + 1 from the start. */
  method WatchKey(turns: seq<Turn>) returns (responses: seq<Response>, ghost causes: seq<Cause>)
    ensures Stream(responses, causes, turns, 1, 1)
    ensures forall k :: 0 <= k < |responses| ==> Carries(turns[k], responses[k])
    ensures |responses| < |turns| ==> Stops(turns[|responses|], MinAt(responses, |responses|, 1, 1))
  {
    hide Returns, Settle, Tells, Carries, Stream, MinAt;
    StreamStarts(turns, 1, 1);
    responses, causes := [], [];
    var lastIndex: nat, i: nat := 0, 0;
    while i < |turns|
      invariant i == |responses| <= |turns|
      invariant Stream(responses, causes, turns, 1, 1)
      invariant forall k :: 0 <= k < |responses| ==> Carries(turns[k], responses[k])
      invariant Next(lastIndex) == MinAt(responses, i, 1, 1)
    {
      if turns[i].cancelled {
        return;
      }
      ghost var cause := Settle(Next(lastIndex), turns[i].first, turns[i].events).cause;
      var result := BlockingQuery(Next(lastIndex), turns[i].first, turns[i].events);
      if !result.Responded? {
        return;
      }
      if !turns[i].sent {
        return;
      }
      var r := result.response;
      StreamGrows(responses, causes, turns, 1, 1, r, cause);
      TurnCarries(turns[i], Next(lastIndex), r);
      responses, causes := responses + [r], causes + [cause];
      lastIndex := if r.abandoned then 0 else r.index;
      i := i + 1;
    }
  }
}
