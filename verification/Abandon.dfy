/**
 The abandon channels as restores and watchers interleave. A watcher evaluates AbandonCh each time it enters
 its select and is blocked on that channel; Restore counts, replaces the channel, and closes the old one.
 */
module Abandon {
  import opened Channels

  datatype Phase = Quiet | Counted | Replaced(oldCh: nat)

  /** `closes` counts the closings of every channel made so far; `held` is the channel each blocked watcher holds. */
  datatype State = State(closes: seq<nat>, current: nat, restores: nat, phase: Phase, held: map<nat, nat>)

  datatype Event =
    | Count
    | Replace
    | CloseOld
    | Block(w: nat)
    | Wake(w: nat)
    | Leave(w: nat)

  const INITIAL := State([0], 0, 0, Quiet, map[])

  /** The abandon case of a blocked watcher's select can fire. */
  predicate Enabled(s: State, w: nat) {
    w in s.held && s.held[w] < |s.closes| && s.closes[s.held[w]] > 0
  }

  predicate CanStep(s: State, e: Event) {
    match e
    case Count => s.phase == Quiet
    case Replace => s.phase == Counted
    case CloseOld => s.phase.Replaced?
    case Block(w) => w !in s.held
    case Wake(w) => Enabled(s, w)
    case Leave(w) => w in s.held
  }

  function Step(s: State, e: Event): State
    requires CanStep(s, e)
  {
    match e
    case Count => s.(restores := s.restores + 1, phase := Counted)
    case Replace => s.(current := |s.closes|, closes := s.closes + [0], phase := Replaced(s.current))
    case CloseOld =>
      s.(phase := Quiet,
         closes := if s.phase.oldCh < |s.closes| then s.closes[s.phase.oldCh := s.closes[s.phase.oldCh] + 1]
           else s.closes)
    case Block(w) => s.(held := s.held[w := s.current])
    case Wake(w) => s.(held := s.held - {w})
    case Leave(w) => s.(held := s.held - {w})
  }

  /** The events can happen one after the other from `s`, and lead to `s'`. */
  ghost predicate Run(s: State, es: seq<Event>, s': State)
    decreases |es|
  {
    if es == [] then s' == s
    else CanStep(s, es[0]) && Run(Step(s, es[0]), es[1..], s')
  }

  /** The channels whose closing is done. */
  function Done(s: State): int {
    match s.phase
    case Quiet => s.current
    case Counted => s.current
    case Replaced(_) => s.current - 1
  }

  ghost predicate Inv(s: State) {
    && s.current == |s.closes| - 1
    && s.restores == s.current + (if s.phase == Counted then 1 else 0)
    && (s.phase.Replaced? ==> s.phase.oldCh == s.current - 1)
    && (forall c :: 0 <= c < |s.closes| ==> s.closes[c] == if c < Done(s) then 1 else 0)
    && (forall w :: w in s.held ==> s.held[w] <= s.current)
  }

  lemma StepKeepsInv(s: State, e: Event)
    requires Inv(s) && CanStep(s, e)
    ensures Inv(Step(s, e))
  {
  }

  lemma {:induction false} RunKeepsInv(s: State, es: seq<Event>, s': State)
    requires Inv(s) && Run(s, es, s')
    ensures Inv(s')
    decreases |es|
  {
    if es == [] {
    } else {
      StepKeepsInv(s, es[0]);
      RunKeepsInv(Step(s, es[0]), es[1..], s');
    }
  }

  /**
   In every run the current channel is open, no channel is ever closed twice (which would panic), and between
   restores every earlier channel was closed exactly once: as many as there were restores.
   */
  lemma AbandonGenerations(es: seq<Event>, s: State)
    requires Run(INITIAL, es, s)
    ensures s.current < |s.closes| && s.closes[s.current] == 0
    ensures forall c :: 0 <= c < |s.closes| ==> s.closes[c] <= 1
    ensures s.phase == Quiet ==> Generations(s.closes, s.restores)
  {
    RunKeepsInv(INITIAL, es, s);
  }

  predicate Untouched(es: seq<Event>, w: nat) {
    Block(w) !in es && Wake(w) !in es && Leave(w) !in es
  }

  lemma {:induction false} HeldThrough(s: State, es: seq<Event>, s': State, w: nat)
    requires Inv(s) && Run(s, es, s') && w in s.held && Untouched(es, w)
    ensures Inv(s') && w in s'.held && s'.held[w] == s.held[w]
    ensures Replace !in es ==> s'.current == s.current
    ensures Replace in es ==> s'.current > s.current
    ensures s'.current >= s.current
    decreases |es|
  {
    if es == [] {
    } else {
      var e, rest := es[0], es[1..];
      assert e in es && forall x :: x in rest ==> x in es;
      assert es == [e] + rest;
      StepKeepsInv(s, e);
      HeldThrough(Step(s, e), rest, s', w);
    }
  }

  /**
   Which restores wake a blocked watcher: over any run in which it does not move, from any reachable state to
   one between restores, its abandon case is enabled at the end exactly if it was at the start, or it held the
   channel being closed, or a channel was replaced on the way.
   */
  lemma WokenExactly(before: seq<Event>, s: State, es: seq<Event>, s': State, w: nat)
    requires Run(INITIAL, before, s) && Run(s, es, s') && s'.phase == Quiet
    requires w in s.held && Untouched(es, w)
    ensures Enabled(s', w) <==> s.held[w] < s.current || Replace in es
    ensures s.phase == Quiet ==> (Enabled(s, w) <==> s.held[w] < s.current)
  {
    RunKeepsInv(INITIAL, before, s);
    HeldThrough(s, es, s', w);
  }

  /**
   A restore does not wake everyone: a watcher that enters its select once the channel is replaced, even
   before the old one is closed, stays blocked through that restore.
   */
  lemma MissedRestore(before: seq<Event>, s: State, w: nat)
    requires Run(INITIAL, before, s) && s.phase.Replaced? && w !in s.held
    ensures
      var s' := Step(Step(s, Block(w)), CloseOld);
      s'.phase == Quiet && w in s'.held && !Enabled(s', w)
  {
    RunKeepsInv(INITIAL, before, s);
  }

  /** A watcher that was woken can block again, and is then not woken by the same closing: each wakes it once. */
  lemma WokenOnce(before: seq<Event>, s: State, w: nat)
    requires Run(INITIAL, before, s) && Enabled(s, w)
    ensures
      var s' := Step(s, Wake(w));
      w !in s'.held && CanStep(s', Block(w)) && !Enabled(Step(s', Block(w)), w)
  {
    RunKeepsInv(INITIAL, before, s);
  }
}
