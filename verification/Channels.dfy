/** The abandon channels a state machine has made. */
module Channels {
  /** How often each abandon channel made so far was closed; the last one is the current one. */
  predicate Generations(closes: seq<nat>, restores: nat) {
    && |closes| == restores + 1
    && closes[restores] == 0
    && forall c :: 0 <= c < restores ==> closes[c] == 1
  }
}
