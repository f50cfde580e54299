/** The C fixed-width unsigned integer types the predictor stores in its tables. */
module Ints {
  type uint8 = x: int | 0 <= x < 0x100
  type uint16 = x: int | 0 <= x < 0x1_0000
  type uint32 = x: int | 0 <= x < 0x1_0000_0000
}

/**
  The 2-bit saturating counter shared by every table of every strategy
  (`get_prediction` and `update_counter` in src/predictor.c).

  The counter states and outcome codes come from predictor.h, which is not
  part of this model. They are taken to be the conventional values: the four
  states are ordered SN < WN < WT < ST and numbered 0..3, and NOTTAKEN = 0,
  TAKEN = 1 (the outcome is OR'd straight into the history registers, so it
  must be a single bit).
*/
module SaturatingCounter {
  import opened Ints

  const SN: uint8 := 0  // strongly not taken
  const WN: uint8 := 1  // weakly not taken
  const WT: uint8 := 2  // weakly taken
  const ST: uint8 := 3  // strongly taken

  const NOTTAKEN: uint8 := 0
  const TAKEN: uint8 := 1

  /** A counter value within the saturating range [SN, ST]. */
  predicate IsCounter(c: int) {
    SN <= c <= ST
  }

  /** A branch outcome as the predictor interface passes it. */
  predicate IsOutcome(o: int) {
    o == NOTTAKEN || o == TAKEN
  }

  predicate AllOutcomes(os: seq<uint8>) {
    forall i :: 0 <= i < |os| ==> IsOutcome(os[i])
  }

  function Min(a: int, b: int): int { if a <= b then a else b }
  function Max(a: int, b: int): int { if a <= b then b else a }

  /** Binarises a counter: taken from the weakly-taken state upwards. */
  function GetPrediction(counter: uint8): (p: uint8)
    ensures IsOutcome(p)
    ensures p == TAKEN <==> counter >= WT
    ensures p == NOTTAKEN <==> counter < WT
  {
    if counter >= WT then TAKEN else NOTTAKEN
  }

  /**
    One training step: a taken outcome moves the counter one step up, capped
    at ST; any other outcome moves it one step down, floored at SN.
  */
  function UpdateCounter(counter: uint8, outcome: uint8): (c: uint8)
    ensures outcome == TAKEN ==> c == Min(counter + 1, ST)
    ensures outcome != TAKEN ==> c == Max(counter - 1, SN)
    ensures IsCounter(counter) ==> IsCounter(c)
  {
    if outcome == TAKEN then (if counter < ST then counter + 1 else ST)
    else (if counter > SN then counter - 1 else SN)
  }

  /** Training never turns a correct prediction into a wrong one. */
  lemma UpdateKeepsCorrectPrediction(counter: uint8, outcome: uint8)
    requires IsOutcome(outcome)
    requires GetPrediction(counter) == outcome
    ensures GetPrediction(UpdateCounter(counter, outcome)) == outcome
  {
  }

  /** Hysteresis: from a strong state one contrary outcome does not flip the prediction. */
  lemma StrongStateHysteresis(counter: uint8, outcome: uint8)
    requires IsOutcome(outcome)
    requires counter == SN || counter == ST
    ensures GetPrediction(UpdateCounter(counter, outcome)) == GetPrediction(counter)
  {
  }

  /** The counter after training on each outcome of `os` in turn (oldest first). */
  function UpdateAll(counter: uint8, os: seq<uint8>): uint8
    decreases |os|
  {
    if os == [] then counter
    else UpdateCounter(UpdateAll(counter, os[..|os| - 1]), os[|os| - 1])
  }

  /** A counter in [SN, ST] stays in [SN, ST] across any sequence of training steps. */
  lemma {:induction false} UpdateAllInRange(counter: uint8, os: seq<uint8>)
    requires IsCounter(counter)
    ensures IsCounter(UpdateAll(counter, os))
    decreases |os|
  {
    if os != [] {
      UpdateAllInRange(counter, os[..|os| - 1]);
    }
  }

  /**
    Whatever its history, a counter in range predicts an outcome once it has
    been trained on that outcome twice in a row.
  */
  lemma {:induction false} TwoInARowLearned(counter: uint8, os: seq<uint8>, outcome: uint8)
    requires IsCounter(counter) && IsOutcome(outcome)
    requires |os| >= 2 && os[|os| - 1] == outcome && os[|os| - 2] == outcome
    ensures GetPrediction(UpdateAll(counter, os)) == outcome
  {
    var before := os[..|os| - 2];
    UpdateAllInRange(counter, before);
    assert os[..|os| - 1][..|os| - 2] == before;
  }
}
