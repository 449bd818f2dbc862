/**
 * The console as the program reads it: a sequence of answer lines and a
 * cursor into it. Every prompt lower-cases the answer and compares it with a
 * list of accepted words; the first accepted answer from a position on is
 * the one a `while True` prompt loop stops at.
 */
module Console {
  import opened Wrappers
  import opened Text

  /** The answer at position at is the first one from position from on whose lower-case form is in allowed. */
  predicate FirstAcceptedAt(answers: seq<string>, from: nat, at: nat, allowed: seq<string>)
  {
    && from <= at < |answers|
    && Lower(answers[at]) in allowed
    && forall j :: from <= j < at ==> Lower(answers[j]) !in allowed
  }

  /** No answer from position from on is accepted. */
  predicate NoneAccepted(answers: seq<string>, from: nat, allowed: seq<string>)
  {
    forall j :: from <= j < |answers| ==> Lower(answers[j]) !in allowed
  }

  /** The position of the first accepted answer from position from on; None when input runs out first. */
  function FirstAccepted(answers: seq<string>, from: nat, allowed: seq<string>): (r: Option<nat>)
    ensures r.None? <==> NoneAccepted(answers, from, allowed)
    ensures r.Some? ==> FirstAcceptedAt(answers, from, r.value, allowed)
    decreases |answers| - from
  {
    if from >= |answers| then None
    else if Lower(answers[from]) in allowed then Some(from)
    else FirstAccepted(answers, from + 1, allowed)
  }

  /** An accepted answer at position at means the first accepted one from from on is there or earlier. */
  lemma FirstAcceptedNoLater(answers: seq<string>, from: nat, at: nat, allowed: seq<string>)
    requires from <= at < |answers| && Lower(answers[at]) in allowed
    ensures FirstAccepted(answers, from, allowed).Some? && FirstAccepted(answers, from, allowed).value <= at
  {
  }
}
