/**
 * get_filters: three validation loops reading answers from the console.
 * The console is a sequence of answer lines and a cursor into it; running out
 * of lines (input() raising EOFError) ends a loop with None.
 */
module Prompts {
  import opened Wrappers
  import opened Text
  import opened Console

  const CITIES: seq<string> := ["chicago", "new york city", "washington"]

  const MONTH_CHOICES: seq<string> := ["all", "january", "february", "march", "april", "may", "june"]

  const DAY_CHOICES: seq<string> :=
    ["all", "monday", "tuesday", "wednesday", "thursday", "friday", "saturday", "sunday"]

  /** The city, month and day a user chose. */
  datatype Selection = Selection(city: string, month: string, day: string)
  {
    predicate Valid()
    {
      city in CITIES && month in MONTH_CHOICES && day in DAY_CHOICES
    }
  }

  /**
   * One `while True` loop of get_filters: read answers from position pos on
   * until one, lower-cased, is in allowed. Every answer read before it is
   * rejected; there is no limit on the number of attempts.
   */
  method Ask(answers: seq<string>, pos: nat, allowed: seq<string>) returns (choice: Option<string>, next: nat)
    requires pos <= |answers|
    ensures pos <= next <= |answers|
    ensures choice.None? ==> next == |answers|
    ensures choice.Some? ==> pos < next && choice.value == Lower(answers[next - 1]) && choice.value in allowed
    ensures forall j :: pos <= j < (if choice.Some? then next - 1 else next) ==> Lower(answers[j]) !in allowed
    ensures choice.None? <==> FirstAccepted(answers, pos, allowed).None?
    ensures choice.Some? ==> FirstAccepted(answers, pos, allowed) == Some(next - 1)
  {
    next := pos;
    while next < |answers|
      invariant pos <= next <= |answers|
      invariant forall j :: pos <= j < next ==> Lower(answers[j]) !in allowed
    {
      var answer := Lower(answers[next]);
      next := next + 1;
      if answer in allowed {
        return Some(answer), next;
      }
    }
    return None, next;
  }

  /**
   * The positions of the first answer from pos on accepted by first, of the
   * first answer after it accepted by second, and of the first answer after
   * that accepted by third. None when input runs out first.
   */
  function FirstOfEach(answers: seq<string>, pos: nat, first: seq<string>, second: seq<string>, third: seq<string>)
    : (r: Option<(nat, nat, nat)>)
    ensures r.Some? ==>
      && FirstAcceptedAt(answers, pos, r.value.0, first)
      && FirstAcceptedAt(answers, r.value.0 + 1, r.value.1, second)
      && FirstAcceptedAt(answers, r.value.1 + 1, r.value.2, third)
  {
    match FirstAccepted(answers, pos, first)
    case None => None
    case Some(c) =>
      match FirstAccepted(answers, c + 1, second)
      case None => None
      case Some(m) =>
        match FirstAccepted(answers, m + 1, third)
        case None => None
        case Some(d) => Some((c, m, d))
  }

  /** FirstOfEach is found one prompt at a time. */
  lemma FirstOfEachFromSteps(answers: seq<string>, pos: nat, first: seq<string>, second: seq<string>, third: seq<string>,
                             c: nat, m: nat, d: nat)
    requires FirstAccepted(answers, pos, first) == Some(c)
    requires FirstAccepted(answers, c + 1, second) == Some(m)
    requires FirstAccepted(answers, m + 1, third) == Some(d)
    ensures FirstOfEach(answers, pos, first, second, third) == Some((c, m, d))
  {
  }

  /** Some answers from pos on, in this order, are accepted by first, second and third. */
  predicate InOrder(answers: seq<string>, pos: nat, first: seq<string>, second: seq<string>, third: seq<string>)
  {
    exists c, m, d :: pos <= c < m < d < |answers| &&
      Lower(answers[c]) in first && Lower(answers[m]) in second && Lower(answers[d]) in third
  }

  /** Three acceptable answers in order mean the three prompts each find an answer. */
  lemma InOrderFound(answers: seq<string>, pos: nat, first: seq<string>, second: seq<string>, third: seq<string>)
    requires InOrder(answers, pos, first, second, third)
    ensures FirstOfEach(answers, pos, first, second, third).Some?
  {
    var c, m, d :| pos <= c < m < d < |answers| &&
      Lower(answers[c]) in first && Lower(answers[m]) in second && Lower(answers[d]) in third;
    FirstAcceptedNoLater(answers, pos, c, first);
    var c' := FirstAccepted(answers, pos, first).value;
    FirstAcceptedNoLater(answers, c' + 1, m, second);
    var m' := FirstAccepted(answers, c' + 1, second).value;
    FirstAcceptedNoLater(answers, m' + 1, d, third);
    var d' := FirstAccepted(answers, m' + 1, third).value;
    FirstOfEachFromSteps(answers, pos, first, second, third, c', m', d');
  }

  /** The answers the three prompts find are acceptable answers in order. */
  lemma FoundInOrder(answers: seq<string>, pos: nat, first: seq<string>, second: seq<string>, third: seq<string>)
    requires FirstOfEach(answers, pos, first, second, third).Some?
    ensures InOrder(answers, pos, first, second, third)
  {
    var (c, m, d) := FirstOfEach(answers, pos, first, second, third).value;
    assert pos <= c < m < d < |answers|;
    assert Lower(answers[c]) in first && Lower(answers[m]) in second && Lower(answers[d]) in third;
  }

  /** The three prompts run out of input exactly when no three answers in order are acceptable. */
  lemma FirstOfEachNoneIff(answers: seq<string>, pos: nat, first: seq<string>, second: seq<string>, third: seq<string>)
    ensures FirstOfEach(answers, pos, first, second, third).None? <==> !InOrder(answers, pos, first, second, third)
  {
    if InOrder(answers, pos, first, second, third) {
      InOrderFound(answers, pos, first, second, third);
    }
    if FirstOfEach(answers, pos, first, second, third).Some? {
      FoundInOrder(answers, pos, first, second, third);
    }
  }

  /** What get_filters returns for the answers from pos on, and the position after the day answer. */
  function Filters(answers: seq<string>, pos: nat): Option<(Selection, nat)>
  {
    match FirstOfEach(answers, pos, CITIES, MONTH_CHOICES, DAY_CHOICES)
    case None => None
    case Some((c, m, d)) => Some((Selection(Lower(answers[c]), Lower(answers[m]), Lower(answers[d])), d + 1))
  }

  /**
   * The three `while True` loops of get_filters, for any three lists of
   * accepted answers: each answer chosen is the first acceptable one after
   * the previous choice.
   */
  method AskInTurn(answers: seq<string>, pos: nat, first: seq<string>, second: seq<string>, third: seq<string>)
    returns (chosen: Option<(string, string, string)>, next: nat)
    requires pos <= |answers|
    ensures pos <= next <= |answers|
    ensures chosen.None? ==> next == |answers| && !InOrder(answers, pos, first, second, third)
    ensures chosen.Some? ==>
      && FirstOfEach(answers, pos, first, second, third).Some?
      && var (c, m, d) := FirstOfEach(answers, pos, first, second, third).value;
         next == d + 1 && chosen.value == (Lower(answers[c]), Lower(answers[m]), Lower(answers[d]))
  {
    var a, afterFirst := Ask(answers, pos, first);
    if a.None? {
      assert FirstOfEach(answers, pos, first, second, third).None?;
      FirstOfEachNoneIff(answers, pos, first, second, third);
      return None, afterFirst;
    }
    var b, afterSecond := Ask(answers, afterFirst, second);
    if b.None? {
      assert FirstOfEach(answers, pos, first, second, third).None?;
      FirstOfEachNoneIff(answers, pos, first, second, third);
      return None, afterSecond;
    }
    var c, afterThird := Ask(answers, afterSecond, third);
    if c.None? {
      assert FirstOfEach(answers, pos, first, second, third).None?;
      FirstOfEachNoneIff(answers, pos, first, second, third);
      return None, afterThird;
    }
    FirstOfEachFromSteps(answers, pos, first, second, third, afterFirst - 1, afterSecond - 1, afterThird - 1);
    assert FirstOfEach(answers, pos, first, second, third).value == (afterFirst - 1, afterSecond - 1, afterThird - 1);
    return Some((a.value, b.value, c.value)), afterThird;
  }

  /**
   * get_filters: a city, then a month, then a day, each the first acceptable
   * answer after the previous one. None when the answers run out first.
   */
  method GetFilters(answers: seq<string>, pos: nat) returns (selection: Option<Selection>, next: nat)
    requires pos <= |answers|
    ensures pos <= next <= |answers|
    ensures selection.None? ==> next == |answers| && !InOrder(answers, pos, CITIES, MONTH_CHOICES, DAY_CHOICES)
    ensures selection.Some? ==>
      && selection.value.Valid()
      && FirstOfEach(answers, pos, CITIES, MONTH_CHOICES, DAY_CHOICES).Some?
      && var (c, m, d) := FirstOfEach(answers, pos, CITIES, MONTH_CHOICES, DAY_CHOICES).value;
         next == d + 1 && selection.value == Selection(Lower(answers[c]), Lower(answers[m]), Lower(answers[d]))
    ensures selection.None? <==> Filters(answers, pos).None?
    ensures selection.Some? ==> Filters(answers, pos) == Some((selection.value, next))
  {
    var chosen;
    chosen, next := AskInTurn(answers, pos, CITIES, MONTH_CHOICES, DAY_CHOICES);
    if chosen.None? {
      selection := None;
    } else {
      var (city, month, day) := chosen.value;
      selection := Some(Selection(city, month, day));
    }
  }
}
