/**
 * display_data: after a first "yes", show the table five rows at a time,
 * df.iloc[start_loc:start_loc + 5], moving start_loc on by five after each
 * window, until a continue-answer lower-cases to "no".
 */
module Pager {
  import opened Wrappers
  import opened Text
  import opened Console

  const PAGE_SIZE: nat := 5

  function MinNat(a: nat, b: nat): nat { if a <= b then a else b }

  /** df.iloc[start:start + 5]: a positional slice, clipped at the end of the table. */
  function Window<T>(rows: seq<T>, start: nat): (w: seq<T>)
    ensures |w| <= PAGE_SIZE
    ensures start >= |rows| ==> w == []
    ensures start < |rows| ==> |w| == MinNat(PAGE_SIZE, |rows| - start)
    ensures forall i :: 0 <= i < |w| ==> w[i] == rows[start + i]
  {
    rows[MinNat(start, |rows|)..MinNat(start + PAGE_SIZE, |rows|)]
  }

  /** The first n windows of rows, window k starting at row 5k. */
  function Windows<T>(rows: seq<T>, n: nat): (r: seq<seq<T>>)
    ensures |r| == n
  {
    if n == 0 then [] else Windows(rows, n - 1) + [Window(rows, PAGE_SIZE * (n - 1))]
  }

  /** Windows that each start at row 5k are the first windows of the table. */
  lemma {:induction false} WindowsOf<T>(rows: seq<T>, pages: seq<seq<T>>)
    requires forall k :: 0 <= k < |pages| ==> pages[k] == Window(rows, PAGE_SIZE * k)
    ensures pages == Windows(rows, |pages|)
  {
    if pages != [] {
      var n := |pages| - 1;
      WindowsOf(rows, pages[..n]);
      assert pages == pages[..n] + [pages[n]];
    }
  }

  /** All windows shown, one after another. */
  function Flatten<T>(pages: seq<seq<T>>): seq<T>
  {
    if pages == [] then [] else Flatten(pages[..|pages| - 1]) + pages[|pages| - 1]
  }

  /**
   * The k-th window shown starts at row 5k, so the windows shown so far are
   * the table's first rows, in order, none left out or repeated.
   */
  lemma {:induction false} PagesArePrefix<T>(rows: seq<T>, pages: seq<seq<T>>)
    requires forall k :: 0 <= k < |pages| ==> pages[k] == Window(rows, PAGE_SIZE * k)
    ensures Flatten(pages) == rows[..MinNat(PAGE_SIZE * |pages|, |rows|)]
  {
    if pages != [] {
      var n := |pages| - 1;
      PagesArePrefix(rows, pages[..n]);
      var before := MinNat(PAGE_SIZE * n, |rows|);
      assert rows[..MinNat(PAGE_SIZE * |pages|, |rows|)] == rows[..before] + Window(rows, PAGE_SIZE * n);
    }
  }

  /** What display_data reads: how many windows it shows, where reading stops, and whether input ran out. */
  datatype Paging = Paging(windows: nat, next: nat, exhausted: bool)

  /**
   * The answers display_data reads from position pos on. After a first "yes"
   * it shows one window per continue-answer up to and including the first
   * one that lower-cases to "no"; anything else shows no window.
   */
  function PagerReads(answers: seq<string>, pos: nat): Paging
  {
    if pos >= |answers| then Paging(0, pos, true)
    else if Lower(answers[pos]) != "yes" then Paging(0, pos + 1, false)
    else
      match FirstAccepted(answers, pos + 1, ["no"])
      case None => Paging(|answers| - pos, |answers|, true)
      case Some(k) => Paging(k - pos, k + 1, false)
  }

  /**
   * display_data reading answers from position pos. The first answer is read
   * once and never again, so the loop runs only if it is "yes" and then ends
   * only on a continue-answer "no"; exhausted says input ran out (EOFError)
   * before that.
   */
  method DisplayData<T>(rows: seq<T>, answers: seq<string>, pos: nat)
    returns (pages: seq<seq<T>>, next: nat, exhausted: bool)
    requires pos <= |answers|
    ensures pos <= next <= |answers|
    ensures forall k :: 0 <= k < |pages| ==> pages[k] == Window(rows, PAGE_SIZE * k)
    ensures pos == |answers| ==> exhausted && pages == []
    ensures pos < |answers| && Lower(answers[pos]) != "yes" ==> !exhausted && pages == [] && next == pos + 1
    ensures pos < |answers| && Lower(answers[pos]) == "yes" ==> |pages| >= 1
    ensures pos + |pages| <= |answers|
    ensures forall j :: pos < j < pos + |pages| ==> Lower(answers[j]) != "no"
    ensures exhausted ==> next == |answers| && pos + |pages| == |answers|
    ensures !exhausted && pages != [] ==> next == pos + |pages| + 1 && Lower(answers[next - 1]) == "no"
    ensures PagerReads(answers, pos) == Paging(|pages|, next, exhausted)
  {
    if pos == |answers| {
      return [], pos, true;
    }
    var viewData := Lower(answers[pos]);
    next := pos + 1;
    pages := [];
    exhausted := false;
    var startLoc: nat := 0;
    while viewData == "yes"
      invariant pos + 1 <= next <= |answers|
      invariant next == pos + 1 + |pages|
      invariant startLoc == PAGE_SIZE * |pages|
      invariant forall k :: 0 <= k < |pages| ==> pages[k] == Window(rows, PAGE_SIZE * k)
      invariant forall j :: pos < j < next ==> Lower(answers[j]) != "no"
      invariant viewData != "yes" ==> pages == []
      invariant viewData == "yes" ==> FirstAccepted(answers, pos + 1, ["no"]) == FirstAccepted(answers, next, ["no"])
      decreases |answers| - next
    {
      pages := pages + [Window(rows, startLoc)];
      startLoc := startLoc + PAGE_SIZE;
      if next == |answers| {
        exhausted := true;
        return;
      }
      var viewDisplay := Lower(answers[next]);
      next := next + 1;
      if viewDisplay == "no" {
        return;
      }
    }
  }
}
