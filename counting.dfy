/**
 * The column aggregates pandas computes for the reporters: occurrence counts,
 * a most frequent value (Series.mode()[0], value_counts().idxmax()), the set
 * of all modes (Series.mode()), max and min, and value_counts() itself.
 * Missing entries (NaN) are Option.None and are skipped, as pandas skips them.
 */
module Counting {
  import opened Wrappers

  /** Number of occurrences of x in s. */
  function Count<T(==)>(s: seq<T>, x: T): nat
  {
    if s == [] then 0
    else Count(s[..|s| - 1], x) + (if s[|s| - 1] == x then 1 else 0)
  }

  lemma {:induction false} CountPositive<T>(s: seq<T>, x: T)
    ensures Count(s, x) > 0 <==> x in s
    ensures Count(s, x) <= |s|
  {
    if s != [] {
      CountPositive(s[..|s| - 1], x);
      assert s == s[..|s| - 1] + [s[|s| - 1]];
    }
  }

  /** No value occurs in s more often than x. */
  ghost predicate NoneMoreFrequent<T(!new)>(s: seq<T>, x: T)
  {
    forall y :: Count(s, y) <= Count(s, x)
  }

  /** x occurs in s and no value occurs in s more often: a mode of s. */
  ghost predicate IsMostCommon<T(!new)>(s: seq<T>, x: T)
  {
    x in s && NoneMoreFrequent(s, x)
  }

  /** A candidate whose count in s is at least that of every candidate. */
  function ArgMaxCount<T(==)>(s: seq<T>, candidates: seq<T>): (r: T)
    requires candidates != []
    ensures r in candidates
    ensures forall c :: c in candidates ==> Count(s, c) <= Count(s, r)
  {
    if |candidates| == 1 then candidates[0]
    else
      var best := ArgMaxCount(s, candidates[1..]);
      if Count(s, candidates[0]) >= Count(s, best) then candidates[0] else best
  }

  /**
   * A most frequent value of s, None when s is empty. When several values
   * share the highest count, which one pandas reports is library-defined;
   * this picks the first in row order.
   */
  function MostCommon<T(==,!new)>(s: seq<T>): (r: Option<T>)
    ensures r.None? <==> s == []
    ensures r.Some? ==> r.value in s && NoneMoreFrequent(s, r.value)
  {
    if s == [] then None
    else
      var m := ArgMaxCount(s, s);
      assert NoneMoreFrequent(s, m) by {
        forall y ensures Count(s, y) <= Count(s, m) {
          CountPositive(s, y);
        }
      }
      Some(m)
  }

  /** The highest number of occurrences of any value in s (0 when empty). */
  function MaxCount<T(==,!new)>(s: seq<T>): (n: nat)
    ensures forall y :: Count(s, y) <= n
    ensures s != [] ==> n == Count(s, MostCommon(s).value)
  {
    match MostCommon(s)
    case None => assert forall y :: Count(s, y) == 0 by {
        forall y ensures Count(s, y) == 0 { CountPositive(s, y); }
      }
      0
    case Some(m) => Count(s, m)
  }

  /**
   * Series.mode(): every value that occurs in s with the highest count.
   * Empty exactly when s is.
   */
  function Modes<T(==,!new)>(s: seq<T>): (r: set<T>)
    ensures r == {} <==> s == []
    ensures forall y :: y in r <==> y in s && NoneMoreFrequent(s, y)
  {
    var n := MaxCount(s);
    var modes := OccurringExactly(s, n);
    assert forall y :: y in s && NoneMoreFrequent(s, y) ==> y in modes by {
      forall y | y in s && NoneMoreFrequent(s, y) ensures y in modes {
        assert Count(s, MostCommon(s).value) <= Count(s, y);
      }
    }
    assert s != [] ==> MostCommon(s).value in modes;
    modes
  }

  /** The value mode()[0] reports is one of the values mode() lists. */
  lemma MostCommonIsAMode<T(!new)>(s: seq<T>)
    requires s != []
    ensures MostCommon(s).Some? && MostCommon(s).value in Modes(s)
  {
  }

  /** The values that occur in s exactly n times. */
  function OccurringExactly<T(==,!new)>(s: seq<T>, n: nat): (r: set<T>)
    ensures forall y :: y in r <==> y in s && Count(s, y) == n
  {
    set y | y in s && Count(s, y) == n
  }

  /** The largest element of a non-empty sequence. */
  function Max(s: seq<int>): (m: int)
    requires s != []
    ensures m in s
    ensures forall x :: x in s ==> x <= m
  {
    if |s| == 1 then s[0]
    else
      var rest := Max(s[1..]);
      assert s == [s[0]] + s[1..];
      if s[0] >= rest then s[0] else rest
  }

  /** The smallest element of a non-empty sequence. */
  function Min(s: seq<int>): (m: int)
    requires s != []
    ensures m in s
    ensures forall x :: x in s ==> m <= x
  {
    if |s| == 1 then s[0]
    else
      var rest := Min(s[1..]);
      assert s == [s[0]] + s[1..];
      if s[0] <= rest then s[0] else rest
  }

  /** The non-missing entries of a column, in row order. */
  function Present<T(!new)>(s: seq<Option<T>>): (r: seq<T>)
    ensures |r| <= |s|
    ensures forall x :: x in r <==> Some(x) in s
    ensures forall x :: multiset(r)[x] == multiset(s)[Some(x)]
  {
    if s == [] then []
    else
      var rest := Present(s[..|s| - 1]);
      assert s == s[..|s| - 1] + [s[|s| - 1]];
      match s[|s| - 1]
      case None => rest
      case Some(x) => rest + [x]
  }

  /** A tally of (value, count) entries, as value_counts() returns. */
  type Tally<T> = seq<(T, nat)>

  predicate DistinctKeys<T(==)>(t: Tally<T>)
  {
    forall i, j :: 0 <= i < j < |t| ==> t[i].0 != t[j].0
  }

  /** The count recorded for x, 0 when x has no entry. */
  function Lookup<T(==)>(t: Tally<T>, x: T): nat
  {
    if t == [] then 0
    else if t[0].0 == x then t[0].1
    else Lookup(t[1..], x)
  }

  function Total<T>(t: Tally<T>): nat
  {
    if t == [] then 0 else t[0].1 + Total(t[1..])
  }

  /** Records one more occurrence of x. */
  function Bump<T(==)>(t: Tally<T>, x: T): (r: Tally<T>)
  {
    if t == [] then [(x, 1)]
    else if t[0].0 == x then [(x, t[0].1 + 1)] + t[1..]
    else [t[0]] + Bump(t[1..], x)
  }

  lemma {:induction false} BumpFacts<T>(t: Tally<T>, x: T)
    requires DistinctKeys(t)
    ensures DistinctKeys(Bump(t, x))
    ensures Total(Bump(t, x)) == Total(t) + 1
    ensures forall y :: Lookup(Bump(t, x), y) == Lookup(t, y) + (if y == x then 1 else 0)
    ensures forall i :: 0 <= i < |Bump(t, x)| ==> Bump(t, x)[i].0 == x || exists j :: 0 <= j < |t| && t[j].0 == Bump(t, x)[i].0
  {
    if t != [] && t[0].0 != x {
      BumpFacts(t[1..], x);
      var r := Bump(t, x);
      assert r == [t[0]] + Bump(t[1..], x);
      forall i | 0 <= i < |r|
        ensures r[i].0 == x || exists j :: 0 <= j < |t| && t[j].0 == r[i].0
      {
        if i > 0 {
          if r[i].0 != x {
            var j :| 0 <= j < |t[1..]| && t[1..][j].0 == r[i].0;
            assert t[j + 1].0 == r[i].0;
          }
        } else {
          assert t[0].0 == r[i].0;
        }
      }
      forall i, j | 0 <= i < j < |r| ensures r[i].0 != r[j].0 {
        if i == 0 {
          if r[j].0 != x {
            var k :| 0 <= k < |t[1..]| && t[1..][k].0 == r[j].0;
            assert t[k + 1].0 == r[j].0;
          }
        }
      }
    }
  }

  /** The entry for a key of a tally with distinct keys holds what Lookup gives. */
  lemma {:induction false} LookupEntry<T>(t: Tally<T>, i: nat)
    requires DistinctKeys(t) && i < |t|
    ensures Lookup(t, t[i].0) == t[i].1
  {
    if i > 0 {
      LookupEntry(t[1..], i - 1);
    }
  }

  /** Every tallied value has an entry; counts agree with Count. */
  function TallyOf<T(==,!new)>(s: seq<T>): (t: Tally<T>)
    ensures DistinctKeys(t)
    ensures Total(t) == |s|
    ensures forall y :: Lookup(t, y) == Count(s, y)
    ensures forall i :: 0 <= i < |t| ==> t[i].0 in s
  {
    if s == [] then []
    else
      var init := s[..|s| - 1];
      var t0 := TallyOf(init);
      BumpFacts(t0, s[|s| - 1]);
      var t := Bump(t0, s[|s| - 1]);
      assert forall i :: 0 <= i < |t| ==> t[i].0 in s by {
        forall i | 0 <= i < |t| ensures t[i].0 in s {
          if t[i].0 != s[|s| - 1] {
            var j :| 0 <= j < |t0| && t0[j].0 == t[i].0;
            assert t0[j].0 in init;
          }
        }
      }
      t
  }

  /**
   * t is what Series.value_counts() gives for column s: one entry per
   * distinct non-missing value, holding its positive number of occurrences,
   * the counts adding up to the number of non-missing entries.
   */
  ghost predicate IsValueCounts<T(!new)>(s: seq<Option<T>>, t: Tally<T>)
  {
    && DistinctKeys(t)
    && Total(t) == |Present(s)|
    && (forall i :: 0 <= i < |t| ==> t[i].1 == Count(Present(s), t[i].0) && t[i].1 > 0)
    && (forall x :: Some(x) in s <==> exists i :: 0 <= i < |t| && t[i].0 == x)
  }

  /** Series.value_counts(). */
  function ValueCounts<T(==,!new)>(s: seq<Option<T>>): (t: Tally<T>)
    ensures IsValueCounts(s, t)
  {
    var vals := Present(s);
    var t := TallyOf(vals);
    assert forall i :: 0 <= i < |t| ==> t[i].1 == Count(vals, t[i].0) && t[i].1 > 0 by {
      forall i | 0 <= i < |t| ensures t[i].1 == Count(vals, t[i].0) && t[i].1 > 0 {
        LookupEntry(t, i);
        CountPositive(vals, t[i].0);
      }
    }
    assert forall x :: Some(x) in s ==> exists i :: 0 <= i < |t| && t[i].0 == x by {
      forall x | Some(x) in s ensures exists i :: 0 <= i < |t| && t[i].0 == x {
        CountPositive(vals, x);
        LookupHasEntry(t, x);
      }
    }
    t
  }

  lemma {:induction false} LookupHasEntry<T>(t: Tally<T>, x: T)
    requires Lookup(t, x) > 0
    ensures exists i :: 0 <= i < |t| && t[i].0 == x
  {
    if t[0].0 != x {
      LookupHasEntry(t[1..], x);
      var i :| 0 <= i < |t[1..]| && t[1..][i].0 == x;
      assert t[i + 1].0 == x;
    }
  }
}
