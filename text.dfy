/**
 * The two string operations the program applies to console answers:
 * Python's str.lower() and str.title(), over ASCII letters.
 */
module Text {

  predicate IsUpper(c: char) { 'A' <= c <= 'Z' }

  predicate IsLower(c: char) { 'a' <= c <= 'z' }

  /** A "cased" character in the sense of str.title(): a letter. */
  predicate IsCased(c: char) { IsUpper(c) || IsLower(c) }

  function LowerChar(c: char): char
  {
    if IsUpper(c) then (c as int + 32) as char else c
  }

  function UpperChar(c: char): char
  {
    if IsLower(c) then (c as int - 32) as char else c
  }

  /** str.lower(): every upper-case letter replaced by its lower-case form. */
  function Lower(s: string): (r: string)
    ensures |r| == |s|
    ensures forall i :: 0 <= i < |r| ==> !IsUpper(r[i])
    ensures forall i :: 0 <= i < |r| ==> IsCased(r[i]) == IsCased(s[i])
    ensures forall i :: 0 <= i < |s| ==> if IsUpper(s[i]) then UpperChar(r[i]) == s[i] else r[i] == s[i]
  {
    seq(|s|, i requires 0 <= i < |s| => LowerChar(s[i]))
  }

  /** Lowering twice is lowering once. */
  lemma LowerIdempotent(s: string)
    ensures Lower(Lower(s)) == Lower(s)
  {
  }

  /**
   * str.title() from a given state: a cased character is upper-cased when the
   * character before it is not cased, lower-cased otherwise; other characters
   * are kept.
   */
  function TitleFrom(s: string, afterCased: bool): (r: string)
    ensures |r| == |s|
    ensures s != [] ==> r[0] == TitleChar(s[0], afterCased)
    ensures forall i :: 0 < i < |s| ==> r[i] == TitleChar(s[i], IsCased(s[i - 1]))
  {
    if s == [] then []
    else
      [TitleChar(s[0], afterCased)] + TitleFrom(s[1..], IsCased(s[0]))
  }

  /** The title-case form of c, given whether the character before it is cased. */
  function TitleChar(c: char, afterCased: bool): char
  {
    if !IsCased(c) then c else if afterCased then LowerChar(c) else UpperChar(c)
  }

  /**
   * str.title(): a letter at the start of the string or after a non-letter
   * is upper-cased, a letter after a letter is lower-cased, other characters
   * are kept.
   */
  function Title(s: string): (r: string)
    ensures |r| == |s|
    ensures forall i {:trigger r[i]} :: 0 <= i < |s| ==>
      r[i] == (if !IsCased(s[i]) then s[i]
               else if i > 0 && IsCased(s[i - 1]) then LowerChar(s[i])
               else UpperChar(s[i]))
  {
    var t := TitleFrom(s, false);
    forall i {:trigger t[i]} | 0 <= i < |s|
      ensures t[i] == (if !IsCased(s[i]) then s[i] else if i > 0 && IsCased(s[i - 1]) then LowerChar(s[i]) else UpperChar(s[i]))
    {
      if i == 0 {
        assert t[0] == TitleChar(s[0], false);
      } else {
        assert t[i] == TitleChar(s[i], IsCased(s[i - 1]));
      }
    }
    t
  }

  predicate AllLowerLetters(s: string)
  {
    forall i :: 0 <= i < |s| ==> IsLower(s[i])
  }

  lemma {:induction false} TitleFromLowerLetters(s: string)
    requires AllLowerLetters(s)
    ensures TitleFrom(s, true) == s
  {
    if s != [] {
      TitleFromLowerLetters(s[1..]);
    }
  }

  /** The title case of a lower-case word upper-cases its first letter only. */
  lemma TitleOfLowerWord(s: string)
    requires s != [] && AllLowerLetters(s)
    ensures Title(s) == [UpperChar(s[0])] + s[1..]
    ensures IsUpper(Title(s)[0])
  {
    TitleFromLowerLetters(s[1..]);
  }
}
