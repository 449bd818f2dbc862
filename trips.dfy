/**
 * Trip records and load_data's filter step. A table is the CSV of one city
 * after the derived month, day_of_week and hour columns were added; reading
 * the file and deriving those columns from 'Start Time' are outside the model,
 * so the derived values are fields of each record.
 */
module Trips {
  import opened Wrappers
  import opened Text

  /** One row of a city's trip table. */
  datatype Trip = Trip(
    month: int,              // derived: 'Start Time'.dt.month
    dayOfWeek: string,       // derived: 'Start Time'.dt.weekday_name, e.g. "Monday"
    hour: int,               // derived: 'Start Time'.dt.hour
    startStation: string,
    endStation: string,
    duration: int,           // 'Trip Duration', seconds
    userType: Option<string>,
    gender: Option<string>,  // meaningful only when the table has a Gender column
    birthYear: Option<int>)  // meaningful only when the table has a Birth Year column

  /**
   * A table: its rows in file order, and whether the optional Gender and
   * Birth Year columns exist. Column presence belongs to the whole table.
   */
  datatype Table = Table(rows: seq<Trip>, hasGender: bool, hasBirthYear: bool)

  /** The month names load_data can filter by, in calendar order. */
  const MONTHS: seq<string> := ["january", "february", "march", "april", "may", "june"]

  /** The values pandas gives day_of_week, Monday first. */
  const WEEKDAY_NAMES: seq<string> :=
    ["Monday", "Tuesday", "Wednesday", "Thursday", "Friday", "Saturday", "Sunday"]

  /** The same weekdays as typed (lower-case) at the prompt. */
  const WEEKDAYS: seq<string> :=
    ["monday", "tuesday", "wednesday", "thursday", "friday", "saturday", "sunday"]

  /** list.index: the position of the first occurrence of x, None where Python raises ValueError. */
  function IndexOf<T(==)>(s: seq<T>, x: T): (r: Option<nat>)
    ensures r.None? <==> x !in s
    ensures r.Some? ==> r.value < |s| && s[r.value] == x && x !in s[..r.value]
  {
    if s == [] then None
    else if s[0] == x then Some(0)
    else
      match IndexOf(s[1..], x)
      case None => None
      case Some(i) => assert s[..i + 1] == [s[0]] + s[1..][..i]; Some(i + 1)
  }

  /** months.index(month) + 1: the 1-based ordinal of a month name, None for any other text. */
  function MonthOrdinal(month: string): (r: Option<int>)
    ensures r.None? <==> month !in MONTHS
    ensures r.Some? ==> 1 <= r.value <= 6 && MONTHS[r.value - 1] == month
  {
    match IndexOf(MONTHS, month)
    case None => None
    case Some(i) => Some(i + 1)
  }

  /** Boolean row selection df[mask]: the rows that satisfy keep, in their original order. */
  function Filter(s: seq<Trip>, keep: Trip -> bool): (r: seq<Trip>)
    ensures |r| <= |s|
    ensures forall x :: x in r <==> x in s && keep(x)
    ensures forall x :: multiset(r)[x] == if keep(x) then multiset(s)[x] else 0
  {
    if s == [] then []
    else
      var rest := Filter(s[1..], keep);
      assert s == [s[0]] + s[1..];
      if keep(s[0]) then [s[0]] + rest else rest
  }

  /** a can be obtained from b by deleting elements (order is kept). */
  predicate IsSubsequence<T(==)>(a: seq<T>, b: seq<T>)
    decreases |b|
  {
    if b == [] then a == []
    else (a != [] && a[0] == b[0] && IsSubsequence(a[1..], b[1..])) || IsSubsequence(a, b[1..])
  }

  /** A filtered table is an order-preserving subsequence of the table. */
  lemma {:induction false} FilterIsSubsequence(s: seq<Trip>, keep: Trip -> bool)
    ensures IsSubsequence(Filter(s, keep), s)
  {
    if s != [] {
      FilterIsSubsequence(s[1..], keep);
    }
  }

  /** Filtering by p and then by q is filtering once by "p and q". */
  lemma {:induction false} FilterTwice(s: seq<Trip>, p: Trip -> bool, q: Trip -> bool)
    ensures Filter(Filter(s, p), q) == Filter(s, (x: Trip) => p(x) && q(x))
  {
    if s != [] {
      FilterTwice(s[1..], p, q);
    }
  }

  /** Filtering again by the same predicate changes nothing. */
  lemma {:induction false} FilterIdempotent(s: seq<Trip>, p: Trip -> bool)
    ensures Filter(Filter(s, p), p) == Filter(s, p)
  {
    if s != [] {
      FilterIdempotent(s[1..], p);
    }
  }

  /** A filter every row passes keeps the table as it is. */
  lemma {:induction false} FilterKeepsAll(s: seq<Trip>, p: Trip -> bool)
    requires forall x :: x in s ==> p(x)
    ensures Filter(s, p) == s
  {
    if s != [] {
      FilterKeepsAll(s[1..], p);
    }
  }

  /** Filters agreeing on every element of s select the same rows. */
  lemma {:induction false} FilterCongruent(s: seq<Trip>, p: Trip -> bool, q: Trip -> bool)
    requires forall x :: x in s ==> p(x) == q(x)
    ensures Filter(s, p) == Filter(s, q)
  {
    if s != [] {
      FilterCongruent(s[1..], p, q);
    }
  }

  /** The row condition of load_data: the month key (an ordinal) and the day key (a weekday name), each when given. */
  predicate Matches(t: Trip, monthKey: Option<int>, dayKey: Option<string>)
  {
    (monthKey.None? || t.month == monthKey.value) && (dayKey.None? || t.dayOfWeek == dayKey.value)
  }

  /** The two successive row selections of load_data: by month first, then by day. */
  function Select(rows: seq<Trip>, monthKey: Option<int>, dayKey: Option<string>): seq<Trip>
  {
    var byMonth := match monthKey
      case None => rows
      case Some(m) => Filter(rows, (t: Trip) => t.month == m);
    match dayKey
    case None => byMonth
    case Some(d) => Filter(byMonth, (t: Trip) => t.dayOfWeek == d)
  }

  /** Selecting by month and then by day is one filter by the conjunction of both conditions. */
  lemma SelectIsConjunction(rows: seq<Trip>, monthKey: Option<int>, dayKey: Option<string>)
    ensures Select(rows, monthKey, dayKey) == Filter(rows, (t: Trip) => Matches(t, monthKey, dayKey))
  {
    var both := (t: Trip) => Matches(t, monthKey, dayKey);
    match monthKey {
      case None =>
        match dayKey {
          case None => FilterKeepsAll(rows, both);
          case Some(d) => FilterCongruent(rows, (t: Trip) => t.dayOfWeek == d, both);
        }
      case Some(m) =>
        var pm := (t: Trip) => t.month == m;
        match dayKey {
          case None => FilterCongruent(rows, pm, both);
          case Some(d) =>
            var pd := (t: Trip) => t.dayOfWeek == d;
            FilterTwice(rows, pm, pd);
            FilterCongruent(rows, (t: Trip) => pm(t) && pd(t), both);
        }
    }
  }

  datatype LoadError = UnknownMonth(month: string)

  /** The month key of a month argument: None for "all". */
  function MonthKey(month: string): Option<int>
  {
    if month == "all" then None else MonthOrdinal(month)
  }

  /** The day key of a day argument: None for "all", else day.title(). */
  function DayKey(day: string): Option<string>
  {
    if day == "all" then None else Some(Title(day))
  }

  /**
   * The filter step of load_data on an already loaded table: a month other
   * than "all" is mapped to its ordinal (text outside MONTHS makes
   * months.index raise, UnknownMonth) and only rows of that month are kept;
   * then a day other than "all" keeps only rows whose day_of_week equals the
   * title-cased day. The columns of the table are kept.
   */
  function LoadData(source: Table, month: string, day: string): (r: Result<Table, LoadError>)
    ensures r.Err? <==> month != "all" && month !in MONTHS
    ensures month == "all" && day == "all" ==> r == Ok(source)
    ensures r.Ok? ==> r.value.hasGender == source.hasGender && r.value.hasBirthYear == source.hasBirthYear
    ensures r.Ok? ==> IsSubsequence(r.value.rows, source.rows)
    ensures r.Ok? && month != "all" ==>
      forall t :: t in r.value.rows ==> 1 <= t.month <= 6 && t.month == MonthOrdinal(month).value
    ensures r.Ok? && day != "all" ==>
      forall t :: t in r.value.rows ==> t.dayOfWeek == Title(day)
    ensures r.Ok? ==> forall t :: t in r.value.rows <==> t in source.rows && Matches(t, MonthKey(month), DayKey(day))
    ensures r.Ok? ==> forall t ::
      multiset(r.value.rows)[t] == if Matches(t, MonthKey(month), DayKey(day)) then multiset(source.rows)[t] else 0
  {
    if month != "all" && MonthOrdinal(month).None? then Err(UnknownMonth(month))
    else
      var rows := Select(source.rows, MonthKey(month), DayKey(day));
      SelectIsConjunction(source.rows, MonthKey(month), DayKey(day));
      FilterIsSubsequence(source.rows, (t: Trip) => Matches(t, MonthKey(month), DayKey(day)));
      Ok(Table(rows, source.hasGender, source.hasBirthYear))
  }

  /**
   * The rows load_data keeps are exactly df[mask] for the mask "matches the
   * month and the day", in table order.
   */
  lemma LoadDataIsFilter(source: Table, month: string, day: string)
    requires LoadData(source, month, day).Ok?
    ensures LoadData(source, month, day).value.rows ==
      Filter(source.rows, (t: Trip) => Matches(t, MonthKey(month), DayKey(day)))
  {
    SelectIsConjunction(source.rows, MonthKey(month), DayKey(day));
  }

  /** Loading an already filtered table again with the same month and day gives the same table. */
  lemma LoadDataIdempotent(source: Table, month: string, day: string)
    requires LoadData(source, month, day).Ok?
    ensures LoadData(LoadData(source, month, day).value, month, day) == LoadData(source, month, day)
  {
    var keep := (t: Trip) => Matches(t, MonthKey(month), DayKey(day));
    var once := LoadData(source, month, day).value;
    SelectIsConjunction(source.rows, MonthKey(month), DayKey(day));
    SelectIsConjunction(once.rows, MonthKey(month), DayKey(day));
    FilterIdempotent(source.rows, keep);
  }

  /** For every weekday typed at the prompt, day.title() is the name pandas gives that weekday. */
  lemma WeekdayTitles()
    ensures forall i :: 0 <= i < 7 ==> Title(WEEKDAYS[i]) == WEEKDAY_NAMES[i]
  {
    forall i | 0 <= i < 7 ensures Title(WEEKDAYS[i]) == WEEKDAY_NAMES[i] {
      TitleOfLowerWord(WEEKDAYS[i]);
    }
  }
}
