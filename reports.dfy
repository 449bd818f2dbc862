/**
 * The four statistics reporters, time_stats, station_stats,
 * trip_duration_stats and user_stats, as functions from a table to the
 * values they print. A reporter that raises on an empty table yields None.
 */
module Reports {
  import opened Wrappers
  import opened Counting
  import opened Trips

  function Months(rows: seq<Trip>): seq<int> { seq(|rows|, i requires 0 <= i < |rows| => rows[i].month) }
  function Weekdays(rows: seq<Trip>): seq<string> { seq(|rows|, i requires 0 <= i < |rows| => rows[i].dayOfWeek) }
  function Hours(rows: seq<Trip>): seq<int> { seq(|rows|, i requires 0 <= i < |rows| => rows[i].hour) }
  function StartStations(rows: seq<Trip>): seq<string> { seq(|rows|, i requires 0 <= i < |rows| => rows[i].startStation) }
  function EndStations(rows: seq<Trip>): seq<string> { seq(|rows|, i requires 0 <= i < |rows| => rows[i].endStation) }
  function Durations(rows: seq<Trip>): seq<int> { seq(|rows|, i requires 0 <= i < |rows| => rows[i].duration) }
  function UserTypes(rows: seq<Trip>): seq<Option<string>> { seq(|rows|, i requires 0 <= i < |rows| => rows[i].userType) }
  function Genders(rows: seq<Trip>): seq<Option<string>> { seq(|rows|, i requires 0 <= i < |rows| => rows[i].gender) }
  function BirthYears(rows: seq<Trip>): seq<Option<int>> { seq(|rows|, i requires 0 <= i < |rows| => rows[i].birthYear) }

  /** The (start station, end station) pair of every row. */
  function Routes(rows: seq<Trip>): seq<(string, string)>
  {
    seq(|rows|, i requires 0 <= i < |rows| => (rows[i].startStation, rows[i].endStation))
  }

  datatype TimeReport = TimeReport(month: int, dayOfWeek: string, hour: int)

  /**
   * time_stats: the modes of the month, day_of_week and hour columns.
   * On an empty table mode() is empty and mode()[0] raises: None.
   */
  function TimeStats(rows: seq<Trip>): (r: Option<TimeReport>)
    ensures r.None? <==> rows == []
    ensures r.Some? ==> IsMostCommon(Months(rows), r.value.month)
    ensures r.Some? ==> IsMostCommon(Weekdays(rows), r.value.dayOfWeek)
    ensures r.Some? ==> IsMostCommon(Hours(rows), r.value.hour)
  {
    if rows == [] then None
    else
      Some(TimeReport(
        MostCommon(Months(rows)).value,
        MostCommon(Weekdays(rows)).value,
        MostCommon(Hours(rows)).value))
  }

  datatype StationReport = StationReport(start: string, end: string, route: (string, string))

  /**
   * station_stats: the start station and the end station with the highest
   * count, and the (start, end) pair with the highest joint count. On an
   * empty table idxmax and iloc[0] raise: None.
   */
  function StationStats(rows: seq<Trip>): (r: Option<StationReport>)
    ensures r.None? <==> rows == []
    ensures r.Some? ==> IsMostCommon(StartStations(rows), r.value.start)
    ensures r.Some? ==> IsMostCommon(EndStations(rows), r.value.end)
    ensures r.Some? ==> IsMostCommon(Routes(rows), r.value.route)
  {
    if rows == [] then None
    else
      Some(StationReport(
        MostCommon(StartStations(rows)).value,
        MostCommon(EndStations(rows)).value,
        MostCommon(Routes(rows)).value))
  }

  /**
   * trip_duration_stats' "total travel time": the maximum of the Trip
   * Duration column, not its sum. pandas gives NaN for an empty column: None.
   */
  function TotalTravelTime(rows: seq<Trip>): (r: Option<int>)
    ensures r.None? <==> rows == []
    ensures r.Some? ==> forall t :: t in rows ==> t.duration <= r.value
    ensures r.Some? ==> exists t :: t in rows && t.duration == r.value
  {
    if rows == [] then None
    else
      var durations := Durations(rows);
      var longest := Max(durations);
      assert forall t :: t in rows ==> t.duration in durations by {
        forall t | t in rows ensures t.duration in durations {
          var i :| 0 <= i < |rows| && rows[i] == t;
          assert durations[i] == t.duration;
        }
      }
      var i :| 0 <= i < |durations| && durations[i] == longest;
      assert rows[i] in rows;
      Some(longest)
  }

  /** Earliest, most recent and most common birth years; the first two are NaN (None) when no year is given. */
  datatype BirthYearReport = BirthYearReport(earliest: Option<int>, latest: Option<int>, common: set<int>)
  {
    /** Every most common year lies between the earliest and the most recent year. */
    predicate ModesWithinRange()
    {
      forall y :: y in common ==> earliest.Some? && latest.Some? && earliest.value <= y <= latest.value
    }
  }

  /**
   * r is what user_stats prints for the Birth Year column years: the earliest
   * and the most recent given year (NaN, None, when no year is given) and the
   * years no given year outnumbers.
   */
  ghost predicate IsBirthYearReport(years: seq<Option<int>>, r: BirthYearReport)
  {
    && (r.earliest.None? <==> Present(years) == [])
    && (r.latest.None? <==> Present(years) == [])
    && (r.earliest.Some? ==> Some(r.earliest.value) in years && forall y :: Some(y) in years ==> r.earliest.value <= y)
    && (r.latest.Some? ==> Some(r.latest.value) in years && forall y :: Some(y) in years ==> y <= r.latest.value)
    && (forall y :: y in r.common <==> y in Present(years) && NoneMoreFrequent(Present(years), y))
  }

  /** Birth Year min(), max() and mode(). */
  function BirthYearStats(years: seq<Option<int>>): (r: BirthYearReport)
    ensures IsBirthYearReport(years, r)
    ensures r.ModesWithinRange()
  {
    var given := Present(years);
    if given == [] then BirthYearReport(None, None, Modes(given))
    else BirthYearReport(Some(Min(given)), Some(Max(given)), Modes(given))
  }

  datatype UserReport = UserReport(
    userTypes: Tally<string>,
    genders: Option<Tally<string>>,          // None: "No data about gender"
    birthYears: Option<BirthYearReport>)     // None: "No data about birth year"

  /**
   * r is what user_stats prints for table t: the value counts of User Type;
   * those of Gender exactly when the table has that column; the birth-year
   * figures exactly when it has a Birth Year column.
   */
  ghost predicate IsUserReport(t: Table, r: UserReport)
  {
    && IsValueCounts(UserTypes(t.rows), r.userTypes)
    && (r.genders.Some? <==> t.hasGender)
    && (r.genders.Some? ==> IsValueCounts(Genders(t.rows), r.genders.value))
    && (r.birthYears.Some? <==> t.hasBirthYear)
    && (r.birthYears.Some? ==> IsBirthYearReport(BirthYears(t.rows), r.birthYears.value) && r.birthYears.value.ModesWithinRange())
  }

  /**
   * user_stats: value counts of User Type; value counts of Gender when the
   * table has that column; earliest, latest and modal Birth Year when it has
   * that column. A missing column takes the "no data" branch.
   */
  function UserStats(t: Table): (r: UserReport)
    ensures IsUserReport(t, r)
  {
    UserReport(
      ValueCounts(UserTypes(t.rows)),
      if t.hasGender then Some(ValueCounts(Genders(t.rows))) else None,
      if t.hasBirthYear then Some(BirthYearStats(BirthYears(t.rows))) else None)
  }
}
