/**
 * main: the session loop. Each round chooses filters, loads and filters the
 * city's table, runs the four reporters, offers the pager and asks whether
 * to restart; a round starts again only on "yes". The CSV files are given as
 * a map from file name to the table read from it.
 */
module Session {
  import opened Wrappers
  import opened Text
  import opened Counting
  import opened Trips
  import opened Reports
  import opened Prompts
  import opened Pager

  /** The file holding each city's trips. */
  const CITY_DATA: map<string, string> :=
    map["chicago" := "chicago.csv", "new york city" := "new_york_city.csv", "washington" := "washington.csv"]

  /** The four reports printed for one table. */
  datatype Summary = Summary(
    times: TimeReport,
    stations: StationReport,
    totalTravelTime: int,
    users: UserReport)

  /** time_stats, station_stats, trip_duration_stats and user_stats on one table; None when it has no rows. */
  function Summarize(t: Table): (r: Option<Summary>)
    ensures r.None? <==> t.rows == []
    ensures r.Some? ==> && IsMostCommon(Months(t.rows), r.value.times.month)
                        && IsMostCommon(Weekdays(t.rows), r.value.times.dayOfWeek)
                        && IsMostCommon(Hours(t.rows), r.value.times.hour)
    ensures r.Some? ==> && IsMostCommon(StartStations(t.rows), r.value.stations.start)
                        && IsMostCommon(EndStations(t.rows), r.value.stations.end)
                        && IsMostCommon(Routes(t.rows), r.value.stations.route)
    ensures r.Some? ==> && (forall x :: x in t.rows ==> x.duration <= r.value.totalTravelTime)
                        && (exists x :: x in t.rows && x.duration == r.value.totalTravelTime)
    ensures r.Some? ==> IsUserReport(t, r.value.users)
  {
    if t.rows == [] then None
    else Some(Summary(TimeStats(t.rows).value, StationStats(t.rows).value, TotalTravelTime(t.rows).value, UserStats(t)))
  }

  /**
   * One round of the session: the selection, the filtered table (whose
   * reports Summarize gives), the row windows shown and the restart answer.
   */
  datatype Round = Round(
    selection: Selection,
    table: Table,
    pages: seq<seq<Trip>>,
    restart: Option<string>)   // the lower-cased restart answer; None when input ran out before it
  {
    /** The answer to the restart question was "yes". */
    predicate Continues() { restart == Some("yes") }
  }

  /** How the session ended. */
  datatype Ending =
    | Finished                // the restart answer was not "yes"
    | InputExhausted          // input() reached end of input
    | MissingFile(name: string)
    | EmptyTable              // time_stats' mode()[0] raised on a table with no rows

  /**
   * A round is what load_data and display_data give for its own selection:
   * the table is the filtered file of the chosen city and is not empty, and
   * every window is the pager's window at row 5k. Its reports are Summarize(r.table).
   */
  predicate Faithful(files: map<string, Table>, r: Round)
  {
    && r.selection.Valid()
    && r.selection.city in CITY_DATA
    && CITY_DATA[r.selection.city] in files
    && LoadData(files[CITY_DATA[r.selection.city]], r.selection.month, r.selection.day) == Ok(r.table)
    && r.table.rows != []
    && r.pages == Windows(r.table.rows, |r.pages|)
  }

  /** Every city get_filters accepts has a file, so CITY_DATA[city] never raises. */
  lemma CityDataCoversCities()
    ensures forall c :: c in CITIES <==> c in CITY_DATA
  {
  }

  /** Every month get_filters accepts is "all" or one of MONTHS, so load_data never raises on it. */
  lemma ValidSelectionLoads(source: Table, s: Selection)
    requires s.Valid()
    ensures LoadData(source, s.month, s.day).Ok?
  {
  }

  /**
   * The round started at answer position pos ends at position next with this
   * round and ending, as main's loop body does it:
   * - a round is recorded only when get_filters found a selection (the first
   *   acceptable city, month and day), its file exists and its table has
   *   rows; it is faithful to that selection;
   * - the round shows as many windows as display_data reads answers for, and
   *   its restart answer is the lower-cased answer right after the pager's,
   *   missing only when input ran out first;
   * - the session goes on exactly on restart "yes" and finishes exactly on
   *   any other restart answer;
   * - InputExhausted means all answers were read, MissingFile names the
   *   chosen city's file when it is not there, and EmptyTable means the
   *   filtered table has no rows (time_stats' mode()[0] raises).
   */
  predicate RoundAt(files: map<string, Table>, answers: seq<string>, pos: nat,
                    round: Option<Round>, ending: Option<Ending>, next: nat)
  {
    && (round.Some? ==>
          && Faithful(files, round.value)
          && Filters(answers, pos).Some?
          && Filters(answers, pos).value.0 == round.value.selection
          && var paging := PagerReads(answers, Filters(answers, pos).value.1);
             && |round.value.pages| == paging.windows
             && (round.value.restart.None? <==> paging.exhausted || paging.next >= |answers|)
             && (round.value.restart.Some? ==>
                   next == paging.next + 1 && round.value.restart.value == Lower(answers[paging.next])))
    && (ending.None? <==> round.Some? && round.value.Continues())
    && (ending == Some(Finished) <==> round.Some? && round.value.restart.Some? && round.value.restart.value != "yes")
    && (ending.None? ==> pos < next <= |answers|)
    && (ending == Some(InputExhausted) ==> next == |answers|)
    && (ending == Some(InputExhausted) && round.None? ==> Filters(answers, pos).None?)
    && (ending.Some? && ending.value.MissingFile? ==>
          && round.None? && Filters(answers, pos).Some?
          && Filters(answers, pos).value.0.city in CITY_DATA
          && ending.value.name == CITY_DATA[Filters(answers, pos).value.0.city]
          && ending.value.name !in files)
    && (ending == Some(EmptyTable) ==>
          && round.None? && Filters(answers, pos).Some?
          && var selection := Filters(answers, pos).value.0;
             && selection.city in CITY_DATA
             && CITY_DATA[selection.city] in files
             && LoadData(files[CITY_DATA[selection.city]], selection.month, selection.day).Ok?
             && LoadData(files[CITY_DATA[selection.city]], selection.month, selection.day).value.rows == [])
  }

  /**
   * One round of main's loop from answer position pos: get_filters,
   * load_data, the four reporters, display_data and the restart question.
   * round is None when the round stopped before its reports were complete;
   * ending is None when the session goes on with another round.
   */
  method PlayRound(files: map<string, Table>, answers: seq<string>, pos: nat)
    returns (round: Option<Round>, ending: Option<Ending>, next: nat)
    requires pos <= |answers|
    ensures RoundAt(files, answers, pos, round, ending, next)
  {
    next := pos;
    var chosen, afterFilters := GetFilters(answers, pos);
    if chosen.None? {
      return None, Some(InputExhausted), afterFilters;
    }
    var selection := chosen.value;
    CityDataCoversCities();
    var file := CITY_DATA[selection.city];
    if file !in files {
      return None, Some(MissingFile(file)), afterFilters;
    }
    ValidSelectionLoads(files[file], selection);
    var table := LoadData(files[file], selection.month, selection.day).value;
    var times := TimeStats(table.rows);
    if times.None? {
      return None, Some(EmptyTable), afterFilters;
    }
    var pages, afterPager, exhausted := DisplayData(table.rows, answers, afterFilters);
    WindowsOf(table.rows, pages);
    FaithfulRound(files, selection, table, pages, None);
    if exhausted || afterPager == |answers| {
      RoundRunsOut(files, answers, pos, selection, afterFilters, table, pages, afterPager, exhausted);
      round := Some(Round(selection, table, pages, None));
      return round, Some(InputExhausted), |answers|;
    }
    var restart := Lower(answers[afterPager]);
    FaithfulRound(files, selection, table, pages, Some(restart));
    RoundAnswered(files, answers, pos, selection, afterFilters, table, pages, afterPager, restart);
    round := Some(Round(selection, table, pages, Some(restart)));
    ending := if restart == "yes" then None else Some(Finished);
    next := afterPager + 1;
  }

  /** A round with a valid selection, its loaded table when that has rows, and the pager's windows of it is faithful. */
  lemma FaithfulRound(files: map<string, Table>, selection: Selection, table: Table, pages: seq<seq<Trip>>,
                      restart: Option<string>)
    requires selection.Valid() && selection.city in CITY_DATA && CITY_DATA[selection.city] in files
    requires LoadData(files[CITY_DATA[selection.city]], selection.month, selection.day) == Ok(table)
    requires table.rows != [] && pages == Windows(table.rows, |pages|)
    ensures Faithful(files, Round(selection, table, pages, restart))
  {
  }

  /** A complete round whose input ran out in the pager or before the restart answer ends the session there. */
  lemma RoundRunsOut(files: map<string, Table>, answers: seq<string>, pos: nat, selection: Selection,
                     afterFilters: nat, table: Table, pages: seq<seq<Trip>>, afterPager: nat, exhausted: bool)
    requires pos <= afterFilters <= afterPager <= |answers|
    requires Filters(answers, pos) == Some((selection, afterFilters))
    requires Faithful(files, Round(selection, table, pages, None))
    requires PagerReads(answers, afterFilters) == Paging(|pages|, afterPager, exhausted)
    requires exhausted || afterPager == |answers|
    ensures RoundAt(files, answers, pos, Some(Round(selection, table, pages, None)), Some(InputExhausted), |answers|)
  {
  }

  /** A complete round followed by a restart answer goes on exactly on "yes" and finishes otherwise. */
  lemma RoundAnswered(files: map<string, Table>, answers: seq<string>, pos: nat, selection: Selection,
                      afterFilters: nat, table: Table, pages: seq<seq<Trip>>, afterPager: nat, restart: string)
    requires pos <= afterFilters <= afterPager < |answers|
    requires Filters(answers, pos) == Some((selection, afterFilters))
    requires Faithful(files, Round(selection, table, pages, Some(restart)))
    requires PagerReads(answers, afterFilters) == Paging(|pages|, afterPager, false)
    requires restart == Lower(answers[afterPager])
    ensures RoundAt(files, answers, pos, Some(Round(selection, table, pages, Some(restart))),
                    if restart == "yes" then None else Some(Finished), afterPager + 1)
  {
  }

  /**
   * Every round but the last, begun at starts[i], was complete, went on with
   * "yes", and stopped reading where the next one began.
   */
  predicate Chain(files: map<string, Table>, answers: seq<string>, starts: seq<nat>, rounds: seq<Round>)
  {
    && |rounds| >= |starts| - 1
    && forall i {:trigger rounds[i]} :: 0 <= i < |starts| - 1 ==>
         RoundAt(files, answers, starts[i], Some(rounds[i]), None, starts[i + 1])
  }

  /**
   * The last round of a session, begun at the last of starts, ended the
   * session with ending at position next; it is the last of rounds when it
   * was complete and is missing from rounds otherwise.
   */
  predicate LastRound(files: map<string, Table>, answers: seq<string>, starts: seq<nat>, rounds: seq<Round>,
                      ending: Ending, next: nat)
  {
    && |starts| >= 1
    && (|rounds| == |starts| || |rounds| == |starts| - 1)
    && RoundAt(files, answers, starts[|starts| - 1],
         if |rounds| == |starts| then Some(rounds[|rounds| - 1]) else None, Some(ending), next)
  }

  /** A complete round that went on with "yes" adds one link to the chain. */
  lemma ChainExtend(files: map<string, Table>, answers: seq<string>, starts: seq<nat>, rounds: seq<Round>,
                    round: Round, next: nat)
    requires Chain(files, answers, starts, rounds) && |starts| >= 1 && |rounds| == |starts| - 1
    requires RoundAt(files, answers, starts[|starts| - 1], Some(round), None, next)
    ensures Chain(files, answers, starts + [next], rounds + [round])
  {
    var starts', rounds' := starts + [next], rounds + [round];
    forall i | 0 <= i < |starts'| - 1
      ensures RoundAt(files, answers, starts'[i], Some(rounds'[i]), None, starts'[i + 1])
    {
      if i < |starts| - 1 {
        assert starts'[i] == starts[i] && starts'[i + 1] == starts[i + 1] && rounds'[i] == rounds[i];
      } else {
        assert starts'[i] == starts[|starts| - 1] && starts'[i + 1] == next && rounds'[i] == round;
      }
    }
  }

  /** Appending a round that has no successor leaves every link of the chain as it was. */
  lemma ChainKeep(files: map<string, Table>, answers: seq<string>, starts: seq<nat>, rounds: seq<Round>,
                  more: seq<Round>)
    requires Chain(files, answers, starts, rounds)
    ensures Chain(files, answers, starts, rounds + more)
  {
    var rounds' := rounds + more;
    forall i | 0 <= i < |starts| - 1
      ensures RoundAt(files, answers, starts[i], Some(rounds'[i]), None, starts[i + 1])
    {
      assert rounds'[i] == rounds[i];
    }
  }

  /**
   * One pass of main's loop: the round begun at pos, the last of starts,
   * either extends the chain and the session goes on at next, or is the
   * session's last round.
   */
  lemma SessionStep(files: map<string, Table>, answers: seq<string>, starts: seq<nat>, rounds: seq<Round>,
                    round: Option<Round>, ending: Option<Ending>, next: nat, more: seq<Round>)
    requires Chain(files, answers, starts, rounds) && |starts| >= 1 && |rounds| == |starts| - 1
    requires RoundAt(files, answers, starts[|starts| - 1], round, ending, next)
    requires more == if round.Some? then [round.value] else []
    ensures ending.None? ==> round.Some? && starts[|starts| - 1] < next
    ensures ending.None? ==> Chain(files, answers, starts + [next], rounds + more)
    ensures ending.Some? ==> Chain(files, answers, starts, rounds + more)
    ensures ending.Some? ==> LastRound(files, answers, starts, rounds + more, ending.value, next)
  {
    if ending.None? {
      ChainExtend(files, answers, starts, rounds, round.value, next);
    } else {
      ChainKeep(files, answers, starts, rounds, more);
      var rounds' := rounds + more;
      assert (if |rounds'| == |starts| then Some(rounds'[|rounds'| - 1]) else None) == round;
    }
  }

  /** How a round that RoundAt describes ended, in terms of the round itself. */
  lemma RoundOutcome(files: map<string, Table>, answers: seq<string>, pos: nat,
                     round: Option<Round>, ending: Option<Ending>, next: nat)
    requires RoundAt(files, answers, pos, round, ending, next)
    ensures round.Some? ==> Faithful(files, round.value)
    ensures ending.None? <==> round.Some? && round.value.Continues()
    ensures ending == Some(Finished) <==> round.Some? && round.value.restart.Some? && round.value.restart.value != "yes"
    ensures ending == Some(InputExhausted) ==> next == |answers|
  {
  }

  /** Every round of the chain is faithful to its selection and was followed by "yes". */
  lemma ChainRounds(files: map<string, Table>, answers: seq<string>, starts: seq<nat>, rounds: seq<Round>)
    requires Chain(files, answers, starts, rounds)
    ensures forall i {:trigger rounds[i]} :: 0 <= i < |starts| - 1 ==>
      Faithful(files, rounds[i]) && rounds[i].Continues()
  {
    forall i | 0 <= i < |starts| - 1
      ensures Faithful(files, rounds[i]) && rounds[i].Continues()
    {
      RoundOutcome(files, answers, starts[i], Some(rounds[i]), None, starts[i + 1]);
    }
  }

  /**
   * The last round of a session is faithful when it was complete; the session
   * finished normally exactly when that round's restart answer was not "yes",
   * and ran out of input only at the end of the answers.
   */
  lemma LastRoundOutcome(files: map<string, Table>, answers: seq<string>, starts: seq<nat>, rounds: seq<Round>,
                         ending: Ending, next: nat)
    requires LastRound(files, answers, starts, rounds, ending, next)
    ensures |rounds| == |starts| ==> Faithful(files, rounds[|rounds| - 1])
    ensures ending == Finished <==>
      |rounds| == |starts| && rounds[|rounds| - 1].restart.Some? && rounds[|rounds| - 1].restart.value != "yes"
    ensures ending == InputExhausted ==> next == |answers|
  {
    RoundOutcome(files, answers, starts[|starts| - 1],
      if |rounds| == |starts| then Some(rounds[|rounds| - 1]) else None, Some(ending), next);
  }

  /** The rounds of the chain and a complete last round are all the rounds of a session. */
  lemma SessionRoundsFaithful(files: map<string, Table>, starts: seq<nat>, rounds: seq<Round>)
    requires |starts| >= 1 && |starts| - 1 <= |rounds| <= |starts|
    requires forall i {:trigger rounds[i]} :: 0 <= i < |starts| - 1 ==>
      Faithful(files, rounds[i]) && rounds[i].Continues()
    requires |rounds| == |starts| ==> Faithful(files, rounds[|rounds| - 1])
    ensures forall i {:trigger Faithful(files, rounds[i])} :: 0 <= i < |rounds| ==> Faithful(files, rounds[i])
  {
    forall i | 0 <= i < |rounds|
      ensures Faithful(files, rounds[i])
    {
      if i < |starts| - 1 {
        assert Faithful(files, rounds[i]) && rounds[i].Continues();
      } else {
        assert i == |rounds| - 1;
      }
    }
  }

  /** Every round of a session but the last was followed by "yes". */
  lemma SessionRoundsContinue(files: map<string, Table>, answers: seq<string>, starts: seq<nat>, rounds: seq<Round>,
                              ending: Ending, next: nat)
    requires Chain(files, answers, starts, rounds) && LastRound(files, answers, starts, rounds, ending, next)
    ensures forall i {:trigger rounds[i].Continues()} :: 0 <= i < |rounds| - 1 ==> rounds[i].Continues()
  {
    ChainRounds(files, answers, starts, rounds);
    forall i | 0 <= i < |rounds| - 1
      ensures rounds[i].Continues()
    {
      assert Faithful(files, rounds[i]) && rounds[i].Continues();
    }
  }

  /**
   * A session finishes normally exactly when its last round was complete and
   * its restart answer was not "yes", and runs out of input only at the end
   * of the answers.
   */
  lemma SessionEnding(files: map<string, Table>, answers: seq<string>, starts: seq<nat>, rounds: seq<Round>,
                      ending: Ending, next: nat)
    requires Chain(files, answers, starts, rounds) && LastRound(files, answers, starts, rounds, ending, next)
    ensures ending == Finished <==>
      |rounds| > 0 && rounds[|rounds| - 1].restart.Some? && rounds[|rounds| - 1].restart.value != "yes"
    ensures ending == InputExhausted ==> next == |answers|
  {
    ChainRounds(files, answers, starts, rounds);
    LastRoundOutcome(files, answers, starts, rounds, ending, next);
    if 0 < |rounds| < |starts| {
      var i := |rounds| - 1;
      assert Faithful(files, rounds[i]) && rounds[i].Continues();
    }
  }

  /** What a whole session's chain of rounds says about its rounds and its ending. */
  lemma SessionFacts(files: map<string, Table>, answers: seq<string>, starts: seq<nat>, rounds: seq<Round>,
                     ending: Ending, next: nat)
    requires Chain(files, answers, starts, rounds) && LastRound(files, answers, starts, rounds, ending, next)
    ensures forall i {:trigger Faithful(files, rounds[i])} :: 0 <= i < |rounds| ==> Faithful(files, rounds[i])
    ensures forall i {:trigger rounds[i].Continues()} :: 0 <= i < |rounds| - 1 ==> rounds[i].Continues()
    ensures ending == Finished <==>
      |rounds| > 0 && rounds[|rounds| - 1].restart.Some? && rounds[|rounds| - 1].restart.value != "yes"
    ensures ending == InputExhausted ==> next == |answers|
  {
    ChainRounds(files, answers, starts, rounds);
    LastRoundOutcome(files, answers, starts, rounds, ending, next);
    SessionRoundsFaithful(files, starts, rounds);
    SessionRoundsContinue(files, answers, starts, rounds, ending, next);
    SessionEnding(files, answers, starts, rounds, ending, next);
  }

  /**
   * main: rounds follow each other while the restart answer lower-cases to
   * "yes". starts holds the answer position at which each round began, the
   * first at 0 and each next one where the previous round stopped reading;
   * the last round may have stopped before it was complete.
   */
  method RunSession(files: map<string, Table>, answers: seq<string>)
    returns (rounds: seq<Round>, ending: Ending, starts: seq<nat>, next: nat)
    ensures |starts| >= 1 && starts[0] == 0
    ensures Chain(files, answers, starts, rounds)
    ensures LastRound(files, answers, starts, rounds, ending, next)
    ensures forall i {:trigger Faithful(files, rounds[i])} :: 0 <= i < |rounds| ==> Faithful(files, rounds[i])
    ensures forall i {:trigger rounds[i].Continues()} :: 0 <= i < |rounds| - 1 ==> rounds[i].Continues()
    ensures ending == Finished <==>
      |rounds| > 0 && rounds[|rounds| - 1].restart.Some? && rounds[|rounds| - 1].restart.value != "yes"
    ensures ending == InputExhausted ==> next == |answers|
  {
    rounds, starts := [], [];
    ending, next := InputExhausted, 0;
    var pos := 0;
    var done := false;
    while !done
      invariant pos <= |answers|
      invariant !done ==> |rounds| == |starts| && (starts + [pos])[0] == 0
      // The chain is carried as one fact, so each pass takes it whole from SessionStep.
      invariant !done ==> Chain(files, answers, starts + [pos], rounds) == true
      invariant done ==> |starts| >= 1 && starts[0] == 0
      invariant done ==> Chain(files, answers, starts, rounds) == true && LastRound(files, answers, starts, rounds, ending, next) == true
      decreases |answers| - pos, if done then 0 else 1
    {
      var round, roundEnding, after := PlayRound(files, answers, pos);
      var more := if round.Some? then [round.value] else [];
      SessionStep(files, answers, starts + [pos], rounds, round, roundEnding, after, more);
      if roundEnding.None? {
        assert (starts + [pos] + [after])[0] == (starts + [pos])[0];
        starts, rounds, pos := starts + [pos], rounds + more, after;
      } else {
        starts, rounds := starts + [pos], rounds + more;
        done, ending, next := true, roundEnding.value, after;
      }
    }
    SessionFacts(files, answers, starts, rounds, ending, next);
  }
}
