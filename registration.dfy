/**
 * The registration flow of the attendance application (`main`): a forward
 * sequence of gates — location, calendar, today's event, credentials,
 * spreadsheet, IP hash, duplicate check — followed by name collection and
 * the append. Each gate that fails ends the run with its own outcome.
 */
module Registration {
  import opened Wrappers
  import opened Calendar
  import opened Location
  import opened Ledger

  /**
   * Everything one run learns from outside: the location probe, the parsed
   * calendar, today's date and its "YYYY-MM-DD" text, whether credentials
   * load, whether the spreadsheet answers the first read (false also stands
   * for any other exception caught by the same handler, such as one raised
   * while hashing the IP), the hashed IP (None
   * when no address was found), whether the duplicate check's own read
   * succeeds, the submitted name (None while the button is not pressed), and
   * whether the append call succeeds.
   */
  datatype Environment = Environment(
    location: Probe,
    calendar: CalendarFile,
    today: Date,
    todayText: string,
    credentialsLoaded: bool,
    sheetReachable: bool,
    ipHash: Option<string>,
    duplicateReadOk: bool,
    submission: Option<string>,
    appendOk: bool)

  /** How a run ends; every abort has its own message in the application. */
  datatype Outcome =
    | AccessDenied(reason: Verdict)
    | NoEventsConfigured
    | NoEventToday
    | CredentialsUnavailable
    | SheetUnreachable
    | NoIpHash
    | AlreadyRegistered
    | AwaitingSubmission(eventName: string)
    | EmptyName
    | Registered(name: string, eventName: string)
    | AppendFailed

  /** The first read (whole tab) carries a "values" entry exactly when the tab holds rows. */
  predicate SheetHasValues(rows: seq<Row>) {
    |rows| > 0
  }

  /** The outcome of one run against a ledger holding rows. */
  function Run(env: Environment, rows: seq<Row>): Outcome {
    var verdict := CheckLocation(env.location);
    if !verdict.Accepted? then AccessDenied(verdict)
    else
      var events := LoadEvents(env.calendar);
      if events == [] then NoEventsConfigured
      else
        var (found, eventName) := TodaysEvent(events, env.today);
        if !found then NoEventToday
        else if !env.credentialsLoaded then CredentialsUnavailable
        else if !env.sheetReachable then SheetUnreachable
        else if env.ipHash.None? then NoIpHash
        else if SheetHasValues(rows) &&
                AlreadyRegisteredToday(rows, env.duplicateReadOk, env.ipHash.value, env.todayText)
        then AlreadyRegistered
        else match env.submission
          case None => AwaitingSubmission(eventName.value)
          case Some(name) =>
            if name == "" then EmptyName
            else if env.appendOk then Registered(name, eventName.value)
            else AppendFailed
  }

  /** The rows a run appends: the attendance row on success, nothing otherwise. */
  function Appended(env: Environment, rows: seq<Row>): seq<Row> {
    var outcome := Run(env, rows);
    if outcome.Registered? then [AttendanceRow(env.ipHash.value, env.todayText, outcome.name, outcome.eventName)]
    else []
  }

  /** `main`: runs the gates in order against the spreadsheet and appends at most one row. */
  method RunRegistration(env: Environment, sheet: Spreadsheet) returns (outcome: Outcome)
    modifies sheet
    ensures outcome == Run(env, old(sheet.rows))
    ensures sheet.rows == old(sheet.rows) + Appended(env, old(sheet.rows))
  {
    var verdict := CheckLocation(env.location);
    if !verdict.Accepted? {
      return AccessDenied(verdict);
    }
    var events := ReadCalendarEvents(env.calendar);
    if events == [] {
      return NoEventsConfigured;
    }
    var (found, eventName) := TodaysEvent(events, env.today);
    if !found {
      return NoEventToday;
    }
    if !env.credentialsLoaded {
      return CredentialsUnavailable;
    }
    if !env.sheetReachable {
      return SheetUnreachable;
    }
    var hasValues := SheetHasValues(sheet.rows);
    if env.ipHash.None? {
      return NoIpHash;
    }
    var ipHash := env.ipHash.value;
    if hasValues {
      var registered := AlreadyRegisteredToday(sheet.rows, env.duplicateReadOk, ipHash, env.todayText);
      if registered {
        return AlreadyRegistered;
      }
    }
    if env.submission.None? {
      return AwaitingSubmission(eventName.value);
    }
    var name := env.submission.value;
    if name == "" {
      return EmptyName;
    }
    var ok := sheet.RegisterAttendance(name, ipHash, env.todayText, eventName.value, env.appendOk);
    if ok {
      outcome := Registered(name, eventName.value);
    } else {
      outcome := AppendFailed;
    }
  }

  /** The position of the gate at which a run ends (0 = location, ..., 7 = name collection and append). */
  function Stage(outcome: Outcome): nat {
    match outcome
    case AccessDenied(_) => 0
    case NoEventsConfigured => 1
    case NoEventToday => 2
    case CredentialsUnavailable => 3
    case SheetUnreachable => 4
    case NoIpHash => 5
    case AlreadyRegistered => 6
    case AwaitingSubmission(_) => 7
    case EmptyName => 7
    case Registered(_, _) => 7
    case AppendFailed => 7
  }

  /** Two runs see the same inputs at every gate up to and including gate k. */
  predicate AgreeUpTo(k: nat, env: Environment, rows: seq<Row>, env': Environment, rows': seq<Row>) {
    && env.location == env'.location
    && (k >= 1 ==> env.calendar == env'.calendar)
    && (k >= 2 ==> env.today == env'.today)
    && (k >= 3 ==> env.credentialsLoaded == env'.credentialsLoaded)
    && (k >= 4 ==> env.sheetReachable == env'.sheetReachable)
    && (k >= 5 ==> env.ipHash == env'.ipHash)
    && (k >= 6 ==> rows == rows' && env.duplicateReadOk == env'.duplicateReadOk && env.todayText == env'.todayText)
    && (k >= 7 ==> env.submission == env'.submission && env.appendOk == env'.appendOk)
  }

  /**
   * A run that ends at gate k never looks past it: changing the inputs of
   * later gates (the ledger's rows among them, before gate 6) leaves the
   * outcome unchanged. In particular, with no event today the ledger is not
   * consulted.
   */
  lemma LaterGatesUntouched(env: Environment, rows: seq<Row>, env': Environment, rows': seq<Row>)
    requires AgreeUpTo(Stage(Run(env, rows)), env, rows, env', rows')
    ensures Run(env', rows') == Run(env, rows)
  {
  }

  /** A run ends at the location gate exactly when the location is unknown or farther than the threshold. */
  lemma LocationGateFirst(env: Environment, rows: seq<Row>)
    ensures Run(env, rows).AccessDenied? <==>
            !(env.location.Measured? && env.location.distanceKm <= MaxDistanceKm)
    ensures Run(env, rows) == AccessDenied(Unlocated) <==> !env.location.Measured?
    ensures Run(env, rows).AccessDenied? && env.location.Measured? ==>
            Run(env, rows) == AccessDenied(TooFar(env.location.distanceKm))
  {
  }

  /**
   * Once the location is accepted and the calendar holds events, a run stops
   * with "no event today" exactly when no event is dated today.
   */
  lemma NoEventTodayExactly(env: Environment, rows: seq<Row>)
    requires env.location.Measured? && env.location.distanceKm <= MaxDistanceKm
    requires LoadEvents(env.calendar) != []
    ensures Run(env, rows) == NoEventToday <==>
            !exists i :: 0 <= i < |LoadEvents(env.calendar)| && LoadEvents(env.calendar)[i].date == env.today
  {
  }

  /**
   * Once every gate before the duplicate check passes, a run stops with
   * "already registered" exactly when the sheet holds rows, the duplicate
   * read succeeds and some row records this hash on today's date.
   */
  lemma AlreadyRegisteredExactly(env: Environment, rows: seq<Row>)
    requires env.location.Measured? && env.location.distanceKm <= MaxDistanceKm
    requires exists i :: 0 <= i < |LoadEvents(env.calendar)| && LoadEvents(env.calendar)[i].date == env.today
    requires env.credentialsLoaded && env.sheetReachable && env.ipHash.Some?
    ensures Run(env, rows) == AlreadyRegistered <==>
            |rows| > 0 && env.duplicateReadOk &&
            exists i :: 0 <= i < |rows| && RecordsVisit(rows[i], env.ipHash.value, env.todayText)
  {
  }

  /**
   * A run registers exactly when every gate passes: accepted location,
   * a non-empty calendar with an event today, credentials and sheet, an IP
   * hash, no row already recording the visit (unless the sheet is empty or
   * the duplicate read fails), a non-empty submitted name and a successful
   * append. The row names the submitted person and the first event of the day.
   */
  lemma RegisteredExactlyWhenAllGatesPass(env: Environment, rows: seq<Row>)
    ensures Run(env, rows).Registered? <==>
      && env.location.Measured? && env.location.distanceKm <= MaxDistanceKm
      && LoadEvents(env.calendar) != []
      && (exists i :: 0 <= i < |LoadEvents(env.calendar)| && LoadEvents(env.calendar)[i].date == env.today)
      && env.credentialsLoaded && env.sheetReachable && env.ipHash.Some?
      && !(|rows| > 0 && env.duplicateReadOk &&
           exists i :: 0 <= i < |rows| && RecordsVisit(rows[i], env.ipHash.value, env.todayText))
      && env.submission.Some? && env.submission.value != "" && env.appendOk
    ensures Run(env, rows).Registered? ==>
      && Run(env, rows).name == env.submission.value
      && Some(Run(env, rows).eventName) == TodaysEvent(LoadEvents(env.calendar), env.today).1
  {
  }

  /** The ledger changes only on a registration, and then gains exactly the row [hash, date, name, event]. */
  lemma LedgerChangesOnlyOnRegistration(env: Environment, rows: seq<Row>)
    ensures Run(env, rows).Registered? <==> |Appended(env, rows)| == 1
    ensures !Run(env, rows).Registered? ==> Appended(env, rows) == []
    ensures Run(env, rows).Registered? ==>
      Appended(env, rows) == [[env.ipHash.value, env.todayText, env.submission.value, Run(env, rows).eventName]]
  {
    RegisteredExactlyWhenAllGatesPass(env, rows);
  }

  /** With the duplicate read working, repeating a successful run on the updated ledger is refused. */
  lemma SecondRunRefused(env: Environment, rows: seq<Row>)
    requires Run(env, rows).Registered?
    requires env.duplicateReadOk
    ensures Run(env, rows + Appended(env, rows)) == AlreadyRegistered
  {
    var after := rows + Appended(env, rows);
    var h := env.ipHash.value;
    assert RecordsVisit(after[|rows|], h, env.todayText);
  }

  /** When the duplicate read works, a run never records the same caller twice on the same day. */
  lemma RunKeepsVisitsUnique(env: Environment, rows: seq<Row>)
    requires UniqueVisits(rows)
    requires env.duplicateReadOk
    ensures UniqueVisits(rows + Appended(env, rows))
  {
    var outcome := Run(env, rows);
    if outcome.Registered? {
      RegisteredExactlyWhenAllGatesPass(env, rows);
      AppendKeepsVisitsUnique(rows, env.ipHash.value, env.todayText, outcome.name, outcome.eventName);
    } else {
      assert rows + Appended(env, rows) == rows;
    }
  }

  /** An empty ledger skips the duplicate check: a run against it is never refused as a repeat. */
  lemma EmptyLedgerNeverRepeat(env: Environment)
    ensures Run(env, []) != AlreadyRegistered
  {
  }

  /**
   * The duplicate check fails open: when its read fails, a caller already
   * recorded today is registered a second time.
   */
  lemma FailedDuplicateReadAdmitsRepeat()
    ensures exists env: Environment, rows: seq<Row> ::
      UniqueVisits(rows) && !UniqueVisits(rows + Appended(env, rows))
  {
    var today := Date(2024, 3, 1);
    var env := Environment(Measured(0.0), Parsed([VEvent(Some(AllDay(today)), Some("Math"))]), today,
                           "2024-03-01", true, true, Some("abc123"), false, Some("Ana"), true);
    var rows := [AttendanceRow("abc123", "2024-03-01", "Ana", "Math")];
    var walk := [VEvent(Some(AllDay(today)), Some("Math"))];
    assert AllEventsDated(walk);
    assert walk[1..] == [];
    assert Pairs(walk) == [CalendarEvent(today, "Math")];
    assert Run(env, rows) == Registered("Ana", "Math");
    var after := rows + Appended(env, rows);
    assert after[0][..2] == after[1][..2];
  }

  /**
   * A caller at the reference point, a calendar whose only event today is
   * "Seminar", an empty ledger and the name "Ana": the run registers Ana for
   * the Seminar and appends [hash, date, "Ana", "Seminar"].
   */
  lemma SeminarScenario(h: string)
    ensures var today := Date(2024, 3, 1);
            var env := Environment(Measured(0.0), Parsed([OtherComponent("VTIMEZONE"), VEvent(Some(Timed(today, 36000)), Some("Seminar"))]),
                                   today, "2024-03-01", true, true, Some(h), true, Some("Ana"), true);
            Run(env, []) == Registered("Ana", "Seminar") &&
            Appended(env, []) == [[h, "2024-03-01", "Ana", "Seminar"]]
  {
    var today := Date(2024, 3, 1);
    var walk := [OtherComponent("VTIMEZONE"), VEvent(Some(Timed(today, 36000)), Some("Seminar"))];
    assert AllEventsDated(walk);
    assert walk[1..][1..] == [];
    assert Pairs(walk[1..]) == [CalendarEvent(today, "Seminar")];
    assert Pairs(walk) == [CalendarEvent(today, "Seminar")];
  }

  /** Two events on the same day: the first one in calendar order names the registration. */
  lemma DuplicateEventDateScenario()
    ensures var today := Date(2024, 3, 1);
            TodaysEvent([CalendarEvent(today, "Math"), CalendarEvent(today, "Physics")], today) == (true, Some("Math"))
  {
  }
}
