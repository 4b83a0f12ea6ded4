/**
 * The event calendar of the attendance application: turning the components
 * of an already-parsed iCalendar document into (date, event name) pairs, and
 * finding the event scheduled for today.
 */
module Calendar {
  import opened Wrappers

  /** A calendar date, compared field by field like Python's `datetime.date`. */
  datatype Date = Date(year: int, month: int, day: int)

  /** The value of a DTSTART property: a DATE, or a DATE-TIME with its time of day. */
  datatype Start =
    | AllDay(day: Date)
    | Timed(day: Date, secondOfDay: nat)

  /**
   * One component produced by walking the parsed calendar. Only VEVENT
   * components are read; their DTSTART and SUMMARY may be absent.
   */
  datatype Component =
    | VEvent(dtstart: Option<Start>, summary: Option<string>)
    | OtherComponent(name: string)

  /** The outcome of opening and parsing the calendar file. */
  datatype CalendarFile =
    | FileMissing
    | Unparsable
    | Parsed(walk: seq<Component>)

  /** One scheduled session: its date and its name. */
  datatype CalendarEvent = CalendarEvent(date: Date, name: string)

  /** The name given to an event that has no SUMMARY. */
  const NoSummary: string := "Sem nome"

  /** Every VEVENT of the walk carries a DTSTART (otherwise reading it raises). */
  predicate AllEventsDated(walk: seq<Component>) {
    forall i :: 0 <= i < |walk| ==> (walk[i].VEvent? ==> walk[i].dtstart.Some?)
  }

  /** The pair recorded for one dated VEVENT: the start truncated to its date, the summary or the placeholder. */
  function EventOf(start: Start, summary: Option<string>): CalendarEvent {
    CalendarEvent(start.day, if summary.Some? then summary.value else NoSummary)
  }

  /** The number of VEVENT components in a walk. */
  function CountEvents(walk: seq<Component>): nat {
    if walk == [] then 0
    else (if walk[0].VEvent? then 1 else 0) + CountEvents(walk[1..])
  }

  /** The pairs a walk yields, in walk order, one per VEVENT. */
  function Pairs(walk: seq<Component>): seq<CalendarEvent>
    requires AllEventsDated(walk)
  {
    if walk == [] then []
    else
      match walk[0]
      case OtherComponent(_) => Pairs(walk[1..])
      case VEvent(start, summary) => [EventOf(start.value, summary)] + Pairs(walk[1..])
  }

  /**
   * The events read from the calendar file: empty when the file is missing,
   * cannot be parsed, or holds a VEVENT without DTSTART (every such failure is
   * caught and reported as an empty list).
   */
  function LoadEvents(file: CalendarFile): (events: seq<CalendarEvent>)
    ensures |events| == if file.Parsed? && AllEventsDated(file.walk) then CountEvents(file.walk) else 0
  {
    match file
    case FileMissing => []
    case Unparsable => []
    case Parsed(walk) =>
      if AllEventsDated(walk) then PairsLength(walk); Pairs(walk) else []
  }

  /** Extending a walk by one component extends its pairs by that component's pair, if any. */
  lemma {:induction false} PairsSnoc(walk: seq<Component>, c: Component)
    requires AllEventsDated(walk + [c])
    ensures AllEventsDated(walk)
    ensures c.VEvent? ==> c.dtstart.Some?
    ensures Pairs(walk + [c]) ==
            Pairs(walk) + (if c.VEvent? then [EventOf(c.dtstart.value, c.summary)] else [])
  {
    assert forall i :: 0 <= i < |walk| ==> walk[i] == (walk + [c])[i];
    assert (walk + [c])[|walk|] == c;
    if walk != [] {
      assert (walk + [c])[1..] == walk[1..] + [c];
      PairsSnoc(walk[1..], c);
    } else {
      assert [c][1..] == [];
    }
  }

  /** Extraction yields exactly one pair per VEVENT. */
  lemma {:induction false} PairsLength(walk: seq<Component>)
    requires AllEventsDated(walk)
    ensures |Pairs(walk)| == CountEvents(walk)
  {
    if walk != [] {
      PairsLength(walk[1..]);
    }
  }

  /**
   * The VEVENT at walk position i yields the pair at position "number of
   * VEVENTs before i": its DTSTART truncated to a date, and its SUMMARY or
   * "Sem nome". So pairs come in walk order and other components are skipped.
   */
  lemma {:induction false} PairsAt(walk: seq<Component>, i: nat)
    requires AllEventsDated(walk)
    requires i < |walk| && walk[i].VEvent?
    ensures CountEvents(walk[..i]) < |Pairs(walk)|
    ensures Pairs(walk)[CountEvents(walk[..i])].date == walk[i].dtstart.value.day
    ensures Pairs(walk)[CountEvents(walk[..i])].name ==
            (if walk[i].summary.Some? then walk[i].summary.value else NoSummary)
  {
    PairsLength(walk);
    if i == 0 {
      assert walk[..0] == [];
    } else {
      assert walk[..i][1..] == walk[1..][..i - 1];
      PairsAt(walk[1..], i - 1);
    }
  }

  /**
   * `ler_datas_do_calendario`: walks the parsed components, appending one
   * pair per VEVENT; any failure yields the empty list.
   */
  method ReadCalendarEvents(file: CalendarFile) returns (events: seq<CalendarEvent>)
    ensures events == LoadEvents(file)
  {
    match file
    case FileMissing =>
      events := [];
    case Unparsable =>
      events := [];
    case Parsed(walk) =>
      events := [];
      var i := 0;
      while i < |walk|
        invariant 0 <= i <= |walk|
        invariant AllEventsDated(walk[..i])
        invariant events == Pairs(walk[..i])
      {
        var c := walk[i];
        assert walk[..i + 1] == walk[..i] + [c];
        match c {
          case OtherComponent(_) =>
            PairsSnoc(walk[..i], c);
          case VEvent(start, summary) =>
            if start.None? {
              assert !AllEventsDated(walk) by { assert walk[i].VEvent? && walk[i].dtstart.None?; }
              return [];
            }
            PairsSnoc(walk[..i], c);
            events := events + [EventOf(start.value, summary)];
        }
        i := i + 1;
      }
      assert walk[..i] == walk;
  }

  /**
   * `verificar_data_atual`: a linear scan returning (True, name) for the first
   * event dated today, and (False, None) when there is none.
   */
  function TodaysEvent(events: seq<CalendarEvent>, today: Date): (r: (bool, Option<string>))
    ensures r.0 <==> exists i :: 0 <= i < |events| && events[i].date == today
    ensures !r.0 ==> r.1 == None
    ensures r.0 ==> exists i :: 0 <= i < |events| && events[i].date == today &&
                                r.1 == Some(events[i].name) &&
                                forall j :: 0 <= j < i ==> events[j].date != today
  {
    if events == [] then (false, None)
    else if events[0].date == today then (true, Some(events[0].name))
    else
      var r := TodaysEvent(events[1..], today);
      assert forall i :: 0 < i < |events| ==> events[i] == events[1..][i - 1];
      r
  }

  /** The first event dated today is the one returned; later events with the same date never are. */
  lemma FirstMatchWins(events: seq<CalendarEvent>, today: Date, i: nat)
    requires i < |events| && events[i].date == today
    requires forall j :: 0 <= j < i ==> events[j].date != today
    ensures TodaysEvent(events, today) == (true, Some(events[i].name))
  {
  }

  /** Events appended after a match do not change the answer. */
  lemma {:induction false} TodaysEventAppend(events: seq<CalendarEvent>, more: seq<CalendarEvent>, today: Date)
    requires TodaysEvent(events, today).0
    ensures TodaysEvent(events + more, today) == TodaysEvent(events, today)
  {
    if events[0].date != today {
      assert (events + more)[1..] == events[1..] + more;
      TodaysEventAppend(events[1..], more, today);
    }
  }
}
