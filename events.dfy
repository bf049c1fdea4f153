/** The events page (src/components/events.tsx): creating and deleting
    events, the colour and type lookups, the end time shown on each card,
    week navigation and the chronological list view, which sorts the
    page's event array in place. */
module Events {
  import opened Wrappers
  import opened Text
  import opened Arrays
  import opened Clock
  import opened Calendar

  datatype Event = Event(
    id: int,
    title: string,
    description: string,
    date: string,
    time: string,
    duration: int,
    kind: string,
    location: string,
    attendees: seq<string>,
    isRecurring: bool,
    color: string)

  /** The creation form. `date` is the picked day already written as
      "yyyy-MM-dd". */
  datatype EventDraft = EventDraft(
    title: string,
    description: string,
    date: string,
    time: string,
    duration: int,
    kind: string,
    location: string,
    color: string)

  /** The form after a reset, dated today. */
  function DefaultDraft(today: string): EventDraft
  {
    EventDraft("", "", today, "09:00", 60, "meeting", "", "blue")
  }

  /** The duration field: `parseInt(value) || 60`. `parsed` is what
      `parseInt` returned, None for NaN; NaN and 0 both fall back to 60. */
  function DurationInput(parsed: Option<int>): (r: int)
    ensures r != 0
    ensures parsed.Some? && parsed.value != 0 ==> r == parsed.value
    ensures parsed.None? || parsed == Some(0) ==> r == 60
  {
    match parsed
    case Some(n) => if n != 0 then n else 60
    case None => 60
  }

  /** `handleCreateEvent`'s list update: with a non-blank title the event
      from the form is appended, with no attendees and not recurring. */
  function AppendEvent(events: seq<Event>, d: EventDraft, newId: int): (r: seq<Event>)
    ensures Blank(d.title) ==> r == events
    ensures !Blank(d.title) ==>
              r == events + [Event(newId, d.title, d.description, d.date, d.time, d.duration,
                                   d.kind, d.location, [], false, d.color)]
  {
    if Trim(d.title) != "" then
      events + [Event(newId, d.title, d.description, d.date, d.time, d.duration, d.kind, d.location, [], false, d.color)]
    else
      events
  }

  predicate Survives(e: Event, id: int)
  {
    e.id != id
  }

  /** `deleteEvent`: every event with that id goes, every other stays in order. */
  function DeleteEvents(events: seq<Event>, id: int): (r: seq<Event>)
    ensures forall e :: e in r <==> e in events && e.id != id
    ensures IsSubseq(r, events)
  {
    var p := (e: Event) => Survives(e, id);
    FilterMembers(p, events);
    FilterIsSubseq(p, events);
    Filter(p, events)
  }

  /** Deleting is exact on counts: another event keeps its multiplicity. */
  lemma DeleteEventsCount(events: seq<Event>, id: int, e: Event)
    ensures multiset(DeleteEvents(events, id))[e] == if e.id == id then 0 else multiset(events)[e]
  {
    FilterCount((x: Event) => Survives(x, id), events, e);
  }

  datatype Icon = UsersIcon | VideoIcon | CalendarIcon | ClockIcon | BellIcon

  datatype EventType = EventType(value: string, title: string, icon: Icon)

  const EventTypes: seq<EventType> := [
    EventType("meeting", "Meeting", UsersIcon),
    EventType("presentation", "Presentation", VideoIcon),
    EventType("personal", "Personal", CalendarIcon),
    EventType("work", "Work", ClockIcon),
    EventType("health", "Health", BellIcon)
  ]

  /** `getTypeIcon`: the icon of the type with that value, else the calendar. */
  function TypeIcon(kind: string): (r: Icon)
    ensures forall i :: 0 <= i < |EventTypes| && EventTypes[i].value == kind ==> r == EventTypes[i].icon
    ensures (forall i :: 0 <= i < |EventTypes| ==> EventTypes[i].value != kind) ==> r == CalendarIcon
  {
    match Find(EventTypes, (t: EventType) => t.value == kind)
    case Some(i) => EventTypes[i].icon
    case None => CalendarIcon
  }

  /** The event colours, in order; their CSS class strings are not modelled. */
  const EventColors: seq<string> := ["blue", "green", "orange", "purple", "red"]

  /** `getColorConfig`: the entry with that name, else the first (blue). */
  function ColorConfig(colorName: string): (r: string)
    ensures colorName in EventColors ==> r == colorName
    ensures colorName !in EventColors ==> r == EventColors[0]
  {
    match Find(EventColors, (c: string) => c == colorName)
    case Some(i) => EventColors[i]
    case None => EventColors[0]
  }

  /** An unknown type is drawn with the calendar icon. */
  lemma TypeIconFallback(kind: string)
    requires kind !in ["meeting", "presentation", "personal", "work", "health"]
    ensures TypeIcon(kind) == CalendarIcon
  {
    assert forall i :: 0 <= i < 5 ==>
      EventTypes[i].value == ["meeting", "presentation", "personal", "work", "health"][i];
  }

  /** The day number of 2000-01-01, the date the card's start is read on. */
  const Y2kDay: int := 730485

  lemma Y2kDayIsJan1st2000()
    ensures DayNumber(Date(2000, 1, 1)) == Y2kDay
  {
  }

  /** The string the card parses its start from: "2000-01-01T" + time + ":00". */
  function CardStart(time: string): string
  {
    "2000-01-01T" + time + ":00"
  }

  /** The card's start is the typed minute of 2000-01-01 for an "HH:mm"
      time; a bare "HH" also parses, as "HH:00". */
  lemma CardStartParses(time: string)
    ensures ParseClock(time).Some? ==>
              ParseLocalDateTime(CardStart(time)) == Some(1440 * Y2kDay + ParseClock(time).value)
    ensures |time| == 2 && ParseClock(time + ":00").Some? ==>
              ParseLocalDateTime(CardStart(time)) == Some(1440 * Y2kDay + ParseClock(time + ":00").value)
    ensures ParseClock(time).None? && (|time| != 2 || ParseClock(time + ":00").None?) ==>
              ParseLocalDateTime(CardStart(time)).None?
  {
    var s := CardStart(time);
    assert s[..10] == "2000-01-01";
    assert ParseIsoDate("2000-01-01") == Some(Date(2000, 1, 1));
    Y2kDayIsJan1st2000();
    if |time| == 5 {
      assert s[11..16] == time;
      assert s[16..] == ":00";
    } else if |time| == 2 {
      assert s[11..16] == time + ":00";
    }
  }

  /** The minute of the day the card's start string denotes, None when it
      is an invalid date. */
  function CardStartClock(time: string): (r: Option<int>)
    ensures r.Some? ==> ParseLocalDateTime(CardStart(time)) == Some(1440 * Y2kDay + r.value)
    ensures r.None? ==> ParseLocalDateTime(CardStart(time)).None?
  {
    match ParseLocalDateTime(CardStart(time))
    case Some(v) => Some(v - 1440 * Y2kDay)
    case None => None
  }

  /** The card's start is the typed "HH:mm"; a bare "HH" reads as "HH:00";
      anything else is an invalid date. */
  lemma CardStartClockMeans(time: string)
    ensures ParseClock(time).Some? ==> CardStartClock(time) == ParseClock(time)
    ensures |time| == 2 && ParseClock(time + ":00").Some? ==> CardStartClock(time) == ParseClock(time + ":00")
    ensures ParseClock(time).None? && (|time| != 2 || ParseClock(time + ":00").None?) ==> CardStartClock(time).None?
  {
    CardStartParses(time);
  }

  /** `endTime.setMinutes(endTime.getMinutes() + duration)` on a new date
      at `start`: the minute of the day it ends on. */
  method MinuteAfter(start: int, duration: int) returns (m: int)
    ensures 0 <= m < 1440
    ensures m == (start + duration) % 1440
  {
    var endTime := new JsDate(start);
    endTime.SetMinutes(endTime.GetMinutes() + duration);
    assert endTime.value == start + duration;
    m := endTime.MinuteOfDay();
  }

  /** The end time on an event card: the start moved by the duration,
      shown as "HH:mm", so it wraps past midnight. An unparseable start is
      an invalid date, shown as "NaN:NaN". */
  method EndTime(time: string, duration: int) returns (text: string)
    ensures CardStartClock(time).Some? ==> text == FormatClock((CardStartClock(time).value + duration) % 1440)
    ensures CardStartClock(time).None? ==> text == "NaN:NaN"
  {
    var start := ParseLocalDateTime(CardStart(time));
    var clock := CardStartClock(time);
    if start.None? {
      assert clock.None?;
      text := "NaN:NaN";
    } else {
      var m := MinuteAfter(start.value, duration);
      var sum := clock.value + duration;
      assert start.value + duration == sum + 1440 * Y2kDay;
      ShiftByDays(sum, Y2kDay);
      text := FormatClock(m);
    }
  }

  /** The string the list view parses an event's start from. */
  function StartString(e: Event): string
  {
    e.date + "T" + e.time
  }

  /** The list view's sort key: the start in minutes. Only events whose
      start parses are ever ranked by it. */
  function StartKey(e: Event): (r: int)
    ensures var s := StartString(e);
            ParseLocalDateTime(s).Some? ==>
              0 <= r - 1440 * DayNumber(ParseIsoDate(s[..10]).value) <= 1440
  {
    ParseLocalDateTime(StartString(e)).GetOr(0)
  }

  /** Start strings ordered by date, then by time of day, have ordered
      keys; apart from "24:00", which is the next day's "00:00", the order
      is strict. */
  lemma StartKeyOrdered(s1: string, s2: string)
    requires ParseLocalDateTime(s1).Some? && ParseLocalDateTime(s2).Some?
    ensures var d1, d2 := ParseIsoDate(s1[..10]).value, ParseIsoDate(s2[..10]).value;
            var c1, c2 := ParseClock(s1[11..16]).value, ParseClock(s2[11..16]).value;
            (DateBefore(d1, d2) || (d1 == d2 && c1 < c2)) && c1 < 1440 ==>
              ParseLocalDateTime(s1).value < ParseLocalDateTime(s2).value
  {
    var d1, d2 := ParseIsoDate(s1[..10]).value, ParseIsoDate(s2[..10]).value;
    if DateBefore(d1, d2) {
      DayNumberOrdered(d1, d2);
    }
  }

  /** After the list view's sort, no event is listed after one that
      starts on a later date, or later on the same date. */
  lemma {:induction false} ListChronological(sorted: seq<Event>, i: int, j: int)
    requires SortedBy(sorted, StartKey)
    requires 0 <= i < j < |sorted|
    requires ParseLocalDateTime(StartString(sorted[i])).Some? && ParseLocalDateTime(StartString(sorted[j])).Some?
    ensures var sj, si := StartString(sorted[j]), StartString(sorted[i]);
            var dj, di := ParseIsoDate(sj[..10]).value, ParseIsoDate(si[..10]).value;
            var cj, ci := ParseClock(sj[11..16]).value, ParseClock(si[11..16]).value;
            cj < 1440 ==> !(DateBefore(dj, di) || (dj == di && cj < ci))
  {
    assert StartKey(sorted[i]) <= StartKey(sorted[j]);
    StartKeyOrdered(StartString(sorted[j]), StartString(sorted[i]));
  }

  /** Allocates an array holding `s`. */
  method ArrayOf(s: seq<Event>) returns (a: array<Event>)
    ensures fresh(a) && a[..] == s
  {
    a := new Event[|s|](i requires 0 <= i < |s| => s[i]);
  }

  /** The state of the events page that these operations touch. */
  class EventsView {
    var events: array<Event>
    var currentWeek: JsDate
    var draft: EventDraft
    var isCreating: bool

    /** The shown week always starts on a Sunday. */
    ghost predicate Valid()
      reads this, currentWeek
    {
      currentWeek.GetDay() == 0
    }

    /** The page as mounted: the sample events, the week of `now`. */
    constructor (initial: seq<Event>, now: JsDate, today: string)
      ensures Valid()
      ensures events[..] == initial && fresh(events)
      ensures currentWeek.Day() == WeekStart(now.Day())
      ensures draft == DefaultDraft(today) && !isCreating
    {
      var a := ArrayOf(initial);
      var w := StartOfWeek(now);
      events := a;
      currentWeek := w;
      draft := DefaultDraft(today);
      isCreating := false;
    }

    /** `handleCreateEvent`: the event list gets the form's event appended
        and the form resets and closes, unless the title is blank. */
    method CreateEvent(newId: int, today: string)
      requires Valid()
      modifies this
      ensures Valid() && currentWeek == old(currentWeek)
      ensures events[..] == AppendEvent(old(events[..]), old(draft), newId)
      ensures Blank(old(draft).title) ==> draft == old(draft) && isCreating == old(isCreating)
      ensures !Blank(old(draft).title) ==> draft == DefaultDraft(today) && !isCreating
    {
      if Trim(draft.title) != "" {
        events := ArrayOf(AppendEvent(events[..], draft, newId));
        draft := DefaultDraft(today);
        isCreating := false;
      }
    }

    /** `deleteEvent`. */
    method DeleteEvent(id: int)
      requires Valid()
      modifies this
      ensures Valid() && currentWeek == old(currentWeek) && draft == old(draft)
      ensures isCreating == old(isCreating)
      ensures events[..] == DeleteEvents(old(events[..]), id)
    {
      events := ArrayOf(DeleteEvents(events[..], id));
    }

    /** The "Previous" and "Next" buttons of the week view. */
    method MoveWeek(weeks: int)
      requires Valid() && (weeks == -1 || weeks == 1)
      modifies this
      ensures Valid() && events == old(events) && draft == old(draft)
      ensures isCreating == old(isCreating)
      ensures currentWeek.Day() == old(currentWeek.Day()) + 7 * weeks
      ensures currentWeek.MinuteOfDay() == old(currentWeek.MinuteOfDay())
    {
      var before := currentWeek.Day();
      currentWeek := AddWeeks(currentWeek, weeks);
      WeekStartLaws(before, weeks);
    }

    /** Entering the list view: `events.sort` by start, ascending, in place.
        Every start must parse; otherwise the comparator yields NaN and the
        order is left to the engine. */
    method ShowList()
      requires forall i :: 0 <= i < events.Length ==> ParseLocalDateTime(StartString(events[i])).Some?
      modifies events
      ensures events[..] == SortBy(old(events[..]), StartKey)
    {
      SortArrayBy(events, StartKey);
    }
  }

  /** The sorted list holds the same events, ordered by start, with
      events that start together kept in their earlier order. */
  lemma ListViewLaws(events: seq<Event>, k: int)
    ensures multiset(SortBy(events, StartKey)) == multiset(events)
    ensures SortedBy(SortBy(events, StartKey), StartKey)
    ensures WithKey(SortBy(events, StartKey), StartKey, k) == WithKey(events, StartKey, k)
  {
    SortByPermutes(events, StartKey);
    SortBySorted(events, StartKey);
    SortByStable(events, StartKey, k);
  }
}
