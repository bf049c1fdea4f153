/** Calendar arithmetic behind the events page. A local date-time is the
    number of minutes since 0000-01-01T00:00 in the proleptic Gregorian
    calendar (ECMA-262 dates use that calendar); a day number is the
    number of days since then. Daylight-saving shifts are not modelled. */
module Calendar {
  import opened Wrappers
  import opened Clock

  predicate IsLeap(y: int)
  {
    y % 4 == 0 && (y % 100 != 0 || y % 400 == 0)
  }

  function DaysInYear(y: int): int
  {
    if IsLeap(y) then 366 else 365
  }

  function DaysInMonth(y: int, m: int): (r: int)
    requires 1 <= m <= 12
    ensures 28 <= r <= 31
  {
    if m == 2 then (if IsLeap(y) then 29 else 28)
    else if m in {4, 6, 9, 11} then 30
    else 31
  }

  /** The number of leap years among 0, 1, ..., y - 1. */
  function LeapsBefore(y: nat): int
  {
    (y + 3) / 4 - (y + 99) / 100 + (y + 399) / 400
  }

  lemma LeapsStep(y: nat)
    ensures LeapsBefore(y + 1) == LeapsBefore(y) + (if IsLeap(y) then 1 else 0)
  {
    assert (y + 4) / 4 - (y + 3) / 4 == if y % 4 == 0 then 1 else 0;
    assert (y + 100) / 100 - (y + 99) / 100 == if y % 100 == 0 then 1 else 0;
    assert (y + 400) / 400 - (y + 399) / 400 == if y % 400 == 0 then 1 else 0;
    assert y % 400 == 0 ==> y % 100 == 0;
    assert y % 100 == 0 ==> y % 4 == 0;
  }

  function DaysBeforeYear(y: nat): int
  {
    365 * y + LeapsBefore(y)
  }

  /** One more year is that year's length more days. */
  lemma DaysBeforeYearStep(y: nat)
    ensures DaysBeforeYear(y + 1) == DaysBeforeYear(y) + DaysInYear(y)
  {
    LeapsStep(y);
  }

  /** An earlier year ends no later than a later one begins. */
  lemma {:induction false} DaysBeforeYearMono(y1: nat, y2: nat)
    requires y1 < y2
    ensures DaysBeforeYear(y1) + DaysInYear(y1) <= DaysBeforeYear(y2)
    decreases y2 - y1
  {
    DaysBeforeYearStep(y1);
    if y1 + 1 < y2 {
      DaysBeforeYearMono(y1 + 1, y2);
    }
  }

  const CumulativeDays: seq<int> := [0, 31, 59, 90, 120, 151, 181, 212, 243, 273, 304, 334]

  function DaysBeforeMonth(y: int, m: int): int
    requires 1 <= m <= 12
  {
    CumulativeDays[m - 1] + (if m > 2 && IsLeap(y) then 1 else 0)
  }

  /** An earlier month ends no later than a later one begins, and the
      last month ends with the year. */
  lemma DaysBeforeMonthMono(y: int, m1: int, m2: int)
    requires 1 <= m1 < m2 <= 12
    ensures DaysBeforeMonth(y, m1) + DaysInMonth(y, m1) <= DaysBeforeMonth(y, m2)
  {
  }

  lemma MonthInYear(y: int, m: int)
    requires 1 <= m <= 12
    ensures DaysBeforeMonth(y, m) + DaysInMonth(y, m) <= DaysInYear(y)
  {
  }

  datatype Date = Date(year: int, month: int, day: int)

  predicate ValidDate(d: Date)
  {
    0 <= d.year <= 9999 && 1 <= d.month <= 12 && 1 <= d.day <= DaysInMonth(d.year, d.month)
  }

  function DayNumber(d: Date): int
    requires ValidDate(d)
  {
    DaysBeforeYear(d.year) + DaysBeforeMonth(d.year, d.month) + d.day - 1
  }

  predicate DateBefore(a: Date, b: Date)
  {
    a.year < b.year
    || (a.year == b.year && a.month < b.month)
    || (a.year == b.year && a.month == b.month && a.day < b.day)
  }

  /** Day numbers follow calendar order: an earlier date has a smaller
      day number. */
  lemma DayNumberOrdered(a: Date, b: Date)
    requires ValidDate(a) && ValidDate(b) && DateBefore(a, b)
    ensures DayNumber(a) < DayNumber(b)
  {
    MonthInYear(a.year, a.month);
    if a.year < b.year {
      DaysBeforeYearMono(a.year, b.year);
    } else if a.month < b.month {
      DaysBeforeMonthMono(a.year, a.month, b.month);
    }
  }

  /** Distinct valid dates have distinct day numbers. */
  lemma DayNumberInjective(a: Date, b: Date)
    requires ValidDate(a) && ValidDate(b) && DayNumber(a) == DayNumber(b)
    ensures a == b
  {
    if DateBefore(a, b) {
      DayNumberOrdered(a, b);
    } else if DateBefore(b, a) {
      DayNumberOrdered(b, a);
    }
  }

  /** "YYYY-MM-DD" with a valid month and day, as `format(.., "yyyy-MM-dd")`
      writes it. */
  function ParseIsoDate(s: string): (r: Option<Date>)
    ensures r.Some? ==> ValidDate(r.value) && |s| == 10
  {
    if |s| != 10 || s[4] != '-' || s[7] != '-' then None
    else match (ReadTwo(s, 0), ReadTwo(s, 2), ReadTwo(s, 5), ReadTwo(s, 8))
      case (Some(c), Some(yy), Some(m), Some(d)) =>
        var date := Date(100 * c + yy, m, d);
        if 1 <= m <= 12 && 1 <= d <= DaysInMonth(date.year, m) then Some(date) else None
      case _ => None
  }

  /** A valid date as "YYYY-MM-DD": the year in four digits, the month and
      the day in two, as `format(.., "yyyy-MM-dd")` writes it. */
  function FormatIsoDate(d: Date): (r: string)
    requires ValidDate(d)
    ensures |r| == 10 && r[4] == '-' && r[7] == '-'
  {
    TwoDigits(d.year / 100) + TwoDigits(d.year % 100) + "-" + TwoDigits(d.month) + "-" + TwoDigits(d.day)
  }

  /** Two digits written at `s[i..i + 2]` read back as their number. */
  lemma ReadTwoAt(s: string, i: nat, n: nat)
    requires n < 100 && i + 2 <= |s|
    requires s[i] == TwoDigits(n)[0] && s[i + 1] == TwoDigits(n)[1]
    ensures ReadTwo(s, i) == Some(n)
  {
    ReadTwoDigits(n);
  }

  /** Every valid date is accepted, and read as the date written. */
  lemma ParseFormatIsoDate(d: Date)
    requires ValidDate(d)
    ensures ParseIsoDate(FormatIsoDate(d)) == Some(d)
  {
    var r := FormatIsoDate(d);
    var c, yy := d.year / 100, d.year % 100;
    assert r[0] == TwoDigits(c)[0] && r[1] == TwoDigits(c)[1];
    assert r[2] == TwoDigits(yy)[0] && r[3] == TwoDigits(yy)[1];
    assert r[5] == TwoDigits(d.month)[0] && r[6] == TwoDigits(d.month)[1];
    assert r[8] == TwoDigits(d.day)[0] && r[9] == TwoDigits(d.day)[1];
    ReadTwoAt(r, 0, c);
    ReadTwoAt(r, 2, yy);
    ReadTwoAt(r, 5, d.month);
    ReadTwoAt(r, 8, d.day);
    assert 100 * c + yy == d.year;
  }

  /** Every accepted string is the formatting of the date it reads as. */
  lemma FormatParseIsoDate(s: string)
    requires ParseIsoDate(s).Some?
    ensures FormatIsoDate(ParseIsoDate(s).value) == s
  {
    var d := ParseIsoDate(s).value;
    var r := FormatIsoDate(d);
    ParseFormatIsoDate(d);
    var c, yy := ReadTwo(s, 0).value, ReadTwo(s, 2).value;
    assert d.year == 100 * c + yy;
    assert d.year / 100 == c && d.year % 100 == yy;
    assert r[0] == TwoDigits(c)[0] && r[1] == TwoDigits(c)[1];
    assert r[2] == TwoDigits(yy)[0] && r[3] == TwoDigits(yy)[1];
    assert r[5] == TwoDigits(d.month)[0] && r[6] == TwoDigits(d.month)[1];
    assert r[8] == TwoDigits(d.day)[0] && r[9] == TwoDigits(d.day)[1];
    ReadTwoAt(r, 0, c);
    ReadTwoAt(r, 2, yy);
    ReadTwoAt(r, 5, d.month);
    ReadTwoAt(r, 8, d.day);
    SameDigits(r, s, 0);
    SameDigits(r, s, 2);
    SameDigits(r, s, 5);
    SameDigits(r, s, 8);
    assert forall i :: 0 <= i < 10 ==> r[i] == s[i];
  }

  /** `new Date(s)` for the local date-time forms the page builds:
      "YYYY-MM-DDTHH:mm", optionally followed by ":00". The result is in
      minutes since 0000-01-01T00:00; "24:00" is the next day's midnight.
      None is the invalid date. */
  function ParseLocalDateTime(s: string): (r: Option<int>)
    ensures r.Some? ==> |s| >= 16 && s[10] == 'T'
    ensures r.Some? ==> ParseIsoDate(s[..10]).Some? && ParseClock(s[11..16]).Some?
    ensures r.Some? ==> 0 <= r.value - 1440 * DayNumber(ParseIsoDate(s[..10]).value) <= 1440
  {
    if !(|s| == 16 || (|s| == 19 && s[16..] == ":00")) || s[10] != 'T' then None
    else match (ParseIsoDate(s[..10]), ParseClock(s[11..16]))
      case (Some(d), Some(c)) => Some(1440 * DayNumber(d) + c)
      case _ => None
  }

  /** A date-time written from a valid date and a valid "HH:mm", with or
      without ":00", is accepted and reads as that day and time. */
  lemma ParseFormatLocalDateTime(d: Date, t: string)
    requires ValidDate(d) && ParseClock(t).Some?
    ensures ParseLocalDateTime(FormatIsoDate(d) + "T" + t)
            == Some(1440 * DayNumber(d) + ParseClock(t).value)
    ensures ParseLocalDateTime(FormatIsoDate(d) + "T" + t + ":00")
            == Some(1440 * DayNumber(d) + ParseClock(t).value)
  {
    var date := FormatIsoDate(d);
    ParseFormatIsoDate(d);
    var s := date + "T" + t;
    assert s[..10] == date && s[10] == 'T' && s[11..16] == t;
    var s2 := s + ":00";
    assert s2[..10] == date && s2[10] == 'T' && s2[11..16] == t && s2[16..] == ":00";
  }

  /** Sunday is 0; 0000-01-01 was a Saturday. */
  function WeekDay(day: int): (r: int)
    ensures 0 <= r < 7
    ensures r == 0 <==> day % 7 == 1
  {
    (day + 6) % 7
  }

  lemma KnownWeekDays()
    ensures WeekDay(DayNumber(Date(2000, 1, 1))) == 6
    ensures WeekDay(DayNumber(Date(2024, 1, 15))) == 1
  {
  }

  /** The Sunday on or before a day. */
  function WeekStart(day: int): (r: int)
    ensures WeekDay(r) == 0
    ensures 0 <= day - r <= 6
  {
    day - WeekDay(day)
  }

  /** A week start is its own week start, and moving by whole weeks moves
      the week start with it. */
  lemma WeekStartLaws(day: int, weeks: int)
    ensures WeekStart(WeekStart(day)) == WeekStart(day)
    ensures WeekStart(day + 7 * weeks) == WeekStart(day) + 7 * weeks
  {
    var q, r := (day + 6) / 7, (day + 6) % 7;
    assert day + 7 * weeks + 6 == 7 * (q + weeks) + r;
    assert WeekDay(day + 7 * weeks) == r == WeekDay(day);
    assert WeekDay(WeekStart(day)) == 0;
  }

  /** Moving by whole days keeps the time of day. */
  lemma ShiftByDays(value: int, days: int)
    ensures (value + 1440 * days) / 1440 == value / 1440 + days
    ensures (value + 1440 * days) % 1440 == value % 1440
  {
    var q, r := value / 1440, value % 1440;
    assert value + 1440 * days == 1440 * (q + days) + r;
  }

  /** A JavaScript `Date` as the page uses it: a local date-time in
      minutes. Seconds and milliseconds play no part. */
  class JsDate {
    var value: int

    constructor (value: int)
      ensures this.value == value
    {
      this.value := value;
    }

    function Day(): int
      reads this
    {
      value / 1440
    }

    function MinuteOfDay(): (r: int)
      reads this
      ensures 0 <= r < 1440
    {
      value % 1440
    }

    /** `getDay()`. */
    function GetDay(): (r: int)
      reads this
      ensures 0 <= r < 7
    {
      WeekDay(Day())
    }

    /** `getMinutes()`. */
    function GetMinutes(): (r: int)
      reads this
      ensures 0 <= r < 60
    {
      value % 60
    }

    /** `setDate(getDate() + days)`: the day of the month overflows into
        the next months or back into earlier ones, which lands `days` days
        away at the same time of day. */
    method ShiftDate(days: int)
      modifies this
      ensures value == old(value) + 1440 * days
      ensures Day() == old(Day()) + days && MinuteOfDay() == old(MinuteOfDay())
    {
      ShiftByDays(value, days);
      value := value + 1440 * days;
    }

    /** `setMinutes(m)`: the minutes field replaced by `m` within the same
        hour, carrying into hours and days when `m` is outside 0..59. */
    method SetMinutes(m: int)
      modifies this
      ensures value == old(value) - old(GetMinutes()) + m
    {
      value := value - value % 60 + m;
    }
  }

  /** `addDays`: a new date `days` days later at the same time of day. */
  method AddDays(date: JsDate, days: int) returns (r: JsDate)
    ensures fresh(r)
    ensures r.Day() == date.Day() + days && r.MinuteOfDay() == date.MinuteOfDay()
  {
    r := new JsDate(date.value);
    r.ShiftDate(days);
  }

  /** `startOfWeek`: a new date on the Sunday on or before `date`, at the
      same time of day. */
  method StartOfWeek(date: JsDate) returns (r: JsDate)
    ensures fresh(r)
    ensures r.Day() == WeekStart(date.Day()) && r.MinuteOfDay() == date.MinuteOfDay()
    ensures r.GetDay() == 0 && 0 <= date.Day() - r.Day() <= 6
  {
    r := new JsDate(date.value);
    var day := r.GetDay();
    r.ShiftDate(-day);
  }

  /** `addWeeks`: the same as adding seven days per week. */
  method AddWeeks(date: JsDate, weeks: int) returns (r: JsDate)
    ensures fresh(r)
    ensures r.Day() == date.Day() + 7 * weeks && r.MinuteOfDay() == date.MinuteOfDay()
  {
    r := new JsDate(date.value);
    r.ShiftDate(weeks * 7);
  }

  /** `weekDays`: the seven consecutive days from `week`, each a new date. */
  method WeekDays(week: JsDate) returns (days: seq<JsDate>)
    ensures |days| == 7
    ensures forall i :: 0 <= i < 7 ==> fresh(days[i])
    ensures forall i :: 0 <= i < 7 ==> days[i].Day() == week.Day() + i
    ensures forall i :: 0 <= i < 7 ==> days[i].MinuteOfDay() == week.MinuteOfDay()
  {
    days := [];
    var i := 0;
    while i < 7
      invariant 0 <= i <= 7 && |days| == i
      invariant forall j :: 0 <= j < i ==> fresh(days[j])
      invariant forall j :: 0 <= j < i ==> days[j].Day() == week.Day() + j
      invariant forall j :: 0 <= j < i ==> days[j].MinuteOfDay() == week.MinuteOfDay()
    {
      var d := AddDays(week, i);
      days := days + [d];
      i := i + 1;
    }
  }
}
