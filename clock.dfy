/** Wall-clock times of day as the events page reads and writes them:
    `date.getHours().toString().padStart(2, '0')` and the same for minutes,
    joined by ':' (the "HH:mm" branch of `format`), and the "HH:mm" part of
    a string in the Date Time String Format of ECMA-262, where the hour 24
    is allowed only as "24:00". */
module Clock {
  import opened Wrappers

  predicate IsDigit(c: char)
  {
    '0' <= c <= '9'
  }

  function DigitValue(c: char): (r: nat)
    requires IsDigit(c)
    ensures r < 10
  {
    c as int - '0' as int
  }

  function DigitChar(d: nat): (r: char)
    requires d < 10
    ensures IsDigit(r) && DigitValue(r) == d
  {
    ('0' as int + d) as char
  }

  /** `n.toString()` for a natural number: its decimal digits, no leading zero. */
  function Decimal(n: nat): (r: string)
    ensures |r| >= 1
    ensures forall i :: 0 <= i < |r| ==> IsDigit(r[i])
    decreases n
  {
    if n < 10 then [DigitChar(n)] else Decimal(n / 10) + [DigitChar(n % 10)]
  }

  /** `s.padStart(width, fill)` with a one-character filler. */
  function PadStart(s: string, width: nat, fill: char): (r: string)
    ensures |r| == if |s| >= width then |s| else width
    ensures r[|r| - |s|..] == s
    ensures forall i :: 0 <= i < |r| - |s| ==> r[i] == fill
  {
    if |s| >= width then s else seq(width - |s|, i => fill) + s
  }

  /** A clock field below 100 in two digits: its tens digit, then its
      units digit. */
  function TwoDigits(n: nat): (r: string)
    requires n < 100
    ensures |r| == 2 && IsDigit(r[0]) && IsDigit(r[1])
  {
    [DigitChar(n / 10), DigitChar(n % 10)]
  }

  /** The two digits are what `n.toString().padStart(2, '0')` gives. */
  lemma TwoDigitsPadStart(n: nat)
    requires n < 100
    ensures TwoDigits(n) == PadStart(Decimal(n), 2, '0')
  {
    if n < 10 {
      PadOneDigit(n);
    } else {
      PadTwoDigits(n);
    }
  }

  lemma PadOneDigit(n: nat)
    requires n < 10
    ensures PadStart(Decimal(n), 2, '0') == [DigitChar(0), DigitChar(n)]
  {
    var lo := DigitChar(n);
    assert Decimal(n) == [lo];
    assert seq(1, i => '0') == ['0'];
  }

  lemma PadTwoDigits(n: nat)
    requires 10 <= n < 100
    ensures PadStart(Decimal(n), 2, '0') == [DigitChar(n / 10), DigitChar(n % 10)]
  {
    var hi, lo := DigitChar(n / 10), DigitChar(n % 10);
    assert Decimal(n / 10) == [hi];
    assert Decimal(n) == [hi] + [lo] == [hi, lo];
  }

  /** The two-digit number at `s[i..i + 2]`, if both are digits. */
  function ReadTwo(s: string, i: nat): (r: Option<nat>)
    requires i + 2 <= |s|
    ensures r.Some? ==> r.value < 100
  {
    if IsDigit(s[i]) && IsDigit(s[i + 1]) then Some(10 * DigitValue(s[i]) + DigitValue(s[i + 1])) else None
  }

  /** "HH:mm" as a minute of the day: 00:00 to 23:59, plus 24:00, which
      stands for the midnight that ends the day (1440). Anything else is
      not a time. */
  function ParseClock(s: string): (r: Option<int>)
    ensures r.Some? ==> 0 <= r.value <= 1440
    ensures r.Some? ==> |s| == 5 && s[2] == ':'
    ensures r.Some? && r.value == 1440 ==> s == "24:00"
  {
    if |s| != 5 || s[2] != ':' then None
    else match (ReadTwo(s, 0), ReadTwo(s, 3))
      case (Some(h), Some(m)) =>
        if m <= 59 && (h <= 23 || (h == 24 && m == 0)) then Some(60 * h + m) else None
      case _ => None
  }

  /** A padded field reads back as the number it shows. */
  lemma ReadTwoDigits(n: nat)
    requires n < 100
    ensures ReadTwo(TwoDigits(n), 0) == Some(n)
  {
    assert 10 * (n / 10) + n % 10 == n;
  }

  /** `format(d, "HH:mm")` for the minute of the day of `d`. */
  function FormatClock(minuteOfDay: int): (r: string)
    requires 0 <= minuteOfDay < 1440
    ensures |r| == 5 && r[2] == ':'
  {
    TwoDigits(minuteOfDay / 60) + ":" + TwoDigits(minuteOfDay % 60)
  }

  /** The formatted time shows the hour 00-23 and the minute 00-59, each
      in two digits. */
  lemma FormatClockFields(minuteOfDay: int)
    requires 0 <= minuteOfDay < 1440
    ensures minuteOfDay / 60 <= 23
    ensures ReadTwo(FormatClock(minuteOfDay), 0) == Some(minuteOfDay / 60)
    ensures ReadTwo(FormatClock(minuteOfDay), 3) == Some(minuteOfDay % 60)
  {
    var h, m := minuteOfDay / 60, minuteOfDay % 60;
    var a, b := TwoDigits(h), TwoDigits(m);
    ReadTwoDigits(h);
    ReadTwoDigits(m);
    var r := FormatClock(minuteOfDay);
    assert r[0] == a[0] && r[1] == a[1] && r[3] == b[0] && r[4] == b[1];
  }

  /** Reading back a formatted time gives the minute formatted. */
  lemma ParseFormat(minuteOfDay: int)
    requires 0 <= minuteOfDay < 1440
    ensures ParseClock(FormatClock(minuteOfDay)) == Some(minuteOfDay)
  {
    FormatClockFields(minuteOfDay);
  }

  /** Every time other than 24:00 is the formatting of what it reads as. */
  lemma {:induction false} FormatParse(s: string)
    requires ParseClock(s).Some? && ParseClock(s).value < 1440
    ensures FormatClock(ParseClock(s).value) == s
  {
    var v := ParseClock(s).value;
    var h, m := ReadTwo(s, 0).value, ReadTwo(s, 3).value;
    assert v == 60 * h + m && m < 60;
    assert v / 60 == h && v % 60 == m;
    var r := FormatClock(v);
    FormatClockFields(v);
    SameDigits(r, s, 0);
    SameDigits(r, s, 3);
  }

  /** Two strings showing the same two-digit number there agree there. */
  lemma SameDigits(a: string, b: string, i: nat)
    requires i + 2 <= |a| && i + 2 <= |b|
    requires ReadTwo(a, i).Some? && ReadTwo(a, i) == ReadTwo(b, i)
    ensures a[i] == b[i] && a[i + 1] == b[i + 1]
  {
    var x, y := ReadTwo(a, i).value, ReadTwo(b, i).value;
    assert x / 10 == DigitValue(a[i]) && x % 10 == DigitValue(a[i + 1]);
    assert y / 10 == DigitValue(b[i]) && y % 10 == DigitValue(b[i + 1]);
  }
}
