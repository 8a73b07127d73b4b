/** `System.DateTime` on the proleptic Gregorian calendar, to 100-ns ticks,
    with the fixed-width custom formats the queues use
    ("yyyyMMddHHmmssfff", "yyyyMMddhhmmssfff", "yyyyMMdd-HH", "yyyyMMdd-hh")
    and `DateTime.ParseExact` for the two 17-digit ones. */
module DateTimes {
  import opened Base
  import opened Text

  datatype Stamp = Stamp(year: int, month: int, day: int, hour: int, minute: int,
                         second: int, millisecond: int, subTicks: int)

  predicate IsLeap(y: int)
  {
    y % 4 == 0 && (y % 100 != 0 || y % 400 == 0)
  }

  function DaysInMonth(y: int, m: int): int
  {
    if m == 2 then (if IsLeap(y) then 29 else 28)
    else if m == 4 || m == 6 || m == 9 || m == 11 then 30
    else 31
  }

  predicate ValidDate(y: int, m: int, d: int)
  {
    1 <= y <= 9999 && 1 <= m <= 12 && 1 <= d <= DaysInMonth(y, m)
  }

  predicate Valid(t: Stamp)
  {
    && ValidDate(t.year, t.month, t.day)
    && 0 <= t.hour < 24 && 0 <= t.minute < 60 && 0 <= t.second < 60
    && 0 <= t.millisecond < 1000 && 0 <= t.subTicks < 10000
  }

  /** A representable instant; `subTicks` are the 100-ns ticks below the millisecond. */
  type DateTime = t: Stamp | Valid(t) witness Stamp(1, 1, 1, 0, 0, 0, 0, 0)

  /** `DateTime.MinValue`, the default of an unset field. */
  const MinValue: DateTime := Stamp(1, 1, 1, 0, 0, 0, 0, 0)

  const TicksPerSecond: int := 10_000_000
  const TicksPerDay: int := 864_000_000_000

  function DaysBeforeYear(y: int): nat
    decreases y
  {
    if y <= 1 then 0 else DaysBeforeYear(y - 1) + (if IsLeap(y - 1) then 366 else 365)
  }

  function DaysBeforeMonth(y: int, m: int): nat
    decreases m
  {
    if m <= 1 then 0 else DaysBeforeMonth(y, m - 1) + DaysInMonth(y, m - 1)
  }

  /** `t.Ticks`: 100-ns intervals since 0001-01-01 00:00:00. */
  function Ticks(t: DateTime): int
  {
    var days := DaysBeforeYear(t.year) + DaysBeforeMonth(t.year, t.month) + t.day - 1;
    ((((days * 24 + t.hour) * 60 + t.minute) * 60 + t.second) * 1000 + t.millisecond) * 10000 + t.subTicks
  }

  /** `later - earlier` in ticks, the exact value behind `TimeSpan.TotalSeconds` and `TotalHours`. */
  function ElapsedTicks(earlier: DateTime, later: DateTime): int
  {
    Ticks(later) - Ticks(earlier)
  }

  /** `a < b` on DateTime. */
  predicate Before(a: DateTime, b: DateTime)
  {
    Ticks(a) < Ticks(b)
  }

  /** The instant with its sub-millisecond part dropped: all that a "fff" format keeps. */
  function Truncate(t: DateTime): (r: DateTime)
  {
    t.(subTicks := 0)
  }

  /** The clock-face hour printed by "hh": 12 for midnight and noon. */
  function Hour12(h: int): int
  {
    if h % 12 == 0 then 12 else h % 12
  }

  /** `t.ToString("yyyyMMddHHmmssfff")` (twelveHour = false) or `"yyyyMMddhhmmssfff"` (true). */
  function Format17(t: DateTime, twelveHour: bool): (s: string)
    ensures AllDigits(s)
  {
    var h := if twelveHour then Hour12(t.hour) else t.hour;
    PadNat(t.year, 4) + PadNat(t.month, 2) + PadNat(t.day, 2) + PadNat(h, 2)
      + PadNat(t.minute, 2) + PadNat(t.second, 2) + PadNat(t.millisecond, 3)
  }

  /** `t.ToString("yyyyMMdd-HH")` (twelveHour = false) or `"yyyyMMdd-hh"` (true): the log-file stem. */
  function FormatHourStem(t: DateTime, twelveHour: bool): string
  {
    var h := if twelveHour then Hour12(t.hour) else t.hour;
    PadNat(t.year, 4) + PadNat(t.month, 2) + PadNat(t.day, 2) + "-" + PadNat(h, 2)
  }

  /** `DateTime.ParseExact(s, fmt, InvariantInfo)` for the two 17-digit formats.
      With "hh" and no AM/PM designator .NET assumes AM: 12 reads as hour 0 and values above 12 fail. */
  function Parse17(s: string, twelveHour: bool): (r: Result<DateTime>)
    ensures r.Ok? ==> r.value.subTicks == 0
    ensures r.Ok? && twelveHour ==> r.value.hour < 12
  {
    if |s| != 17 || !AllDigits(s) then Err(FormatError("String was not recognized as a valid DateTime."))
    else
      var y := DigitsValue(s[0..4]);
      var mo := DigitsValue(s[4..6]);
      var d := DigitsValue(s[6..8]);
      var h := DigitsValue(s[8..10]);
      var mi := DigitsValue(s[10..12]);
      var se := DigitsValue(s[12..14]);
      var f := DigitsValue(s[14..17]);
      DigitsValueBound(s[14..17]);
      assert Pow10(3) == 1000;
      var hour := if twelveHour then (if h == 12 then 0 else h) else h;
      var hourOk := if twelveHour then h <= 12 else h < 24;
      if hourOk && ValidDate(y, mo, d) && mi < 60 && se < 60 then
        var t: DateTime := Stamp(y, mo, d, hour, mi, se, f, 0);
        Ok(t)
      else Err(FormatError("String was not recognized as a valid DateTime."))
  }

  lemma FieldsOf(t: DateTime, h: int, s: string)
    requires 0 <= h < 24
    requires s == PadNat(t.year, 4) + PadNat(t.month, 2) + PadNat(t.day, 2) + PadNat(h, 2)
      + PadNat(t.minute, 2) + PadNat(t.second, 2) + PadNat(t.millisecond, 3)
    ensures |s| == 17 && AllDigits(s)
    ensures AllDigits(s[0..4]) && DigitsValue(s[0..4]) == t.year
    ensures AllDigits(s[4..6]) && DigitsValue(s[4..6]) == t.month
    ensures AllDigits(s[6..8]) && DigitsValue(s[6..8]) == t.day
    ensures AllDigits(s[8..10]) && DigitsValue(s[8..10]) == h
    ensures AllDigits(s[10..12]) && DigitsValue(s[10..12]) == t.minute
    ensures AllDigits(s[12..14]) && DigitsValue(s[12..14]) == t.second
    ensures AllDigits(s[14..17]) && DigitsValue(s[14..17]) == t.millisecond
  {
    var a := Piece(t.year, 4);
    var b := Piece(t.month, 2);
    var c := Piece(t.day, 2);
    var d := Piece(h, 2);
    var e := Piece(t.minute, 2);
    var f := Piece(t.second, 2);
    var g := Piece(t.millisecond, 3);
    assert s == a + b + c + d + e + f + g;
    Slices(a, b, c, d, e, f, g);
    DigitsJoin(a, b, c, d, e, f, g);
  }

  /** Digits joined are digits. */
  lemma DigitsAppend(a: string, b: string)
    requires AllDigits(a) && AllDigits(b)
    ensures AllDigits(a + b)
  {
    forall i | 0 <= i < |a + b| ensures IsDigit((a + b)[i]) {
      if i >= |a| {
        assert (a + b)[i] == b[i - |a|];
      }
    }
  }

  /** The seven fields of a 17-digit stamp joined are digits. */
  lemma DigitsJoin(a: string, b: string, c: string, d: string, e: string, f: string, g: string)
    requires AllDigits(a) && AllDigits(b) && AllDigits(c) && AllDigits(d)
    requires AllDigits(e) && AllDigits(f) && AllDigits(g)
    ensures AllDigits(a + b + c + d + e + f + g)
  {
    DigitsAppend(a, b);
    DigitsAppend(a + b, c);
    DigitsAppend(a + b + c, d);
    DigitsAppend(a + b + c + d, e);
    DigitsAppend(a + b + c + d + e, f);
    DigitsAppend(a + b + c + d + e + f, g);
  }

  /** Where each field of a 4-2-2-2-2-2-3 concatenation sits. */
  lemma Slices(a: string, b: string, c: string, d: string, e: string, f: string, g: string)
    requires |a| == 4 && |b| == 2 && |c| == 2 && |d| == 2 && |e| == 2 && |f| == 2 && |g| == 3
    ensures var s := a + b + c + d + e + f + g;
      && |s| == 17
      && s[0..4] == a && s[4..6] == b && s[6..8] == c && s[8..10] == d
      && s[10..12] == e && s[12..14] == f && s[14..17] == g
  {
  }

  /** One zero-padded field of a fixed-width format, with its width and value. */
  function Piece(n: nat, w: nat): (p: string)
    requires 1 <= w <= 4 && n < Pow10(w)
    ensures p == PadNat(n, w)
    ensures |p| == w && AllDigits(p) && DigitsValue(p) == n
  {
    PadNatExactWidth(n, w);
    PadNatValue(n, w);
    PadNat(n, w)
  }

  /** The 24-hour format keeps an instant to the millisecond. */
  lemma RoundTrip24(t: DateTime)
    ensures Parse17(Format17(t, false), false) == Ok(Truncate(t))
  {
    FieldsOf(t, t.hour, Format17(t, false));
  }

  /** The 12-hour format without a designator folds every afternoon hour onto the morning. */
  lemma RoundTrip12(t: DateTime)
    ensures Parse17(Format17(t, true), true) == Ok(Truncate(t).(hour := t.hour % 12))
  {
    FieldsOf(t, Hour12(t.hour), Format17(t, true));
  }

  /** So an afternoon timestamp does not survive the 12-hour format. */
  lemma TwelveHourLosesAfternoon(t: DateTime)
    requires t.hour >= 12
    ensures Parse17(Format17(t, true), true) != Ok(Truncate(t))
  {
    RoundTrip12(t);
  }
}
