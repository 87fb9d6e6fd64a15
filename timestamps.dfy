/**
 * The watermark arithmetic of script.py: `_add_one_second` parses a
 * `%Y-%m-%dT%H:%M:%SZ` timestamp with datetime.strptime, adds a timedelta of
 * one second and formats it back with strftime; the sync loop first strips the
 * fractional seconds of a published-at time by replacing its last five
 * characters with 'Z'.
 */
module Timestamps {
  import opened Options
  import opened Decimal

  /** A naive datetime: the six fields the ISO 8601 layout carries. */
  datatype DateTime = DateTime(year: int, month: int, day: int, hour: int, minute: int, second: int)

  predicate IsLeapYear(y: int) {
    y % 4 == 0 && (y % 100 != 0 || y % 400 == 0)
  }

  function DaysInYear(y: int): int {
    if IsLeapYear(y) then 366 else 365
  }

  function DaysInMonth(y: int, m: int): int
    requires 1 <= m <= 12
  {
    if m == 2 then (if IsLeapYear(y) then 29 else 28)
    else if m == 4 || m == 6 || m == 9 || m == 11 then 30
    else 31
  }

  /** Month, day and time of day in range; the year is unconstrained. */
  predicate WellFormed(d: DateTime) {
    && 1 <= d.month <= 12
    && 1 <= d.day <= DaysInMonth(d.year, d.month)
    && 0 <= d.hour < 24 && 0 <= d.minute < 60 && 0 <= d.second < 60
  }

  /** What datetime accepts: years 1 (MINYEAR) to 9999 (MAXYEAR). */
  predicate Valid(d: DateTime) {
    1 <= d.year <= 9999 && WellFormed(d)
  }

  /** Days in the proleptic Gregorian years 1 .. y-1. */
  function DaysBeforeYear(y: int): int
    decreases y
  {
    if y <= 1 then 0 else DaysBeforeYear(y - 1) + DaysInYear(y - 1)
  }

  /** Days in the months 1 .. m-1 of year y. */
  function DaysBeforeMonth(y: int, m: int): int
    requires 1 <= m <= 12
  {
    if m == 1 then 0 else DaysBeforeMonth(y, m - 1) + DaysInMonth(y, m - 1)
  }

  /** Seconds from 0001-01-01T00:00:00 to d: the reference for "one second later". */
  function Instant(d: DateTime): int
    requires 1 <= d.month <= 12
  {
    (((DaysBeforeYear(d.year) + DaysBeforeMonth(d.year, d.month) + d.day - 1) * 24
      + d.hour) * 60 + d.minute) * 60 + d.second
  }

  /** The first second of year y. */
  function YearStart(y: int): int {
    DaysBeforeYear(y) * 86400
  }

  lemma MonthTable(y: int)
    ensures var l := if IsLeapYear(y) then 1 else 0;
      && DaysBeforeMonth(y, 2) == 31 && DaysBeforeMonth(y, 3) == 59 + l
      && DaysBeforeMonth(y, 4) == 90 + l && DaysBeforeMonth(y, 5) == 120 + l
      && DaysBeforeMonth(y, 6) == 151 + l && DaysBeforeMonth(y, 7) == 181 + l
      && DaysBeforeMonth(y, 8) == 212 + l && DaysBeforeMonth(y, 9) == 243 + l
      && DaysBeforeMonth(y, 10) == 273 + l && DaysBeforeMonth(y, 11) == 304 + l
      && DaysBeforeMonth(y, 12) == 334 + l
  {
    assert DaysBeforeMonth(y, 2) == 31;
    assert DaysBeforeMonth(y, 3) == DaysBeforeMonth(y, 2) + DaysInMonth(y, 2);
    assert DaysBeforeMonth(y, 4) == DaysBeforeMonth(y, 3) + 31;
    assert DaysBeforeMonth(y, 5) == DaysBeforeMonth(y, 4) + 30;
    assert DaysBeforeMonth(y, 6) == DaysBeforeMonth(y, 5) + 31;
    assert DaysBeforeMonth(y, 7) == DaysBeforeMonth(y, 6) + 30;
    assert DaysBeforeMonth(y, 8) == DaysBeforeMonth(y, 7) + 31;
    assert DaysBeforeMonth(y, 9) == DaysBeforeMonth(y, 8) + 31;
    assert DaysBeforeMonth(y, 10) == DaysBeforeMonth(y, 9) + 30;
    assert DaysBeforeMonth(y, 11) == DaysBeforeMonth(y, 10) + 31;
    assert DaysBeforeMonth(y, 12) == DaysBeforeMonth(y, 11) + 30;
  }

  /** Every well-formed datetime lies inside its own year. */
  lemma WithinYear(d: DateTime)
    requires WellFormed(d) && d.year >= 1
    ensures YearStart(d.year) <= Instant(d) < YearStart(d.year + 1)
  {
    MonthTable(d.year);
    assert DaysBeforeYear(d.year + 1) == DaysBeforeYear(d.year) + DaysInYear(d.year);
    assert DaysBeforeMonth(d.year, d.month) + d.day <= DaysInYear(d.year);
  }

  lemma {:induction false} YearStartMonotone(a: int, b: int)
    requires 1 <= a <= b
    ensures YearStart(a) <= YearStart(b)
    decreases b - a
  {
    if a < b {
      YearStartMonotone(a, b - 1);
    }
  }

  /**
   * datetime + timedelta(seconds=1): the next second, carrying into the
   * minute, hour, day, month and year (Feb 29 in leap years included).
   */
  function Tick(d: DateTime): (e: DateTime)
    requires Valid(d)
    ensures WellFormed(e) && e.year >= d.year >= 1
    ensures Instant(e) == Instant(d) + 1
  {
    MonthTable(d.year);
    if d.second < 59 then d.(second := d.second + 1)
    else if d.minute < 59 then d.(minute := d.minute + 1, second := 0)
    else if d.hour < 23 then d.(hour := d.hour + 1, minute := 0, second := 0)
    else if d.day < DaysInMonth(d.year, d.month) then
      d.(day := d.day + 1, hour := 0, minute := 0, second := 0)
    else if d.month < 12 then
      DateTime(d.year, d.month + 1, 1, 0, 0, 0)
    else
      assert DaysBeforeYear(d.year + 1) == DaysBeforeYear(d.year) + DaysInYear(d.year);
      DateTime(d.year + 1, 1, 1, 0, 0, 0)
  }

  /** True when s[i..i+n] are n decimal digits. */
  predicate DigitsAt(s: string, i: nat, n: nat) {
    i + n <= |s| && AllDigits(s[i..i + n])
  }

  /** The '-', 'T', ':', ':' and 'Z' of the layout; strptime matches letters ignoring case. */
  predicate Punctuated(s: string) {
    && |s| == 20
    && s[4] == '-' && s[7] == '-' && (s[10] == 'T' || s[10] == 't')
    && s[13] == ':' && s[16] == ':' && (s[19] == 'Z' || s[19] == 'z')
    && DigitsAt(s, 0, 4) && DigitsAt(s, 5, 2) && DigitsAt(s, 8, 2)
    && DigitsAt(s, 11, 2) && DigitsAt(s, 14, 2) && DigitsAt(s, 17, 2)
  }

  /**
   * datetime.strptime(s, '%Y-%m-%dT%H:%M:%SZ') on the zero-padded layout:
   * None where it raises ValueError (bad shape, month, day of month, hour,
   * minute, second 60 or 61, year 0).
   */
  function Parse(s: string): (r: Option<DateTime>)
    ensures r.Some? ==> Valid(r.value) && Punctuated(s)
  {
    if !Punctuated(s) then None
    else
      var d := DateTime(ValueOf(s[0..4]), ValueOf(s[5..7]), ValueOf(s[8..10]),
                        ValueOf(s[11..13]), ValueOf(s[14..16]), ValueOf(s[17..19]));
      if Valid(d) then Some(d) else None
  }

  /** The twenty characters of the layout, from its six fields. */
  function Layout(y: string, mo: string, da: string, h: string, mi: string, se: string): string {
    y + "-" + mo + "-" + da + "T" + h + ":" + mi + ":" + se + "Z"
  }

  lemma LayoutSlices(y: string, mo: string, da: string, h: string, mi: string, se: string)
    requires |y| == 4 && |mo| == 2 && |da| == 2 && |h| == 2 && |mi| == 2 && |se| == 2
    ensures var r := Layout(y, mo, da, h, mi, se);
      && |r| == 20 && r[4] == '-' && r[7] == '-' && r[10] == 'T'
      && r[13] == ':' && r[16] == ':' && r[19] == 'Z'
      && r[0..4] == y && r[5..7] == mo && r[8..10] == da
      && r[11..13] == h && r[14..16] == mi && r[17..19] == se
  {
    var a := y + "-" + mo + "-" + da;
    assert |a| == 10 && a[0..4] == y && a[4] == '-' && a[5..7] == mo && a[7] == '-' && a[8..10] == da;
    var b := h + ":" + mi + ":" + se;
    assert |b| == 8 && b[0..2] == h && b[2] == ':' && b[3..5] == mi && b[5] == ':' && b[6..8] == se;
    var r := Layout(y, mo, da, h, mi, se);
    assert r == a + "T" + b + "Z";
    assert r[0..10] == a;
    assert r[11..19] == b;
  }

  /** strftime('%Y-%m-%dT%H:%M:%SZ') of a datetime. */
  function Format(d: DateTime): string
    requires Valid(d)
  {
    Layout(ZeroPad(d.year, 4), ZeroPad(d.month, 2), ZeroPad(d.day, 2),
           ZeroPad(d.hour, 2), ZeroPad(d.minute, 2), ZeroPad(d.second, 2))
  }

  /** strptime reads back what strftime writes: the layout round-trips. */
  lemma ParseFormat(d: DateTime)
    requires Valid(d)
    ensures |Format(d)| == 20 && Format(d)[10] == 'T' && Format(d)[19] == 'Z'
    ensures Parse(Format(d)) == Some(d)
  {
    var y, mo, da := ZeroPad(d.year, 4), ZeroPad(d.month, 2), ZeroPad(d.day, 2);
    var h, mi, se := ZeroPad(d.hour, 2), ZeroPad(d.minute, 2), ZeroPad(d.second, 2);
    assert Pow10(2) == 100 && Pow10(4) == 10000;
    ZeroPadSpell(d.year, 4); ZeroPadSpell(d.month, 2); ZeroPadSpell(d.day, 2);
    ZeroPadSpell(d.hour, 2); ZeroPadSpell(d.minute, 2); ZeroPadSpell(d.second, 2);
    var r := Layout(y, mo, da, h, mi, se);
    LayoutSlices(y, mo, da, h, mi, se);
    assert Punctuated(r);
    assert ValueOf(r[0..4]) == d.year && ValueOf(r[5..7]) == d.month && ValueOf(r[8..10]) == d.day;
    assert ValueOf(r[11..13]) == d.hour && ValueOf(r[14..16]) == d.minute && ValueOf(r[17..19]) == d.second;
  }

  /**
   * `_add_one_second`: None where Python 2 raises, i.e. where strptime
   * rejects s, where the next second is past year 9999 (OverflowError) or
   * where it is before 1900 (Python 2's strftime refuses such years).
   */
  function AddOneSecond(s: string): (r: Option<string>)
    ensures r.Some? ==> && Parse(s).Some? && Parse(r.value).Some?
                        && Instant(Parse(r.value).value) == Instant(Parse(s).value) + 1
    ensures r.Some? ==> |r.value| == 20 && r.value[10] == 'T' && r.value[19] == 'Z'
    ensures r.None? <==> || Parse(s).None?
                         || Instant(Parse(s).value) + 1 < YearStart(1900)
                         || Instant(Parse(s).value) + 1 >= YearStart(10000)
  {
    match Parse(s)
    case None => None
    case Some(d) =>
      var e := Tick(d);
      NextSecondInRange(d);
      if 1900 <= e.year <= 9999 then
        ParseFormat(e);
        Some(Format(e))
      else None
  }

  /** The year of the next second is in 1900..9999 exactly when its instant is. */
  lemma NextSecondInRange(d: DateTime)
    requires Valid(d)
    ensures 1900 <= Tick(d).year <= 9999
        <==> YearStart(1900) <= Instant(d) + 1 < YearStart(10000)
  {
    var e := Tick(d);
    WithinYear(e);
    if e.year < 1900 {
      YearStartMonotone(e.year + 1, 1900);
    } else if e.year > 9999 {
      YearStartMonotone(10000, e.year);
    } else {
      YearStartMonotone(1900, e.year);
      YearStartMonotone(e.year + 1, 10000);
    }
  }

  /** `published_at[:-5] + 'Z'`: drop the ".sssZ" tail (all of a shorter string). */
  function TruncateToSecond(publishedAt: string): string {
    (if |publishedAt| >= 5 then publishedAt[..|publishedAt| - 5] else "") + "Z"
  }

  /** The watermark the sync loop stores after attempting a video published at `publishedAt`. */
  function NextWatermark(publishedAt: string): Option<string> {
    AddOneSecond(TruncateToSecond(publishedAt))
  }

  /**
   * For a published-at time with a five-character fractional tail
   * (".000Z"), the next watermark is exactly one second after the whole
   * second it was published in.
   */
  lemma WatermarkOfFractionalTime(d: DateTime, tail: string)
    requires Valid(d) && 1900 <= d.year && |tail| == 5
    ensures TruncateToSecond(Format(d)[..19] + tail) == Format(d)
    ensures NextWatermark(Format(d)[..19] + tail) == AddOneSecond(Format(d))
  {
    var f := Format(d);
    ParseFormat(d);
    assert (f[..19] + tail)[..19] == f[..19];
    assert f[..19] + "Z" == f;
  }

  /**
   * A published-at time WITHOUT fractional seconds, "YYYY-MM-DDTHH:MM:SSZ",
   * loses its last five characters "M:SSZ": the last digit of the minutes,
   * the colon, the seconds and the "Z". The 16 characters left no longer
   * parse and `_add_one_second` raises.
   */
  lemma WatermarkOfWholeSecondTime(d: DateTime)
    requires Valid(d)
    ensures NextWatermark(Format(d)) == None
  {
    ParseFormat(d);
    assert |TruncateToSecond(Format(d))| == 16;
  }

  /** The last second of a year carries into January 1 of the next. */
  lemma YearCarry(y: int)
    requires 1 <= y <= 9999
    ensures Tick(DateTime(y, 12, 31, 23, 59, 59)) == DateTime(y + 1, 1, 1, 0, 0, 0)
  {
  }

  /** The last second of Feb 28 carries into Feb 29 exactly in leap years. */
  lemma FebruaryCarry(y: int)
    requires 1 <= y <= 9999
    ensures Tick(DateTime(y, 2, 28, 23, 59, 59)) ==
      if IsLeapYear(y) then DateTime(y, 2, 29, 0, 0, 0) else DateTime(y, 3, 1, 0, 0, 0)
  {
  }
}
