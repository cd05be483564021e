/**
  Proleptic Gregorian calendar arithmetic. Dates and date-times are the civil
  values the station records carry; `DayNumber` and `Minutes` are the integer
  counts since 1970-01-01T00:00 that numpy's `datetime64` holds.
*/
module Calendar {

  import opened Results

  datatype Date = Date(year: int, month: int, day: int)

  const MinutesPerHour := 60
  const MinutesPerDay := 1440

  predicate IsLeapYear(y: int)
  {
    y % 4 == 0 && (y % 100 != 0 || y % 400 == 0)
  }

  function DaysInMonth(y: int, m: int): (n: int)
    requires 1 <= m <= 12
    ensures 28 <= n <= 31
  {
    if m == 2 then (if IsLeapYear(y) then 29 else 28)
    else if m == 4 || m == 6 || m == 9 || m == 11 then 30
    else 31
  }

  function DaysInYear(y: int): int
  {
    if IsLeapYear(y) then 366 else 365
  }

  predicate ValidDate(d: Date)
  {
    1 <= d.month <= 12 && 1 <= d.day <= DaysInMonth(d.year, d.month)
  }

  /** Chronological order of dates, which is the lexicographic order of (year, month, day). */
  predicate Before(a: Date, b: Date)
  {
    a.year < b.year || (a.year == b.year && (a.month < b.month || (a.month == b.month && a.day < b.day)))
  }

  /** The calendar day before `d`: it precedes `d` and no valid date lies strictly between them. */
  function PrevDay(d: Date): (p: Date)
    requires ValidDate(d)
    ensures ValidDate(p) && Before(p, d)
    ensures forall e :: ValidDate(e) && Before(p, e) ==> !Before(e, d)
  {
    if d.day > 1 then Date(d.year, d.month, d.day - 1)
    else if d.month > 1 then Date(d.year, d.month - 1, DaysInMonth(d.year, d.month - 1))
    else Date(d.year - 1, 12, 31)
  }

  /** The calendar day after `d`: it follows `d` and no valid date lies strictly between them. */
  function NextDay(d: Date): (n: Date)
    requires ValidDate(d)
    ensures ValidDate(n) && Before(d, n)
    ensures forall e :: ValidDate(e) && Before(d, e) ==> !Before(e, n)
  {
    if d.day < DaysInMonth(d.year, d.month) then Date(d.year, d.month, d.day + 1)
    else if d.month < 12 then Date(d.year, d.month + 1, 1)
    else Date(d.year + 1, 1, 1)
  }

  lemma PrevNextInverse(d: Date)
    requires ValidDate(d)
    ensures NextDay(PrevDay(d)) == d && PrevDay(NextDay(d)) == d
  {
  }

  /** Days from January 1 of year `y` to the first day of month `m`. */
  function DaysBeforeMonth(y: int, m: int): (n: int)
    requires 1 <= m <= 12
    ensures 28 * (m - 1) <= n <= 31 * (m - 1)
  {
    if m == 1 then 0 else DaysBeforeMonth(y, m - 1) + DaysInMonth(y, m - 1)
  }

  /** Days from 1970-01-01 to January 1 of year `y` (negative before 1970). */
  function DaysBeforeYear(y: int): int
    decreases if y < 1970 then 1970 - y else y - 1970
  {
    if y == 1970 then 0
    else if y > 1970 then DaysBeforeYear(y - 1) + DaysInYear(y - 1)
    else DaysBeforeYear(y + 1) - DaysInYear(y)
  }

  /** The day count since 1970-01-01 that `datetime64[D]` stores for a date. */
  function DayNumber(d: Date): int
    requires ValidDate(d)
  {
    DaysBeforeYear(d.year) + DaysBeforeMonth(d.year, d.month) + d.day - 1
  }

  lemma YearStep(y: int)
    ensures DaysBeforeYear(y) == DaysBeforeYear(y - 1) + DaysInYear(y - 1)
  {
  }

  lemma {:induction false} MonthsBefore(y: int, m: int)
    requires 1 <= m <= 12
    ensures DaysBeforeMonth(y, m) + DaysInMonth(y, m) <= DaysBeforeMonth(y, 12) + 31
    decreases 12 - m
  {
    if m < 12 {
      MonthsBefore(y, m + 1);
    }
  }

  lemma DaysBeforeDecember(y: int)
    ensures DaysBeforeMonth(y, 12) + 31 == DaysInYear(y)
  {
    assert DaysBeforeMonth(y, 2) == 31;
    assert DaysBeforeMonth(y, 3) == 31 + DaysInMonth(y, 2);
    assert DaysBeforeMonth(y, 4) == 62 + DaysInMonth(y, 2);
    assert DaysBeforeMonth(y, 5) == 92 + DaysInMonth(y, 2);
    assert DaysBeforeMonth(y, 6) == 123 + DaysInMonth(y, 2);
    assert DaysBeforeMonth(y, 7) == 153 + DaysInMonth(y, 2);
    assert DaysBeforeMonth(y, 8) == 184 + DaysInMonth(y, 2);
    assert DaysBeforeMonth(y, 9) == 215 + DaysInMonth(y, 2);
    assert DaysBeforeMonth(y, 10) == 245 + DaysInMonth(y, 2);
    assert DaysBeforeMonth(y, 11) == 276 + DaysInMonth(y, 2);
    assert DaysBeforeMonth(y, 12) == 306 + DaysInMonth(y, 2);
  }

  /** Stepping back one calendar day is subtracting exactly one from the day count. */
  lemma DayNumberOfPrevDay(d: Date)
    requires ValidDate(d)
    ensures DayNumber(PrevDay(d)) == DayNumber(d) - 1
  {
    var p := PrevDay(d);
    if d.day > 1 {
      assert p == Date(d.year, d.month, d.day - 1);
    } else if d.month > 1 {
      assert p == Date(d.year, d.month - 1, DaysInMonth(d.year, d.month - 1));
    } else {
      assert p == Date(d.year - 1, 12, 31);
      YearStep(d.year);
      DaysBeforeDecember(d.year - 1);
    }
  }

  lemma {:induction false} YearsBefore(y1: int, y2: int)
    requires y1 < y2
    ensures DaysBeforeYear(y1) + DaysInYear(y1) <= DaysBeforeYear(y2)
    decreases y2 - y1
  {
    YearStep(y2);
    if y1 < y2 - 1 {
      YearsBefore(y1, y2 - 1);
    }
  }

  lemma {:induction false} MonthsBetween(y: int, m1: int, m2: int)
    requires 1 <= m1 < m2 <= 12
    ensures DaysBeforeMonth(y, m1) + DaysInMonth(y, m1) <= DaysBeforeMonth(y, m2)
    decreases m2 - m1
  {
    if m1 < m2 - 1 {
      MonthsBetween(y, m1, m2 - 1);
    }
  }

  /** The day count orders dates chronologically, so it is also one-to-one on valid dates. */
  lemma DayNumberMonotone(a: Date, b: Date)
    requires ValidDate(a) && ValidDate(b)
    ensures Before(a, b) <==> DayNumber(a) < DayNumber(b)
    ensures a == b <==> DayNumber(a) == DayNumber(b)
  {
    if a.year < b.year {
      YearsBefore(a.year, b.year);
      MonthsBefore(a.year, a.month);
      DaysBeforeDecember(a.year);
    } else if b.year < a.year {
      YearsBefore(b.year, a.year);
      MonthsBefore(b.year, b.month);
      DaysBeforeDecember(b.year);
    } else if a.month < b.month {
      MonthsBetween(a.year, a.month, b.month);
    } else if b.month < a.month {
      MonthsBetween(a.year, b.month, a.month);
    }
  }

  /** A date and a time of day with minute resolution. */
  datatype DateTime = DateTime(date: Date, hour: int, minute: int)

  /** The range Python's `datetime` accepts, at minute resolution. */
  predicate ValidDateTime(t: DateTime)
  {
    ValidDate(t.date) && 1 <= t.date.year <= 9999 && 0 <= t.hour < 24 && 0 <= t.minute < 60
  }

  predicate BeforeTime(a: DateTime, b: DateTime)
  {
    Before(a.date, b.date) || (a.date == b.date && (a.hour < b.hour || (a.hour == b.hour && a.minute < b.minute)))
  }

  /** Minutes since 1970-01-01T00:00: the instant as `datetime64` counts it. */
  function Minutes(t: DateTime): int
    requires ValidDateTime(t)
  {
    DayNumber(t.date) * MinutesPerDay + t.hour * MinutesPerHour + t.minute
  }

  /** Comparing minute counts is comparing date-times chronologically. */
  lemma MinutesMonotone(a: DateTime, b: DateTime)
    requires ValidDateTime(a) && ValidDateTime(b)
    ensures BeforeTime(a, b) <==> Minutes(a) < Minutes(b)
    ensures a == b <==> Minutes(a) == Minutes(b)
  {
    DayNumberMonotone(a.date, b.date);
    var da, db := DayNumber(a.date), DayNumber(b.date);
    if da < db {
      assert da * MinutesPerDay + MinutesPerDay <= db * MinutesPerDay;
    } else if db < da {
      assert db * MinutesPerDay + MinutesPerDay <= da * MinutesPerDay;
    }
  }

  // ---------------------------------------------------------------------
  // Decimal digit strings

  predicate IsDigit(c: char)
  {
    '0' <= c <= '9'
  }

  predicate AllDigits(s: string)
  {
    forall i :: 0 <= i < |s| ==> IsDigit(s[i])
  }

  function Pow10(n: nat): (p: nat)
    ensures p >= 1
  {
    if n == 0 then 1 else 10 * Pow10(n - 1)
  }

  /** The value of a string of decimal digits, most significant first. */
  function ParseDigits(s: string): (v: nat)
    requires AllDigits(s)
    ensures v < Pow10(|s|)
  {
    if s == [] then 0
    else
      var p := ParseDigits(s[..|s| - 1]);
      assert p * 10 <= (Pow10(|s| - 1) - 1) * 10;
      p * 10 + (s[|s| - 1] as int - '0' as int)
  }

  /** `n` written with exactly `width` digits, zero-padded on the left (`%0*d`). */
  function FormatDigits(n: nat, width: nat): (s: string)
    ensures |s| == width && AllDigits(s)
  {
    if width == 0 then []
    else FormatDigits(n / 10, width - 1) + [((n % 10) + '0' as int) as char]
  }

  lemma {:induction false} ParseFormatDigits(n: nat, width: nat)
    requires n < Pow10(width)
    ensures ParseDigits(FormatDigits(n, width)) == n
  {
    if width > 0 {
      ParseFormatDigits(n / 10, width - 1);
      var s := FormatDigits(n, width);
      assert s[..|s| - 1] == FormatDigits(n / 10, width - 1);
    }
  }

  lemma {:induction false} FormatParseDigits(s: string)
    requires AllDigits(s)
    ensures FormatDigits(ParseDigits(s), |s|) == s
  {
    if s != [] {
      var init := s[..|s| - 1];
      FormatParseDigits(init);
      var d := s[|s| - 1] as int - '0' as int;
      var v := ParseDigits(init) * 10 + d;
      assert v / 10 == ParseDigits(init) && v % 10 == d;
      assert s == init + [s[|s| - 1]];
    }
  }

  // ---------------------------------------------------------------------
  // `%Y%m%d%H%M` stamps, as the query interface parses them

  /** `datetime.strptime(s, '%Y%m%d%H%M')` on a twelve-digit string; anything else is rejected. */
  function ParseStamp(s: string): (r: Option<DateTime>)
    ensures r.Some? ==> ValidDateTime(r.value)
  {
    if |s| != 12 || !AllDigits(s) then None
    else
      var t := DateTime(Date(ParseDigits(s[0..4]), ParseDigits(s[4..6]), ParseDigits(s[6..8])),
                        ParseDigits(s[8..10]), ParseDigits(s[10..12]));
      if ValidDateTime(t) then Some(t) else None
  }

  /** `t.strftime('%Y%m%d%H%M')`. */
  function FormatStamp(t: DateTime): (s: string)
    requires ValidDateTime(t)
    ensures |s| == 12 && AllDigits(s)
  {
    FormatDigits(t.date.year, 4) + FormatDigits(t.date.month, 2) + FormatDigits(t.date.day, 2)
      + FormatDigits(t.hour, 2) + FormatDigits(t.minute, 2)
  }

  lemma ParseFormatStamp(t: DateTime)
    requires ValidDateTime(t)
    ensures ParseStamp(FormatStamp(t)) == Some(t)
  {
    var s := FormatStamp(t);
    assert Pow10(4) == 10000 && Pow10(2) == 100;
    ParseFormatDigits(t.date.year, 4);
    ParseFormatDigits(t.date.month, 2);
    ParseFormatDigits(t.date.day, 2);
    ParseFormatDigits(t.hour, 2);
    ParseFormatDigits(t.minute, 2);
    FormattedFields(t);
  }

  /** Where each field sits in a formatted stamp. */
  lemma FormattedFields(t: DateTime)
    requires ValidDateTime(t)
    ensures var s := FormatStamp(t);
      s[0..4] == FormatDigits(t.date.year, 4) && s[4..6] == FormatDigits(t.date.month, 2) &&
      s[6..8] == FormatDigits(t.date.day, 2) && s[8..10] == FormatDigits(t.hour, 2) &&
      s[10..12] == FormatDigits(t.minute, 2)
  {
    var s := FormatStamp(t);
    assert s[0..4] == FormatDigits(t.date.year, 4);
    assert s[4..6] == FormatDigits(t.date.month, 2);
    assert s[6..8] == FormatDigits(t.date.day, 2);
    assert s[8..10] == FormatDigits(t.hour, 2);
    assert s[10..12] == FormatDigits(t.minute, 2);
  }

  /** Every accepted stamp is the canonical rendering of the instant it denotes. */
  lemma FormatParseStamp(s: string)
    requires ParseStamp(s).Some?
    ensures FormatStamp(ParseStamp(s).value) == s
  {
    StampFields(s);
    FormatParseDigits(s[0..4]);
    FormatParseDigits(s[4..6]);
    FormatParseDigits(s[6..8]);
    FormatParseDigits(s[8..10]);
    FormatParseDigits(s[10..12]);
  }

  /** A twelve-digit stamp is its five digit fields side by side. */
  lemma StampFields(s: string)
    requires |s| == 12 && AllDigits(s)
    ensures AllDigits(s[0..4]) && AllDigits(s[4..6]) && AllDigits(s[6..8]) && AllDigits(s[8..10]) && AllDigits(s[10..12])
    ensures s == s[0..4] + s[4..6] + s[6..8] + s[8..10] + s[10..12]
  {
  }

  // ---------------------------------------------------------------------
  // `LST_DATE` values: integers written YYYYMMDD

  /**
    `pd.to_datetime(str(n), format='%Y%m%d')` for an integer `n`, restricted
    to eight-digit values: the calendar date they name, or a failure. pandas
    1.x falls back to `strptime` when its eight-digit path fails, and that
    also reads six- and seven-digit values with an unpadded month or day
    (2020031 as 2020-03-01); those are rejected here.
  */
  function ParseYmd(n: int): (r: Option<Date>)
    ensures r.Some? ==> ValidDate(r.value) && 1000 <= r.value.year <= 9999
  {
    if 10000000 <= n <= 99999999 then
      var d := Date(n / 10000, n / 100 % 100, n % 100);
      if ValidDate(d) then Some(d) else None
    else None
  }

  function Ymd(d: Date): int
  {
    d.year * 10000 + d.month * 100 + d.day
  }

  lemma ParseYmdRoundTrip(d: Date)
    requires ValidDate(d) && 1000 <= d.year <= 9999
    ensures ParseYmd(Ymd(d)) == Some(d)
  {
    var n := Ymd(d);
    assert n / 10000 == d.year;
    assert n / 100 == d.year * 100 + d.month;
  }

  lemma YmdOfParse(n: int)
    requires ParseYmd(n).Some?
    ensures Ymd(ParseYmd(n).value) == n
  {
  }

}
