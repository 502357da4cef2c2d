/**
 What a timestamp means, without the functions that read it: the calendar
 counted day by day from the epoch, the sign of an offset, the value of a
 fraction, the range of instants, and the texts that are read at all.
 */
module Timestamps {
  import opened Text
  import opened Instant

  // ---------------------------------------------------------------------------
  // The calendar, day by day
  // ---------------------------------------------------------------------------

  /** The length of a month, by the Gregorian rule. */
  function MonthLength(year: int, month: int): int {
    if month in {4, 6, 9, 11} then 30
    else if month != 2 then 31
    else if year % 400 == 0 || (year % 4 == 0 && year % 100 != 0) then 29
    else 28
  }

  lemma LeapRule(year: int)
    ensures IsLeap(year) <==> year % 400 == 0 || (year % 4 == 0 && year % 100 != 0)
  {
    LeapCongruences(year);
  }

  lemma MonthLengths(year: int, month: int)
    requires 1 <= month <= 12
    ensures DaysInMonth(month, IsLeap(year)) == MonthLength(year, month)
  {
    LeapRule(year);
    DaysOfMonth(month, IsLeap(year));
  }

  lemma DaysOfMonth(month: int, leap: bool)
    requires 1 <= month <= 12
    ensures DaysInMonth(month, leap) ==
            if month in {4, 6, 9, 11} then 30 else if month != 2 then 31 else if leap then 29 else 28
  {
  }

  /** The day after, at the same time. */
  function NextDate(c: Civil): Civil {
    if c.day < MonthLength(c.year, c.month) then c.(day := c.day + 1)
    else if c.month < 12 then c.(month := c.month + 1, day := 1)
    else c.(year := c.year + 1, month := 1, day := 1)
  }

  lemma NextDateIsCivil(c: Civil)
    requires IsCivil(c)
    ensures IsCivil(NextDate(c))
  {
    MonthLengths(c.year, c.month);
    if c.month < 12 {
      MonthLengths(c.year, c.month + 1);
    } else {
      MonthLengths(c.year + 1, 1);
    }
  }

  lemma NextDateNumber(c: Civil)
    requires IsCivil(c)
    ensures CivilDay(NextDate(c)) == CivilDay(c) + 1
  {
    MonthLengths(c.year, c.month);
    YearLength(c.year);
  }

  /** A day is 86400000 milliseconds, and the count starts with 1970-01-01T00:00:00Z. */
  lemma DaysCount(c: Civil)
    requires IsCivil(c)
    ensures IsCivil(NextDate(c)) && MillisOf(NextDate(c)) == MillisOf(c) + 86_400_000
    ensures MillisOf(Civil(1970, 1, 1, 0, 0, 0, 0)) == 0
  {
    NextDateIsCivil(c);
    NextDateNumber(c);
  }

  /** Hours, minutes and seconds count as they should. */
  lemma ClockCounts(c: Civil)
    ensures MillisOf(c) ==
            MillisOf(c.(hour := 0, minute := 0, second := 0, milli := 0))
            + 3_600_000 * c.hour + 60_000 * c.minute + 1000 * c.second + c.milli
  {
  }

  // ---------------------------------------------------------------------------
  // Reading
  // ---------------------------------------------------------------------------

  /** Instants lie within a hundred million days of the epoch. */
  predicate InRange(t: int) {
    -8_640_000_000_000_000 <= t <= 8_640_000_000_000_000
  }

  lemma ReadsToInstant(s: Text, c: Civil, d: DatePart, p: TimePart, z: Zone)
    requires IsCivil(c) && IsZone(z) && Suffices(c, d, p, z) && -999_999 <= c.year <= 999_999
    requires s == Written(c, d, p, z)
    ensures ParseTimestamp(s) == ToInstant(c, z)
  {
    ReadsTimestamp(c, d, p, z);
    ParsesRead(s, c, z);
  }

  lemma UtcInstant(c: Civil)
    requires IsCivil(c)
    ensures ToInstant(c, Utc) == if InRange(MillisOf(c)) then Some(MillisOf(c)) else None
  {
  }

  /** A text in UTC is read as the count of its days and clock, or not at all when that is out of range. */
  lemma UtcMeaning(s: Text, c: Civil, d: DatePart, p: TimePart)
    requires IsCivil(c) && Suffices(c, d, p, Utc) && -999_999 <= c.year <= 999_999
    requires s == Written(c, d, p, Utc)
    ensures ParseTimestamp(s) == if InRange(MillisOf(c)) then Some(MillisOf(c)) else None
  {
    ReadsToInstant(s, c, d, p, Utc);
    UtcInstant(c);
  }

  /** An offset is a sign, hours and minutes. */
  lemma OffsetSpelling(west: bool, h: nat, m: nat)
    requires h < 24 && m < 60
    ensures ZoneText(Utc) == Ascii("Z")
    ensures ZoneText(Offset(west, h, m)) ==
            Ascii(if west then "-" else "+") + PadDecimal(h, 2) + Ascii(":") + PadDecimal(m, 2)
  {
  }

  /** East of Greenwich the same clock shows an earlier instant, west of it a later one. */
  lemma OffsetInstant(c: Civil, h: nat, m: nat, t: Instant)
    requires IsCivil(c) && ToInstant(c, Utc) == Some(t)
    ensures var east := t - (60 * h + m) * 60_000;
            ToInstant(c, Offset(false, h, m)) == if InRange(east) then Some(east) else None
    ensures var west := t + (60 * h + m) * 60_000;
            ToInstant(c, Offset(true, h, m)) == if InRange(west) then Some(west) else None
  {
  }

  lemma OffsetTexts(c: Civil, d: DatePart, p: TimePart, h: nat, m: nat, utc: Text, east: Text, west: Text)
    requires IsCivil(c) && Suffices(c, d, p, Utc) && !p.NoTime? && -999_999 <= c.year <= 999_999 && h < 24 && m < 60
    requires utc == Written(c, d, p, Utc)
    requires east == Written(c, d, p, Offset(false, h, m)) && west == Written(c, d, p, Offset(true, h, m))
    ensures ParseTimestamp(utc) == ToInstant(c, Utc)
    ensures ParseTimestamp(east) == ToInstant(c, Offset(false, h, m))
    ensures ParseTimestamp(west) == ToInstant(c, Offset(true, h, m))
  {
    ReadsToInstant(utc, c, d, p, Utc);
    ReadsToInstant(east, c, d, p, Offset(false, h, m));
    ReadsToInstant(west, c, d, p, Offset(true, h, m));
  }

  /** The same of the texts that are read. */
  lemma OffsetMoves(c: Civil, d: DatePart, p: TimePart, h: nat, m: nat, utc: Text, east: Text, west: Text, t: Instant)
    requires IsCivil(c) && Suffices(c, d, p, Utc) && !p.NoTime? && -999_999 <= c.year <= 999_999 && h < 24 && m < 60
    requires utc == Written(c, d, p, Utc) && ParseTimestamp(utc) == Some(t)
    requires east == Written(c, d, p, Offset(false, h, m)) && west == Written(c, d, p, Offset(true, h, m))
    ensures var earlier := t - (60 * h + m) * 60_000;
            ParseTimestamp(east) == if InRange(earlier) then Some(earlier) else None
    ensures var later := t + (60 * h + m) * 60_000;
            ParseTimestamp(west) == if InRange(later) then Some(later) else None
  {
    OffsetTexts(c, d, p, h, m, utc, east, west);
    OffsetInstant(c, h, m, t);
  }

  lemma DigitScales(v: nat, q: nat, x: nat, digit: nat)
    requires v * q <= x < (v + 1) * q && digit < 10
    ensures v * (10 * q) <= 10 * x + digit < (v + 1) * (10 * q)
  {
    assert v * (10 * q) == 10 * (v * q);
    assert (v + 1) * (10 * q) == 10 * ((v + 1) * q);
  }

  lemma {:induction false} LeadingDigits(d: Text, k: nat)
    requires AllDigits(d) && k <= |d|
    ensures DecimalValue(d[..k]) * Pow10(|d| - k) <= DecimalValue(d) < (DecimalValue(d[..k]) + 1) * Pow10(|d| - k)
    decreases |d|
  {
    if k == |d| {
      assert d[..k] == d;
    } else {
      var e := d[..|d| - 1];
      LeadingDigits(e, k);
      assert e[..k] == d[..k];
      DigitScales(DecimalValue(d[..k]), Pow10(|e| - k), DecimalValue(e), d[|d| - 1] - 0x30);
    }
  }

  lemma ThousandScales(v: nat, q: nat, x: nat)
    requires v * q <= x < (v + 1) * q
    ensures v * (1000 * q) <= 1000 * x < (v + 1) * (1000 * q)
  {
    assert v * (1000 * q) == 1000 * (v * q);
    assert (v + 1) * (1000 * q) == 1000 * ((v + 1) * q);
  }

  /** A fraction counts its whole milliseconds: `.f` seconds, rounded down. */
  lemma FractionMeaning(f: Text)
    requires AllDigits(f)
    ensures FractionMillis(f) * Pow10(|f|) <= 1000 * DecimalValue(f) < (FractionMillis(f) + 1) * Pow10(|f|)
  {
    if |f| < 3 {
      ShortFraction(f);
    } else {
      LeadingDigits(f, 3);
      ThreeMore(|f| - 3);
      ThousandScales(DecimalValue(f[..3]), Pow10(|f| - 3), DecimalValue(f));
    }
  }

  lemma ShortFraction(f: Text)
    requires AllDigits(f) && |f| < 3
    ensures FractionMillis(f) * Pow10(|f|) == 1000 * DecimalValue(f)
    ensures Pow10(|f|) > 0
  {
    SmallPowers();
    assert Pow10(0) == 1 && Pow10(1) == 10;
    if |f| == 0 {
      assert DecimalValue(f) == 0;
    }
  }

  lemma ThreeMore(k: nat)
    ensures Pow10(k + 3) == 1000 * Pow10(k)
  {
    assert Pow10(k + 3) == 10 * Pow10(k + 2);
    assert Pow10(k + 2) == 10 * Pow10(k + 1);
    assert Pow10(k + 1) == 10 * Pow10(k);
  }
}
