/**
 `new Date(text).toISOString()`: reading an Internet timestamp (section 5.6 of
 RFC 3339, section 21.4.1 of ECMA-262, 13th edition) and printing the instant
 it denotes in the one form that enters the canonical string. An instant is a
 number of milliseconds since 1970-01-01T00:00:00Z.
 */
module Instant {
  import opened Text

  const MS_PER_DAY := 86_400_000
  /** Instants further than this from the epoch are invalid dates. */
  const MAX_INSTANT := 8_640_000_000_000_000

  type Instant = t: int | -MAX_INSTANT <= t <= MAX_INSTANT

  // ---------------------------------------------------------------------------
  // Civil dates
  // ---------------------------------------------------------------------------

  /** The day number on which year `y` begins. */
  function DayFromYear(y: int): int {
    365 * (y - 1970) + (y - 1969) / 4 - (y - 1901) / 100 + (y - 1601) / 400
  }

  predicate IsLeap(y: int) {
    y % 4 == 0 && (y % 100 != 0 || y % 400 == 0)
  }

  function DaysInYear(y: int): int {
    if IsLeap(y) then 366 else 365
  }

  lemma QuarterStep(n: int)
    ensures (n + 1) / 4 - n / 4 == if (n + 1) % 4 == 0 then 1 else 0
  {
  }

  lemma CenturyStep(n: int)
    ensures (n + 1) / 100 - n / 100 == if (n + 1) % 100 == 0 then 1 else 0
  {
  }

  lemma FourCenturyStep(n: int)
    ensures (n + 1) / 400 - n / 400 == if (n + 1) % 400 == 0 then 1 else 0
  {
  }

  lemma LeapCongruences(y: int)
    ensures (y - 1968) % 4 == y % 4 && (y - 1900) % 100 == y % 100 && (y - 1600) % 400 == y % 400
    ensures (y % 400 == 0 ==> y % 100 == 0) && (y % 100 == 0 ==> y % 4 == 0)
  {
    assert y % 400 == 0 ==> y == 400 * (y / 400);
    assert y % 100 == 0 ==> y == 100 * (y / 100);
  }

  /** The year numbering agrees with the leap-year rule. */
  lemma YearLength(y: int)
    ensures DayFromYear(y + 1) - DayFromYear(y) == DaysInYear(y)
  {
    QuarterStep(y - 1969);
    CenturyStep(y - 1901);
    FourCenturyStep(y - 1601);
    LeapCongruences(y);
  }

  function YearDown(day: int, y: int): (r: int)
    requires day < DayFromYear(y + 1)
    ensures DayFromYear(r) <= day < DayFromYear(r + 1)
    decreases DayFromYear(y + 1) - day
  {
    YearLength(y);
    if DayFromYear(y) <= day then y else YearDown(day, y - 1)
  }

  function YearUp(day: int, y: int): (r: int)
    requires DayFromYear(y) <= day
    ensures DayFromYear(r) <= day < DayFromYear(r + 1)
    decreases day - DayFromYear(y)
  {
    YearLength(y);
    if day < DayFromYear(y + 1) then y else YearUp(day, y + 1)
  }

  /** The year in which a day falls. */
  function YearFromDay(day: int): (y: int)
    ensures DayFromYear(y) <= day < DayFromYear(y + 1)
  {
    if DayFromYear(1970) <= day then YearUp(day, 1970) else YearDown(day, 1969)
  }

  /** Days of the year before month `m`; month 13 stands for the next January. */
  function MonthStart(m: int, leap: bool): int {
    var extra := if leap then 1 else 0;
    if m <= 1 then 0
    else if m == 2 then 31
    else if m == 3 then 59 + extra
    else if m == 4 then 90 + extra
    else if m == 5 then 120 + extra
    else if m == 6 then 151 + extra
    else if m == 7 then 181 + extra
    else if m == 8 then 212 + extra
    else if m == 9 then 243 + extra
    else if m == 10 then 273 + extra
    else if m == 11 then 304 + extra
    else if m == 12 then 334 + extra
    else 365 + extra
  }

  function DaysInMonth(m: int, leap: bool): int {
    MonthStart(m + 1, leap) - MonthStart(m, leap)
  }

  function MonthFromDay(d: int, leap: bool, m: int): (r: int)
    requires 1 <= m <= 12 && MonthStart(m, leap) <= d < MonthStart(13, leap)
    ensures m <= r <= 12 && MonthStart(r, leap) <= d < MonthStart(r + 1, leap)
    decreases 12 - m
  {
    if d < MonthStart(m + 1, leap) then m else MonthFromDay(d, leap, m + 1)
  }

  datatype Civil = Civil(year: int, month: int, day: int, hour: int, minute: int, second: int, milli: int)

  predicate IsCivil(c: Civil) {
    && 1 <= c.month <= 12
    && 1 <= c.day <= DaysInMonth(c.month, IsLeap(c.year))
    && 0 <= c.minute < 60 && 0 <= c.second < 60 && 0 <= c.milli < 1000
    && (0 <= c.hour < 24 || (c.hour == 24 && c.minute == c.second == c.milli == 0))
  }

  function CivilDay(c: Civil): int {
    DayFromYear(c.year) + MonthStart(c.month, IsLeap(c.year)) + c.day - 1
  }

  function ClockMillis(c: Civil): int {
    ((c.hour * 60 + c.minute) * 60 + c.second) * 1000 + c.milli
  }

  function MillisOf(c: Civil): int {
    CivilDay(c) * MS_PER_DAY + ClockMillis(c)
  }

  /** The date of a day number. */
  function DateOf(day: int): (d: (int, int, int))
    ensures 1 <= d.1 <= 12 && 1 <= d.2 <= DaysInMonth(d.1, IsLeap(d.0))
    ensures DayFromYear(d.0) + MonthStart(d.1, IsLeap(d.0)) + d.2 - 1 == day
  {
    var y := YearFromDay(day);
    YearLength(y);
    var m := MonthFromDay(day - DayFromYear(y), IsLeap(y), 1);
    (y, m, day - DayFromYear(y) - MonthStart(m, IsLeap(y)) + 1)
  }

  /** The calendar date and clock time of a count of milliseconds. */
  function CivilOf(t: int): (c: Civil)
    ensures IsCivil(c) && c.hour < 24
    ensures MillisOf(c) == t
  {
    var (y, m, d) := DateOf(t / MS_PER_DAY);
    var ms := t % MS_PER_DAY;
    ClockSplits(ms);
    Civil(y, m, d, ms / 3_600_000, ms / 60_000 % 60, ms / 1000 % 60, ms % 1000)
  }

  lemma ClockSplits(ms: int)
    requires 0 <= ms < MS_PER_DAY
    ensures ((ms / 3_600_000 * 60 + ms / 60_000 % 60) * 60 + ms / 1000 % 60) * 1000 + ms % 1000 == ms
    ensures 0 <= ms / 3_600_000 < 24
  {
    assert ms / 1000 / 60 == ms / 60_000;
    assert ms / 60_000 / 60 == ms / 3_600_000;
  }

  lemma {:induction false} YearsIncrease(y: int, z: int)
    requires y <= z
    ensures DayFromYear(y) <= DayFromYear(z)
    decreases z - y
  {
    if y < z {
      YearLength(y);
      YearsIncrease(y + 1, z);
    }
  }

  lemma YearUnique(day: int, y: int, z: int)
    requires DayFromYear(y) <= day < DayFromYear(y + 1) && DayFromYear(z) <= day < DayFromYear(z + 1)
    ensures y == z
  {
    if y < z { YearsIncrease(y + 1, z); }
    if z < y { YearsIncrease(z + 1, y); }
  }

  lemma MonthsIncrease(m: int, n: int, leap: bool)
    requires m <= n
    ensures MonthStart(m, leap) <= MonthStart(n, leap)
  {
  }

  lemma MonthUnique(m: int, n: int, i: int, j: int, leap: bool)
    requires 1 <= i <= DaysInMonth(m, leap) && 1 <= j <= DaysInMonth(n, leap)
    requires MonthStart(m, leap) + i == MonthStart(n, leap) + j
    ensures m == n && i == j
  {
    if m < n { MonthsIncrease(m + 1, n, leap); }
    if n < m { MonthsIncrease(n + 1, m, leap); }
  }

  lemma DayInYear(c: Civil)
    requires IsCivil(c)
    ensures DayFromYear(c.year) <= CivilDay(c) < DayFromYear(c.year + 1)
  {
    YearLength(c.year);
    MonthsIncrease(c.month + 1, 13, IsLeap(c.year));
    MonthsIncrease(1, c.month, IsLeap(c.year));
  }

  lemma SameYearDay(c: Civil, d: Civil)
    requires c.year == d.year && CivilDay(c) == CivilDay(d)
    ensures MonthStart(c.month, IsLeap(c.year)) + c.day == MonthStart(d.month, IsLeap(c.year)) + d.day
  {
  }

  lemma SameDaySameYear(c: Civil, d: Civil)
    requires IsCivil(c) && IsCivil(d) && CivilDay(c) == CivilDay(d)
    ensures c.year == d.year
  {
    var day := CivilDay(c);
    assert DayFromYear(c.year) <= day < DayFromYear(c.year + 1) by { DayInYear(c); }
    assert DayFromYear(d.year) <= day < DayFromYear(d.year + 1) by { DayInYear(d); }
    YearUnique(day, c.year, d.year);
  }

  /** A day belongs to one year, and a day of the year to one month. */
  lemma DateUnique(c: Civil, d: Civil)
    requires IsCivil(c) && IsCivil(d) && CivilDay(c) == CivilDay(d)
    ensures c.year == d.year && c.month == d.month && c.day == d.day
  {
    SameDaySameYear(c, d);
    SameYearDay(c, d);
    MonthUnique(c.month, d.month, c.day, d.day, IsLeap(c.year));
  }

  lemma ClockBounds(c: Civil)
    requires IsCivil(c) && c.hour < 24
    ensures 0 <= ClockMillis(c) < MS_PER_DAY
  {
  }

  lemma ClockUnique(c: Civil, d: Civil)
    requires IsCivil(c) && IsCivil(d) && ClockMillis(c) == ClockMillis(d)
    ensures c.hour == d.hour && c.minute == d.minute && c.second == d.second && c.milli == d.milli
  {
    assert ClockMillis(c) / 1000 == (c.hour * 60 + c.minute) * 60 + c.second;
    assert ClockMillis(d) / 1000 == (d.hour * 60 + d.minute) * 60 + d.second;
  }

  /** The calendar reading of an instant is the only one: `CivilOf` inverts `MillisOf`. */
  lemma CivilOfMillis(c: Civil)
    requires IsCivil(c) && c.hour < 24
    ensures CivilOf(MillisOf(c)) == c
  {
    var d := CivilOf(MillisOf(c));
    ClockBounds(c);
    ClockBounds(d);
    assert CivilDay(c) == CivilDay(d) && ClockMillis(c) == ClockMillis(d);
    DateUnique(c, d);
    ClockUnique(c, d);
  }

  // ---------------------------------------------------------------------------
  // Writing
  // ---------------------------------------------------------------------------

  /** How a timestamp names its offset from UTC. */
  datatype Zone = Utc | Offset(west: bool, hours: nat, minutes: nat)

  predicate IsZone(z: Zone) {
    z.Offset? ==> z.hours < 24 && z.minutes < 60
  }

  /** Local time minus UTC. */
  function ZoneMillis(z: Zone): (ms: int)
    ensures IsZone(z) ==> -MS_PER_DAY < ms < MS_PER_DAY
  {
    match z
    case Utc => 0
    case Offset(west, h, m) => if west then -(h * 60 + m) * 60_000 else (h * 60 + m) * 60_000
  }

  /** How much of the date a timestamp spells out. */
  datatype DatePart = YearOnly | MonthOnly | FullDate

  /** How much of the time: nothing, hours and minutes, or seconds with the digits of a fraction, if any. */
  datatype TimePart = NoTime | Minutes | Seconds(fraction: Text)

  function YearText(y: int): Text {
    if 0 <= y <= 9999 then PadDecimal(y, 4)
    else if y < 0 then [0x2D] + PadDecimal(-y, 6)
    else [0x2B] + PadDecimal(y, 6)
  }

  /** A separator and two digits, as in `-MM` and `:mm`. */
  function Part(separator: CodeUnit, n: nat): (t: Text)
    ensures |t| == 3 && t[0] == separator && t[1..] == PadDecimal(n, 2)
  {
    [separator] + PadDecimal(n, 2)
  }

  function DateText(c: Civil, d: DatePart): Text
    requires IsCivil(c)
  {
    match d
    case YearOnly => []
    case MonthOnly => Part(0x2D, c.month)
    case FullDate => Part(0x2D, c.month) + Part(0x2D, c.day)
  }

  function FractionText(f: Text): Text {
    if f == [] then [] else [0x2E] + f
  }

  function ZoneText(z: Zone): Text
    requires IsZone(z)
  {
    match z
    case Utc => [0x5A]
    case Offset(west, h, m) => Part(if west then 0x2D else 0x2B, h) + Part(0x3A, m)
  }

  function TimeText(c: Civil, p: TimePart, z: Zone): Text
    requires IsCivil(c) && IsZone(z)
  {
    match p
    case NoTime => []
    case Minutes => Part(0x54, c.hour) + (Part(0x3A, c.minute) + ZoneText(z))
    case Seconds(f) =>
      Part(0x54, c.hour) + (Part(0x3A, c.minute) + (Part(0x3A, c.second) + (FractionText(f) + ZoneText(z))))
  }

  /** Nothing of the date and time is lost by spelling out only so much of it. */
  predicate Suffices(c: Civil, d: DatePart, p: TimePart, z: Zone) {
    && (d.YearOnly? ==> c.month == 1)
    && (!d.FullDate? ==> c.day == 1)
    && (match p
        case NoTime => c.hour == c.minute == c.second == c.milli == 0 && z == Utc
        case Minutes => c.second == c.milli == 0
        case Seconds(f) => AllDigits(f) && FractionMillis(f) == c.milli)
  }

  function Written(c: Civil, d: DatePart, p: TimePart, z: Zone): Text
    requires IsCivil(c) && IsZone(z)
  {
    YearText(c.year) + (DateText(c, d) + TimeText(c, p, z))
  }

  /** The instant `t` written as local time in zone `z`, to the millisecond. */
  function Timestamp(t: Instant, z: Zone): Text
    requires IsZone(z)
  {
    var c := CivilOf(t + ZoneMillis(z));
    Written(c, FullDate, Seconds(PadDecimal(c.milli, 3)), z)
  }

  /** `Date.prototype.toISOString`. */
  function ToIsoString(t: Instant): Text {
    Timestamp(t, Utc)
  }

  // ---------------------------------------------------------------------------
  // Reading
  // ---------------------------------------------------------------------------

  /** A number of `width` digits and what follows it. */
  function ReadNumber(s: Text, width: nat): Option<(nat, Text)> {
    if width <= |s| && AllDigits(s[..width]) then Some((DecimalValue(s[..width]), s[width..])) else None
  }

  function ReadPart(separator: CodeUnit, s: Text): Option<(nat, Text)> {
    if s != [] && s[0] == separator then ReadNumber(s[1..], 2) else None
  }

  function DigitRun(s: Text): (n: nat)
    ensures n <= |s| && AllDigits(s[..n])
  {
    if s == [] || !IsDigit(s[0]) then 0 else 1 + DigitRun(s[1..])
  }

  /** The first three digits after the point; the rest are below a millisecond. */
  function FractionMillis(d: Text): nat
    requires AllDigits(d)
  {
    if |d| == 0 then 0
    else if |d| == 1 then 100 * DecimalValue(d)
    else if |d| == 2 then 10 * DecimalValue(d)
    else DecimalValue(d[..3])
  }

  function ReadYear(s: Text): Option<(int, Text)> {
    if s != [] && (s[0] == 0x2B || s[0] == 0x2D) then
      match ReadNumber(s[1..], 6)
      case None => None
      case Some((n, rest)) =>
        if s[0] == 0x2B then Some((n, rest)) else if n == 0 then None else Some((-(n as int), rest))
    else
      match ReadNumber(s, 4)
      case None => None
      case Some((n, rest)) => Some((n, rest))
  }

  /** Month and day, 1 where the text leaves them out. */
  function ReadDate(s: Text): (nat, nat, Text) {
    match ReadPart(0x2D, s)
    case None => (1, 1, s)
    case Some((month, rest)) =>
      match ReadPart(0x2D, rest)
      case None => (month, 1, rest)
      case Some((day, rest')) => (month, day, rest')
  }

  function ReadZone(s: Text): Option<Zone> {
    if s == [0x5A] then Some(Utc)
    else if s == [] || !(s[0] == 0x2B || s[0] == 0x2D) then None
    else
      match ReadPart(s[0], s)
      case None => None
      case Some((h, rest)) =>
        match ReadPart(0x3A, rest)
        case None => None
        case Some((m, rest')) => if rest' == [] && h < 24 && m < 60 then Some(Offset(s[0] == 0x2D, h, m)) else None
  }

  /** What follows the seconds: an optional fraction, then the zone. */
  function ReadFractionAndZone(s: Text): Option<(nat, Zone)> {
    if s != [] && s[0] == 0x2E then
      var n := DigitRun(s[1..]);
      if n == 0 then None
      else
        match ReadZone(s[1..][n..])
        case Some(z) => Some((FractionMillis(s[1..][..n]), z))
        case None => None
    else
      match ReadZone(s)
      case Some(z) => Some((0, z))
      case None => None
  }

  /** What follows the minutes: optional seconds, then the zone. */
  function ReadSecondsAndZone(s: Text): Option<(nat, nat, Zone)> {
    match ReadPart(0x3A, s)
    case None =>
      (match ReadZone(s)
       case Some(z) => Some((0, 0, z))
       case None => None)
    case Some((second, rest)) =>
      match ReadFractionAndZone(rest)
      case Some((milli, z)) => Some((second, milli, z))
      case None => None
  }

  /** What follows the date; a date alone stands for its midnight in UTC. */
  function ReadTime(s: Text, year: int, month: int, day: int): Option<(Civil, Zone)> {
    if s == [] then Some((Civil(year, month, day, 0, 0, 0, 0), Utc))
    else
      match ReadPart(0x54, s)
      case None => None
      case Some((hour, rest)) =>
        match ReadPart(0x3A, rest)
        case None => None
        case Some((minute, rest')) =>
          match ReadSecondsAndZone(rest')
          case None => None
          case Some((second, milli, z)) => Some((Civil(year, month, day, hour, minute, second, milli), z))
  }

  function ReadTimestamp(s: Text): Option<(Civil, Zone)> {
    match ReadYear(s)
    case None => None
    case Some((year, rest)) =>
      var (month, day, rest') := ReadDate(rest);
      ReadTime(rest', year, month, day)
  }

  function ToInstant(c: Civil, z: Zone): Option<Instant> {
    var t := MillisOf(c) - ZoneMillis(z);
    if IsCivil(c) && -MAX_INSTANT <= t <= MAX_INSTANT then Some(t) else None
  }

  /** `new Date(text)`, with None for an invalid date. */
  function ParseTimestamp(s: Text): Option<Instant> {
    match ReadTimestamp(s)
    case Some((c, z)) => ToInstant(c, z)
    case None => None
  }

  // ---------------------------------------------------------------------------
  // Reading undoes writing
  // ---------------------------------------------------------------------------

  lemma YearBounds(c: Civil)
    requires IsCivil(c) && -MAX_INSTANT - MS_PER_DAY <= MillisOf(c) <= MAX_INSTANT + MS_PER_DAY
    ensures -999_999 <= c.year <= 999_999
  {
    var day := CivilDay(c);
    assert -100_000_002 <= day <= 100_000_001 by { ClockSpan(c); }
    assert DayFromYear(c.year) <= day < DayFromYear(c.year + 1) by { DayInYear(c); }
    var y := YearFromDay(day);
    assert -999_999 <= y <= 999_999;
    YearUnique(day, c.year, y);
  }

  lemma ClockSpan(c: Civil)
    requires IsCivil(c)
    ensures 0 <= ClockMillis(c) <= MS_PER_DAY
  {
  }

  lemma SmallPowers()
    ensures Pow10(2) == 100 && Pow10(3) == 1000 && Pow10(4) == 10_000 && Pow10(6) == 1_000_000
  {
    assert Pow10(1) == 10;
    assert Pow10(2) == 100;
    assert Pow10(3) == 1000;
    assert Pow10(4) == 10_000;
    assert Pow10(5) == 100_000;
  }

  lemma ReadsNumber(n: nat, width: nat, rest: Text)
    requires n < Pow10(width)
    ensures ReadNumber(PadDecimal(n, width) + rest, width) == Some((n, rest))
  {
    var s := PadDecimal(n, width) + rest;
    assert s[..width] == PadDecimal(n, width) && s[width..] == rest;
    PadDecimalReads(n, width);
  }

  lemma ReadsPart(separator: CodeUnit, n: nat, rest: Text)
    requires n < 100
    ensures ReadPart(separator, Part(separator, n) + rest) == Some((n, rest))
  {
    SmallPowers();
    assert (Part(separator, n) + rest)[1..] == PadDecimal(n, 2) + rest;
    ReadsNumber(n, 2, rest);
  }

  lemma ReadsPlainYear(y: int, rest: Text)
    requires 0 <= y <= 9999
    ensures ReadYear(PadDecimal(y, 4) + rest) == Some((y, rest))
  {
    SmallPowers();
    ReadsNumber(y, 4, rest);
    assert IsDigit(PadDecimal(y, 4)[0]);
  }

  lemma ReadsSignedYear(sign: CodeUnit, n: nat, rest: Text)
    requires n <= 999_999 && (sign == 0x2B || (sign == 0x2D && n > 0))
    ensures ReadYear([sign] + PadDecimal(n, 6) + rest) == Some((if sign == 0x2D then -(n as int) else n, rest))
  {
    SmallPowers();
    ReadsNumber(n, 6, rest);
    assert ([sign] + PadDecimal(n, 6) + rest)[1..] == PadDecimal(n, 6) + rest;
  }

  lemma ReadsYear(y: int, rest: Text)
    requires -999_999 <= y <= 999_999
    ensures ReadYear(YearText(y) + rest) == Some((y, rest))
  {
    if 0 <= y <= 9999 {
      ReadsPlainYear(y, rest);
    } else if y < 0 {
      ReadsSignedYear(0x2D, -y, rest);
    } else {
      ReadsSignedYear(0x2B, y, rest);
    }
  }

  lemma ReadsDate(c: Civil, d: DatePart, rest: Text)
    requires IsCivil(c) && (d.YearOnly? ==> c.month == 1) && (!d.FullDate? ==> c.day == 1)
    requires rest == [] || rest[0] != 0x2D
    ensures ReadDate(DateText(c, d) + rest) == (c.month, c.day, rest)
  {
    match d
    case YearOnly => assert DateText(c, d) + rest == rest;
    case MonthOnly => ReadsPart(0x2D, c.month, rest);
    case FullDate =>
      assert DateText(c, d) + rest == Part(0x2D, c.month) + (Part(0x2D, c.day) + rest);
      ReadsPart(0x2D, c.month, Part(0x2D, c.day) + rest);
      ReadsPart(0x2D, c.day, rest);
  }

  lemma ReadsZone(z: Zone)
    requires IsZone(z)
    ensures ReadZone(ZoneText(z)) == Some(z)
  {
    if z.Offset? {
      var sign: CodeUnit := if z.west then 0x2D else 0x2B;
      ReadsPart(sign, z.hours, Part(0x3A, z.minutes));
      assert Part(0x3A, z.minutes) + [] == Part(0x3A, z.minutes);
      ReadsPart(0x3A, z.minutes, []);
    }
  }

  lemma {:induction false} DigitRunOf(d: Text, rest: Text)
    requires AllDigits(d) && (rest == [] || !IsDigit(rest[0]))
    ensures DigitRun(d + rest) == |d|
  {
    if d == [] {
      assert d + rest == rest;
    } else {
      assert (d + rest)[1..] == d[1..] + rest;
      DigitRunOf(d[1..], rest);
    }
  }

  lemma ReadsFraction(f: Text, rest: Text)
    requires f != [] && AllDigits(f) && rest != [] && !IsDigit(rest[0]) && ReadZone(rest).Some?
    ensures ReadFractionAndZone(FractionText(f) + rest) == Some((FractionMillis(f), ReadZone(rest).value))
  {
    var s := FractionText(f) + rest;
    assert s[1..] == f + rest;
    DigitRunOf(f, rest);
    assert (f + rest)[|f|..] == rest && (f + rest)[..|f|] == f;
  }

  lemma ReadsFractionAndZone(f: Text, z: Zone)
    requires AllDigits(f) && IsZone(z)
    ensures ReadFractionAndZone(FractionText(f) + ZoneText(z)) == Some((FractionMillis(f), z))
  {
    ReadsZone(z);
    if f == [] {
      assert FractionText(f) + ZoneText(z) == ZoneText(z);
    } else {
      ReadsFraction(f, ZoneText(z));
    }
  }

  lemma ReadsMinutes(c: Civil, rest: Text)
    requires IsCivil(c)
    ensures ReadTime(Part(0x54, c.hour) + (Part(0x3A, c.minute) + rest), c.year, c.month, c.day) ==
            match ReadSecondsAndZone(rest)
            case Some((second, milli, z)) => Some((c.(second := second, milli := milli), z))
            case None => None
  {
    ReadsPart(0x54, c.hour, Part(0x3A, c.minute) + rest);
    ReadsPart(0x3A, c.minute, rest);
  }

  lemma ReadsTime(c: Civil, d: DatePart, p: TimePart, z: Zone)
    requires IsCivil(c) && IsZone(z) && Suffices(c, d, p, z)
    ensures ReadTime(TimeText(c, p, z), c.year, c.month, c.day) == Some((c, z))
  {
    match p
    case NoTime =>
    case Minutes =>
      ReadsMinutes(c, ZoneText(z));
      ReadsZone(z);
      assert ReadPart(0x3A, ZoneText(z)).None?;
    case Seconds(f) =>
      var tail := FractionText(f) + ZoneText(z);
      ReadsMinutes(c, Part(0x3A, c.second) + tail);
      ReadsPart(0x3A, c.second, tail);
      ReadsFractionAndZone(f, z);
  }

  lemma ReadsTimestamp(c: Civil, d: DatePart, p: TimePart, z: Zone)
    requires IsCivil(c) && IsZone(z) && Suffices(c, d, p, z) && -999_999 <= c.year <= 999_999
    ensures ReadTimestamp(Written(c, d, p, z)) == Some((c, z))
  {
    var time := TimeText(c, p, z);
    ReadsYear(c.year, DateText(c, d) + time);
    ReadsDate(c, d, time);
    ReadsTime(c, d, p, z);
  }

  lemma ToInstantOf(t: Instant, c: Civil, z: Zone)
    requires IsCivil(c) && MillisOf(c) == t + ZoneMillis(z)
    ensures ToInstant(c, z) == Some(t)
  {
  }

  lemma ParsesRead(s: Text, c: Civil, z: Zone)
    requires ReadTimestamp(s) == Some((c, z))
    ensures ParseTimestamp(s) == ToInstant(c, z)
  {
  }

  /**
   Every way of writing an instant is read back as that instant: as local time
   of any offset; midnight as hour 0, as hour 24 of the day before or, in UTC,
   as the date alone; with the seconds or the rest of the date left out where
   that loses nothing; and with a fraction of any length that agrees to the
   millisecond.
   */
  lemma ParsesWritten(t: Instant, c: Civil, d: DatePart, p: TimePart, z: Zone)
    requires IsZone(z) && IsCivil(c) && MillisOf(c) == t + ZoneMillis(z) && Suffices(c, d, p, z)
    ensures ParseTimestamp(Written(c, d, p, z)) == Some(t)
  {
    var s := Written(c, d, p, z);
    assert ReadTimestamp(s) == Some((c, z)) by {
      YearBounds(c);
      ReadsTimestamp(c, d, p, z);
    }
    ParsesRead(s, c, z);
    ToInstantOf(t, c, z);
  }

  /** `s` is one of the ways of writing `t`. */
  ghost predicate Writes(s: Text, t: Instant) {
    exists c, d, p, z ::
      IsZone(z) && IsCivil(c) && MillisOf(c) == t + ZoneMillis(z) && Suffices(c, d, p, z) && s == Written(c, d, p, z)
  }

  lemma ParsesWriting(s: Text, t: Instant)
    requires Writes(s, t)
    ensures ParseTimestamp(s) == Some(t)
  {
    var c, d, p, z :|
      IsZone(z) && IsCivil(c) && MillisOf(c) == t + ZoneMillis(z) && Suffices(c, d, p, z) && s == Written(c, d, p, z);
    ParsesWritten(t, c, d, p, z);
  }

  lemma FullMillis(milli: nat)
    requires milli < 1000
    ensures FractionMillis(PadDecimal(milli, 3)) == milli
  {
    SmallPowers();
    var d := PadDecimal(milli, 3);
    assert d[..3] == d;
    PadDecimalReads(milli, 3);
  }

  lemma ParsesFull(t: Instant, c: Civil, z: Zone, s: Text)
    requires IsZone(z) && IsCivil(c) && MillisOf(c) == t + ZoneMillis(z)
    requires s == Written(c, FullDate, Seconds(PadDecimal(c.milli, 3)), z)
    ensures ParseTimestamp(s) == Some(t)
  {
    FullMillis(c.milli);
    ParsesWritten(t, c, FullDate, Seconds(PadDecimal(c.milli, 3)), z);
  }

  /** What is printed, with any offset, is read back. */
  lemma ParsesTimestamp(t: Instant, z: Zone)
    requires IsZone(z)
    ensures ParseTimestamp(Timestamp(t, z)) == Some(t)
  {
    ParsesFull(t, CivilOf(t + ZoneMillis(z)), z, Timestamp(t, z));
  }

  /** Distinct instants print differently. */
  lemma ToIsoStringInjective(t: Instant, u: Instant)
    ensures ToIsoString(t) == ToIsoString(u) ==> t == u
  {
    ParsesTimestamp(t, Utc);
    ParsesTimestamp(u, Utc);
  }

  /**
   The layout `YYYY-MM-DDTHH:mm:ss.sssZ`, field by field; a year outside 0 to
   9999 has a sign and six digits, which moves the rest by three places.
   */
  lemma IsoLayout(t: Instant)
    ensures var c := CivilOf(t);
            var s := ToIsoString(t);
            var w := if 0 <= c.year <= 9999 then 4 else 7;
            && |s| == w + 20
            && (0 <= c.year <= 9999 ==> s[0..4] == PadDecimal(c.year, 4))
            && (c.year < 0 ==> s[0] == 0x2D && s[1..7] == PadDecimal(-c.year, 6))
            && (c.year > 9999 ==> s[0] == 0x2B && s[1..7] == PadDecimal(c.year, 6))
            && HasFields(c, s[w..])
  {
    var c, s := CivilOf(t), ToIsoString(t);
    var rest := DateText(c, FullDate) + TimeText(c, Seconds(PadDecimal(c.milli, 3)), Utc);
    YearLayout(c.year, rest);
    assert s == YearText(c.year) + rest;
    assert s[|YearText(c.year)|..] == rest;
    FieldsFollow(c);
  }

  lemma YearLayout(y: int, rest: Text)
    ensures var s := YearText(y) + rest;
            && |YearText(y)| == (if 0 <= y <= 9999 then 4 else 7)
            && (0 <= y <= 9999 ==> s[0..4] == PadDecimal(y, 4))
            && (y < 0 ==> s[0] == 0x2D && s[1..7] == PadDecimal(-y, 6))
            && (y > 9999 ==> s[0] == 0x2B && s[1..7] == PadDecimal(y, 6))
  {
  }

  /** `-MM-DDTHH:mm:ss.sssZ`, field by field. */
  predicate HasFields(c: Civil, r: Text)
    requires IsCivil(c)
  {
    && |r| == 20
    && r[1..3] == PadDecimal(c.month, 2) && r[4..6] == PadDecimal(c.day, 2) && r[7..9] == PadDecimal(c.hour, 2)
    && r[10..12] == PadDecimal(c.minute, 2) && r[13..15] == PadDecimal(c.second, 2)
    && r[16..19] == PadDecimal(c.milli, 3)
    && r[0] == r[3] == 0x2D && r[6] == 0x54 && r[9] == r[12] == 0x3A && r[15] == 0x2E && r[19] == 0x5A
  }

  /** Five parts and a tail, taken apart again. */
  lemma PartsInPlace(a: Text, b: Text, c: Text, d: Text, e: Text, tail: Text)
    requires |a| == |b| == |c| == |d| == |e| == 3
    ensures var r := a + b + (c + (d + (e + tail)));
            && r[0] == a[0] && r[1..3] == a[1..] && r[3] == b[0] && r[4..6] == b[1..]
            && r[6] == c[0] && r[7..9] == c[1..]
            && r[9] == d[0] && r[10..12] == d[1..] && r[12] == e[0] && r[13..15] == e[1..] && r[15..] == tail
  {
  }

  lemma FieldsFollow(c: Civil)
    requires IsCivil(c)
    ensures HasFields(c, DateText(c, FullDate) + TimeText(c, Seconds(PadDecimal(c.milli, 3)), Utc))
  {
    var r := DateText(c, FullDate) + TimeText(c, Seconds(PadDecimal(c.milli, 3)), Utc);
    var tail := FractionText(PadDecimal(c.milli, 3)) + [0x5A];
    PartsInPlace(Part(0x2D, c.month), Part(0x2D, c.day), Part(0x54, c.hour), Part(0x3A, c.minute), Part(0x3A, c.second),
                 tail);
    assert r[15..] == tail && tail[1..4] == PadDecimal(c.milli, 3);
    assert r[16..19] == tail[1..4] && r[15] == tail[0] && r[19] == tail[4];
  }
}
