/** Which texts are timestamps: exactly the spellings of some instant. */
module TimestampTexts {
  import opened Text
  import opened Instant

  lemma {:induction false} DigitsBack(t: Text)
    requires AllDigits(t)
    ensures DecimalValue(t) < Pow10(|t|) && PadDecimal(DecimalValue(t), |t|) == t
  {
    if t != [] {
      var p, d := t[..|t| - 1], t[|t| - 1] - 0x30;
      DigitsBack(p);
      assert DecimalValue(t) / 10 == DecimalValue(p) && DecimalValue(t) % 10 == d;
      assert t == p + [0x30 + d];
    }
  }

  lemma NumberBack(s: Text, width: nat)
    requires ReadNumber(s, width).Some?
    ensures var (n, rest) := ReadNumber(s, width).value;
            n < Pow10(width) && s == PadDecimal(n, width) + rest
  {
    DigitsBack(s[..width]);
    assert s == s[..width] + s[width..];
  }

  lemma PartBack(separator: CodeUnit, s: Text)
    requires ReadPart(separator, s).Some?
    ensures var (n, rest) := ReadPart(separator, s).value;
            n < 100 && s == Part(separator, n) + rest
  {
    SmallPowers();
    NumberBack(s[1..], 2);
    assert s == [s[0]] + s[1..];
  }

  lemma ZoneBack(s: Text)
    requires ReadZone(s).Some?
    ensures IsZone(ReadZone(s).value) && s == ZoneText(ReadZone(s).value)
  {
    if s != [0x5A] {
      PartBack(s[0], s);
      var (h, rest) := ReadPart(s[0], s).value;
      PartBack(0x3A, rest);
    }
  }

  lemma FractionBack(s: Text) returns (f: Text)
    requires ReadFractionAndZone(s).Some?
    ensures var (milli, z) := ReadFractionAndZone(s).value;
            AllDigits(f) && FractionMillis(f) == milli && IsZone(z) && s == FractionText(f) + ZoneText(z)
  {
    if s != [] && s[0] == 0x2E {
      var t := s[1..];
      var n := DigitRun(t);
      f := t[..n];
      ZoneBack(t[n..]);
      assert s == [0x2E] + t && t == f + t[n..];
    } else {
      f := [];
      ZoneBack(s);
      assert s == [] + s;
    }
  }

  lemma SecondsBack(s: Text, c: Civil) returns (p: TimePart)
    requires ReadSecondsAndZone(s).Some? && IsCivil(c)
    requires var (second, milli, _) := ReadSecondsAndZone(s).value; c.second == second && c.milli == milli
    ensures var z := ReadSecondsAndZone(s).value.2;
            && IsZone(z) && !p.NoTime?
            && (p.Minutes? ==> c.second == c.milli == 0 && s == ZoneText(z))
            && (p.Seconds? ==> AllDigits(p.fraction) && FractionMillis(p.fraction) == c.milli
                               && s == Part(0x3A, c.second) + (FractionText(p.fraction) + ZoneText(z)))
  {
    if ReadPart(0x3A, s).None? {
      p := Minutes;
      ZoneBack(s);
    } else {
      PartBack(0x3A, s);
      var f := FractionBack(ReadPart(0x3A, s).value.1);
      p := Seconds(f);
    }
  }

  lemma TimeBack(s: Text, c: Civil, z: Zone) returns (p: TimePart)
    requires ReadTime(s, c.year, c.month, c.day) == Some((c, z)) && IsCivil(c)
    ensures IsZone(z) && Suffices(c, FullDate, p, z) && s == TimeText(c, p, z)
  {
    if s == [] {
      p := NoTime;
    } else {
      PartBack(0x54, s);
      var rest := ReadPart(0x54, s).value.1;
      PartBack(0x3A, rest);
      p := SecondsBack(ReadPart(0x3A, rest).value.1, c);
    }
  }

  lemma DateBack(s: Text, c: Civil) returns (d: DatePart)
    requires IsCivil(c) && ReadDate(s).0 == c.month && ReadDate(s).1 == c.day
    ensures (d.YearOnly? ==> c.month == 1) && (!d.FullDate? ==> c.day == 1)
    ensures s == DateText(c, d) + ReadDate(s).2
  {
    if ReadPart(0x2D, s).None? {
      d := YearOnly;
    } else {
      PartBack(0x2D, s);
      var rest := ReadPart(0x2D, s).value.1;
      if ReadPart(0x2D, rest).None? {
        d := MonthOnly;
      } else {
        PartBack(0x2D, rest);
        d := FullDate;
        var last := ReadPart(0x2D, rest).value.1;
        assert Part(0x2D, c.month) + (Part(0x2D, c.day) + last) == Part(0x2D, c.month) + Part(0x2D, c.day) + last;
      }
    }
  }

  /** A year in its usual spelling, or one that four digits could hold with a sign and six. */
  function YearSpelling(y: int, long: bool): Text {
    if long && 0 <= y <= 9999 then [0x2B] + PadDecimal(y, 6) else YearText(y)
  }

  lemma YearBack(s: Text) returns (long: bool)
    requires ReadYear(s).Some?
    ensures var (y, rest) := ReadYear(s).value;
            -999_999 <= y <= 999_999 && s == YearSpelling(y, long) + rest
  {
    SmallPowers();
    if s != [] && (s[0] == 0x2B || s[0] == 0x2D) {
      NumberBack(s[1..], 6);
      var (n, rest) := ReadNumber(s[1..], 6).value;
      assert s == [s[0]] + s[1..];
      assert s == [s[0]] + PadDecimal(n, 6) + rest;
      long := true;
    } else {
      NumberBack(s, 4);
      long := false;
    }
  }

  /** `s` spells the instant `t`. */
  ghost predicate Spells(s: Text, t: Instant) {
    exists c, d, p, z, long ::
      && IsZone(z) && IsCivil(c) && MillisOf(c) == t + ZoneMillis(z) && Suffices(c, d, p, z)
      && s == YearSpelling(c.year, long) + (DateText(c, d) + TimeText(c, p, z))
  }

  lemma AfterYearBack(s: Text, c: Civil, z: Zone) returns (d: DatePart, p: TimePart)
    requires IsCivil(c) && ReadDate(s).0 == c.month && ReadDate(s).1 == c.day
    requires ReadTime(ReadDate(s).2, c.year, c.month, c.day) == Some((c, z))
    ensures IsZone(z) && Suffices(c, d, p, z) && s == DateText(c, d) + TimeText(c, p, z)
  {
    d := DateBack(s, c);
    p := TimeBack(ReadDate(s).2, c, z);
  }

  lemma TimeKeepsDate(s: Text, year: int, month: nat, day: nat)
    ensures ReadTime(s, year, month, day).Some? ==>
              var c := ReadTime(s, year, month, day).value.0; c.year == year && c.month == month && c.day == day
  {
  }

  lemma ReadTextIsSpelt(s: Text, c: Civil, z: Zone) returns (d: DatePart, p: TimePart, long: bool)
    requires ReadTimestamp(s) == Some((c, z)) && IsCivil(c)
    ensures IsZone(z) && Suffices(c, d, p, z)
    ensures s == YearSpelling(c.year, long) + (DateText(c, d) + TimeText(c, p, z))
  {
    long := YearBack(s);
    var (year, rest) := ReadYear(s).value;
    var (month, day, time) := ReadDate(rest);
    TimeKeepsDate(time, year, month, day);
    d, p := AfterYearBack(rest, c, z);
  }

  lemma SpeltTextIsRead(s: Text, c: Civil, d: DatePart, p: TimePart, z: Zone, long: bool)
    requires IsCivil(c) && IsZone(z) && Suffices(c, d, p, z) && -999_999 <= c.year <= 999_999
    requires s == YearSpelling(c.year, long) + (DateText(c, d) + TimeText(c, p, z))
    ensures ReadTimestamp(s) == Some((c, z))
  {
    var time := TimeText(c, p, z);
    if long && 0 <= c.year <= 9999 {
      ReadsSignedYear(0x2B, c.year, DateText(c, d) + time);
    } else {
      ReadsYear(c.year, DateText(c, d) + time);
    }
    ReadsDate(c, d, time);
    ReadsTime(c, d, p, z);
  }

  /** A text is read as an instant exactly when it spells it. */
  lemma ReadsExactly(s: Text, t: Instant)
    ensures ParseTimestamp(s) == Some(t) <==> Spells(s, t)
  {
    if ParseTimestamp(s) == Some(t) {
      var (c, z) := ReadTimestamp(s).value;
      var d, p, long := ReadTextIsSpelt(s, c, z);
      assert Spells(s, t);
    }
    if Spells(s, t) {
      var c, d, p, z, long :|
        && IsZone(z) && IsCivil(c) && MillisOf(c) == t + ZoneMillis(z) && Suffices(c, d, p, z)
        && s == YearSpelling(c.year, long) + (DateText(c, d) + TimeText(c, p, z));
      YearBounds(c);
      SpeltTextIsRead(s, c, d, p, z, long);
      ParsesRead(s, c, z);
      ToInstantOf(t, c, z);
    }
  }
}
