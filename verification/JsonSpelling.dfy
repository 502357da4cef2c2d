/**
 Which of the many spellings of a JSON value `JSON.stringify` prints: strings as
 short as any spelling can be, unpaired surrogates escaped, values joined without
 white space.
 */
module JsonSpelling {
  import opened Text
  import opened Json
  import opened JsonText
  import opened Utf8

  // ---------------------------------------------------------------------------
  // Code units
  // ---------------------------------------------------------------------------

  /** The code unit of a character. */
  function Unit(c: char): CodeUnit
    requires c < 128 as char
  {
    c as int
  }

  /** `\u` and four small hexadecimal digits. */
  ghost predicate IsHexEscape(t: Text, u: CodeUnit) {
    && |t| == 6 && t[0] == Unit('\\') && t[1] == Unit('u')
    && (forall i :: 2 <= i < 6 ==> t[i] in Ascii("0123456789abcdef"))
    && ReadEscape(t[1..]) == Got(u, [])
  }

  lemma UnicodeEscapeForm(u: CodeUnit)
    ensures IsHexEscape(UnicodeEscape(u), u)
  {
    var t := UnicodeEscape(u);
    ReadsUnicodeEscape(u, []);
    assert t[1..] + [] == t[1..];
    HexAlphabet();
    var hex := Ascii("0123456789abcdef");
    forall d | 0 <= d < 16 ensures HexDigit(d) in hex {
      assert hex[d] == HexDigit(d);
    }
  }

  /** The two-unit escapes. */
  lemma ShortEscapes()
    ensures Escape(Unit('"')) == Ascii("\\\"") && Escape(Unit('\\')) == Ascii("\\\\")
    ensures Escape(Unit('\n')) == Ascii("\\n") && Escape(Unit('\r')) == Ascii("\\r")
    ensures Escape(Unit('\t')) == Ascii("\\t")
    ensures Escape(8) == Ascii("\\b") && Escape(12) == Ascii("\\f")
  {
  }

  /** The other control characters and the surrogates are spelled in hexadecimal, everything else by itself. */
  lemma LongEscapes(u: CodeUnit)
    ensures (u < 32 && u !in {8, 9, 10, 12, 13}) || 0xD800 <= u <= 0xDFFF ==> IsHexEscape(Escape(u), u)
    ensures 32 <= u && u != Unit('"') && u != Unit('\\') && !(0xD800 <= u <= 0xDFFF) ==> Escape(u) == [u]
  {
    UnicodeEscapeForm(u);
  }

  // ---------------------------------------------------------------------------
  // Strings
  // ---------------------------------------------------------------------------

  /** The fewest units any spelling of a code unit takes. */
  function LeastCost(u: CodeUnit): nat {
    if u in {8, 9, 10, 12, 13, 34, 92} then 2 else if u < 32 then 6 else 1
  }

  function Cost(s: Text): nat {
    if s == [] then 0 else LeastCost(s[0]) + Cost(s[1..])
  }

  lemma EscapeCost(t: Text)
    ensures ReadEscape(t).Got? ==> |t| + 1 >= LeastCost(ReadEscape(t).value) + |ReadEscape(t).rest|
  {
  }

  /** Whatever spells a string takes at least that much. */
  lemma {:induction false} ReadingCosts(t: Text)
    ensures ReadUnits(t).Got? ==> |t| >= Cost(ReadUnits(t).value) + 1 + |ReadUnits(t).rest|
    decreases |t|
  {
    if ReadUnits(t).Got? && t[0] != 0x22 {
      var s := ReadUnits(t).value;
      if t[0] == 0x5C {
        EscapeCost(t[1..]);
        ReadingCosts(ReadEscape(t[1..]).rest);
        assert s[1..] == ReadUnits(ReadEscape(t[1..]).rest).value;
      } else {
        ReadingCosts(t[1..]);
        assert s[1..] == ReadUnits(t[1..]).value;
      }
    }
  }

  lemma EscapeSize(u: CodeUnit)
    ensures !IsHighSurrogate(u) && !IsLowSurrogate(u) ==> |Escape(u)| == LeastCost(u)
  {
  }

  /** Well-formed text is printed at that cost. */
  lemma {:induction false} PrintingCosts(s: Text)
    requires WellFormed(s)
    ensures |QuoteUnits(s)| == Cost(s)
  {
    if s != [] {
      if StartsWithPair(s) {
        PrintingCosts(s[2..]);
        assert s[1..][1..] == s[2..];
      } else {
        PrintingCosts(s[1..]);
        EscapeSize(s[0]);
      }
    }
  }

  /** Only a text that opens with a quote reads as a string. */
  lemma OpensWithQuote(t: Text, s: Text)
    requires ReadValue(t) == Got(String(s), [])
    ensures t != [] && t[0] == 0x22 && ReadUnits(t[1..]) == Got(s, [])
  {
    if t != [] && t[0] != 0x22 && t[0] != 0x5B && t[0] != 0x7B {
      assert ReadValue(t) == ReadScalar(t);
      ScalarIsNoString(t);
    }
  }

  lemma ScalarIsNoString(t: Text)
    ensures ReadScalar(t).Got? ==> !ReadScalar(t).value.String?
  {
  }

  /** No text that reads as a well-formed string is shorter than the printed one. */
  lemma StringShortest(s: Text, t: Text)
    requires WellFormed(s) && ReadValue(t) == Got(String(s), [])
    ensures |Stringify(String(s))| <= |t|
  {
    OpensWithQuote(t, s);
    LiteralShortest(s, t[1..]);
    LiteralNames(s);
  }

  lemma LiteralShortest(s: Text, t: Text)
    requires WellFormed(s) && ReadUnits(t) == Got(s, [])
    ensures |QuoteUnits(s)| < |t|
  {
    PrintingCosts(s);
    ReadingCosts(t);
  }

  /** The two units of a character outside the basic plane stay as they are. */
  lemma PairStays(s: Text)
    requires |s| > 1 && 0xD800 <= s[0] <= 0xDBFF && 0xDC00 <= s[1] <= 0xDFFF
    ensures QuoteUnits(s) == s[..2] + QuoteUnits(s[2..])
  {
  }

  /** Any other unit is spelled on its own, hence a surrogate without its partner in hexadecimal. */
  lemma UnitByUnit(s: Text)
    requires s != [] && !(0xD800 <= s[0] <= 0xDBFF && |s| > 1 && 0xDC00 <= s[1] <= 0xDFFF)
    ensures QuoteUnits(s) == Escape(s[0]) + QuoteUnits(s[1..])
  {
  }

  // ---------------------------------------------------------------------------
  // Other values
  // ---------------------------------------------------------------------------

  /** `parts.join(',')`. */
  function Join(parts: seq<Text>): Text {
    if parts == [] then []
    else if |parts| == 1 then parts[0]
    else parts[0] + Ascii(",") + Join(parts[1..])
  }

  function ItemTexts(items: seq<Json>): seq<Text> {
    seq(|items|, i requires 0 <= i < |items| => Stringify(items[i]))
  }

  function MemberTexts(fs: seq<Field>): seq<Text> {
    seq(|fs|, i requires 0 <= i < |fs| => Stringify(String(fs[i].key)) + Ascii(":") + Stringify(fs[i].value))
  }

  lemma JoinStep(texts: seq<Text>, end: Text)
    requires |texts| > 1
    ensures Join(texts) + end == texts[0] + ([0x2C] + (Join(texts[1..]) + end))
  {
    assert Ascii(",") == [0x2C];
    FourParts(texts[0], [0x2C], Join(texts[1..]), end);
  }

  lemma FourParts(a: Text, b: Text, c: Text, d: Text)
    ensures a + b + c + d == a + (b + (c + d))
  {
  }

  lemma MemberText(f: Field)
    ensures Member(f) == Stringify(String(f.key)) + Ascii(":") + Stringify(f.value)
  {
  }

  lemma FieldsTailIs(fs: seq<Field>)
    requires fs != []
    ensures FieldsTail(fs) == [0x2C] + (Member(fs[0]) + FieldsTail(fs[1..]))
  {
  }

  lemma {:induction false} ItemsJoin(items: seq<Json>)
    requires items != []
    ensures Stringify(items[0]) + ItemsTail(items[1..]) == Join(ItemTexts(items)) + Ascii("]")
  {
    var texts := ItemTexts(items);
    if |items| > 1 {
      var rest := items[1..];
      assert texts[1..] == ItemTexts(rest);
      ItemsJoin(rest);
      assert ItemsTail(rest) == [0x2C] + (Stringify(rest[0]) + ItemsTail(rest[1..]));
      JoinStep(texts, Ascii("]"));
    }
  }

  lemma {:induction false} MembersJoin(fs: seq<Field>)
    requires fs != []
    ensures Member(fs[0]) + FieldsTail(fs[1..]) == Join(MemberTexts(fs)) + Ascii("}")
  {
    var texts := MemberTexts(fs);
    MemberText(fs[0]);
    if |fs| > 1 {
      var rest := fs[1..];
      assert texts[1..] == MemberTexts(rest);
      MembersJoin(rest);
      FieldsTailIs(rest);
      JoinStep(texts, Ascii("}"));
    }
  }

  lemma LiteralNames(s: Text)
    ensures Stringify(Null) == Ascii("null")
    ensures Stringify(Bool(true)) == Ascii("true") && Stringify(Bool(false)) == Ascii("false")
    ensures Stringify(String(s)) == Ascii("\"") + QuoteUnits(s) + Ascii("\"")
  {
  }

  /** Commas and brackets, and nothing between them. */
  lemma ArrayLayout(items: seq<Json>)
    ensures Stringify(Array(items)) == Ascii("[") + Join(ItemTexts(items)) + Ascii("]")
  {
    if items != [] {
      ItemsJoin(items);
      assert Stringify(Array(items)) == [0x5B] + (Stringify(items[0]) + ItemsTail(items[1..]));
    }
  }

  /** Commas, colons and braces, and nothing between them. */
  lemma ObjectLayout(fs: seq<Field>)
    ensures Stringify(Object(fs)) == Ascii("{") + Join(MemberTexts(fs)) + Ascii("}")
  {
    if fs != [] {
      MembersJoin(fs);
      assert Stringify(Object(fs)) == [0x7B] + (Member(fs[0]) + FieldsTail(fs[1..]));
    }
  }
}
