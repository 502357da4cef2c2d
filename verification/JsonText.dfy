/**
 `JSON.stringify` without indentation (section 25.5.2 of ECMA-262, 13th
 edition), a reader for the compact texts it produces (section 7 of RFC 8259),
 and the proof that reading undoes printing.
 */
module JsonText {
  import opened Text
  import opened Json

  // ---------------------------------------------------------------------------
  // Printing
  // ---------------------------------------------------------------------------

  predicate IsHighSurrogate(u: CodeUnit) {
    0xD800 <= u <= 0xDBFF
  }

  predicate IsLowSurrogate(u: CodeUnit) {
    0xDC00 <= u <= 0xDFFF
  }

  function UnicodeEscape(u: CodeUnit): (t: Text)
    ensures |t| == 6
  {
    [0x5C, 0x75, HexDigit(u / 0x1000), HexDigit(u / 0x100 % 0x10), HexDigit(u / 0x10 % 0x10), HexDigit(u % 0x10)]
  }

  /** One code unit of a string literal; a surrogate that reaches here is unpaired. */
  function Escape(u: CodeUnit): (t: Text)
    ensures |t| > 0
  {
    if u == 0x08 then [0x5C, 0x62]
    else if u == 0x09 then [0x5C, 0x74]
    else if u == 0x0A then [0x5C, 0x6E]
    else if u == 0x0C then [0x5C, 0x66]
    else if u == 0x0D then [0x5C, 0x72]
    else if u == 0x22 then [0x5C, 0x22]
    else if u == 0x5C then [0x5C, 0x5C]
    else if u < 0x20 || IsHighSurrogate(u) || IsLowSurrogate(u) then UnicodeEscape(u)
    else [u]
  }

  function QuoteUnits(s: Text): Text {
    if s == [] then []
    else if StartsWithPair(s) then [s[0], s[1]] + QuoteUnits(s[2..])
    else Escape(s[0]) + QuoteUnits(s[1..])
  }

  function Quote(s: Text): Text {
    [0x22] + QuoteUnits(s) + [0x22]
  }

  function Stringify(v: Json): Text
    decreases v, 3
  {
    match v
    case Null => NULL
    case Bool(b) => if b then TRUE else FALSE
    case Number(t) => t
    case String(s) => Quote(s)
    case Array(items) =>
      if items == [] then [0x5B, 0x5D]
      else [0x5B] + Stringify(items[0]) + ItemsTail(items[1..])
    case Object(fs) =>
      if fs == [] then [0x7B, 0x7D]
      else [0x7B] + Member(fs[0]) + FieldsTail(fs[1..])
  }

  function ItemsTail(items: seq<Json>): (t: Text)
    ensures t != [] && !IsNumberUnit(t[0])
    decreases items, 2
  {
    if items == [] then [0x5D] else [0x2C] + Stringify(items[0]) + ItemsTail(items[1..])
  }

  function FieldsTail(fs: seq<Field>): (t: Text)
    ensures t != [] && !IsNumberUnit(t[0])
    decreases fs, 2
  {
    if fs == [] then [0x7D] else [0x2C] + Member(fs[0]) + FieldsTail(fs[1..])
  }

  function Member(f: Field): Text
    decreases f, 4
  {
    Quote(f.key) + [0x3A] + Stringify(f.value)
  }

  const NULL: Text := Ascii("null")
  const TRUE: Text := Ascii("true")
  const FALSE: Text := Ascii("false")

  // ---------------------------------------------------------------------------
  // Reading
  // ---------------------------------------------------------------------------

  datatype Reading<+T> = Fail | Got(value: T, rest: Text)

  function HexNibble(u: CodeUnit): (d: Option<nat>)
    ensures d.Some? ==> d.value < 16
  {
    if 0x30 <= u <= 0x39 then Some(u - 0x30)
    else if 0x61 <= u <= 0x66 then Some(u - 0x61 + 10)
    else if 0x41 <= u <= 0x46 then Some(u - 0x41 + 10)
    else None
  }

  /** The escape sequence after a reverse solidus. */
  function ReadEscape(s: Text): (r: Reading<CodeUnit>)
    ensures r.Got? ==> |r.rest| < |s|
  {
    if s == [] then Fail
    else if s[0] == 0x22 || s[0] == 0x5C || s[0] == 0x2F then Got(s[0], s[1..])
    else if s[0] == 0x62 then Got(0x08, s[1..])
    else if s[0] == 0x66 then Got(0x0C, s[1..])
    else if s[0] == 0x6E then Got(0x0A, s[1..])
    else if s[0] == 0x72 then Got(0x0D, s[1..])
    else if s[0] == 0x74 then Got(0x09, s[1..])
    else if s[0] == 0x75 && |s| >= 5 then
      match (HexNibble(s[1]), HexNibble(s[2]), HexNibble(s[3]), HexNibble(s[4]))
      case (Some(a), Some(b), Some(c), Some(d)) => Got(((a * 16 + b) * 16 + c) * 16 + d, s[5..])
      case _ => Fail
    else Fail
  }

  /** The rest of a string literal, up to and including its closing quote. */
  function ReadUnits(s: Text): (r: Reading<Text>)
    ensures r.Got? ==> |r.rest| < |s|
    decreases |s|
  {
    if s == [] then Fail
    else if s[0] == 0x22 then Got([], s[1..])
    else if s[0] == 0x5C then
      match ReadEscape(s[1..])
      case Fail => Fail
      case Got(u, rest) =>
        (match ReadUnits(rest)
         case Fail => Fail
         case Got(t, rest') => Got([u] + t, rest'))
    else if s[0] < 0x20 then Fail
    else
      match ReadUnits(s[1..])
      case Fail => Fail
      case Got(t, rest) => Got([s[0]] + t, rest)
  }

  function NumberLength(s: Text): (n: nat)
    ensures n <= |s|
  {
    if s == [] || !IsNumberUnit(s[0]) then 0 else 1 + NumberLength(s[1..])
  }

  /** null, true, false or a number. */
  function ReadScalar(s: Text): (r: Reading<Json>)
    ensures r.Got? ==> |r.rest| < |s|
  {
    if s == [] then Fail
    else if IsDigit(s[0]) || s[0] == 0x2D then Got(Number(s[..NumberLength(s)]), s[NumberLength(s)..])
    else if NULL <= s then Got(Null, s[|NULL|..])
    else if TRUE <= s then Got(Bool(true), s[|TRUE|..])
    else if FALSE <= s then Got(Bool(false), s[|FALSE|..])
    else Fail
  }

  function ReadValue(s: Text): (r: Reading<Json>)
    ensures r.Got? ==> |r.rest| < |s|
    decreases |s|, 1
  {
    if s == [] then Fail
    else if s[0] == 0x22 then ReadString(s[1..])
    else if s[0] == 0x5B then ReadArray(s[1..])
    else if s[0] == 0x7B then ReadObject(s[1..])
    else ReadScalar(s)
  }

  function ReadString(s: Text): (r: Reading<Json>)
    ensures r.Got? ==> |r.rest| < |s|
  {
    match ReadUnits(s)
    case Fail => Fail
    case Got(t, rest) => Got(String(t), rest)
  }

  function ReadArray(s: Text): (r: Reading<Json>)
    ensures r.Got? ==> |r.rest| < |s|
    decreases |s|, 2
  {
    if s != [] && s[0] == 0x5D then Got(Array([]), s[1..])
    else
      match ReadValue(s)
      case Fail => Fail
      case Got(v, rest) =>
        match ReadItems(rest)
        case Fail => Fail
        case Got(vs, rest') => Got(Array([v] + vs), rest')
  }

  function ReadObject(s: Text): (r: Reading<Json>)
    ensures r.Got? ==> |r.rest| < |s|
    decreases |s|, 2
  {
    if s != [] && s[0] == 0x7D then Got(Object([]), s[1..])
    else
      match ReadMember(s)
      case Fail => Fail
      case Got(f, rest) =>
        match ReadFields(rest)
        case Fail => Fail
        case Got(fs, rest') => Got(Object([f] + fs), rest')
  }

  function ReadItems(s: Text): (r: Reading<seq<Json>>)
    ensures r.Got? ==> |r.rest| < |s|
    decreases |s|, 0
  {
    if s == [] then Fail
    else if s[0] == 0x5D then Got([], s[1..])
    else if s[0] == 0x2C then
      match ReadValue(s[1..])
      case Fail => Fail
      case Got(v, rest) =>
        (match ReadItems(rest)
         case Fail => Fail
         case Got(vs, rest') => Got([v] + vs, rest'))
    else Fail
  }

  function ReadFields(s: Text): (r: Reading<seq<Field>>)
    ensures r.Got? ==> |r.rest| < |s|
    decreases |s|, 0
  {
    if s == [] then Fail
    else if s[0] == 0x7D then Got([], s[1..])
    else if s[0] == 0x2C then
      match ReadMember(s[1..])
      case Fail => Fail
      case Got(f, rest) =>
        (match ReadFields(rest)
         case Fail => Fail
         case Got(fs, rest') => Got([f] + fs, rest'))
    else Fail
  }

  function ReadMember(s: Text): (r: Reading<Field>)
    ensures r.Got? ==> |r.rest| < |s|
    decreases |s|, 0
  {
    if s == [] || s[0] != 0x22 then Fail
    else
      match ReadUnits(s[1..])
      case Fail => Fail
      case Got(key, rest) =>
        if rest == [] || rest[0] != 0x3A then Fail
        else
          match ReadValue(rest[1..])
          case Fail => Fail
          case Got(v, rest') => Got(Field(key, v), rest')
  }

  // ---------------------------------------------------------------------------
  // Reading undoes printing
  // ---------------------------------------------------------------------------

  lemma HexNibbleOfDigit(d: int)
    requires 0 <= d < 16
    ensures HexNibble(HexDigit(d)) == Some(d)
  {
  }

  lemma NibblesOfUnit(u: CodeUnit)
    ensures ((u / 0x1000 * 16 + u / 0x100 % 0x10) * 16 + u / 0x10 % 0x10) * 16 + u % 0x10 == u
  {
    assert u / 0x100 / 0x10 == u / 0x1000;
    assert u / 0x10 / 0x10 == u / 0x100;
  }

  lemma ReadsHex(a: int, b: int, c: int, d: int, tail: Text)
    requires 0 <= a < 16 && 0 <= b < 16 && 0 <= c < 16 && 0 <= d < 16
    ensures ReadEscape([0x75, HexDigit(a), HexDigit(b), HexDigit(c), HexDigit(d)] + tail)
            == Got(((a * 16 + b) * 16 + c) * 16 + d, tail)
  {
    var e := [0x75, HexDigit(a), HexDigit(b), HexDigit(c), HexDigit(d)] + tail;
    HexNibbleOfDigit(a);
    HexNibbleOfDigit(b);
    HexNibbleOfDigit(c);
    HexNibbleOfDigit(d);
    assert e[5..] == tail;
  }

  lemma ReadsUnicodeEscape(u: CodeUnit, tail: Text)
    ensures ReadEscape(UnicodeEscape(u)[1..] + tail) == Got(u, tail)
  {
    var a, b, c, d := u / 0x1000, u / 0x100 % 0x10, u / 0x10 % 0x10, u % 0x10;
    assert UnicodeEscape(u)[1..] == [0x75, HexDigit(a), HexDigit(b), HexDigit(c), HexDigit(d)];
    ReadsHex(a, b, c, d, tail);
    NibblesOfUnit(u);
  }

  lemma ReadsEscape(u: CodeUnit, tail: Text)
    requires Escape(u) != [u]
    ensures Escape(u)[0] == 0x5C
    ensures ReadEscape(Escape(u)[1..] + tail) == Got(u, tail)
  {
    if Escape(u) == UnicodeEscape(u) {
      ReadsUnicodeEscape(u, tail);
    } else {
      var e := Escape(u)[1..] + tail;
      assert |Escape(u)| == 2 && e == [Escape(u)[1]] + tail;
      assert e[1..] == tail;
    }
  }

  /** One raw unit of a literal is read as itself. */
  lemma ReadsRaw(u: CodeUnit, tail: Text, s: Text, rest: Text)
    requires u >= 0x20 && u != 0x22 && u != 0x5C
    requires ReadUnits(tail) == Got(s, rest)
    ensures ReadUnits([u] + tail) == Got([u] + s, rest)
  {
    assert ([u] + tail)[1..] == tail;
  }

  lemma EscapeCases(u: CodeUnit)
    ensures Escape(u) == [u] ==> u >= 0x20 && u != 0x22 && u != 0x5C
    ensures u >= 0x20 && u != 0x22 && u != 0x5C && !IsHighSurrogate(u) && !IsLowSurrogate(u) ==> Escape(u) == [u]
  {
  }

  /** One unit printed on its own is read back, whatever it needed. */
  lemma ReadsUnit(u: CodeUnit, tail: Text, s: Text, rest: Text)
    requires ReadUnits(tail) == Got(s, rest)
    ensures ReadUnits(Escape(u) + tail) == Got([u] + s, rest)
  {
    if Escape(u) == [u] {
      EscapeCases(u);
      ReadsRaw(u, tail, s, rest);
    } else {
      ReadsEscape(u, tail);
      assert (Escape(u) + tail)[1..] == Escape(u)[1..] + tail;
    }
  }

  predicate StartsWithPair(s: Text) {
    |s| >= 2 && IsHighSurrogate(s[0]) && IsLowSurrogate(s[1])
  }

  lemma ConcatAssociative(a: Text, b: Text, c: Text)
    ensures a + b + c == a + (b + c)
  {
  }

  lemma QuoteUnitsSplit(s: Text, end: Text)
    requires s != []
    ensures StartsWithPair(s) ==> QuoteUnits(s) + end == [s[0], s[1]] + (QuoteUnits(s[2..]) + end)
    ensures !StartsWithPair(s) ==> QuoteUnits(s) + end == Escape(s[0]) + (QuoteUnits(s[1..]) + end)
  {
    if StartsWithPair(s) {
      ConcatAssociative([s[0], s[1]], QuoteUnits(s[2..]), end);
    } else {
      ConcatAssociative(Escape(s[0]), QuoteUnits(s[1..]), end);
    }
  }

  lemma ReadsEnd(rest: Text)
    ensures ReadUnits(QuoteUnits([]) + ([0x22] + rest)) == Got([], rest)
  {
    assert QuoteUnits([]) + ([0x22] + rest) == [0x22] + rest;
    assert ([0x22] + rest)[1..] == rest;
  }

  lemma {:induction false} ReadsUnits(s: Text, rest: Text)
    ensures ReadUnits(QuoteUnits(s) + ([0x22] + rest)) == Got(s, rest)
    decreases |s|
  {
    if s == [] {
      ReadsEnd(rest);
    } else {
      QuoteUnitsSplit(s, [0x22] + rest);
      if StartsWithPair(s) {
        ReadsUnits(s[2..], rest);
        ReadsPair(s, QuoteUnits(s[2..]) + ([0x22] + rest), rest);
      } else {
        ReadsUnits(s[1..], rest);
        ReadsUnit(s[0], QuoteUnits(s[1..]) + ([0x22] + rest), s[1..], rest);
        assert s == [s[0]] + s[1..];
      }
    }
  }

  lemma ReadsPair(s: Text, tail: Text, rest: Text)
    requires StartsWithPair(s)
    requires ReadUnits(tail) == Got(s[2..], rest)
    ensures ReadUnits([s[0], s[1]] + tail) == Got(s, rest)
  {
    ReadsRaw(s[1], tail, s[2..], rest);
    ReadsRaw(s[0], [s[1]] + tail, [s[1]] + s[2..], rest);
    assert [s[0]] + ([s[1]] + tail) == [s[0], s[1]] + tail;
    assert s == [s[0]] + ([s[1]] + s[2..]);
  }

  lemma {:induction false} NumberLengthOf(t: Text, rest: Text)
    requires forall i :: 0 <= i < |t| ==> IsNumberUnit(t[i])
    requires rest == [] || !IsNumberUnit(rest[0])
    ensures NumberLength(t + rest) == |t|
  {
    if t == [] {
      assert t + rest == rest;
    } else {
      assert (t + rest)[1..] == t[1..] + rest;
      NumberLengthOf(t[1..], rest);
    }
  }

  lemma ReadsScalar(v: Json, rest: Text)
    requires Valid(v) && (v.Null? || v.Bool? || v.Number?)
    requires rest == [] || !IsNumberUnit(rest[0])
    ensures ReadValue(Stringify(v) + rest) == Got(v, rest)
  {
    var s := Stringify(v) + rest;
    if v.Number? {
      NumberLengthOf(v.digits, rest);
    }
    assert s[..|Stringify(v)|] == Stringify(v) && s[|Stringify(v)|..] == rest;
    assert ReadValue(s) == ReadScalar(s);
  }

  lemma ReadsString(t: Text, rest: Text)
    ensures ReadUnits((Quote(t) + rest)[1..]) == Got(t, rest)
    ensures ReadValue(Quote(t) + rest) == Got(String(t), rest)
  {
    ReadsUnits(t, rest);
    assert (Quote(t) + rest)[1..] == QuoteUnits(t) + ([0x22] + rest);
  }

  /** Reading a printed value gives the value back and leaves what follows it. */
  lemma {:induction false} ReadsValue(v: Json, rest: Text)
    requires Valid(v)
    requires rest == [] || !IsNumberUnit(rest[0])
    ensures ReadValue(Stringify(v) + rest) == Got(v, rest)
    decreases v, 4
  {
    match v
    case String(t) => ReadsString(t, rest);
    case Array(items) =>
      ReadsArray(items, rest);
      ReadsBracket(0x5B, Stringify(v), rest);
    case Object(fs) =>
      ReadsObject(fs, rest);
      ReadsBracket(0x7B, Stringify(v), rest);
    case _ => ReadsScalar(v, rest);
  }

  lemma ReadsBracket(open: CodeUnit, t: Text, rest: Text)
    requires t != [] && t[0] == open
    ensures open == 0x5B ==> ReadValue(t + rest) == ReadArray(t[1..] + rest)
    ensures open == 0x7B ==> ReadValue(t + rest) == ReadObject(t[1..] + rest)
  {
    assert (t + rest)[1..] == t[1..] + rest;
  }

  lemma {:induction false} ReadsArray(items: seq<Json>, rest: Text)
    requires forall i :: 0 <= i < |items| ==> Valid(items[i])
    ensures ReadArray(Stringify(Array(items))[1..] + rest) == Got(Array(items), rest)
    decreases items, 3
  {
    var s := Stringify(Array(items))[1..] + rest;
    if items == [] {
      assert s == [0x5D] + rest && s[1..] == rest;
    } else {
      var tail := ItemsTail(items[1..]) + rest;
      assert s == Stringify(items[0]) + tail;
      ReadsValue(items[0], tail);
      StringifyHead(items[0]);
      ReadsItems(items[1..], rest);
      assert items == [items[0]] + items[1..];
    }
  }

  lemma {:induction false} ReadsItems(items: seq<Json>, rest: Text)
    requires forall i :: 0 <= i < |items| ==> Valid(items[i])
    ensures ReadItems(ItemsTail(items) + rest) == Got(items, rest)
    decreases items, 2
  {
    var s := ItemsTail(items) + rest;
    if items == [] {
      assert s[1..] == rest;
    } else {
      var tail := ItemsTail(items[1..]) + rest;
      assert s[1..] == Stringify(items[0]) + tail;
      ReadsValue(items[0], tail);
      ReadsItems(items[1..], rest);
      assert items == [items[0]] + items[1..];
    }
  }

  lemma {:induction false} ReadsObject(fs: seq<Field>, rest: Text)
    requires forall i :: 0 <= i < |fs| ==> Valid(fs[i].value)
    ensures ReadObject(Stringify(Object(fs))[1..] + rest) == Got(Object(fs), rest)
    decreases fs, 3
  {
    var s := Stringify(Object(fs))[1..] + rest;
    if fs == [] {
      assert s == [0x7D] + rest && s[1..] == rest;
    } else {
      var tail := FieldsTail(fs[1..]) + rest;
      assert s == Member(fs[0]) + tail;
      assert ReadMember(s) == Got(fs[0], tail) by { ReadsMember(fs[0], tail); }
      assert ReadFields(tail) == Got(fs[1..], rest) by { ReadsFields(fs[1..], rest); }
      assert fs == [fs[0]] + fs[1..];
    }
  }

  lemma {:induction false} ReadsFields(fs: seq<Field>, rest: Text)
    requires forall i :: 0 <= i < |fs| ==> Valid(fs[i].value)
    ensures ReadFields(FieldsTail(fs) + rest) == Got(fs, rest)
    decreases fs, 2
  {
    var s := FieldsTail(fs) + rest;
    if fs == [] {
      assert s[1..] == rest;
    } else {
      var tail := FieldsTail(fs[1..]) + rest;
      assert s[1..] == Member(fs[0]) + tail;
      assert ReadMember(s[1..]) == Got(fs[0], tail) by { ReadsMember(fs[0], tail); }
      assert ReadFields(tail) == Got(fs[1..], rest) by { ReadsFields(fs[1..], rest); }
      assert fs == [fs[0]] + fs[1..];
    }
  }

  lemma {:induction false} ReadsMember(f: Field, rest: Text)
    requires Valid(f.value)
    requires rest == [] || !IsNumberUnit(rest[0])
    ensures ReadMember(Member(f) + rest) == Got(f, rest)
    decreases f, 5
  {
    var after := [0x3A] + (Stringify(f.value) + rest);
    assert Member(f) + rest == Quote(f.key) + after;
    ReadsString(f.key, after);
    assert after[1..] == Stringify(f.value) + rest;
    ReadsValue(f.value, rest);
  }

  /** No printed value begins with a closing bracket. */
  lemma StringifyHead(v: Json)
    requires Valid(v)
    ensures Stringify(v) != [] && Stringify(v)[0] != 0x5D
  {
  }

  /** A whole text read as one value, with nothing left over. */
  function Parse(s: Text): Option<Json> {
    match ReadValue(s)
    case Got(v, rest) => if rest == [] then Some(v) else None
    case Fail => None
  }

  lemma ParseStringify(v: Json)
    requires Valid(v)
    ensures Parse(Stringify(v)) == Some(v)
  {
    ReadsValue(v, []);
    assert Stringify(v) + [] == Stringify(v);
  }

  /** Printing is unambiguous. */
  lemma StringifyInjective(a: Json, b: Json)
    requires Valid(a) && Valid(b) && Stringify(a) == Stringify(b)
    ensures a == b
  {
    ParseStringify(a);
    ParseStringify(b);
  }
}
