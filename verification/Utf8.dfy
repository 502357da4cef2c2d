/**
 The `utf8` encoding of Node buffers (section 3 of RFC 3629). A JavaScript
 string may hold unpaired surrogates; UTF-8 cannot, and encoding replaces each
 by U+FFFD.
 */
module Utf8 {
  import opened Text
  import opened JsonText

  const REPLACEMENT: CodeUnit := 0xFFFD

  /** No unpaired surrogate. */
  predicate WellFormed(t: Text) {
    if t == [] then true
    else if StartsWithPair(t) then WellFormed(t[2..])
    else !IsHighSurrogate(t[0]) && !IsLowSurrogate(t[0]) && WellFormed(t[1..])
  }

  /** `t` with each unpaired surrogate replaced. */
  function ToWellFormed(t: Text): (r: Text)
    ensures |r| == |t|
  {
    if t == [] then []
    else if StartsWithPair(t) then [t[0], t[1]] + ToWellFormed(t[2..])
    else [if IsHighSurrogate(t[0]) || IsLowSurrogate(t[0]) then REPLACEMENT else t[0]] + ToWellFormed(t[1..])
  }

  lemma {:induction false} ToWellFormedKeeps(t: Text)
    ensures ToWellFormed(t) == t <==> WellFormed(t)
  {
    if t != [] {
      if StartsWithPair(t) {
        ToWellFormedKeeps(t[2..]);
        assert t == [t[0], t[1]] + t[2..];
        assert ToWellFormed(t)[2..] == ToWellFormed(t[2..]);
      } else {
        ToWellFormedKeeps(t[1..]);
        assert t == [t[0]] + t[1..];
        assert ToWellFormed(t)[1..] == ToWellFormed(t[1..]);
        assert ToWellFormed(t)[0] == t[0] <==> !IsHighSurrogate(t[0]) && !IsLowSurrogate(t[0]);
      }
    }
  }

  /** A code point outside the basic plane, from its surrogate pair. */
  function PairValue(hi: CodeUnit, lo: CodeUnit): (c: int)
    requires IsHighSurrogate(hi) && IsLowSurrogate(lo)
    ensures 0x1_0000 <= c < 0x11_0000
  {
    0x1_0000 + (hi - 0xD800) * 0x400 + (lo - 0xDC00)
  }

  /** One code unit of the basic plane in one, two or three bytes. */
  function EncodeUnit(u: CodeUnit): (b: Bytes)
    ensures 1 <= |b| <= 3
  {
    if u < 0x80 then [u]
    else if u < 0x800 then [0xC0 + u / 0x40, 0x80 + u % 0x40]
    else [0xE0 + u / 0x1000, 0x80 + u / 0x40 % 0x40, 0x80 + u % 0x40]
  }

  function EncodePair(c: int): (b: Bytes)
    requires 0x1_0000 <= c < 0x11_0000
    ensures |b| == 4
  {
    [0xF0 + c / 0x4_0000, 0x80 + c / 0x1000 % 0x40, 0x80 + c / 0x40 % 0x40, 0x80 + c % 0x40]
  }

  function Encode(t: Text): Bytes {
    if t == [] then []
    else if StartsWithPair(t) then EncodePair(PairValue(t[0], t[1])) + Encode(t[2..])
    else EncodeUnit(if IsHighSurrogate(t[0]) || IsLowSurrogate(t[0]) then REPLACEMENT else t[0]) + Encode(t[1..])
  }

  predicate IsContinuation(b: Byte) {
    0x80 <= b < 0xC0
  }

  /** A value extended by the six bits of a continuation byte. */
  function Digits64(high: int, b: Byte): int {
    high * 0x40 + (b - 0x80)
  }

  function Unit(u: CodeUnit): Text {
    [u]
  }

  /** The first encoded character and the number of bytes it takes. */
  function DecodeOne(b: Bytes): (r: Option<(Text, nat)>)
    requires b != []
    ensures r.Some? ==> 0 < r.value.1 <= |b|
  {
    if b[0] < 0x80 then Some((Unit(b[0]), 1))
    else if 0xC2 <= b[0] < 0xE0 && |b| >= 2 && IsContinuation(b[1]) then
      Some((Unit(Digits64(b[0] - 0xC0, b[1])), 2))
    else if 0xE0 <= b[0] < 0xF0 && |b| >= 3 && IsContinuation(b[1]) && IsContinuation(b[2]) then
      var u := Digits64(Digits64(b[0] - 0xE0, b[1]), b[2]);
      if u < 0x800 || 0xD800 <= u < 0xE000 then None else Some((Unit(u), 3))
    else if 0xF0 <= b[0] < 0xF5 && |b| >= 4 && IsContinuation(b[1]) && IsContinuation(b[2]) && IsContinuation(b[3]) then
      var c := Digits64(Digits64(Digits64(b[0] - 0xF0, b[1]), b[2]), b[3]);
      if c < 0x1_0000 || c >= 0x11_0000 then None
      else Some((Unit(0xD800 + (c - 0x1_0000) / 0x400) + Unit(0xDC00 + (c - 0x1_0000) % 0x400), 4))
    else None
  }

  /** The text a well-formed byte sequence encodes; None if it encodes none. */
  function Decode(b: Bytes): Option<Text>
    decreases |b|
  {
    if b == [] then Some([])
    else
      match DecodeOne(b)
      case None => None
      case Some((t, n)) =>
        match Decode(b[n..])
        case None => None
        case Some(rest) => Some(t + rest)
  }

  lemma DecodesUnit(u: CodeUnit, tail: Bytes)
    requires !IsHighSurrogate(u) && !IsLowSurrogate(u)
    ensures DecodeOne(EncodeUnit(u) + tail) == Some(([u], |EncodeUnit(u)|))
  {
    if u >= 0x800 {
      assert u / 0x40 / 0x40 == u / 0x1000;
      assert u / 0x40 * 0x40 + u % 0x40 == u;
    }
  }

  lemma PairBytes(c: int)
    requires 0x1_0000 <= c < 0x11_0000
    ensures 0 <= c / 0x4_0000 < 5
    ensures c / 0x4_0000 * 0x40 + c / 0x1000 % 0x40 == c / 0x1000
    ensures c / 0x1000 * 0x40 + c / 0x40 % 0x40 == c / 0x40
    ensures c / 0x40 * 0x40 + c % 0x40 == c
  {
    assert c / 0x40 / 0x40 == c / 0x1000;
    assert c / 0x1000 / 0x40 == c / 0x4_0000;
  }

  lemma PairUnits(hi: CodeUnit, lo: CodeUnit)
    requires IsHighSurrogate(hi) && IsLowSurrogate(lo)
    ensures 0xD800 + (PairValue(hi, lo) - 0x1_0000) / 0x400 == hi
    ensures 0xDC00 + (PairValue(hi, lo) - 0x1_0000) % 0x400 == lo
  {
  }

  lemma DecodesFour(p: Byte, q: Byte, r: Byte, s: Byte, c: int, tail: Bytes)
    requires 0xF0 <= p < 0xF5 && IsContinuation(q) && IsContinuation(r) && IsContinuation(s)
    requires Digits64(Digits64(Digits64(p - 0xF0, q), r), s) == c && 0x1_0000 <= c < 0x11_0000
    ensures DecodeOne([p, q, r, s] + tail)
            == Some((Unit(0xD800 + (c - 0x1_0000) / 0x400) + Unit(0xDC00 + (c - 0x1_0000) % 0x400), 4))
  {
    var e := [p, q, r, s] + tail;
    assert e[0] == p && e[1] == q && e[2] == r && e[3] == s;
  }

  lemma DecodesPair(hi: CodeUnit, lo: CodeUnit, tail: Bytes)
    requires IsHighSurrogate(hi) && IsLowSurrogate(lo)
    ensures DecodeOne(EncodePair(PairValue(hi, lo)) + tail) == Some(([hi, lo], 4))
  {
    var c := PairValue(hi, lo);
    PairBytes(c);
    PairUnits(hi, lo);
    var p, q, r, s := 0xF0 + c / 0x4_0000, 0x80 + c / 0x1000 % 0x40, 0x80 + c / 0x40 % 0x40, 0x80 + c % 0x40;
    assert EncodePair(c) == [p, q, r, s];
    assert Digits64(p - 0xF0, q) == c / 0x1000;
    assert Digits64(c / 0x1000, r) == c / 0x40;
    assert Digits64(c / 0x40, s) == c;
    DecodesFour(p, q, r, s, c, tail);
    assert Unit(hi) + Unit(lo) == [hi, lo];
  }

  lemma DecodeStep(b: Bytes, t: Text, tail: Bytes, rest: Text)
    requires b != [] && DecodeOne(b + tail) == Some((t, |b|)) && Decode(tail) == Some(rest)
    ensures Decode(b + tail) == Some(t + rest)
  {
    assert (b + tail)[|b|..] == tail;
  }

  /** Decoding an encoding gives the text with its unpaired surrogates replaced. */
  lemma {:induction false} DecodesEncoding(t: Text)
    ensures Decode(Encode(t)) == Some(ToWellFormed(t))
  {
    if t != [] {
      if StartsWithPair(t) {
        DecodesEncoding(t[2..]);
        var b := EncodePair(PairValue(t[0], t[1]));
        DecodesPair(t[0], t[1], Encode(t[2..]));
        DecodeStep(b, [t[0], t[1]], Encode(t[2..]), ToWellFormed(t[2..]));
      } else {
        DecodesEncoding(t[1..]);
        var u := if IsHighSurrogate(t[0]) || IsLowSurrogate(t[0]) then REPLACEMENT else t[0];
        DecodesUnit(u, Encode(t[1..]));
        DecodeStep(EncodeUnit(u), [u], Encode(t[1..]), ToWellFormed(t[1..]));
      }
    }
  }

  // ---------------------------------------------------------------------------
  // Units and bytes, written out
  // ---------------------------------------------------------------------------

  /** The unit at `i` is a surrogate without its partner beside it. */
  predicate IsUnpaired(t: Text, i: nat)
    requires i < |t|
  {
    || (0xD800 <= t[i] <= 0xDBFF && !(i + 1 < |t| && 0xDC00 <= t[i + 1] <= 0xDFFF))
    || (0xDC00 <= t[i] <= 0xDFFF && !(i > 0 && 0xD800 <= t[i - 1] <= 0xDBFF))
  }

  /** Exactly the unpaired surrogates are replaced, each by U+FFFD. */
  lemma {:induction false} ReplacesUnpaired(t: Text, i: nat)
    requires i < |t|
    ensures ToWellFormed(t)[i] == if IsUnpaired(t, i) then 0xFFFD else t[i]
  {
    var n := if StartsWithPair(t) then 2 else 1;
    if i >= n {
      ReplacesUnpaired(t[n..], i - n);
      assert ToWellFormed(t)[n..] == ToWellFormed(t[n..]);
    }
  }

  lemma WellFormedExactly(t: Text)
    ensures WellFormed(t) <==> forall i :: 0 <= i < |t| ==> !IsUnpaired(t, i)
  {
    ToWellFormedKeeps(t);
    forall i | 0 <= i < |t| ensures ToWellFormed(t)[i] == if IsUnpaired(t, i) then 0xFFFD else t[i] {
      ReplacesUnpaired(t, i);
    }
  }

  /** The bits of a unit outside the surrogates: seven, or a lead byte and one or two bytes of six each. */
  lemma UnitBytes(u: CodeUnit)
    ensures var b := EncodeUnit(u);
            && (u < 0x80 ==> b == [u])
            && (0x80 <= u < 0x800 ==>
                  |b| == 2 && 0xC0 <= b[0] < 0xE0 && 0x80 <= b[1] < 0xC0
                  && u == 64 * (b[0] as int - 0xC0) + (b[1] as int - 0x80))
            && (0x800 <= u ==>
                  |b| == 3 && 0xE0 <= b[0] < 0xF0 && 0x80 <= b[1] < 0xC0 && 0x80 <= b[2] < 0xC0
                  && u == 4096 * (b[0] as int - 0xE0) + 64 * (b[1] as int - 0x80) + (b[2] as int - 0x80))
  {
    assert u / 0x40 / 0x40 == u / 0x1000;
  }

  /** A pair stands for one code point in four bytes. */
  lemma PairLayout(hi: CodeUnit, lo: CodeUnit)
    requires 0xD800 <= hi <= 0xDBFF && 0xDC00 <= lo <= 0xDFFF
    ensures var b := EncodePair(PairValue(hi, lo));
            && 0xF0 <= b[0] < 0xF5
            && (forall i :: 1 <= i < 4 ==> 0x80 <= b[i] < 0xC0)
            && 262144 * (b[0] as int - 0xF0) + 4096 * (b[1] as int - 0x80) + 64 * (b[2] as int - 0x80)
               + (b[3] as int - 0x80)
               == 65536 + 1024 * (hi - 0xD800) + (lo - 0xDC00)
  {
    PairBytes(PairValue(hi, lo));
  }
}
