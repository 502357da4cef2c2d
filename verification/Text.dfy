/** Strings as the source language has them: sequences of UTF-16 code units. */
module Text {

  type CodeUnit = u: int | 0 <= u < 0x1_0000
  type Text = seq<CodeUnit>

  type Byte = b: int | 0 <= b < 0x100
  type Bytes = seq<Byte>

  datatype Option<+T> = None | Some(value: T)

  /** The text of an ASCII literal. */
  function Ascii(s: string): (t: Text)
    requires forall i :: 0 <= i < |s| ==> s[i] < 128 as char
    ensures |t| == |s|
    ensures forall i :: 0 <= i < |s| ==> t[i] == s[i] as int
  {
    seq(|s|, i requires 0 <= i < |s| => s[i] as int)
  }

  predicate IsDigit(u: CodeUnit) {
    0x30 <= u <= 0x39
  }

  predicate AllDigits(t: Text) {
    forall i :: 0 <= i < |t| ==> IsDigit(t[i])
  }

  /** The number a run of decimal digits denotes. */
  function DecimalValue(t: Text): nat
    requires AllDigits(t)
  {
    if t == [] then 0 else DecimalValue(t[..|t| - 1]) * 10 + (t[|t| - 1] - 0x30)
  }

  /** `n` in decimal, left-padded with zeros to exactly `width` digits. */
  function PadDecimal(n: nat, width: nat): (t: Text)
    ensures |t| == width && AllDigits(t)
  {
    if width == 0 then [] else PadDecimal(n / 10, width - 1) + [0x30 + n % 10]
  }

  function Pow10(k: nat): (p: nat)
    ensures p > 0
  {
    if k == 0 then 1 else 10 * Pow10(k - 1)
  }

  /** Fixed-width decimal printing is read back whenever the number fits the width. */
  lemma {:induction false} PadDecimalReads(n: nat, width: nat)
    requires n < Pow10(width)
    ensures DecimalValue(PadDecimal(n, width)) == n
  {
    if width > 0 {
      assert n / 10 < Pow10(width - 1);
      PadDecimalReads(n / 10, width - 1);
      var t := PadDecimal(n, width);
      assert t[..|t| - 1] == PadDecimal(n / 10, width - 1);
    }
  }

  /** A further digit multiplies by ten and adds its own value. */
  lemma DecimalPlaces(t: Text, d: nat)
    requires AllDigits(t) && d < 10
    ensures "0123456789"[d] as int == 0x30 + d
    ensures DecimalValue([]) == 0 && DecimalValue(t + [0x30 + d]) == 10 * DecimalValue(t) + d
  {
    assert (t + [0x30 + d])[..|t|] == t;
  }

  /** Lower-case hexadecimal digit of a nibble. */
  function HexDigit(d: int): (u: CodeUnit)
    requires 0 <= d < 16
  {
    if d < 10 then 0x30 + d else 0x61 + (d - 10)
  }

  lemma HexAlphabet()
    ensures forall d :: 0 <= d < 16 ==> HexDigit(d) == "0123456789abcdef"[d] as int
  {
  }

  predicate IsHexDigit(u: CodeUnit) {
    0x30 <= u <= 0x39 || 0x61 <= u <= 0x66
  }

  function HexDigitValue(u: CodeUnit): (d: int)
    requires IsHexDigit(u)
    ensures 0 <= d < 16
    ensures HexDigit(d) == u
  {
    if u <= 0x39 then u - 0x30 else u - 0x61 + 10
  }

  /** `Buffer.toString('hex')`. */
  function HexEncode(b: Bytes): (t: Text)
    ensures |t| == 2 * |b| && forall i :: 0 <= i < |t| ==> IsHexDigit(t[i])
  {
    if b == [] then [] else [HexDigit(b[0] / 16), HexDigit(b[0] % 16)] + HexEncode(b[1..])
  }

  function Zeros(n: nat): (t: Text)
    ensures |t| == n && forall i :: 0 <= i < n ==> t[i] == 0x30
  {
    if n == 0 then [] else Zeros(n - 1) + [0x30]
  }

  /** `t.padStart(width, '0')`. */
  function PadStart(t: Text, width: nat): Text
    decreases width - |t|
  {
    if |t| >= width then t else PadStart([0x30] + t, width)
  }

  lemma {:induction false} PadStartZeros(t: Text, width: nat)
    requires |t| <= width
    ensures PadStart(t, width) == Zeros(width - |t|) + t
    decreases width - |t|
  {
    if |t| < width {
      PadStartZeros([0x30] + t, width);
      assert Zeros(width - |t|) == Zeros(width - |t| - 1) + [0x30];
    }
  }

  function Lower(u: CodeUnit): CodeUnit {
    if 0x41 <= u <= 0x5A then u + 0x20 else u
  }

  /** `toLowerCase`, for ASCII letters. */
  function ToLowerCase(t: Text): (r: Text)
    ensures |r| == |t| && forall i :: 0 <= i < |t| ==> r[i] == Lower(t[i])
  {
    if t == [] then [] else [Lower(t[0])] + ToLowerCase(t[1..])
  }

  /** ASCII capitals become small, everything else stays. */
  lemma LowerLetters(u: CodeUnit)
    ensures Lower(u) == if 'A' as int <= u <= 'Z' as int then u - 'A' as int + 'a' as int else u
  {
  }
}
