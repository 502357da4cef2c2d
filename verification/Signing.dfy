/**
 `BlockchainSigningService`: reading a DER-encoded ECDSA signature and public
 key, and the search for the recovery bit.
 */
module Signing {
  import opened Text

  // ---------------------------------------------------------------------------
  // The encoding (sections 8.1.3, 8.3 and 10.1 of ITU-T X.690, section 2.2.3 of RFC 3279)
  // ---------------------------------------------------------------------------

  function Pow256(k: nat): (p: nat)
    ensures p > 0
  {
    if k == 0 then 1 else 256 * Pow256(k - 1)
  }

  /** The big-endian bytes of `n` without leading zeros. */
  function MinimalBytes(n: nat): (b: Bytes)
    ensures b != [] ==> b[0] != 0
  {
    if n == 0 then [] else MinimalBytes(n / 256) + [n % 256]
  }

  /** The contents octets of a non-negative INTEGER: a zero byte keeps the sign bit clear. */
  function IntegerContents(n: nat): (b: Bytes)
    ensures b != []
  {
    var m := MinimalBytes(n);
    if m == [] || m[0] >= 0x80 then [0] + m else m
  }

  predicate IsEncodable(n: nat) {
    |IntegerContents(n)| < 0x80
  }

  function IntegerEncoding(n: nat): Bytes
    requires IsEncodable(n)
  {
    [0x02, |IntegerContents(n)|] + IntegerContents(n)
  }

  /** A SEQUENCE tag with its length in short form, or in long form with that many length bytes. */
  predicate IsSequenceHeader(h: Bytes) {
    && |h| >= 2 && h[0] == 0x30
    && |h| == (if h[1] < 0x80 then 2 else 2 + (h[1] - 0x80))
  }

  /** `n` as exactly `width` hexadecimal digits, most significant first. */
  function PadHex(n: nat, width: nat): (t: Text)
    ensures |t| == width
  {
    if width == 0 then [] else PadHex(n / 16, width - 1) + [HexDigit(n % 16)]
  }

  lemma {:induction false} MinimalBytesLength(n: nat, k: nat)
    requires n < Pow256(k)
    ensures |MinimalBytes(n)| <= k
  {
    if n > 0 {
      assert n / 256 < Pow256(k - 1);
      MinimalBytesLength(n / 256, k - 1);
    }
  }

  function Pow16(k: nat): (p: nat)
    ensures p > 0
  {
    if k == 0 then 1 else 16 * Pow16(k - 1)
  }

  /** Fixed-width hexadecimal determines the number. */
  lemma {:induction false} PadHexInjective(n: nat, m: nat, width: nat)
    requires n < Pow16(width) && m < Pow16(width) && PadHex(n, width) == PadHex(m, width)
    ensures n == m
  {
    if width > 0 {
      var s, t := PadHex(n / 16, width - 1), PadHex(m / 16, width - 1);
      assert PadHex(n, width)[..width - 1] == s && PadHex(m, width)[..width - 1] == t;
      assert PadHex(n, width)[width - 1] == HexDigit(n % 16) && PadHex(m, width)[width - 1] == HexDigit(m % 16);
      PadHexInjective(n / 16, m / 16, width - 1);
    }
  }

  // ---------------------------------------------------------------------------
  // The reader
  // ---------------------------------------------------------------------------

  /** The outcome of a read: the two fields, or which check threw. */
  datatype Parsed<+T> =
    | Signature(r: T, s: T)
    | NoSequence
    | NoIntegerR
    | NoIntegerS

  /** `der[i]`, None standing for `undefined`. */
  function At(der: Bytes, i: int): Option<Byte> {
    if 0 <= i < |der| then Some(der[i]) else None
  }

  /** `der.slice(i, i + len)`; a length of None is NaN and gives nothing. */
  function Slice(der: Bytes, i: nat, len: Option<int>): Bytes {
    match len
    case None => []
    case Some(n) => if n <= 0 || i >= |der| then [] else if i + n <= |der| then der[i..i + n] else der[i..]
  }

  /** The hexadecimal word a field is returned as, without its `0x`. */
  function ToWord(b: Bytes): Text {
    PadStart(HexEncode(b), 64)
  }

  /** One INTEGER: its bytes without the sign byte, and the offset after it unless that is NaN. */
  function ReadInteger(der: Bytes, offset: nat): Option<(Bytes, Option<nat>)> {
    if At(der, offset) != Some(0x02) then None
    else
      var stripped := At(der, offset + 2) == Some(0);
      var start := offset + 2 + (if stripped then 1 else 0);
      match At(der, offset + 1)
      case None => Some(([], None))
      case Some(n) =>
        Some((Slice(der, start, Some(n - (if stripped then 1 else 0))), Some(offset + 2 + n)))
  }

  function HeaderLength(der: Bytes): (n: nat)
    ensures n >= 2
  {
    match At(der, 1)
    case Some(b) => if b >= 0x80 then 2 + (b - 0x80) else 2
    case None => 2
  }

  function ParseIntegers(der: Bytes): Parsed<Bytes> {
    if At(der, 0) != Some(0x30) then NoSequence
    else
      match ReadInteger(der, HeaderLength(der))
      case None => NoIntegerR
      case Some((r, next)) => ParseRest(der, r, next)
  }

  function ParseRest(der: Bytes, r: Bytes, next: Option<nat>): Parsed<Bytes> {
    if next.None? then NoIntegerS
    else
      match ReadInteger(der, next.value)
      case None => NoIntegerS
      case Some((s, _)) => Signature(r, s)
  }

  function ToWords(p: Parsed<Bytes>): Parsed<Text> {
    match p
    case Signature(r, s) => Signature(ToWord(r), ToWord(s))
    case NoSequence => NoSequence
    case NoIntegerR => NoIntegerR
    case NoIntegerS => NoIntegerS
  }

  function ParseSignature(der: Bytes): Parsed<Text> {
    ToWords(ParseIntegers(der))
  }

  /** What the steps of the reader amount to for one INTEGER. */
  lemma IntegerSteps(der: Bytes, offset: nat, stripped: bool, len: Option<int>)
    requires At(der, offset) == Some(0x02) && stripped == (At(der, offset + 2) == Some(0))
    requires len == match At(der, offset + 1)
                    case Some(n) => Some(if stripped then n - 1 else n)
                    case None => None
    ensures var start := offset + 2 + (if stripped then 1 else 0);
            ReadInteger(der, offset) ==
            Some((Slice(der, start, len), if len.Some? then Some(start + len.value) else None))
  {
  }

  /** The offset-driven part of the reader. */
  method ReadIntegers(der: Bytes) returns (parsed: Parsed<Bytes>)
    ensures parsed == ParseIntegers(der)
  {
    if At(der, 0) != Some(0x30) {
      return NoSequence;
    }
    var offset := 1;
    var lengthByte := At(der, offset);
    if lengthByte.Some? && lengthByte.value >= 0x80 {
      offset := offset + 1 + (lengthByte.value - 0x80);
    } else {
      offset := offset + 1;
    }
    ghost var header := offset;
    assert header == HeaderLength(der);

    if At(der, offset) != Some(0x02) {
      return NoIntegerR;
    }
    offset := offset + 1;
    var rLen: Option<int> := At(der, offset);
    offset := offset + 1;
    if At(der, offset) == Some(0) {
      rLen := Some(rLen.value - 1);
      offset := offset + 1;
    }
    var rBytes := Slice(der, offset, rLen);
    IntegerSteps(der, header, offset == header + 3, rLen);
    if rLen.None? {
      return NoIntegerS;
    }
    offset := offset + rLen.value;
    ghost var next := offset;
    assert ParseIntegers(der) == ParseRest(der, rBytes, Some(next));

    if At(der, offset) != Some(0x02) {
      return NoIntegerS;
    }
    offset := offset + 1;
    var sLen: Option<int> := At(der, offset);
    offset := offset + 1;
    if At(der, offset) == Some(0) {
      sLen := Some(sLen.value - 1);
      offset := offset + 1;
    }
    var sBytes := Slice(der, offset, sLen);
    IntegerSteps(der, next, offset == next + 3, sLen);
    parsed := Signature(rBytes, sBytes);
  }

  /** The whole reader: both integers, then each as a padded word. */
  method ParseDerSignature(der: Bytes) returns (parsed: Parsed<Text>)
    ensures parsed == ParseSignature(der)
  {
    var integers := ReadIntegers(der);
    parsed := match integers
      case Signature(rBytes, sBytes) => Signature(ToWord(rBytes), ToWord(sBytes))
      case _ => ToWords(integers);
  }

  // ---------------------------------------------------------------------------
  // Reading undoes encoding
  // ---------------------------------------------------------------------------

  lemma {:induction false} HexEncodeAppend(b: Bytes, x: Byte)
    ensures HexEncode(b + [x]) == HexEncode(b) + [HexDigit(x / 16), HexDigit(x % 16)]
  {
    if b == [] {
      assert b + [x] == [x] && [x][1..] == [];
    } else {
      assert (b + [x])[1..] == b[1..] + [x];
      HexEncodeAppend(b[1..], x);
    }
  }

  lemma {:induction false} PadHexZero(width: nat)
    ensures PadHex(0, width) == Zeros(width)
  {
    if width > 0 {
      PadHexZero(width - 1);
    }
  }

  lemma NibblesOfByte(n: nat)
    ensures n % 256 / 16 == n / 16 % 16 && n % 256 % 16 == n % 16 && n / 16 / 16 == n / 256
  {
    var q, m := n / 256, n % 256;
    assert n == 256 * q + m;
    assert n / 16 == 16 * q + m / 16;
  }

  lemma PadHexByte(n: nat, width: nat)
    requires width >= 2
    ensures PadHex(n, width) == PadHex(n / 256, width - 2) + [HexDigit(n % 256 / 16), HexDigit(n % 256 % 16)]
  {
    NibblesOfByte(n);
    assert PadHex(n, width) == PadHex(n / 16, width - 1) + [HexDigit(n % 16)];
    assert PadHex(n / 16, width - 1) == PadHex(n / 16 / 16, width - 2) + [HexDigit(n / 16 % 16)];
  }

  /** Left-padded hexadecimal of the minimal bytes is fixed-width hexadecimal of the number. */
  lemma {:induction false} HexOfMinimalBytes(n: nat, width: nat)
    requires 2 * |MinimalBytes(n)| <= width
    ensures Zeros(width - 2 * |MinimalBytes(n)|) + HexEncode(MinimalBytes(n)) == PadHex(n, width)
  {
    if n == 0 {
      PadHexZero(width);
    } else {
      HexOfMinimalBytes(n / 256, width - 2);
      HexEncodeAppend(MinimalBytes(n / 256), n % 256);
      PadHexByte(n, width);
    }
  }

  lemma WordOfInteger(n: nat)
    requires n < Pow256(32)
    ensures ToWord(MinimalBytes(n)) == PadHex(n, 64)
  {
    MinimalBytesLength(n, 32);
    HexOfMinimalBytes(n, 64);
    PadStartZeros(HexEncode(MinimalBytes(n)), 64);
  }

  lemma EncodableInteger(n: nat)
    requires n < Pow256(32)
    ensures IsEncodable(n)
  {
    MinimalBytesLength(n, 32);
  }

  /** Contents `c` are read as `m`, with or without a sign byte in front. */
  lemma ReadsContents(c: Bytes, m: Bytes, before: Bytes, after: Bytes)
    requires c != [] && |c| < 0x80
    requires (c == m && c[0] != 0) || c == [0] + m
    ensures ReadInteger(before + (([0x02, |c|] + c) + after), |before|) == Some((m, Some(|before| + 2 + |c|)))
  {
    var der, i := before + (([0x02, |c|] + c) + after), |before|;
    assert der[i] == 0x02 && der[i + 1] == |c| && der[i + 2] == c[0];
    assert der[i + 2..i + 2 + |c|] == c;
    if c == [0] + m {
      assert der[i + 3..i + 2 + |c|] == c[1..] == m;
    }
  }

  /** The contents are the minimal bytes, with a sign byte where they need one. */
  lemma ContentsForm(n: nat)
    ensures var c, m := IntegerContents(n), MinimalBytes(n);
            (c == m && c[0] != 0) || c == [0] + m
  {
  }

  lemma ReadsInteger(n: nat, before: Bytes, after: Bytes)
    requires IsEncodable(n)
    ensures ReadInteger(before + (IntegerEncoding(n) + after), |before|)
            == Some((MinimalBytes(n), Some(|before| + |IntegerEncoding(n)|)))
  {
    ContentsForm(n);
    var c, m := IntegerContents(n), MinimalBytes(n);
    assert IntegerEncoding(n) == [0x02, |c|] + c;
    ReadsContents(c, m, before, after);
  }

  lemma ParsesTwoIntegers(der: Bytes, r: Bytes, s: Bytes, next: nat, after: Option<nat>)
    requires At(der, 0) == Some(0x30)
    requires ReadInteger(der, HeaderLength(der)) == Some((r, Some(next)))
    requires ReadInteger(der, next) == Some((s, after))
    ensures ParseIntegers(der) == Signature(r, s)
  {
  }

  lemma HeaderOf(h: Bytes, rest: Bytes)
    requires IsSequenceHeader(h)
    ensures HeaderLength(h + rest) == |h| && At(h + rest, 0) == Some(0x30)
  {
    assert (h + rest)[1] == h[1];
  }

  lemma Regroup(a: Bytes, b: Bytes, c: Bytes)
    ensures (a + b) + c == a + (b + c)
  {
  }

  lemma ParsesPair(h: Bytes, x: Bytes, y: Bytes, r: Bytes, s: Bytes)
    requires IsSequenceHeader(h)
    requires ReadInteger(h + (x + y), |h|) == Some((r, Some(|h| + |x|)))
    requires ReadInteger((h + x) + y, |h + x|).Some? && ReadInteger((h + x) + y, |h + x|).value.0 == s
    ensures ParseIntegers(h + (x + y)) == Signature(r, s)
  {
    HeaderOf(h, x + y);
    Regroup(h, x, y);
    ParsesTwoIntegers(h + (x + y), r, s, |h| + |x|, ReadInteger((h + x) + y, |h + x|).value.1);
  }

  /** `x` is read as the integer bytes `v` wherever it stands. */
  ghost predicate ReadsAs(x: Bytes, v: Bytes) {
    forall before: Bytes, after: Bytes ::
      ReadInteger(before + (x + after), |before|) == Some((v, Some(|before| + |x|)))
  }

  lemma IntegerReadsAs(n: nat)
    requires IsEncodable(n)
    ensures ReadsAs(IntegerEncoding(n), MinimalBytes(n))
  {
    forall before: Bytes, after: Bytes
      ensures ReadInteger(before + (IntegerEncoding(n) + after), |before|)
              == Some((MinimalBytes(n), Some(|before| + |IntegerEncoding(n)|)))
    {
      ReadsInteger(n, before, after);
    }
  }

  lemma ReadsAsAt(x: Bytes, v: Bytes, before: Bytes, after: Bytes)
    requires ReadsAs(x, v)
    ensures ReadInteger(before + (x + after), |before|) == Some((v, Some(|before| + |x|)))
  {
  }

  lemma ParsesReadables(h: Bytes, x: Bytes, y: Bytes, r: Bytes, s: Bytes, trailing: Bytes)
    requires IsSequenceHeader(h) && ReadsAs(x, r) && ReadsAs(y, s)
    ensures ParseIntegers(h + (x + (y + trailing))) == Signature(r, s)
  {
    ReadsAsAt(x, r, h, y + trailing);
    ReadsAsAt(y, s, h + x, trailing);
    ParsesPair(h, x, y + trailing, r, s);
  }

  lemma ParsesEncodedIntegers(h: Bytes, r: nat, s: nat, trailing: Bytes)
    requires IsSequenceHeader(h) && IsEncodable(r) && IsEncodable(s)
    ensures ParseIntegers(h + (IntegerEncoding(r) + (IntegerEncoding(s) + trailing)))
            == Signature(MinimalBytes(r), MinimalBytes(s))
  {
    IntegerReadsAs(r);
    IntegerReadsAs(s);
    ParsesReadables(h, IntegerEncoding(r), IntegerEncoding(s), MinimalBytes(r), MinimalBytes(s), trailing);
  }

  /**
   Every signature is read back from its encoding, whatever form the length of
   the SEQUENCE has and whatever bytes follow.
   */
  lemma ParsesEncodedSignature(h: Bytes, r: nat, s: nat, trailing: Bytes)
    requires IsSequenceHeader(h) && r < Pow256(32) && s < Pow256(32)
    ensures IsEncodable(r) && IsEncodable(s)
    ensures ParseSignature(h + (IntegerEncoding(r) + (IntegerEncoding(s) + trailing)))
            == Signature(PadHex(r, 64), PadHex(s, 64))
  {
    EncodableInteger(r);
    EncodableInteger(s);
    ParsesEncodedIntegers(h, r, s, trailing);
    WordOfInteger(r);
    WordOfInteger(s);
  }

  lemma {:induction false} PowersAgree(k: nat)
    ensures Pow16(2 * k) == Pow256(k)
  {
    if k > 0 {
      PowersAgree(k - 1);
      assert Pow16(2 * k) == 16 * Pow16(2 * k - 1) == 16 * (16 * Pow16(2 * k - 2));
    }
  }

  /** What is read determines the signature. */
  lemma ParsedSignatureUnique(g: Bytes, h: Bytes, r: nat, s: nat, r': nat, s': nat, t: Bytes, t': Bytes)
    requires IsSequenceHeader(g) && IsSequenceHeader(h)
    requires r < Pow256(32) && s < Pow256(32) && r' < Pow256(32) && s' < Pow256(32)
    requires IsEncodable(r) && IsEncodable(s) && IsEncodable(r') && IsEncodable(s')
    ensures ParseSignature(g + (IntegerEncoding(r) + (IntegerEncoding(s) + t)))
            == ParseSignature(h + (IntegerEncoding(r') + (IntegerEncoding(s') + t')))
            <==> r == r' && s == s'
  {
    ParsesEncodedSignature(g, r, s, t);
    ParsesEncodedSignature(h, r', s', t');
    PowersAgree(32);
    if PadHex(r, 64) == PadHex(r', 64) && PadHex(s, 64) == PadHex(s', 64) {
      PadHexInjective(r, r', 64);
      PadHexInjective(s, s', 64);
    }
  }

  // ---------------------------------------------------------------------------
  // The public key (section 2.3.3 of SEC 1)
  // ---------------------------------------------------------------------------

  /** `der.slice(-65)`, then the tag check and the rest; None where it throws. */
  function ParseDerPublicKey(der: Bytes): Option<Bytes> {
    var point := if |der| < 65 then der else der[|der| - 65..];
    if point == [] || point[0] != 0x04 then None else Some(point[1..])
  }

  /**
   An uncompressed point is found at the end of any prefix, and whatever is
   accepted ends in one — provided there are 65 bytes, which the reader does
   not check.
   */
  lemma PublicKeyRoundTrip(prefix: Bytes, point: Bytes, der: Bytes)
    requires |point| == 64
    ensures ParseDerPublicKey(prefix + [0x04] + point) == Some(point)
    ensures ParseDerPublicKey(der).Some? ==>
              (|ParseDerPublicKey(der).value| == 64 <==> |der| >= 65)
    ensures ParseDerPublicKey(der).Some? && |der| >= 65 ==>
              der == der[..|der| - 65] + [0x04] + ParseDerPublicKey(der).value
  {
    var d := prefix + [0x04] + point;
    assert d[|d| - 65..] == [0x04] + point;
    assert ([0x04] + point)[1..] == point;
  }

  /** A key without any coordinate that is accepted. */
  lemma ShortKeyAccepted()
    ensures ParseDerPublicKey([0x04]) == Some([])
  {
    assert [0x04 as Byte][1..] == [];
  }

  // ---------------------------------------------------------------------------
  // The recovery bit
  // ---------------------------------------------------------------------------

  /** `recover(v)` is the address recovered with `v`, None where recovery throws. */
  predicate Recovers(recover: int -> Option<Text>, v: int, signer: Text) {
    recover(v).Some? && ToLowerCase(recover(v).value) == ToLowerCase(signer)
  }

  /** Addresses are compared unit by unit, capitals counting as small letters. */
  lemma RecoversExactly(recover: int -> Option<Text>, v: int, signer: Text)
    ensures Recovers(recover, v, signer) <==>
            && recover(v).Some? && |recover(v).value| == |signer|
            && forall i :: 0 <= i < |signer| ==> Lower(recover(v).value[i]) == Lower(signer[i])
  {
    if recover(v).Some? && |recover(v).value| == |signer| {
      var a, b := ToLowerCase(recover(v).value), ToLowerCase(signer);
      assert a == b <==> forall i :: 0 <= i < |b| ==> a[i] == b[i];
    }
  }

  /** The first of 27 and 28 that recovers the signer, None where both fail. */
  method RecoverV(recover: int -> Option<Text>, signer: Text) returns (v: Option<int>)
    ensures v.Some? <==> Recovers(recover, 27, signer) || Recovers(recover, 28, signer)
    ensures v.Some? ==> v.value in {27, 28} && Recovers(recover, v.value, signer)
    ensures v == Some(28) ==> !Recovers(recover, 27, signer)
  {
    var candidates := [27, 28];
    assert candidates[0] == 27 && candidates[1] == 28;
    for i := 0 to |candidates|
      invariant i > 0 ==> !Recovers(recover, 27, signer)
      invariant i > 1 ==> !Recovers(recover, 28, signer)
    {
      if Recovers(recover, candidates[i], signer) {
        return Some(candidates[i]);
      }
    }
    v := None;
  }

  // ---------------------------------------------------------------------------
  // Numbers and bytes, written out
  // ---------------------------------------------------------------------------

  /** The number a big-endian byte sequence denotes. */
  function BytesValue(b: Bytes): nat {
    if b == [] then 0 else 256 * BytesValue(b[..|b| - 1]) + b[|b| - 1]
  }

  lemma {:induction false} MinimalBytesValue(n: nat)
    ensures BytesValue(MinimalBytes(n)) == n
  {
    if n > 0 {
      MinimalBytesValue(n / 256);
      var b := MinimalBytes(n);
      assert b[..|b| - 1] == MinimalBytes(n / 256);
    }
  }

  lemma {:induction false} LeadingZeroByte(b: Bytes)
    ensures BytesValue([0] + b) == BytesValue(b)
  {
    var c := [0] + b;
    if b == [] {
      assert c[..|c| - 1] == [];
    } else {
      assert c[..|c| - 1] == [0] + b[..|b| - 1];
      LeadingZeroByte(b[..|b| - 1]);
    }
  }

  /** The encoding of an INTEGER: tag 2, its length, and the shortest contents of that value with a clear sign bit. */
  lemma IntegerMeaning(n: nat)
    requires IsEncodable(n)
    ensures var e := IntegerEncoding(n);
            && |e| >= 3 && e[0] == 0x02 && e[1] == |e| - 2 && e[2] < 0x80
            && BytesValue(e[2..]) == n
            && (|e| > 3 && e[2] == 0 ==> e[3] >= 0x80)
  {
    var e := IntegerEncoding(n);
    assert e[2..] == IntegerContents(n);
    MinimalBytesValue(n);
    LeadingZeroByte(MinimalBytes(n));
  }

  /** The number a big-endian run of small hexadecimal digits denotes. */
  function HexValue(t: Text): nat
    requires forall i :: 0 <= i < |t| ==> IsHexDigit(t[i])
  {
    if t == [] then 0 else 16 * HexValue(t[..|t| - 1]) + HexDigitValue(t[|t| - 1])
  }

  lemma {:induction false} PadHexValue(n: nat, width: nat)
    requires n < Pow16(width)
    ensures forall i :: 0 <= i < width ==> IsHexDigit(PadHex(n, width)[i])
    ensures HexValue(PadHex(n, width)) == n
  {
    if width > 0 {
      PadHexValue(n / 16, width - 1);
      var t := PadHex(n, width);
      assert t[..width - 1] == PadHex(n / 16, width - 1);
    }
  }

  /** Where the reader looks for its three tags, and which is missing. */
  lemma RefusalMeaning(der: Bytes)
    ensures ParseIntegers(der) == NoSequence <==> !(|der| > 0 && der[0] == 0x30)
    ensures |der| > 1 ==> HeaderLength(der) == if der[1] < 0x80 then 2 else 2 + (der[1] - 0x80)
    ensures ParseIntegers(der) == NoIntegerR <==>
              |der| > 0 && der[0] == 0x30 && !(HeaderLength(der) < |der| && der[HeaderLength(der)] == 0x02)
  {
  }

  /** An INTEGER is what its length byte announces, less one leading zero byte, and the reader goes on after it. */
  lemma ReadMeaning(der: Bytes, i: nat)
    requires i + 1 < |der| && der[i] == 0x02 && i + 2 + der[i + 1] <= |der|
    ensures ReadInteger(der, i).Some?
    ensures var contents, (bytes, next) := der[i + 2..i + 2 + der[i + 1]], ReadInteger(der, i).value;
            && next == Some(i + 2 + der[i + 1])
            && (contents != [] ==> bytes == if contents[0] == 0 then contents[1..] else contents)
  {
  }
}
