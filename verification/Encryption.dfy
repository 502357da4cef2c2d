/**
 The framing of `utils/encryption.ts` and `utils/totp-encryption.ts` around an
 authenticated cipher: what is concatenated, how it is written as text, and how
 the pieces are found again. The cipher itself is a parameter.
 */
module Encryption {
  import opened Text
  import opened JsonText
  import opened Utf8

  const IV_LENGTH := 12
  const TAG_LENGTH := 16

  /** AES-256-GCM under one key: `seal(iv, plain)` is the tag and the body. */
  datatype Cipher = Cipher(
    seal: (Bytes, Bytes) -> (Bytes, Bytes),
    open: (Bytes, Bytes, Bytes) -> Option<Bytes>)

  /** Opening what was sealed gives the plaintext back. */
  ghost predicate Inverts(c: Cipher) {
    forall iv: Bytes, p: Bytes {:trigger c.seal(iv, p)} :: |iv| == IV_LENGTH ==>
      |c.seal(iv, p).0| == TAG_LENGTH && c.open(iv, c.seal(iv, p).0, c.seal(iv, p).1) == Some(p)
  }

  // ---------------------------------------------------------------------------
  // Base64 (section 4 of RFC 4648)
  // ---------------------------------------------------------------------------

  const PAD: CodeUnit := 0x3D

  function Base64Digit(d: int): (u: CodeUnit)
    requires 0 <= d < 64
    ensures u != PAD
  {
    if d < 26 then 0x41 + d
    else if d < 52 then 0x61 + (d - 26)
    else if d < 62 then 0x30 + (d - 52)
    else if d == 62 then 0x2B
    else 0x2F
  }

  function Base64Value(u: CodeUnit): (d: Option<nat>)
    ensures d.Some? ==> d.value < 64
  {
    if 0x41 <= u <= 0x5A then Some(u - 0x41)
    else if 0x61 <= u <= 0x7A then Some(u - 0x61 + 26)
    else if 0x30 <= u <= 0x39 then Some(u - 0x30 + 52)
    else if u == 0x2B then Some(62)
    else if u == 0x2F then Some(63)
    else None
  }

  function ThreeBytes(x: Byte, y: Byte, z: Byte): (t: Text)
    ensures |t| == 4
  {
    [Base64Digit(x / 4), Base64Digit(x % 4 * 16 + y / 16), Base64Digit(y % 16 * 4 + z / 64), Base64Digit(z % 64)]
  }

  function TwoBytes(x: Byte, y: Byte): (t: Text)
    ensures |t| == 4
  {
    [Base64Digit(x / 4), Base64Digit(x % 4 * 16 + y / 16), Base64Digit(y % 16 * 4), PAD]
  }

  function OneByte(x: Byte): (t: Text)
    ensures |t| == 4
  {
    [Base64Digit(x / 4), Base64Digit(x % 4 * 16), PAD, PAD]
  }

  function Base64Encode(b: Bytes): Text {
    if b == [] then []
    else if |b| == 1 then OneByte(b[0])
    else if |b| == 2 then TwoBytes(b[0], b[1])
    else ThreeBytes(b[0], b[1], b[2]) + Base64Encode(b[3..])
  }

  /** The bytes of one group of four characters, padding included. */
  function Base64Group(g: Text): Option<Bytes>
    requires |g| == 4
  {
    match (Base64Value(g[0]), Base64Value(g[1]), Base64Value(g[2]), Base64Value(g[3]))
    case (Some(a), Some(b), Some(c), Some(d)) => Some([a * 4 + b / 16, b % 16 * 16 + c / 4, c % 4 * 64 + d])
    case (Some(a), Some(b), Some(c), None) =>
      if g[3] == PAD then Some([a * 4 + b / 16, b % 16 * 16 + c / 4]) else None
    case (Some(a), Some(b), None, None) =>
      if g[2] == PAD && g[3] == PAD then Some([a * 4 + b / 16]) else None
    case _ => None
  }

  function Base64Decode(t: Text): Option<Bytes> {
    if t == [] then Some([])
    else if |t| < 4 then None
    else
      match (Base64Group(t[..4]), Base64Decode(t[4..]))
      case (Some(b), Some(rest)) => Some(b + rest)
      case _ => None
  }

  lemma Base64ValueOfDigit(d: int)
    requires 0 <= d < 64
    ensures Base64Value(Base64Digit(d)) == Some(d)
  {
  }

  /** A byte split at a bit boundary, its low part leading the next digit. */
  lemma DigitSplits(x: Byte, y: Byte)
    ensures 0 <= x / 4 < 64 && 0 <= x % 4 * 16 + y / 16 < 64
    ensures x / 4 * 4 + (x % 4 * 16 + y / 16) / 16 == x
    ensures (x % 4 * 16 + y / 16) % 16 == y / 16
  {
  }

  lemma LowDigitSplits(y: Byte, z: Byte)
    ensures 0 <= y % 16 * 4 + z / 64 < 64
    ensures (y % 16 * 4 + z / 64) / 4 == y % 16
    ensures (y % 16 * 4 + z / 64) % 4 * 64 + z % 64 == z
  {
  }

  lemma Base64ThreeBytes(x: Byte, y: Byte, z: Byte)
    ensures Base64Group(ThreeBytes(x, y, z)) == Some([x, y, z])
  {
    var a, b, c, d := x / 4, x % 4 * 16 + y / 16, y % 16 * 4 + z / 64, z % 64;
    DigitSplits(x, y);
    LowDigitSplits(y, z);
    Base64ValueOfDigit(a);
    Base64ValueOfDigit(b);
    Base64ValueOfDigit(c);
    Base64ValueOfDigit(d);
    assert a * 4 + b / 16 == x && b % 16 * 16 + c / 4 == y && c % 4 * 64 + d == z;
  }

  lemma Base64TwoBytes(x: Byte, y: Byte)
    ensures Base64Group(TwoBytes(x, y)) == Some([x, y])
  {
    var a, b, c := x / 4, x % 4 * 16 + y / 16, y % 16 * 4;
    DigitSplits(x, y);
    LowDigitSplits(y, 0);
    Base64ValueOfDigit(a);
    Base64ValueOfDigit(b);
    Base64ValueOfDigit(c);
    assert a * 4 + b / 16 == x && b % 16 * 16 + c / 4 == y;
  }

  lemma Base64OneByte(x: Byte)
    ensures Base64Group(OneByte(x)) == Some([x])
  {
    DigitSplits(x, 0);
    Base64ValueOfDigit(x / 4);
    Base64ValueOfDigit(x % 4 * 16);
  }

  lemma GroupDecodes(g: Text, tail: Text, b: Bytes, rest: Bytes)
    requires |g| == 4 && Base64Group(g) == Some(b) && Base64Decode(tail) == Some(rest)
    ensures Base64Decode(g + tail) == Some(b + rest)
  {
    assert (g + tail)[..4] == g && (g + tail)[4..] == tail;
  }

  lemma LastGroupDecodes(g: Text, b: Bytes)
    requires |g| == 4 && Base64Group(g) == Some(b)
    ensures Base64Decode(g) == Some(b)
  {
    GroupDecodes(g, [], b, []);
    assert g + [] == g && b + [] == b;
  }

  lemma {:induction false} Base64RoundTrip(b: Bytes)
    ensures Base64Decode(Base64Encode(b)) == Some(b)
  {
    if |b| == 1 {
      Base64OneByte(b[0]);
      assert b == [b[0]];
      LastGroupDecodes(OneByte(b[0]), b);
    } else if |b| == 2 {
      Base64TwoBytes(b[0], b[1]);
      assert b == [b[0], b[1]];
      LastGroupDecodes(TwoBytes(b[0], b[1]), b);
    } else if |b| > 2 {
      Base64ThreeBytes(b[0], b[1], b[2]);
      Base64RoundTrip(b[3..]);
      GroupDecodes(ThreeBytes(b[0], b[1], b[2]), Base64Encode(b[3..]), [b[0], b[1], b[2]], b[3..]);
      assert b == [b[0], b[1], b[2]] + b[3..];
    }
  }

  // ---------------------------------------------------------------------------
  // Event text
  // ---------------------------------------------------------------------------

  function Encrypt(c: Cipher, iv: Bytes, plaintext: Text): Text {
    if plaintext == [] then []
    else
      var (tag, body) := c.seal(iv, Encode(plaintext));
      Base64Encode(iv + tag + body)
  }

  /** `buf.subarray(i, j)`, clamped to the buffer. */
  function Subarray(b: Bytes, i: nat, j: nat): Bytes
    requires i <= j
  {
    b[(if i < |b| then i else |b|)..(if j < |b| then j else |b|)]
  }

  /** None where the cipher rejects or the text is not what `Encrypt` writes. */
  function Decrypt(c: Cipher, ciphertext: Text): Option<Text> {
    if ciphertext == [] then Some([])
    else
      match Base64Decode(ciphertext)
      case None => None
      case Some(buf) =>
        var iv := Subarray(buf, 0, IV_LENGTH);
        var tag := Subarray(buf, IV_LENGTH, IV_LENGTH + TAG_LENGTH);
        var body := Subarray(buf, IV_LENGTH + TAG_LENGTH, IV_LENGTH + TAG_LENGTH + |buf|);
        match c.open(iv, tag, body)
        case None => None
        case Some(plain) => Decode(plain)
  }

  /** Decryption gives the text as UTF-8 can carry it. */
  lemma DecryptEncrypt(c: Cipher, iv: Bytes, x: Text)
    requires Inverts(c) && |iv| == IV_LENGTH
    ensures Decrypt(c, Encrypt(c, iv, x)) == Some(ToWellFormed(x))
  {
    if x != [] {
      var (tag, body) := c.seal(iv, Encode(x));
      assert |tag| == TAG_LENGTH;
      var buf := iv + tag + body;
      Base64RoundTrip(buf);
      assert Subarray(buf, 0, IV_LENGTH) == iv;
      assert Subarray(buf, IV_LENGTH, IV_LENGTH + TAG_LENGTH) == tag;
      assert Subarray(buf, IV_LENGTH + TAG_LENGTH, IV_LENGTH + TAG_LENGTH + |buf|) == body;
      assert Base64Encode(buf) != [];
      assert c.open(iv, tag, body) == Some(Encode(x));
      DecodesEncoding(x);
    }
  }

  /** The text survives exactly when it has no unpaired surrogate; the empty text does. */
  lemma DecryptsExactly(c: Cipher, iv: Bytes, x: Text)
    requires Inverts(c) && |iv| == IV_LENGTH
    ensures Decrypt(c, Encrypt(c, iv, x)) == Some(x) <==> WellFormed(x)
  {
    DecryptEncrypt(c, iv, x);
    ToWellFormedKeeps(x);
  }

  /** A text that does not survive: a single high surrogate. */
  lemma LoneSurrogateLost(c: Cipher, iv: Bytes)
    requires Inverts(c) && |iv| == IV_LENGTH
    ensures Decrypt(c, Encrypt(c, iv, [0xD800])) == Some([0xFFFD])
  {
    var t: Text := [0xD800];
    DecryptEncrypt(c, iv, t);
    assert t[1..] == [] && !StartsWithPair(t) && IsHighSurrogate(t[0]);
    assert ToWellFormed(t) == [REPLACEMENT] + ToWellFormed(t[1..]) == [REPLACEMENT];
  }

  // ---------------------------------------------------------------------------
  // TOTP secrets: three hexadecimal fields joined by ':'
  // ---------------------------------------------------------------------------

  const COLON: CodeUnit := 0x3A

  /** `Buffer.from(t, 'hex')` reads whole pairs and stops at the first that is not hexadecimal. */
  function HexDecode(t: Text): Bytes {
    if |t| < 2 || !IsHexDigit(t[0]) || !IsHexDigit(t[1]) then []
    else [HexDigitValue(t[0]) * 16 + HexDigitValue(t[1])] + HexDecode(t[2..])
  }

  lemma {:induction false} HexRoundTrip(b: Bytes)
    ensures HexDecode(HexEncode(b)) == b
  {
    if b != [] {
      HexRoundTrip(b[1..]);
      var t := HexEncode(b);
      assert t[2..] == HexEncode(b[1..]);
      assert t[0] == HexDigit(b[0] / 16) && t[1] == HexDigit(b[0] % 16);
      assert b == [b[0]] + b[1..];
    }
  }

  /** `t.split(':')`. */
  function Split(t: Text): (parts: seq<Text>)
    ensures |parts| > 0
  {
    if t == [] then [[]]
    else
      var rest := Split(t[1..]);
      if t[0] == COLON then [[]] + rest else [[t[0]] + rest[0]] + rest[1..]
  }

  lemma {:induction false} SplitPlain(t: Text)
    requires COLON !in t
    ensures Split(t) == [t]
  {
    if t != [] {
      assert t == [t[0]] + t[1..];
      SplitPlain(t[1..]);
    }
  }

  lemma {:induction false} SplitAtColon(t: Text, rest: Text)
    requires COLON !in t
    ensures Split(t + ([COLON] + rest)) == [t] + Split(rest)
  {
    var s := t + ([COLON] + rest);
    if t == [] {
      assert s[1..] == rest;
    } else {
      assert t == [t[0]] + t[1..];
      assert s[1..] == t[1..] + ([COLON] + rest);
      SplitAtColon(t[1..], rest);
    }
  }

  function EncryptTotp(c: Cipher, iv: Bytes, plaintext: Text): Text {
    var (tag, body) := c.seal(iv, Encode(plaintext));
    HexEncode(iv) + ([COLON] + (HexEncode(tag) + ([COLON] + HexEncode(body))))
  }

  /** None where the source throws. */
  function DecryptTotp(c: Cipher, stored: Text): Option<Text> {
    var parts := Split(stored);
    if |parts| != 3 then None
    else
      match c.open(HexDecode(parts[0]), HexDecode(parts[1]), HexDecode(parts[2]))
      case None => None
      case Some(plain) => Decode(plain)
  }

  /** The three fields are recovered exactly, so a secret survives exactly when UTF-8 can carry it. */
  lemma TotpRoundTrip(c: Cipher, iv: Bytes, x: Text)
    requires Inverts(c) && |iv| == IV_LENGTH
    ensures DecryptTotp(c, EncryptTotp(c, iv, x)) == Some(ToWellFormed(x))
    ensures DecryptTotp(c, EncryptTotp(c, iv, x)) == Some(x) <==> WellFormed(x)
  {
    var (tag, body) := c.seal(iv, Encode(x));
    SplitAtColon(HexEncode(iv), HexEncode(tag) + ([COLON] + HexEncode(body)));
    SplitAtColon(HexEncode(tag), HexEncode(body));
    SplitPlain(HexEncode(body));
    HexRoundTrip(iv);
    HexRoundTrip(tag);
    HexRoundTrip(body);
    DecodesEncoding(x);
    ToWellFormedKeeps(x);
  }

  // ---------------------------------------------------------------------------
  // The stored texts, written out
  // ---------------------------------------------------------------------------

  lemma Base64Alphabet(d: int)
    requires 0 <= d < 64
    ensures d < 26 ==> Base64Digit(d) == "ABCDEFGHIJKLMNOPQRSTUVWXYZ"[d] as int
    ensures 26 <= d < 52 ==> Base64Digit(d) == "abcdefghijklmnopqrstuvwxyz"[d - 26] as int
    ensures 52 <= d ==> Base64Digit(d) == "0123456789+/"[d - 52] as int
  {
  }

  lemma BitsAdd(x: Byte, y: Byte, z: Byte)
    ensures 262144 * (x / 4) + 4096 * (x % 4 * 16 + y / 16) + 64 * (y % 16 * 4 + z / 64) + z % 64
            == 65536 * x + 256 * y + z
  {
    var a, b, c := x / 4, y / 16, z / 64;
    assert x == 4 * a + x % 4 && y == 16 * b + y % 16 && z == 64 * c + z % 64;
  }

  /** Three bytes as one number in four digits of base 64; the last group is padded. */
  lemma Base64Bits(x: Byte, y: Byte, z: Byte)
    ensures var t := ThreeBytes(x, y, z);
            var a, b, c, d := Base64Value(t[0]), Base64Value(t[1]), Base64Value(t[2]), Base64Value(t[3]);
            && a.Some? && b.Some? && c.Some? && d.Some?
            && 262144 * a.value + 4096 * b.value + 64 * c.value + d.value == 65536 * x + 256 * y + z
    ensures TwoBytes(x, y) == ThreeBytes(x, y, 0)[..3] + Ascii("=")
    ensures OneByte(x) == ThreeBytes(x, 0, 0)[..2] + Ascii("==")
  {
    DigitSplits(x, y);
    LowDigitSplits(y, z);
    Base64ValueOfDigit(x / 4);
    Base64ValueOfDigit(x % 4 * 16 + y / 16);
    Base64ValueOfDigit(y % 16 * 4 + z / 64);
    Base64ValueOfDigit(z % 64);
    BitsAdd(x, y, z);
  }

  /** Groups of three bytes in order. */
  lemma Base64Groups(b: Bytes)
    ensures |b| == 0 ==> Base64Encode(b) == []
    ensures |b| == 1 ==> Base64Encode(b) == OneByte(b[0])
    ensures |b| == 2 ==> Base64Encode(b) == TwoBytes(b[0], b[1])
    ensures |b| > 2 ==> Base64Encode(b) == ThreeBytes(b[0], b[1], b[2]) + Base64Encode(b[3..])
  {
  }

  /** The stored text is the base64 of twelve bytes of nonce, sixteen of tag, and the body; the empty text stays. */
  lemma FrameLayout(c: Cipher, iv: Bytes, x: Text)
    requires Inverts(c) && |iv| == 12
    ensures |c.seal(iv, Encode(x)).0| == 16
    ensures Encrypt(c, iv, x) ==
            if x == [] then [] else Base64Encode(iv + c.seal(iv, Encode(x)).0 + c.seal(iv, Encode(x)).1)
    ensures Decrypt(c, []) == Some([])
  {
  }

  /** Two small hexadecimal digits a byte, the high one first. */
  lemma {:induction false} HexDigits(b: Bytes, i: nat)
    requires i < |b|
    ensures HexEncode(b)[2 * i] == "0123456789abcdef"[b[i] / 16] as int
    ensures HexEncode(b)[2 * i + 1] == "0123456789abcdef"[b[i] % 16] as int
  {
    HexAlphabet();
    if i > 0 {
      HexDigits(b[1..], i - 1);
      assert HexEncode(b)[2..] == HexEncode(b[1..]);
    }
  }

  /** Nonce, tag and body in hexadecimal, a colon between them. */
  lemma TotpLayout(c: Cipher, iv: Bytes, x: Text)
    ensures EncryptTotp(c, iv, x) ==
            HexEncode(iv) + Ascii(":") + HexEncode(c.seal(iv, Encode(x)).0) + Ascii(":")
            + HexEncode(c.seal(iv, Encode(x)).1)
  {
    var tag, body := HexEncode(c.seal(iv, Encode(x)).0), HexEncode(c.seal(iv, Encode(x)).1);
    assert HexEncode(iv) + ([COLON] + (tag + ([COLON] + body)))
           == HexEncode(iv) + Ascii(":") + tag + Ascii(":") + body;
  }

  function Colons(t: Text): nat {
    if t == [] then 0 else (if t[0] == COLON then 1 else 0) + Colons(t[1..])
  }

  lemma {:induction false} SplitCounts(t: Text)
    ensures |Split(t)| == Colons(t) + 1
  {
    if t != [] {
      SplitCounts(t[1..]);
    }
  }

  /** A stored secret without exactly two colons is refused. */
  lemma TotpRefuses(c: Cipher, stored: Text)
    ensures Colons(stored) != 2 ==> DecryptTotp(c, stored).None?
  {
    SplitCounts(stored);
  }
}
