/**
 The order in which the properties of a sorted object reach the printer.
 `Object.keys(o).sort()` compares keys by code unit; the object it is copied
 into then lists its array-index keys first, in numeric order
 (section 10.1.11.1 of ECMA-262, 13th edition). Together they are one strict
 total order on keys, `Before`.
 */
module KeyOrder {
  import opened Text

  /** The default comparison of `Array.prototype.sort` on strings. */
  predicate LexLess(a: Text, b: Text) {
    if b == [] then false
    else if a == [] then true
    else if a[0] != b[0] then a[0] < b[0]
    else LexLess(a[1..], b[1..])
  }

  lemma {:induction false} LexIrreflexive(a: Text)
    ensures !LexLess(a, a)
  {
    if a != [] {
      LexIrreflexive(a[1..]);
    }
  }

  lemma {:induction false} LexTransitive(a: Text, b: Text, c: Text)
    requires LexLess(a, b) && LexLess(b, c)
    ensures LexLess(a, c)
  {
    if a != [] && a[0] == b[0] == c[0] {
      LexTransitive(a[1..], b[1..], c[1..]);
    }
  }

  lemma {:induction false} LexTotal(a: Text, b: Text)
    requires a != b
    ensures LexLess(a, b) || LexLess(b, a)
  {
    if a != [] && b != [] && a[0] == b[0] {
      assert a == [a[0]] + a[1..] && b == [b[0]] + b[1..];
      LexTotal(a[1..], b[1..]);
    }
  }

  /** The first place where two texts differ, and how. */
  predicate LessAt(a: Text, b: Text, k: nat) {
    k < |a| && k < |b| && a[..k] == b[..k] && a[k] < b[k]
  }

  /** A text is less than those it begins, and otherwise where the two first differ. */
  lemma {:induction false} LexLessExactly(a: Text, b: Text)
    ensures LexLess(a, b) <==> (a <= b && a != b) || exists k: nat :: LessAt(a, b, k)
  {
    if a == [] || b == [] || a[0] != b[0] {
      assert a != [] && b != [] && a[0] < b[0] ==> LessAt(a, b, 0);
      assert forall k: nat :: LessAt(a, b, k) && k > 0 ==> a[0] == a[..k][0] == b[..k][0] == b[0];
    } else {
      var c, d := a[1..], b[1..];
      LexLessExactly(c, d);
      assert a == [a[0]] + c && b == [b[0]] + d;
      assert a <= b <==> c <= d;
      assert !LessAt(a, b, 0);
      forall k: nat | LessAt(a, b, k) && k > 0 ensures LessAt(c, d, k - 1) {
        assert c[..k - 1] == a[..k][1..] && d[..k - 1] == b[..k][1..];
      }
      forall k: nat | LessAt(c, d, k) ensures LessAt(a, b, k + 1) {
        assert a[..k + 1] == [a[0]] + c[..k] && b[..k + 1] == [b[0]] + d[..k];
      }
    }
  }

  /** Decimal digits without a leading zero, apart from "0" itself. */
  predicate IsCanonicalDecimal(k: Text) {
    |k| > 0 && AllDigits(k) && (k[0] == 0x30 ==> |k| == 1)
  }

  /** An array index: the canonical decimal of an integer from 0 to 2^32 - 2. */
  predicate IsIndex(k: Text) {
    IsCanonicalDecimal(k) && DecimalValue(k) <= 0xFFFF_FFFE
  }

  lemma {:induction false} CanonicalDecimalPositive(k: Text)
    requires IsCanonicalDecimal(k) && |k| > 1
    ensures DecimalValue(k) >= 10
  {
    var p := k[..|k| - 1];
    if |p| > 1 {
      CanonicalDecimalPositive(p);
    } else {
      assert p[..0] == [];
      assert DecimalValue(p) == p[0] - 0x30;
    }
  }

  /** Distinct canonical decimals denote distinct numbers. */
  lemma {:induction false} CanonicalDecimalInjective(a: Text, b: Text)
    requires IsCanonicalDecimal(a) && IsCanonicalDecimal(b)
    requires DecimalValue(a) == DecimalValue(b)
    ensures a == b
  {
    if |a| > 1 { CanonicalDecimalPositive(a); }
    if |b| > 1 { CanonicalDecimalPositive(b); }
    var p, q := a[..|a| - 1], b[..|b| - 1];
    assert a == p + [a[|a| - 1]] && b == q + [b[|b| - 1]];
    if |a| == 1 {
      assert p == [];
      assert |b| == 1;
    } else {
      assert |b| == 1 ==> q == [];
      CanonicalDecimalInjective(p, q);
    }
  }

  predicate Before(a: Text, b: Text) {
    if IsIndex(a) then (if IsIndex(b) then DecimalValue(a) < DecimalValue(b) else true)
    else if IsIndex(b) then false
    else LexLess(a, b)
  }

  lemma BeforeIrreflexive(a: Text)
    ensures !Before(a, a)
  {
    LexIrreflexive(a);
  }

  lemma BeforeTransitive(a: Text, b: Text, c: Text)
    requires Before(a, b) && Before(b, c)
    ensures Before(a, c)
  {
    if !IsIndex(a) {
      LexTransitive(a, b, c);
    }
  }

  lemma BeforeTotal(a: Text, b: Text)
    requires a != b
    ensures Before(a, b) || Before(b, a)
  {
    if IsIndex(a) && IsIndex(b) {
      if DecimalValue(a) == DecimalValue(b) {
        CanonicalDecimalInjective(a, b);
      }
    } else if !IsIndex(a) && !IsIndex(b) {
      LexTotal(a, b);
    }
  }

  // ---------------------------------------------------------------------------
  // Array indices, written out
  // ---------------------------------------------------------------------------

  /** `String(n)`. */
  function DecimalText(n: nat): (t: Text)
    ensures t != []
  {
    if n < 10 then [0x30 + n] else DecimalText(n / 10) + [0x30 + n % 10]
  }

  lemma LeadingZero(k: Text)
    requires IsCanonicalDecimal(k)
    ensures k[0] == 0x30 ==> DecimalValue(k) == 0
  {
    if |k| == 1 {
      assert k[..0] == [];
    }
  }

  lemma {:induction false} DecimalTextReads(n: nat)
    ensures IsCanonicalDecimal(DecimalText(n)) && DecimalValue(DecimalText(n)) == n
  {
    var t := DecimalText(n);
    assert t[..|t| - 1] == if n < 10 then [] else DecimalText(n / 10);
    if n >= 10 {
      DecimalTextReads(n / 10);
      LeadingZero(DecimalText(n / 10));
    }
  }

  /** An array index is the decimal of a number from 0 to 4294967294. */
  ghost predicate IsIndexOf(k: Text, n: nat) {
    n <= 4_294_967_294 && k == DecimalText(n)
  }

  lemma IndexExactly(k: Text)
    ensures IsIndex(k) <==> exists n :: IsIndexOf(k, n)
  {
    if IsIndex(k) {
      var n := DecimalValue(k);
      DecimalTextReads(n);
      CanonicalDecimalInjective(k, DecimalText(n));
      assert IsIndexOf(k, n);
    }
    if n :| IsIndexOf(k, n) {
      DecimalTextReads(n);
    }
  }

  /** Array indices first and by number, other keys by their code units. */
  lemma BeforeExactly(a: Text, b: Text)
    ensures Before(a, b) <==>
            || (exists m, n :: m < n && IsIndexOf(a, m) && IsIndexOf(b, n))
            || ((exists m :: IsIndexOf(a, m)) && !exists n :: IsIndexOf(b, n))
            || ((!exists m :: IsIndexOf(a, m)) && (!exists n :: IsIndexOf(b, n))
                && ((a <= b && a != b) || exists k: nat :: LessAt(a, b, k)))
  {
    IndexExactly(a);
    IndexExactly(b);
    LexLessExactly(a, b);
    forall n | IsIndexOf(a, n) ensures DecimalValue(a) == n {
      DecimalTextReads(n);
    }
    forall n | IsIndexOf(b, n) ensures DecimalValue(b) == n {
      DecimalTextReads(n);
    }
  }
}
