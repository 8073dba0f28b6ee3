/**
 * Decimal text of integers as JavaScript produces and consumes it: `toString()`,
 * `padStart(width, '0')` and `Number.parseInt` on a string of decimal digits.
 * The serialization ids of activities are built from these three operations.
 */
module Digits {

  predicate IsDigit(c: char) { '0' <= c <= '9' }

  predicate AllDigits(s: string) { forall i :: 0 <= i < |s| ==> IsDigit(s[i]) }

  function DigitChar(d: nat): (c: char)
    requires d < 10
    ensures IsDigit(c) && c as int - '0' as int == d
  {
    ('0' as int + d) as char
  }

  function DigitValue(c: char): (d: nat)
    requires IsDigit(c)
    ensures d < 10
  {
    c as int - '0' as int
  }

  function Pow10(k: nat): (r: nat)
    ensures r >= 1
  {
    if k == 0 then 1 else 10 * Pow10(k - 1)
  }

  /** `n.toString()` for a non-negative integer (no exponent notation). */
  function DecimalString(n: nat): (s: string)
    ensures AllDigits(s) && |s| >= 1
  {
    if n < 10 then [DigitChar(n)] else DecimalString(n / 10) + [DigitChar(n % 10)]
  }

  /** `Number.parseInt(s)` for a string made only of decimal digits, in exact arithmetic. */
  function ParseDecimal(s: string): nat
    requires AllDigits(s)
  {
    if s == [] then 0 else ParseDecimal(s[..|s| - 1]) * 10 + DigitValue(s[|s| - 1])
  }

  /** `s.padStart(width, fill)`: left-pad with `fill` up to `width`; longer strings are kept as they are. */
  function PadStart(s: string, width: nat, fill: char): (r: string)
    ensures |r| == if |s| < width then width else |s|
    ensures r[|r| - |s|..] == s
    ensures forall i :: 0 <= i < |r| - |s| ==> r[i] == fill
    ensures AllDigits(s) && IsDigit(fill) ==> AllDigits(r)
  {
    if |s| >= width then s else seq(width - |s|, _ => fill) + s
  }

  lemma Pow10Values()
    ensures Pow10(3) == 1000
    ensures Pow10(10) == 10_000_000_000
    ensures Pow10(13) == 10_000_000_000_000
  {
    assert Pow10(1) == 10;
    assert Pow10(2) == 100;
    assert Pow10(3) == 1000;
    assert Pow10(4) == 10_000;
    assert Pow10(5) == 100_000;
    assert Pow10(6) == 1_000_000;
    assert Pow10(7) == 10_000_000;
    assert Pow10(8) == 100_000_000;
    assert Pow10(9) == 1_000_000_000;
    assert Pow10(10) == 10_000_000_000;
    assert Pow10(11) == 100_000_000_000;
    assert Pow10(12) == 1_000_000_000_000;
  }

  /** Parsing the decimal text of `n` gives back `n`. */
  lemma {:induction false} ParseDecimalString(n: nat)
    ensures ParseDecimal(DecimalString(n)) == n
  {
    if n >= 10 {
      var s := DecimalString(n);
      assert s[..|s| - 1] == DecimalString(n / 10);
      ParseDecimalString(n / 10);
    }
  }

  /** Distinct numbers have distinct decimal text. */
  lemma DecimalStringInjective(m: nat, n: nat)
    ensures DecimalString(m) == DecimalString(n) ==> m == n
  {
    ParseDecimalString(m);
    ParseDecimalString(n);
  }

  /** A number below 10^w has at most w decimal digits. */
  lemma {:induction false} DecimalStringLength(n: nat, w: nat)
    requires w >= 1 && n < Pow10(w)
    ensures |DecimalString(n)| <= w
  {
    if n >= 10 {
      assert w >= 2;
      assert n / 10 < Pow10(w - 1);
      DecimalStringLength(n / 10, w - 1);
    }
  }

  /** Parsing a concatenation shifts the left part by the length of the right part. */
  lemma {:induction false} ParseConcat(a: string, b: string)
    requires AllDigits(a) && AllDigits(b)
    ensures AllDigits(a + b)
    ensures ParseDecimal(a + b) == ParseDecimal(a) * Pow10(|b|) + ParseDecimal(b)
  {
    if b == [] {
      assert a + b == a;
    } else {
      var b' := b[..|b| - 1];
      var c := b[|b| - 1];
      assert (a + b)[..|a + b| - 1] == a + b';
      ParseConcat(a, b');
      assert ParseDecimal(a + b) == ParseDecimal(a + b') * 10 + DigitValue(c);
      assert ParseDecimal(b) == ParseDecimal(b') * 10 + DigitValue(c);
      ShiftStep(ParseDecimal(a), Pow10(|b'|), ParseDecimal(b'), DigitValue(c));
    }
  }

  lemma ShiftStep(x: int, p: int, y: int, d: int)
    ensures (x * p + y) * 10 + d == x * (10 * p) + (y * 10 + d)
  {
    assert (x * p) * 10 == x * (10 * p);
  }

  /** Leading zeros do not change the parsed value. */
  lemma {:induction false} ParseZeros(k: nat)
    ensures AllDigits(seq(k, _ => '0'))
    ensures ParseDecimal(seq(k, _ => '0')) == 0
  {
    if k > 0 {
      var z := seq(k, _ => '0');
      assert z[..k - 1] == seq(k - 1, _ => '0');
      ParseZeros(k - 1);
    }
  }

  /** A number that fits `w` digits, zero-padded to `w`, is exactly `w` characters and parses back. */
  lemma PaddedDecimal(n: nat, w: nat)
    requires w >= 1 && n < Pow10(w)
    ensures AllDigits(PadStart(DecimalString(n), w, '0'))
    ensures |PadStart(DecimalString(n), w, '0')| == w
    ensures ParseDecimal(PadStart(DecimalString(n), w, '0')) == n
  {
    var s := DecimalString(n);
    DecimalStringLength(n, w);
    ParseDecimalString(n);
    if |s| < w {
      var z := seq(w - |s|, _ => '0');
      assert PadStart(s, w, '0') == z + s;
      ParseZeros(w - |s|);
      ParseConcat(z, s);
    }
  }

  lemma MulAtLeast(x: int, d: nat)
    requires x >= 1
    ensures x * d >= d
  {
  }

  /** Euclidean division recovers the quotient and remainder it was built from. */
  lemma DivModFields(q: nat, r: nat, d: nat)
    requires 0 <= r < d
    ensures (q * d + r) / d == q && (q * d + r) % d == r
  {
    var n := q * d + r;
    var q', r' := n / d, n % d;
    assert n == q' * d + r';
    assert (q - q') * d == q * d - q' * d;
    assert (q - q') * d == r' - r;
    if q > q' {
      MulAtLeast(q - q', d);
    } else if q < q' {
      assert (q' - q) * d == -((q - q') * d);
      MulAtLeast(q' - q, d);
    }
  }

  // ---------------------------------------------------------------------------
  // The serialization-id layout shared by both activity models.

  /** Milliseconds, then the object id padded to ten digits, then the verb id padded to three. */
  function SerializationText(time: nat, objectId: nat, verbId: nat): (s: string)
    ensures AllDigits(s)
  {
    DecimalString(time) + PadStart(DecimalString(objectId), 10, '0') + PadStart(DecimalString(verbId), 3, '0')
  }

  /** The layout read as a number: three fixed-width decimal fields. */
  function LayoutValue(time: nat, objectId: nat, verbId: nat): nat {
    time * 10_000_000_000_000 + objectId * 1000 + verbId
  }

  /** Within the digit budgets, parsing the layout text gives the three fields in fixed-width positions. */
  lemma SerializationTextValue(time: nat, objectId: nat, verbId: nat)
    requires objectId < 10_000_000_000 && verbId < 1000
    ensures ParseDecimal(SerializationText(time, objectId, verbId)) == LayoutValue(time, objectId, verbId)
  {
    var t := DecimalString(time);
    var o := PadStart(DecimalString(objectId), 10, '0');
    var v := PadStart(DecimalString(verbId), 3, '0');
    Pow10Values();
    PaddedDecimal(objectId, 10);
    PaddedDecimal(verbId, 3);
    ParseDecimalString(time);
    ParseConcat(t, o);
    ParseConcat(t + o, v);
  }

  /** The three fields can be read back from the layout value. */
  lemma LayoutDecodes(time: nat, objectId: nat, verbId: nat)
    requires objectId < 10_000_000_000 && verbId < 1000
    ensures LayoutValue(time, objectId, verbId) / 10_000_000_000_000 == time
    ensures LayoutValue(time, objectId, verbId) / 1000 % 10_000_000_000 == objectId
    ensures LayoutValue(time, objectId, verbId) % 1000 == verbId
  {
    DivModFields(time, objectId * 1000 + verbId, 10_000_000_000_000);
    assert LayoutValue(time, objectId, verbId) == (time * 10_000_000_000 + objectId) * 1000 + verbId;
    DivModFields(time * 10_000_000_000 + objectId, verbId, 1000);
    DivModFields(time, objectId, 10_000_000_000);
  }

  /** Layout values compare as (time, object id, verb id) compare lexicographically. */
  lemma LayoutOrder(t1: nat, o1: nat, v1: nat, t2: nat, o2: nat, v2: nat)
    requires o1 < 10_000_000_000 && v1 < 1000 && o2 < 10_000_000_000 && v2 < 1000
    ensures LayoutValue(t1, o1, v1) < LayoutValue(t2, o2, v2) <==>
              t1 < t2 || (t1 == t2 && (o1 < o2 || (o1 == o2 && v1 < v2)))
  {
  }
}
