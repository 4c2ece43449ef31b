/**
 * The numeric step of the reply parser (app.py, `parse_gemini_response`):
 * keep only the digits and decimal points of the score text, read the result
 * as a Python `float`, round it with Python 3's `round` (nearest integer,
 * ties to even) and render it with `str`.
 *
 * The number is kept exact: a decimal digit string `d1..dn` with a point
 * before the last `k` digits stands for the rational `d1..dn / 10^k`.
 */
module Score {
  import opened Wrappers

  predicate IsDigit(c: char) {
    '0' <= c <= '9'
  }

  /** The characters the filter keeps: `c.isdigit() or c == '.'`, on ASCII. */
  predicate IsNumericChar(c: char) {
    IsDigit(c) || c == '.'
  }

  predicate AllDigits(s: string) {
    forall i :: 0 <= i < |s| ==> IsDigit(s[i])
  }

  predicate AllNumeric(s: string) {
    forall i :: 0 <= i < |s| ==> IsNumericChar(s[i])
  }

  /**
   * `''.join(c for c in s if c.isdigit() or c == '.')`: the result holds only
   * digits and points, and a string that is already numeric passes unchanged
   * (`KeepNumericConcat` shows it keeps them in order).
   */
  function KeepNumeric(s: string): (r: string)
    ensures AllNumeric(r)
    ensures AllNumeric(s) ==> r == s
  {
    if s == [] then []
    else
      var init := s[..|s| - 1];
      var t := KeepNumeric(init);
      assert s == init + [s[|s| - 1]];
      if IsNumericChar(s[|s| - 1]) then t + [s[|s| - 1]] else t
  }

  /** The filter works character by character: it keeps a digit or point and drops anything else ... */
  lemma KeepNumericChar(c: char)
    ensures KeepNumeric([c]) == if IsNumericChar(c) then [c] else []
  {
    assert [c][..0] == [];
  }

  /** ... and it keeps the survivors in their original order. */
  lemma {:induction false} KeepNumericConcat(a: string, b: string)
    ensures KeepNumeric(a + b) == KeepNumeric(a) + KeepNumeric(b)
    decreases |b|
  {
    if b == [] {
      assert a + b == a;
    } else {
      var init := b[..|b| - 1];
      assert (a + b)[..|a + b| - 1] == a + init;
      assert (a + b)[|a + b| - 1] == b[|b| - 1];
      KeepNumericConcat(a, init);
    }
  }

  function DigitValue(c: char): (v: nat)
    requires IsDigit(c)
    ensures v < 10
  {
    c as int - '0' as int
  }

  function DigitChar(v: nat): (c: char)
    requires v < 10
    ensures IsDigit(c) && DigitValue(c) == v
  {
    ('0' as int + v) as char
  }

  /** The value of a string of decimal digits, most significant first (Python's `int`). */
  function DigitsValue(s: string): nat
    requires AllDigits(s)
  {
    if s == [] then 0 else 10 * DigitsValue(s[..|s| - 1]) + DigitValue(s[|s| - 1])
  }

  function Pow10(k: nat): (p: nat)
    ensures p >= 1
  {
    if k == 0 then 1 else 10 * Pow10(k - 1)
  }

  /** The exact rational `mantissa / 10^scale`. */
  datatype Decimal = Decimal(mantissa: nat, scale: nat)

  /** Index of the first `.` in `s`, or `|s|` when there is none. */
  function DotIndex(s: string): (i: nat)
    ensures i <= |s|
    ensures '.' !in s[..i]
    ensures i < |s| ==> s[i] == '.'
  {
    if s == [] || s[0] == '.' then 0
    else
      var j := DotIndex(s[1..]);
      assert s[..1 + j] == [s[0]] + s[1..][..j];
      1 + j
  }

  predicate AtMostOneDot(s: string) {
    forall i, j :: 0 <= i < j < |s| && s[i] == '.' ==> s[j] != '.'
  }

  predicate HasDigit(s: string) {
    exists i :: 0 <= i < |s| && IsDigit(s[i])
  }

  /**
   * Python's `float(s)` on a string of digits and points. Such a string is a
   * float literal exactly when it has at most one point and at least one
   * digit (`""`, `"."` and `"1.2.3"` raise ValueError); its value is the digits
   * read as one integer, divided by ten to the number of digits after the point.
   */
  function ParseFloat(s: string): (r: Option<Decimal>)
    requires AllNumeric(s)
    ensures r.Some? <==> AtMostOneDot(s) && HasDigit(s)
    ensures r.Some? && '.' !in s ==> AllDigits(s) && r.value == Decimal(DigitsValue(s), 0)
  {
    var d := DotIndex(s);
    assert AllDigits(s[..d]);
    if d == |s| then
      assert s[..d] == s;
      if s == [] then None
      else
        assert IsDigit(s[0]);
        Some(Decimal(DigitsValue(s), 0))
    else
      var whole, frac := s[..d], s[d + 1..];
      if '.' in frac then
        var j :| 0 <= j < |frac| && frac[j] == '.';
        assert s[d + 1 + j] == '.';
        None
      else
        assert AllDigits(frac);
        assert AtMostOneDot(s);
        if whole + frac == [] then
          assert s == ".";
          None
        else
          assert whole != [] ==> IsDigit(s[0]);
          assert whole == [] ==> IsDigit(s[d + 1]);
          Some(Decimal(DigitsValue(whole + frac), |frac|))
  }

  /** Distance between two naturals. */
  function Dist(a: nat, b: nat): nat {
    if a <= b then b - a else a - b
  }

  /**
   * `n` is what Python 3's `round` returns for the exact value of `d`: an
   * integer no farther than one half from it, and an even one when it lies
   * exactly halfway between two integers.
   */
  ghost predicate IsRoundedHalfEven(n: nat, d: Decimal) {
    && 2 * Dist(n * Pow10(d.scale), d.mantissa) <= Pow10(d.scale)
    && (2 * Dist(n * Pow10(d.scale), d.mantissa) == Pow10(d.scale) ==> n % 2 == 0)
  }

  /** `round(d)`: the integer part, plus one when the fraction is above one half or exactly one half after an odd integer part. */
  function RoundHalfEven(d: Decimal): (n: nat)
    ensures IsRoundedHalfEven(n, d)
  {
    var p := Pow10(d.scale);
    var q, rem := Quotient(d.mantissa, p), d.mantissa % p;
    Neighbours(d.mantissa, p);
    if 2 * rem < p || (2 * rem == p && q % 2 == 0) then q else q + 1
  }

  /** Division of naturals, as a natural. */
  function Quotient(m: nat, p: nat): (q: nat)
    requires p >= 1
    ensures q * p <= m < q * p + p
  {
    m / p
  }

  /** The two integers around `m / p` lie `m % p` below and `p - m % p` above it, in units of `1 / p`. */
  lemma Neighbours(m: nat, p: nat)
    requires p >= 1
    ensures Dist(Quotient(m, p) * p, m) == m % p
    ensures Dist((Quotient(m, p) + 1) * p, m) == p - m % p
  {
    var q, rem := m / p, m % p;
    assert m == q * p + rem;
    assert (q + 1) * p == q * p + p;
  }

  /** The canonical text of a natural number: digits only, no leading zero except in "0". */
  predicate IsNatText(s: string) {
    && |s| >= 1
    && AllDigits(s)
    && (s[0] == '0' ==> |s| == 1)
  }

  /** Python's `str(n)` for a natural number; `int` reads the value back. */
  function NatToString(n: nat): (r: string)
    ensures IsNatText(r) && DigitsValue(r) == n
  {
    if n < 10 then [DigitChar(n)]
    else
      var r := NatToString(n / 10) + [DigitChar(n % 10)];
      assert r[..|r| - 1] == NatToString(n / 10);
      r
  }

  /**
   * The score text as the parser stores it: `str(round(float(filtered)))`
   * when the filtered text is a float literal, and `"0"` when `float` raises
   * ValueError. Either way the stored text is a canonical natural number.
   */
  function ParseScore(text: string): (r: string)
    ensures IsNatText(r)
    ensures ParseFloat(KeepNumeric(text)).None? ==> r == "0"
    ensures ParseFloat(KeepNumeric(text)).Some? ==>
      IsRoundedHalfEven(DigitsValue(r), ParseFloat(KeepNumeric(text)).value)
  {
    match ParseFloat(KeepNumeric(text))
    case None => "0"
    case Some(d) => NatToString(RoundHalfEven(d))
  }

  /** Multiplication by `p` distributes over a sum, and a factor of at least two at least doubles `p`. */
  lemma ScaleFacts(lo: int, k: int, p: int)
    ensures (lo + k) * p == lo * p + k * p
    ensures k >= 1 && p >= 0 ==> k * p >= p
    ensures k >= 2 && p >= 0 ==> k * p >= 2 * p
  {
  }

  /** The two conditions of `IsRoundedHalfEven` leave no choice: they pin down `RoundHalfEven(d)`. */
  lemma RoundHalfEvenUnique(n: nat, d: Decimal)
    requires IsRoundedHalfEven(n, d)
    ensures n == RoundHalfEven(d)
  {
    var r := RoundHalfEven(d);
    if n != r {
      // two candidates within half a unit of the value would be one unit apart
      // with the value exactly halfway, and they cannot both be even
      var lo, hi := if n < r then n else r, if n < r then r else n;
      ScaleFacts(lo, hi - lo, Pow10(d.scale));
      assert false;
    }
  }

  /** Appending digit `d` to the decimal text of `a` gives `10 * a + d`, which splits back into `a` and `d`. */
  lemma DecimalShift(a: nat, d: nat)
    requires d < 10
    ensures (10 * a + d) / 10 == a && (10 * a + d) % 10 == d
  {
  }

  /** `str` and `int` are inverse on canonical texts: the text of a natural number is unique. */
  lemma {:induction false} NatTextUnique(s: string)
    requires IsNatText(s)
    ensures NatToString(DigitsValue(s)) == s
    decreases |s|
  {
    var init, last := s[..|s| - 1], s[|s| - 1];
    if |s| > 1 {
      assert IsNatText(init);
      NatTextUnique(init);
      var a := DigitsValue(init);
      assert a != 0;
      DecimalShift(a, DigitValue(last));
      assert DigitChar(DigitValue(last)) == last;
      assert s == init + [last];
    } else {
      assert s == [last];
    }
  }

  /** The numeric step applied to a float literal with value `d` stores the text of the rounded value. */
  lemma ParseScoreRounds(text: string, d: Decimal, n: nat)
    requires ParseFloat(KeepNumeric(text)) == Some(d)
    requires IsRoundedHalfEven(n, d)
    ensures ParseScore(text) == NatToString(n)
  {
    RoundHalfEvenUnique(n, d);
  }

  /** A canonical natural-number text is a float literal whose value is that number. */
  lemma NatTextIsFloat(t: string)
    requires IsNatText(t)
    ensures ParseFloat(KeepNumeric(t)) == Some(Decimal(DigitsValue(t), 0))
  {
    assert AllNumeric(t) by {
      forall i | 0 <= i < |t| ensures IsNumericChar(t[i]) {
        assert IsDigit(t[i]);
      }
    }
    assert '.' !in t by {
      forall i | 0 <= i < |t| ensures t[i] != '.' {
        assert IsDigit(t[i]);
      }
    }
  }

  /** A stored score read back through the parser's numeric step is unchanged. */
  lemma ParseScoreOfNatText(n: nat)
    ensures ParseScore(NatToString(n)) == NatToString(n)
  {
    var t := NatToString(n);
    NatTextIsFloat(t);
    assert IsRoundedHalfEven(n, Decimal(n, 0)) by {
      assert Pow10(0) == 1;
    }
    ParseScoreRounds(t, Decimal(n, 0), n);
  }

  /** In `whole.frac`, every position but the point holds a digit. */
  lemma DigitsAroundPoint(s: string, whole: string, frac: string)
    requires AllDigits(whole) && AllDigits(frac)
    requires s == whole + "." + frac
    ensures s[|whole|] == '.'
    ensures forall i :: 0 <= i < |s| && i != |whole| ==> IsDigit(s[i])
  {
    forall i | 0 <= i < |s| && i != |whole| ensures IsDigit(s[i]) {
      if i < |whole| { assert s[i] == whole[i]; } else { assert s[i] == frac[i - |whole| - 1]; }
    }
  }

  /** In `whole.frac`, the first point is the one after `whole` ... */
  lemma PointIndex(s: string, whole: string, frac: string)
    requires AllDigits(whole) && AllDigits(frac)
    requires s == whole + "." + frac
    ensures AllNumeric(s) && DotIndex(s) == |whole|
    ensures s[..|whole|] == whole && s[|whole| + 1..] == frac
  {
    DigitsAroundPoint(s, whole, frac);
    assert s[..|whole|] == whole && s[|whole| + 1..] == frac;
  }

  /** ... and digits hold no point. */
  lemma DigitsNoPoint(t: string)
    requires AllDigits(t)
    ensures '.' !in t
  {
  }

  /**
   * A literal `whole.frac` made of digits around one point is a float literal
   * (when it has a digit at all) whose value is the digits of `whole + frac`
   * divided by ten to the length of `frac`.
   */
  lemma DecimalLiteral(s: string, whole: string, frac: string)
    requires AllDigits(whole) && AllDigits(frac) && whole + frac != []
    requires s == whole + "." + frac
    ensures ParseFloat(KeepNumeric(s)) == Some(Decimal(DigitsValue(whole + frac), |frac|))
  {
    PointIndex(s, whole, frac);
    DigitsNoPoint(frac);
  }

  /** A literal `whole.frac` is stored as the text of its value rounded half to even. */
  lemma ParseScoreOfLiteral(text: string, whole: string, frac: string, stored: string)
    requires AllDigits(whole) && AllDigits(frac) && whole + frac != []
    requires text == whole + "." + frac
    requires IsNatText(stored)
    requires IsRoundedHalfEven(DigitsValue(stored), Decimal(DigitsValue(whole + frac), |frac|))
    ensures ParseScore(text) == stored
  {
    DecimalLiteral(text, whole, frac);
    ParseScoreRounds(text, Decimal(DigitsValue(whole + frac), |frac|), DigitsValue(stored));
    NatTextUnique(stored);
  }
}
