/** Numbers as the catalog writes them: reading a decimal numeral exactly,
    over `real`, and writing a count with thousands separators. */
module Numbers {
  import opened Wrappers

  // ---------------------------------------------------------------------------
  // Digits
  // ---------------------------------------------------------------------------

  predicate IsDigit(c: char)
  {
    '0' <= c <= '9'
  }

  predicate AllDigits(s: string)
  {
    forall i :: 0 <= i < |s| ==> IsDigit(s[i])
  }

  function DigitValue(c: char): nat
    requires IsDigit(c)
  {
    c as int - '0' as int
  }

  function DigitChar(d: nat): (c: char)
    requires d < 10
    ensures IsDigit(c) && DigitValue(c) == d
  {
    ('0' as int + d) as char
  }

  function Pow10(n: nat): (r: nat)
    ensures r > 0
  {
    if n == 0 then 1 else 10 * Pow10(n - 1)
  }

  /** The value of a string of decimal digits read left to right; "" reads as 0. */
  function DigitsValue(s: string): nat
    requires AllDigits(s)
  {
    if s == [] then 0 else DigitsValue(s[..|s| - 1]) * 10 + DigitValue(s[|s| - 1])
  }

  /** The value of the digits written after a decimal point. */
  function FractionValue(s: string): (r: real)
    requires AllDigits(s)
    ensures 0.0 <= r < 1.0
  {
    if s == [] then 0.0 else (DigitValue(s[0]) as real + FractionValue(s[1..])) / 10.0
  }

  // ---------------------------------------------------------------------------
  // Reading a numeral: the model of pd.to_numeric(x, errors="coerce")
  // ---------------------------------------------------------------------------

  /** The position of the first '.', or |s| when there is none. */
  function DotIndex(s: string): (k: nat)
    ensures k <= |s|
    ensures forall i :: 0 <= i < k ==> s[i] != '.'
    ensures k < |s| ==> s[k] == '.'
  {
    if s == [] then 0 else if s[0] == '.' then 0 else 1 + DotIndex(s[1..])
  }

  /** The unsigned grammar `digits ["." digits]` with at least one digit on
      some side of the point ("5", "4.2", "5.", ".5"). */
  function ParseUnsigned(s: string): (r: Option<real>)
    ensures r.Some? ==> |s| > 0 && forall i :: 0 <= i < |s| ==> IsDigit(s[i]) || s[i] == '.'
    ensures r.Some? ==> r.value >= 0.0
  {
    var k := DotIndex(s);
    var whole := s[..k];
    var frac := if k < |s| then s[k + 1..] else [];
    if AllDigits(whole) && AllDigits(frac) && |whole| + |frac| > 0 then
      assert forall i :: 0 <= i < |s| ==> IsDigit(s[i]) || s[i] == '.' by {
        forall i | 0 <= i < |s| ensures IsDigit(s[i]) || s[i] == '.' {
          if i < k { assert s[i] == whole[i]; }
          else if i > k { assert s[i] == frac[i - k - 1]; }
        }
      }
      Some(DigitsValue(whole) as real + FractionValue(frac))
    else
      None
  }

  predicate IsNumeralChar(c: char)
  {
    IsDigit(c) || c == '.' || c == '+' || c == '-'
  }

  /** A decimal numeral with an optional sign, or None: text that is not a
      numeral becomes a missing value. */
  function ParseNumber(s: string): (r: Option<real>)
    ensures r.Some? ==> |s| > 0 && forall i :: 0 <= i < |s| ==> IsNumeralChar(s[i])
  {
    if |s| > 0 && (s[0] == '-' || s[0] == '+') then
      var u := ParseUnsigned(s[1..]);
      if u.None? then None
      else
        assert forall i :: 1 <= i < |s| ==> s[i] == s[1..][i - 1];
        Some(if s[0] == '-' then -u.value else u.value)
    else
      ParseUnsigned(s)
  }

  /** Text with a character outside digits, sign and point is not a number. */
  lemma ParseRejects(s: string, i: int)
    requires 0 <= i < |s| && !IsNumeralChar(s[i])
    ensures ParseNumber(s) == None
  {
  }

  /** A non-empty digit string reads as its decimal value. */
  lemma ParseDigits(d: string)
    requires |d| > 0 && AllDigits(d)
    ensures ParseNumber(d) == Some(DigitsValue(d) as real)
  {
    assert IsDigit(d[0]);
    NoDotIndex(d);
    assert d[..|d|] == d;
  }

  /** A sign in front of a digit string: '-' negates its value and '+' keeps it. */
  lemma ParseSigned(s: string)
    requires |s| > 1 && (s[0] == '-' || s[0] == '+') && AllDigits(s[1..])
    ensures s[0] == '-' ==> ParseNumber(s) == Some(-(DigitsValue(s[1..]) as real))
    ensures s[0] == '+' ==> ParseNumber(s) == Some(DigitsValue(s[1..]) as real)
  {
    UnsignedDigits(s[1..]);
    SignedNumber(s, DigitsValue(s[1..]) as real);
  }

  /** A digit string read without a sign. */
  lemma UnsignedDigits(d: string)
    requires |d| > 0 && AllDigits(d)
    ensures ParseUnsigned(d) == Some(DigitsValue(d) as real)
  {
    ParseDigits(d);
    UnsignedNumber(d);
  }

  /** A signed numeral reads as its unsigned rest, negated after a '-'. */
  lemma SignedNumber(s: string, v: real)
    requires |s| > 1 && ParseUnsigned(s[1..]) == Some(v)
    ensures s[0] == '-' ==> ParseNumber(s) == Some(-v)
    ensures s[0] == '+' ==> ParseNumber(s) == Some(v)
  {
  }

  /** Digits alone have no point: the whole text is read before it. */
  lemma NoDotIndex(d: string)
    requires AllDigits(d)
    ensures DotIndex(d) == |d|
  {
    assert forall i :: 0 <= i < |d| ==> IsDigit(d[i]);
  }

  /** A numeral "a.b" with a single digit after the point reads as a + b/10,
      the form of the catalog's ratings ("4.2"). */
  lemma ParseOneDecimal(whole: string, b: char)
    requires |whole| > 0 && AllDigits(whole) && IsDigit(b)
    ensures ParseNumber(whole + "." + [b]) == Some(DigitsValue(whole) as real + DigitValue(b) as real / 10.0)
  {
    var s := whole + "." + [b];
    PointAfter(whole, b);
    UnsignedAtPoint(s, |whole|);
    UnsignedNumber(s);
    FractionOneDigit(b);
  }

  /** The parts of "a.b" around its only point. */
  lemma PointAfter(whole: string, b: char)
    requires |whole| > 0 && AllDigits(whole)
    ensures var s := whole + "." + [b];
      |s| == |whole| + 2 && DotIndex(s) == |whole| && IsDigit(s[0]) &&
      s[..|whole|] == whole && s[|whole| + 1..] == [b]
  {
    var s := whole + "." + [b];
    var k := |whole|;
    assert s[0] == whole[0];
    assert forall i :: 0 <= i < k ==> s[i] == whole[i] && IsDigit(whole[i]);
    DotIndexOf(s, k);
    assert s[..k] == whole && s[k + 1..] == [b];
  }

  /** With the point at k, the unsigned reading is whole part plus fraction. */
  lemma UnsignedAtPoint(s: string, k: nat)
    requires k < |s| && DotIndex(s) == k
    requires AllDigits(s[..k]) && AllDigits(s[k + 1..]) && |s| > 1
    ensures ParseUnsigned(s) == Some(DigitsValue(s[..k]) as real + FractionValue(s[k + 1..]))
  {
  }

  /** A numeral that starts with a digit has no sign to read. */
  lemma UnsignedNumber(s: string)
    requires |s| > 0 && IsDigit(s[0])
    ensures ParseNumber(s) == ParseUnsigned(s)
  {
  }

  lemma FractionOneDigit(b: char)
    requires IsDigit(b)
    ensures FractionValue([b]) == DigitValue(b) as real / 10.0
  {
    assert [b][1..] == [];
  }

  lemma {:induction false} DotIndexOf(s: string, k: nat)
    requires k < |s| && s[k] == '.'
    requires forall i :: 0 <= i < k ==> s[i] != '.'
    ensures DotIndex(s) == k
  {
    if k > 0 {
      assert s[1..][k - 1] == '.';
      DotIndexOf(s[1..], k - 1);
    }
  }

  // ---------------------------------------------------------------------------
  // Writing a numeral: the forms in which the catalog stores its numbers
  // ---------------------------------------------------------------------------

  /** The decimal digits of n, without leading zeros. */
  function ShowNat(n: nat): (s: string)
    ensures |s| > 0 && AllDigits(s)
  {
    if n < 10 then [DigitChar(n)] else ShowNat(n / 10) + [DigitChar(n % 10)]
  }

  /** Exactly three digits, with leading zeros: one group after a comma. */
  function Pad3(n: nat): (s: string)
    requires n < 1000
    ensures |s| == 3 && AllDigits(s)
  {
    [DigitChar(n / 100), DigitChar(n / 10 % 10), DigitChar(n % 10)]
  }

  /** n with a comma between each group of three digits, as in "1,299". */
  function Grouped(n: nat): (s: string)
    ensures |s| > 0
    ensures forall i :: 0 <= i < |s| ==> IsDigit(s[i]) || s[i] == ','
  {
    if n < 1000 then ShowNat(n) else Grouped(n / 1000) + "," + Pad3(n % 1000)
  }

  lemma {:induction false} ShowNatValue(n: nat)
    ensures DigitsValue(ShowNat(n)) == n
  {
    var s := ShowNat(n);
    if n >= 10 {
      ShowNatValue(n / 10);
      assert s[..|s| - 1] == ShowNat(n / 10);
    } else {
      assert s[..0] == [];
    }
  }

  lemma Pad3Value(n: nat)
    requires n < 1000
    ensures DigitsValue(Pad3(n)) == n
  {
    var s := Pad3(n);
    var q := n / 10;
    assert n == q * 10 + n % 10;
    assert q == (n / 100) * 10 + q % 10;
    assert s[..2][..1] == [s[0]];
    assert s[..2][..1][..0] == [];
    assert DigitsValue(s[..2][..1]) == n / 100;
    assert s[..2][1] == s[1];
    assert DigitsValue(s[..2]) == (n / 100) * 10 + q % 10;
    assert DigitsValue(s) == DigitsValue(s[..2]) * 10 + n % 10;
  }

  lemma {:induction false} DigitsValueConcat(a: string, b: string)
    requires AllDigits(a) && AllDigits(b)
    ensures AllDigits(a + b)
    ensures DigitsValue(a + b) == DigitsValue(a) * Pow10(|b|) + DigitsValue(b)
  {
    if b == [] {
      assert a + b == a;
    } else {
      var b' := b[..|b| - 1];
      assert (a + b)[..|a + b| - 1] == a + b';
      DigitsValueConcat(a, b');
      var x, p, y, d := DigitsValue(a), Pow10(|b'|), DigitsValue(b'), DigitValue(b[|b| - 1]);
      assert (a + b)[|a + b| - 1] == b[|b| - 1];
      assert DigitsValue(a + b) == DigitsValue(a + b') * 10 + d;
      assert b[..|b| - 1] == b';
      assert DigitsValue(b) == y * 10 + d;
      assert Pow10(|b|) == p * 10;
      ShiftDigit(x, p, y, d);
    }
  }

  /** Appending a digit to x * p + y multiplies both parts by ten. */
  lemma ShiftDigit(x: int, p: int, y: int, d: int)
    ensures (x * p + y) * 10 + d == x * (p * 10) + (y * 10 + d)
  {
  }
}
