/** The few pieces of Java semantics the core relies on: `null`, 32-bit
    `int` arithmetic (truncating division with its one overflow case) and the
    decimal rendering that string concatenation applies to numbers and `null`. */
module JavaLang {

  /** A Java reference that may be `null`: `None` stands for `null`. */
  datatype Option<+T> = None | Some(value: T)

  const INT_MIN: int := -0x8000_0000
  const INT_MAX: int := 0x7FFF_FFFF

  /** Java's primitive `int` (and the value of a non-null `Integer`). */
  newtype int32 = x: int | INT_MIN <= x <= INT_MAX

  function Abs(x: int): nat
  {
    if x < 0 then -x else x
  }

  /** Two's-complement wrap-around of an unbounded integer into `int`. */
  function Wrap32(x: int): (r: int32)
    ensures INT_MIN <= x <= INT_MAX ==> r as int == x
    ensures (x - r as int) % 0x1_0000_0000 == 0
  {
    ((x - INT_MIN) % 0x1_0000_0000 + INT_MIN) as int32
  }

  /** Integer division rounded toward zero, as Java (and C) define it; Dafny's
      own `/` is Euclidean and differs whenever an operand is negative. */
  function TruncDiv(a: int, b: int): (q: int)
    requires b != 0
    ensures Abs(a - q * b) < Abs(b)
    ensures a - q * b == 0 || (a - q * b < 0 <==> a < 0)
    ensures Abs(q) == Abs(a) / Abs(b)
  {
    var n: int := Abs(a) / Abs(b);
    var q := if (a < 0) == (b < 0) then n else -n;
    TruncDivRemainder(a, b, n, q);
    q
  }

  lemma TruncDivRemainder(a: int, b: int, n: int, q: int)
    requires b != 0 && n == Abs(a) / Abs(b)
    requires q == if (a < 0) == (b < 0) then n else -n
    ensures Abs(a - q * b) < Abs(b)
    ensures a - q * b == 0 || (a - q * b < 0 <==> a < 0)
    ensures Abs(q) == Abs(a) / Abs(b)
  {
    var A: int, B: int := Abs(a), Abs(b);
    QuotientNonNegative(A, B);
    assert n >= 0;
    var r: int := A % B;
    var p: int := n * B;
    assert A == p + r && 0 <= r < B;
    SignedProduct(n, B, (a < 0) != (b < 0), b < 0);
    assert b == (if b < 0 then -B else B);
    var qb: int := q * b;
    assert qb == (if a < 0 then -p else p);
    SignedRemainder(a, b, r, p, qb);
    assert Abs(q) == n;
  }

  lemma QuotientNonNegative(x: int, d: int)
    requires x >= 0 && d > 0
    ensures x / d >= 0
  {
  }

  /** The linear part of the argument: subtracting the signed multiple of the
      divisor leaves the remainder, with the dividend's sign. */
  lemma SignedRemainder(a: int, b: int, r: int, p: int, qb: int)
    requires b != 0 && Abs(a) == p + r && 0 <= r < Abs(b)
    requires qb == if a < 0 then -p else p
    ensures Abs(a - qb) < Abs(b)
    ensures a - qb == 0 || (a - qb < 0 <==> a < 0)
  {
  }

  /** The product of two signed magnitudes is the product of the magnitudes,
      negated when exactly one sign is negative. */
  lemma SignedProduct(n: int, m: int, negN: bool, negM: bool)
    ensures (if negN then -n else n) * (if negM then -m else m) == if negN == negM then n * m else -(n * m)
  {
    if negN && negM {
      calc { (-n) * (-m); { NegateProduct(-n, m); } -((-n) * m); { NegateProduct(n, m); } n * m; }
    } else if negN {
      NegateProduct(n, m);
    } else if negM {
      NegateProduct(n, m);
    }
  }

  lemma NegateProduct(x: int, y: int)
    ensures x * -y == -(x * y) && -x * y == -(x * y)
  {
  }

  lemma QuotientBound(x: nat, d: nat)
    requires d >= 1
    ensures x / d <= x
    ensures d >= 2 ==> x / d <= x / 2
  {
    var q: int := x / d;
    QuotientNonNegative(x, d);
    QuotientTimesDivisor(x, d);
    ScaleAtLeast(q, d, 1);
    if d >= 2 {
      ScaleAtLeast(q, d, 2);
    }
  }

  lemma QuotientTimesDivisor(x: int, d: int)
    requires x >= 0 && d > 0
    ensures (x / d) * d <= x
  {
  }

  /** Scaling a non-negative number by a larger factor gives a larger product. */
  lemma ScaleAtLeast(q: int, d: int, k: int)
    requires q >= 0 && d >= k
    ensures q * d >= q * k
  {
    assert q * d == q * k + q * (d - k);
  }

  /** Java's `a / b` on `int` operands: truncating division whose only
      overflow, `Integer.MIN_VALUE / -1`, wraps back to `Integer.MIN_VALUE`. */
  function JavaDiv(a: int32, b: int32): (q: int32)
    requires b != 0
    ensures a as int == INT_MIN && b == -1 ==> q == a
    ensures !(a as int == INT_MIN && b == -1) ==> q as int == TruncDiv(a as int, b as int)
  {
    var t := TruncDiv(a as int, b as int);
    QuotientBound(Abs(a as int), Abs(b as int));
    Wrap32(t)
  }

  predicate IsDigit(c: char)
  {
    '0' <= c <= '9'
  }

  predicate AllDigits(s: string)
  {
    forall i :: 0 <= i < |s| ==> IsDigit(s[i])
  }

  function DigitChar(d: nat): (c: char)
    requires d < 10
    ensures IsDigit(c) && c as int - '0' as int == d
  {
    ('0' as int + d) as char
  }

  /** The decimal digits of `n`, most significant first, without leading zeros. */
  function NatToDecimal(n: nat): (s: string)
    ensures |s| > 0 && AllDigits(s)
    ensures s[0] == '0' <==> n == 0
    ensures s[0] == '0' ==> s == "0"
    decreases n
  {
    if n < 10 then [DigitChar(n)] else NatToDecimal(n / 10) + [DigitChar(n % 10)]
  }

  /** The number a string of decimal digits denotes (reference reading). */
  function DecimalValue(s: string): nat
    requires AllDigits(s)
  {
    if s == [] then 0
    else DecimalValue(s[..|s| - 1]) * 10 + (s[|s| - 1] as int - '0' as int)
  }

  lemma {:induction false} DecimalRoundTrip(n: nat)
    ensures DecimalValue(NatToDecimal(n)) == n
    decreases n
  {
    var s := NatToDecimal(n);
    if n >= 10 {
      DecimalRoundTrip(n / 10);
      assert s[..|s| - 1] == NatToDecimal(n / 10);
    }
  }

  /** `String.valueOf(int)`: a leading minus sign for negative values. */
  function IntToDecimal(i: int): (s: string)
    ensures |s| > 0 && (s[0] == '-' <==> i < 0)
    ensures IsCanonicalDecimal(s)
  {
    if i < 0 then "-" + NatToDecimal(-i) else NatToDecimal(i)
  }

  predicate IsSignedDecimal(s: string)
  {
    |s| > 0 && if s[0] == '-' then AllDigits(s[1..]) else AllDigits(s)
  }

  /** The text Java writes for an `int`: zero is the single digit `0`, no
      other value has a leading zero, and a minus sign is followed by a
      non-zero digit. */
  predicate IsCanonicalDecimal(s: string)
  {
    |s| > 0 && (s[0] == '0' ==> s == "0") && (s[0] == '-' ==> |s| > 1 && s[1] != '0')
  }

  /** Reads back what `IntToDecimal` writes. */
  function DecimalIntValue(s: string): int
    requires IsSignedDecimal(s)
  {
    if s[0] == '-' then -(DecimalValue(s[1..]) as int) else DecimalValue(s)
  }

  lemma IntDecimalRoundTrip(i: int)
    ensures IsSignedDecimal(IntToDecimal(i))
    ensures DecimalIntValue(IntToDecimal(i)) == i
  {
    var s := IntToDecimal(i);
    if i < 0 {
      assert s[1..] == NatToDecimal(-i);
      DecimalRoundTrip(-i);
    } else {
      DecimalRoundTrip(i);
    }
  }

  /** Digits without a leading zero denote a positive number. */
  lemma {:induction false} LeadingDigitPositive(s: string)
    requires AllDigits(s) && |s| > 0 && s[0] != '0'
    ensures DecimalValue(s) > 0
    decreases |s|
  {
    if |s| > 1 {
      var init := s[..|s| - 1];
      assert init[0] == s[0];
      LeadingDigitPositive(init);
    }
  }

  /** Two digit strings without leading zeros that denote the same number are
      the same string: the canonical text of a number is unique. */
  lemma {:induction false} DecimalTextUnique(s: string, t: string)
    requires AllDigits(s) && |s| > 0 && (s[0] == '0' ==> |s| == 1)
    requires AllDigits(t) && |t| > 0 && (t[0] == '0' ==> |t| == 1)
    requires DecimalValue(s) == DecimalValue(t)
    ensures s == t
    decreases |s|
  {
    var si, ti := s[..|s| - 1], t[..|t| - 1];
    var ds, dt := s[|s| - 1] as int - '0' as int, t[|t| - 1] as int - '0' as int;
    assert DecimalValue(si) * 10 + ds == DecimalValue(t[..|t| - 1]) * 10 + dt;
    assert ds == dt && DecimalValue(si) == DecimalValue(ti);
    if |si| > 0 && |ti| > 0 {
      assert si[0] == s[0] && ti[0] == t[0];
      DecimalTextUnique(si, ti);
      assert s == si + [s[|s| - 1]] && t == ti + [t[|t| - 1]];
    } else if |si| > 0 {
      assert si[0] == s[0];
      LeadingDigitPositive(si);
      assert false;
    } else if |ti| > 0 {
      assert ti[0] == t[0];
      LeadingDigitPositive(ti);
      assert false;
    } else {
      assert s == [s[0]] && t == [t[0]];
    }
  }

  /** A canonical signed decimal text is exactly what `IntToDecimal` writes
      for the number it denotes. */
  lemma CanonicalDecimalIsIntToDecimal(s: string)
    requires IsSignedDecimal(s) && IsCanonicalDecimal(s)
    ensures IntToDecimal(DecimalIntValue(s)) == s
  {
    var i := DecimalIntValue(s);
    var u := IntToDecimal(i);
    IntDecimalRoundTrip(i);
    if s[0] == '-' {
      LeadingDigitPositive(s[1..]);
      assert u[0] == '-';
      DecimalTextUnique(s[1..], u[1..]);
      assert s == [s[0]] + s[1..] && u == [u[0]] + u[1..];
    } else {
      assert u[0] != '-';
      DecimalTextUnique(s, u);
    }
  }

  /** Java string conversion of a possibly-null `String`: `null` becomes "null". */
  function StringValueOf(s: Option<string>): (r: string)
    ensures s.None? ==> r == "null"
    ensures s.Some? ==> r == s.value
  {
    match s
    case None => "null"
    case Some(v) => v
  }

  /** Java string conversion of a possibly-null `Integer`. */
  function IntegerValueOf(i: Option<int32>): (r: string)
    ensures i.None? ==> r == "null"
    ensures i.Some? ==> IsSignedDecimal(r) && IsCanonicalDecimal(r) && DecimalIntValue(r) == i.value as int
  {
    match i
    case None => "null"
    case Some(v) => IntDecimalRoundTrip(v as int); IntToDecimal(v as int)
  }
}
