/** Three ways to divide `Integer`s: the plain operator, which throws on a
    zero divisor, and two total variants that return the failure as a value,
    one as a `Try`, one as an `Either`. */
module VavrDemo {
  import opened JavaLang

  /** The exception a division by zero produces, with its (possibly null)
      message. */
  datatype JavaException = ArithmeticException(message: Option<string>)

  /** By convention `Left` holds a failure and `Right` a result. */
  datatype Either<+L, +R> = Left(left: L) | Right(right: R)

  /** The result of a computation that may have thrown. */
  datatype Try<+T> = Success(value: T) | Failure(cause: JavaException)

  /** The message the JVM gives the exception thrown by an integer division by zero. */
  const DIVIDE_BY_ZERO: string := "/ by zero"

  /** `VavrDemoClass.divide`, that is `dividend / divisor`; the divisor must
      be non-zero, since `divide` lets the exception escape to its caller. */
  function Divide(dividend: int32, divisor: int32): (r: int32)
    requires divisor != 0
    ensures dividend as int == INT_MIN && divisor == -1 ==> r == dividend
    ensures !(dividend as int == INT_MIN && divisor == -1) ==> r as int == TruncDiv(dividend as int, divisor as int)
  {
    JavaDiv(dividend, divisor)
  }

  /** `Try.of(() -> dividend / divisor)`: the exception the division throws
      becomes the failure. */
  function DivideVavr(dividend: int32, divisor: int32): (r: Try<int32>)
    ensures r.Failure? <==> divisor == 0
    ensures r.Failure? ==> r.cause == ArithmeticException(Some(DIVIDE_BY_ZERO))
    ensures r.Success? ==>
      if dividend as int == INT_MIN && divisor == -1 then r.value == dividend
      else r.value as int == TruncDiv(dividend as int, divisor as int)
  {
    if divisor == 0 then Failure(ArithmeticException(Some(DIVIDE_BY_ZERO)))
    else Success(JavaDiv(dividend, divisor))
  }

  /** A zero divisor gives `Left` of a new `ArithmeticException` without a
      message; any other divisor gives `Right` of the quotient. */
  function DivideEither(dividend: int32, divisor: int32): (r: Either<JavaException, int32>)
    ensures r.Left? <==> divisor == 0
    ensures r.Left? ==> r.left == ArithmeticException(None)
    ensures r.Right? ==>
      if dividend as int == INT_MIN && divisor == -1 then r.right == dividend
      else r.right as int == TruncDiv(dividend as int, divisor as int)
  {
    if divisor == 0 then Left(ArithmeticException(None))
    else Right(JavaDiv(dividend, divisor))
  }

  /** Whenever the plain division returns, the two total variants hold its
      quotient. */
  lemma DivisionVariantsAgree(dividend: int32, divisor: int32)
    requires divisor != 0
    ensures DivideVavr(dividend, divisor) == Success(Divide(dividend, divisor))
    ensures DivideEither(dividend, divisor) == Right(Divide(dividend, divisor))
  {
  }

  /** The quotient is rounded toward zero and its remainder carries the
      dividend's sign; only `Integer.MIN_VALUE / -1` leaves the range and
      wraps to `Integer.MIN_VALUE`. */
  lemma DivideRoundsTowardZero(dividend: int32, divisor: int32)
    requires divisor != 0 && !(dividend as int == INT_MIN && divisor == -1)
    ensures var q, rem := Divide(dividend, divisor) as int, dividend as int - Divide(dividend, divisor) as int * divisor as int;
      Abs(rem) < Abs(divisor as int) && (rem == 0 || (rem < 0 <==> dividend < 0)) &&
      Abs(q) <= Abs(dividend as int)
  {
    var a, b := dividend as int, divisor as int;
    var q := TruncDiv(a, b);
    assert Divide(dividend, divisor) as int == q;
    QuotientBound(Abs(a), Abs(b));
  }

  lemma DivideOverflowWraps()
    ensures Divide(INT_MIN as int32, -1) == INT_MIN as int32
  {
  }

  /** Examples: twelve by two is six; minus seven by two is minus three, not
      the minus four that Euclidean division gives; by zero is a failure. */
  lemma DivisionExamples()
    ensures DivideEither(12, 2) == Right(6)
    ensures DivideEither(-7, 2) == Right(-3) && -7 / 2 == -4
    ensures DivideEither(12, 0).Left?
    ensures DivideVavr(12, 0).Failure?
  {
    assert TruncDiv(12, 2) == 6;
    assert TruncDiv(-7, 2) == -3;
  }
}
