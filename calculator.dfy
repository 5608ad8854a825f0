/** The target object `com.example.service.CalculatorService`: three stateless
    operations on Java `int`s. Addition and multiplication wrap around on overflow;
    division truncates toward zero and rejects a zero divisor with an exception. */
module Calculator {
  import opened JavaLang

  const DIVIDE_BY_ZERO_MESSAGE: string := "Can't divide by 0"

  /** `sum(a, b)`: Java `int` addition. */
  function Sum(a: Int32, b: Int32): (r: Int32)
    ensures InIntRange(a + b) ==> r == a + b
    ensures a + b > INT_MAX ==> r == a + b - TWO_32
    ensures a + b < INT_MIN ==> r == a + b + TWO_32
  {
    if a + b > INT_MAX then
      WrapUnique(a + b, a + b - TWO_32);
      Wrap(a + b)
    else if a + b < INT_MIN then
      WrapUnique(a + b, a + b + TWO_32);
      Wrap(a + b)
    else
      Wrap(a + b)
  }

  /** `multiply(a, b)`: Java `int` multiplication, the low 32 bits of the product. */
  function Multiply(a: Int32, b: Int32): (r: Int32)
    ensures (r - a * b) % TWO_32 == 0
    ensures InIntRange(a * b) ==> r == a * b
  {
    Wrap(a * b)
  }

  /** `divide(a, b)`: throws on a zero divisor, otherwise the Java quotient, which is
      the truncated quotient except for the one overflowing case INT_MIN / -1. */
  function Divide(a: Int32, b: Int32): (r: Outcome<Int32>)
    ensures r.Threw? <==> b == 0
    ensures b == 0 ==> r == Threw(IllegalArgumentException(DIVIDE_BY_ZERO_MESSAGE))
    ensures b != 0 && !(a == INT_MIN && b == -1) ==>
              r.Returned? && IsTruncatedQuotient(a, b, r.value)
    ensures a == INT_MIN && b == -1 ==> r == Returned(INT_MIN)
  {
    if b == 0 then
      Threw(IllegalArgumentException(DIVIDE_BY_ZERO_MESSAGE))
    else
      QuotientInRange(a, b);
      Returned(Wrap(TruncDiv(a, b)))
  }

  /** The truncated quotient of two `int`s is itself an `int`, except for INT_MIN / -1. */
  lemma QuotientInRange(a: Int32, b: Int32)
    requires b != 0
    ensures InIntRange(TruncDiv(a, b)) <==> !(a == INT_MIN && b == -1)
  {
    if a == INT_MIN && b == -1 {
      TruncDivUnique(a, b, -(a as int));
    }
  }

  /** Every successful result of the three operations is a Java `int`, and a
      non-zero divisor never makes `divide` throw. */
  lemma ResultsInRange(a: Int32, b: Int32)
    ensures InIntRange(Sum(a, b)) && InIntRange(Multiply(a, b))
    ensures b != 0 ==> Divide(a, b).Returned? && InIntRange(Divide(a, b).value)
  {
  }

  /** `sum` is commutative, overflow included. */
  lemma SumCommutes(a: Int32, b: Int32)
    ensures Sum(a, b) == Sum(b, a)
  {
  }

  /** `multiply` is commutative, overflow included. */
  lemma MultiplyCommutes(a: Int32, b: Int32)
    ensures Multiply(a, b) == Multiply(b, a)
  {
    assert a * b == b * a;
  }

  /** Multiply yields the one `int` congruent to the mathematical product. */
  lemma MultiplyIsLow32Bits(a: Int32, b: Int32, y: int)
    requires InIntRange(y) && (y - a * b) % TWO_32 == 0
    ensures y == Multiply(a, b)
  {
    WrapUnique(a * b, y);
  }

  /** The calls of the demo program and what they produce. */
  lemma DemoVectors()
    ensures Sum(5, 3) == 8
    ensures Multiply(4, 7) == 28
    ensures Divide(4, 2) == Returned(2)
    ensures Divide(2, 0) == Threw(IllegalArgumentException("Can't divide by 0"))
  {
    TruncDivUnique(4, 2, 2);
  }

  /** Overflow at the edges of the range. */
  lemma OverflowVectors()
    ensures Sum(INT_MAX, 1) == INT_MIN
    ensures Sum(INT_MIN, -1) == INT_MAX
    ensures Multiply(0x1_0000, 0x1_0000) == 0
    ensures Divide(INT_MIN, -1) == Returned(INT_MIN)
    ensures Divide(-7, 2) == Returned(-3) && Divide(7, -2) == Returned(-3)
  {
    TruncDivUnique(-7, 2, -3);
    TruncDivUnique(7, -2, -3);
  }
}
