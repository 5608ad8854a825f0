/** The parts of java.lang the core relies on: 32-bit `int` arithmetic with
    two's-complement wrap-around, integer division truncated toward zero, and an
    exception that carries a message. */
module JavaLang {

  const TWO_32: int := 0x1_0000_0000
  const INT_MIN: int := -0x8000_0000
  const INT_MAX: int := 0x7fff_ffff

  predicate InIntRange(x: int) {
    INT_MIN <= x <= INT_MAX
  }

  /** The values of a Java `int`. */
  type Int32 = x: int | INT_MIN <= x <= INT_MAX

  /** The Java `int` that a mathematical integer is reduced to: the unique value in
      the 32-bit two's-complement range that is congruent to `x` modulo 2^32. */
  function Wrap(x: int): (r: Int32)
    ensures (r - x) % TWO_32 == 0
    ensures InIntRange(x) ==> r == x
  {
    var m := (x - INT_MIN) % TWO_32;
    assert x - INT_MIN == TWO_32 * ((x - INT_MIN) / TWO_32) + m;
    m + INT_MIN
  }

  /** Wrap is the only reduction into the range: any `int` congruent to `x` is Wrap(x). */
  lemma WrapUnique(x: int, y: int)
    requires InIntRange(y) && (y - x) % TWO_32 == 0
    ensures y == Wrap(x)
  {
    var w := Wrap(x);
    var q1 := (y - x) / TWO_32;
    var q2 := (w - x) / TWO_32;
    assert y - x == TWO_32 * q1;
    assert w - x == TWO_32 * q2;
    assert y - w == TWO_32 * (q1 - q2);
  }

  function Abs(x: int): nat {
    if x < 0 then -x else x
  }

  /** `q` is the quotient of `a / b` rounded toward zero (section 15.17.2 of the Java
      Language Specification): the remainder `a - q * b` is smaller than `b` in
      magnitude and is zero or has the sign of the dividend `a`. */
  ghost predicate IsTruncatedQuotient(a: int, b: int, q: int)
    requires b != 0
  {
    var rem := a - q * b;
    Abs(rem) < Abs(b) && (rem == 0 || (rem < 0 <==> a < 0))
  }

  /** Euclidean division of naturals, the building block of truncated division. */
  lemma NatDivMod(n: nat, d: nat)
    requires d > 0
    ensures n == (n / d) * d + n % d && 0 <= n % d < d
    ensures 0 <= n / d <= n
  {
    var q := n / d;
    assert n == d * q + n % d;
    MulMonotone(q, d);
  }

  lemma MulMonotone(q: nat, d: nat)
    requires d > 0
    ensures q <= d * q
  {
    if q > 0 {
      MulMonotone(q - 1, d);
      assert d * q == d * (q - 1) + d;
    }
  }

  /** Integer division rounding toward zero, on unbounded integers. */
  function TruncDiv(a: int, b: int): (q: int)
    requires b != 0
    ensures IsTruncatedQuotient(a, b, q)
    ensures Abs(q) <= Abs(a)
  {
    var n, d := Abs(a), Abs(b);
    NatDivMod(n, d);
    var q0 := n / d;
    var q := if (a < 0) == (b < 0) then q0 else -q0;
    assert q * b == (if a < 0 then -(q0 * d) else q0 * d) by {
      if b < 0 { assert b == -(d as int); } else { assert b == d; }
    }
    q
  }

  /** `k * b` is at least `b` in magnitude unless `k` is zero. */
  lemma ScaledMagnitude(k: int, b: int)
    requires b != 0 && k != 0
    ensures Abs(k * b) >= Abs(b)
  {
    var m := Abs(k);
    assert m * Abs(b) >= Abs(b) by {
      assert m * Abs(b) == (m - 1) * Abs(b) + Abs(b);
    }
    assert Abs(k * b) == m * Abs(b) by {
      if k < 0 && b < 0 { assert k * b == (-k) * (-b); }
      else if k < 0 { assert k * b == -((-k) * b); }
      else if b < 0 { assert k * b == -(k * (-b)); }
    }
  }

  /** Two remainders allowed for the same dividend and divisor differ by less than
      the divisor. */
  lemma RemaindersClose(a: int, b: int, r1: int, r2: int)
    requires b != 0
    requires Abs(r1) < Abs(b) && (r1 == 0 || (r1 < 0 <==> a < 0))
    requires Abs(r2) < Abs(b) && (r2 == 0 || (r2 < 0 <==> a < 0))
    ensures Abs(r1 - r2) < Abs(b)
  {
  }

  /** Two quotients with the defining property are equal. */
  lemma QuotientsEqual(a: int, b: int, q: int, t: int)
    requires b != 0 && IsTruncatedQuotient(a, b, q) && IsTruncatedQuotient(a, b, t)
    ensures q == t
  {
    if t != q {
      var r1, r2 := a - q * b, a - t * b;
      RemaindersClose(a, b, r1, r2);
      assert (t - q) * b == t * b - q * b;
      ScaledMagnitude(t - q, b);
      assert false;
    }
  }

  /** The truncated quotient is uniquely determined by its defining property. */
  lemma TruncDivUnique(a: int, b: int, q: int)
    requires b != 0 && IsTruncatedQuotient(a, b, q)
    ensures q == TruncDiv(a, b)
  {
    QuotientsEqual(a, b, q, TruncDiv(a, b));
  }

  /** The exception types thrown in the core, reduced to the one that occurs. */
  datatype Exception = IllegalArgumentException(message: string)

  /** How a Java method call completes: it returns a value or it throws. */
  datatype Outcome<T> = Returned(value: T) | Threw(exception: Exception)
}
