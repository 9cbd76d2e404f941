/**
 * The few pieces of Java's semantics the models below depend on:
 * 32-bit `int` wrap-around, `/` on `int` (rounds toward zero), and
 * `String.equalsIgnoreCase` restricted to ASCII letters.
 */
module JavaLang {

  /** A Java reference that may be `null`. */
  datatype Option<+T> = None | Some(value: T)

  /** The exceptions the modelled code throws or lets escape. */
  datatype Exception =
    | IllegalArgumentException(message: string)
    | NullPointerException
    | DataStoreException(message: string)
    | ParameterNotFoundException(name: string)

  /** The outcome of a Java call: a returned value or a thrown exception. */
  datatype Result<+T> = Ok(value: T) | Thrown(exception: Exception)

  const INT_MIN: int := -0x8000_0000
  const INT_MAX: int := 0x7fff_ffff
  const TWO_32: int := 0x1_0000_0000

  predicate IsInt(v: int) {
    INT_MIN <= v <= INT_MAX
  }

  /** The Java `int` holding a mathematical result `v`: `v` reduced modulo 2^32 into [INT_MIN, INT_MAX]. */
  function Wrap(v: int): (r: int)
    ensures IsInt(r)
    ensures (v - r) % TWO_32 == 0
  {
    (v - INT_MIN) % TWO_32 + INT_MIN
  }

  /** A value that already fits in an `int` is its own wrap. */
  lemma WrapOfInt(v: int)
    requires IsInt(v)
    ensures Wrap(v) == v
  {
    assert 0 <= v - INT_MIN < TWO_32;
  }

  /** Two values congruent modulo 2^32 wrap to the same `int`. */
  lemma WrapCongruent(a: int, b: int)
    requires (a - b) % TWO_32 == 0
    ensures Wrap(a) == Wrap(b)
  {
    var k := (a - b) / TWO_32;
    assert a - INT_MIN == (b - INT_MIN) + k * TWO_32;
    ModShift(b - INT_MIN, k);
  }

  lemma ModShift(a: int, k: int)
    ensures (a + k * TWO_32) % TWO_32 == a % TWO_32
  {
    var q, r := a / TWO_32, a % TWO_32;
    assert a + k * TWO_32 == (q + k) * TWO_32 + r;
  }

  /** Wrapping after every addition gives the wrap of the exact sum (what `n += c` computes). */
  lemma WrapAdd(a: int, b: int)
    ensures Wrap(Wrap(a) + b) == Wrap(a + b)
  {
    WrapCongruent(Wrap(a) + b, a + b);
  }

  /** Adding the same value to two numbers with the same wrap gives sums with the same wrap. */
  lemma WrapCongruentSum(a: int, b: int, e: int)
    requires Wrap(a) == Wrap(b)
    ensures Wrap(a + e) == Wrap(b + e)
  {
    WrapAdd(a, e);
    WrapAdd(b, e);
  }

  /** Wrapping after every multiplication gives the wrap of the exact product. */
  lemma WrapMul(a: int, b: int)
    ensures Wrap(b * Wrap(a)) == Wrap(b * a)
  {
    var k := (a - Wrap(a)) / TWO_32;
    assert a == Wrap(a) + k * TWO_32;
    assert b * a == b * Wrap(a) + (b * k) * TWO_32;
    WrapCongruent(b * Wrap(a), b * a);
  }

  /**
   * Java's `a / b` for a positive divisor: the quotient rounded toward zero.
   * Dafny's `/` rounds toward negative infinity for a positive divisor, so the two
   * differ exactly on negative dividends that are not multiples of `b`.
   */
  function TruncDiv(a: int, b: int): int
    requires b > 0
  {
    if a >= 0 then a / b else -((-a) / b)
  }

  /**
   * `TruncDiv` rounds toward zero: the quotient times the divisor lies between zero and
   * the dividend, less than one divisor away from it, and negating the dividend negates
   * the quotient.
   */
  lemma TruncDivRoundsTowardZero(a: int, b: int)
    requires b > 0
    ensures var q := TruncDiv(a, b);
      (a >= 0 ==> 0 <= q * b <= a < q * b + b) && (a < 0 ==> q * b - b < a <= q * b <= 0)
    ensures TruncDiv(-a, b) == -TruncDiv(a, b)
  {
    if a >= 0 {
      NonNegativeDiv(a, b);
    } else {
      NonNegativeDiv(-a, b);
      assert TruncDiv(a, b) * b == -(((-a) / b) * b);
    }
  }

  /** Floor division of a non-negative value: the quotient's multiple is at most the value, within one divisor. */
  lemma NonNegativeDiv(n: int, b: int)
    requires n >= 0 && b > 0
    ensures 0 <= (n / b) * b <= n < (n / b) * b + b
  {
    MulNonNegative(n / b, b);
  }

  lemma MulNonNegative(k: int, b: int)
    requires k >= 0 && b >= 0
    ensures k * b >= 0
  {
  }

  /** ASCII lower-casing of one character (other characters are unchanged). */
  function ToLowerAscii(c: char): (r: char)
    ensures 'A' <= c <= 'Z' ==> 'a' <= r <= 'z'
    ensures !('A' <= c <= 'Z') ==> r == c
  {
    if 'A' <= c <= 'Z' then (c as int - 'A' as int + 'a' as int) as char else c
  }

  /** `String.equalsIgnoreCase` for strings whose letters are ASCII. */
  predicate EqualsIgnoreCase(a: string, b: string) {
    |a| == |b| && forall i :: 0 <= i < |a| ==> ToLowerAscii(a[i]) == ToLowerAscii(b[i])
  }

  lemma EqualsIgnoreCaseIsEquivalence(a: string, b: string, c: string)
    ensures EqualsIgnoreCase(a, a)
    ensures EqualsIgnoreCase(a, b) ==> EqualsIgnoreCase(b, a)
    ensures EqualsIgnoreCase(a, b) && EqualsIgnoreCase(b, c) ==> EqualsIgnoreCase(a, c)
  {
  }
}
