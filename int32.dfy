/** Java `int` arithmetic on unbounded Dafny integers: 32-bit two's-complement wrap-around and
    division that truncates toward zero (Dafny's own `/` is Euclidean). */
module Int32 {

  const MIN: int := -0x8000_0000
  const MAX: int := 0x7fff_ffff
  const MODULUS: int := 0x1_0000_0000

  predicate IsInt32(x: int) {
    MIN <= x <= MAX
  }

  /** The value a Java `int` holds after an arithmetic result `x` is narrowed to 32 bits. */
  function Wrap(x: int): (r: int)
    ensures IsInt32(r)
    ensures (r - x) % MODULUS == 0
    ensures IsInt32(x) ==> r == x
  {
    (x - MIN) % MODULUS + MIN
  }

  /** Division rounding toward zero, as Java's `/` on integers. */
  function TruncDiv(a: int, b: int): (q: int)
    requires b != 0
    ensures a >= 0 && b > 0 ==> q == a / b
    ensures (a < 0) != (b < 0) ==> q <= 0
  {
    var na: int := if a < 0 then -a else a;
    var nb: int := if b < 0 then -b else b;
    QuotientNonNegative(na, nb);
    if (a < 0) == (b < 0) then na / nb else -(na / nb)
  }

  /** What Java promises of `a / b` (section 15.17.2 of the Java Language Specification): the
      quotient rounds toward zero, so the remainder `a - q * b` is smaller than the divisor in
      magnitude and is zero or has the sign of the dividend. */
  lemma TruncDivRoundsTowardZero(a: int, b: int)
    requires b != 0
    ensures var q := TruncDiv(a, b); var rem := a - q * b;
      (if rem < 0 then -rem else rem) < (if b < 0 then -b else b) && (rem == 0 || (rem < 0) == (a < 0))
  {
    var na: int := if a < 0 then -a else a;
    var nb: int := if b < 0 then -b else b;
    var q := TruncDiv(a, b);
    var m := na % nb;
    assert na == (na / nb) * nb + m && 0 <= m < nb;
    if (a < 0) == (b < 0) {
      assert q == na / nb;
      if a < 0 {
        assert a - q * b == -(na - (na / nb) * nb);
      } else {
        assert a - q * b == na - (na / nb) * nb;
      }
    } else {
      assert q == -(na / nb);
      if a < 0 {
        assert a - q * b == -(na - (na / nb) * nb);
      } else {
        assert a - q * b == na - (na / nb) * nb;
      }
    }
  }

  lemma QuotientNonNegative(x: int, y: int)
    requires x >= 0 && y > 0
    ensures x / y >= 0
  {
  }

  /** Java `a / b` on two `int` operands (only `MIN / -1` overflows, and wraps to `MIN`). */
  function JavaDiv(a: int, b: int): (r: int)
    requires b != 0
    ensures IsInt32(r)
  {
    Wrap(TruncDiv(a, b))
  }

  /** Adding one and then taking one away again, each narrowed to 32 bits, is the identity on
      `int` values (at `MAX` both steps wrap). */
  lemma WrapIncDec(x: int)
    requires IsInt32(x)
    ensures Wrap(Wrap(x + 1) - 1) == x
  {
    if x == MAX {
      assert Wrap(x + 1) == MIN;
      assert Wrap(MIN - 1) == MAX;
    }
  }

  lemma JavaDivOverflow()
    ensures JavaDiv(MIN, -1) == MIN
  {
    assert TruncDiv(MIN, -1) == MAX + 1;
  }

  /** Java division and Dafny's Euclidean division differ on negative operands: -7 / 2 is -3 in
      Java and -4 in Dafny. */
  lemma TruncDivIsNotEuclidean()
    ensures JavaDiv(-7, 2) == -3 && -7 / 2 == -4
  {
  }
}
