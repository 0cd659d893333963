/**
 * Python integer bit operations on non-negative integers.
 *
 * `x >> n` is floor division by 2^n and `x & (2^n - 1)` is the remainder
 * modulo 2^n; Dafny's `/` and `%` with a positive divisor are exactly these.
 * `a | c` is modelled bit by bit by BitOr.
 */
module Bits {

  function Pow2(n: nat): (r: nat)
    ensures r >= 1
  {
    if n == 0 then 1 else 2 * Pow2(n - 1)
  }

  /** Python's `x >> n`. */
  function Shr(x: int, n: nat): (r: int)
    ensures x >= 0 ==> r >= 0
  {
    DivNonnegative(x, Pow2(n));
    x / Pow2(n)
  }

  /** Floor division of naturals, a natural. */
  function Quot(x: nat, d: nat): (q: nat)
    requires d > 0
    ensures q == x / d
  {
    DivNonnegative(x, d);
    x / d
  }

  /** Floor division of a non-negative number by a positive one is non-negative. */
  lemma DivNonnegative(x: int, d: int)
    requires d > 0
    ensures x >= 0 ==> x / d >= 0
  {
    var q, r := x / d, x % d;
    assert x == q * d + r;
    if x >= 0 && q < 0 {
      MulLe(q, -1, d);
    }
  }

  /** Python's `x & (2^n - 1)`. */
  function Low(x: int, n: nat): nat
  {
    x % Pow2(n)
  }

  /** Python's `a | c` on non-negative integers, one bit at a time. */
  function BitOr(a: nat, c: nat): nat
  {
    if a == 0 then c
    else if c == 0 then a
    else 2 * BitOr(a / 2, c / 2) + (if a % 2 == 1 || c % 2 == 1 then 1 else 0)
  }

  lemma {:induction false} Pow2Add(m: nat, n: nat)
    ensures Pow2(m + n) == Pow2(m) * Pow2(n)
  {
    if m > 0 {
      Pow2Add(m - 1, n);
    }
  }

  lemma {:induction false} Pow2Monotone(m: nat, n: nat)
    requires m <= n
    ensures Pow2(m) <= Pow2(n)
  {
    if m < n {
      Pow2Monotone(m, n - 1);
    }
  }

  /** Multiplying by a positive factor keeps order. */
  lemma MulLe(a: int, b: int, d: int)
    requires a <= b && d > 0
    ensures a * d <= b * d
  {
  }

  lemma MulTwice(o: int, h: int)
    ensures o * (2 * h) == 2 * (o * h)
  {
  }

  /** Splitting `q * d + r` back into quotient and remainder. */
  lemma DivModOf(q: int, d: int, r: int)
    requires d > 0 && 0 <= r < d
    ensures (q * d + r) / d == q
    ensures (q * d + r) % d == r
  {
    var x := q * d + r;
    var q', r' := x / d, x % d;
    assert x == q' * d + r';
    if q' > q {
      MulLe(q + 1, q', d);
      assert false;
    } else if q' < q {
      MulLe(q' + 1, q, d);
      assert false;
    }
  }

  /** `|` with the common operand written first. */
  lemma {:induction false} BitOrCommutes(a: nat, c: nat)
    ensures BitOr(a, c) == BitOr(c, a)
  {
    if a != 0 && c != 0 {
      BitOrCommutes(a / 2, c / 2);
    }
  }

  /** Or-ing a value below 2^s into a multiple of 2^s is addition. */
  lemma {:induction false} BitOrDisjoint(c: nat, s: nat, a: nat)
    requires a < Pow2(s)
    ensures BitOr(c * Pow2(s), a) == c * Pow2(s) + a
    ensures BitOr(a, c * Pow2(s)) == c * Pow2(s) + a
  {
    var hi := c * Pow2(s);
    if a == 0 || c == 0 {
    } else {
      assert s > 0;
      var half := Pow2(s - 1);
      assert hi == 2 * (c * half);
      assert hi / 2 == c * half && hi % 2 == 0;
      BitOrDisjoint(c, s - 1, a / 2);
      assert BitOr(hi, a) == 2 * BitOr(hi / 2, a / 2) + a % 2;
      assert BitOr(a, hi) == 2 * BitOr(a / 2, hi / 2) + a % 2;
    }
  }

  /** Or-ing two multiples of 2^s is the scaled `|` of the quotients. */
  lemma BitOrOfEvens(x: nat, y: nat)
    requires x > 0 && y > 0
    ensures BitOr(2 * x, 2 * y) == 2 * BitOr(x, y)
  {
    assert (2 * x) / 2 == x && (2 * x) % 2 == 0;
    assert (2 * y) / 2 == y && (2 * y) % 2 == 0;
  }

  lemma {:induction false} BitOrScaled(a: nat, c: nat, s: nat)
    ensures BitOr(a * Pow2(s), c * Pow2(s)) == BitOr(a, c) * Pow2(s)
  {
    if s > 0 && a != 0 && c != 0 {
      var h := Pow2(s - 1);
      assert Pow2(s) == 2 * h;
      MulTwice(a, h);
      MulTwice(c, h);
      MulLe(1, a, h);
      MulLe(1, c, h);
      var hiA: nat, hiC: nat := a * h, c * h;
      BitOrScaled(a, c, s - 1);
      BitOrOfEvens(hiA, hiC);
      MulTwice(BitOr(a, c), h);
    }
  }

  /** `|` never sets a bit at or above 2^n that neither operand has. */
  lemma {:induction false} BitOrBound(a: nat, c: nat, n: nat)
    requires a < Pow2(n) && c < Pow2(n)
    ensures BitOr(a, c) < Pow2(n)
  {
    if a != 0 && c != 0 {
      BitOrBound(a / 2, c / 2, n - 1);
    }
  }
}
