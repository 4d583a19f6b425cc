/** Greatest common divisors, as far as the ring arithmetic of the pipeline needs them. */
module Divisors {
  import opened Bits

  /** Euclid's algorithm. */
  function Gcd(a: nat, b: nat): (g: nat)
    requires a > 0 || b > 0
    ensures g >= 1
    decreases b
  {
    if b == 0 then a else Gcd(b, a % b)
  }

  ghost predicate Divides(g: nat, n: nat) {
    exists k: nat :: n == g * k
  }

  lemma DividesZero(g: nat)
    ensures Divides(g, 0)
  {
    assert 0 == g * 0;
  }

  lemma DividesSum(g: nat, m: nat, n: nat, f: nat)
    requires Divides(g, m) && Divides(g, n)
    ensures Divides(g, f * m + n)
  {
    var j: nat :| m == g * j;
    var k: nat :| n == g * k;
    assert f * (g * j) == g * (f * j);
    assert f * m + n == g * (f * j + k);
  }

  lemma DividesDifference(g: nat, m: nat, n: nat)
    requires Divides(g, m) && Divides(g, n) && m >= n && g >= 1
    ensures Divides(g, m - n)
  {
    var j: nat :| m == g * j;
    var k: nat :| n == g * k;
    if j < k {
      MulMono(g, j + 1, k);
    }
    assert m - n == g * (j - k);
  }

  /** A smaller multiple is smaller by at least the divisor. */
  lemma MultipleBelow(g: nat, m: nat, n: nat)
    requires Divides(g, m) && Divides(g, n) && m < n
    ensures m <= n - g
  {
    var j: nat :| m == g * j;
    var k: nat :| n == g * k;
    if k <= j {
      MulMono(g, k, j);
    } else {
      MulMono(g, j + 1, k);
    }
  }

  lemma Quotient(a: nat, b: nat) returns (q: nat, r: nat)
    requires b > 0
    ensures a == q * b + r && r == a % b
  {
    q, r := a / b, a % b;
    assert a == b * q + r;
  }

  lemma {:induction false} GcdDivides(a: nat, b: nat)
    requires a > 0 || b > 0
    ensures Divides(Gcd(a, b), a) && Divides(Gcd(a, b), b)
    decreases b
  {
    var g := Gcd(a, b);
    if b == 0 {
      assert a == g * 1 && b == g * 0;
    } else {
      var q, r := Quotient(a, b);
      GcdDivides(b, r);
      hide Divides;
      DividesSum(g, b, r, q);
    }
  }

  lemma {:induction false} Bezout(a: nat, b: nat) returns (x: int, y: int)
    requires a > 0 || b > 0
    ensures a * x + b * y == Gcd(a, b)
    decreases b
  {
    if b == 0 {
      x, y := 1, 0;
    } else {
      var u, v := Bezout(b, a % b);
      x, y := v, u - (a / b) * v;
      Combine(a, b, a / b, a % b, u, v);
    }
  }

  lemma Combine(a: int, b: int, q: int, r: int, u: int, v: int)
    requires a == q * b + r
    ensures a * v + b * (u - q * v) == b * u + r * v
  {
    assert (q * b) * v == b * (q * v);
    assert a * v == (q * b) * v + r * v;
  }

  /** Some multiple of `a` is one divisor short of a multiple of `b`. */
  lemma OneShort(a: nat, b: nat) returns (n: nat)
    requires b > 0
    ensures Gcd(a, b) <= b && n * a % b == b - Gcd(a, b)
  {
    var g := Gcd(a, b);
    GcdDivides(a, b);
    var k: nat :| b == g * k;
    assert k >= 1;
    MulMono(g, 1, k);
    var x, y := Bezout(a, b);
    n := (-x) % b;
    var t := (-x) / b;
    assert -x == b * t + n;
    Rearranged(a, b, x, y, t, n, g);
    if g == b {
      DivModUnique(n * a, b, y - t * a - 1, 0);
    } else {
      DivModUnique(n * a, b, y - t * a - 1, b - g);
    }
  }

  lemma Rearranged(a: int, b: int, x: int, y: int, t: int, n: int, g: int)
    requires a * x + b * y == g && -x == b * t + n
    ensures n * a == b * (y - t * a - 1) + (b - g)
  {
    assert n == -x - b * t;
    assert n * a == -(a * x) - b * (t * a);
    assert b * (y - t * a - 1) == b * y - b * (t * a) - b;
  }
}
