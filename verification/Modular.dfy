/** Arithmetic modulo a number that is not known in advance. */
module Modular {

  lemma MultipleIsFar(k: int, n: int)
    requires n > 0
    ensures (k >= 1 ==> k * n >= n) && (k <= -1 ==> k * n <= -n) && (k <= 0 ==> k * n <= 0)
  {
    if k >= 1 { assert (k - 1) * n >= 0; }
    if k <= -1 { assert (-k - 1) * n >= 0; }
  }

  lemma SmallMultiple(k: int, n: int)
    requires n > 0 && -n < k * n < n
    ensures k == 0
  {
    MultipleIsFar(k, n);
  }

  lemma AddMultiple(a: int, k: int, n: int)
    requires n > 0
    ensures (a + k * n) % n == a % n
  {
    var x := a + k * n;
    var q, p := a / n, x / n;
    assert a == n * q + a % n && x == n * p + x % n;
    var d := p - q - k;
    assert a % n - x % n == d * n by {
      assert d * n == p * n - q * n - k * n;
    }
    SmallMultiple(d, n);
  }

  lemma AddLeft(a: int, b: int, n: int)
    requires n > 0
    ensures (a % n + b) % n == (a + b) % n
  {
    assert a + b == (a % n + b) + (a / n) * n;
    AddMultiple(a % n + b, a / n, n);
  }

  lemma SubRight(a: int, b: int, n: int)
    requires n > 0
    ensures (a - b % n) % n == (a - b) % n
  {
    assert a - b % n == (a - b) + (b / n) * n;
    AddMultiple(a - b, b / n, n);
  }

  lemma MulLeft(a: int, b: int, n: int)
    requires n > 0
    ensures (a % n * b) % n == (a * b) % n
  {
    assert a * b == a % n * b + (a / n * b) * n by {
      assert a == a % n + a / n * n;
      assert (a % n + a / n * n) * b == a % n * b + a / n * n * b;
      assert a / n * n * b == (a / n * b) * n;
    }
    AddMultiple(a % n * b, a / n * b, n);
  }

  ghost predicate Congruent(a: int, b: int, n: int)
    requires n > 0
  {
    a % n == b % n
  }

  lemma ModCongruent(a: int, n: int)
    requires n > 0
    ensures Congruent(a % n, a, n)
  {
    AddLeft(a, 0, n);
  }

  lemma CongruentAdd(a: int, b: int, c: int, d: int, n: int)
    requires n > 0 && Congruent(a, b, n) && Congruent(c, d, n)
    ensures Congruent(a + c, b + d, n)
  {
    AddLeft(a, c, n);
    AddLeft(b, c, n);
    AddLeft(c, b, n);
    AddLeft(d, b, n);
  }

  lemma CongruentMul(a: int, b: int, c: int, d: int, n: int)
    requires n > 0 && Congruent(a, b, n) && Congruent(c, d, n)
    ensures Congruent(a * c, b * d, n)
  {
    MulLeft(a, c, n);
    MulLeft(b, c, n);
    MulLeft(c, b, n);
    MulLeft(d, b, n);
    assert c * b == b * c && d * b == b * d;
  }

  lemma Small(a: int, n: int)
    requires 0 <= a < n
    ensures a % n == a
  {
  }

  // ---------- Inverses modulo a prime ----------

  ghost predicate Divides(d: int, a: int)
  {
    exists k: int :: a == Times(d, k)
  }

  function Times(a: int, b: int): int
  {
    a * b
  }

  ghost predicate Prime(m: int)
  {
    m > 1 && forall d | 1 < d < m :: !Divides(d, m)
  }

  /** The extended Euclidean algorithm: a common divisor that is a combination of the two numbers. */
  lemma {:induction false} Bezout(a: nat, b: nat) returns (g: nat, x: int, y: int)
    requires a > 0
    ensures g > 0 && Divides(g, a) && Divides(g, b) && g == a * x + b * y
    decreases b
  {
    if b == 0 {
      g, x, y := a, 1, 0;
      assert a == Times(g, 1) && b == Times(g, 0);
    } else {
      var x', y';
      g, x', y' := Bezout(b, a % b);
      x, y := y', x' - a / b * y';
      DividesSum(g, a, b);
      CombinedBack(a, b, x', y');
    }
  }

  lemma DividesSum(g: int, a: nat, b: nat)
    requires b > 0 && Divides(g, b) && Divides(g, a % b)
    ensures Divides(g, a)
  {
    var k: int :| b == Times(g, k);
    var l: int :| a % b == Times(g, l);
    var q := a / b;
    assert a == q * b + a % b;
    assert q * (g * k) == g * (q * k);
    assert g * (q * k) + g * l == g * (q * k + l);
    assert a == Times(g, q * k + l);
  }

  lemma CombinedBack(a: nat, b: nat, x: int, y: int)
    requires b > 0
    ensures b * x + a % b * y == a * y + b * (x - a / b * y)
  {
    var q, rest := a / b, a % b;
    assert a == q * b + rest;
    assert a * y == q * b * y + rest * y;
    assert b * (q * y) == q * b * y;
    assert b * (x - q * y) == b * x - b * (q * y);
  }

  lemma DivisorIsSmall(g: int, a: int)
    requires g > 0 && a > 0 && Divides(g, a)
    ensures g <= a
  {
    var k: int :| a == Times(g, k);
    MultipleIsFar(k, g);
    assert k * g == g * k == a;
  }

  /** Modulo a prime, everything but zero has an inverse. */
  lemma PrimeInverse(a: int, m: int) returns (x: nat)
    requires Prime(m) && 0 < a < m
    ensures x < m && (a * x) % m == 1
  {
    var g, u, v := Bezout(m, a);
    DivisorIsSmall(g, a);
    assert !(1 < g < m);
    x := v % m;
    MulLeft(v, a, m);
    assert a * v == 1 + (-u) * m;
    AddMultiple(1, -u, m);
    Small(1, m);
    assert v * a == a * v && v % m * a == a * x;
  }
}
