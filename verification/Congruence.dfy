/** When a counter that starts at `a` and grows by `b` reaches zero modulo `m`. */
module Congruence {
  function Gcd(a: nat, b: nat): nat
    decreases b
  {
    if b == 0 then a else Gcd(b, a % b)
  }

  ghost predicate Divides(d: int, n: int) {
    exists q :: IsMultiple(n, d, q)
  }

  predicate IsMultiple(n: int, d: int, q: int) { n == d * q }

  lemma DividesSum(d: int, x: int, y: int, k: int)
    requires Divides(d, x) && Divides(d, y)
    ensures Divides(d, x + k * y)
  {
    var p :| IsMultiple(x, d, p);
    var q :| IsMultiple(y, d, q);
    assert x + k * y == d * p + k * (d * q) == d * (p + k * q);
    assert IsMultiple(x + k * y, d, p + k * q);
  }

  lemma {:induction false} GcdDivides(a: nat, b: nat)
    ensures Divides(Gcd(a, b), a) && Divides(Gcd(a, b), b)
    decreases b
  {
    var g := Gcd(a, b);
    if b == 0 {
      assert IsMultiple(a, g, 1) && IsMultiple(b, g, 0);
    } else {
      GcdDivides(b, a % b);
      DividesSum(g, a % b, b, a / b);
      assert a % b + (a / b) * b == a;
    }
  }

  lemma {:induction false} Bezout(a: nat, b: nat) returns (x: int, y: int)
    ensures a * x + b * y == Gcd(a, b)
    decreases b
  {
    if b == 0 {
      x, y := 1, 0;
    } else {
      var x', y' := Bezout(b, a % b);
      x, y := y', x' - (a / b) * y';
      calc {
        a * x + b * y;
        { assert b * (x' - (a / b) * y') == b * x' - (b * (a / b)) * y'; }
        a * y' + b * x' - (b * (a / b)) * y';
        { assert a == b * (a / b) + a % b; }
        (b * (a / b) + a % b) * y' + b * x' - (b * (a / b)) * y';
        b * x' + (a % b) * y';
      }
    }
  }

  ghost predicate ReachesZero(a: int, b: int, m: int) {
    exists k: nat :: k >= 1 && Divides(m, a + k * b)
  }

  // The counter reaches zero just if the greatest common divisor of step and modulus divides the start.
  lemma ReachesZeroIff(a: nat, b: nat, m: nat)
    requires m > 0
    ensures ReachesZero(a, b, m) <==> Divides(Gcd(b, m), a)
  {
    var g := Gcd(b, m);
    GcdDivides(b, m);
    if ReachesZero(a, b, m) {
      var k: nat :| k >= 1 && Divides(m, a + k * b);
      var j :| IsMultiple(a + k * b, m, j);
      assert IsMultiple(0, g, 0);
      DividesSum(g, 0, m, j);
      assert 0 + j * m == a + k * b;
      DividesSum(g, a + k * b, b, 0 - k);
      assert a + k * b + (0 - k) * b == a;
    }
    if Divides(g, a) {
      Solve(a, b, m);
    }
  }

  lemma Solve(a: nat, b: nat, m: nat)
    requires m > 0 && Divides(Gcd(b, m), a)
    ensures ReachesZero(a, b, m)
  {
    var x, y := Bezout(b, m);
    var q :| IsMultiple(a, Gcd(b, m), q);
    ScaleBezout(a, b, m, x, y, q);
    var s := Abs(x * q) + 1;
    var k := m * s - x * q;
    MulAtLeast(m, s);
    Distribute(a, b, m, s, x * q, y * q);
    assert IsMultiple(a + k * b, m, y * q + s * b);
    assert k >= 1;
  }

  lemma Distribute(a: int, b: int, m: int, s: int, u: int, v: int)
    requires a - u * b == m * v
    ensures a + (m * s - u) * b == m * (v + s * b)
  {
    assert (m * s - u) * b == (m * s) * b - u * b;
    assert (m * s) * b == m * (s * b);
  }

  function Abs(n: int): nat { if n < 0 then -n else n }

  lemma ScaleBezout(a: int, b: int, m: int, x: int, y: int, q: int)
    requires a == (b * x + m * y) * q
    ensures a - (x * q) * b == m * (y * q)
  {
    assert (b * x + m * y) * q == (b * x) * q + (m * y) * q;
    assert (b * x) * q == (x * q) * b;
    assert (m * y) * q == m * (y * q);
  }

  lemma MulAtLeast(m: int, s: int)
    requires m >= 1 && s >= 0
    ensures m * s >= s
  {}
}
