/** Greatest common divisors and remainders, as the in-place rotation needs them. */
module Divisibility {

  /** Go's % truncates toward zero: the remainder has the sign of the dividend. */
  function GoRem(x: int, n: nat): int
    requires n > 0
  {
    if x >= 0 then x % n else -((-x) % n)
  }

  lemma MulMonotone(a: int, b: int, n: nat)
    requires a <= b
    ensures a * n <= b * n
  {
    assert (b - a) * n >= 0;
  }

  lemma Distribute(a: int, b: int, c: int)
    ensures (a + b) * c == a * c + b * c && c * (a + b) == c * a + c * b
  {
  }

  lemma Reassociate(a: int, b: int, c: int)
    ensures (a * b) * c == a * (b * c) && a * (b * c) == b * (a * c)
  {
  }

  /** The remainder is the only number below n that differs from y by a multiple of n. */
  lemma ModUnique(y: int, n: nat, x: int, k: int)
    requires 0 <= x < n && y == x + k * n
    ensures y % n == x && y / n == k
  {
    var q, r := y / n, y % n;
    assert y == q * n + r;
    assert (q + 1) * n == q * n + n && (k + 1) * n == k * n + n;
    if q < k {
      MulMonotone(q + 1, k, n);
    } else if k < q {
      MulMonotone(k + 1, q, n);
    }
  }

  lemma MultipleMod(k: int, n: nat)
    requires n > 0
    ensures (k * n) % n == 0 && (k * n) / n == k
  {
    ModUnique(k * n, n, 0, k);
  }

  lemma DivMod(y: int, n: nat)
    requires n > 0
    ensures y == (y / n) * n + y % n && 0 <= y % n < n
  {
  }

  /** Go's remainder, brought into range when it is negative, is the mathematical one. */
  lemma GoRemWraps(x: int, n: nat)
    requires n > 0
    ensures (if GoRem(x, n) < 0 then GoRem(x, n) + n else GoRem(x, n)) == x % n
  {
    if x < 0 {
      var q, r := (-x) / n, (-x) % n;
      DivMod(-x, n);
      Distribute(-q, -1, n);
      if r == 0 {
        ModUnique(x, n, 0, -q);
      } else {
        ModUnique(x, n, n - r, -q - 1);
      }
    }
  }

  lemma AddMod(i: int, x: int, n: nat)
    requires n > 0
    ensures (i + x) % n == (i + x % n) % n
  {
    DivMod(x, n);
    DivMod(i + x % n, n);
    Distribute(x / n, (i + x % n) / n, n);
    ModUnique(i + x, n, (i + x % n) % n, x / n + (i + x % n) / n);
  }

  function Gcd(x: nat, y: nat): nat
    decreases y
  {
    if y == 0 then x else Gcd(y, x % y)
  }

  /** gcd as the source computes it. */
  method ComputeGcd(x0: nat, y0: nat) returns (g: nat)
    ensures g == Gcd(x0, y0)
  {
    var x, y := x0, y0;
    while y != 0
      invariant Gcd(x, y) == Gcd(x0, y0)
      decreases y
    {
      x, y := y, x % y;
    }
    return x;
  }

  lemma SumOfMultiples(a: int, b: int, q: int, g: nat)
    requires g > 0 && a % g == 0 && b % g == 0
    ensures (q * a + b) % g == 0
  {
    var a', b' := a / g, b / g;
    DivMod(a, g);
    DivMod(b, g);
    assert q * a + b == (q * a' + b') * g by {
      assert q * (a' * g) == (q * a') * g;
    }
    MultipleMod(q * a' + b', g);
  }

  /** Gcd computes a common divisor ... */
  lemma {:induction false} GcdDivides(x: nat, y: nat)
    requires x > 0 || y > 0
    ensures Gcd(x, y) > 0 && x % Gcd(x, y) == 0 && y % Gcd(x, y) == 0
    decreases y
  {
    if y == 0 {
      MultipleMod(1, x);
    } else {
      GcdDivides(y, x % y);
      DivMod(x, y);
      SumOfMultiples(y, x % y, x / y, Gcd(x, y));
    }
  }

  /** ... that every other common divisor divides. */
  lemma {:induction false} GcdIsGreatest(x: nat, y: nat, c: nat)
    requires c > 0 && x % c == 0 && y % c == 0
    ensures Gcd(x, y) % c == 0
    decreases y
  {
    if y > 0 {
      var q := -(x / y);
      DivMod(x, y);
      SumOfMultiples(y, x, q, c);
      assert q * y + x == x % y;
      GcdIsGreatest(y, x % y, c);
    }
  }

  /** Bezout's identity. */
  lemma {:induction false} Bezout(x: nat, y: nat) returns (u: int, v: int)
    ensures u * x + v * y == Gcd(x, y)
    decreases y
  {
    if y == 0 {
      return 1, 0;
    }
    var u', v' := Bezout(y, x % y);
    u, v := v', u' - v' * (x / y);
    DivMod(x, y);
    var q := x / y;
    assert v' * x == v' * (q * y) + v' * (x % y);
    assert (v' * q) * y == v' * (q * y);
    assert v * y == u' * y - (v' * q) * y;
  }
}
