/** Division with remainder: the few facts the components' integer arithmetic rests on. */
module Arith {

  lemma MulMono(a: int, b: int, n: int)
    requires a <= b && 0 <= n
    ensures a * n <= b * n
  {
  }

  /** A multiple of `n` strictly between `-n` and `n` is zero. */
  lemma SmallMultiple(d: int, n: int)
    requires 0 < n && -n < d * n < n
    ensures d == 0
  {
    if d >= 1 {
      MulMono(1, d, n);
      assert false;
    }
    if d <= -1 {
      MulMono(d, -1, n);
      assert false;
    }
  }

  /** Division with remainder is unique. */
  lemma DivModIs(x: int, n: int, q: int, r: int)
    requires 0 < n && 0 <= r < n && x == q * n + r
    ensures x / n == q && x % n == r
  {
    var d := x / n - q;
    assert x == (x / n) * n + x % n;
    assert d * n == r - x % n;
    SmallMultiple(d, n);
  }

  /** A number one lap further on. */
  lemma ModOnce(x: int, n: int)
    requires 0 < n <= x < 2 * n
    ensures x % n == x - n
  {
    DivModIs(x, n, 1, x - n);
  }

  lemma ModShift(x: int, k: int, n: int)
    requires 0 < n
    ensures (x % n + k) % n == (x + k) % n
  {
    var q, r := (x + k) / n, (x + k) % n;
    assert x + k == q * n + r;
    assert x == (x / n) * n + x % n;
    assert x % n + k == (q - x / n) * n + r;
    DivModIs(x % n + k, n, q - x / n, r);
  }

  /** Numbers less than a lap apart have different remainders. */
  lemma ModDistinct(x: int, y: int, n: int)
    requires 0 < n && x < y < x + n
    ensures x % n != y % n
  {
    if x % n == y % n {
      var d := y / n - x / n;
      assert x == (x / n) * n + x % n;
      assert y == (y / n) * n + y % n;
      assert y - x == d * n;
      SmallMultiple(d, n);
      assert false;
    }
  }

  /** Within `n` consecutive numbers every remainder is met. */
  lemma HitRemainder(y: int, n: int, x: int) returns (m: int)
    requires 0 <= x < n
    ensures 0 <= m < n && (y + m) % n == x
  {
    var r := y % n;
    assert y == (y / n) * n + r;
    if r <= x {
      m := x - r;
      DivModIs(y + m, n, y / n, x);
    } else {
      m := x - r + n;
      assert (y / n + 1) * n == (y / n) * n + n;
      DivModIs(y + m, n, y / n + 1, x);
    }
  }

  // ---------------------------------------------------------- floors and ceilings

  /** BigInt division: truncated toward zero. */
  function TruncDiv(a: int, b: int): int
    requires b != 0
  {
    if (a >= 0) == (b > 0) then Abs(a) / Abs(b) else -(Abs(a) / Abs(b))
  }

  function Abs(a: int): nat {
    if a < 0 then -a else a
  }

  /** Rounded-up division of naturals, as `(a + b - 1) / b`. */
  function CeilDiv(a: nat, b: nat): nat
    requires b > 0
  {
    (a + b - 1) / b
  }

  lemma FloorBounds(a: int, b: int)
    requires b > 0
    ensures (a / b) * b <= a < (a / b) * b + b
  {
  }

  /** `a / b` is the largest `q` with `q * b <= a`. */
  lemma FloorIs(a: int, b: int, q: int)
    requires b > 0
    ensures q <= a / b <==> q * b <= a
  {
    FloorBounds(a, b);
    if q <= a / b {
      MulMono(q, a / b, b);
    } else {
      MulMono(a / b + 1, q, b);
      assert (a / b + 1) * b == (a / b) * b + b;
    }
  }

  /** `CeilDiv(a, b)` is the least `q` with `q * b >= a`. */
  lemma CeilIs(a: nat, b: nat, q: int)
    requires b > 0
    ensures CeilDiv(a, b) <= q <==> q * b >= a
  {
    FloorIs(a + b - 1, b, q + 1);
    assert (q + 1) * b == q * b + b;
  }

  lemma FloorMono(a: int, c: int, b: int)
    requires b > 0 && a <= c
    ensures a / b <= c / b
  {
    FloorBounds(a, b);
    FloorIs(c, b, a / b);
  }

  lemma MulCancel(x: int, y: int, b: int)
    requires b > 0 && x * b <= y * b
    ensures x <= y
  {
    assert (y + 1) * b == y * b + b;
    if x > y {
      MulMono(y + 1, x, b);
    }
  }

  lemma MulCancelStrict(x: int, y: int, b: int)
    requires b > 0 && x * b < y * b
    ensures x < y
  {
    if x >= y {
      MulMono(y, x, b);
    }
  }

  /** A smaller ratio has a smaller floor. */
  lemma FloorRatio(a: nat, b: nat, c: nat, d: nat)
    requires b > 0 && d > 0 && a * d <= c * b
    ensures a / b <= c / d
  {
    var q := a / b;
    FloorBounds(a, b);
    MulMono(q * b, a, d);
    assert (q * d) * b == (q * b) * d;
    MulCancel(q * d, c, b);
    FloorIs(c, d, q);
  }
}
