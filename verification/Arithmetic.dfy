/** Division facts the wheels and the ring buffer rest on. */
module Arithmetic {
  /** `q` and `r` are the quotient and remainder when they satisfy the division equation. */
  lemma DivModUnique(x: int, b: int, q: int, r: int)
    requires 0 < b && x == q * b + r && 0 <= r < b
    ensures x / b == q && x % b == r
  {
    assert x == (x / b) * b + x % b;
    if x / b < q {
      assert (x / b + 1) * b <= q * b by { MulMonotone(x / b + 1, q, b); }
    } else if x / b > q {
      assert (q + 1) * b <= (x / b) * b by { MulMonotone(q + 1, x / b, b); }
    }
  }

  lemma DivModDetermine(x: int, y: int, b: int)
    requires 0 < b
    ensures x == y <==> x / b == y / b && x % b == y % b
  {
    var qx, rx, qy, ry := x / b, x % b, y / b, y % b;
    assert x == qx * b + rx;
    assert y == qy * b + ry;
  }

  lemma MulMonotone(x: int, y: int, b: int)
    requires x <= y && 0 <= b
    ensures x * b <= y * b
  {
    assert (y - x) * b >= 0;
    assert y * b == x * b + (y - x) * b;
  }

  /** Quotient and remainder shift by whole multiples of the divisor. */
  lemma DivModShift(x: int, b: int, k: int)
    requires 0 < b
    ensures (x + k * b) / b == x / b + k && (x + k * b) % b == x % b
  {
    var q, r := x / b, x % b;
    assert x == q * b + r;
    assert x + k * b == (q + k) * b + r;
    DivModUnique(x + k * b, b, q + k, r);
  }

  /** A quotient is below `n` exactly when the dividend is below `n * b`. */
  lemma DivBelow(x: int, b: int, n: int)
    requires 0 <= x && 0 < b
    ensures x / b < n <==> x < n * b
  {
    assert x == (x / b) * b + x % b;
    if x / b < n {
      MulMonotone(x / b + 1, n, b);
      assert (x / b + 1) * b == (x / b) * b + b;
    } else {
      MulMonotone(n, x / b, b);
    }
  }

  /** Dividing by a product is dividing twice, and the remainder splits accordingly. */
  lemma DivModProduct(x: int, b: int, n: int)
    requires 0 <= x && 0 < b && 0 < n
    ensures 0 < b * n
    ensures x / (b * n) == x / b / n
    ensures x % (b * n) == (x / b % n) * b + x % b
  {
    var q, r := x / b, x % b;
    assert x == q * b + r;
    assert q == (q / n) * n + q % n;
    assert ((q / n) * n + q % n) * b == (q / n) * (b * n) + (q % n) * b;
    assert x == (q / n) * (b * n) + ((q % n) * b + r);
    MulMonotone(q % n + 1, n, b);
    assert (q % n + 1) * b == (q % n) * b + b;
    MulPositive(b, n);
    assert 0 <= (q % n) * b;
    DivModUnique(x, b * n, q / n, (q % n) * b + r);
  }

  lemma MulPositive(x: int, y: int)
    requires 0 < x && 0 < y
    ensures 0 < x * y && x <= x * y && y <= x * y
  {
    MulMonotone(1, x, y);
    MulMonotone(1, y, x);
  }

  /** One more: either the remainder grows or it wraps and the quotient grows. */
  lemma DivModSuccessor(q: int, n: int)
    requires 0 <= q && 0 < n
    ensures q % n + 1 < n ==> (q + 1) % n == q % n + 1 && (q + 1) / n == q / n
    ensures q % n + 1 == n ==> (q + 1) % n == 0 && (q + 1) / n == q / n + 1
    ensures (q + 1) % n == (q % n + 1) % n
  {
    assert q == (q / n) * n + q % n;
    if q % n + 1 < n {
      DivModUnique(q + 1, n, q / n, q % n + 1);
    } else {
      assert q + 1 == (q / n + 1) * n + 0;
      DivModUnique(q + 1, n, q / n + 1, 0);
    }
  }

  /** Reducing one summand first does not change the remainder of a sum. */
  lemma ModAdd(x: int, y: int, n: int)
    requires 0 < n
    ensures (x % n + y) % n == (x + y) % n
  {
    assert x == (x / n) * n + x % n;
    assert x + y == (x % n + y) + (x / n) * n;
    DivModShift(x % n + y, n, x / n);
  }

  /** `delay / b` buckets on from `c`, around a circle of `n`, is `c` again only after a full turn. */
  lemma TurnIndex(c: nat, n: nat, b: nat, delay: nat)
    requires c < n && 0 < b <= delay
    ensures delay < n * b ==> (c + delay / b) % n != c
    ensures n * b <= delay < n * b + b ==> (c + delay / b) % n == c
  {
    var q := delay / b;
    DivBelow(delay, b, 1);
    DivBelow(delay, b, n);
    DivBelow(delay, b, n + 1);
    assert (n + 1) * b == n * b + b;
    if q < n && c + q < n {
      DivModUnique(c + q, n, 0, c + q);
    } else if q < n {
      DivModUnique(c + q, n, 1, c + q - n);
    } else if q == n {
      DivModUnique(c + q, n, 1, c);
    }
  }
}
