/** Facts about multiplication and division on non-negative integers that the batching
    proofs use, each proved from the definition of `/` and `%`. */
module Arith {

  lemma MulPositive(d: int, k: int)
    requires d > 0 && k >= 1
    ensures d * k >= d
    decreases k
  {
    if k > 1 {
      MulPositive(d, k - 1);
      assert d * k == d * (k - 1) + d;
    }
  }

  lemma MulMonotone(d: nat, a: int, b: int)
    requires a <= b
    ensures d * a <= d * b
  {
    if d > 0 && a < b {
      MulPositive(d, b - a);
      assert d * b - d * a == d * (b - a);
    }
  }

  /** The quotient and remainder are the only ones that fit. */
  lemma DivUnique(x: int, d: int, q: int, r: int)
    requires d > 0 && 0 <= r < d && x == d * q + r
    ensures x / d == q && x % d == r
  {
    var Q, R := x / d, x % d;
    assert d * Q + R == d * q + r;
    if Q > q {
      MulPositive(d, Q - q);
      assert false;
    } else if Q < q {
      MulPositive(d, q - Q);
      assert false;
    }
  }

  lemma DivStep(x: nat, d: nat)
    requires d > 0
    ensures (x + d) / d == x / d + 1
  {
    DivUnique(x + d, d, x / d + 1, x % d);
  }

  /** The number of groups of at most `n` needed for `size` elements: ceil(size / n). */
  function CeilDiv(size: nat, n: nat): nat
    requires n > 0
  {
    (size + n - 1) / n
  }

  /** `CeilDiv(size, n)` groups of `n` reach `size`, and one group fewer does not. */
  lemma CeilDivBounds(size: nat, n: nat)
    requires n > 0
    ensures size <= n * CeilDiv(size, n)
    ensures size > 0 ==> n * (CeilDiv(size, n) - 1) < size
    ensures size == 0 ==> CeilDiv(size, n) == 0
  {
    var x := size + n - 1;
    var c, r := x / n, x % n;
    assert x == n * c + r;
    if size == 0 {
      DivUnique(x, n, 0, n - 1);
    } else {
      assert n * (c - 1) == n * c - n;
    }
  }

  /** Index `i` lies in the group numbered `k` exactly when `k == i / n`. */
  lemma GroupOf(i: nat, n: nat, k: nat)
    requires n > 0
    ensures n * k <= i < n * k + n <==> k == i / n
  {
    if n * k <= i < n * k + n {
      DivUnique(i, n, k, i - n * k);
    }
    if k == i / n {
      assert i == n * k + i % n;
    }
  }

  /** An index below `size` falls in one of the `CeilDiv(size, n)` groups. */
  lemma GroupBelowCeil(size: nat, n: nat, i: nat)
    requires n > 0 && i < size
    ensures i / n < CeilDiv(size, n)
  {
    CeilDivBounds(size, n);
    var c, q := CeilDiv(size, n), i / n;
    assert n * q <= i by {
      GroupOf(i, n, q);
    }
    if q >= c {
      MulMonotone(n, c, q);
      assert false;
    }
  }
}
