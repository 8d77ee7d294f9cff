/** Integer division as the scripts use it: `math.floor` is Dafny's `/` on a positive divisor,
    `math.ceil` is CeilDiv. */
module Arith {

  datatype Option<T> = None | Some(value: T)

  function Min(a: int, b: int): int {
    if a <= b then a else b
  }

  function Max(a: int, b: int): int {
    if a <= b then b else a
  }

  function CeilDiv(a: int, b: int): int
    requires b > 0
  {
    -((-a) / b)
  }

  lemma MulMonotone(n: int, a: int, b: int)
    requires n >= 0 && a <= b
    ensures n * a <= n * b
  {
  }

  /** A quotient reaches n exactly when the dividend reaches n times the divisor. */
  lemma FloorReaches(a: int, b: int, n: int)
    requires b > 0
    ensures a / b >= n <==> a >= n * b
  {
    var q, r := a / b, a % b;
    assert a == b * q + r;
    if q >= n { MulMonotone(b, n, q); } else { MulMonotone(b, q + 1, n); }
  }

  /** The rounded-up quotient is the least n whose multiple covers the dividend. */
  lemma CeilIsLeast(a: int, b: int, n: int)
    requires b > 0
    ensures n >= CeilDiv(a, b) <==> n * b >= a
  {
    FloorReaches(-a, b, -n);
    assert (-n) * b == -(n * b);
  }

  lemma CeilBounds(a: int, b: int)
    requires b > 0
    ensures a <= CeilDiv(a, b) * b < a + b
  {
    CeilIsLeast(a, b, CeilDiv(a, b));
    CeilIsLeast(a, b, CeilDiv(a, b) - 1);
    assert (CeilDiv(a, b) - 1) * b == CeilDiv(a, b) * b - b;
  }

  lemma ModuloShift(x: int, k: int, n: int)
    requires n > 0
    ensures (x + n * k) % n == x % n
  {
    var q, r := x / n, x % n;
    assert x + n * k == n * (q + k) + r;
    QuotientIsUnique(x + n * k, n, q + k, r);
  }

  lemma QuotientIsUnique(x: int, n: int, q: int, r: int)
    requires n > 0 && 0 <= r < n && x == n * q + r
    ensures x / n == q && x % n == r
  {
    var d := x / n - q;
    assert x == n * (x / n) + x % n;
    assert n * d == r - x % n;
    if d >= 1 { MulMonotone(n, 1, d); }
    if d <= -1 { MulMonotone(n, d, -1); }
  }
}
