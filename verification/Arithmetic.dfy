/** Products of integers: the few nonlinear facts the other modules need. */
module Arithmetic {

  lemma MulAssociates(a: int, b: int, c: int)
    ensures (a * b) * c == a * (b * c)
  {
  }

  lemma MulCommutes(a: int, b: int)
    ensures a * b == b * a
  {
  }

  lemma Regroup(a: int, b: int, x: int, y: int)
    ensures (a * b) * (x * y) == (a * x) * (b * y)
  {
    var t := b * y;
    assert b * (x * y) == x * t;
    assert a * (x * t) == (a * x) * t;
    assert (a * b) * (x * y) == a * (b * (x * y));
  }

  lemma MulMono(q: int, a: int, b: int)
    requires q >= 0 && a <= b
    ensures q * a <= q * b
  {
    assert q * (b - a) >= 0;
    assert q * (b - a) == q * b - q * a;
  }

  lemma RowSplit(d: int, i: int, n: int)
    ensures (d + i + 1) * n == d * n + i * n + n
  {
  }

  /** Row i of width n ends where a later row k begins, or before. */
  lemma RowsBelow(n: int, i: int, k: int)
    requires n >= 0 && i < k
    ensures i * n + n <= k * n
  {
    var d := k - i - 1;
    RowSplit(d, i, n);
    MulMono(n, 0, d);
    assert d * n == n * d;
  }

  /** Different places of a row-by-row table have different indices. */
  lemma PlaceUnique(n: int, i: int, j: int, k: int, l: int)
    requires 0 <= j < n && 0 <= l < n && i * n + j == k * n + l
    ensures i == k && j == l
  {
    if i < k {
      RowsBelow(n, i, k);
    } else if k < i {
      RowsBelow(n, k, i);
    }
  }
}
