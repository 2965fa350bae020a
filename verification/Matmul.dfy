/** The plain matrix product every GEMM kernel is meant to compute, in exact arithmetic. */
module Matmul {

  /** The flat position of element (i, j) of a row-major n-by-n matrix is in range. */
  lemma InRange(n: nat, i: nat, j: nat)
    requires i < n && j < n
    ensures 0 <= i * n + j < n * n
  {
    assert i * n + j < i * n + n == (i + 1) * n <= n * n;
  }

  lemma Multiple(d: int, n: nat)
    ensures d >= 1 ==> d * n >= n
    ensures d <= -1 ==> d * n + n <= 0
  {
  }

  /** ... and no other element shares it. */
  lemma Injective(n: nat, i: nat, j: nat, k: nat, l: nat)
    requires i < n && j < n && k < n && l < n
    requires i * n + j == k * n + l
    ensures i == k && j == l
  {
    Multiple(i - k, n);
    assert (i - k) * n == i * n - k * n;
  }

  function Cell(a: seq<real>, n: nat, i: nat, j: nat): real
    requires |a| == n * n && i < n && j < n
  {
    InRange(n, i, j);
    a[i * n + j]
  }

  /** The first `k` terms of the inner product of a row of `a` and a column of `b`. */
  function Dot(a: seq<real>, b: seq<real>, n: nat, row: nat, col: nat, k: nat): real
    requires |a| == n * n && |b| == n * n && row < n && col < n && k <= n
  {
    if k == 0 then 0.0
    else Dot(a, b, n, row, col, k - 1) + Cell(a, n, row, k - 1) * Cell(b, n, k - 1, col)
  }

  ghost predicate IsProduct(c: seq<real>, a: seq<real>, b: seq<real>, n: nat)
    requires |a| == n * n && |b| == n * n
  {
    && |c| == n * n
    && forall row: nat, col: nat :: row < n && col < n ==> Cell(c, n, row, col) == Dot(a, b, n, row, col, n)
  }

  /** There is only one product, so kernels that each compute it agree. */
  lemma ProductIsUnique(c: seq<real>, d: seq<real>, a: seq<real>, b: seq<real>, n: nat)
    requires |a| == n * n && |b| == n * n
    requires IsProduct(c, a, b, n) && IsProduct(d, a, b, n)
    ensures c == d
  {
    forall q | 0 <= q < n * n ensures c[q] == d[q] {
      var row, col := Position(n, q);
      assert Cell(c, n, row, col) == Cell(d, n, row, col);
    }
  }

  lemma Position(n: nat, q: nat) returns (row: nat, col: nat)
    requires q < n * n
    ensures row < n && col < n && q == row * n + col
  {
    row, col := q / n, q % n;
    assert q == n * (q / n) + q % n;
    Multiple(row - n + 1, n);
    assert (row - n + 1) * n == row * n - n * n + n;
  }

  function Ones(n: nat): seq<real> {
    seq(n * n, i => 1.0)
  }

  /** On all-ones inputs every partial sum is the count of its terms. */
  lemma {:induction false} OnesDot(n: nat, row: nat, col: nat, k: nat)
    requires row < n && col < n && k <= n
    ensures Dot(Ones(n), Ones(n), n, row, col, k) == k as real
  {
    if k > 0 {
      OnesDot(n, row, col, k - 1);
      InRange(n, row, k - 1);
      InRange(n, k - 1, col);
    }
  }

  function Identity(n: nat): seq<real> {
    seq(n * n, q requires 0 <= q < n * n => if q / n == q % n then 1.0 else 0.0)
  }

  lemma Quotient(x: nat, d: nat, q: nat, r: nat)
    requires d > 0 && r < d && x == q * d + r
    ensures x / d == q && x % d == r
  {
    var e := x / d - q;
    assert x == (x / d) * d + x % d;
    assert e * d == (x / d) * d - q * d == r - x % d;
    Multiple(e, d);
  }

  lemma IdentityCell(n: nat, i: nat, j: nat)
    requires i < n && j < n
    ensures Cell(Identity(n), n, i, j) == if i == j then 1.0 else 0.0
  {
    InRange(n, i, j);
    Quotient(i * n + j, n, i, j);
  }

  /** Multiplying by the identity on either side gives the matrix back, so rows and columns are not confused. */
  lemma {:induction false} IdentityDots(a: seq<real>, n: nat, row: nat, col: nat, k: nat)
    requires |a| == n * n && row < n && col < n && k <= n
    ensures Dot(a, Identity(n), n, row, col, k) == if col < k then Cell(a, n, row, col) else 0.0
    ensures Dot(Identity(n), a, n, row, col, k) == if row < k then Cell(a, n, row, col) else 0.0
  {
    if k > 0 {
      IdentityDots(a, n, row, col, k - 1);
      IdentityCell(n, k - 1, col);
      IdentityCell(n, row, k - 1);
    }
  }

  lemma IdentityIsNeutral(a: seq<real>, n: nat)
    requires |a| == n * n
    ensures IsProduct(a, a, Identity(n), n) && IsProduct(a, Identity(n), a, n)
  {
    forall row: nat, col: nat | row < n && col < n
      ensures Cell(a, n, row, col) == Dot(a, Identity(n), n, row, col, n) == Dot(Identity(n), a, n, row, col, n)
    {
      IdentityDots(a, n, row, col, n);
    }
  }
}
