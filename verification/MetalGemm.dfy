/**
 The Metal matmul: one simdgroup per 8 by 8 output tile, stepping along k eight columns at a time.

 Threadgroups share nothing but `C`, where their tiles are disjoint, so running them one after
 another in an arbitrary order shows all that running them together could.
 */
module MetalGemm {
  import opened Matmul
  import Images
  import WgslGemm

  const B := 8

  /** Element (i, j) of an 8 by 8 matrix held in row-major order. */
  function At(tile: seq<real>, i: nat, j: nat): real
    requires |tile| == B * B && i < B && j < B
  {
    tile[i * B + j]
  }

  /** The first `k` terms of the inner product of a row and a column of two 8 by 8 tiles. */
  function TileDot(x: seq<real>, y: seq<real>, i: nat, j: nat, k: nat): real
    requires |x| == B * B && |y| == B * B && i < B && j < B && k <= B
  {
    if k == 0 then 0.0 else TileDot(x, y, i, j, k - 1) + At(x, i, k - 1) * At(y, k - 1, j)
  }

  /** `tile` is the 8 by 8 block of `m` at (row, col). */
  ghost predicate IsBlock(tile: seq<real>, m: seq<real>, n: nat, row: nat, col: nat)
    requires |m| == n * n && row + B <= n && col + B <= n
  {
    |tile| == B * B
    && forall i: nat, j: nat :: i < B && j < B ==> At(tile, i, j) == Cell(m, n, row + i, col + j)
  }

  lemma Address(n: nat, row: nat, col: nat, y: nat, x: nat)
    requires row + y < n && col + x < n
    ensures row * n + col + y * n + x == (row + y) * n + (col + x) < n * n
  {
    InRange(n, row + y, col + x);
    assert (row + y) * n == row * n + y * n;
  }

  /** Where element `q` of a tile lies from the tile's first, in rows `n` apart. */
  function Offset(n: nat, q: nat): nat {
    q / B * n + q % B
  }

  lemma TileCell(m: seq<real>, n: nat, row: nat, col: nat, q: nat)
    requires |m| == n * n && row + B <= n && col + B <= n && q < B * B
    ensures row * n + col + Offset(n, q) < |m|
    ensures m[row * n + col + Offset(n, q)] == Cell(m, n, row + q / B, col + q % B)
  {
    Address(n, row, col, q / B, q % B);
  }

  /** `simdgroup_load(tile, m + row * n + col, n)`. */
  method Load(m: seq<real>, n: nat, row: nat, col: nat) returns (tile: seq<real>)
    requires |m| == n * n && row + B <= n && col + B <= n
    ensures IsBlock(tile, m, n, row, col)
  {
    tile := [];
    for q := 0 to B * B
      invariant |tile| == q
      invariant forall r: nat :: r < q ==> tile[r] == Cell(m, n, row + r / B, col + r % B)
    {
      var offset := Offset(n, q);
      TileCell(m, n, row, col, q);
      tile := tile + [m[row * n + col + offset]];
    }
    forall i: nat, j: nat | i < B && j < B ensures At(tile, i, j) == Cell(m, n, row + i, col + j) {
      assert (i * B + j) / B == i && (i * B + j) % B == j;
    }
  }

  /** `simdgroup_multiply_accumulate(acc, x, y, acc)`. */
  method MultiplyAccumulate(acc: seq<real>, x: seq<real>, y: seq<real>) returns (sum: seq<real>)
    requires |acc| == B * B && |x| == B * B && |y| == B * B
    ensures |sum| == B * B
    ensures forall i: nat, j: nat :: i < B && j < B ==> At(sum, i, j) == At(acc, i, j) + TileDot(x, y, i, j, B)
  {
    sum := [];
    for q := 0 to B * B
      invariant |sum| == q
      invariant forall r: nat :: r < q ==> sum[r] == acc[r] + TileDot(x, y, r / B, r % B, B)
    {
      var s := 0.0;
      for k := 0 to B
        invariant s == TileDot(x, y, q / B, q % B, k)
      {
        s := s + At(x, q / B, k) * At(y, k, q % B);
      }
      sum := sum + [acc[q] + s];
    }
    forall i: nat, j: nat | i < B && j < B ensures At(sum, i, j) == At(acc, i, j) + TileDot(x, y, i, j, B) {
      assert (i * B + j) / B == i && (i * B + j) % B == j;
    }
  }

  /** A block of eight terms is the next eight terms of the inner product. */
  lemma {:induction false} BlockExtendsDot(a: seq<real>, b: seq<real>, n: nat, row: nat, col: nat, k: nat,
                                           x: seq<real>, y: seq<real>, i: nat, j: nat, m: nat)
    requires |a| == n * n && |b| == n * n && row + B <= n && col + B <= n && k + B <= n
    requires IsBlock(x, a, n, row, k) && IsBlock(y, b, n, k, col) && i < B && j < B && m <= B
    ensures Dot(a, b, n, row + i, col + j, k + m) == Dot(a, b, n, row + i, col + j, k) + TileDot(x, y, i, j, m)
  {
    if m > 0 {
      BlockExtendsDot(a, b, n, row, col, k, x, y, i, j, m - 1);
      var term := NextTerm(a, b, n, row, col, k, x, y, i, j, m - 1);
    }
  }

  /** Both sums grow by the same term. */
  lemma NextTerm(a: seq<real>, b: seq<real>, n: nat, row: nat, col: nat, k: nat,
                 x: seq<real>, y: seq<real>, i: nat, j: nat, m: nat) returns (term: real)
    requires |a| == n * n && |b| == n * n && row + B <= n && col + B <= n && k + B <= n
    requires IsBlock(x, a, n, row, k) && IsBlock(y, b, n, k, col) && i < B && j < B && m < B
    ensures Dot(a, b, n, row + i, col + j, k + m + 1) == Dot(a, b, n, row + i, col + j, k + m) + term
    ensures TileDot(x, y, i, j, m + 1) == TileDot(x, y, i, j, m) + term
  {
    term := At(x, i, m) * At(y, m, j);
    SameProduct(At(x, i, m), At(y, m, j), Cell(a, n, row + i, k + m), Cell(b, n, k + m, col + j));
  }

  lemma SameProduct(x: real, y: real, u: real, v: real)
    requires x == u && y == v
    ensures x * y == u * v
  {
  }

  /** The accumulator holds the first `k` terms of every inner product of its tile. */
  ghost predicate Accumulated(acc: seq<real>, a: seq<real>, b: seq<real>, n: nat, row: nat, col: nat, k: nat)
    requires |a| == n * n && |b| == n * n && row + B <= n && col + B <= n && k <= n
  {
    |acc| == B * B
    && forall i: nat, j: nat :: i < B && j < B ==> At(acc, i, j) == Dot(a, b, n, row + i, col + j, k)
  }

  lemma BlockStep(a: seq<real>, b: seq<real>, n: nat, row: nat, col: nat, k: nat,
                  x: seq<real>, y: seq<real>, acc: seq<real>, sum: seq<real>)
    requires |a| == n * n && |b| == n * n && row + B <= n && col + B <= n && k + B <= n
    requires IsBlock(x, a, n, row, k) && IsBlock(y, b, n, k, col) && Accumulated(acc, a, b, n, row, col, k)
    requires |sum| == B * B
    requires forall i: nat, j: nat :: i < B && j < B ==> At(sum, i, j) == At(acc, i, j) + TileDot(x, y, i, j, B)
    ensures Accumulated(sum, a, b, n, row, col, k + B)
  {
    forall i: nat, j: nat | i < B && j < B ensures At(sum, i, j) == Dot(a, b, n, row + i, col + j, k + B) {
      BlockExtendsDot(a, b, n, row, col, k, x, y, i, j, B);
      assert At(acc, i, j) == Dot(a, b, n, row + i, col + j, k);
    }
  }

  lemma TileFits(n: nat, t: nat)
    requires n % B == 0 && t < n / B
    ensures t * B + B <= n
  {
  }

  lemma BlockFits(n: nat, k: nat)
    requires n % B == 0 && k % B == 0 && k < n
    ensures k + B <= n && (k + B) % B == 0
  {
  }

  method Kernel(a: seq<real>, b: seq<real>, n: nat, ty: nat, tx: nat) returns (acc: seq<real>)
    requires |a| == n * n && |b| == n * n && n % B == 0 && ty < n / B && tx < n / B
    ensures Accumulated(acc, a, b, n, ty * B, tx * B, n)
  {
    var row, col := ty * B, tx * B;
    TileFits(n, ty);
    TileFits(n, tx);
    acc := seq(B * B, _ => 0.0);
    var k := 0;
    while k < n
      invariant k <= n && k % B == 0
      invariant Accumulated(acc, a, b, n, row, col, k)
    {
      BlockFits(n, k);
      var x := Load(a, n, row, k);
      var y := Load(b, n, k, col);
      var sum := MultiplyAccumulate(acc, x, y);
      BlockStep(a, b, n, row, col, k, x, y, acc, sum);
      acc := sum;
      k := k + B;
    }
  }

  // ---- the grid ------------------------------------------------------------

  datatype Tile = Tile(y: nat, x: nat)

  /** The threadgroups of the dispatch, each once, in whatever order they run. */
  ghost predicate IsGrid(order: seq<Tile>, n: nat) {
    && (forall i, j :: 0 <= i < j < |order| ==> order[i] != order[j])
    && (forall t :: t in order <==> t.y < n / B && t.x < n / B)
  }

  function Owner(row: nat, col: nat): Tile {
    Tile(row / B, col / B)
  }

  /** The 8 by 8 tiles of the grid partition the matrix: every element lies in exactly one of them. */
  lemma OneTileEach(order: seq<Tile>, n: nat, i: nat, j: nat) returns (k: nat)
    requires IsGrid(order, n) && n % 8 == 0 && i < n && j < n
    ensures k < |order| && Covers(order[k], i, j)
    ensures forall l :: 0 <= l < |order| && Covers(order[l], i, j) ==> l == k
  {
    assert Owner(i, j) in order;
    k :| 0 <= k < |order| && order[k] == Owner(i, j);
  }

  predicate Covers(t: Tile, i: nat, j: nat) {
    8 * t.y <= i < 8 * t.y + 8 && 8 * t.x <= j < 8 * t.x + 8
  }

  class Output {
    const n: nat
    const c: array<real>
    /** How often each element of `c` has been written. */
    const writes: array<nat>

    predicate Sized() {
      c.Length == n * n && writes.Length == n * n
    }

    function Value(i: nat, j: nat): real
      requires Sized() && i < n && j < n
      reads c
    {
      InRange(n, i, j);
      c[i * n + j]
    }

    function Writes(i: nat, j: nat): nat
      requires Sized() && i < n && j < n
      reads writes
    {
      InRange(n, i, j);
      writes[i * n + j]
    }

    constructor (n: nat)
      ensures this.n == n && Sized() && fresh(c) && fresh(writes)
      ensures forall i: nat, j: nat :: i < n && j < n ==> Writes(i, j) == 0
    {
      this.n := n;
      c := new real[n * n];
      writes := new nat[n * n](_ => 0);
      new;
      forall i: nat, j: nat | i < n && j < n ensures Writes(i, j) == 0 {
        InRange(n, i, j);
      }
    }

    method Put(i: nat, j: nat, x: real)
      requires Sized() && i < n && j < n
      modifies c, writes
      ensures Value(i, j) == x && Writes(i, j) == old(Writes(i, j)) + 1
      ensures forall k: nat, l: nat :: k < n && l < n && (k, l) != (i, j) ==>
                Value(k, l) == old(Value(k, l)) && Writes(k, l) == old(Writes(k, l))
    {
      InRange(n, i, j);
      c[i * n + j] := x;
      writes[i * n + j] := writes[i * n + j] + 1;
      forall k: nat, l: nat | k < n && l < n && (k, l) != (i, j)
        ensures Value(k, l) == old(Value(k, l)) && Writes(k, l) == old(Writes(k, l))
      {
        InRange(n, k, l);
        if k * n + l == i * n + j {
          Injective(n, k, l, i, j);
        }
      }
    }

    /** `simdgroup_store(acc, C + row * n + col, n)`: the tile's elements, and no others. */
    method Store(acc: seq<real>, row: nat, col: nat)
      requires Sized() && |acc| == B * B && row + B <= n && col + B <= n
      modifies c, writes
      ensures forall i: nat, j: nat :: i < n && j < n ==>
                if row <= i < row + B && col <= j < col + B
                then Value(i, j) == At(acc, i - row, j - col) && Writes(i, j) == old(Writes(i, j)) + 1
                else Value(i, j) == old(Value(i, j)) && Writes(i, j) == old(Writes(i, j))
    {
      for q := 0 to B * B
        invariant forall i: nat, j: nat :: i < n && j < n ==>
                    if row <= i < row + B && col <= j < col + B && (i - row) * B + (j - col) < q
                    then Value(i, j) == At(acc, i - row, j - col) && Writes(i, j) == old(Writes(i, j)) + 1
                    else Value(i, j) == old(Value(i, j)) && Writes(i, j) == old(Writes(i, j))
      {
        Put(row + q / B, col + q % B, acc[q]);
      }
    }

    /** Element (i, j) once the tiles in `done` have stored: written once if its tile is among them. */
    ghost predicate ElementOk(a: seq<real>, b: seq<real>, done: set<Tile>, i: nat, j: nat)
      requires Sized() && |a| == n * n && |b| == n * n && i < n && j < n
      reads c, writes
    {
      if Owner(i, j) in done then Writes(i, j) == 1 && Value(i, j) == Dot(a, b, n, i, j, n) else Writes(i, j) == 0
    }

    method RunTile(a: seq<real>, b: seq<real>, t: Tile, ghost done: set<Tile>)
      requires Sized() && |a| == n * n && |b| == n * n && n % B == 0
      requires t.y < n / B && t.x < n / B && t !in done
      requires forall i: nat, j: nat :: i < n && j < n ==> ElementOk(a, b, done, i, j)
      modifies c, writes
      ensures forall i: nat, j: nat :: i < n && j < n ==> ElementOk(a, b, done + {t}, i, j)
    {
      var acc := Kernel(a, b, n, t.y, t.x);
      Store(acc, t.y * B, t.x * B);
      forall i: nat, j: nat | i < n && j < n ensures ElementOk(a, b, done + {t}, i, j) {
        assert old(ElementOk(a, b, done, i, j));
        if Owner(i, j) == t {
          assert At(acc, i - t.y * B, j - t.x * B) == Dot(a, b, n, t.y * B + (i - t.y * B), t.x * B + (j - t.x * B), n);
        }
      }
    }

    /** The whole dispatch, its threadgroups in any order. */
    method RunGrid(a: seq<real>, b: seq<real>, order: seq<Tile>)
      requires Sized() && |a| == n * n && |b| == n * n && n % B == 0 && IsGrid(order, n)
      requires forall i: nat, j: nat :: i < n && j < n ==> Writes(i, j) == 0
      modifies c, writes
      ensures IsProduct(c[..], a, b, n)
      ensures forall q :: 0 <= q < n * n ==> writes[q] == 1
    {
      ghost var done: set<Tile> := {};
      for k := 0 to |order|
        invariant forall t :: t in done <==> t in order[..k]
        invariant forall i: nat, j: nat :: i < n && j < n ==> ElementOk(a, b, done, i, j)
      {
        assert order[k] in order;
        RunTile(a, b, order[k], done);
        done := done + {order[k]};
      }
      assert order[..|order|] == order;
      forall i: nat, j: nat | i < n && j < n
        ensures Writes(i, j) == 1 && Cell(c[..], n, i, j) == Dot(a, b, n, i, j, n)
      {
        assert Owner(i, j) in order;
        assert ElementOk(a, b, done, i, j);
        InRange(n, i, j);
      }
      forall q | 0 <= q < n * n ensures writes[q] == 1 {
        var i, j := Position(n, q);
        assert Writes(i, j) == 1;
      }
    }
  }

  /** The backend's entry: sizes that are not positive multiples of 8 are refused. */
  method Gemm(a: seq<real>, b: seq<real>, n: nat, order: seq<Tile>) returns (accepted: bool, out: Output)
    requires |a| == n * n && |b| == n * n && IsGrid(order, n)
    ensures accepted <==> n >= 8 && n % 8 == 0
    ensures out.n == n && out.Sized() && fresh(out.c)
    ensures accepted ==> IsProduct(out.c[..], a, b, n) && forall q :: 0 <= q < n * n ==> out.writes[q] == 1
  {
    out := new Output(n);
    accepted := n >= 8 && n % 8 == 0;
    if accepted {
      out.RunGrid(a, b, order);
    }
  }

  /** The Metal kernel and the tiled WGSL kernel compute the same matrix from the same inputs. */
  lemma KernelsAgree(metal: Output, wgsl: WgslGemm.Dispatch)
    requires wgsl.Valid() && wgsl.Finished() && metal.n == wgsl.p.n && metal.Sized()
    requires IsProduct(metal.c[..], wgsl.p.a, wgsl.p.b, wgsl.p.n)
    ensures metal.c[..] == wgsl.c[..]
  {
    wgsl.FinishedIsProduct();
    ProductIsUnique(metal.c[..], wgsl.c[..], wgsl.p.a, wgsl.p.b, wgsl.p.n);
  }

  /** Every size an agent agrees to run is one the kernels take: a multiple of 8, with indices that fit 32 bits. */
  lemma AgreedSizesRun(image: string)
    requires Images.ParseTask(image).Some?
    ensures var n := Images.ParseTask(image).value;
            && n >= 8 && n % 8 == 0
            && forall i: nat, j: nat :: i < n && j < n ==> WgslGemm.Index(n, i, j) < 0x1_0000_0000
  {
    Images.AcceptedTasks(image);
    WgslGemm.IndicesFitU32(Images.ParseTask(image).value);
  }
}
