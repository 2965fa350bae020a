/**
 The tiled WGSL matmul, as a machine that runs every workgroup of a dispatch at once.

 A workgroup is 16 by 16 lanes sharing two tiles. Between barriers its lanes execute their own
 instructions in any interleaving, with each other and with every other workgroup; a barrier is
 passed by all lanes of a workgroup together. A `segment` is the stretch between two barriers:
 even ones load tile t, odd ones multiply it, and the last stores the result. The two kernel texts
 differ only in the precision of the inputs, which exact arithmetic does not see.
 */
module WgslGemm {
  import opened Matmul
  import opened Model
  import opened Tables

  const TILE := 16

  /** An element of `a` or `b` as a tile sees it: zero outside the matrix. */
  function Padded(a: seq<real>, n: nat, i: nat, j: nat): real
    requires |a| == n * n
  {
    if i < n && j < n then Cell(a, n, i, j) else 0.0
  }

  function PaddedDot(a: seq<real>, b: seq<real>, n: nat, row: nat, col: nat, k: nat): real
    requires |a| == n * n && |b| == n * n
  {
    if k == 0 then 0.0
    else PaddedDot(a, b, n, row, col, k - 1) + Padded(a, n, row, k - 1) * Padded(b, n, k - 1, col)
  }

  /** Zero padding does not change the product, whatever n is modulo the tile. */
  lemma {:induction false} PaddingIsHarmless(a: seq<real>, b: seq<real>, n: nat, row: nat, col: nat, k: nat)
    requires |a| == n * n && |b| == n * n && row < n && col < n
    ensures PaddedDot(a, b, n, row, col, k) == Dot(a, b, n, row, col, if k <= n then k else n)
  {
    if k > 0 {
      PaddingIsHarmless(a, b, n, row, col, k - 1);
      if k <= n {
        assert Padded(a, n, row, k - 1) == Cell(a, n, row, k - 1) && Padded(b, n, k - 1, col) == Cell(b, n, k - 1, col);
      } else {
        assert Padded(a, n, row, k - 1) == 0.0;
      }
    }
  }

  lemma {:induction false} OutsideIsZero(a: seq<real>, b: seq<real>, n: nat, row: nat, col: nat, k: nat)
    requires |a| == n * n && |b| == n * n && !(row < n && col < n)
    ensures PaddedDot(a, b, n, row, col, k) == 0.0
  {
    if k > 0 {
      OutsideIsZero(a, b, n, row, col, k - 1);
    }
  }

  datatype Problem = Problem(n: nat, a: seq<real>, b: seq<real>) {
    ghost predicate Valid() {
      n > 0 && |a| == n * n && |b| == n * n
    }

    /** Workgroups along each side of the dispatch, and tiles along k. */
    function Side(): nat {
      (n + TILE - 1) / TILE
    }

    /** Instructions a lane executes in segment `s`. */
    function Ops(s: nat): nat {
      if s == 2 * Side() then 1 else if s % 2 == 0 then 2 else TILE
    }
  }

  datatype Lane = Lane(pc: nat, acc: real)

  /** One workgroup: its shared tiles and its lanes, numbered `ly * TILE + lx` as the tiles are. */
  datatype Group = Group(segment: nat, tileA: seq<real>, tileB: seq<real>, lanes: seq<Lane>)

  const LANES := TILE * TILE

  /** 256 lanes to a workgroup, and as many workgroups a side as cover n elements sixteen at a time. */
  lemma GroupsCover(p: Problem)
    requires p.Valid()
    ensures LANES == 256
    ensures 16 * (p.Side() - 1) < p.n <= 16 * p.Side()
  {
  }

  /** What lane `l` of workgroup (gy, gx) has done so far in its segment. */
  ghost predicate LaneOk(p: Problem, gy: nat, gx: nat, g: Group, l: nat)
    requires p.Valid() && l < LANES && |g.tileA| == |g.tileB| == |g.lanes| == LANES
  {
    var row, col := gy * TILE + l / TILE, gx * TILE + l % TILE;
    var s, done, t := g.segment, g.lanes[l].pc, g.segment / 2;
    && done <= p.Ops(s)
    && (s < 2 * p.Side() && (s % 2 == 1 || done >= 1) ==>
          g.tileA[l] == Padded(p.a, p.n, row, t * TILE + l % TILE))
    && (s < 2 * p.Side() && (s % 2 == 1 || done >= 2) ==>
          g.tileB[l] == Padded(p.b, p.n, t * TILE + l / TILE, col))
    && g.lanes[l].acc == PaddedDot(p.a, p.b, p.n, row, col, t * TILE + if s % 2 == 1 then done else 0)
  }

  ghost predicate GroupOk(p: Problem, gy: nat, gx: nat, g: Group) {
    && p.Valid()
    && g.segment <= 2 * p.Side()
    && |g.tileA| == |g.tileB| == |g.lanes| == LANES
    && forall l: nat :: l < LANES ==> LaneOk(p, gy, gx, g, l)
  }

  /** Lane `l` executes one instruction; every other lane, and the barrier, stays where it is. */
  ghost predicate Moves(g: Group, h: Group, l: nat) {
    && h.segment == g.segment
    && |h.lanes| == |g.lanes|
    && l < |g.lanes|
    && h.lanes[l].pc == g.lanes[l].pc + 1
    && forall m :: 0 <= m < |g.lanes| && m != l ==> h.lanes[m] == g.lanes[m]
  }

  method LoadA(p: Problem, gy: nat, gx: nat, g: Group, l: nat) returns (h: Group)
    requires GroupOk(p, gy, gx, g) && l < LANES
    requires g.segment < 2 * p.Side() && g.segment % 2 == 0 && g.lanes[l].pc == 0
    ensures GroupOk(p, gy, gx, h) && Moves(g, h, l)
  {
    var row, aCol := gy * TILE + l / TILE, g.segment / 2 * TILE + l % TILE;
    var x := 0.0;
    if row < p.n && aCol < p.n {
      InRange(p.n, row, aCol);
      x := p.a[row * p.n + aCol];
    }
    LoadedA(p, gy, gx, g, l, x);
    h := g.(tileA := g.tileA[l := x], lanes := g.lanes[l := g.lanes[l].(pc := 1)]);
  }

  lemma LoadedA(p: Problem, gy: nat, gx: nat, g: Group, l: nat, x: real)
    requires GroupOk(p, gy, gx, g) && l < LANES
    requires g.segment < 2 * p.Side() && g.segment % 2 == 0 && g.lanes[l].pc == 0
    requires x == Padded(p.a, p.n, gy * TILE + l / TILE, g.segment / 2 * TILE + l % TILE)
    ensures GroupOk(p, gy, gx, g.(tileA := g.tileA[l := x], lanes := g.lanes[l := g.lanes[l].(pc := 1)]))
  {
    var h := g.(tileA := g.tileA[l := x], lanes := g.lanes[l := g.lanes[l].(pc := 1)]);
    assert LaneOk(p, gy, gx, g, l);
    forall m: nat | m < LANES ensures LaneOk(p, gy, gx, h, m) {
      assert LaneOk(p, gy, gx, g, m);
      assert m != l ==> h.lanes[m] == g.lanes[m] && h.tileA[m] == g.tileA[m];
    }
  }

  method LoadB(p: Problem, gy: nat, gx: nat, g: Group, l: nat) returns (h: Group)
    requires GroupOk(p, gy, gx, g) && l < LANES
    requires g.segment < 2 * p.Side() && g.segment % 2 == 0 && g.lanes[l].pc == 1
    ensures GroupOk(p, gy, gx, h) && Moves(g, h, l)
  {
    var bRow, col := g.segment / 2 * TILE + l / TILE, gx * TILE + l % TILE;
    var x := 0.0;
    if bRow < p.n && col < p.n {
      InRange(p.n, bRow, col);
      x := p.b[bRow * p.n + col];
    }
    LoadedB(p, gy, gx, g, l, x);
    h := g.(tileB := g.tileB[l := x], lanes := g.lanes[l := g.lanes[l].(pc := 2)]);
  }

  lemma LoadedB(p: Problem, gy: nat, gx: nat, g: Group, l: nat, x: real)
    requires GroupOk(p, gy, gx, g) && l < LANES
    requires g.segment < 2 * p.Side() && g.segment % 2 == 0 && g.lanes[l].pc == 1
    requires x == Padded(p.b, p.n, g.segment / 2 * TILE + l / TILE, gx * TILE + l % TILE)
    ensures GroupOk(p, gy, gx, g.(tileB := g.tileB[l := x], lanes := g.lanes[l := g.lanes[l].(pc := 2)]))
  {
    var h := g.(tileB := g.tileB[l := x], lanes := g.lanes[l := g.lanes[l].(pc := 2)]);
    assert LaneOk(p, gy, gx, g, l);
    forall m: nat | m < LANES ensures LaneOk(p, gy, gx, h, m) {
      assert LaneOk(p, gy, gx, g, m);
      assert m != l ==> h.lanes[m] == g.lanes[m] && h.tileB[m] == g.tileB[m];
    }
  }

  lemma TileIndex(y: nat, x: nat)
    requires y < TILE && x < TILE
    ensures y * TILE + x < LANES && (y * TILE + x) / TILE == y && (y * TILE + x) % TILE == x
  {
  }

  /** A loaded tile holds its part of the padded matrix, cell by cell. */
  lemma TileAHolds(p: Problem, gy: nat, gx: nat, g: Group, y: nat, x: nat)
    requires GroupOk(p, gy, gx, g) && y < TILE && x < TILE
    requires g.segment < 2 * p.Side() && g.segment % 2 == 1
    ensures y * TILE + x < LANES
    ensures g.tileA[y * TILE + x] == Padded(p.a, p.n, gy * TILE + y, g.segment / 2 * TILE + x)
  {
    TileIndex(y, x);
    assert LaneOk(p, gy, gx, g, y * TILE + x);
  }

  lemma TileBHolds(p: Problem, gy: nat, gx: nat, g: Group, y: nat, x: nat)
    requires GroupOk(p, gy, gx, g) && y < TILE && x < TILE
    requires g.segment < 2 * p.Side() && g.segment % 2 == 1
    ensures y * TILE + x < LANES
    ensures g.tileB[y * TILE + x] == Padded(p.b, p.n, g.segment / 2 * TILE + y, gx * TILE + x)
  {
    TileIndex(y, x);
    assert LaneOk(p, gy, gx, g, y * TILE + x);
  }

  /** The two tile cells a lane multiplies are the next term of its inner product. */
  lemma NextTerm(p: Problem, gy: nat, gx: nat, g: Group, l: nat)
    requires GroupOk(p, gy, gx, g) && l < LANES
    requires g.segment < 2 * p.Side() && g.segment % 2 == 1 && g.lanes[l].pc < TILE
    ensures var i, t := g.lanes[l].pc, g.segment / 2;
            && l / TILE * TILE + i < LANES && i * TILE + l % TILE < LANES
            && g.tileA[l / TILE * TILE + i] == Padded(p.a, p.n, gy * TILE + l / TILE, t * TILE + i)
            && g.tileB[i * TILE + l % TILE] == Padded(p.b, p.n, t * TILE + i, gx * TILE + l % TILE)
  {
    TileAHolds(p, gy, gx, g, l / TILE, g.lanes[l].pc);
    TileBHolds(p, gy, gx, g, g.lanes[l].pc, l % TILE);
  }

  method MultiplyAdd(p: Problem, gy: nat, gx: nat, g: Group, l: nat) returns (h: Group)
    requires GroupOk(p, gy, gx, g) && l < LANES
    requires g.segment < 2 * p.Side() && g.segment % 2 == 1 && g.lanes[l].pc < TILE
    ensures GroupOk(p, gy, gx, h) && Moves(g, h, l)
  {
    var i := g.lanes[l].pc;
    NextTerm(p, gy, gx, g, l);
    var x, y := g.tileA[l / TILE * TILE + i], g.tileB[i * TILE + l % TILE];
    assert LaneOk(p, gy, gx, g, l);
    NextSum(p, gy * TILE + l / TILE, gx * TILE + l % TILE, g.segment / 2 * TILE + i, g.lanes[l].acc, x, y);
    var acc := g.lanes[l].acc + x * y;
    LaneReplaced(p, gy, gx, g, l, Lane(i + 1, acc));
    h := g.(lanes := g.lanes[l := Lane(i + 1, acc)]);
  }

  lemma NextSum(p: Problem, row: nat, col: nat, k: nat, acc: real, x: real, y: real)
    requires p.Valid() && acc == PaddedDot(p.a, p.b, p.n, row, col, k)
    requires x == Padded(p.a, p.n, row, k) && y == Padded(p.b, p.n, k, col)
    ensures acc + x * y == PaddedDot(p.a, p.b, p.n, row, col, k + 1)
  {
  }

  /** Replacing one lane's registers by others that fit leaves the workgroup in order. */
  lemma LaneReplaced(p: Problem, gy: nat, gx: nat, g: Group, l: nat, lane: Lane)
    requires GroupOk(p, gy, gx, g) && l < LANES
    requires LaneOk(p, gy, gx, g.(lanes := g.lanes[l := lane]), l)
    ensures GroupOk(p, gy, gx, g.(lanes := g.lanes[l := lane]))
  {
    var h := g.(lanes := g.lanes[l := lane]);
    forall m: nat | m < LANES ensures LaneOk(p, gy, gx, h, m) {
      assert LaneOk(p, gy, gx, g, m);
    }
  }

  /** Every lane of the workgroup has reached the barrier; all of them pass it. */
  method PassBarrier(p: Problem, gy: nat, gx: nat, g: Group) returns (h: Group)
    requires GroupOk(p, gy, gx, g) && AtBarrier(p, g)
    ensures GroupOk(p, gy, gx, h) && h == Passed(g)
  {
    h := Passed(g);
    forall m: nat | m < LANES ensures LaneOk(p, gy, gx, h, m) {
      LanePasses(p, gy, gx, g, m);
    }
  }

  function Passed(g: Group): Group {
    g.(segment := g.segment + 1, lanes := seq(|g.lanes|, l requires 0 <= l < |g.lanes| => g.lanes[l].(pc := 0)))
  }

  lemma LanePasses(p: Problem, gy: nat, gx: nat, g: Group, m: nat)
    requires p.Valid() && |g.tileA| == |g.tileB| == |g.lanes| == LANES && m < LANES
    requires LaneOk(p, gy, gx, g, m) && g.segment < 2 * p.Side() && g.lanes[m].pc == p.Ops(g.segment)
    ensures LaneOk(p, gy, gx, Passed(g), m)
  {
    if g.segment % 2 == 0 {
      LaneLoaded(p, gy, gx, g, m);
    } else {
      LaneMultiplied(p, gy, gx, g, m);
    }
  }

  /** From a loaded tile to multiplying it. */
  lemma LaneLoaded(p: Problem, gy: nat, gx: nat, g: Group, m: nat)
    requires p.Valid() && |g.tileA| == |g.tileB| == |g.lanes| == LANES && m < LANES
    requires LaneOk(p, gy, gx, g, m) && g.segment < 2 * p.Side() && g.lanes[m].pc == 2 && g.segment % 2 == 0
    ensures LaneOk(p, gy, gx, Passed(g), m)
  {
    var t := g.segment / 2;
    assert Passed(g).segment == 2 * t + 1 && Passed(g).segment / 2 == t && Passed(g).segment % 2 == 1;
  }

  /** From a multiplied tile to the next one, or to the store. */
  lemma LaneMultiplied(p: Problem, gy: nat, gx: nat, g: Group, m: nat)
    requires p.Valid() && |g.tileA| == |g.tileB| == |g.lanes| == LANES && m < LANES
    requires LaneOk(p, gy, gx, g, m) && g.segment < 2 * p.Side() && g.lanes[m].pc == TILE && g.segment % 2 == 1
    ensures LaneOk(p, gy, gx, Passed(g), m)
  {
    var t := g.segment / 2;
    assert Passed(g).segment == 2 * (t + 1) && Passed(g).segment / 2 == t + 1 && Passed(g).segment % 2 == 0;
    assert t * TILE + TILE == (t + 1) * TILE;
  }

  predicate AtBarrier(p: Problem, g: Group) {
    g.segment < 2 * p.Side() && forall l :: 0 <= l < |g.lanes| ==> g.lanes[l].pc == p.Ops(g.segment)
  }

  /** A lane inside the matrix has accumulated its whole inner product. */
  ghost predicate FinalAcc(p: Problem, gy: nat, gx: nat, g: Group, l: nat)
    requires p.Valid() && l < |g.lanes|
  {
    var row, col := gy * TILE + l / TILE, gx * TILE + l % TILE;
    row < p.n && col < p.n ==> g.lanes[l].acc == Dot(p.a, p.b, p.n, row, col, p.n)
  }

  method FinishLane(p: Problem, gy: nat, gx: nat, g: Group, l: nat) returns (h: Group)
    requires GroupOk(p, gy, gx, g) && l < LANES
    requires g.segment == 2 * p.Side() && g.lanes[l].pc == 0
    ensures GroupOk(p, gy, gx, h) && Moves(g, h, l) && FinalAcc(p, gy, gx, g, l)
  {
    FinalSum(p, gy, gx, g, l);
    LaneStored(p, gy, gx, g, l);
    LaneReplaced(p, gy, gx, g, l, g.lanes[l].(pc := 1));
    h := g.(lanes := g.lanes[l := g.lanes[l].(pc := 1)]);
  }

  lemma LaneStored(p: Problem, gy: nat, gx: nat, g: Group, l: nat)
    requires GroupOk(p, gy, gx, g) && l < LANES && g.segment == 2 * p.Side() && g.lanes[l].pc == 0
    ensures LaneOk(p, gy, gx, g.(lanes := g.lanes[l := g.lanes[l].(pc := 1)]), l)
  {
    assert LaneOk(p, gy, gx, g, l);
  }

  lemma FinalSum(p: Problem, gy: nat, gx: nat, g: Group, l: nat)
    requires GroupOk(p, gy, gx, g) && l < LANES && g.segment == 2 * p.Side()
    ensures FinalAcc(p, gy, gx, g, l)
  {
    var row, col := gy * TILE + l / TILE, gx * TILE + l % TILE;
    assert LaneOk(p, gy, gx, g, l);
    if row < p.n && col < p.n {
      PaddingIsHarmless(p.a, p.b, p.n, row, col, p.Side() * TILE);
    }
  }

  /** The lane numbering covers the matrix: (gy, gx, l) owns exactly this element. */
  lemma Owner(gy: nat, gx: nat, l: nat, i: nat, j: nat)
    requires l < LANES
    ensures i / TILE == gy && j / TILE == gx && i % TILE * TILE + j % TILE == l <==>
              i == gy * TILE + l / TILE && j == gx * TILE + l % TILE
  {
  }

  ghost predicate GridOk(p: Problem, groups: seq<seq<Group>>) {
    && p.Valid()
    && |groups| == p.Side()
    && (forall gy: nat :: gy < p.Side() ==> |groups[gy]| == p.Side())
    && (forall gy: nat, gx: nat :: gy < p.Side() && gx < p.Side() ==> GroupOk(p, gy, gx, groups[gy][gx]))
  }

  /** The lane that owns element (row, col) has executed its store. */
  ghost predicate Stored(p: Problem, groups: seq<seq<Group>>, row: nat, col: nat)
    requires GridOk(p, groups) && row < p.n && col < p.n
  {
    var g := groups[row / TILE][col / TILE];
    g.segment == 2 * p.Side() && g.lanes[row % TILE * TILE + col % TILE].pc == 1
  }

  /** An element of `c` is written once, by its lane's store, with its final value. */
  ghost predicate CellOk(p: Problem, groups: seq<seq<Group>>, x: real, writes: nat, row: nat, col: nat)
    requires GridOk(p, groups) && row < p.n && col < p.n
  {
    if Stored(p, groups, row, col) then writes == 1 && x == Dot(p.a, p.b, p.n, row, col, p.n) else writes == 0
  }

  ghost predicate ElementOk(p: Problem, groups: seq<seq<Group>>, c: seq<real>, writes: seq<nat>, row: nat, col: nat)
    requires GridOk(p, groups) && |c| == |writes| == p.n * p.n && row < p.n && col < p.n
  {
    InRange(p.n, row, col);
    CellOk(p, groups, c[row * p.n + col], writes[row * p.n + col], row, col)
  }

  ghost predicate OutputOk(p: Problem, groups: seq<seq<Group>>, c: seq<real>, writes: seq<nat>) {
    && GridOk(p, groups)
    && |c| == |writes| == p.n * p.n
    && forall row: nat, col: nat :: row < p.n && col < p.n ==> ElementOk(p, groups, c, writes, row, col)
  }

  lemma StoreMarks(p: Problem, groups: seq<seq<Group>>, gy: nat, gx: nat, l: nat, h: Group, i: nat, j: nat)
    requires GridOk(p, groups) && gy < p.Side() && gx < p.Side() && l < LANES
    requires groups[gy][gx].segment == 2 * p.Side() && GroupOk(p, gy, gx, h) && Moves(groups[gy][gx], h, l)
    requires groups[gy][gx].lanes[l].pc == 0 && i < p.n && j < p.n
    ensures GridOk(p, groups[gy := groups[gy][gx := h]])
    ensures Stored(p, groups[gy := groups[gy][gx := h]], i, j) <==>
              Stored(p, groups, i, j) || (i == gy * TILE + l / TILE && j == gx * TILE + l % TILE)
    ensures i == gy * TILE + l / TILE && j == gx * TILE + l % TILE ==> !Stored(p, groups, i, j)
  {
    Owner(gy, gx, l, i, j);
  }

  /** Writing one element changes that one and no other. */
  lemma OneWrite<T>(n: nat, row: nat, col: nat, q: nat, s: seq<T>, x: T, i: nat, j: nat)
    requires row < n && col < n && i < n && j < n && |s| == n * n
    requires q == row * n + col && q < n * n
    ensures i * n + j < n * n
    ensures s[q := x][i * n + j] == if i == row && j == col then x else s[i * n + j]
  {
    InRange(n, i, j);
    if i * n + j == q {
      Injective(n, i, j, row, col);
    }
  }

  /** The owner's store of the right value, and its mark, keep every element in order. */
  lemma StoreKeeps(p: Problem, groups: seq<seq<Group>>, c: seq<real>, writes: seq<nat>, gy: nat, gx: nat, l: nat,
                   h: Group, x: real, row: nat, col: nat, q: nat)
    requires OutputOk(p, groups, c, writes) && gy < p.Side() && gx < p.Side() && l < LANES
    requires groups[gy][gx].segment == 2 * p.Side() && GroupOk(p, gy, gx, h) && Moves(groups[gy][gx], h, l)
    requires groups[gy][gx].lanes[l].pc == 0
    requires row == gy * TILE + l / TILE && col == gx * TILE + l % TILE && row < p.n && col < p.n
    requires q == row * p.n + col && q < p.n * p.n && x == Dot(p.a, p.b, p.n, row, col, p.n)
    ensures OutputOk(p, groups[gy := groups[gy][gx := h]], c[q := x], writes[q := writes[q] + 1])
  {
    var later := groups[gy := groups[gy][gx := h]];
    var cells, marks := c[q := x], writes[q := writes[q] + 1];
    StoreMarks(p, groups, gy, gx, l, h, row, col);
    assert ElementOk(p, groups, c, writes, row, col);
    forall i: nat, j: nat | i < p.n && j < p.n ensures ElementOk(p, later, cells, marks, i, j) {
      assert ElementOk(p, groups, c, writes, i, j);
      StoreMarks(p, groups, gy, gx, l, h, i, j);
      OneWrite(p.n, row, col, q, c, x, i, j);
      OneWrite(p.n, row, col, q, writes, writes[q] + 1, i, j);
    }
  }

  /** A lane outside the matrix stores nothing. */
  lemma NoStoreKeeps(p: Problem, groups: seq<seq<Group>>, c: seq<real>, writes: seq<nat>, gy: nat, gx: nat, l: nat, h: Group)
    requires OutputOk(p, groups, c, writes) && gy < p.Side() && gx < p.Side() && l < LANES
    requires groups[gy][gx].segment == 2 * p.Side() && GroupOk(p, gy, gx, h) && Moves(groups[gy][gx], h, l)
    requires groups[gy][gx].lanes[l].pc == 0
    requires !(gy * TILE + l / TILE < p.n && gx * TILE + l % TILE < p.n)
    ensures OutputOk(p, groups[gy := groups[gy][gx := h]], c, writes)
  {
    var later := groups[gy := groups[gy][gx := h]];
    StoreMarks(p, groups, gy, gx, l, h, 0, 0);
    forall i: nat, j: nat | i < p.n && j < p.n ensures ElementOk(p, later, c, writes, i, j) {
      assert ElementOk(p, groups, c, writes, i, j);
      StoreMarks(p, groups, gy, gx, l, h, i, j);
    }
  }

  /** A workgroup that has not reached its stores, before or after a step, leaves every element as it was. */
  lemma StepKeeps(p: Problem, groups: seq<seq<Group>>, c: seq<real>, writes: seq<nat>, gy: nat, gx: nat, h: Group)
    requires OutputOk(p, groups, c, writes) && gy < p.Side() && gx < p.Side()
    requires groups[gy][gx].segment < 2 * p.Side() && GroupOk(p, gy, gx, h)
    requires h.segment == 2 * p.Side() ==> forall l :: 0 <= l < LANES ==> h.lanes[l].pc == 0
    ensures OutputOk(p, groups[gy := groups[gy][gx := h]], c, writes)
  {
    var later := groups[gy := groups[gy][gx := h]];
    forall row: nat, col: nat | row < p.n && col < p.n ensures ElementOk(p, later, c, writes, row, col) {
      assert ElementOk(p, groups, c, writes, row, col);
    }
  }

  /** On all-ones inputs every accumulator is a whole number between 0 and n at every moment. */
  lemma OnesAccumulator(n: nat, gy: nat, gx: nat, g: Group, l: nat) returns (count: nat)
    requires GroupOk(Problem(n, Ones(n), Ones(n)), gy, gx, g) && l < LANES
    ensures count <= n && g.lanes[l].acc == count as real
  {
    var row, col := gy * TILE + l / TILE, gx * TILE + l % TILE;
    var k := g.segment / 2 * TILE + if g.segment % 2 == 1 then g.lanes[l].pc else 0;
    assert LaneOk(Problem(n, Ones(n), Ones(n)), gy, gx, g, l);
    if row < n && col < n {
      count := if k <= n then k else n;
      PaddingIsHarmless(Ones(n), Ones(n), n, row, col, k);
      OnesDot(n, row, col, count);
    } else {
      count := 0;
      OutsideIsZero(Ones(n), Ones(n), n, row, col, k);
    }
  }

  function Index(n: nat, i: nat, j: nat): nat {
    i * n + j
  }

  /** The row-major indices stay below 2^32, so `u32` arithmetic never wraps, exactly up to n = 65536. */
  lemma IndicesFitU32(n: nat)
    requires n > 0
    ensures (forall i: nat, j: nat :: i < n && j < n ==> Index(n, i, j) < 0x1_0000_0000) <==> n <= 0x1_0000
  {
    if n <= 0x1_0000 {
      Squares(n, 0x1_0000);
      forall i: nat, j: nat | i < n && j < n ensures Index(n, i, j) < 0x1_0000_0000 {
        InRange(n, i, j);
      }
    } else {
      Squares(0x1_0001, n);
      assert Index(n, n - 1, n - 1) == n * n - 1;
    }
  }

  lemma Squares(x: nat, y: nat)
    requires x <= y
    ensures x * x <= y * y
  {
    assert x * x <= x * y <= y * y;
  }

  // ---- how much is left to run ---------------------------------------------

  /** Instructions a lane has behind it when its workgroup enters segment `s`. */
  function Before(s: nat): nat {
    s / 2 * (TILE + 2) + s % 2 * 2
  }

  function LaneLeft(p: Problem, s: nat, lane: Lane): int {
    Before(2 * p.Side()) + 1 - Before(s) - lane.pc
  }

  function LanesLeft(p: Problem, g: Group): seq<int> {
    seq(|g.lanes|, l requires 0 <= l < |g.lanes| => LaneLeft(p, g.segment, g.lanes[l]))
  }

  /** Barriers and instructions a workgroup has still to execute. */
  function GroupLeft(p: Problem, g: Group): int {
    2 * p.Side() - g.segment + Total(LanesLeft(p, g))
  }

  function RowLeft(p: Problem, row: seq<Group>): seq<int> {
    seq(|row|, gx requires 0 <= gx < |row| => GroupLeft(p, row[gx]))
  }

  function GridLeft(p: Problem, groups: seq<seq<Group>>): seq<int> {
    seq(|groups|, gy requires 0 <= gy < |groups| => Total(RowLeft(p, groups[gy])))
  }

  predicate GroupDone(p: Problem, g: Group) {
    g.segment == 2 * p.Side() && forall l :: 0 <= l < |g.lanes| ==> g.lanes[l].pc == 1
  }

  lemma BeforeEnd(s: nat, side: nat)
    requires s < 2 * side
    ensures Before(s) + (if s % 2 == 0 then 2 else TILE) <= Before(2 * side)
  {
    assert s / 2 + 1 <= side && 2 * side / 2 == side && 2 * side % 2 == 0;
  }

  lemma LaneLeftBound(p: Problem, gy: nat, gx: nat, g: Group, l: nat)
    requires GroupOk(p, gy, gx, g) && l < LANES
    ensures LaneLeft(p, g.segment, g.lanes[l]) >= 0
    ensures g.segment == 2 * p.Side() ==> LaneLeft(p, g.segment, g.lanes[l]) == 1 - g.lanes[l].pc
  {
    WithinSegment(p, gy, gx, g, l);
    if g.segment < 2 * p.Side() {
      BeforeEnd(g.segment, p.Side());
    }
  }

  lemma WithinSegment(p: Problem, gy: nat, gx: nat, g: Group, l: nat)
    requires GroupOk(p, gy, gx, g) && l < LANES
    ensures g.lanes[l].pc <= p.Ops(g.segment)
  {
    assert LaneOk(p, gy, gx, g, l);
  }

  lemma GroupLeftZero(p: Problem, gy: nat, gx: nat, g: Group)
    requires GroupOk(p, gy, gx, g)
    ensures GroupLeft(p, g) >= 0
    ensures GroupLeft(p, g) == 0 <==> GroupDone(p, g)
  {
    var left := LanesLeft(p, g);
    forall l: nat | l < LANES
      ensures left[l] >= 0 && (g.segment == 2 * p.Side() ==> left[l] == 1 - g.lanes[l].pc)
    {
      LaneLeftBound(p, gy, gx, g, l);
    }
    TotalNonNegative(left);
  }

  lemma MovedLeft(p: Problem, g: Group, h: Group, l: nat)
    requires Moves(g, h, l)
    ensures GroupLeft(p, h) == GroupLeft(p, g) - 1
  {
    var left := LanesLeft(p, g);
    TotalUpdate(left, l, left[l] - 1);
    assert LanesLeft(p, h) == left[l := left[l] - 1];
  }

  lemma PassedLeft(p: Problem, g: Group)
    requires AtBarrier(p, g)
    ensures GroupLeft(p, Passed(g)) == GroupLeft(p, g) - 1
  {
    assert LanesLeft(p, Passed(g)) == LanesLeft(p, g);
  }

  lemma ReplacedLeft(p: Problem, groups: seq<seq<Group>>, gy: nat, gx: nat, h: Group)
    requires gy < |groups| && gx < |groups[gy]|
    ensures Total(GridLeft(p, groups[gy := groups[gy][gx := h]])) ==
              Total(GridLeft(p, groups)) - GroupLeft(p, groups[gy][gx]) + GroupLeft(p, h)
  {
    var row, left := RowLeft(p, groups[gy]), GridLeft(p, groups);
    TotalUpdate(row, gx, GroupLeft(p, h));
    assert RowLeft(p, groups[gy][gx := h]) == row[gx := GroupLeft(p, h)];
    var sum := Total(RowLeft(p, groups[gy][gx := h]));
    TotalUpdate(left, gy, sum);
    assert GridLeft(p, groups[gy := groups[gy][gx := h]]) == left[gy := sum];
  }

  ghost predicate GridDone(p: Problem, groups: seq<seq<Group>>) {
    forall gy: nat, gx: nat :: gy < |groups| && gx < |groups[gy]| ==> GroupDone(p, groups[gy][gx])
  }

  lemma RowLeftZero(p: Problem, groups: seq<seq<Group>>, gy: nat)
    requires GridOk(p, groups) && gy < p.Side()
    ensures Total(RowLeft(p, groups[gy])) >= 0
    ensures Total(RowLeft(p, groups[gy])) == 0 <==> forall gx: nat :: gx < p.Side() ==> GroupDone(p, groups[gy][gx])
  {
    var left := RowLeft(p, groups[gy]);
    forall gx: nat | gx < p.Side() ensures left[gx] >= 0 && (left[gx] == 0 <==> GroupDone(p, groups[gy][gx])) {
      GroupLeftZero(p, gy, gx, groups[gy][gx]);
    }
    TotalNonNegative(left);
  }

  /** Nothing is left to run exactly when every lane has executed its store. */
  lemma NothingLeft(p: Problem, groups: seq<seq<Group>>)
    requires GridOk(p, groups)
    ensures Total(GridLeft(p, groups)) >= 0
    ensures Total(GridLeft(p, groups)) == 0 <==> GridDone(p, groups)
  {
    var left := GridLeft(p, groups);
    forall gy: nat | gy < p.Side()
      ensures left[gy] >= 0
      ensures left[gy] == 0 <==> forall gx: nat :: gx < p.Side() ==> GroupDone(p, groups[gy][gx])
    {
      RowLeftZero(p, groups, gy);
    }
    TotalNonNegative(left);
  }

  datatype Event = Instruction(gy: nat, gx: nat, lane: nat) | Barrier(gy: nat, gx: nat)

  /** One event takes one step of one workgroup and touches no other. */
  ghost predicate Happens(before: seq<seq<Group>>, later: seq<seq<Group>>, e: Event) {
    && e.gy < |before| == |later|
    && e.gx < |before[e.gy]| == |later[e.gy]|
    && later == before[e.gy := before[e.gy][e.gx := later[e.gy][e.gx]]]
    && match e
       case Instruction(gy, gx, l) => Moves(before[gy][gx], later[gy][gx], l)
       case Barrier(gy, gx) => later[gy][gx] == Passed(before[gy][gx])
  }

  lemma OneLess(p: Problem, groups: seq<seq<Group>>, gy: nat, gx: nat, l: nat, h: Group)
    requires gy < |groups| && gx < |groups[gy]| && Moves(groups[gy][gx], h, l)
    ensures Total(GridLeft(p, groups[gy := groups[gy][gx := h]])) == Total(GridLeft(p, groups)) - 1
    ensures Happens(groups, groups[gy := groups[gy][gx := h]], Instruction(gy, gx, l))
  {
    MovedLeft(p, groups[gy][gx], h, l);
    ReplacedLeft(p, groups, gy, gx, h);
  }

  class Dispatch {
    const p: Problem
    var groups: seq<seq<Group>>
    const c: array<real>
    /** How often each element of `c` has been written. */
    const writes: array<nat>

    ghost predicate Valid()
      reads this, c, writes
    {
      OutputOk(p, groups, c[..], writes[..])
    }

    ghost predicate Finished()
      reads this
    {
      GridDone(p, groups)
    }

    /** Events until the dispatch has finished. */
    ghost function Left(): int
      reads this
    {
      Total(GridLeft(p, groups))
    }

    predicate Enabled(e: Event)
      reads this
    {
      && e.gy < |groups| && e.gx < |groups[e.gy]|
      && var g := groups[e.gy][e.gx];
         match e
         case Instruction(_, _, l) => l < |g.lanes| && g.lanes[l].pc < p.Ops(g.segment)
         case Barrier(_, _) => AtBarrier(p, g)
    }

    constructor (p: Problem)
      requires p.Valid()
      ensures Valid() && this.p == p && fresh(c) && fresh(writes)
    {
      this.p := p;
      var zeros := seq(LANES, _ => 0.0);
      var g := Group(0, zeros, zeros, seq(LANES, _ => Lane(0, 0.0)));
      groups := seq(p.Side(), _ => seq(p.Side(), _ => g));
      c := new real[p.n * p.n];
      writes := new nat[p.n * p.n](_ => 0);
      new;
      forall row: nat, col: nat | row < p.n && col < p.n ensures ElementOk(p, groups, c[..], writes[..], row, col) {
        InRange(p.n, row, col);
      }
    }

    /** One enabled event of any workgroup, chosen by the caller. */
    method Execute(e: Event)
      requires Valid() && Enabled(e)
      modifies this, c, writes
      ensures Valid() && Left() == old(Left()) - 1
      ensures Happens(old(groups), groups, e)
    {
      var gy, gx := e.gy, e.gx;
      var g := groups[gy][gx];
      var h;
      match e
      case Barrier(_, _) =>
        h := PassBarrier(p, gy, gx, g);
        PassedLeft(p, g);
        Replace(gy, gx, h);
      case Instruction(_, _, l) =>
        if g.segment == 2 * p.Side() {
          Store(gy, gx, l);
        } else {
          if g.segment % 2 == 1 {
            h := MultiplyAdd(p, gy, gx, g, l);
          } else if g.lanes[l].pc == 0 {
            h := LoadA(p, gy, gx, g, l);
          } else {
            h := LoadB(p, gy, gx, g, l);
          }
          MovedLeft(p, g, h, l);
          Replace(gy, gx, h);
        }
    }

    /** A step that stores nothing leaves every element of `c` as it was. */
    method Replace(gy: nat, gx: nat, h: Group)
      requires Valid() && gy < p.Side() && gx < p.Side()
      requires groups[gy][gx].segment < 2 * p.Side() && GroupOk(p, gy, gx, h)
      requires h.segment == 2 * p.Side() ==> forall l :: 0 <= l < LANES ==> h.lanes[l].pc == 0
      modifies this
      ensures Valid() && groups == old(groups)[gy := old(groups)[gy][gx := h]]
      ensures Left() == old(Left()) - GroupLeft(p, old(groups)[gy][gx]) + GroupLeft(p, h)
    {
      ReplacedLeft(p, groups, gy, gx, h);
      StepKeeps(p, groups, c[..], writes[..], gy, gx, h);
      groups := groups[gy := groups[gy][gx := h]];
    }

    method Put(q: nat, x: real)
      requires q < c.Length && q < writes.Length
      modifies c, writes
      ensures c[..] == old(c[..])[q := x] && writes[..] == old(writes[..])[q := old(writes[q]) + 1]
    {
      c[q] := x;
      writes[q] := writes[q] + 1;
    }

    method Store(gy: nat, gx: nat, l: nat)
      requires Valid() && gy < p.Side() && gx < p.Side() && l < LANES
      requires groups[gy][gx].segment == 2 * p.Side() && groups[gy][gx].lanes[l].pc == 0
      modifies this, c, writes
      ensures Valid() && Left() == old(Left()) - 1
      ensures Happens(old(groups), groups, Instruction(gy, gx, l))
    {
      var g := groups[gy][gx];
      var h := FinishLane(p, gy, gx, g, l);
      OneLess(p, groups, gy, gx, l, h);
      StoreElement(gy, gx, l, h);
      groups := groups[gy := groups[gy][gx := h]];
    }

    /** The bounds check and the store of a finished lane. */
    method StoreElement(gy: nat, gx: nat, l: nat, ghost h: Group)
      requires Valid() && gy < p.Side() && gx < p.Side() && l < LANES
      requires groups[gy][gx].segment == 2 * p.Side() && groups[gy][gx].lanes[l].pc == 0
      requires GroupOk(p, gy, gx, h) && Moves(groups[gy][gx], h, l)
      requires FinalAcc(p, gy, gx, groups[gy][gx], l)
      modifies c, writes
      ensures OutputOk(p, groups[gy := groups[gy][gx := h]], c[..], writes[..])
    {
      var row, col := gy * TILE + l / TILE, gx * TILE + l % TILE;
      if row < p.n && col < p.n {
        InRange(p.n, row, col);
        var q := row * p.n + col;
        StoreKeeps(p, groups, c[..], writes[..], gy, gx, l, h, groups[gy][gx].lanes[l].acc, row, col, q);
        Put(q, groups[gy][gx].lanes[l].acc);
      } else {
        NoStoreKeeps(p, groups, c[..], writes[..], gy, gx, l, h);
      }
    }

    /** However the lanes are scheduled, a dispatch that has finished holds the product, each element written once. */
    lemma FinishedIsProduct()
      requires Valid() && Finished()
      ensures IsProduct(c[..], p.a, p.b, p.n)
      ensures forall q :: 0 <= q < p.n * p.n ==> writes[q] == 1
    {
      forall row: nat, col: nat | row < p.n && col < p.n
        ensures Cell(c[..], p.n, row, col) == Dot(p.a, p.b, p.n, row, col, p.n)
      {
        InRange(p.n, row, col);
        assert ElementOk(p, groups, c[..], writes[..], row, col);
        assert Stored(p, groups, row, col);
      }
      forall q | 0 <= q < p.n * p.n ensures writes[q] == 1 {
        var row, col := Position(p.n, q);
        assert ElementOk(p, groups, c[..], writes[..], row, col);
        assert Stored(p, groups, row, col);
      }
    }

    /** On all-ones inputs every element of the result is exactly n, which is what the self-check reads back. */
    lemma OnesResult()
      requires Valid() && Finished() && p.a == Ones(p.n) && p.b == Ones(p.n)
      ensures forall q :: 0 <= q < p.n * p.n ==> c[q] == p.n as real
    {
      FinishedIsProduct();
      forall q | 0 <= q < p.n * p.n ensures c[q] == p.n as real {
        var row, col := Position(p.n, q);
        OnesDot(p.n, row, col, p.n);
        assert Cell(c[..], p.n, row, col) == Dot(p.a, p.b, p.n, row, col, p.n);
      }
    }

    /** Barriers never deadlock: until every lane has stored, some event is enabled. */
    method FindEnabled() returns (e: Option<Event>)
      requires Valid()
      ensures if Finished() then e.None? else e.Some? && Enabled(e.value)
    {
      for gy := 0 to |groups|
        invariant forall y: nat, x: nat :: y < gy && x < |groups[y]| ==> GroupDone(p, groups[y][x])
      {
        for gx := 0 to |groups[gy]|
          invariant forall x: nat :: x < gx ==> GroupDone(p, groups[gy][x])
        {
          var g := groups[gy][gx];
          assert GroupOk(p, gy, gx, g);
          for l := 0 to |g.lanes|
            invariant forall m: nat :: m < l ==> g.lanes[m].pc == p.Ops(g.segment)
          {
            assert LaneOk(p, gy, gx, g, l);
            if g.lanes[l].pc < p.Ops(g.segment) {
              return Some(Instruction(gy, gx, l));
            }
          }
          if g.segment < 2 * p.Side() {
            return Some(Barrier(gy, gx));
          }
        }
      }
      e := None;
    }

    /**
     Run the dispatch to its end, the scheduler's choices taken wherever they are possible. Every
     schedule finishes, after the same number of events, with the product in `c` and each element
     written once.
     */
    method Run(choice: nat -> Event) returns (events: nat)
      requires Valid()
      modifies this, c, writes
      ensures Valid() && Finished()
      ensures events == old(Left())
      ensures IsProduct(c[..], p.a, p.b, p.n)
      ensures forall q :: 0 <= q < p.n * p.n ==> writes[q] == 1
    {
      events := 0;
      var next := FindEnabled();
      while next.Some?
        invariant Valid()
        invariant if Finished() then next.None? else next.Some? && Enabled(next.value)
        invariant events + Left() == old(Left())
        decreases Left()
      {
        NothingLeft(p, groups);
        var e := choice(events);
        Execute(if Enabled(e) then e else next.value);
        NothingLeft(p, groups);
        events := events + 1;
        next := FindEnabled();
      }
      NothingLeft(p, groups);
      FinishedIsProduct();
    }
  }
}
