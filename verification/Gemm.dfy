/** The tiled matrix product against the reference triple loop, in exact arithmetic: row-major flat
    buffers, one sub-group per 64 x 16 tile of C, 16 of K at a time. */
module Gemm {
  import opened Arith

  const TM: nat := 8
  const TN: nat := 16
  const TK: nat := 16
  const REPEAT: nat := 8
  const TILE_M: nat := 64

  /** Row-major position (i, j) in a buffer with `ld` columns. */
  function At(i: nat, j: nat, ld: nat): nat { i * ld + j }

  lemma AtBound(i: nat, j: nat, rows: nat, ld: nat)
    requires i < rows && j < ld
    ensures At(i, j, ld) < rows * ld
  {
    MulLess(i, rows, ld);
  }

  lemma AtInjective(i: nat, j: nat, i2: nat, j2: nat, ld: nat)
    requires j < ld && j2 < ld && At(i, j, ld) == At(i2, j2, ld)
    ensures i == i2 && j == j2
  {
    if i < i2 { MulLess(i, i2, ld); } else if i2 < i { MulLess(i2, i, ld); }
  }

  datatype Problem = Problem(M: nat, N: nat, K: nat, a: seq<real>, b: seq<real>)

  predicate Valid(g: Problem) { |g.a| == g.M * g.K && |g.b| == g.K * g.N }

  /** The sizes the program accepts. */
  predicate Divides(g: Problem) { g.M % TILE_M == 0 && g.N % TN == 0 && g.K % TK == 0 }

  /** Row i of A against column j of B, over the first n of K. */
  function Dot(g: Problem, i: nat, j: nat, n: nat): real
    requires Valid(g) && i < g.M && j < g.N && n <= g.K
  {
    if n == 0 then 0.0 else
      AtBound(i, n - 1, g.M, g.K);
      AtBound(n - 1, j, g.K, g.N);
      Dot(g, i, j, n - 1) + g.a[At(i, n - 1, g.K)] * g.b[At(n - 1, j, g.N)]
  }

  /** Row i of A is zero but for column k. */
  ghost predicate OnlyOne(g: Problem, i: nat, k: nat) {
    k < g.K && forall m: nat | m < g.K && m != k :: At(i, m, g.K) < |g.a| && g.a[At(i, m, g.K)] == 0.0
  }

  /** A row of A with one nonzero element picks that element times its own row of B. */
  lemma {:induction false} DotUnit(g: Problem, i: nat, j: nat, n: nat, k: nat)
    requires Valid(g) && i < g.M && j < g.N && n <= g.K && OnlyOne(g, i, k)
    ensures i * g.K + k < |g.a| && k * g.N + j < |g.b|
    ensures Dot(g, i, j, n) == if k < n then g.a[i * g.K + k] * g.b[k * g.N + j] else 0.0
  {
    AtBound(i, k, g.M, g.K);
    AtBound(k, j, g.K, g.N);
    if n > 0 {
      DotUnit(g, i, j, n - 1, k);
      AtBound(n - 1, j, g.K, g.N);
    }
  }

  // ---- tiles -------------------------------------------------------------------------

  type Tile = seq<seq<real>>

  predicate Shape(t: Tile, rows: nat, cols: nat) { |t| == rows && forall r | 0 <= r < rows :: |t[r]| == cols }

  lemma RowFits(off: nat, stride: nat, rows: nat, cols: nat, r: nat, len: nat)
    requires r < rows && off + (rows - 1) * stride + cols <= len
    ensures off + r * stride + cols <= len
  {
    if r < rows - 1 { MulLess(r, rows - 1, stride); }
  }

  function LoadRow(m: seq<real>, off: nat, stride: nat, rows: nat, cols: nat, r: nat): (t: seq<real>)
    requires r < rows && off + (rows - 1) * stride + cols <= |m|
    ensures |t| == cols && off + r * stride + cols <= |m|
    ensures forall c | 0 <= c < cols :: t[c] == m[off + r * stride + c]
  {
    RowFits(off, stride, rows, cols, r, |m|);
    var at := off + r * stride;
    m[at..at + cols]
  }

  /** A rows x cols tile at offset `off`, `stride` apart. */
  function Load(m: seq<real>, off: nat, stride: nat, rows: nat, cols: nat): (t: Tile)
    requires rows > 0 && off + (rows - 1) * stride + cols <= |m|
    ensures Shape(t, rows, cols) && forall r | 0 <= r < rows :: t[r] == LoadRow(m, off, stride, rows, cols, r)
  {
    seq(rows, r requires 0 <= r < rows => LoadRow(m, off, stride, rows, cols, r))
  }

  /** Row r of a against column c of b, over the first n. */
  function TileDot(a: Tile, b: Tile, r: nat, c: nat, n: nat): real
    requires Shape(a, TM, TK) && Shape(b, TK, TN) && r < TM && c < TN && n <= TK
  {
    if n == 0 then 0.0 else TileDot(a, b, r, c, n - 1) + a[r][n - 1] * b[n - 1][c]
  }

  /** The matrix unit's multiply-add. */
  function Mad(a: Tile, b: Tile, acc: Tile): (t: Tile)
    requires Shape(a, TM, TK) && Shape(b, TK, TN) && Shape(acc, TM, TN)
    ensures Shape(t, TM, TN)
    ensures forall r, c | 0 <= r < TM && 0 <= c < TN :: t[r][c] == acc[r][c] + TileDot(a, b, r, c, TK)
  {
    seq(TM, r requires 0 <= r < TM => seq(TN, c requires 0 <= c < TN => acc[r][c] + TileDot(a, b, r, c, TK)))
  }

  /** The tile at (row, col) holds the dots over the first n of K. */
  ghost predicate Holds(g: Problem, t: Tile, row: nat, col: nat, n: nat)
    requires Valid(g) && row + TM <= g.M && col + TN <= g.N && n <= g.K
  {
    Shape(t, TM, TN) && forall r, c | 0 <= r < TM && 0 <= c < TN :: t[r][c] == Dot(g, row + r, col + c, n)
  }

  lemma ABounds(g: Problem, row: nat, k: nat)
    requires Valid(g) && row + TM <= g.M && k + TK <= g.K
    ensures row * g.K + k + (TM - 1) * g.K + TK <= |g.a|
  {
    MulLess(row + TM - 1, g.M, g.K);
    assert (row + TM - 1) * g.K == row * g.K + (TM - 1) * g.K;
  }

  lemma BBounds(g: Problem, k: nat, col: nat)
    requires Valid(g) && k + TK <= g.K && col + TN <= g.N
    ensures k * g.N + col + (TK - 1) * g.N + TN <= |g.b|
  {
    MulLess(k + TK - 1, g.K, g.N);
    assert (k + TK - 1) * g.N == k * g.N + (TK - 1) * g.N;
  }

  /** The A tile at (row, k), and the B tile at (k, col): every element read is in bounds. */
  function LoadA(g: Problem, row: nat, k: nat): (t: Tile)
    requires Valid(g) && row + TM <= g.M && k + TK <= g.K
    ensures Shape(t, TM, TK)
  {
    ABounds(g, row, k);
    Load(g.a, row * g.K + k, g.K, TM, TK)
  }

  function LoadB(g: Problem, k: nat, col: nat): (t: Tile)
    requires Valid(g) && k + TK <= g.K && col + TN <= g.N
    ensures Shape(t, TK, TN)
  {
    BBounds(g, k, col);
    Load(g.b, k * g.N + col, g.N, TK, TN)
  }

  lemma LoadedA(g: Problem, row: nat, k: nat, r: nat, m: nat)
    requires Valid(g) && row + TM <= g.M && k + TK <= g.K && r < TM && m < TK
    ensures At(row + r, k + m, g.K) < |g.a| && LoadA(g, row, k)[r][m] == g.a[At(row + r, k + m, g.K)]
  {
    ABounds(g, row, k);
    AtBound(row + r, k + m, g.M, g.K);
    StoreIndex(row, k, r, m, g.K);
  }

  lemma LoadedB(g: Problem, k: nat, col: nat, m: nat, c: nat)
    requires Valid(g) && k + TK <= g.K && col + TN <= g.N && m < TK && c < TN
    ensures At(k + m, col + c, g.N) < |g.b| && LoadB(g, k, col)[m][c] == g.b[At(k + m, col + c, g.N)]
  {
    BBounds(g, k, col);
    AtBound(k + m, col + c, g.K, g.N);
    StoreIndex(k, col, m, c, g.N);
  }

  lemma StoreIndex(row: nat, col: nat, r: nat, c: nat, ld: nat)
    ensures (row * ld + col) + r * ld + c == At(row + r, col + c, ld)
  {
    assert (row + r) * ld == row * ld + r * ld;
  }

  lemma DotStep(g: Problem, i: nat, j: nat, n: nat)
    requires Valid(g) && i < g.M && j < g.N && n < g.K
    ensures At(i, n, g.K) < |g.a| && At(n, j, g.N) < |g.b|
    ensures Dot(g, i, j, n + 1) == Dot(g, i, j, n) + g.a[At(i, n, g.K)] * g.b[At(n, j, g.N)]
  {
    hide At;
    AtBound(i, n, g.M, g.K);
    AtBound(n, j, g.K, g.N);
  }

  lemma {:induction false} DotExtends(g: Problem, row: nat, col: nat, k: nat, r: nat, c: nat, n: nat)
    requires Valid(g) && row + TM <= g.M && col + TN <= g.N && k + TK <= g.K && r < TM && c < TN && n <= TK
    ensures Dot(g, row + r, col + c, k + n)
      == Dot(g, row + r, col + c, k) + TileDot(LoadA(g, row, k), LoadB(g, k, col), r, c, n)
  {
    hide At, LoadA, LoadB, Dot;
    if n > 0 {
      DotExtends(g, row, col, k, r, c, n - 1);
      LoadedA(g, row, k, r, n - 1);
      LoadedB(g, k, col, n - 1, c);
      DotStep(g, row + r, col + c, k + n - 1);
    }
  }

  /** One multiply-add advances a tile by TK of K. */
  lemma MadHolds(g: Problem, t: Tile, row: nat, col: nat, k: nat)
    requires Valid(g) && row + TM <= g.M && col + TN <= g.N && k + TK <= g.K && Holds(g, t, row, col, k)
    ensures Holds(g, Mad(LoadA(g, row, k), LoadB(g, k, col), t), row, col, k + TK)
  {
    hide Dot, LoadA, LoadB, TileDot;
    var r1 := Mad(LoadA(g, row, k), LoadB(g, k, col), t);
    forall r, c | 0 <= r < TM && 0 <= c < TN
      ensures r1[r][c] == Dot(g, row + r, col + c, k + TK)
    {
      DotExtends(g, row, col, k, r, c, TK);
    }
  }

  // ---- the kernel -----------------------------------------------------------------------

  /** One sub-group's accumulators over the whole of K. */
  method Accumulate(g: Problem, row0: nat, col0: nat) returns (acc: seq<Tile>)
    requires Valid(g) && row0 + TILE_M <= g.M && col0 + TN <= g.N && g.K % TK == 0
    ensures |acc| == REPEAT && forall i | 0 <= i < REPEAT :: Holds(g, acc[i], row0 + i * TM, col0, g.K)
  {
    hide Holds, Mad, LoadA, LoadB;
    var zero: Tile := seq(TM, _ => seq(TN, _ => 0.0));
    acc := seq(REPEAT, _ => zero);
    forall i | 0 <= i < REPEAT ensures Holds(g, acc[i], row0 + i * TM, col0, 0) { ZeroHolds(g, row0 + i * TM, col0); }
    var k := 0;
    while k < g.K
      invariant k <= g.K && k % TK == 0 && |acc| == REPEAT
      invariant forall i | 0 <= i < REPEAT :: Holds(g, acc[i], row0 + i * TM, col0, k)
    {
      assert k + TK <= g.K;
      var bTile := LoadB(g, k, col0);
      for i := 0 to REPEAT
        invariant |acc| == REPEAT
        invariant forall j | 0 <= j < i :: Holds(g, acc[j], row0 + j * TM, col0, k + TK)
        invariant forall j | i <= j < REPEAT :: Holds(g, acc[j], row0 + j * TM, col0, k)
      {
        HoldsShape(g, acc[i], row0 + i * TM, col0, k);
        MadHolds(g, acc[i], row0 + i * TM, col0, k);
        var aTile := LoadA(g, row0 + i * TM, k);
        acc := acc[i := Mad(aTile, bTile, acc[i])];
      }
      k := k + TK;
    }
  }

  lemma ZeroHolds(g: Problem, row: nat, col: nat)
    requires Valid(g) && row + TM <= g.M && col + TN <= g.N
    ensures Holds(g, seq(TM, _ => seq(TN, _ => 0.0)), row, col, 0)
  {
  }

  /** What is stored at (i, j) once rows below r, and columns below c of row r, of a tile at (row, col) are written. */
  function Stored(was: seq<real>, t: Tile, row: nat, col: nat, r: nat, c: nat, i: nat, j: nat, ld: nat): real
    requires Shape(t, TM, TN) && At(i, j, ld) < |was|
  {
    if row <= i < row + TM && col <= j < col + TN && (i < row + r || (i == row + r && j < col + c)) then
      t[i - row][j - col]
    else was[At(i, j, ld)]
  }

  ghost predicate StoredTo(g: Problem, now: seq<real>, was: seq<real>, t: Tile, row: nat, col: nat, r: nat, c: nat)
    requires Shape(t, TM, TN)
  {
    |now| == |was| == g.M * g.N &&
    forall i: nat, j: nat | i < g.M && j < g.N ::
      At(i, j, g.N) < |was| && now[At(i, j, g.N)] == Stored(was, t, row, col, r, c, i, j, g.N)
  }

  lemma StoreOne(g: Problem, now: seq<real>, was: seq<real>, t: Tile, row: nat, col: nat, r: nat, c: nat)
    requires Shape(t, TM, TN) && row + TM <= g.M && col + TN <= g.N && r < TM && c < TN
        && StoredTo(g, now, was, t, row, col, r, c)
    ensures At(row + r, col + c, g.N) < |now|
    ensures StoredTo(g, now[At(row + r, col + c, g.N) := t[r][c]], was, t, row, col, r, c + 1)
  {
    var p := At(row + r, col + c, g.N);
    AtBound(row + r, col + c, g.M, g.N);
    var next := now[p := t[r][c]];
    forall i: nat, j: nat | i < g.M && j < g.N
      ensures At(i, j, g.N) < |was| && next[At(i, j, g.N)] == Stored(was, t, row, col, r, c + 1, i, j, g.N)
    {
      if At(i, j, g.N) == p { AtInjective(i, j, row + r, col + c, g.N); }
    }
  }

  lemma StoreRow(g: Problem, now: seq<real>, was: seq<real>, t: Tile, row: nat, col: nat, r: nat)
    requires Shape(t, TM, TN) && StoredTo(g, now, was, t, row, col, r, TN)
    ensures StoredTo(g, now, was, t, row, col, r + 1, 0)
  {
    hide At;
  }

  lemma StoreNone(g: Problem, now: seq<real>, t: Tile, row: nat, col: nat)
    requires Shape(t, TM, TN) && |now| == g.M * g.N
    ensures StoredTo(g, now, now, t, row, col, 0, 0)
  {
    forall i: nat, j: nat | i < g.M && j < g.N ensures At(i, j, g.N) < |now| { AtBound(i, j, g.M, g.N); }
    hide At;
  }

  /** Store a tile at (row, col): its own positions, and no other. */
  method StoreTile(g: Problem, out: array<real>, t: Tile, row: nat, col: nat)
    requires Shape(t, TM, TN) && row + TM <= g.M && col + TN <= g.N && out.Length == g.M * g.N
    modifies out
    ensures StoredTo(g, out[..], old(out[..]), t, row, col, TM, 0)
  {
    hide StoredTo, At;
    ghost var was := out[..];
    StoreNone(g, was, t, row, col);
    for r := 0 to TM
      invariant StoredTo(g, out[..], was, t, row, col, r, 0)
    {
      for c := 0 to TN
        invariant StoredTo(g, out[..], was, t, row, col, r, c)
      {
        StoreOne(g, out[..], was, t, row, col, r, c);
        ghost var now := out[..];
        assert (row * g.N + col) + r * g.N + c == At(row + r, col + c, g.N) by { StoreIndex(row, col, r, c, g.N); }
        out[(row * g.N + col) + r * g.N + c] := t[r][c];
        assert out[..] == now[At(row + r, col + c, g.N) := t[r][c]];
      }
      StoreRow(g, out[..], was, t, row, col, r);
    }
  }

  // ---- all the tiles ----------------------------------------------------------------------

  /** (i, j) lies in a tile already finished: a row of tiles above gm, or left of gn in row gm, or above row r in tile
      (gm, gn). */
  predicate Done(gm: nat, gn: nat, r: nat, i: nat, j: nat) {
    i < gm * TILE_M || (i < gm * TILE_M + TILE_M && (j < gn * TN || (j < gn * TN + TN && i < gm * TILE_M + r * TM)))
  }

  ghost predicate Computed(g: Problem, now: seq<real>, gm: nat, gn: nat, r: nat)
    requires Valid(g)
  {
    |now| == g.M * g.N &&
    forall i: nat, j: nat | i < g.M && j < g.N && Done(gm, gn, r, i, j) :: At(i, j, g.N) < |now|
        && now[At(i, j, g.N)] == Dot(g, i, j, g.K)
  }

  lemma TileComputed(g: Problem, now: seq<real>, was: seq<real>, t: Tile, gm: nat, gn: nat, r: nat)
    requires Valid(g) && r < REPEAT && gm * TILE_M + TILE_M <= g.M && gn * TN + TN <= g.N
    requires Computed(g, was, gm, gn, r) && Holds(g, t, gm * TILE_M + r * TM, gn * TN, g.K)
    requires StoredTo(g, now, was, t, gm * TILE_M + r * TM, gn * TN, TM, 0)
    ensures Computed(g, now, gm, gn, r + 1)
  {
    hide Dot, At;
    var row, col := gm * TILE_M + r * TM, gn * TN;
    forall i: nat, j: nat | i < g.M && j < g.N && Done(gm, gn, r + 1, i, j)
      ensures At(i, j, g.N) < |now| && now[At(i, j, g.N)] == Dot(g, i, j, g.K)
    {
      if row <= i < row + TM && col <= j < col + TN {
        assert t[i - row][j - col] == Dot(g, row + (i - row), col + (j - col), g.K);
      } else {
        assert Done(gm, gn, r, i, j);
      }
    }
  }

  /** Work-group (gm, gn). */
  method Group(g: Problem, out: array<real>, gm: nat, gn: nat)
    requires Valid(g) && g.K % TK == 0 && out.Length == g.M * g.N
    requires gm * TILE_M + TILE_M <= g.M && gn * TN + TN <= g.N && Computed(g, out[..], gm, gn, 0)
    modifies out
    ensures Computed(g, out[..], gm, gn, REPEAT)
  {
    hide Computed, Holds, StoredTo;
    var row0, col0 := gm * TILE_M, gn * TN;
    var acc := Accumulate(g, row0, col0);
    for i := 0 to REPEAT
      invariant Computed(g, out[..], gm, gn, i)
    {
      ghost var was := out[..];
      assert Shape(acc[i], TM, TN) by { HoldsShape(g, acc[i], row0 + i * TM, col0, g.K); }
      StoreTile(g, out, acc[i], row0 + i * TM, col0);
      TileComputed(g, out[..], was, acc[i], gm, gn, i);
    }
  }

  lemma HoldsShape(g: Problem, t: Tile, row: nat, col: nat, n: nat)
    requires Valid(g) && row + TM <= g.M && col + TN <= g.N && n <= g.K && Holds(g, t, row, col, n)
    ensures Shape(t, TM, TN)
  {
  }

  lemma NextColumn(g: Problem, now: seq<real>, gm: nat, gn: nat)
    requires Valid(g) && Computed(g, now, gm, gn, REPEAT)
    ensures Computed(g, now, gm, gn + 1, 0)
  {
    hide Dot, At;
  }

  lemma NextRow(g: Problem, now: seq<real>, gm: nat, groups: nat)
    requires Valid(g) && groups * TN == g.N && Computed(g, now, gm, groups, 0)
    ensures Computed(g, now, gm + 1, 0, 0)
  {
    hide Dot, At;
    forall i: nat, j: nat | i < g.M && j < g.N && Done(gm + 1, 0, 0, i, j)
      ensures Done(gm, groups, 0, i, j)
    {
    }
  }

  /** Every element of C is the dot the reference computes. */
  ghost predicate Product(g: Problem, now: seq<real>)
    requires Valid(g)
  {
    forall i: nat, j: nat | i < g.M && j < g.N :: At(i, j, g.N) < |now| && now[At(i, j, g.N)] == Dot(g, i, j, g.K)
  }

  lemma AllComputed(g: Problem, now: seq<real>, rows: nat)
    requires Valid(g) && rows * TILE_M == g.M && Computed(g, now, rows, 0, 0)
    ensures Product(g, now)
  {
    hide Dot, At;
    forall i: nat, j: nat | i < g.M && j < g.N ensures Done(rows, 0, 0, i, j) { }
  }

  lemma NoneComputed(g: Problem, now: seq<real>)
    requires Valid(g) && |now| == g.M * g.N
    ensures Computed(g, now, 0, 0, 0)
  {
  }

  /** For all accepted sizes the tiled kernel computes the product. */
  method Tiled(g: Problem, out: array<real>)
    requires Valid(g) && Divides(g) && out.Length == g.M * g.N
    modifies out
    ensures Product(g, out[..])
  {
    hide Computed, Product, Valid;
    var rows, cols := (g.M + TILE_M - 1) / TILE_M, (g.N + TN - 1) / TN;
    assert rows * TILE_M == g.M && cols * TN == g.N;
    NoneComputed(g, out[..]);
    for gm := 0 to rows
      invariant Computed(g, out[..], gm, 0, 0)
    {
      for gn := 0 to cols
        invariant Computed(g, out[..], gm, gn, 0)
      {
        Group(g, out, gm, gn);
        NextColumn(g, out[..], gm, gn);
      }
      NextRow(g, out[..], gm, cols);
    }
    AllComputed(g, out[..], rows);
  }

  /** The work-groups' tiles cover C, and no element lies in two of them. */
  lemma OneTile(g: Problem, i: nat, j: nat)
    requires Divides(g) && i < g.M && j < g.N
    ensures i / TILE_M < g.M / TILE_M && j / TN < g.N / TN
    ensures forall gm: nat, gn: nat ::
      (gm * TILE_M <= i < gm * TILE_M + TILE_M && gn * TN <= j < gn * TN + TN) <==> (gm == i / TILE_M && gn == j / TN)
  {
  }

  /** The host reference over the top-left rows x cols block. */
  method RefBlock(g: Problem, out: array<real>, rows: nat, cols: nat)
    requires Valid(g) && rows <= g.M && cols <= g.N && out.Length == rows * cols
    modifies out
    ensures forall i: nat, j: nat | i < rows && j < cols ::
        At(i, j, cols) < out.Length && out[At(i, j, cols)] == Dot(g, i, j, g.K)
  {
    hide Dot, At;
    for i := 0 to rows
      invariant RefDone(g, out[..], rows, cols, i, 0)
    {
      for j := 0 to cols
        invariant RefDone(g, out[..], rows, cols, i, j)
      {
        var acc := DotLoop(g, i, j);
        RefNext(g, out[..], rows, cols, i, j);
        ghost var was := out[..];
        assert i * cols + j == At(i, j, cols) by { AtIs(i, j, cols); }
        out[i * cols + j] := acc;
        assert out[..] == was[At(i, j, cols) := acc];
      }
    }
  }

  lemma AtIs(i: nat, j: nat, ld: nat)
    ensures At(i, j, ld) == i * ld + j
  {
  }

  ghost predicate RefDone(g: Problem, now: seq<real>, rows: nat, cols: nat, i: nat, j: nat)
    requires Valid(g) && rows <= g.M && cols <= g.N
  {
    |now| == rows * cols &&
    forall r: nat, c: nat | r < rows && c < cols && (r < i || (r == i && c < j)) :: At(r, c, cols) < |now|
        && now[At(r, c, cols)] == Dot(g, r, c, g.K)
  }

  lemma RefNext(g: Problem, now: seq<real>, rows: nat, cols: nat, i: nat, j: nat)
    requires Valid(g) && i < rows <= g.M && j < cols <= g.N && RefDone(g, now, rows, cols, i, j)
    ensures At(i, j, cols) < |now| && RefDone(g, now[At(i, j, cols) := Dot(g, i, j, g.K)], rows, cols, i, j + 1)
  {
    hide Dot;
    AtBound(i, j, rows, cols);
    forall r: nat, c: nat | r < rows && c < cols && At(r, c, cols) == At(i, j, cols)
      ensures r == i && c == j
    {
      AtInjective(r, c, i, j, cols);
    }
  }

  method DotLoop(g: Problem, i: nat, j: nat) returns (acc: real)
    requires Valid(g) && i < g.M && j < g.N
    ensures acc == Dot(g, i, j, g.K)
  {
    acc := 0.0;
    for k := 0 to g.K
      invariant acc == Dot(g, i, j, k)
    {
      AtBound(i, k, g.M, g.K);
      AtBound(k, j, g.K, g.N);
      acc := acc + g.a[At(i, k, g.K)] * g.b[At(k, j, g.N)];
    }
  }
}
