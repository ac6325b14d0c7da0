/** The split-K matrix-vector product: work-groups of NPW columns by SK segments of 16 lanes, strided
    over the blocks of K, with a barrier before the segments are summed. Exact arithmetic. */
module Gemv {
  import opened Arith
  import opened Bytes

  const LANES: nat := 16

  /** A byte as int8. */
  function S8(b: Byte): (v: int)
    ensures -128 <= v < 128 && (v - b) % 256 == 0
  {
    if b < 128 then b else b - 256
  }

  /** The byte an int8 is stored as, in two's complement, reads back as that int8, and every byte is that of one. */
  lemma Int8RoundTrip(v: int, b: Byte)
    requires -128 <= v < 128
    ensures 0 <= v % 256 < 256 && S8(v % 256) == v
    ensures S8(b) % 256 == b
  {
  }

  /** Four bytes as one 32-bit word, and its byte k. */
  function Word(b0: Byte, b1: Byte, b2: Byte, b3: Byte): nat { b0 + b1 * 256 + b2 * 65536 + b3 * 16777216 }

  function ByteOf(w: nat, k: nat): Byte
    requires k < 4 && w < 0x100000000
  {
    match k case 0 => w % 256 case 1 => w / 256 % 256 case 2 => w / 65536 % 256 case _ => w / 16777216
  }

  lemma WordBytes(b0: Byte, b1: Byte, b2: Byte, b3: Byte)
    ensures var w := Word(b0, b1, b2, b3);
      w < 0x100000000 && ByteOf(w, 0) == b0 && ByteOf(w, 1) == b1 && ByteOf(w, 2) == b2 && ByteOf(w, 3) == b3
  {
    var w := Word(b0, b1, b2, b3);
    assert w % 256 == b0 && w / 256 == b1 + b2 * 256 + b3 * 65536;
    assert w / 65536 == b2 + b3 * 256;
    assert w / 16777216 == b3;
  }

  function Dp4a(pa: nat, pb: nat, c: int): int
    requires pa < 0x100000000 && pb < 0x100000000
  {
    S8(ByteOf(pa, 0)) * S8(ByteOf(pb, 0)) + S8(ByteOf(pa, 1)) * S8(ByteOf(pb, 1))
    + S8(ByteOf(pa, 2)) * S8(ByteOf(pb, 2)) + S8(ByteOf(pa, 3)) * S8(ByteOf(pb, 3)) + c
  }

  /** K, N, the tile shape, the quantised weights with a scale per block of 32, and the activations likewise. */
  datatype Problem = Problem(
    K: nat, N: nat, npw: nat, sk: nat,
    w: seq<Byte>, dw: seq<real>,
    x: seq<Byte>, dx: seq<real>)

  predicate Valid(g: Problem) {
    && g.K % 32 == 0 && g.npw > 0 && g.sk > 0
    && |g.w| == g.N * g.K && |g.dw| == g.N * (g.K / 32) && |g.x| == g.K && |g.dx| == g.K / 32
  }

  function Blocks(g: Problem): nat { g.K / 32 }

  lemma InBounds(g: Problem, n: nat, b: nat)
    requires Valid(g) && n < g.N && b < Blocks(g)
    ensures n * g.K + b * 32 + 32 <= |g.w| && b * 32 + 32 <= |g.x| && n * Blocks(g) + b < |g.dw| && b < |g.dx|
  {
    MulLess(n, g.N, g.K);
    MulLess(n, g.N, Blocks(g));
  }

  // ---- the plain product -------------------------------------------------------------------

  /** The first m products of a block. */
  function IDot(g: Problem, n: nat, b: nat, m: nat): int
    requires Valid(g) && n < g.N && b < Blocks(g) && m <= 32
  {
    if m == 0 then 0 else
      InBounds(g, n, b);
      IDot(g, n, b, m - 1) + S8(g.w[n * g.K + b * 32 + m - 1]) * S8(g.x[b * 32 + m - 1])
  }

  function Term(g: Problem, n: nat, b: nat): real
    requires Valid(g) && n < g.N && b < Blocks(g)
  {
    InBounds(g, n, b);
    g.dw[n * Blocks(g) + b] * g.dx[b] * IDot(g, n, b, 32) as real
  }

  /** The single sum over the first m blocks. */
  function Plain(g: Problem, n: nat, m: nat): real
    requires Valid(g) && n < g.N && m <= Blocks(g)
  {
    if m == 0 then 0.0 else Plain(g, n, m - 1) + Term(g, n, m - 1)
  }

  /** The activations are zero but for element j. */
  ghost predicate OnlyOne(g: Problem, j: nat) {
    j < |g.x| && forall i | 0 <= i < |g.x| && i != j :: g.x[i] == 0
  }

  lemma {:induction false} IDotUnit(g: Problem, n: nat, b: nat, m: nat, j: nat)
    requires Valid(g) && n < g.N && b < Blocks(g) && m <= 32 && OnlyOne(g, j)
    ensures n * g.K + b * 32 + 32 <= |g.w|
    ensures IDot(g, n, b, m) == if b * 32 <= j < b * 32 + m then S8(g.w[n * g.K + j]) * S8(g.x[j]) else 0
  {
    InBounds(g, n, b);
    hide S8;
    assert S8(0) == 0 by { Int8RoundTrip(0, 0); }
    if m > 0 { IDotUnit(g, n, b, m - 1, j); }
  }

  lemma {:induction false} PlainUnit(g: Problem, n: nat, m: nat, j: nat)
    requires Valid(g) && n < g.N && m <= Blocks(g) && OnlyOne(g, j)
    ensures j / 32 < Blocks(g) && n * g.K + j < |g.w| && n * Blocks(g) + j / 32 < |g.dw|
    ensures Plain(g, n, m)
      == if j < 32 * m then g.dw[n * Blocks(g) + j / 32] * g.dx[j / 32] * (S8(g.w[n * g.K + j]) * S8(g.x[j])) as real
         else 0.0
  {
    hide S8, IDot;
    InBounds(g, n, j / 32);
    if m > 0 {
      PlainUnit(g, n, m - 1, j);
      InBounds(g, n, m - 1);
      IDotUnit(g, n, m - 1, 32, j);
    }
  }

  // ---- the integer block dot ----------------------------------------------------------------

  lemma ProductBound(a: int, b: int)
    requires -128 <= a < 128 && -128 <= b < 128
    ensures -16384 <= a * b <= 16384
  {
    if a >= 0 { Extremes(a, b); } else { Extremes(-a, b); assert a * b == -(-a * b); }
  }

  lemma Extremes(a: int, b: int)
    requires 0 <= a <= 128 && -128 <= b <= 128
    ensures -16384 <= a * b <= 16384
  {
    assert a * (b + 128) >= 0 && a * (128 - b) >= 0;
  }

  /** No partial sum leaves the range of a 32-bit integer, by far. */
  lemma {:induction false} IDotBound(g: Problem, n: nat, b: nat, m: nat)
    requires Valid(g) && n < g.N && b < Blocks(g) && m <= 32
    ensures -16384 * m <= IDot(g, n, b, m) <= 16384 * m
    ensures -0x80000000 <= IDot(g, n, b, m) < 0x80000000
  {
    if m > 0 {
      IDotBound(g, n, b, m - 1);
      InBounds(g, n, b);
      ProductBound(S8(g.w[n * g.K + b * 32 + m - 1]), S8(g.x[b * 32 + m - 1]));
    }
  }

  lemma Dp4aStep(g: Problem, n: nat, b: nat, w: nat)
    requires Valid(g) && n < g.N && b < Blocks(g) && w < 8
    ensures n * g.K + b * 32 + 32 <= |g.w| && b * 32 + 32 <= |g.x|
    ensures var i, j := n * g.K + b * 32 + 4 * w, b * 32 + 4 * w;
      var wq, xq := Word(g.w[i], g.w[i + 1], g.w[i + 2], g.w[i + 3]), Word(g.x[j], g.x[j + 1], g.x[j + 2], g.x[j + 3]);
      && wq < 0x100000000 && xq < 0x100000000
      && IDot(g, n, b, 4 * w + 4) == Dp4a(wq, xq, IDot(g, n, b, 4 * w))
  {
    InBounds(g, n, b);
    var i, j := n * g.K + b * 32 + 4 * w, b * 32 + 4 * w;
    WordBytes(g.w[i], g.w[i + 1], g.w[i + 2], g.w[i + 3]);
    WordBytes(g.x[j], g.x[j + 1], g.x[j + 2], g.x[j + 3]);
    hide Word, ByteOf, S8;
    assert IDot(g, n, b, 4 * w + 2) == IDot(g, n, b, 4 * w) + S8(g.w[i]) * S8(g.x[j]) + S8(g.w[i + 1]) * S8(g.x[j + 1]);
  }

  method BlockDot(g: Problem, n: nat, b: nat) returns (idot: int)
    requires Valid(g) && n < g.N && b < Blocks(g)
    ensures idot == IDot(g, n, b, 32)
  {
    hide Dp4a, Word, IDot;
    InBounds(g, n, b);
    idot := 0;
    assert IDot(g, n, b, 0) == 0 by { NoDot(g, n, b); }
    for w := 0 to 8
      invariant idot == IDot(g, n, b, 4 * w)
    {
      var i, j := n * g.K + b * 32 + 4 * w, b * 32 + 4 * w;
      Dp4aStep(g, n, b, w);
      var ws, xs := Word(g.w[i], g.w[i + 1], g.w[i + 2], g.w[i + 3]), Word(g.x[j], g.x[j + 1], g.x[j + 2], g.x[j + 3]);
      idot := Dp4a(ws, xs, idot);
      IDotBound(g, n, b, 4 * w + 4);
      assert -0x80000000 <= idot < 0x80000000;
    }
  }

  lemma NoDot(g: Problem, n: nat, b: nat)
    requires Valid(g) && n < g.N && b < Blocks(g)
    ensures IDot(g, n, b, 0) == 0
  {
  }

  // ---- the strided sums partition the blocks --------------------------------------------------

  function Stride(g: Problem): nat { LANES * g.sk }

  /** What one lane of stride p adds up: the blocks below m congruent to r. */
  function Strided(g: Problem, n: nat, r: nat, p: nat, m: nat): real
    requires Valid(g) && n < g.N && m <= Blocks(g) && p > 0
  {
    if m == 0 then 0.0 else Strided(g, n, r, p, m - 1) + if (m - 1) % p == r then Term(g, n, m - 1) else 0.0
  }

  /** The sum over the first c residues. */
  function Residues(g: Problem, n: nat, p: nat, c: nat, m: nat): real
    requires Valid(g) && n < g.N && m <= Blocks(g) && p > 0
  {
    if c == 0 then 0.0 else Residues(g, n, p, c - 1, m) + Strided(g, n, c - 1, p, m)
  }

  lemma {:induction false} ResiduesGrow(g: Problem, n: nat, p: nat, c: nat, m: nat)
    requires Valid(g) && n < g.N && 0 < m <= Blocks(g) && p > 0
    ensures Residues(g, n, p, c, m) == Residues(g, n, p, c, m - 1) + if (m - 1) % p < c then Term(g, n, m - 1) else 0.0
  {
    hide Term;
    if c > 0 { ResiduesGrow(g, n, p, c - 1, m); }
  }

  /** Every block falls to exactly one lane: the lanes' sums add up to the single sum. */
  lemma {:induction false} LanesPartition(g: Problem, n: nat, p: nat, m: nat)
    requires Valid(g) && n < g.N && m <= Blocks(g) && p > 0
    ensures Residues(g, n, p, p, m) == Plain(g, n, m)
  {
    if m == 0 {
      NoResidues(g, n, p, p);
    } else {
      LanesPartition(g, n, p, m - 1);
      ResiduesGrow(g, n, p, p, m);
    }
  }

  lemma {:induction false} NoResidues(g: Problem, n: nat, p: nat, c: nat)
    requires Valid(g) && n < g.N && p > 0
    ensures Residues(g, n, p, c, 0) == 0.0
  {
    if c > 0 { NoResidues(g, n, p, c - 1); }
  }

  /** Over blocks it does not visit a lane adds nothing. */
  lemma {:induction false} NoVisit(g: Problem, n: nat, r: nat, p: nat, b: nat, m: nat)
    requires Valid(g) && n < g.N && p > 0 && b <= m <= Blocks(g) && forall k | b <= k < m :: k % p != r
    ensures Strided(g, n, r, p, m) == Strided(g, n, r, p, b)
    decreases m
  {
    hide Term;
    if m > b { NoVisit(g, n, r, p, b, m - 1); }
  }

  lemma NotCongruent(p: nat, b: nat, k: nat)
    requires p > 0 && b < k < b + p
    ensures k % p != b % p
  {
    if k % p == b % p {
      assert k - b == p * (k / p) - p * (b / p);
      Multiple(p, k / p - b / p, k - b);
    }
  }

  lemma Multiple(p: int, d: int, n: int)
    requires p > 0 && n == p * d
    ensures n <= 0 || n >= p
  {
    if d >= 1 { assert p * d == p + p * (d - 1); }
  }

  lemma FirstVisit(r: nat, p: nat)
    requires r < p
    ensures forall k | 0 <= k < r :: k % p != r
    ensures r % p == r
  {
  }

  lemma NextVisit(b: nat, p: nat)
    requires p > 0
    ensures (b + p) % p == b % p
    ensures forall k | b + 1 <= k < b + p :: k % p != b % p
  {
    forall k | b + 1 <= k < b + p ensures k % p != b % p { NotCongruent(p, b, k); }
    assert b == b / p * p + b % p;
    assert b + p == (b / p + 1) * p + b % p;
    DivModOf(b / p + 1, b % p, p);
  }

  function Min(a: nat, b: nat): nat { if a < b then a else b }

  /** One lane's strided loop. */
  method LaneSum(g: Problem, n: nat, r: nat) returns (acc: real)
    requires Valid(g) && n < g.N && r < Stride(g)
    ensures acc == Strided(g, n, r, Stride(g), Blocks(g))
  {
    hide Term, IDot;
    var p, nb := Stride(g), Blocks(g);
    var b := r;
    acc := 0.0;
    FirstVisit(r, p);
    NoVisit(g, n, r, p, 0, Min(r, nb));
    while b < nb
      invariant b % p == r && acc == Strided(g, n, r, p, Min(b, nb))
      decreases nb - b
    {
      var idot := BlockDot(g, n, b);
      InBounds(g, n, b);
      acc := acc + g.dw[n * nb + b] * g.dx[b] * idot as real;
      assert g.dw[n * nb + b] * g.dx[b] * idot as real == Term(g, n, b) by { TermIs(g, n, b); }
      NextVisit(b, p);
      NoVisit(g, n, r, p, b + 1, Min(b + p, nb));
      b := b + p;
    }
  }

  lemma TermIs(g: Problem, n: nat, b: nat)
    requires Valid(g) && n < g.N && b < Blocks(g)
    ensures n * Blocks(g) + b < |g.dw| && b < |g.dx|
    ensures Term(g, n, b) == g.dw[n * Blocks(g) + b] * g.dx[b] * IDot(g, n, b, 32) as real
  {
    InBounds(g, n, b);
  }

  // ---- a work-group ---------------------------------------------------------------------

  /** A sub-group's sum: lanes kseg * 16 .. kseg * 16 + 16. */
  method SubgroupSum(g: Problem, n: nat, kseg: nat) returns (acc: real)
    requires Valid(g) && n < g.N && kseg < g.sk
    ensures acc + Residues(g, n, Stride(g), kseg * 16, Blocks(g))
      == Residues(g, n, Stride(g), kseg * 16 + 16, Blocks(g))
  {
    hide Strided;
    acc := 0.0;
    for lane := 0 to LANES
      invariant acc + Residues(g, n, Stride(g), kseg * 16, Blocks(g))
        == Residues(g, n, Stride(g), kseg * 16 + lane, Blocks(g))
    {
      MulLess(kseg, g.sk, 16);
      var s := LaneSum(g, n, kseg * LANES + lane);
      acc := acc + s;
    }
  }

  /** Column `col` of work-group `gid`. */
  function Column(g: Problem, gid: nat, col: nat): nat { gid * g.npw + col }

  /** Sub-group sg's sum over its sixteen residues. */
  ghost predicate SegmentIs(g: Problem, gid: nat, sg: nat, v: real)
    requires Valid(g) && Column(g, gid, sg / g.sk) < g.N
  {
    var n, kseg := Column(g, gid, sg / g.sk), sg % g.sk;
    v + Residues(g, n, Stride(g), kseg * 16, Blocks(g)) == Residues(g, n, Stride(g), kseg * 16 + 16, Blocks(g))
  }

  /** Every column of the work-group is a column of the matrix. */
  ghost predicate Whole(g: Problem, gid: nat) { gid * g.npw + g.npw <= g.N }

  lemma ColumnOf(g: Problem, gid: nat, sg: nat)
    requires Valid(g) && Whole(g, gid) && sg < g.npw * g.sk
    ensures sg / g.sk < g.npw && Column(g, gid, sg / g.sk) < g.N && sg % g.sk < g.sk
  {
    QuotientLess(sg, g.npw, g.sk);
  }

  lemma Cell(g: Problem, col: nat, kseg: nat)
    requires g.sk > 0 && kseg < g.sk && col < g.npw
    ensures col * g.sk + kseg < g.npw * g.sk && (col * g.sk + kseg) / g.sk == col && (col * g.sk + kseg) % g.sk == kseg
  {
    MulLess(col, g.npw, g.sk);
    DivModOf(col, kseg, g.sk);
  }

  /** No two (column, segment) pairs share a partial-sum cell, and no two columns an output. */
  lemma CellsDistinct(g: Problem, col: nat, kseg: nat, col2: nat, kseg2: nat)
    requires g.sk > 0 && kseg < g.sk && kseg2 < g.sk && col < g.npw && col2 < g.npw
        && col * g.sk + kseg == col2 * g.sk + kseg2
    ensures col == col2 && kseg == kseg2
  {
    Cell(g, col, kseg);
    Cell(g, col2, kseg2);
  }

  /** Column col's partial sums, added up after the barrier. */
  method SumSegments(g: Problem, gid: nat, col: nat, part: array<real>) returns (s2: real)
    requires Valid(g) && Whole(g, gid) && col < g.npw && part.Length == g.npw * g.sk
    requires forall sg | 0 <= sg < part.Length :: Column(g, gid, sg / g.sk) < g.N && SegmentIs(g, gid, sg, part[sg])
    ensures Column(g, gid, col) < g.N && s2 == Plain(g, Column(g, gid, col), Blocks(g))
  {
    hide Strided, Residues, Plain;
    var n := Column(g, gid, col);
    s2 := 0.0;
    assert Residues(g, n, Stride(g), 0, Blocks(g)) == 0.0 by { NoneYet(g, n); }
    for i := 0 to g.sk
      invariant s2 == Residues(g, n, Stride(g), i * 16, Blocks(g))
    {
      Cell(g, col, i);
      s2 := s2 + part[col * g.sk + i];
      assert SegmentIs(g, gid, col * g.sk + i, part[col * g.sk + i]);
      assert i * 16 + 16 == (i + 1) * 16;
    }
    LanesPartition(g, n, Stride(g), Blocks(g));
  }

  lemma NoneYet(g: Problem, n: nat)
    requires Valid(g) && n < g.N
    ensures Residues(g, n, Stride(g), 0, Blocks(g)) == 0.0
  {
  }

  /** Before the barrier: every sub-group's sum into its own cell. */
  method FillSegments(g: Problem, gid: nat, part: array<real>)
    requires Valid(g) && Whole(g, gid) && part.Length == g.npw * g.sk
    modifies part
    ensures forall sg | 0 <= sg < part.Length :: Column(g, gid, sg / g.sk) < g.N && SegmentIs(g, gid, sg, part[sg])
  {
    hide Strided, Residues, SegmentIs, Column;
    for sg := 0 to part.Length
      invariant forall t | 0 <= t < sg :: Column(g, gid, t / g.sk) < g.N && SegmentIs(g, gid, t, part[t])
    {
      ColumnOf(g, gid, sg);
      var v := SubgroupSum(g, Column(g, gid, sg / g.sk), sg % g.sk);
      SegmentFrom(g, gid, sg, v);
      part[sg] := v;
    }
  }

  /** With one segment there is no barrier: each sub-group in range stores its own sum, the others return. */
  method DirectColumns(g: Problem, gid: nat, y: array<real>)
    requires Valid(g) && g.sk == 1 && y.Length == g.N
    modifies y
    ensures forall n: nat | gid * g.npw <= n < gid * g.npw + g.npw && n < g.N :: y[n] == Plain(g, n, Blocks(g))
    ensures forall n | 0 <= n < g.N && (n < gid * g.npw || gid * g.npw + g.npw <= n) :: y[n] == old(y[n])
  {
    hide Strided, Residues, Plain;
    var base := gid * g.npw;
    for col := 0 to g.npw
      invariant forall n: nat | base <= n < base + col && n < g.N :: y[n] == Plain(g, n, Blocks(g))
      invariant forall n | 0 <= n < g.N && (n < base || base + col <= n) :: y[n] == old(y[n])
    {
      var n := base + col;
      if n >= g.N { continue; }
      var acc := SubgroupSum(g, n, 0);
      OneSegment(g, n, acc);
      y[n] := acc;
    }
  }

  /** One work-group: its sub-groups fill the partial sums, then, past the barrier, each column is summed and stored.
      With one segment the sub-group stores its sum itself. */
  method WorkGroup(g: Problem, gid: nat, y: array<real>)
    requires Valid(g) && (g.sk == 1 || Whole(g, gid)) && y.Length == g.N
    modifies y
    ensures forall n: nat | gid * g.npw <= n < gid * g.npw + g.npw && n < g.N :: y[n] == Plain(g, n, Blocks(g))
    ensures forall n | 0 <= n < g.N && (n < gid * g.npw || gid * g.npw + g.npw <= n) :: y[n] == old(y[n])
  {
    hide Strided, Residues, Plain, SegmentIs;
    if g.sk == 1 {
      DirectColumns(g, gid, y);
      return;
    }
    var part := new real[g.npw * g.sk](_ => 0.0);
    FillSegments(g, gid, part);
    var base := gid * g.npw;
    for col := 0 to g.npw
      modifies y
      invariant forall n: nat | base <= n < base + col :: y[n] == Plain(g, n, Blocks(g))
      invariant forall n | 0 <= n < g.N && (n < base || base + col <= n) :: y[n] == old(y[n])
    {
      var s2 := SumSegments(g, gid, col, part);
      y[base + col] := s2;
    }
  }

  lemma SegmentFrom(g: Problem, gid: nat, sg: nat, v: real)
    requires Valid(g) && g.sk > 0 && Column(g, gid, sg / g.sk) < g.N
    requires var n, kseg := Column(g, gid, sg / g.sk), sg % g.sk;
      v + Residues(g, n, Stride(g), kseg * 16, Blocks(g)) == Residues(g, n, Stride(g), kseg * 16 + 16, Blocks(g))
    ensures SegmentIs(g, gid, sg, v)
  {
  }

  lemma OneSegment(g: Problem, n: nat, v: real)
    requires Valid(g) && g.sk == 1 && n < g.N
    requires v + Residues(g, n, Stride(g), 0, Blocks(g)) == Residues(g, n, Stride(g), 16, Blocks(g))
    ensures v == Plain(g, n, Blocks(g))
  {
    hide Strided, Plain;
    NoneYet(g, n);
    LanesPartition(g, n, Stride(g), Blocks(g));
  }

  /** No work-item returns before the barrier exactly when N is a multiple of the columns per work-group. */
  lemma AllReachBarrier(g: Problem)
    requires Valid(g)
    ensures (forall gid: nat | gid < (g.N + g.npw - 1) / g.npw :: Whole(g, gid)) <==> g.N % g.npw == 0
  {
    var q, r := g.N / g.npw, g.N % g.npw;
    assert g.N == q * g.npw + r;
    if r == 0 {
      assert g.N + g.npw - 1 == q * g.npw + (g.npw - 1);
      DivModOf(q, g.npw - 1, g.npw);
      forall gid: nat | gid < q ensures Whole(g, gid) { MulLess(gid, q, g.npw); }
    } else {
      assert g.N + g.npw - 1 == (q + 1) * g.npw + (r - 1);
      DivModOf(q + 1, r - 1, g.npw);
      assert !Whole(g, q);
    }
  }

  /** Every output is one column of one work-group, and the work-groups launched cover them all. */
  lemma OneWriter(g: Problem, n: nat)
    requires Valid(g) && n < g.N
    ensures n / g.npw < (g.N + g.npw - 1) / g.npw && n % g.npw < g.npw && Column(g, n / g.npw, n % g.npw) == n
    ensures forall gid: nat, col: nat | col < g.npw && Column(g, gid, col) == n :: gid == n / g.npw && col == n % g.npw
  {
    assert n == n / g.npw * g.npw + n % g.npw;
    GroupsCover(g);
    QuotientLess(n, (g.N + g.npw - 1) / g.npw, g.npw);
    forall gid: nat, col: nat | col < g.npw && Column(g, gid, col) == n
      ensures gid == n / g.npw && col == n % g.npw
    {
      DivModOf(gid, col, g.npw);
    }
  }

  /** v is weight (n, j) times activation j, under their blocks' scales. */
  ghost predicate PicksOne(g: Problem, n: nat, j: nat, v: real) {
    && j / 32 < |g.dx| && j < |g.x| && n * g.K + j < |g.w| && n * (g.K / 32) + j / 32 < |g.dw|
    && v == g.dw[n * (g.K / 32) + j / 32] * g.dx[j / 32] * (S8(g.w[n * g.K + j]) * S8(g.x[j])) as real
  }

  lemma PlainPicks(g: Problem, n: nat, j: nat)
    requires Valid(g) && n < g.N && OnlyOne(g, j)
    ensures PicksOne(g, n, j, Plain(g, n, Blocks(g)))
  {
    hide Plain, S8;
    PlainUnit(g, n, Blocks(g), j);
    assert j < |g.x| == 32 * Blocks(g);
  }

  lemma GroupsCover(g: Problem)
    requires Valid(g)
    ensures g.N <= (g.N + g.npw - 1) / g.npw * g.npw < g.N + g.npw
  {
    var up := g.N + g.npw - 1;
    assert up == up / g.npw * g.npw + up % g.npw;
  }

  /** For every K a multiple of 32 and every tile shape each output is the single sum over all blocks: for every N with
      one segment, and with several for every N that is a multiple of the columns. */
  method MatVec(g: Problem, y: array<real>)
    requires Valid(g) && (g.sk == 1 || g.N % g.npw == 0) && y.Length == g.N
    modifies y
    ensures forall n: nat | n < g.N :: y[n] == Plain(g, n, Blocks(g))
    ensures forall n: nat, j: nat | n < g.N && OnlyOne(g, j) :: PicksOne(g, n, j, y[n])
  {
    hide Plain, OnlyOne, PicksOne;
    var groups := (g.N + g.npw - 1) / g.npw;
    AllReachBarrier(g);
    GroupsCover(g);
    for gid := 0 to groups
      invariant forall n: nat | n < gid * g.npw && n < g.N :: y[n] == Plain(g, n, Blocks(g))
    {
      WorkGroup(g, gid, y);
      assert (gid + 1) * g.npw == gid * g.npw + g.npw;
    }
    forall n: nat, j: nat | n < g.N && OnlyOne(g, j)
      ensures PicksOne(g, n, j, y[n])
    {
      assert y[n] == Plain(g, n, Blocks(g));
      PlainPicks(g, n, j);
    }
  }
}
