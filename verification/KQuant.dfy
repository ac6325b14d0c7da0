/** The K-quant column dot of the reference arbiter, in exact arithmetic: bytes are naturals, a shift
    right is a division, a mask a remainder, an or of disjoint fields a sum. */
module KQuant {
  import opened Bytes

  /** The low or the high nibble. */
  function Nibble(b: Byte, hi: nat): (q: nat)
    ensures q < 16
  {
    if hi == 0 then b % 16 else b / 16
  }

  function Bit(b: Byte, i: nat): (q: nat)
    requires i < 8
    ensures q < 2
  {
    match i
    case 0 => b % 2 case 1 => b / 2 % 2 case 2 => b / 4 % 2 case 3 => b / 8 % 2
    case 4 => b / 16 % 2 case 5 => b / 32 % 2 case 6 => b / 64 % 2 case _ => b / 128
  }

  function Pair(b: Byte, i: nat): (q: nat)
    requires i < 4
    ensures q < 4
  {
    match i case 0 => b % 4 case 1 => b / 4 % 4 case 2 => b / 16 % 4 case _ => b / 64
  }

  // ---- the packed scales ----------------------------------------------------------------

  datatype ScaleMin = ScaleMin(s: nat, m: nat)

  /** Sub-block `sub`'s six-bit scale and minimum, out of 12 bytes. */
  function ScaleMinK4(sub: nat, sc: seq<Byte>): (r: ScaleMin)
    requires sub < 8 && |sc| == 12
    ensures r.s < 64 && r.m < 64
  {
    if sub < 4 then ScaleMin(sc[sub] % 64, sc[sub + 4] % 64)
    else ScaleMin(sc[sub + 4] % 16 + sc[sub - 4] / 64 * 16, sc[sub + 4] / 16 + sc[sub] / 64 * 16)
  }

  /** The packer: the first four pairs whole, the last four split into a low nibble and two high bits. */
  function PackScales(v: seq<ScaleMin>): (sc: seq<Byte>)
    requires |v| == 8 && forall i | 0 <= i < 8 :: v[i].s < 64 && v[i].m < 64
    ensures |sc| == 12
  {
    seq(12, i requires 0 <= i < 12 =>
      if i < 4 then v[i].s + v[i + 4].s / 16 * 64
      else if i < 8 then v[i - 4].m + v[i].m / 16 * 64
      else v[i - 4].s % 16 + v[i - 4].m % 16 * 16)
  }

  function UnpackScales(sc: seq<Byte>): (v: seq<ScaleMin>)
    requires |sc| == 12
    ensures |v| == 8 && forall i | 0 <= i < 8 :: v[i] == ScaleMinK4(i, sc)
  {
    seq(8, i requires 0 <= i < 8 => ScaleMinK4(i, sc))
  }

  /** A six-bit field under two bits, and a field split into a nibble and two bits. */
  lemma SixAndTwo(a: nat, b: nat)
    requires a < 64 && b < 64
    ensures (a + b / 16 * 64) % 64 == a && (a + b / 16 * 64) / 64 == b / 16
    ensures b % 16 + b / 16 * 16 == b
  {
  }

  lemma TwoNibbles(a: nat, b: nat)
    ensures (a % 16 + b % 16 * 16) % 16 == a % 16 && (a % 16 + b % 16 * 16) / 16 == b % 16
  {
  }

  lemma PackedField(v: seq<ScaleMin>, i: nat)
    requires |v| == 8 && (forall j | 0 <= j < 8 :: v[j].s < 64 && v[j].m < 64) && i < 8
    ensures ScaleMinK4(i, PackScales(v)) == v[i]
  {
    var sc := PackScales(v);
    if i < 4 {
      SixAndTwo(v[i].s, v[i + 4].s);
      SixAndTwo(v[i].m, v[i + 4].m);
      assert sc[i] == v[i].s + v[i + 4].s / 16 * 64 && sc[i + 4] == v[i].m + v[i + 4].m / 16 * 64;
    } else {
      SixAndTwo(v[i - 4].s, v[i].s);
      SixAndTwo(v[i - 4].m, v[i].m);
      TwoNibbles(v[i].s, v[i].m);
      assert sc[i + 4] == v[i].s % 16 + v[i].m % 16 * 16;
      assert sc[i - 4] == v[i - 4].s + v[i].s / 16 * 64 && sc[i] == v[i - 4].m + v[i].m / 16 * 64;
    }
  }

  /** A byte is its low six bits and its high two; a nibble over two bits gives the nibble back. */
  lemma ByteParts(b: Byte, lo: nat)
    requires lo < 16
    ensures (lo + b / 64 * 16) / 16 == b / 64 && (lo + b / 64 * 16) % 16 == lo
    ensures b % 64 + b / 64 * 64 == b && b % 16 + b / 16 * 16 == b
  {
  }

  lemma UnpackedByte(sc: seq<Byte>, i: nat)
    requires |sc| == 12 && i < 12
    ensures PackScales(UnpackScales(sc))[i] == sc[i]
  {
    var v := UnpackScales(sc);
    if i < 4 {
      ByteParts(sc[i], sc[i + 8] % 16);
      UnpackedPair(sc, i);
    } else if i < 8 {
      ByteParts(sc[i], sc[i + 4] / 16);
      UnpackedPair(sc, i - 4);
    } else {
      ByteParts(sc[i - 8], sc[i] % 16);
      ByteParts(sc[i - 4], sc[i] / 16);
      ByteParts(sc[i], 0);
      UnpackedPair(sc, i - 8);
    }
  }

  lemma UnpackedPair(sc: seq<Byte>, i: nat)
    requires |sc| == 12 && i < 4
    ensures var v := UnpackScales(sc);
      && v[i] == ScaleMin(sc[i] % 64, sc[i + 4] % 64)
      && v[i + 4] == ScaleMin(sc[i + 8] % 16 + sc[i] / 64 * 16, sc[i + 8] / 16 + sc[i + 4] / 64 * 16)
  {
  }

  /** The scale bytes and the eight pairs determine each other. */
  lemma ScalesRoundTrip(v: seq<ScaleMin>, sc: seq<Byte>)
    requires |v| == 8 && (forall j | 0 <= j < 8 :: v[j].s < 64 && v[j].m < 64) && |sc| == 12
    ensures UnpackScales(PackScales(v)) == v
    ensures PackScales(UnpackScales(sc)) == sc
  {
    hide PackScales, ScaleMinK4;
    forall i | 0 <= i < 8 ensures ScaleMinK4(i, PackScales(v)) == v[i] { PackedField(v, i); }
    forall i | 0 <= i < 12 ensures PackScales(UnpackScales(sc))[i] == sc[i] { UnpackedByte(sc, i); }
  }

  // ---- blocks of 256 weights --------------------------------------------------------------

  datatype Block =
    | Q4(d: real, dmin: real, scales: seq<Byte>, qs: seq<Byte>)
    | Q5(d: real, dmin: real, scales: seq<Byte>, qh: seq<Byte>, qs: seq<Byte>)
    | Q6(ql: seq<Byte>, qh: seq<Byte>, subScales: seq<int>, d: real)

  predicate BlockOk(b: Block) {
    match b
    case Q4(_, _, scales, qs) => |scales| == 12 && |qs| == 128
    case Q5(_, _, scales, qh, qs) => |scales| == 12 && |qh| == 32 && |qs| == 128
    case Q6(ql, qh, subScales, _) => |ql| == 128 && |qh| == 64 && |subScales| == 16
  }

  /** Element k's four bits: 64 elements share 32 bytes, low nibbles first. */
  function Quant4(qs: seq<Byte>, k: nat): (q: nat)
    requires |qs| == 128 && k < 256
    ensures q < 16
  {
    Nibble(qs[k / 64 * 32 + k % 32], k / 32 % 2)
  }

  function Quant5(qs: seq<Byte>, qh: seq<Byte>, k: nat): (q: nat)
    requires |qs| == 128 && |qh| == 32 && k < 256
    ensures q < 32
  {
    Quant4(qs, k) + Bit(qh[k % 32], k / 32) * 16
  }

  /** Element k's six bits: halves of 128, quarters of 32; two quarters share a byte of nibbles, four one of pairs. */
  function Quant6(ql: seq<Byte>, qh: seq<Byte>, k: nat): (q: nat)
    requires |ql| == 128 && |qh| == 64 && k < 256
    ensures q < 64
  {
    Nibble(ql[k / 128 * 64 + k / 32 % 2 * 32 + k % 32], k / 64 % 2) + Pair(qh[k / 128 * 32 + k % 32], k / 32 % 4) * 16
  }

  /** The dequantised element k of a block. */
  function Weight(b: Block, k: nat): real
    requires BlockOk(b) && k < 256
  {
    match b
    case Q4(d, dmin, scales, qs) =>
      var sm := ScaleMinK4(k / 32, scales);
      d * sm.s as real * Quant4(qs, k) as real - dmin * sm.m as real
    case Q5(d, dmin, scales, qh, qs) =>
      var sm := ScaleMinK4(k / 32, scales);
      d * sm.s as real * Quant5(qs, qh, k) as real - dmin * sm.m as real
    case Q6(ql, qh, subScales, d) =>
      d * subScales[k / 128 * 8 + k / 32 % 4 * 2 + k % 32 / 16] as real * (Quant6(ql, qh, k) - 32) as real
  }

  /** x[base..base + n) against the first n elements of a block, in index order. */
  function BlockDot(b: Block, x: seq<real>, base: nat, n: nat): real
    requires BlockOk(b) && n <= 256 && base + n <= |x|
  {
    if n == 0 then 0.0 else BlockDot(b, x, base, n - 1) + x[base + n - 1] * Weight(b, n - 1)
  }

  /** The plain dot of x with the dequantised column. */
  function ColumnDot(col: seq<Block>, x: seq<real>, n: nat): real
    requires n <= |col| && 256 * n <= |x| && forall i | 0 <= i < |col| :: BlockOk(col[i])
  {
    if n == 0 then 0.0 else ColumnDot(col, x, n - 1) + BlockDot(col[n - 1], x, 256 * (n - 1), 256)
  }

  // ---- the loops of col_dot ------------------------------------------------------------

  lemma SubIndex(sub: nat, j: nat)
    requires sub < 8 && j < 32
    ensures var k := sub * 32 + j;
      k < 256 && k == sub / 2 * 64 + sub % 2 * 32 + j && k / 32 == sub && k % 32 == j && k / 64 == sub / 2
          && k / 32 % 2 == sub % 2
  {
  }

  method DotQ4(b: Block, x: seq<real>, base: nat, acc0: real) returns (acc: real)
    requires b.Q4? && BlockOk(b) && base + 256 <= |x|
    ensures acc == acc0 + BlockDot(b, x, base, 256)
  {
    hide BlockDot, Weight, Quant4, ScaleMinK4;
    NoDot(b, x, base);
    acc := acc0;
    for sub := 0 to 8
      invariant acc == acc0 + BlockDot(b, x, base, sub * 32)
    {
      var sm := ScaleMinK4(sub, b.scales);
      var ds, ms := b.d * sm.s as real, b.dmin * sm.m as real;
      var g, hi := sub / 2, sub % 2;
      for j := 0 to 32
        invariant acc == acc0 + BlockDot(b, x, base, sub * 32 + j)
      {
        var q := Nibble(b.qs[g * 32 + j], hi);
        var w := ds * q as real - ms;
        WeightQ4(b, sub, j);
        SubIndex(sub, j);
        BlockNext(b, x, base, sub * 32 + j);
        assert w == Weight(b, sub * 32 + j) && base + g * 64 + hi * 32 + j == base + (sub * 32 + j);
        acc := acc + x[base + g * 64 + hi * 32 + j] * w;
      }
    }
  }

  lemma WeightQ4(b: Block, sub: nat, j: nat)
    requires b.Q4? && BlockOk(b) && sub < 8 && j < 32
    ensures var sm := ScaleMinK4(sub, b.scales);
      Weight(b, sub * 32 + j)
        == b.d * sm.s as real * Nibble(b.qs[sub / 2 * 32 + j], sub % 2) as real - b.dmin * sm.m as real
  {
    hide Nibble, Bit, ScaleMinK4;
    SubIndex(sub, j);
  }

  method DotQ5(b: Block, x: seq<real>, base: nat, acc0: real) returns (acc: real)
    requires b.Q5? && BlockOk(b) && base + 256 <= |x|
    ensures acc == acc0 + BlockDot(b, x, base, 256)
  {
    hide BlockDot, Weight, Quant5, ScaleMinK4, Bit;
    NoDot(b, x, base);
    acc := acc0;
    for sub := 0 to 8
      invariant acc == acc0 + BlockDot(b, x, base, sub * 32)
    {
      var sm := ScaleMinK4(sub, b.scales);
      var ds, ms := b.d * sm.s as real, b.dmin * sm.m as real;
      var g, hi := sub / 2, sub % 2;
      for j := 0 to 32
        invariant acc == acc0 + BlockDot(b, x, base, sub * 32 + j)
      {
        var q := Nibble(b.qs[g * 32 + j], hi) + Bit(b.qh[j], sub) * 16;
        var w := ds * q as real - ms;
        WeightQ5(b, sub, j);
        SubIndex(sub, j);
        BlockNext(b, x, base, sub * 32 + j);
        assert w == Weight(b, sub * 32 + j) && base + g * 64 + hi * 32 + j == base + (sub * 32 + j);
        acc := acc + x[base + g * 64 + hi * 32 + j] * w;
      }
    }
  }

  lemma WeightQ5(b: Block, sub: nat, j: nat)
    requires b.Q5? && BlockOk(b) && sub < 8 && j < 32
    ensures var sm := ScaleMinK4(sub, b.scales);
      Weight(b, sub * 32 + j)
        == b.d * sm.s as real * (Nibble(b.qs[sub / 2 * 32 + j], sub % 2) + Bit(b.qh[j], sub) * 16) as real
           - b.dmin * sm.m as real
  {
    hide Nibble, Bit, ScaleMinK4;
    SubIndex(sub, j);
  }

  /** The lane lattice: half, quarter and half-quarter of a lane. */
  lemma LaneParts(lane: nat)
    requires lane < 16
    ensures lane / 8 * 8 + lane / 2 % 4 * 2 + lane % 2 == lane
  {
  }

  /** The element 16 * lane + i, by the lane's parts: the lattice visits a block in index order. */
  function Element(half: nat, sub: nat, lh: nat, i: nat): nat { half * 128 + sub * 32 + lh * 16 + i }

  lemma ElementParts(half: nat, sub: nat, lh: nat, i: nat)
    requires half < 2 && sub < 4 && lh < 2 && i < 16
    ensures var k := Element(half, sub, lh, i);
      && k < 256 && k / 128 == half && k / 32 == half * 4 + sub && k / 64 == half * 2 + sub / 2 && k % 32 == lh * 16 + i
      && k / 32 % 2 == sub % 2 && k / 32 % 4 == sub && k / 64 % 2 == sub / 2 && k % 32 / 16 == lh
  {
    var k := Element(half, sub, lh, i);
    assert k / 32 == half * 4 + sub && k % 32 == lh * 16 + i;
  }

  lemma QuantQ6(b: Block, half: nat, sub: nat, lh: nat, i: nat)
    requires b.Q6? && BlockOk(b) && half < 2 && sub < 4 && lh < 2 && i < 16
    ensures Element(half, sub, lh, i) < 256
    ensures Quant6(b.ql, b.qh, Element(half, sub, lh, i))
      == Nibble(b.ql[half * 64 + sub % 2 * 32 + lh * 16 + i], sub / 2) + Pair(b.qh[half * 32 + lh * 16 + i], sub) * 16
  {
    hide Nibble, Pair, Element;
    ElementParts(half, sub, lh, i);
  }

  lemma WeightQ6(b: Block, half: nat, sub: nat, lh: nat, i: nat)
    requires b.Q6? && BlockOk(b) && half < 2 && sub < 4 && lh < 2 && i < 16
    ensures Element(half, sub, lh, i) < 256
    ensures var lo := Nibble(b.ql[half * 64 + sub % 2 * 32 + lh * 16 + i], sub / 2);
      var q := lo + Pair(b.qh[half * 32 + lh * 16 + i], sub) * 16;
      Weight(b, Element(half, sub, lh, i)) == b.d * b.subScales[half * 8 + sub * 2 + lh] as real * (q - 32) as real
  {
    hide Nibble, Pair, Element, Quant6;
    ElementParts(half, sub, lh, i);
    QuantQ6(b, half, sub, lh, i);
  }

  lemma NoDot(b: Block, x: seq<real>, base: nat)
    requires BlockOk(b) && base <= |x|
    ensures BlockDot(b, x, base, 0) == 0.0
  {
  }

  lemma BlockNext(b: Block, x: seq<real>, base: nat, n: nat)
    requires BlockOk(b) && n < 256 && base + n < |x|
    ensures BlockDot(b, x, base, n + 1) == BlockDot(b, x, base, n) + x[base + n] * Weight(b, n)
  {
  }

  method DotQ6(b: Block, x: seq<real>, base: nat, acc0: real) returns (acc: real)
    requires b.Q6? && BlockOk(b) && base + 256 <= |x|
    ensures acc == acc0 + BlockDot(b, x, base, 256)
  {
    hide BlockDot, Weight;
    NoDot(b, x, base);
    acc := acc0;
    for lane := 0 to 16
      invariant acc == acc0 + BlockDot(b, x, base, lane * 16)
    {
      LaneParts(lane);
      acc := DotLane(b, x, base, acc0, acc, lane / 8, lane / 2 % 4, lane % 2);
    }
  }

  /** One lane's sixteen elements. */
  method DotLane(b: Block, x: seq<real>, base: nat, ghost acc0: real, acc1: real, half: nat, sub: nat,
        lh: nat) returns (acc: real)
    requires b.Q6? && BlockOk(b) && base + 256 <= |x| && half < 2 && sub < 4 && lh < 2
    requires acc1 == acc0 + BlockDot(b, x, base, half * 128 + sub * 32 + lh * 16)
    ensures acc == acc0 + BlockDot(b, x, base, half * 128 + sub * 32 + lh * 16 + 16)
  {
    hide Weight, Quant6, Pair, Nibble, BlockDot;
    var ls := lh * 16;
    var qlOff, qhOff := half * 64 + sub % 2 * 32 + ls, half * 32 + ls;
    var ds := b.d * b.subScales[half * 8 + sub * 2 + lh] as real;
    var out := half * 128 + sub * 32 + ls;
    acc := acc1;
    for i := 0 to 16
      invariant acc == acc0 + BlockDot(b, x, base, out + i)
    {
      var q := Nibble(b.ql[qlOff + i], sub / 2) + Pair(b.qh[qhOff + i], sub) * 16;
      var w := ds * (q - 32) as real;
      WeightQ6(b, half, sub, lh, i);
      assert w == Weight(b, out + i);
      BlockNext(b, x, base, out + i);
      acc := acc + x[base + out + i] * w;
    }
  }

  /** Below n, x is zero but for position k. */
  ghost predicate OnlyOne(x: seq<real>, n: nat, k: nat) {
    n <= |x| && k < n && forall j | 0 <= j < n && j != k :: x[j] == 0.0
  }

  /** v is x's element k times the weight of column element k. */
  ghost predicate PicksOne(col: seq<Block>, x: seq<real>, k: nat, v: real) {
    && k < |x| && k / 256 < |col| && BlockOk(col[k / 256])
    && v == x[k] * Weight(col[k / 256], k % 256)
  }

  lemma UnitIndex(col: seq<Block>, x: seq<real>, k: nat)
    requires OnlyOne(x, 256 * |col|, k)
    ensures k < 256 * |col| <= |x| && k / 256 < |col|
  {
  }

  lemma {:induction false} BlockUnit(b: Block, x: seq<real>, base: nat, n: nat, m: nat, k: nat)
    requires BlockOk(b) && n <= 256 && base + n <= m && OnlyOne(x, m, k)
    ensures BlockDot(b, x, base, n) == if base <= k < base + n then x[k] * Weight(b, k - base) else 0.0
  {
    hide Weight;
    if n > 0 { BlockUnit(b, x, base, n - 1, m, k); }
  }

  lemma {:induction false} ColumnUnit(col: seq<Block>, x: seq<real>, n: nat, k: nat)
    requires n <= |col| && (forall i | 0 <= i < |col| :: BlockOk(col[i])) && OnlyOne(x, 256 * |col|, k)
    ensures ColumnDot(col, x, n) == if k < 256 * n then x[k] * Weight(col[k / 256], k % 256) else 0.0
  {
    hide Weight, BlockDot;
    if n > 0 {
      var base := 256 * (n - 1);
      ColumnUnit(col, x, n - 1, k);
      BlockUnit(col[n - 1], x, base, 256, 256 * |col|, k);
      ColumnNext(col, x, n - 1);
      if base <= k < base + 256 {
        assert k / 256 == n - 1 && k % 256 == k - base;
        assert ColumnDot(col, x, n) == 0.0 + x[k] * Weight(col[n - 1], k - base);
      } else {
        assert k < base <==> k < 256 * n;
      }
    }
  }

  lemma ColumnNext(col: seq<Block>, x: seq<real>, n: nat)
    requires n < |col| && 256 * n + 256 <= |x| && forall i | 0 <= i < |col| :: BlockOk(col[i])
    ensures ColumnDot(col, x, n + 1) == ColumnDot(col, x, n) + BlockDot(col[n], x, 256 * n, 256)
  {
  }

  /** For every number of blocks of any of the three kinds the column dot is the plain dot with the dequantised
      column; for an x with one nonzero element it is that element times its own weight. */
  method ColDot(col: seq<Block>, x: seq<real>) returns (acc: real)
    requires 256 * |col| <= |x| && forall i | 0 <= i < |col| :: BlockOk(col[i])
    ensures acc == ColumnDot(col, x, |col|)
    ensures forall k: nat | OnlyOne(x, 256 * |col|, k) :: PicksOne(col, x, k, acc)
  {
    hide BlockDot, Weight, OnlyOne;
    acc := 0.0;
    for b := 0 to |col|
      invariant acc == ColumnDot(col, x, b)
    {
      match col[b]
      case Q4(_, _, _, _) => acc := DotQ4(col[b], x, b * 256, acc);
      case Q5(_, _, _, _, _) => acc := DotQ5(col[b], x, b * 256, acc);
      case Q6(_, _, _, _) => acc := DotQ6(col[b], x, b * 256, acc);
    }
    forall k: nat | OnlyOne(x, 256 * |col|, k)
      ensures PicksOne(col, x, k, acc)
    {
      UnitIndex(col, x, k);
      ColumnUnit(col, x, |col|, k);
    }
  }

  // ---- every packed field is read exactly once --------------------------------------------

  /** Sixteen-valued quants packed as the format lays them out. */
  function Pack4(q: seq<nat>): (qs: seq<Byte>)
    requires |q| == 256 && forall k | 0 <= k < 256 :: q[k] < 16
    ensures |qs| == 128
  {
    seq(128, i requires 0 <= i < 128 => q[i / 32 * 64 + i % 32] + q[i / 32 * 64 + 32 + i % 32] * 16)
  }

  lemma Place4(g: nat, h: nat, l: nat)
    requires g < 4 && h < 2 && l < 32
    ensures var k, i := g * 64 + h * 32 + l, g * 32 + l;
      k < 256 && k / 64 == g && k % 32 == l && k / 32 % 2 == h && i < 128 && i / 32 == g && i % 32 == l
  {
    assert (g * 64 + h * 32 + l) / 32 == 2 * g + h;
  }

  lemma Pack4At(q: seq<nat>, g: nat, h: nat, l: nat)
    requires |q| == 256 && (forall j | 0 <= j < 256 :: q[j] < 16) && g < 4 && h < 2 && l < 32
    ensures g * 64 + h * 32 + l < 256 && Quant4(Pack4(q), g * 64 + h * 32 + l) == q[g * 64 + h * 32 + l]
  {
    Place4(g, h, l);
    var lo, hi := q[g * 64 + l], q[g * 64 + 32 + l];
    assert Pack4(q)[g * 32 + l] == lo + hi * 16;
    TwoNibbles(lo, hi);
  }

  lemma Pack4Reads(q: seq<nat>, k: nat)
    requires |q| == 256 && (forall j | 0 <= j < 256 :: q[j] < 16) && k < 256
    ensures Quant4(Pack4(q), k) == q[k]
  {
    hide Quant4, Pack4;
    Pack4At(q, k / 64, k / 32 % 2, k % 32);
    assert k == k / 64 * 64 + k / 32 % 2 * 32 + k % 32;
  }

  lemma Bytes4(g: nat, l: nat)
    requires g < 4 && l < 32
    ensures var i, k := g * 32 + l, g * 64 + l;
      && i / 32 == g && i % 32 == l && k + 32 < 256
      && k / 64 == g && k % 32 == l && k / 32 % 2 == 0
      && (k + 32) / 64 == g && (k + 32) % 32 == l && (k + 32) / 32 % 2 == 1
  {
    assert (g * 64 + l) / 32 == 2 * g && (g * 64 + l + 32) / 32 == 2 * g + 1;
  }

  function Quants4(qs: seq<Byte>): (q: seq<nat>)
    requires |qs| == 128
    ensures |q| == 256 && forall k | 0 <= k < 256 :: q[k] == Quant4(qs, k) < 16
  {
    seq(256, k requires 0 <= k < 256 => Quant4(qs, k))
  }

  /** The 128 bytes and the 256 four-bit quants determine each other: each nibble is read exactly once. */
  lemma Nibbles4Once(q: seq<nat>, qs: seq<Byte>)
    requires |q| == 256 && (forall k | 0 <= k < 256 :: q[k] < 16) && |qs| == 128
    ensures Quants4(Pack4(q)) == q && Pack4(Quants4(qs)) == qs
  {
    forall k | 0 <= k < 256 ensures Quant4(Pack4(q), k) == q[k] { Pack4Reads(q, k); }
    forall i | 0 <= i < 128
      ensures Pack4(Quants4(qs))[i] == qs[i]
    {
      Bytes4(i / 32, i % 32);
      assert i == i / 32 * 32 + i % 32;
      ByteParts(qs[i], 0);
    }
  }

  // the plane of high bits of Q5_K

  /** The eight bits of a byte are its binary digits, and its two nibbles its hexadecimal ones. */
  lemma BitParts(b: Byte)
    ensures Bit(b, 0) + 2 * Bit(b, 1) + 4 * Bit(b, 2) + 8 * Bit(b, 3)
            + 16 * Bit(b, 4) + 32 * Bit(b, 5) + 64 * Bit(b, 6) + 128 * Bit(b, 7) == b
    ensures Nibble(b, 0) + 16 * Nibble(b, 1) == b
  {
    Halved(b, 1);
    Halved(b, 2);
    Halved(b, 4);
    Halved(b, 8);
    Halved(b, 16);
    Halved(b, 32);
    Halved(b, 64);
  }

  lemma Halved(b: Byte, p: nat)
    requires p == 1 || p == 2 || p == 4 || p == 8 || p == 16 || p == 32 || p == 64
    ensures b / p == b / p % 2 + 2 * (b / (2 * p))
  {
  }

  /** Eight binary digits as a byte. */
  function Octet(b0: nat, b1: nat, b2: nat, b3: nat, b4: nat, b5: nat, b6: nat, b7: nat): (b: Byte)
    requires b0 < 2 && b1 < 2 && b2 < 2 && b3 < 2 && b4 < 2 && b5 < 2 && b6 < 2 && b7 < 2
  {
    b0 + 2 * b1 + 4 * b2 + 8 * b3 + 16 * b4 + 32 * b5 + 64 * b6 + 128 * b7
  }

  /** Binary digits are unique. */
  lemma OctetBits(b0: nat, b1: nat, b2: nat, b3: nat, b4: nat, b5: nat, b6: nat, b7: nat)
    requires b0 < 2 && b1 < 2 && b2 < 2 && b3 < 2 && b4 < 2 && b5 < 2 && b6 < 2 && b7 < 2
    ensures var b := Octet(b0, b1, b2, b3, b4, b5, b6, b7);
      && Bit(b, 0) == b0 && Bit(b, 1) == b1 && Bit(b, 2) == b2 && Bit(b, 3) == b3
      && Bit(b, 4) == b4 && Bit(b, 5) == b5 && Bit(b, 6) == b6 && Bit(b, 7) == b7
  {
    var b := Octet(b0, b1, b2, b3, b4, b5, b6, b7);
    var r6 := b6 + 2 * b7;
    var r5 := b5 + 2 * r6;
    var r4 := b4 + 2 * r5;
    var r3 := b3 + 2 * r4;
    var r2 := b2 + 2 * r3;
    var r1 := b1 + 2 * r2;
    BitsAre(b, r1, r2, r3, r4, r5, r6, b7);
  }

  /** Halving again and again gives the digits. */
  lemma BitsAre(b: Byte, r1: nat, r2: nat, r3: nat, r4: nat, r5: nat, r6: nat, r7: nat)
    requires r1 == b / 2 && r2 == r1 / 2 && r3 == r2 / 2 && r4 == r3 / 2 && r5 == r4 / 2 && r6 == r5 / 2 && r7 == r6 / 2
    ensures Bit(b, 0) == b % 2 && Bit(b, 1) == r1 % 2 && Bit(b, 2) == r2 % 2 && Bit(b, 3) == r3 % 2
    ensures Bit(b, 4) == r4 % 2 && Bit(b, 5) == r5 % 2 && Bit(b, 6) == r6 % 2 && Bit(b, 7) == r7
  {
    assert r2 == b / 4;
    assert r3 == b / 8;
    assert r4 == b / 16;
    assert r5 == b / 32;
    assert r6 == b / 64;
    assert r7 == b / 128;
  }

  function PackLow5(q: seq<nat>): (qs: seq<Byte>)
    requires |q| == 256 && forall k | 0 <= k < 256 :: q[k] < 32
    ensures |qs| == 128
  {
    seq(128, i requires 0 <= i < 128 => q[i / 32 * 64 + i % 32] % 16 + q[i / 32 * 64 + 32 + i % 32] % 16 * 16)
  }

  function PackHigh5(q: seq<nat>): (qh: seq<Byte>)
    requires |q| == 256 && forall k | 0 <= k < 256 :: q[k] < 32
    ensures |qh| == 32
  {
    seq(32, j requires 0 <= j < 32 =>
      Octet(q[j] / 16, q[32 + j] / 16, q[64 + j] / 16, q[96 + j] / 16,
            q[128 + j] / 16, q[160 + j] / 16, q[192 + j] / 16, q[224 + j] / 16))
  }

  function Quants5(qs: seq<Byte>, qh: seq<Byte>): (q: seq<nat>)
    requires |qs| == 128 && |qh| == 32
    ensures |q| == 256 && forall k | 0 <= k < 256 :: q[k] == Quant5(qs, qh, k) < 32
  {
    seq(256, k requires 0 <= k < 256 => Quant5(qs, qh, k))
  }

  lemma Low5Reads(q: seq<nat>, k: nat)
    requires |q| == 256 && (forall j | 0 <= j < 256 :: q[j] < 32) && k < 256
    ensures Quant4(PackLow5(q), k) == q[k] % 16
  {
    var g, h, l := k / 64, k / 32 % 2, k % 32;
    Place4(g, h, l);
    assert k == g * 64 + h * 32 + l;
    TwoNibbles(q[g * 64 + l], q[g * 64 + 32 + l]);
  }

  lemma High5Reads(q: seq<nat>, sub: nat, j: nat)
    requires |q| == 256 && (forall j | 0 <= j < 256 :: q[j] < 32) && sub < 8 && j < 32
    ensures sub * 32 + j < 256 && Bit(PackHigh5(q)[j], sub) == q[sub * 32 + j] / 16
  {
    hide Bit, Octet;
    OctetBits(q[j] / 16, q[32 + j] / 16, q[64 + j] / 16, q[96 + j] / 16,
              q[128 + j] / 16, q[160 + j] / 16, q[192 + j] / 16, q[224 + j] / 16);
  }

  lemma Quant5Reads(q: seq<nat>, k: nat)
    requires |q| == 256 && (forall j | 0 <= j < 256 :: q[j] < 32) && k < 256
    ensures Quant5(PackLow5(q), PackHigh5(q), k) == q[k]
  {
    hide Quant4, Bit, PackLow5, PackHigh5;
    Low5Reads(q, k);
    High5Reads(q, k / 32, k % 32);
    assert k == k / 32 * 32 + k % 32;
  }

  lemma Quant5Parts(qs: seq<Byte>, qh: seq<Byte>, k: nat)
    requires |qs| == 128 && |qh| == 32 && k < 256
    ensures Quant5(qs, qh, k) % 16 == Quant4(qs, k) && Quant5(qs, qh, k) / 16 == Bit(qh[k % 32], k / 32)
  {
    hide Quant4, Bit;
  }

  lemma Low5Kept(qs: seq<Byte>, qh: seq<Byte>, i: nat)
    requires |qs| == 128 && |qh| == 32 && i < 128
    ensures PackLow5(Quants5(qs, qh))[i] == qs[i]
  {
    hide Quant5, Bit;
    var k := i / 32 * 64 + i % 32;
    Bytes4(i / 32, i % 32);
    assert i == i / 32 * 32 + i % 32;
    Quant5Parts(qs, qh, k);
    Quant5Parts(qs, qh, k + 32);
    ByteParts(qs[i], 0);
  }

  lemma High5Part(qs: seq<Byte>, qh: seq<Byte>, sub: nat, j: nat)
    requires |qs| == 128 && |qh| == 32 && sub < 8 && j < 32
    ensures sub * 32 + j < 256 && Quants5(qs, qh)[sub * 32 + j] / 16 == Bit(qh[j], sub)
  {
    hide Quant5, Bit, Quant4;
    SubIndex(sub, j);
    Quant5Parts(qs, qh, sub * 32 + j);
  }

  lemma High5Kept(qs: seq<Byte>, qh: seq<Byte>, j: nat)
    requires |qs| == 128 && |qh| == 32 && j < 32
    ensures PackHigh5(Quants5(qs, qh))[j] == qh[j]
  {
    hide Quant5, Bit, Quant4, Nibble;
    High5Part(qs, qh, 0, j);
    High5Part(qs, qh, 1, j);
    High5Part(qs, qh, 2, j);
    High5Part(qs, qh, 3, j);
    High5Part(qs, qh, 4, j);
    High5Part(qs, qh, 5, j);
    High5Part(qs, qh, 6, j);
    High5Part(qs, qh, 7, j);
    BitParts(qh[j]);
  }

  /** The two planes and the 256 five-bit quants determine each other: each nibble and each high bit is read exactly
      once. */
  lemma Fields5Once(q: seq<nat>, qs: seq<Byte>, qh: seq<Byte>)
    requires |q| == 256 && (forall k | 0 <= k < 256 :: q[k] < 32) && |qs| == 128 && |qh| == 32
    ensures Quants5(PackLow5(q), PackHigh5(q)) == q
    ensures PackLow5(Quants5(qs, qh)) == qs && PackHigh5(Quants5(qs, qh)) == qh
  {
    hide Quant5, PackLow5, PackHigh5;
    forall k | 0 <= k < 256 ensures Quant5(PackLow5(q), PackHigh5(q), k) == q[k] { Quant5Reads(q, k); }
    forall i | 0 <= i < 128 ensures PackLow5(Quants5(qs, qh))[i] == qs[i] { Low5Kept(qs, qh, i); }
    forall j | 0 <= j < 32 ensures PackHigh5(Quants5(qs, qh))[j] == qh[j] { High5Kept(qs, qh, j); }
  }

  // the two planes of Q6_K

  function PackLow6(q: seq<nat>): (ql: seq<Byte>)
    requires |q| == 256 && forall k | 0 <= k < 256 :: q[k] < 64
    ensures |ql| == 128
  {
    seq(128, i requires 0 <= i < 128 => q[i / 64 * 128 + i % 64] % 16 + q[i / 64 * 128 + 64 + i % 64] % 16 * 16)
  }

  function PackHigh6(q: seq<nat>): (qh: seq<Byte>)
    requires |q| == 256 && forall k | 0 <= k < 256 :: q[k] < 64
    ensures |qh| == 64
  {
    seq(64, i requires 0 <= i < 64 =>
      var k := i / 32 * 128 + i % 32; q[k] / 16 + q[k + 32] / 16 * 4 + q[k + 64] / 16 * 16 + q[k + 96] / 16 * 64)
  }

  function Quants6(ql: seq<Byte>, qh: seq<Byte>): (q: seq<nat>)
    requires |ql| == 128 && |qh| == 64
    ensures |q| == 256 && forall k | 0 <= k < 256 :: q[k] == Quant6(ql, qh, k) < 64
  {
    seq(256, k requires 0 <= k < 256 => Quant6(ql, qh, k))
  }

  lemma LowPlace(k: nat)
    requires k < 256
    ensures var i := k / 128 * 64 + k / 32 % 2 * 32 + k % 32;
      i < 128 && i / 64 == k / 128 && i % 64 == k / 32 % 2 * 32 + k % 32 && k == i / 64 * 128 + k / 64 % 2 * 64 + i % 64
  {
  }

  lemma HighPlace(k: nat)
    requires k < 256
    ensures var i := k / 128 * 32 + k % 32;
      i < 64 && i / 32 == k / 128 && i % 32 == k % 32 && k == i / 32 * 128 + k / 32 % 4 * 32 + i % 32
  {
  }

  lemma FourPairs(a: nat, b: nat, c: nat, d: nat)
    requires a < 4 && b < 4 && c < 4 && d < 4
    ensures var v := a + b * 4 + c * 16 + d * 64;
      v < 256 && v % 4 == a && v / 4 % 4 == b && v / 16 % 4 == c && v / 64 == d
  {
  }

  lemma LowReads(q: seq<nat>, k: nat)
    requires |q| == 256 && (forall j | 0 <= j < 256 :: q[j] < 64) && k < 256
    ensures Nibble(PackLow6(q)[k / 128 * 64 + k / 32 % 2 * 32 + k % 32], k / 64 % 2) == q[k] % 16
  {
    LowPlace(k);
    var i := k / 128 * 64 + k / 32 % 2 * 32 + k % 32;
    TwoNibbles(q[i / 64 * 128 + i % 64], q[i / 64 * 128 + 64 + i % 64]);
  }

  lemma HighReads(q: seq<nat>, k: nat)
    requires |q| == 256 && (forall j | 0 <= j < 256 :: q[j] < 64) && k < 256
    ensures Pair(PackHigh6(q)[k / 128 * 32 + k % 32], k / 32 % 4) == q[k] / 16
  {
    HighPlace(k);
    var i := k / 128 * 32 + k % 32;
    var k0 := i / 32 * 128 + i % 32;
    FourPairs(q[k0] / 16, q[k0 + 32] / 16, q[k0 + 64] / 16, q[k0 + 96] / 16);
  }

  /** The two planes and the 256 six-bit quants determine each other: each nibble and each pair is read exactly once. */
  lemma Fields6Once(q: seq<nat>, ql: seq<Byte>, qh: seq<Byte>)
    requires |q| == 256 && (forall k | 0 <= k < 256 :: q[k] < 64) && |ql| == 128 && |qh| == 64
    ensures Quants6(PackLow6(q), PackHigh6(q)) == q
    ensures PackLow6(Quants6(ql, qh)) == ql && PackHigh6(Quants6(ql, qh)) == qh
  {
    hide Nibble, Pair, Quant6, PackLow6, PackHigh6;
    forall k | 0 <= k < 256 ensures Quant6(PackLow6(q), PackHigh6(q), k) == q[k] { Quant6Reads(q, k); }
    forall i | 0 <= i < 128 ensures PackLow6(Quants6(ql, qh))[i] == ql[i] { LowKept(ql, qh, i); }
    forall i | 0 <= i < 64 ensures PackHigh6(Quants6(ql, qh))[i] == qh[i] { HighKept(ql, qh, i); }
  }

  lemma Quant6Reads(q: seq<nat>, k: nat)
    requires |q| == 256 && (forall j | 0 <= j < 256 :: q[j] < 64) && k < 256
    ensures Quant6(PackLow6(q), PackHigh6(q), k) == q[k]
  {
    hide Nibble, Pair, PackLow6, PackHigh6;
    LowReads(q, k);
    HighReads(q, k);
  }

  /** The two quants whose nibbles share byte half * 64 + w * 32 + l. */
  lemma LowByte(half: nat, w: nat, l: nat)
    requires half < 2 && w < 2 && l < 32
    ensures var i, k := half * 64 + w * 32 + l, half * 128 + w * 32 + l;
      && i < 128 && i / 64 == half && i % 64 == w * 32 + l && k + 64 < 256
      && k / 128 == half && k / 32 % 2 == w && k % 32 == l && k / 64 % 2 == 0
      && (k + 64) / 128 == half && (k + 64) / 32 % 2 == w && (k + 64) % 32 == l && (k + 64) / 64 % 2 == 1
  {
    assert (half * 128 + w * 32 + l) / 32 == half * 4 + w && (half * 128 + w * 32 + l) / 64 == half * 2;
    var k := half * 128 + w * 32 + l + 64;
    assert k / 32 == half * 4 + w + 2 && k / 64 == half * 2 + 1;
  }

  lemma LowKeptAt(ql: seq<Byte>, qh: seq<Byte>, half: nat, w: nat, l: nat)
    requires |ql| == 128 && |qh| == 64 && half < 2 && w < 2 && l < 32
    ensures PackLow6(Quants6(ql, qh))[half * 64 + w * 32 + l] == ql[half * 64 + w * 32 + l]
  {
    hide Pair, Quant6;
    var i, k := half * 64 + w * 32 + l, half * 128 + w * 32 + l;
    LowByte(half, w, l);
    QuantParts(ql, qh, k);
    QuantParts(ql, qh, k + 64);
    ByteParts(ql[i], 0);
  }

  lemma LowKept(ql: seq<Byte>, qh: seq<Byte>, i: nat)
    requires |ql| == 128 && |qh| == 64 && i < 128
    ensures PackLow6(Quants6(ql, qh))[i] == ql[i]
  {
    hide PackLow6, Quant6;
    LowKeptAt(ql, qh, i / 64, i / 32 % 2, i % 32);
    assert i == i / 64 * 64 + i / 32 % 2 * 32 + i % 32;
  }

  lemma QuantParts(ql: seq<Byte>, qh: seq<Byte>, k: nat)
    requires |ql| == 128 && |qh| == 64 && k < 256
    ensures Quant6(ql, qh, k) % 16 == Nibble(ql[k / 128 * 64 + k / 32 % 2 * 32 + k % 32], k / 64 % 2)
    ensures Quant6(ql, qh, k) / 16 == Pair(qh[k / 128 * 32 + k % 32], k / 32 % 4)
  {
    hide Nibble, Pair;
  }

  lemma PairParts(b: Byte)
    ensures Pair(b, 0) + Pair(b, 1) * 4 + Pair(b, 2) * 16 + Pair(b, 3) * 64 == b
  {
  }

  /** The four quants whose pairs share byte half * 32 + l. */
  lemma HighByte(half: nat, l: nat, t: nat)
    requires half < 2 && l < 32 && t < 4
    ensures var i, k := half * 32 + l, half * 128 + t * 32 + l;
      i < 64 && i / 32 == half && i % 32 == l && k < 256 && k / 128 == half && k % 32 == l && k / 32 % 4 == t
  {
    assert (half * 128 + t * 32 + l) / 32 == half * 4 + t;
  }

  lemma HighKeptAt(ql: seq<Byte>, qh: seq<Byte>, half: nat, l: nat)
    requires |ql| == 128 && |qh| == 64 && half < 2 && l < 32
    ensures PackHigh6(Quants6(ql, qh))[half * 32 + l] == qh[half * 32 + l]
  {
    hide Nibble, Pair, Quant6;
    HighPart(ql, qh, half, l, 0);
    HighPart(ql, qh, half, l, 1);
    HighPart(ql, qh, half, l, 2);
    HighPart(ql, qh, half, l, 3);
    PairParts(qh[half * 32 + l]);
    HighByte(half, l, 0);
  }

  lemma HighPart(ql: seq<Byte>, qh: seq<Byte>, half: nat, l: nat, t: nat)
    requires |ql| == 128 && |qh| == 64 && half < 2 && l < 32 && t < 4
    ensures Quants6(ql, qh)[half * 128 + t * 32 + l] / 16 == Pair(qh[half * 32 + l], t)
  {
    hide Nibble, Pair, Quant6;
    HighByte(half, l, t);
    QuantParts(ql, qh, half * 128 + t * 32 + l);
  }

  lemma HighKept(ql: seq<Byte>, qh: seq<Byte>, i: nat)
    requires |ql| == 128 && |qh| == 64 && i < 64
    ensures PackHigh6(Quants6(ql, qh))[i] == qh[i]
  {
    hide PackHigh6, Quant6;
    HighKeptAt(ql, qh, i / 32, i % 32);
    assert i == i / 32 * 32 + i % 32;
  }
}
