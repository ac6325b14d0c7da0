/** The hand-written binary32 to binary16 conversion, on bit patterns: a shift right by k is a
    division by 2^k, a mask a remainder, and an or of disjoint fields a sum. */
module Half {
  function Pow2(k: nat): (p: nat)
    ensures p > 0
  {
    if k == 0 then 1 else 2 * Pow2(k - 1)
  }

  /** Products are named so that a proof can leave them unexpanded. */
  function Times(a: nat, b: nat): nat { a * b }

  function Quot(m: nat, d: nat): (q: nat)
    requires d > 0
  {
    m / d
  }

  function Rem(m: nat, d: nat): (r: nat)
    requires d > 0
    ensures r < d
  {
    m % d
  }

  lemma QuotRem(m: nat, d: nat)
    requires d > 0
    ensures m == Times(Quot(m, d), d) + Rem(m, d)
  {
  }

  lemma {:induction false} PowSum(a: nat, b: nat)
    ensures Pow2(a + b) == Times(Pow2(a), Pow2(b))
  {
    if a > 0 { PowSum(a - 1, b); }
  }

  lemma {:induction false} PowMonotone(a: nat, b: nat)
    requires a <= b
    ensures Pow2(a) <= Pow2(b)
  {
    if a < b { PowMonotone(a, b - 1); }
  }

  lemma Distribute(a: nat, b: nat, u: nat)
    ensures Times(a + b, u) == Times(a, u) + Times(b, u)
  {
  }

  lemma Regroup(a: nat, b: nat, c: nat)
    ensures Times(Times(a, b), c) == Times(a, Times(b, c))
  {
  }

  lemma TimesMonotone(a: nat, b: nat, c: nat, d: nat)
    requires a <= b && c <= d
    ensures Times(a, c) <= Times(b, d)
  {
    assert b * d == a * c + a * (d - c) + (b - a) * d;
  }

  lemma TimesLess(a: nat, b: nat, c: nat)
    requires a < b && c > 0
    ensures Times(a, c) < Times(b, c)
  {
  }

  lemma SmallPowers()
    ensures Pow2(0) == 1 && Pow2(1) == 2 && Pow2(4) == 16 && Pow2(5) == 32 && Pow2(10) == 1024 && Pow2(12) == 4096
        && Pow2(13) == 8192
    ensures Pow2(14) == 16384 && Pow2(23) == 0x800000 && Pow2(24) == 0x1000000
  {
    assert Pow2(4) == 16;
    PowSum(4, 4);
    PowSum(8, 4);
    PowSum(12, 11);
    assert Pow2(23) == 4096 * 2048;
  }

  // ---- what the bit patterns mean ------------------------------------------------------------

  const INF16: nat := 0x7C00

  function Exp32(x: nat): nat { x / 0x800000 % 256 }

  function Man32(x: nat): nat { x % 0x800000 }

  /** The magnitude of a binary32 in units of 2^-149. Infinity takes the next power of two. */
  function Mag32(x: nat): nat {
    if Exp32(x) == 0 then Man32(x) else Times(Man32(x) + 0x800000, Pow2(Exp32(x) - 1))
  }

  predicate Nan32(x: nat) { Exp32(x) == 255 && Man32(x) != 0 }

  /** The magnitude of a binary16 in units of 2^-24; infinity counts as 65536, the value after the largest. */
  function Mag16(h: nat): nat {
    if h < 1024 then h else Times(h % 1024 + 1024, Pow2(h / 1024 - 1))
  }

  /** The same in units of 2^-149. */
  function Grid(h: nat): nat { Times(Mag16(h), Pow2(125)) }

  function Dist(a: nat, b: nat): nat { if a < b then b - a else a - b }

  /** r is nearest to x among all binary16 magnitudes up to infinity, and even when another is as near. */
  ghost predicate NearestEven(x: nat, r: nat) {
    r <= INF16 &&
    forall h | 0 <= h <= INF16 && h != r ::
      Dist(Grid(r), x) < Dist(Grid(h), x) || (Dist(Grid(r), x) == Dist(Grid(h), x) && r % 2 == 0)
  }

  // ---- the conversion, as written ------------------------------------------------------------

  /** Up past half, and at half from an odd value. */
  function RoundUp(h: nat, rem: nat, half: nat): nat {
    if rem > half || (rem == half && h % 2 == 1) then h + 1 else h
  }

  /** Shift right by k, rounding to nearest, ties to even. */
  function RoundShift(m: nat, k: nat): nat
    requires k > 0
  {
    RoundUp(Quot(m, Pow2(k)), Rem(m, Pow2(k)), Pow2(k - 1))
  }

  function Sign(x: nat): nat { x / 0x80000000 % 2 }

  function Magnitude16(x: nat): nat {
    var e := Exp32(x) - 127 + 15;
    var m := Man32(x);
    if e >= 31 then INF16
    else if e <= 0 then
      if e < -10 then 0 else RoundShift(m + 0x800000, 14 - e)
    else e * 1024 + RoundShift(m, 13)
  }

  /** The sign bit, then the magnitude's bits. */
  function Ff16(x: nat): nat { Sign(x) * 0x8000 + Magnitude16(x) }

  // ---- the grid -------------------------------------------------------------------------

  lemma GridStep(h: nat)
    requires h < INF16
    ensures Mag16(h + 1) == Mag16(h) + Pow2(if h < 1024 then 0 else h / 1024 - 1)
  {
    if h >= 1024 {
      var e, m := h / 1024, h % 1024;
      if m == 1023 {
        assert (h + 1) / 1024 == e + 1 && (h + 1) % 1024 == 0;
        assert Pow2(e) == 2 * Pow2(e - 1);
        CarryStep(Pow2(e - 1));
      } else {
        assert (h + 1) / 1024 == e && (h + 1) % 1024 == m + 1;
        hide Pow2;
        PlainStep(m, Pow2(e - 1));
      }
    }
  }

  lemma CarryStep(p: nat)
    ensures Times(1024, 2 * p) == Times(1023 + 1024, p) + p
  {
  }

  lemma PlainStep(m: nat, p: nat)
    ensures Times(m + 1 + 1024, p) == Times(m + 1024, p) + p
  {
  }

  lemma {:induction false} GridMonotone(g: nat, h: nat)
    requires g <= h <= INF16
    ensures Mag16(g) <= Mag16(h) && Grid(g) <= Grid(h)
    ensures g < h ==> Grid(g) < Grid(h)
    decreases h - g
  {
    hide Times, Mag16, Pow2;
    if g < h {
      GridMonotone(g, h - 1);
      GridStep(h - 1);
      TimesLess(Mag16(g), Mag16(h), Pow2(125));
    }
  }

  /** Rounding between two neighbours rounds among all. */
  lemma BetweenNeighbours(x: nat, h: nat, r: nat)
    requires h < INF16 && Grid(h) <= x <= Grid(h + 1)
    requires r == h || r == h + 1
    requires var lo, hi := x - Grid(h), Grid(h + 1) - x; if lo < hi then r == h else if hi < lo then r
        == h + 1 else r % 2 == 0
    ensures NearestEven(x, r)
  {
    hide Grid;
    GridMonotone(h, h + 1);
    forall g | 0 <= g <= INF16 && g != r
      ensures Dist(Grid(r), x) < Dist(Grid(g), x) || (Dist(Grid(r), x) == Dist(Grid(g), x) && r % 2 == 0)
    {
      if g < h { GridMonotone(g, h); } else if g > h + 1 { GridMonotone(h + 1, g); }
    }
  }

  lemma Compare(rem: nat, half: nat, unit: nat, gap: nat)
    requires unit > 0 && rem < 2 * half && gap == Times(2 * half, unit)
    ensures Times(rem, unit) < gap
    ensures rem < half ==> Times(rem, unit) < gap - Times(rem, unit)
    ensures rem > half ==> Times(rem, unit) > gap - Times(rem, unit)
    ensures rem == half ==> Times(rem, unit) == gap - Times(rem, unit)
  {
    TimesLess(rem, 2 * half, unit);
    if rem < half { TimesLess(rem, 2 * half - rem, unit); } else if rem > half { TimesLess(2 * half - rem, rem, unit); }
    Distribute(rem, 2 * half - rem, unit);
  }

  /** x lies rem units above grid point h, whose gap to the next is 2^k units. */
  lemma RoundsTo(x: nat, h: nat, rem: nat, k: nat, unit: nat)
    requires h < INF16 && k > 0 && unit > 0 && rem < Pow2(k)
    requires x == Grid(h) + Times(rem, unit) && Grid(h + 1) == Grid(h) + Times(Pow2(k), unit)
    ensures NearestEven(x, RoundUp(h, rem, Pow2(k - 1)))
  {
    assert Pow2(k) == 2 * Pow2(k - 1);
    hide Grid, Times, Pow2, NearestEven;
    Compare(rem, Pow2(k - 1), unit, Times(Pow2(k), unit));
    BetweenNeighbours(x, h, RoundUp(h, rem, Pow2(k - 1)));
  }

  // ---- every branch rounds to nearest even ------------------------------------------------

  lemma NormalValue(x: nat)
    requires Exp32(x) > 0
    ensures Mag32(x) == Times(Man32(x) + 0x800000, Pow2(Exp32(x) - 1))
  {
  }

  /** x in the scale of its binade: 1024 + q grid steps of 2^13 units, and rem units. */
  lemma NormalAlgebra(q: nat, rem: nat, p: nat, s: nat, unit: nat)
    requires Times(p, s) == Times(8192, unit)
    ensures Times(q * 8192 + rem + 0x800000, unit) == Times(Times(q + 1024, p), s) + Times(rem, unit)
    ensures Times(Times(q + 1024, p) + p, s) == Times(Times(q + 1024, p), s) + Times(8192, unit)
  {
    Regroup(q + 1024, p, s);
    Regroup(q + 1024, 8192, unit);
    Distribute(Times(q + 1024, 8192), rem, unit);
    Distribute(Times(q + 1024, p), p, s);
  }

  lemma NormalPoint(e: nat, q: nat)
    requires 1 <= e <= 30 && q < 1024
    ensures var h := e * 1024 + q;
      && h < INF16 && Mag16(h) == Times(q + 1024, Pow2(e - 1))
      && Mag16(h + 1) == Times(q + 1024, Pow2(e - 1)) + Pow2(e - 1)
  {
    hide Pow2, Times;
    var h := e * 1024 + q;
    assert h / 1024 == e && h % 1024 == q;
    GridStep(h);
  }

  lemma NormalRounding(x: nat, e: nat, q: nat, rem: nat)
    requires Exp32(x) == e + 112 && 1 <= e <= 30 && Man32(x) == q * 8192 + rem && rem < 8192
    ensures Magnitude16(x) == RoundUp(e * 1024 + q, rem, 4096)
  {
    SmallPowers();
    hide Pow2;
    assert (e * 1024 + q) % 2 == q % 2;
    assert RoundUp(e * 1024 + q, rem, 4096) == e * 1024 + RoundUp(q, rem, 4096);
  }

  lemma NormalPlaced(x: nat, e: nat, q: nat, rem: nat)
    requires Exp32(x) == e + 112 && 1 <= e <= 30 && Man32(x) == q * 8192 + rem && q < 1024
    ensures var h, unit := e * 1024 + q, Pow2(e + 111);
      h < INF16 && Mag32(x) == Grid(h) + Times(rem, unit) && Grid(h + 1) == Grid(h) + Times(8192, unit)
  {
    hide Pow2, Times, Mag16, Mag32, Exp32, Man32;
    SmallPowers();
    PowSum(e - 1, 125);
    PowSum(13, e + 111);
    NormalValue(x);
    NormalPoint(e, q);
    NormalAlgebra(q, rem, Pow2(e - 1), Pow2(125), Pow2(e + 111));
  }

  lemma NormalRounds(x: nat)
    requires 113 <= Exp32(x) <= 142
    ensures NearestEven(Mag32(x), Magnitude16(x))
  {
    var e, q, rem := Exp32(x) - 112, Man32(x) / 8192, Man32(x) % 8192;
    hide Pow2, NearestEven, Magnitude16, RoundUp, Times, Grid, Mag32, Exp32;
    SmallPowers();
    NormalPlaced(x, e, q, rem);
    NormalRounding(x, e, q, rem);
    RoundsTo(Mag32(x), e * 1024 + q, rem, 13, Pow2(e + 111));
  }

  lemma SmallGrid(h: nat)
    requires h < 1024
    ensures Grid(h) == Times(h, Pow2(125)) && Grid(h + 1) == Grid(h) + Pow2(125)
  {
    SmallPowers();
    hide Pow2;
    Distribute(h, 1, Pow2(125));
    GridStep(h);
  }

  lemma SubnormalSmall(m: nat, sh: nat)
    requires m < 0x1000000 && sh >= 14
    ensures Quot(m, Pow2(sh)) < 1024
  {
    SmallPowers();
    PowMonotone(14, sh);
    QuotRem(m, Pow2(sh));
    if Quot(m, Pow2(sh)) >= 1024 { TimesMonotone(1024, Quot(m, Pow2(sh)), 16384, Pow2(sh)); }
  }

  lemma SubnormalRounding(x: nat, sh: nat)
    requires Exp32(x) + sh == 126 && 14 <= sh <= 24
    ensures Magnitude16(x) == RoundShift(Man32(x) + 0x800000, sh)
  {
  }

  lemma SubnormalRounds(x: nat)
    requires 102 <= Exp32(x) <= 112
    ensures NearestEven(Mag32(x), Magnitude16(x))
  {
    var m, sh: nat := Man32(x) + 0x800000, 126 - Exp32(x);
    var unit, h, rem := Pow2(125 - sh), Quot(m, Pow2(sh)), Rem(m, Pow2(sh));
    assert m < 0x1000000;
    hide Pow2, NearestEven, Grid, Magnitude16, RoundUp, Times, Quot, Rem, Exp32, Man32;
    NormalValue(x);
    SubnormalRounding(x, sh);
    SubnormalSmall(m, sh);
    PowSum(sh, 125 - sh);
    SmallGrid(h);
    QuotRem(m, Pow2(sh));
    Distribute(Times(h, Pow2(sh)), rem, unit);
    Regroup(h, Pow2(sh), unit);
    RoundsTo(Mag32(x), h, rem, sh, unit);
  }

  lemma TinyValue(x: nat)
    requires Exp32(x) < 102
    ensures Mag32(x) < Pow2(124)
  {
    hide Pow2, Mag32, Times, Exp32;
    var e, m := Exp32(x), Man32(x) + 0x800000;
    SmallPowers();
    if e == 0 {
      ZeroValue(x);
      PowMonotone(23, 124);
    } else {
      NormalValue(x);
      PowMonotone(e - 1, 100);
      PowSum(24, 100);
      TimesMonotone(m, m, Pow2(e - 1), Pow2(100));
      TimesLess(m, Pow2(24), Pow2(100));
    }
  }

  lemma ZeroValue(x: nat)
    requires Exp32(x) == 0
    ensures Mag32(x) == Man32(x) < 0x800000
  {
  }

  /** Below half the smallest binary16 everything rounds to zero. */
  lemma TinyRounds(x: nat)
    requires Exp32(x) < 102
    ensures NearestEven(Mag32(x), Magnitude16(x))
  {
    TinyValue(x);
    SmallGrid(0);
    assert Pow2(125) == 2 * Pow2(124);
    assert Times(0, Pow2(125)) == 0;
    hide Pow2, Grid, Mag32, NearestEven, Times;
    BetweenNeighbours(Mag32(x), 0, 0);
  }

  lemma InfinityValue()
    ensures Grid(INF16) == Pow2(165)
  {
    SmallPowers();
    PowSum(10, 30);
    PowSum(40, 125);
  }

  lemma HugeValue(x: nat)
    requires Exp32(x) >= 143
    ensures Pow2(165) <= Mag32(x)
  {
    SmallPowers();
    PowMonotone(142, Exp32(x) - 1);
    PowSum(23, 142);
    NormalValue(x);
    hide Pow2, Mag32, Times;
    TimesMonotone(0x800000, Man32(x) + 0x800000, Pow2(142), Pow2(Exp32(x) - 1));
  }

  /** From 65536 on everything, infinity included, rounds to infinity. */
  lemma HugeRounds(x: nat)
    requires Exp32(x) >= 143
    ensures NearestEven(Mag32(x), Magnitude16(x))
  {
    HugeValue(x);
    InfinityValue();
    hide Grid, Mag32, Pow2;
    forall g | 0 <= g <= INF16 && g != INF16
      ensures Dist(Grid(INF16), Mag32(x)) < Dist(Grid(g), Mag32(x))
    {
      GridMonotone(g, INF16);
    }
  }

  /** The conversion rounds every non-NaN binary32, subnormals, ties, carries and overflow included, to the nearest
      binary16, ties to even, and keeps the sign. */
  lemma RoundsToNearestEven(x: nat)
    requires x < 0x100000000 && !Nan32(x)
    ensures NearestEven(Mag32(x), Ff16(x) % 0x8000) && Ff16(x) / 0x8000 == Sign(x)
  {
    hide NearestEven, Mag32, Magnitude16;
    if Exp32(x) < 102 { TinyRounds(x); } else if Exp32(x) <= 112 { SubnormalRounds(x); }
    else if Exp32(x) <= 142 { NormalRounds(x); } else { HugeRounds(x); }
    NearestBounded(Mag32(x), Magnitude16(x));
  }

  lemma NearestBounded(x: nat, r: nat)
    requires NearestEven(x, r)
    ensures r <= INF16
  {
  }

  // ---- monotone, inverse, idempotent ----------------------------------------------------------

  /** The nearest of a larger value is no smaller. */
  lemma NearestMonotone(x: nat, y: nat, r: nat, s: nat)
    requires x <= y && NearestEven(x, r) && NearestEven(y, s)
    ensures r <= s
  {
    hide Grid;
    if s < r {
      GridMonotone(s, s + 1);
      GridMonotone(s + 1, r);
    }
  }

  /** The conversion is monotone on magnitudes. */
  lemma Monotone(x: nat, y: nat)
    requires x < 0x100000000 && y < 0x100000000 && !Nan32(x) && !Nan32(y) && Mag32(x) <= Mag32(y)
    ensures Ff16(x) % 0x8000 <= Ff16(y) % 0x8000
  {
    hide NearestEven, Mag32, Ff16;
    RoundsToNearestEven(x);
    RoundsToNearestEven(y);
    NearestMonotone(Mag32(x), Mag32(y), Ff16(x) % 0x8000, Ff16(y) % 0x8000);
  }

  function Value32(x: nat): int {
    var m: int := Mag32(x);
    if Sign(x) == 1 then -m else m
  }

  function Value16(h: nat): int {
    var m: int := Grid(h % 0x8000);
    if h / 0x8000 == 1 then -m else m
  }

  /** The conversion is monotone over both signs. */
  lemma SignedMonotone(x: nat, y: nat)
    requires x < 0x100000000 && y < 0x100000000 && !Nan32(x) && !Nan32(y) && Value32(x) <= Value32(y)
    ensures Value16(Ff16(x)) <= Value16(Ff16(y))
  {
    hide NearestEven, Mag32, Grid, Ff16, Nan32;
    RoundsToNearestEven(x);
    RoundsToNearestEven(y);
    var r, s := Ff16(x) % 0x8000, Ff16(y) % 0x8000;
    NearestBounded(Mag32(x), r);
    NearestBounded(Mag32(y), s);
    if Sign(x) == 0 && Sign(y) == 0 {
      Monotone(x, y);
      GridMonotone(r, s);
    } else if Sign(x) == 1 && Sign(y) == 1 {
      Monotone(y, x);
      GridMonotone(s, r);
    } else if Sign(x) == 0 {
      // both are zeros
      Monotone(x, y);
      Monotone(y, x);
      RoundsZero(x);
    }
  }

  lemma RoundsZero(x: nat)
    requires x < 0x100000000 && Mag32(x) == 0
    ensures Grid(Ff16(x) % 0x8000) == 0
  {
    ZeroMagnitude(x);
    ZeroGrid();
    hide Grid, Sign, Mag32, Magnitude16, Exp32;
    SignBit(x);
  }

  lemma SignBit(x: nat)
    ensures Sign(x) < 2
  {
  }

  lemma ZeroMagnitude(x: nat)
    requires Mag32(x) == 0
    ensures Exp32(x) == 0 && Magnitude16(x) == 0
  {
    hide Pow2, Exp32, Man32, Times, RoundShift;
    if Exp32(x) > 0 { TimesLess(0, Man32(x) + 0x800000, Pow2(Exp32(x) - 1)); }
  }

  /** A value on the grid is its own nearest. */
  lemma NearestExact(h: nat, r: nat)
    requires h <= INF16 && NearestEven(Grid(h), r)
    ensures r == h
  {
    if r < h { GridMonotone(r, h); } else if r > h && r <= INF16 { GridMonotone(h, r); }
  }

  function Log2(m: nat): (k: nat)
    requires m > 0
    ensures Pow2(k) <= m < 2 * Pow2(k)
  {
    if m == 1 then 0 else Log2(m / 2) + 1
  }

  predicate Nan16(h: nat) { h / 1024 % 32 == 31 && h % 1024 != 0 }

  /** The binary32 bits of a binary16, as ldexp gives them: a subnormal is normalised. */
  function F16f(h: nat): (x: nat) {
    var s, e, m := h / 0x8000 % 2, h / 1024 % 32, h % 1024;
    s * 0x80000000 +
    if e == 0 then
      if m == 0 then 0
      else var k := Log2(m); (k + 103) * 0x800000 + Times(m - Pow2(k), Pow2(if k <= 23 then 23 - k else 0))
    else if e == 31 then (if m != 0 then 0x7FC00000 else 0x7F800000)
    else (e + 112) * 0x800000 + m * 8192
  }

  lemma Fields(s: nat, e: nat, m: nat)
    requires s < 2 && e < 256 && m < 0x800000
    ensures var x := s * 0x80000000 + (e * 0x800000 + m);
      x < 0x100000000 && Sign(x) == s && Exp32(x) == e && Man32(x) == m
  {
  }

  lemma NormalWidens(h: nat)
    requires 1024 <= h < INF16
    ensures Times(h % 1024 * 8192 + 0x800000, Pow2(h / 1024 + 111)) == Grid(h)
  {
    hide Pow2, Times;
    var e, m := h / 1024, h % 1024;
    SmallPowers();
    PowSum(13, e + 111);
    PowSum(e - 1, 125);
    NormalAlgebra(m, 0, Pow2(e - 1), Pow2(125), Pow2(e + 111));
    assert Times(0, Pow2(e + 111)) == 0 by { TimesZero(Pow2(e + 111)); }
  }

  lemma TimesZero(u: nat)
    ensures Times(0, u) == 0
  {
  }

  lemma SubnormalBits(m: nat, k: nat)
    requires 0 < m < 1024 && Pow2(k) <= m < 2 * Pow2(k)
    ensures k < 10 && Times(m - Pow2(k), Pow2(23 - k)) < 0x800000
    ensures Times(Times(m - Pow2(k), Pow2(23 - k)) + 0x800000, Pow2(k + 102)) == Times(m, Pow2(125))
  {
    SmallPowers();
    if k >= 10 { PowMonotone(10, k); }
    PowSum(k, 23 - k);
    PowSum(23 - k, k + 102);
    hide Pow2, Times;
    TimesLess(m - Pow2(k), Pow2(k), Pow2(23 - k));
    Distribute(m - Pow2(k), Pow2(k), Pow2(23 - k));
    Regroup(m, Pow2(23 - k), Pow2(k + 102));
  }

  lemma SubnormalWidens(h: nat, s: nat, m: nat)
    requires s < 2 && 0 < m < 1024 && h == s * 0x8000 + m
    ensures var x := F16f(h); x < 0x100000000 && Exp32(x) < 255 && Mag32(x) == Grid(m) && Sign(x) == s
  {
    hide Pow2, Times, Exp32, Man32, Sign, Mag32;
    var k := Log2(m);
    SubnormalBits(m, k);
    var f := Times(m - Pow2(k), Pow2(23 - k));
    Fields(s, k + 103, f);
    assert h / 0x8000 % 2 == s && h / 1024 % 32 == 0 && h % 1024 == m;
    assert F16f(h) == s * 0x80000000 + ((k + 103) * 0x800000 + f);
    NormalValue(F16f(h));
  }

  lemma NormalWidensExactly(h: nat, s: nat, e: nat, m: nat)
    requires s < 2 && 1 <= e <= 30 && m < 1024 && h == s * 0x8000 + e * 1024 + m
    ensures var x := F16f(h); x < 0x100000000 && Exp32(x) < 255 && Mag32(x) == Grid(e * 1024 + m) && Sign(x) == s
  {
    hide Pow2, Times, Exp32, Man32, Sign, Mag32, Grid;
    var g := e * 1024 + m;
    assert g / 1024 == e && g % 1024 == m;
    NormalWidens(g);
    Fields(s, e + 112, m * 8192);
    assert h / 0x8000 % 2 == s && h / 1024 % 32 == e && h % 1024 == m;
    assert F16f(h) == s * 0x80000000 + ((e + 112) * 0x800000 + m * 8192);
    NormalValue(F16f(h));
  }

  lemma ZeroGrid()
    ensures Grid(0) == 0
  {
    hide Pow2;
    TimesZero(Pow2(125));
  }

  lemma ZeroWidens(h: nat, s: nat)
    requires s < 2 && h == s * 0x8000
    ensures var x := F16f(h); x < 0x100000000 && Exp32(x) < 255 && Mag32(x) == Grid(0) && Sign(x) == s
  {
    hide Exp32, Man32, Sign, Pow2, Grid, Times;
    ZeroGrid();
    Fields(s, 0, 0);
    assert h / 0x8000 % 2 == s && h / 1024 % 32 == 0 && h % 1024 == 0;
    assert F16f(h) == s * 0x80000000 + (0 * 0x800000 + 0);
  }

  /** Widening is exact. */
  lemma WidensExactly(h: nat)
    requires h < 0x10000 && h % 0x8000 < INF16
    ensures var x := F16f(h); x < 0x100000000 && !Nan32(x) && Mag32(x) == Grid(h % 0x8000) && Sign(x) == h / 0x8000
  {
    hide F16f, Mag32, Grid, Exp32, Man32, Sign;
    var s, g := h / 0x8000, h % 0x8000;
    if g == 0 {
      ZeroWidens(h, s);
    } else if g < 1024 {
      SubnormalWidens(h, s, g);
    } else {
      NormalWidensExactly(h, s, g / 1024, g % 1024);
    }
  }

  lemma InfinityInverse(h: nat, s: nat)
    requires s < 2 && h == s * 0x8000 + INF16
    ensures F16f(h) < 0x100000000 && !Nan32(F16f(h)) && Ff16(F16f(h)) == h
  {
    hide Exp32, Man32, Sign, Pow2, RoundShift, Times;
    Fields(s, 255, 0);
    assert h / 0x8000 % 2 == s && h / 1024 % 32 == 31 && h % 1024 == 0;
    assert F16f(h) == s * 0x80000000 + (255 * 0x800000 + 0);
  }

  /** Narrowing inverts widening, on infinities too. */
  lemma Inverse(h: nat)
    requires h < 0x10000 && !Nan16(h)
    ensures F16f(h) < 0x100000000 && !Nan32(F16f(h)) && Ff16(F16f(h)) == h
  {
    hide F16f, NearestEven, Grid, Mag32, Ff16, Nan32;
    if h % 0x8000 == INF16 {
      InfinityInverse(h, h / 0x8000);
    } else {
      WidensExactly(h);
      RoundsToNearestEven(F16f(h));
      NearestExact(h % 0x8000, Ff16(F16f(h)) % 0x8000);
    }
  }

  function R16(x: nat): nat { F16f(Ff16(x)) }

  /** Rounding through binary16 twice is rounding once. */
  lemma Idempotent(x: nat)
    requires x < 0x100000000 && !Nan32(x)
    ensures R16(R16(x)) == R16(x)
  {
    hide NearestEven, Mag32, F16f, Ff16, Nan32;
    RoundsToNearestEven(x);
    NearestBounded(Mag32(x), Ff16(x) % 0x8000);
    Inverse(Ff16(x));
  }

  /** A NaN is not kept: its exponent sends it to infinity. */
  lemma NanBecomesInfinity(x: nat)
    requires x < 0x100000000 && Nan32(x)
    ensures Ff16(x) == Sign(x) * 0x8000 + INF16
  {
  }

  /** Overflow starts at 65520: from the midpoint above the largest finite value on, the result is infinity. */
  lemma OverflowAt65520(x: nat)
    requires x < 0x100000000 && !Nan32(x)
    ensures Ff16(x) % 0x8000 == INF16 <==> Mag32(x) >= Times(65520, Pow2(149))
  {
    hide NearestEven, Mag32, Ff16;
    RoundsToNearestEven(x);
    var r := Ff16(x) % 0x8000;
    NearestBounded(Mag32(x), r);
    LastGap();
    LastRounding(Mag32(x), r);
  }

  lemma LastPowers()
    ensures Pow2(149) == Times(Pow2(24), Pow2(125)) && Pow2(153) == Times(16, Pow2(149)) && Pow2(154) == 2 * Pow2(153)
    ensures Pow2(29) == Times(32, Pow2(24)) && Pow2(154) == Times(Pow2(29), Pow2(125))
    ensures Mag16(INF16 - 1) == Times(2047, Pow2(29))
  {
    hide Pow2;
    SmallPowers();
    PowSum(24, 125);
    PowSum(4, 149);
    PowSum(5, 24);
    PowSum(29, 125);
    PowSum(1, 153);
    assert Times(2, Pow2(153)) == 2 * Pow2(153);
  }

  lemma LastGap()
    ensures Times(65520, Pow2(149)) == Grid(INF16 - 1) + Pow2(153) && Grid(INF16) == Grid(INF16 - 1) + 2 * Pow2(153)
  {
    hide Pow2, Times, Mag16;
    LastPowers();
    GridStep(INF16 - 1);
    Distribute(Mag16(INF16 - 1), Pow2(29), Pow2(125));
    Regroup(2047, Pow2(29), Pow2(125));
    Regroup(32, Pow2(24), Pow2(125));
    Widened(Pow2(149));
  }

  lemma Widened(u: nat)
    ensures Times(65520, u) == Times(2047, Times(32, u)) + Times(16, u)
  {
  }

  lemma LastRounding(v: nat, r: nat)
    requires NearestEven(v, r) && Grid(INF16) == Grid(INF16 - 1) + 2 * Pow2(153)
    ensures r == INF16 <==> v >= Grid(INF16 - 1) + Pow2(153)
  {
    hide Grid, Pow2;
    if r < INF16 - 1 { GridMonotone(r, INF16 - 1); }
  }

  lemma WidenedNormal(h: nat, s: nat, e: nat, m: nat)
    requires s < 2 && 1 <= e <= 30 && m < 1024 && h == s * 0x8000 + e * 1024 + m
    ensures F16f(h) == s * 0x80000000 + (e + 112) * 0x800000 + m * 8192
  {
    hide Pow2, Times, Log2;
    assert h / 0x8000 % 2 == s && h / 1024 % 32 == e && h % 1024 == m;
  }

  lemma WidenedLeast()
    ensures F16f(1) == 0x33800000
  {
    assert Log2(1) == 0 && Pow2(0) == 1;
    TimesZero(Pow2(23));
    hide Pow2, Times;
    assert 1 - Pow2(0) == 0;
  }

  /** Known values: one, the largest binary16, the least subnormal, and minus two, each way. */
  lemma KnownValues()
    ensures F16f(0x3C00) == 0x3F800000 && Ff16(0x3F800000) == 0x3C00
    ensures F16f(0x7BFF) == 0x477FE000 && Ff16(0x477FE000) == 0x7BFF
    ensures F16f(0x0001) == 0x33800000 && Ff16(0x33800000) == 0x0001
    ensures F16f(0xC000) == 0xC0000000 && Ff16(0xC0000000) == 0xC000
  {
    hide F16f, Ff16;
    WidenedNormal(0x3C00, 0, 15, 0);
    WidenedNormal(0x7BFF, 0, 30, 1023);
    WidenedNormal(0xC000, 1, 16, 0);
    WidenedLeast();
    Inverse(0x3C00);
    Inverse(0x7BFF);
    Inverse(0x0001);
    Inverse(0xC000);
  }
}
