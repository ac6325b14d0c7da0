/** The blocks of the GLM-5.3-Flash model: what one block keeps of a sequence, a
    chunk forward over it, and its part of the snapshot, restore and commit
    operations speculative decoding needs.

    A device row (a hidden row, a latent, an indexer key with its gate, a pooled
    key, a recurrent state) is a finite bit string, named here by an integer.
    The kernels are arbitrary functions on rows, so everything below holds for
    every choice of weights. */
module Blocks {
  import opened Arith

  type Val = int

  /** The spec-verify capture holds this many rows. */
  const K_SPEC_MAX: nat := 8

  type Pos = n: nat | n > 0 witness 1

  datatype Config = Config(kpool: Pos, sparse: bool, topK: nat, maxCtx: nat, maxChunk: nat)

  /** A linear-attention block: a causal convolution, then a recurrent scan. */
  datatype KdaKernels = KdaKernels(
    proj: Val -> Val,             // hidden row -> convolution input
    conv: (Val, Val) -> Val,      // convolution state, input -> next state
    convOut: (Val, Val) -> Val,   // convolution state, input -> output
    scanIn: (Val, Val) -> Val,    // hidden row, convolution output -> scan input
    scan: (Val, Val) -> Val,      // scan state, scan input -> next state
    out: (Val, Val, Val) -> Val)  // hidden row, scan state, scan input -> next hidden row

  /** A full-attention block: a latent cache, and an indexer that selects over pooled keys. */
  datatype MlaKernels = MlaKernels(
    lat: Val -> Val,                              // hidden row -> latent
    key: Val -> Val,                              // hidden row -> indexer key and gate
    pool: seq<Val> -> Val,                        // the members' keys and gates -> pooled key
    attend: (Val, seq<Val>, seq<Val>) -> Val)     // hidden row, visible latents, visible pools -> next hidden row

  datatype Layer = KdaLayer(k: KdaKernels) | MlaLayer(m: MlaKernels)

  datatype LayerState = KdaState(conv: Val, scan: Val) | MlaState(lat: seq<Val>, pools: seq<Val>, roll: seq<Val>)

  /** A layer's part of a snapshot. Cache rows are not copied: a rewind leaves those it still needs where they are. */
  datatype LayerSnap = KdaSnap(conv: Val, scan: Val) | MlaSnap(roll: seq<Val>)

  /** The rows a spec-verify forward records of a layer. */
  datatype LayerCapture = KdaCapture(convIn: seq<Val>, scanIn: seq<Val>) | MlaCapture(keys: seq<Val>)

  // ---- sequence idiom ---------------------------------------------------------

  function Front(xs: seq<Val>): seq<Val>
    requires |xs| > 0
  {
    xs[..|xs| - 1]
  }

  function Last(xs: seq<Val>): Val
    requires |xs| > 0
  {
    xs[|xs| - 1]
  }

  function MapRows(f: Val -> Val, xs: seq<Val>): (ys: seq<Val>)
    ensures |ys| == |xs| && forall i | 0 <= i < |xs| :: ys[i] == f(xs[i])
  {
    seq(|xs|, i requires 0 <= i < |xs| => f(xs[i]))
  }

  // ---- the reference: what a block computes for the last row of a history, with no cache ----

  function ConvAt(k: KdaKernels, xs: seq<Val>): Val {
    if xs == [] then 0 else k.conv(ConvAt(k, Front(xs)), k.proj(Last(xs)))
  }

  function ScanInAt(k: KdaKernels, xs: seq<Val>): Val
    requires |xs| > 0
  {
    k.scanIn(Last(xs), k.convOut(ConvAt(k, Front(xs)), k.proj(Last(xs))))
  }

  function ScanAt(k: KdaKernels, xs: seq<Val>): Val {
    if xs == [] then 0 else k.scan(ScanAt(k, Front(xs)), ScanInAt(k, xs))
  }

  function PoolAt(m: MlaKernels, kp: Pos, xs: seq<Val>, p: nat): Val
    requires p * kp + kp <= |xs|
  {
    m.pool(MapRows(m.key, xs[p * kp..p * kp + kp]))
  }

  /** Pool p's members lie inside a history of n rows once p < n / kp. */
  lemma PoolInside(p: nat, kp: Pos, n: nat)
    requires p < n / kp
    ensures p * kp + kp <= n
  {
    assert n / kp * kp <= n;
    MulMonotone(p + 1, n / kp, kp);
  }

  function PoolsAt(m: MlaKernels, kp: Pos, xs: seq<Val>): seq<Val>
  {
    seq(|xs| / kp, p requires 0 <= p < |xs| / kp => PoolInside(p, kp, |xs|); PoolAt(m, kp, xs, p))
  }

  function RefRow(cfg: Config, l: Layer, xs: seq<Val>): Val
    requires |xs| > 0
  {
    match l
    case KdaLayer(k) => k.out(Last(xs), ScanAt(k, Front(xs)), ScanInAt(k, xs))
    case MlaLayer(m) => m.attend(Last(xs), MapRows(m.lat, xs), if cfg.sparse then PoolsAt(m, cfg.kpool, xs) else [])
  }

  /** A block over a whole history: row t of the output depends on rows 0..t only. */
  function RefLayer(cfg: Config, l: Layer, xs: seq<Val>): (ys: seq<Val>)
    ensures |ys| == |xs|
  {
    seq(|xs|, t requires 0 <= t < |xs| => RefRow(cfg, l, xs[..t + 1]))
  }

  /** The rows block n reads, for a whole history of rows entering block 0. */
  function Inputs(cfg: Config, ls: seq<Layer>, xs: seq<Val>, n: nat): (ys: seq<Val>)
    requires n <= |ls|
    ensures |ys| == |xs|
  {
    if n == 0 then xs else RefLayer(cfg, ls[n - 1], Inputs(cfg, ls, xs, n - 1))
  }

  /** A range of blocks over a whole history. */
  function RefStage(cfg: Config, ls: seq<Layer>, xs: seq<Val>): (ys: seq<Val>)
    ensures |ys| == |xs|
  {
    Inputs(cfg, ls, xs, |ls|)
  }

  lemma RefLayerCausal(cfg: Config, l: Layer, xs: seq<Val>, n: nat)
    requires n <= |xs|
    ensures RefLayer(cfg, l, xs[..n]) == RefLayer(cfg, l, xs)[..n]
  {
    forall t | 0 <= t < n
      ensures RefLayer(cfg, l, xs[..n])[t] == RefLayer(cfg, l, xs)[t]
    {
      assert xs[..n][..t + 1] == xs[..t + 1];
    }
  }

  lemma {:induction false} InputsCausal(cfg: Config, ls: seq<Layer>, xs: seq<Val>, m: nat, n: nat)
    requires m <= |xs| && n <= |ls|
    ensures Inputs(cfg, ls, xs[..m], n) == Inputs(cfg, ls, xs, n)[..m]
  {
    if n > 0 {
      InputsCausal(cfg, ls, xs, m, n - 1);
      RefLayerCausal(cfg, ls[n - 1], Inputs(cfg, ls, xs, n - 1), m);
    }
  }

  // ---- the forward, in the order the host submits it ---------------------------------

  function ConvPass(k: KdaKernels, c: Val, cis: seq<Val>): Val {
    if cis == [] then c else k.conv(ConvPass(k, c, Front(cis)), Last(cis))
  }

  function ScanPass(k: KdaKernels, s: Val, sis: seq<Val>): Val {
    if sis == [] then s else k.scan(ScanPass(k, s, Front(sis)), Last(sis))
  }

  function ScanInputs(k: KdaKernels, c: Val, xs: seq<Val>): (sis: seq<Val>)
    ensures |sis| == |xs|
  {
    var cis := MapRows(k.proj, xs);
    seq(|xs|, t requires 0 <= t < |xs| => k.scanIn(xs[t], k.convOut(ConvPass(k, c, cis[..t]), cis[t])))
  }

  function KdaOutputs(k: KdaKernels, s: Val, xs: seq<Val>, sis: seq<Val>): (ys: seq<Val>)
    requires |sis| == |xs|
    ensures |ys| == |xs|
  {
    seq(|xs|, t requires 0 <= t < |xs| => k.out(xs[t], ScanPass(k, s, sis[..t]), sis[t]))
  }

  /** A pool member: this chunk's row if it arrived in the chunk, else the open-pool roll's slot. */
  function Member(kp: Pos, roll: seq<Val>, keys: seq<Val>, start: nat, j: nat): Val
    requires |roll| == kp && j < start + |keys|
  {
    if j >= start then keys[j - start] else roll[j % kp]
  }

  /** The members of the pool whose first position is `a`. */
  function Members(kp: Pos, roll: seq<Val>, keys: seq<Val>, start: nat, a: nat): (r: seq<Val>)
    requires |roll| == kp && a + kp <= start + |keys|
    ensures |r| == kp
  {
    seq(kp, i requires 0 <= i < kp => Member(kp, roll, keys, start, a + i))
  }

  /** The pools the chunk completes, after those already there. */
  function BuildPools(kp: Pos, m: MlaKernels, pools: seq<Val>, roll: seq<Val>, keys: seq<Val>,
        start: nat): (r: seq<Val>)
    requires |roll| == kp
    ensures |r| == |pools|
  {
    seq(|pools|, p requires 0 <= p < |pools| =>
      if start / kp <= p < (start + |keys|) / kp then
        PoolInside(p, kp, start + |keys|);
        m.pool(Members(kp, roll, keys, start, p * kp))
      else pools[p])
  }

  /** Copy rows j..end of `src` (row 0 is position `base`) into the roll. */
  function CopyOpen(kp: Pos, roll: seq<Val>, src: seq<Val>, base: nat, j: nat, end: nat): (r: seq<Val>)
    requires |roll| == kp && base <= j && end <= base + |src|
    ensures |r| == kp
    decreases end - j
  {
    if j >= end then roll else CopyOpen(kp, roll[j % kp := src[j - base]], src, base, j + 1, end)
  }

  /** The first position of the pool still open at depth `end`. */
  function OpenBase(kp: Pos, end: nat): (b: nat)
    ensures b <= end
  {
    end - end % kp
  }

  function Max(a: nat, b: nat): nat { if a < b then b else a }

  /** Carry the open pool's members that arrived in rows base..end into the roll. */
  function CarryOpen(kp: Pos, roll: seq<Val>, src: seq<Val>, base: nat, end: nat): (r: seq<Val>)
    requires |roll| == kp && end <= base + |src|
    ensures |r| == kp
  {
    CopyOpen(kp, roll, src, base, Max(OpenBase(kp, end), base), end)
  }

  function Overwrite(buf: seq<Val>, rows: seq<Val>, at: nat): (r: seq<Val>)
    requires at + |rows| <= |buf|
    ensures |r| == |buf|
  {
    buf[..at] + rows + buf[at + |rows|..]
  }

  ghost predicate Fits(cfg: Config, l: Layer, st: LayerState) {
    match l
    case KdaLayer(_) => st.KdaState?
    case MlaLayer(_) =>
      st.MlaState? && |st.lat| == cfg.maxCtx && |st.roll| == cfg.kpool && |st.pools| >= cfg.maxCtx / cfg.kpool
  }

  ghost predicate CaptureFits(l: Layer, c: LayerCapture) {
    match l
    case KdaLayer(_) => c.KdaCapture? && |c.convIn| == K_SPEC_MAX && |c.scanIn| == K_SPEC_MAX
    case MlaLayer(_) => c.MlaCapture? && |c.keys| == K_SPEC_MAX
  }

  ghost predicate SnapFits(cfg: Config, l: Layer, s: LayerSnap) {
    match l
    case KdaLayer(_) => s.KdaSnap?
    case MlaLayer(_) => s.MlaSnap? && |s.roll| == cfg.kpool
  }

  datatype LayerStep = LayerStep(st: LayerState, capture: LayerCapture, ys: seq<Val>)

  /** One block over the chunk `xs` at position `start`; `record` is the spec-verify capture. */
  function LayerForward(cfg: Config, l: Layer, st: LayerState, cap: LayerCapture, record: bool, xs: seq<Val>,
        start: nat): (r: LayerStep)
    requires Fits(cfg, l, st) && CaptureFits(l, cap) && start + |xs| <= cfg.maxCtx && (record ==> |xs| <= K_SPEC_MAX)
    ensures Fits(cfg, l, r.st) && CaptureFits(l, r.capture) && |r.ys| == |xs|
  {
    match l
    case KdaLayer(k) =>
      var cis := MapRows(k.proj, xs);
      var sis := ScanInputs(k, st.conv, xs);
      LayerStep(KdaState(ConvPass(k, st.conv, cis), ScanPass(k, st.scan, sis)),
                if record then KdaCapture(Overwrite(cap.convIn, cis, 0), Overwrite(cap.scanIn, sis, 0)) else cap,
                KdaOutputs(k, st.scan, xs, sis))
    case MlaLayer(m) =>
      var st1 := MlaNext(cfg, m, st, xs, start);
      LayerStep(st1,
                if record && cfg.sparse then MlaCapture(Overwrite(cap.keys, MapRows(m.key, xs), 0)) else cap,
                MlaOutputs(cfg, m, st1, xs, start))
  }

  function MlaOutputs(cfg: Config, m: MlaKernels, st: LayerState, xs: seq<Val>, start: nat): (ys: seq<Val>)
    requires Fits(cfg, MlaLayer(m), st) && start + |xs| <= cfg.maxCtx
    ensures |ys| == |xs|
  {
    seq(|xs|, t requires 0 <= t < |xs| => MlaAttend(cfg, m, st, xs[t], start + t))
  }

  /** The caches after the chunk: latents appended, completed pools built, open members carried. */
  function MlaNext(cfg: Config, m: MlaKernels, st: LayerState, xs: seq<Val>, start: nat): (r: LayerState)
    requires Fits(cfg, MlaLayer(m), st) && start + |xs| <= cfg.maxCtx
    ensures Fits(cfg, MlaLayer(m), r)
  {
    var lat := Overwrite(st.lat, MapRows(m.lat, xs), start);
    if cfg.sparse then
      var keys := MapRows(m.key, xs);
      MlaState(lat, BuildPools(cfg.kpool, m, st.pools, st.roll, keys, start),
               CarryOpen(cfg.kpool, st.roll, keys, start, start + |xs|))
    else
      MlaState(lat, st.pools, st.roll)
  }

  /** A query at `pos` sees the latents up to itself and the pools complete at its position. */
  function MlaAttend(cfg: Config, m: MlaKernels, st: LayerState, x: Val, pos: nat): Val
    requires Fits(cfg, MlaLayer(m), st) && pos < cfg.maxCtx
  {
    PoolCount(cfg, pos + 1);
    m.attend(x, st.lat[..pos + 1], if cfg.sparse then st.pools[..(pos + 1) / cfg.kpool] else [])
  }

  lemma DivMonotone(a: nat, b: nat, kp: Pos)
    requires a <= b
    ensures a / kp <= b / kp
  {
    if a / kp > b / kp {
      MulMonotone(b / kp + 1, a / kp, kp);
    }
  }

  lemma PoolCount(cfg: Config, n: nat)
    requires n <= cfg.maxCtx
    ensures n / cfg.kpool <= cfg.maxCtx / cfg.kpool
  {
    DivMonotone(n, cfg.maxCtx, cfg.kpool);
  }

  // ---- what it means for a layer's state to stand for a history ----------------------

  ghost predicate RollHolds(m: MlaKernels, kp: Pos, roll: seq<Val>, h: seq<Val>)
    requires |roll| == kp
  {
    forall j | OpenBase(kp, |h|) <= j < |h| :: roll[j % kp] == m.key(h[j])
  }

  /** Only the live part: rows at or past the depth, and roll slots outside the open pool, are unconstrained. */
  ghost predicate LayerHolds(cfg: Config, l: Layer, st: LayerState, h: seq<Val>)
    requires Fits(cfg, l, st)
  {
    match l
    case KdaLayer(k) => st.conv == ConvAt(k, h) && st.scan == ScanAt(k, h)
    case MlaLayer(m) =>
      && |h| <= cfg.maxCtx
      && st.lat[..|h|] == MapRows(m.lat, h)
      && (cfg.sparse ==>
        && |h| / cfg.kpool <= |st.pools|
        && st.pools[..|h| / cfg.kpool] == PoolsAt(m, cfg.kpool, h)
        && RollHolds(m, cfg.kpool, st.roll, h))
  }

  ghost predicate SnapHolds(cfg: Config, l: Layer, s: LayerSnap, h: seq<Val>)
    requires SnapFits(cfg, l, s)
  {
    match l
    case KdaLayer(k) => s.conv == ConvAt(k, h) && s.scan == ScanAt(k, h)
    case MlaLayer(m) => cfg.sparse ==> RollHolds(m, cfg.kpool, s.roll, h)
  }

  /** The capture holds the rows of `xs`, seen after the history `h`. */
  ghost predicate CaptureHolds(cfg: Config, l: Layer, c: LayerCapture, h: seq<Val>, xs: seq<Val>)
    requires CaptureFits(l, c) && |xs| <= K_SPEC_MAX
  {
    match l
    case KdaLayer(k) =>
      forall t | 0 <= t < |xs| :: c.convIn[t] == k.proj(xs[t]) && c.scanIn[t] == ScanInAt(k, h + xs[..t + 1])
    case MlaLayer(m) => cfg.sparse ==> forall t | 0 <= t < |xs| :: c.keys[t] == m.key(xs[t])
  }

  // ---- a recurrent block's chunked passes are the row-by-row recurrences ---------------------

  lemma {:induction false} ConvJoin(k: KdaKernels, h: seq<Val>, xs: seq<Val>, cis: seq<Val>)
    requires |cis| == |xs| && forall t | 0 <= t < |xs| :: cis[t] == k.proj(xs[t])
    ensures ConvPass(k, ConvAt(k, h), cis) == ConvAt(k, h + xs)
    decreases |xs|
  {
    if xs == [] {
      assert h + xs == h;
    } else {
      assert Front(h + xs) == h + Front(xs);
      ConvJoin(k, h, Front(xs), Front(cis));
    }
  }

  lemma ScanInputsAre(k: KdaKernels, h: seq<Val>, xs: seq<Val>, t: nat)
    requires t < |xs|
    ensures ScanInputs(k, ConvAt(k, h), xs)[t] == ScanInAt(k, h + xs[..t + 1])
  {
    var cis := MapRows(k.proj, xs);
    ConvJoin(k, h, xs[..t], cis[..t]);
    assert Front(h + xs[..t + 1]) == h + xs[..t];
  }

  lemma {:induction false} ScanJoin(k: KdaKernels, h: seq<Val>, xs: seq<Val>, sis: seq<Val>)
    requires |sis| == |xs| && forall t | 0 <= t < |xs| :: sis[t] == ScanInAt(k, h + xs[..t + 1])
    ensures ScanPass(k, ScanAt(k, h), sis) == ScanAt(k, h + xs)
    decreases |xs|
  {
    if xs == [] {
      assert h + xs == h;
    } else {
      assert Front(h + xs) == h + Front(xs);
      forall t | 0 <= t < |xs| - 1
        ensures Front(sis)[t] == ScanInAt(k, h + Front(xs)[..t + 1])
      {
        assert Front(xs)[..t + 1] == xs[..t + 1];
      }
      ScanJoin(k, h, Front(xs), Front(sis));
      assert xs[..|xs|] == xs;
    }
  }

  lemma KdaOutput(k: KdaKernels, h: seq<Val>, xs: seq<Val>, sis: seq<Val>, t: nat)
    requires |sis| == |xs| && forall i | 0 <= i < |xs| :: sis[i] == ScanInAt(k, h + xs[..i + 1])
    requires t < |xs|
    ensures KdaOutputs(k, ScanAt(k, h), xs, sis)[t]
         == k.out(Last(h + xs[..t + 1]), ScanAt(k, Front(h + xs[..t + 1])), ScanInAt(k, h + xs[..t + 1]))
  {
    forall i | 0 <= i < t
      ensures sis[..t][i] == ScanInAt(k, h + xs[..t][..i + 1])
    {
      assert xs[..t][..i + 1] == xs[..i + 1];
    }
    ScanJoin(k, h, xs[..t], sis[..t]);
    assert Front(h + xs[..t + 1]) == h + xs[..t];
  }

  // ---- pools and the open-pool roll ---------------------------------------------------

  /** The roll's slots for consecutive positions are distinct while fewer than kp apart. */
  lemma SlotsDistinct(kp: Pos, i: nat, j: nat)
    requires i < j < i + kp
    ensures i % kp != j % kp
  {
    if i % kp == j % kp {
      var a, b := i / kp, j / kp;
      assert j - i == (b - a) * kp;
      if b - a >= 1 { MulMonotone(1, b - a, kp); } else { MulMonotone(b - a, 0, kp); }
    }
  }

  /** After the copy, the slot of a position at most kp back from `end` holds that position's row. */
  lemma {:induction false} CopyOpenSlot(kp: Pos, roll: seq<Val>, src: seq<Val>, base: nat, j: nat, end: nat, i: nat)
    requires |roll| == kp && base <= j <= end <= base + |src|
    requires i < end <= i + kp
    ensures CopyOpen(kp, roll, src, base, j, end)[i % kp] == if i >= j then src[i - base] else roll[i % kp]
    decreases end - j
  {
    if j < end {
      CopyOpenSlot(kp, roll[j % kp := src[j - base]], src, base, j + 1, end, i);
      if i < j { SlotsDistinct(kp, i, j); }
    }
  }

  /** Carrying the chunk's open members keeps the roll in step with the history. */
  lemma CarryHolds(kp: Pos, m: MlaKernels, roll: seq<Val>, h: seq<Val>, xs: seq<Val>, src: seq<Val>)
    requires |roll| == kp && RollHolds(m, kp, roll, h)
    requires |src| >= |xs| && forall t | 0 <= t < |xs| :: src[t] == m.key(xs[t])
    ensures RollHolds(m, kp, CarryOpen(kp, roll, src, |h|, |h| + |xs|), h + xs)
  {
    var end := |h| + |xs|;
    var j := Max(OpenBase(kp, end), |h|);
    forall i | OpenBase(kp, end) <= i < end
      ensures CarryOpen(kp, roll, src, |h|, end)[i % kp] == m.key((h + xs)[i])
    {
      CopyOpenSlot(kp, roll, src, |h|, j, end, i);
      if i < |h| { OpenBaseShared(kp, |h|, end, i); }
    }
  }

  /** If the pool open at `end` began before `n`, it was the pool open at `n`. */
  lemma OpenBaseShared(kp: Pos, n: nat, end: nat, i: nat)
    requires OpenBase(kp, end) <= i < n <= end
    ensures OpenBase(kp, n) <= i
  {
    if end / kp > n / kp {
      MulMonotone(n / kp + 1, end / kp, kp);
    }
    DivMonotone(n, end, kp);
  }

  /** The members of a pool that no position below the open pool reaches into. */
  lemma MembersAre(kp: Pos, m: MlaKernels, roll: seq<Val>, h: seq<Val>, xs: seq<Val>, a: nat)
    requires |roll| == kp && RollHolds(m, kp, roll, h)
    requires OpenBase(kp, |h|) <= a && a + kp <= |h| + |xs|
    ensures Members(kp, roll, MapRows(m.key, xs), |h|, a) == MapRows(m.key, (h + xs)[a..a + kp])
  {
    var keys := MapRows(m.key, xs);
    forall i | 0 <= i < kp
      ensures Members(kp, roll, keys, |h|, a)[i] == m.key((h + xs)[a + i])
    {
      var j := a + i;
      assert Members(kp, roll, keys, |h|, a)[i] == Member(kp, roll, keys, |h|, j);
      if j < |h| {
        assert OpenBase(kp, |h|) <= j;
        assert roll[j % kp] == m.key(h[j]);
        assert (h + xs)[j] == h[j];
      } else {
        assert (h + xs)[j] == xs[j - |h|];
      }
    }
  }

  lemma PoolBuilt(kp: Pos, m: MlaKernels, pools: seq<Val>, roll: seq<Val>, h: seq<Val>, xs: seq<Val>, p: nat)
    requires |roll| == kp && RollHolds(m, kp, roll, h)
    requires |h| / kp <= |pools| && pools[..|h| / kp] == PoolsAt(m, kp, h)
    requires p < (|h| + |xs|) / kp <= |pools|
    ensures p * kp + kp <= |h + xs|
    ensures BuildPools(kp, m, pools, roll, MapRows(m.key, xs), |h|)[p] == PoolAt(m, kp, h + xs, p)
  {
    PoolInside(p, kp, |h| + |xs|);
    if p < |h| / kp {
      PoolInside(p, kp, |h|);
      assert pools[p] == pools[..|h| / kp][p] == PoolAt(m, kp, h, p);
      assert (h + xs)[p * kp..p * kp + kp] == h[p * kp..p * kp + kp];
    } else {
      MulMonotone(|h| / kp, p, kp);
      assert OpenBase(kp, |h|) == |h| / kp * kp;
      MembersAre(kp, m, roll, h, xs, p * kp);
    }
  }

  lemma PoolsBuilt(kp: Pos, m: MlaKernels, pools: seq<Val>, roll: seq<Val>, h: seq<Val>, xs: seq<Val>)
    requires |roll| == kp && RollHolds(m, kp, roll, h)
    requires |h| / kp <= |pools| && pools[..|h| / kp] == PoolsAt(m, kp, h)
    requires (|h| + |xs|) / kp <= |pools|
    ensures BuildPools(kp, m, pools, roll, MapRows(m.key, xs), |h|)[..(|h| + |xs|) / kp] == PoolsAt(m, kp, h + xs)
  {
    forall p | 0 <= p < (|h| + |xs|) / kp
      ensures BuildPools(kp, m, pools, roll, MapRows(m.key, xs), |h|)[p] == PoolsAt(m, kp, h + xs)[p]
    {
      PoolBuilt(kp, m, pools, roll, h, xs, p);
    }
  }

  lemma PoolOfPrefix(m: MlaKernels, kp: Pos, h: seq<Val>, n: nat, p: nat)
    requires n <= |h| && p < n / kp
    ensures p * kp + kp <= n && PoolAt(m, kp, h, p) == PoolAt(m, kp, h[..n], p)
  {
    PoolInside(p, kp, n);
    assert h[..n][p * kp..p * kp + kp] == h[p * kp..p * kp + kp];
  }

  /** The pools of a prefix are the first pools. */
  lemma PoolsPrefix(m: MlaKernels, kp: Pos, h: seq<Val>, n: nat)
    requires n <= |h|
    ensures n / kp <= |h| / kp
    ensures PoolsAt(m, kp, h)[..n / kp] == PoolsAt(m, kp, h[..n])
  {
    DivMonotone(n, |h|, kp);
    forall p | 0 <= p < n / kp
      ensures PoolsAt(m, kp, h)[p] == PoolsAt(m, kp, h[..n])[p]
    {
      PoolOfPrefix(m, kp, h, n, p);
    }
  }

  // ---- one block: forward, restore and commit keep the state in step with the history ----------

  lemma RefLayerTail(cfg: Config, l: Layer, h: seq<Val>, xs: seq<Val>, t: nat)
    requires t < |xs|
    ensures RefLayer(cfg, l, h + xs)[|h|..][t] == RefRow(cfg, l, h + xs[..t + 1])
  {
    assert (h + xs)[..|h| + t + 1] == h + xs[..t + 1];
  }

  lemma KdaForwardHolds(cfg: Config, l: Layer, st: LayerState, cap: LayerCapture, record: bool, h: seq<Val>,
        xs: seq<Val>)
    requires l.KdaLayer? && Fits(cfg, l, st) && CaptureFits(l, cap) && |h| + |xs| <= cfg.maxCtx
        && (record ==> |xs| <= K_SPEC_MAX)
    requires LayerHolds(cfg, l, st, h)
    ensures var r := LayerForward(cfg, l, st, cap, record, xs, |h|);
      && LayerHolds(cfg, l, r.st, h + xs)
      && r.ys == RefLayer(cfg, l, h + xs)[|h|..]
      && (if record then CaptureHolds(cfg, l, r.capture, h, xs) else r.capture == cap)
  {
    var k := l.k;
    var cis := MapRows(k.proj, xs);
    var sis := ScanInputs(k, st.conv, xs);
    ConvJoin(k, h, xs, cis);
    forall t | 0 <= t < |xs| ensures sis[t] == ScanInAt(k, h + xs[..t + 1]) { ScanInputsAre(k, h, xs, t); }
    ScanJoin(k, h, xs, sis);
    var r := LayerForward(cfg, l, st, cap, record, xs, |h|);
    forall t | 0 <= t < |xs|
      ensures r.ys[t] == RefLayer(cfg, l, h + xs)[|h|..][t]
    {
      RefLayerTail(cfg, l, h, xs, t);
      KdaOutput(k, h, xs, sis, t);
    }
  }

  /** The rows past a prefix are stale but harmless: what stands for a longer history keeps the prefix's rows. */
  lemma CachePrefix(cfg: Config, m: MlaKernels, st: LayerState, g: seq<Val>, n: nat)
    requires Fits(cfg, MlaLayer(m), st) && LayerHolds(cfg, MlaLayer(m), st, g) && n <= |g|
    ensures st.lat[..n] == MapRows(m.lat, g[..n])
    ensures cfg.sparse ==> n / cfg.kpool <= |st.pools| && st.pools[..n / cfg.kpool] == PoolsAt(m, cfg.kpool, g[..n])
  {
    assert st.lat[..n] == st.lat[..|g|][..n];
    if cfg.sparse {
      PoolsPrefix(m, cfg.kpool, g, n);
      assert st.pools[..n / cfg.kpool] == st.pools[..|g| / cfg.kpool][..n / cfg.kpool];
    }
  }

  lemma LatWritten(m: MlaKernels, lat: seq<Val>, h: seq<Val>, xs: seq<Val>)
    requires |h| + |xs| <= |lat| && lat[..|h|] == MapRows(m.lat, h)
    ensures Overwrite(lat, MapRows(m.lat, xs), |h|)[..|h + xs|] == MapRows(m.lat, h + xs)
  {
    var lat1 := Overwrite(lat, MapRows(m.lat, xs), |h|);
    forall i | 0 <= i < |h + xs|
      ensures lat1[i] == m.lat((h + xs)[i])
    {
      if i < |h| { assert lat1[i] == lat[..|h|][i]; }
    }
  }

  lemma MlaNextHolds(cfg: Config, m: MlaKernels, st: LayerState, h: seq<Val>, xs: seq<Val>)
    requires Fits(cfg, MlaLayer(m), st) && |h| + |xs| <= cfg.maxCtx && LayerHolds(cfg, MlaLayer(m), st, h)
    ensures LayerHolds(cfg, MlaLayer(m), MlaNext(cfg, m, st, xs, |h|), h + xs)
  {
    LatWritten(m, st.lat, h, xs);
    if cfg.sparse {
      PoolCount(cfg, |h + xs|);
      PoolsBuilt(cfg.kpool, m, st.pools, st.roll, h, xs);
      CarryHolds(cfg.kpool, m, st.roll, h, xs, MapRows(m.key, xs));
    }
  }

  lemma MlaAttendIs(cfg: Config, m: MlaKernels, st: LayerState, g: seq<Val>, n: nat)
    requires Fits(cfg, MlaLayer(m), st) && LayerHolds(cfg, MlaLayer(m), st, g) && n < |g|
    ensures MlaAttend(cfg, m, st, g[n], n) == RefRow(cfg, MlaLayer(m), g[..n + 1])
  {
    CachePrefix(cfg, m, st, g, n + 1);
  }

  lemma MlaOutputsAre(cfg: Config, m: MlaKernels, st: LayerState, h: seq<Val>, xs: seq<Val>)
    requires Fits(cfg, MlaLayer(m), st) && |h| + |xs| <= cfg.maxCtx && LayerHolds(cfg, MlaLayer(m), st, h + xs)
    ensures MlaOutputs(cfg, m, st, xs, |h|) == RefLayer(cfg, MlaLayer(m), h + xs)[|h|..]
  {
    forall t | 0 <= t < |xs|
      ensures MlaOutputs(cfg, m, st, xs, |h|)[t] == RefLayer(cfg, MlaLayer(m), h + xs)[|h| + t]
    {
      MlaAttendIs(cfg, m, st, h + xs, |h| + t);
    }
  }

  lemma MlaForwardHolds(cfg: Config, m: MlaKernels, st: LayerState, cap: LayerCapture, record: bool, h: seq<Val>,
        xs: seq<Val>)
    requires Fits(cfg, MlaLayer(m), st) && CaptureFits(MlaLayer(m), cap) && |h| + |xs| <= cfg.maxCtx
        && (record ==> |xs| <= K_SPEC_MAX)
    requires LayerHolds(cfg, MlaLayer(m), st, h)
    ensures var r := LayerForward(cfg, MlaLayer(m), st, cap, record, xs, |h|);
      && LayerHolds(cfg, MlaLayer(m), r.st, h + xs)
      && r.ys == RefLayer(cfg, MlaLayer(m), h + xs)[|h|..]
      && (if record then CaptureHolds(cfg, MlaLayer(m), r.capture, h, xs) else r.capture == cap)
  {
    MlaNextHolds(cfg, m, st, h, xs);
    MlaOutputsAre(cfg, m, MlaNext(cfg, m, st, xs, |h|), h, xs);
  }

  lemma LayerForwardHolds(cfg: Config, l: Layer, st: LayerState, cap: LayerCapture, record: bool, h: seq<Val>,
        xs: seq<Val>)
    requires Fits(cfg, l, st) && CaptureFits(l, cap) && |h| + |xs| <= cfg.maxCtx && (record ==> |xs| <= K_SPEC_MAX)
    requires LayerHolds(cfg, l, st, h)
    ensures var r := LayerForward(cfg, l, st, cap, record, xs, |h|);
      && LayerHolds(cfg, l, r.st, h + xs)
      && r.ys == RefLayer(cfg, l, h + xs)[|h|..]
      && (if record then CaptureHolds(cfg, l, r.capture, h, xs) else r.capture == cap)
  {
    if l.KdaLayer? {
      KdaForwardHolds(cfg, l, st, cap, record, h, xs);
    } else {
      MlaForwardHolds(cfg, l.m, st, cap, record, h, xs);
    }
  }

  /** The first n captured rows; what lies past the capture's slots is not modelled and reads as zero. */
  function Rows(buf: seq<Val>, n: nat): (r: seq<Val>)
    ensures |r| == n
  {
    if n <= |buf| then buf[..n] else buf + seq(n - |buf|, _ => 0)
  }

  function LayerSnapshot(cfg: Config, l: Layer, st: LayerState, kept: LayerSnap): (s: LayerSnap)
    requires Fits(cfg, l, st) && SnapFits(cfg, l, kept)
    ensures SnapFits(cfg, l, s)
  {
    match l
    case KdaLayer(_) => KdaSnap(st.conv, st.scan)
    case MlaLayer(_) => if cfg.sparse then MlaSnap(st.roll) else kept
  }

  function LayerRestore(cfg: Config, l: Layer, st: LayerState, s: LayerSnap): (r: LayerState)
    requires Fits(cfg, l, st) && SnapFits(cfg, l, s)
    ensures Fits(cfg, l, r)
  {
    match l
    case KdaLayer(_) => KdaState(s.conv, s.scan)
    case MlaLayer(_) => if cfg.sparse then st.(roll := s.roll) else st
  }

  /** Rewind to the snapshot, then advance n rows from the captured inputs. */
  function LayerCommit(cfg: Config, l: Layer, st: LayerState, s: LayerSnap, c: LayerCapture, pos: nat,
        n: nat): (r: LayerState)
    requires Fits(cfg, l, st) && SnapFits(cfg, l, s) && CaptureFits(l, c)
    ensures Fits(cfg, l, r)
  {
    match l
    case KdaLayer(k) => KdaState(ConvPass(k, s.conv, Rows(c.convIn, n)), ScanPass(k, s.scan, Rows(c.scanIn, n)))
    case MlaLayer(_) =>
      if cfg.sparse then st.(roll := CarryOpen(cfg.kpool, s.roll, Rows(c.keys, n), pos, pos + n)) else st
  }

  lemma LayerSnapshotHolds(cfg: Config, l: Layer, st: LayerState, kept: LayerSnap, h: seq<Val>)
    requires Fits(cfg, l, st) && SnapFits(cfg, l, kept) && LayerHolds(cfg, l, st, h)
    ensures SnapHolds(cfg, l, LayerSnapshot(cfg, l, st, kept), h)
  {
  }

  lemma LayerRestoreHolds(cfg: Config, l: Layer, st: LayerState, s: LayerSnap, h: seq<Val>, xs: seq<Val>)
    requires Fits(cfg, l, st) && SnapFits(cfg, l, s)
    requires LayerHolds(cfg, l, st, h + xs) && SnapHolds(cfg, l, s, h)
    ensures LayerHolds(cfg, l, LayerRestore(cfg, l, st, s), h)
  {
    if l.MlaLayer? {
      CachePrefix(cfg, l.m, st, h + xs, |h|);
      assert (h + xs)[..|h|] == h;
    }
  }

  lemma KdaCommitHolds(cfg: Config, k: KdaKernels, st: LayerState, s: LayerSnap, c: LayerCapture, h: seq<Val>,
        xs: seq<Val>, n: nat)
    requires st.KdaState? && s.KdaSnap? && CaptureFits(KdaLayer(k), c) && n <= |xs| <= K_SPEC_MAX
    requires SnapHolds(cfg, KdaLayer(k), s, h) && CaptureHolds(cfg, KdaLayer(k), c, h, xs)
    ensures LayerHolds(cfg, KdaLayer(k), LayerCommit(cfg, KdaLayer(k), st, s, c, |h|, n), h + xs[..n])
  {
    ConvJoin(k, h, xs[..n], c.convIn[..n]);
    forall t | 0 <= t < n
      ensures c.scanIn[..n][t] == ScanInAt(k, h + xs[..n][..t + 1])
    {
      assert xs[..n][..t + 1] == xs[..t + 1];
    }
    ScanJoin(k, h, xs[..n], c.scanIn[..n]);
  }

  lemma MlaCommitHolds(cfg: Config, m: MlaKernels, st: LayerState, s: LayerSnap, c: LayerCapture, h: seq<Val>,
        xs: seq<Val>, n: nat)
    requires Fits(cfg, MlaLayer(m), st) && SnapFits(cfg, MlaLayer(m), s) && CaptureFits(MlaLayer(m), c)
        && n <= |xs| <= K_SPEC_MAX
    requires LayerHolds(cfg, MlaLayer(m), st, h + xs) && SnapHolds(cfg, MlaLayer(m), s, h)
        && CaptureHolds(cfg, MlaLayer(m), c, h, xs)
    ensures LayerHolds(cfg, MlaLayer(m), LayerCommit(cfg, MlaLayer(m), st, s, c, |h|, n), h + xs[..n])
  {
    CachePrefix(cfg, m, st, h + xs, |h| + n);
    assert (h + xs)[..|h| + n] == h + xs[..n];
    if cfg.sparse { CarryHolds(cfg.kpool, m, s.roll, h, xs[..n], Rows(c.keys, n)); }
  }

  lemma LayerCommitHolds(cfg: Config, l: Layer, st: LayerState, s: LayerSnap, c: LayerCapture, h: seq<Val>,
        xs: seq<Val>, n: nat)
    requires Fits(cfg, l, st) && SnapFits(cfg, l, s) && CaptureFits(l, c) && n <= |xs| <= K_SPEC_MAX
    requires LayerHolds(cfg, l, st, h + xs) && SnapHolds(cfg, l, s, h) && CaptureHolds(cfg, l, c, h, xs)
    ensures LayerHolds(cfg, l, LayerCommit(cfg, l, st, s, c, |h|, n), h + xs[..n])
  {
    if l.KdaLayer? {
      KdaCommitHolds(cfg, l.k, st, s, c, h, xs, n);
    } else {
      MlaCommitHolds(cfg, l.m, st, s, c, h, xs, n);
    }
  }
}
