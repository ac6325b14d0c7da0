/** One pipeline stage (a card's range of blocks): its live state, its one snapshot
    slot and its spec-verify capture, and the operations the runner calls on it. */
module Stage {
  import opened Arith
  import opened Blocks

  datatype StageState = StageState(
    layers: seq<LayerState>, kvLen: nat,
    snap: seq<LayerSnap>, snapKvLen: nat,
    specVerify: bool, capture: seq<LayerCapture>, specT: nat, specPos: nat)

  ghost predicate WellFormed(cfg: Config, ls: seq<Layer>, s: StageState) {
    && |s.layers| == |s.snap| == |s.capture| == |ls|
    && forall i | 0 <= i < |ls| :: Fits(cfg, ls[i], s.layers[i]) && SnapFits(cfg, ls[i], s.snap[i])
        && CaptureFits(ls[i], s.capture[i])
  }

  // ---- the operations as functions on the state -----------------------------------

  /** Without the indexer, dense attention is exact only while every position would be selected. */
  function Limit(cfg: Config): (n: nat)
    ensures n <= cfg.maxCtx && (cfg.sparse ==> n == cfg.maxCtx)
  {
    if !cfg.sparse && cfg.topK + cfg.kpool - 1 < cfg.maxCtx then cfg.topK + cfg.kpool - 1 else cfg.maxCtx
  }

  /** The bound means what it is for: a text is accepted exactly while its complete pools are no more than the indexer
      selects, so that every position would be attended. */
  lemma DenseLimit(cfg: Config, n: nat)
    requires !cfg.sparse && cfg.topK % cfg.kpool == 0
    ensures n <= Limit(cfg) <==> n <= cfg.maxCtx && n / cfg.kpool <= cfg.topK / cfg.kpool
  {
    var k, q := cfg.kpool, cfg.topK / cfg.kpool;
    assert cfg.topK == q * k && (q + 1) * k == q * k + k;
    if n / k > q {
      MulMonotone(q + 1, n / k, k);
    } else {
      QuotientBelow(n, q, k);
    }
  }

  /** The chunk and position checks at the head of a forward. */
  predicate Accepts(cfg: Config, s: StageState, n: nat, start: nat) {
    0 < n <= cfg.maxChunk && start == s.kvLen && start + n <= Limit(cfg)
  }

  datatype LayersRun = LayersRun(layers: seq<LayerState>, capture: seq<LayerCapture>, ys: seq<Val>)

  predicate Records(s: StageState, n: nat) { s.specVerify && n <= K_SPEC_MAX }

  /** The first n blocks over the chunk, each reading the rows of the one before. */
  function RunTo(cfg: Config, ls: seq<Layer>, s: StageState, xs: seq<Val>, n: nat): (r: LayersRun)
    requires WellFormed(cfg, ls, s) && s.kvLen + |xs| <= cfg.maxCtx && n <= |ls|
    ensures |r.layers| == |r.capture| == n && |r.ys| == |xs|
    ensures forall i | 0 <= i < n :: Fits(cfg, ls[i], r.layers[i]) && CaptureFits(ls[i], r.capture[i])
  {
    if n == 0 then LayersRun([], [], xs)
    else
      var p := RunTo(cfg, ls, s, xs, n - 1);
      var r := LayerForward(cfg, ls[n - 1], s.layers[n - 1], s.capture[n - 1], Records(s, |xs|), p.ys, s.kvLen);
      LayersRun(p.layers + [r.st], p.capture + [r.capture], r.ys)
  }

  datatype StageStep = StageStep(state: StageState, rows: seq<Val>)

  function Forward(cfg: Config, ls: seq<Layer>, s: StageState, xs: seq<Val>): (r: StageStep)
    requires WellFormed(cfg, ls, s) && Accepts(cfg, s, |xs|, s.kvLen)
    ensures WellFormed(cfg, ls, r.state) && r.state.specVerify == s.specVerify && |r.rows| == |xs|
  {
    var run := RunTo(cfg, ls, s, xs, |ls|);
    var specT := if s.specVerify then |xs| else s.specT;
    var specPos := if s.specVerify then s.kvLen else s.specPos;
    var st := s.(layers := run.layers, capture := run.capture, kvLen := s.kvLen + |xs|,
                 specT := specT, specPos := specPos);
    StageStep(st, run.ys)
  }

  /** A call the checks refuse changes nothing. */
  function Offer(cfg: Config, ls: seq<Layer>, s: StageState, xs: seq<Val>, start: nat): (r: StageStep)
    requires WellFormed(cfg, ls, s)
    ensures WellFormed(cfg, ls, r.state) && r.state.specVerify == s.specVerify
  {
    if Accepts(cfg, s, |xs|, start) then Forward(cfg, ls, s, xs) else StageStep(s, [])
  }

  function Reset(cfg: Config, ls: seq<Layer>, s: StageState): (r: StageState)
    requires WellFormed(cfg, ls, s)
    ensures WellFormed(cfg, ls, r) && r.specVerify == s.specVerify
  {
    var layers := seq(|ls|, i requires 0 <= i < |ls| => if ls[i].KdaLayer? then KdaState(0, 0) else s.layers[i]);
    s.(kvLen := 0, layers := layers)
  }

  function Snapshot(cfg: Config, ls: seq<Layer>, s: StageState): (r: StageState)
    requires WellFormed(cfg, ls, s)
    ensures WellFormed(cfg, ls, r) && r.specVerify == s.specVerify
  {
    var snap := seq(|ls|, i requires 0 <= i < |ls| => LayerSnapshot(cfg, ls[i], s.layers[i], s.snap[i]));
    s.(snapKvLen := s.kvLen, snap := snap)
  }

  function Restore(cfg: Config, ls: seq<Layer>, s: StageState): (r: StageState)
    requires WellFormed(cfg, ls, s)
    ensures WellFormed(cfg, ls, r) && r.specVerify == s.specVerify
  {
    var layers := seq(|ls|, i requires 0 <= i < |ls| => LayerRestore(cfg, ls[i], s.layers[i], s.snap[i]));
    s.(kvLen := s.snapKvLen, layers := layers)
  }

  /** A commit is refused when no verify forward was recorded or n lies outside its window. */
  predicate Commits(s: StageState, n: nat) { s.specVerify && 0 < n <= s.specT }

  function Commit(cfg: Config, ls: seq<Layer>, s: StageState, n: nat): (r: StageState)
    requires WellFormed(cfg, ls, s) && Commits(s, n)
    ensures WellFormed(cfg, ls, r) && r.specVerify == s.specVerify
  {
    if n == s.specT then s
    else
      var layers := seq(|ls|, i requires 0 <= i < |ls| =>
        LayerCommit(cfg, ls[i], s.layers[i], s.snap[i], s.capture[i], s.specPos, n));
      s.(kvLen := s.specPos + n, layers := layers)
  }

  // ---- what a stage's state stands for -------------------------------------------------

  /** The stage has consumed exactly the rows of `h`. */
  ghost predicate Holds(cfg: Config, ls: seq<Layer>, s: StageState, h: seq<Val>) {
    && WellFormed(cfg, ls, s)
    && s.kvLen == |h|
    && forall i | 0 <= i < |ls| :: LayerHolds(cfg, ls[i], s.layers[i], Inputs(cfg, ls, h, i))
  }

  /** The snapshot slot was filled when the stage had consumed exactly `h`. */
  ghost predicate SnapshotHolds(cfg: Config, ls: seq<Layer>, s: StageState, h: seq<Val>) {
    && WellFormed(cfg, ls, s)
    && s.snapKvLen == |h|
    && forall i | 0 <= i < |ls| :: SnapHolds(cfg, ls[i], s.snap[i], Inputs(cfg, ls, h, i))
  }

  /** The last recorded forward consumed `xs` after `h`. */
  ghost predicate Recorded(cfg: Config, ls: seq<Layer>, s: StageState, h: seq<Val>, xs: seq<Val>) {
    && WellFormed(cfg, ls, s)
    && s.specVerify && s.specT == |xs| <= K_SPEC_MAX && s.specPos == |h|
    && forall i | 0 <= i < |ls| ::
      CaptureHolds(cfg, ls[i], s.capture[i], Inputs(cfg, ls, h, i), Inputs(cfg, ls, h + xs, i)[|h|..])
  }

  lemma InputsSplit(cfg: Config, ls: seq<Layer>, h: seq<Val>, xs: seq<Val>, i: nat)
    requires i <= |ls|
    ensures Inputs(cfg, ls, h, i) + Inputs(cfg, ls, h + xs, i)[|h|..] == Inputs(cfg, ls, h + xs, i)
  {
    InputsCausal(cfg, ls, h + xs, |h|, i);
    assert (h + xs)[..|h|] == h;
  }

  lemma InputsJoin(cfg: Config, ls: seq<Layer>, h: seq<Val>, xs: seq<Val>, n: nat, i: nat)
    requires n <= |xs| && i <= |ls|
    ensures Inputs(cfg, ls, h, i) + Inputs(cfg, ls, h + xs, i)[|h|..][..n] == Inputs(cfg, ls, h + xs[..n], i)
  {
    assert h + xs == (h + xs[..n]) + xs[n..];
    InputsSplit(cfg, ls, h + xs[..n], xs[n..], i);
    InputsSplit(cfg, ls, h, xs[..n], i);
  }

  lemma ResetHolds(cfg: Config, ls: seq<Layer>, s: StageState)
    requires WellFormed(cfg, ls, s)
    ensures Holds(cfg, ls, Reset(cfg, ls, s), [])
  {
  }

  /** Block i's state and capture after a run over `xs` from the history `h`. */
  ghost predicate BlockDone(cfg: Config, l: Layer, st: LayerState, cap: LayerCapture, was: LayerCapture, record: bool,
        hi: seq<Val>, xi: seq<Val>)
    requires Fits(cfg, l, st) && CaptureFits(l, cap) && (record ==> |xi| <= K_SPEC_MAX)
  {
    LayerHolds(cfg, l, st, hi + xi) && if record then CaptureHolds(cfg, l, cap, hi, xi) else cap == was
  }

  /** The first n blocks are done, in a run over `xs` from the history `h`. */
  ghost predicate BlocksDone(cfg: Config, ls: seq<Layer>, s: StageState, h: seq<Val>, xs: seq<Val>, n: nat)
    requires Holds(cfg, ls, s, h) && |h| + |xs| <= cfg.maxCtx && n <= |ls|
  {
    var r := RunTo(cfg, ls, s, xs, n);
    forall i | 0 <= i < n ::
      BlockDone(cfg, ls[i], r.layers[i], r.capture[i], s.capture[i], Records(s, |xs|),
                Inputs(cfg, ls, h, i), Inputs(cfg, ls, h + xs, i)[|h|..])
  }

  lemma {:induction false} RunToHolds(cfg: Config, ls: seq<Layer>, s: StageState, h: seq<Val>, xs: seq<Val>, n: nat)
    requires Holds(cfg, ls, s, h) && |h| + |xs| <= cfg.maxCtx && n <= |ls|
    ensures RunTo(cfg, ls, s, xs, n).ys == Inputs(cfg, ls, h + xs, n)[|h|..] && BlocksDone(cfg, ls, s, h, xs, n)
  {
    hide BlocksDone, Inputs, RunTo, LayerHolds, Fits, CaptureFits, SnapFits;
    if n == 0 {
      NoBlocksDone(cfg, ls, s, h, xs);
    } else {
      RunToHolds(cfg, ls, s, h, xs, n - 1);
      BlockRuns(cfg, ls, s, h, xs, n - 1);
      BlocksDoneNext(cfg, ls, s, h, xs, n - 1);
    }
  }

  lemma NoBlocksDone(cfg: Config, ls: seq<Layer>, s: StageState, h: seq<Val>, xs: seq<Val>)
    requires Holds(cfg, ls, s, h) && |h| + |xs| <= cfg.maxCtx
    ensures RunTo(cfg, ls, s, xs, 0).ys == Inputs(cfg, ls, h + xs, 0)[|h|..] && BlocksDone(cfg, ls, s, h, xs, 0)
  {
  }

  lemma BlocksDoneNext(cfg: Config, ls: seq<Layer>, s: StageState, h: seq<Val>, xs: seq<Val>, n: nat)
    requires Holds(cfg, ls, s, h) && |h| + |xs| <= cfg.maxCtx && n < |ls| && BlocksDone(cfg, ls, s, h, xs, n)
    requires var r := RunTo(cfg, ls, s, xs, n + 1);
      BlockDone(cfg, ls[n], r.layers[n], r.capture[n], s.capture[n], Records(s, |xs|),
                Inputs(cfg, ls, h, n), Inputs(cfg, ls, h + xs, n)[|h|..])
    ensures BlocksDone(cfg, ls, s, h, xs, n + 1)
  {
    hide BlockDone, Fits, CaptureFits, SnapFits, LayerForward, LayerHolds, RefLayer;
    RunToLast(cfg, ls, s, xs, n + 1);
  }

  /** Block n, on the rows the blocks before it leave. */
  lemma BlockRuns(cfg: Config, ls: seq<Layer>, s: StageState, h: seq<Val>, xs: seq<Val>, n: nat)
    requires Holds(cfg, ls, s, h) && |h| + |xs| <= cfg.maxCtx && n < |ls|
    requires RunTo(cfg, ls, s, xs, n).ys == Inputs(cfg, ls, h + xs, n)[|h|..]
    ensures var r := RunTo(cfg, ls, s, xs, n + 1);
      && r.ys == Inputs(cfg, ls, h + xs, n + 1)[|h|..]
      && BlockDone(cfg, ls[n], r.layers[n], r.capture[n], s.capture[n], Records(s, |xs|),
                   Inputs(cfg, ls, h, n), Inputs(cfg, ls, h + xs, n)[|h|..])
  {
    hide LayerForward, LayerHolds, CaptureHolds, RefLayer;
    var hi, xi := Inputs(cfg, ls, h, n), Inputs(cfg, ls, h + xs, n)[|h|..];
    InputsSplit(cfg, ls, h, xs, n);
    LayerForwardHolds(cfg, ls[n], s.layers[n], s.capture[n], Records(s, |xs|), hi, xi);
    RunToLast(cfg, ls, s, xs, n + 1);
  }

  lemma RunToLast(cfg: Config, ls: seq<Layer>, s: StageState, xs: seq<Val>, n: nat)
    requires WellFormed(cfg, ls, s) && s.kvLen + |xs| <= cfg.maxCtx && 0 < n <= |ls|
    ensures var r, p := RunTo(cfg, ls, s, xs, n), RunTo(cfg, ls, s, xs, n - 1);
      var step := LayerForward(cfg, ls[n - 1], s.layers[n - 1], s.capture[n - 1], Records(s, |xs|), p.ys, s.kvLen);
      && r.layers[n - 1] == step.st && r.capture[n - 1] == step.capture && r.ys == step.ys
      && forall i | 0 <= i < n - 1 :: r.layers[i] == p.layers[i] && r.capture[i] == p.capture[i]
  {
  }

  /** A chunk forward, of any length, leaves the state of having consumed the chunk's rows
      after the history, and returns the rows the cache-free reference gives for them. */
  lemma ForwardHolds(cfg: Config, ls: seq<Layer>, s: StageState, h: seq<Val>, xs: seq<Val>)
    requires Holds(cfg, ls, s, h) && Accepts(cfg, s, |xs|, |h|)
    ensures var r := Forward(cfg, ls, s, xs);
      && Holds(cfg, ls, r.state, h + xs)
      && r.rows == RefStage(cfg, ls, h + xs)[|h|..]
      && (Records(s, |xs|) ==> Recorded(cfg, ls, r.state, h, xs))
  {
    RunToHolds(cfg, ls, s, h, xs, |ls|);
    forall i | 0 <= i < |ls|
      ensures Inputs(cfg, ls, h, i) + Inputs(cfg, ls, h + xs, i)[|h|..] == Inputs(cfg, ls, h + xs, i)
    {
      InputsSplit(cfg, ls, h, xs, i);
    }
  }

  lemma ForwardKeepsSnapshot(cfg: Config, ls: seq<Layer>, s: StageState, xs: seq<Val>, h: seq<Val>)
    requires WellFormed(cfg, ls, s) && Accepts(cfg, s, |xs|, s.kvLen) && SnapshotHolds(cfg, ls, s, h)
    ensures SnapshotHolds(cfg, ls, Forward(cfg, ls, s, xs).state, h)
  {
  }

  lemma SnapshotTaken(cfg: Config, ls: seq<Layer>, s: StageState, h: seq<Val>)
    requires Holds(cfg, ls, s, h)
    ensures Holds(cfg, ls, Snapshot(cfg, ls, s), h) && SnapshotHolds(cfg, ls, Snapshot(cfg, ls, s), h)
  {
    forall i | 0 <= i < |ls|
      ensures SnapHolds(cfg, ls[i], Snapshot(cfg, ls, s).snap[i], Inputs(cfg, ls, h, i))
    {
      LayerSnapshotHolds(cfg, ls[i], s.layers[i], s.snap[i], Inputs(cfg, ls, h, i));
    }
  }

  /** A restore undoes any rows consumed since the snapshot, although it leaves their cache rows in place. */
  lemma RestoreUndoes(cfg: Config, ls: seq<Layer>, s: StageState, h: seq<Val>, xs: seq<Val>)
    requires Holds(cfg, ls, s, h + xs) && SnapshotHolds(cfg, ls, s, h)
    ensures Holds(cfg, ls, Restore(cfg, ls, s), h)
  {
    forall i | 0 <= i < |ls|
      ensures LayerHolds(cfg, ls[i], Restore(cfg, ls, s).layers[i], Inputs(cfg, ls, h, i))
    {
      InputsSplit(cfg, ls, h, xs, i);
      LayerRestoreHolds(cfg, ls[i], s.layers[i], s.snap[i], Inputs(cfg, ls, h, i), Inputs(cfg, ls, h + xs, i)[|h|..]);
    }
  }

  lemma CommitKeepsBlock(cfg: Config, ls: seq<Layer>, s: StageState, h: seq<Val>, xs: seq<Val>, n: nat, i: nat)
    requires Holds(cfg, ls, s, h + xs) && SnapshotHolds(cfg, ls, s, h) && Recorded(cfg, ls, s, h, xs)
    requires n <= |xs| && i < |ls|
    ensures var st := LayerCommit(cfg, ls[i], s.layers[i], s.snap[i], s.capture[i], |h|, n);
      LayerHolds(cfg, ls[i], st, Inputs(cfg, ls, h + xs[..n], i))
  {
    var hi, xi := Inputs(cfg, ls, h, i), Inputs(cfg, ls, h + xs, i)[|h|..];
    InputsSplit(cfg, ls, h, xs, i);
    LayerCommitHolds(cfg, ls[i], s.layers[i], s.snap[i], s.capture[i], hi, xi, n);
    InputsJoin(cfg, ls, h, xs, n, i);
  }

  /** Committing n rows of a recorded window leaves the state of having consumed exactly those n rows. */
  lemma CommitKeepsPrefix(cfg: Config, ls: seq<Layer>, s: StageState, h: seq<Val>, xs: seq<Val>, n: nat)
    requires Holds(cfg, ls, s, h + xs) && SnapshotHolds(cfg, ls, s, h) && Recorded(cfg, ls, s, h, xs)
    requires Commits(s, n)
    ensures Holds(cfg, ls, Commit(cfg, ls, s, n), h + xs[..n])
  {
    if n == |xs| {
      assert xs[..n] == xs;
    } else {
      forall i | 0 <= i < |ls|
        ensures LayerHolds(cfg, ls[i], Commit(cfg, ls, s, n).layers[i], Inputs(cfg, ls, h + xs[..n], i))
      {
        CommitKeepsBlock(cfg, ls, s, h, xs, n, i);
      }
    }
  }
}
