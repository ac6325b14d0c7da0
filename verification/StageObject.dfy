/** The stage as the object the runner holds: its fields are updated block by block,
    and each method is tied to the stage's functional specification. */
module StageObject {
  import opened Blocks
  import opened Stage

  lemma PutNext<T>(done: seq<T>, was: seq<T>, x: T)
    requires |done| < |was|
    ensures (done + was[|done|..])[|done|] == was[|done|]
    ensures (done + was[|done|..])[|done| := x] == done + [x] + was[|done| + 1..]
  {
  }

  lemma RunToNext(cfg: Config, ls: seq<Layer>, s: StageState, xs: seq<Val>, i: nat)
    requires WellFormed(cfg, ls, s) && s.kvLen + |xs| <= cfg.maxCtx && i < |ls|
    ensures var p := RunTo(cfg, ls, s, xs, i);
      var r := LayerForward(cfg, ls[i], s.layers[i], s.capture[i], Records(s, |xs|), p.ys, s.kvLen);
      RunTo(cfg, ls, s, xs, i + 1) == LayersRun(p.layers + [r.st], p.capture + [r.capture], r.ys)
  {
    hide LayerForward, Fits, CaptureFits, SnapFits;
  }

  lemma RunToEmpty(cfg: Config, ls: seq<Layer>, s: StageState, xs: seq<Val>)
    requires WellFormed(cfg, ls, s) && s.kvLen + |xs| <= cfg.maxCtx
    ensures RunTo(cfg, ls, s, xs, 0) == LayersRun([], [], xs)
  {
  }

  lemma OfferIs(cfg: Config, ls: seq<Layer>, s: StageState, xs: seq<Val>, start: nat)
    requires WellFormed(cfg, ls, s)
    ensures !Accepts(cfg, s, |xs|, start) ==> Offer(cfg, ls, s, xs, start) == StageStep(s, [])
    ensures Accepts(cfg, s, |xs|, start) ==>
      var r := RunTo(cfg, ls, s, xs, |ls|);
      var specT, specPos := if s.specVerify then |xs| else s.specT, if s.specVerify then start else s.specPos;
      Offer(cfg, ls, s, xs, start)
        == StageStep(
          StageState(r.layers, start + |xs|, s.snap, s.snapKvLen, s.specVerify, r.capture, specT, specPos), r.ys)
  {
    hide RunTo;
  }

  class GlmStage {
    const cfg: Config
    const blocks: seq<Layer>
    var layers: seq<LayerState>
    var kvLen: nat
    var snap: seq<LayerSnap>
    var snapKvLen: nat
    var specVerify: bool
    var capture: seq<LayerCapture>
    var specT: nat
    var specPos: nat

    function View(): StageState
      reads this
    {
      StageState(layers, kvLen, snap, snapKvLen, specVerify, capture, specT, specPos)
    }

    ghost predicate Valid()
      reads this
    {
      WellFormed(cfg, blocks, View())
    }

    constructor (cfg: Config, blocks: seq<Layer>, s: StageState)
      requires WellFormed(cfg, blocks, s)
      ensures this.cfg == cfg && this.blocks == blocks && View() == s
    {
      this.cfg, this.blocks := cfg, blocks;
      layers, kvLen, snap, snapKvLen := s.layers, s.kvLen, s.snap, s.snapKvLen;
      specVerify, capture, specT, specPos := s.specVerify, s.capture, s.specT, s.specPos;
    }

    method SetSpecVerify(on: bool)
      modifies `specVerify
      ensures View() == old(View()).(specVerify := on)
    {
      specVerify := on;
    }

    method ResetState()
      requires Valid()
      modifies this
      ensures View() == Reset(cfg, blocks, old(View()))
    {
      kvLen := 0;
      ghost var was := layers;
      for i := 0 to |blocks|
        modifies `layers
        invariant |layers| == |blocks|
        invariant forall j | i <= j < |blocks| :: layers[j] == was[j]
        invariant forall j | 0 <= j < i :: layers[j] == if blocks[j].KdaLayer? then KdaState(0, 0) else was[j]
      {
        if blocks[i].KdaLayer? { layers := layers[i := KdaState(0, 0)]; }
      }
    }

    method ForwardRange(xs: seq<Val>, start: nat) returns (ok: bool, rows: seq<Val>)
      requires Valid()
      modifies this
      ensures ok <==>
        && 0 < |xs| <= cfg.maxChunk && start == old(kvLen) && start + |xs| <= cfg.maxCtx
        && (cfg.sparse || start + |xs| <= cfg.topK + cfg.kpool - 1)
      ensures ok == Accepts(cfg, old(View()), |xs|, start)
      ensures StageStep(View(), rows) == Offer(cfg, blocks, old(View()), xs, start)
    {
      hide Offer, Forward, RunTo, Fits, CaptureFits, SnapFits;
      OfferIs(cfg, blocks, View(), xs, start);
      if |xs| == 0 || |xs| > cfg.maxChunk || start != kvLen
        || (!cfg.sparse && start + |xs| > cfg.topK + cfg.kpool - 1) || start + |xs| > cfg.maxCtx {
        return false, [];
      }
      ghost var s := View();
      if specVerify { specT, specPos := |xs|, start; }
      rows := RunBlocks(xs, s);
      kvLen := start + |xs|;
      return true, rows;
    }

    /** The first i blocks have run over the chunk, and left their rows. */
    ghost predicate RanTo(s: StageState, xs: seq<Val>, i: nat, rows: seq<Val>)
      requires WellFormed(cfg, blocks, s) && s.kvLen + |xs| <= cfg.maxCtx && i <= |blocks|
      reads this
    {
      var r := RunTo(cfg, blocks, s, xs, i);
      layers == r.layers + s.layers[i..] && capture == r.capture + s.capture[i..] && rows == r.ys
    }

    /** One block over the chunk, its own state updated in place. */
    method RunBlock(i: nat, xs: seq<Val>, ghost s: StageState, rows: seq<Val>) returns (ys: seq<Val>)
      requires WellFormed(cfg, blocks, s) && kvLen == s.kvLen && kvLen + |xs| <= cfg.maxCtx
      requires specVerify == s.specVerify
      requires i < |blocks| && RanTo(s, xs, i, rows)
      modifies `layers, `capture
      ensures RanTo(s, xs, i + 1, ys)
    {
      hide LayerForward, RunTo, Fits, CaptureFits, SnapFits;
      ghost var p := RunTo(cfg, blocks, s, xs, i);
      RunToNext(cfg, blocks, s, xs, i);
      var r := LayerForward(cfg, blocks[i], layers[i], capture[i], specVerify && |xs| <= K_SPEC_MAX, rows, kvLen);
      PutNext(p.layers, s.layers, r.st);
      PutNext(p.capture, s.capture, r.capture);
      layers, capture, ys := layers[i := r.st], capture[i := r.capture], r.ys;
    }

    method RunBlocks(xs: seq<Val>, ghost s: StageState) returns (rows: seq<Val>)
      requires WellFormed(cfg, blocks, s) && kvLen == s.kvLen && kvLen + |xs| <= cfg.maxCtx
      requires specVerify == s.specVerify
      requires layers == s.layers && capture == s.capture
      modifies `layers, `capture
      ensures var r := RunTo(cfg, blocks, s, xs, |blocks|); layers == r.layers && capture == r.capture && rows == r.ys
    {
      hide RunTo, Fits, CaptureFits, SnapFits;
      rows := xs;
      RunToEmpty(cfg, blocks, s, xs);
      for i := 0 to |blocks|
        invariant RanTo(s, xs, i, rows)
      {
        rows := RunBlock(i, xs, s, rows);
      }
      assert s.layers[|blocks|..] == [] && s.capture[|blocks|..] == [];
    }

    method SnapshotState()
      requires Valid()
      modifies this
      ensures View() == Snapshot(cfg, blocks, old(View()))
    {
      ghost var s := View();
      for i := 0 to |blocks|
        modifies `snap
        invariant |snap| == |blocks|
        invariant forall j | i <= j < |blocks| :: snap[j] == s.snap[j]
        invariant forall j | 0 <= j < i :: snap[j] == LayerSnapshot(cfg, blocks[j], layers[j], s.snap[j])
      {
        snap := snap[i := LayerSnapshot(cfg, blocks[i], layers[i], snap[i])];
      }
      snapKvLen := kvLen;
    }

    method RestoreState()
      requires Valid()
      modifies this
      ensures View() == Restore(cfg, blocks, old(View()))
    {
      ghost var s := View();
      for i := 0 to |blocks|
        modifies `layers
        invariant |layers| == |blocks|
        invariant forall j | i <= j < |blocks| :: layers[j] == s.layers[j]
        invariant forall j | 0 <= j < i :: layers[j] == LayerRestore(cfg, blocks[j], s.layers[j], snap[j])
      {
        layers := layers[i := LayerRestore(cfg, blocks[i], layers[i], snap[i])];
      }
      kvLen := snapKvLen;
    }

    method CommitVerify(n: nat) returns (ok: bool)
      requires Valid()
      modifies this
      ensures Valid()
      ensures ok <==> old(specVerify) && 0 < n <= old(specT)
      ensures ok == Commits(old(View()), n)
      ensures View() == if ok then Commit(cfg, blocks, old(View()), n) else old(View())
    {
      if !specVerify || specT == 0 { return false; }
      if n == 0 || n > specT { return false; }
      if n == specT { return true; }
      ghost var s := View();
      for i := 0 to |blocks|
        modifies `layers
        invariant |layers| == |blocks|
        invariant forall j | i <= j < |blocks| :: layers[j] == s.layers[j]
        invariant forall j | 0 <= j < i ::
          layers[j] == LayerCommit(cfg, blocks[j], s.layers[j], snap[j], capture[j], specPos, n)
      {
        layers := layers[i := LayerCommit(cfg, blocks[i], layers[i], snap[i], capture[i], specPos, n)];
      }
      kvLen := specPos + n;
      return true;
    }
  }
}
