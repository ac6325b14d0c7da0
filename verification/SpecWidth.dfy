/** How wide a speculative window may be. The runner does not bound --spec; past the
    8 rows the capture holds, a verify forward records nothing, a partial commit
    replays stale rows, and the loop no longer prints the greedy text. */
module SpecWidth {
  import opened Blocks
  import opened Stage
  import opened Greedy
  import opened Speculative

  /** A block whose state is the sum of the rows it consumed, and whose output row is that sum. */
  function Summing(): KdaKernels {
    KdaKernels(x => x, (c, i) => 0, (c, i) => i, (x, o) => x, (s, i) => s + i, (x, s, i) => s + i)
  }

  function WideConfig(spec: nat): Config { Config(1, true, 0, spec + 10, spec + 10) }

  /** Stage A only embeds, stage B sums: the next token is the sum of the text. */
  function SumNet(spec: nat): Net {
    Net(WideConfig(spec), [], [KdaLayer(Summing())], t => t, x => x)
  }

  /** A head that always drafts token 0. */
  function ZeroHead(): Head { Head(_ => 0, _ => 0) }

  function Zeros(): seq<Val> { seq(K_SPEC_MAX, _ => 0) }

  function StageAAfter(n: nat): StageState { StageState([], n, [], 0, false, [], 0, 0) }

  function StageBAfter(n: nat, sum: Val): StageState {
    StageState([KdaState(0, sum)], n, [KdaSnap(0, 0)], 0, false, [KdaCapture(Zeros(), Zeros())], 0, 0)
  }

  lemma SumWide(spec: nat, h: seq<Tok>)
    ensures WideRows(SumNet(spec), h) == h
  {
    assert Embed(SumNet(spec), h) == h;
  }

  lemma SumMean(spec: nat, h: seq<Tok>)
    requires |h| > 0
    ensures Last(MeanRows(SumNet(spec), h)) == RefRow(WideConfig(spec), KdaLayer(Summing()), h)
  {
    hide RefRow, WideRows;
    var net, l := SumNet(spec), KdaLayer(Summing());
    SumWide(spec, h);
    assert Inputs(net.cfg, net.lb, h, 1) == RefLayer(net.cfg, l, Inputs(net.cfg, net.lb, h, 0));
    assert h[..|h| - 1 + 1] == h;
  }

  lemma SumNext(spec: nat, h: seq<Tok>)
    requires |h| > 0
    ensures Last(MeanRows(SumNet(spec), h)) == Next(SumNet(spec), h) == ScanAt(Summing(), h)
    ensures WideRows(SumNet(spec), h) == h
  {
    hide WideRows, MeanRows;
    SumWide(spec, h);
    SumMean(spec, h);
  }

  lemma {:induction false} SumOf(h: seq<Tok>, t: Tok)
    ensures ScanAt(Summing(), h + [t]) == ScanAt(Summing(), h) + t
  {
    assert Front(h + [t]) == h && Last(h + [t]) == t;
  }

  lemma GreedyStep(spec: nat, n: nat, h: seq<Tok>, sum: Tok)
    requires h == Text(SumNet(spec), [1], n) && ScanAt(Summing(), h) == sum
    ensures Continuation(SumNet(spec), [1], n + 1) == Continuation(SumNet(spec), [1], n) + [sum]
    ensures h + [sum] == Text(SumNet(spec), [1], n + 1) && ScanAt(Summing(), h + [sum]) == sum + sum
  {
    SumNext(spec, h);
    TextGrows(SumNet(spec), [1], n);
    SumOf(h, sum);
  }

  /** After the prompt [1], greedy prints 1, 2, 4. */
  lemma GreedySums(spec: nat)
    ensures Continuation(SumNet(spec), [1], 3) == [1, 2, 4]
  {
    hide Continuation, ScanAt;
    assert Continuation(SumNet(spec), [1], 0) == [] by { NothingPrinted(spec); }
    SumOf([], 1);
    assert ScanAt(Summing(), []) == 0 by { NothingPrinted(spec); }
    var h: seq<Tok> := [1];
    assert [] + [1] == h == [1] + [];
    GreedyStep(spec, 0, h, 1);
    GreedyStep(spec, 1, h + [1], 2);
    GreedyStep(spec, 2, h + [1] + [2], 4);
  }

  lemma NothingPrinted(spec: nat)
    ensures Continuation(SumNet(spec), [1], 0) == [] && ScanAt(Summing(), []) == 0
  {
  }

  /** Between rounds stage B is stuck at the sum 1, whatever was printed. */
  ghost predicate Stuck(spec: nat, s: Session) {
    && SessionOk(SumNet(spec), spec, s) && !s.failed
    && s.a.kvLen == s.b.kvLen == s.pos
    && s.b.layers == [KdaState(0, 1)] && s.b.capture == [KdaCapture(Zeros(), Zeros())]
    && s.t > 0
  }

  /** Every draft after the first token is 0. */
  lemma {:induction false} DraftsZero(log: seq<DraftEntry>, hid: Val, win: seq<Tok>, pos: nat, d: nat, spec: nat)
    requires |win| == d + 1 && d < spec
    ensures DraftFrom(ZeroHead(), log, hid, win, pos, d, spec).win[d + 1] == 0
  {
    var log1 := log + [DraftEntry(hid, Last(win), pos + d)];
    var r := DraftFrom(ZeroHead(), log1, 0, win + [0], pos, d + 1, spec);
    assert r.win[..d + 2][d + 1] == (win + [0])[d + 1];
  }

  /** The verify forward over a window that is too wide: it scores the first token right, and records nothing. */
  lemma WideForward(spec: nat, b: StageState, win: seq<Tok>)
    requires spec + 1 > K_SPEC_MAX && |win| == spec + 1
    requires WellFormed(WideConfig(spec), SumNet(spec).lb, b) && b.kvLen + |win| <= spec + 10
    requires b.layers == [KdaState(0, 1)] && b.specVerify
    ensures var f := Forward(WideConfig(spec), SumNet(spec).lb, b, win);
      && f.rows[0] == 1 + win[0] && f.state.capture == b.capture
      && f.state.specT == spec + 1 && f.state.specPos == b.kvLen && f.state.snap == b.snap
  {
    var cfg, ls, k := WideConfig(spec), SumNet(spec).lb, Summing();
    var r := LayerForward(cfg, ls[0], b.layers[0], b.capture[0], false, win, b.kvLen);
    assert RunTo(cfg, ls, b, win, 0) == LayersRun([], [], win);
    assert RunTo(cfg, ls, b, win, 1) == LayersRun([] + [r.st], [] + [r.capture], r.ys);
    var sis := ScanInputs(k, 0, win);
    assert sis[0] == win[0] && sis[..0] == [];
    assert r.ys[0] == KdaOutputs(k, 1, win, sis)[0] == k.out(win[0], ScanPass(k, 1, sis[..0]), sis[0]);
  }

  /** The commit of one row replays a stale row, and leaves the sum as it was. */
  lemma StaleCommit(spec: nat, b: StageState)
    requires WellFormed(WideConfig(spec), SumNet(spec).lb, b) && Commits(b, 1) && b.specT > 1
    requires b.snap == [KdaSnap(0, 1)] && b.capture == [KdaCapture(Zeros(), Zeros())]
    ensures var r := Commit(WideConfig(spec), SumNet(spec).lb, b, 1);
      r.layers == [KdaState(0, 1)] && r.kvLen == b.specPos + 1 && r.capture == b.capture
  {
    var k := Summing();
    assert Rows(Zeros(), 1) == [0];
    assert ScanPass(k, 1, [0]) == k.scan(ScanPass(k, 1, []), 0) by { assert Front([0]) == []; }
    assert ConvPass(k, 0, [0]) == 0;
  }

  /** A round prints t, drafts wrong, commits one stale row, and goes on with 1 + t. */
  lemma StuckRound(spec: nat, ngen: nat, s: Session)
    requires spec + 1 > K_SPEC_MAX && Stuck(spec, s) && s.pos <= 3
    ensures var r := SpecRound(SumNet(spec), ZeroHead(), spec, ngen, s);
      && r.tally.printed == s.tally.printed + [s.t] && r.t == 1 + s.t && r.pos == s.pos + 1
      && !r.failed && Stuck(spec, r)
  {
    var net, head := SumNet(spec), ZeroHead();
    var cfg := net.cfg;
    var dr := RoundDraft(head, spec, s);
    var a, b := Snapshot(cfg, net.la, s.a), Snapshot(cfg, net.lb, s.b);
    DraftsZero(s.log, s.mean[s.lastT - 1], [s.t], s.pos, 0, spec);
    assert dr.win[0] == s.t && dr.win[1] == 0;
    assert b.snap == [KdaSnap(0, 1)] && b.layers == [KdaState(0, 1)] by { assert b.snap[0] == KdaSnap(0, 1); }
    WideForward(spec, b, dr.win);
    RoundKeepsSession(net, head, spec, ngen, s);
    RoundIs(net, head, spec, ngen, s);
    var v := RoundVerify(net, spec, s, dr.win);
    assert v.ok && v.b == Forward(cfg, net.lb, b, dr.win).state && v.rows[0] == 1 + s.t by {
      hide Forward;
      assert Embed(net, dr.win) == dr.win;
      assert Forward(cfg, net.la, a, dr.win).rows == dr.win by { EmptyStage(spec, a, dr.win); }
    }
    assert v.a.specT == spec + 1 && v.a.kvLen == s.pos + spec + 1;
    StaleCommit(spec, v.b);
  }

  lemma EmptyStage(spec: nat, a: StageState, xs: seq<Val>)
    requires WellFormed(WideConfig(spec), [], a) && Accepts(WideConfig(spec), a, |xs|, a.kvLen)
    ensures Forward(WideConfig(spec), [], a, xs).rows == xs
  {
  }

  function WideStart(spec: nat): Session {
    Start(StageAAfter(1), StageBAfter(1, 1), [1], 1, 1, 1, spec)
  }

  lemma WideStartIs(spec: nat)
    ensures AfterPrefill(SumNet(spec), [1], StageAAfter(1), StageBAfter(1, 1), [1], 1, 1)
    ensures Stuck(spec, WideStart(spec))
  {
    assert [] + [1] == [1];
    SumOf([], 1);
    SumNext(spec, [1]);
    assert Inputs(WideConfig(spec), SumNet(spec).lb, [1], 0) == [1];
    assert MeanRows(SumNet(spec), [1]) == [Last(MeanRows(SumNet(spec), [1]))];
    assert ConvAt(Summing(), [1]) == 0;
  }

  /** A window wider than the capture prints 1, 2, 3 where greedy prints 1, 2, 4. */
  lemma WideWindowDiverges(spec: nat)
    requires spec + 1 > K_SPEC_MAX
    ensures Stuck(spec, WideStart(spec))
    ensures SpecRun(SumNet(spec), ZeroHead(), spec, 3, WideStart(spec)).tally.printed == [1, 2, 3]
  {
    hide SpecRound, Stuck;
    var net, head := SumNet(spec), ZeroHead();
    var s0 := WideStart(spec);
    WideStartIs(spec);
    StuckOk(spec, s0);
    StuckRound(spec, 3, s0);
    var s1 := SpecRound(net, head, spec, 3, s0);
    StuckOk(spec, s1);
    StuckRound(spec, 3, s1);
    var s2 := SpecRound(net, head, spec, 3, s1);
    StuckOk(spec, s2);
    StuckRound(spec, 3, s2);
    var s3 := SpecRound(net, head, spec, 3, s2);
    StuckOk(spec, s3);
    assert SpecRun(net, head, spec, 3, s3) == s3;
    assert SpecRun(net, head, spec, 3, s2) == s3;
    assert SpecRun(net, head, spec, 3, s1) == s3;
  }

  lemma StuckOk(spec: nat, s: Session)
    requires Stuck(spec, s)
    ensures SessionOk(SumNet(spec), spec, s) && !s.failed
  {
  }

  /** A run that fills the context: the plain loop has room for it, and with any draft at all some head makes the
      speculative loop end in an error. */
  lemma PlainHasRoomSpecDoesNot(spec: nat)
    requires 0 < spec && spec + 1 <= K_SPEC_MAX
    ensures var net, ngen := SumNet(spec), spec + 9;
      && AfterPrefill(net, [1], StageAAfter(1), StageBAfter(1, 1), [1], 1, 1)
      && 1 + ngen <= Limit(net.cfg) && spec + 1 <= net.cfg.maxChunk
      && SessionOk(net, spec, WideStart(spec))
      && exists head: Head :: SpecRun(net, head, spec, ngen, WideStart(spec)).failed
  {
    hide AfterPrefill, SpecRun;
    WideStartIs(spec);
    RefusedExactly(SumNet(spec), [1], StageAAfter(1), StageBAfter(1, 1), [1], 1, 1, spec, spec + 9);
  }

  /** With room for every window, the run from this prefill prints all of the greedy text. */
  ghost predicate PrintsGreedy(net: Net, head: Head, prompt: seq<Tok>, a: StageState, b: StageState, mean: seq<Val>,
        lastT: nat, t: Tok, spec: nat, ngen: nat) {
    AfterPrefill(net, prompt, a, b, mean, lastT, t) && |prompt| + ngen + spec <= Limit(net.cfg)
        && spec + 1 <= net.cfg.maxChunk ==>
      var s := Start(a, b, mean, lastT, |prompt|, t, spec);
      SessionOk(net, spec, s) && SpecRun(net, head, spec, ngen, s).tally.printed == Continuation(net, prompt, ngen)
  }

  /** The loop prints the greedy text for every model, prompt and draft head exactly when the window fits the
      capture. */
  lemma SpecIsGreedyExactly(spec: nat)
    ensures
      (forall net, head, prompt, a, b, mean, lastT, t, ngen ::
        PrintsGreedy(net, head, prompt, a, b, mean, lastT, t, spec, ngen))
      <==> spec + 1 <= 8
  {
    hide AfterPrefill, SpecRun, Continuation;
    if spec + 1 <= K_SPEC_MAX {
      forall net, head, prompt, a, b, mean, lastT, t, ngen
        ensures PrintsGreedy(net, head, prompt, a, b, mean, lastT, t, spec, ngen)
      {
        if AfterPrefill(net, prompt, a, b, mean, lastT, t) {
          SpecIsGreedy(net, head, prompt, a, b, mean, lastT, t, spec, ngen);
        }
      }
    } else {
      WideStartIs(spec);
      WideWindowDiverges(spec);
      GreedySums(spec);
      assert !PrintsGreedy(SumNet(spec), ZeroHead(), [1], StageAAfter(1), StageBAfter(1, 1), [1], 1, 1, spec, 3);
    }
  }
}
