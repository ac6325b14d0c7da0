/** The runner's decode loops over its two stage objects, as it writes them. */
module SpecLoop {
  import opened Blocks
  import opened Stage
  import opened StageObject
  import opened Greedy
  import opened Speculative

  method DraftWindow(head: Head, log0: seq<DraftEntry>, hid0: Val, t: Tok, pos: nat, spec: nat)
    returns (log: seq<DraftEntry>, win: seq<Tok>)
    ensures Drafted(log, win) == DraftFrom(head, log0, hid0, [t], pos, 0, spec)
    ensures |log| == |log0| + spec && log[..|log0|] == log0 && |win| == spec + 1 && win[0] == t
    ensures forall d | 0 <= d < spec ::
      log[|log0| + d] == DraftEntry(if d == 0 then hid0 else head.hidden(log[..|log0| + d]), win[d], pos + d)
    ensures forall n | |log0| < n <= |log| :: win[n - |log0|] == head.draft(log[..n])
  {
    DraftIs(head, log0, hid0, t, pos, spec);
    log, win := log0, [t];
    var hid := hid0;
    for d := 0 to spec
      invariant |win| == d + 1
      invariant DraftFrom(head, log, hid, win, pos, d, spec) == DraftFrom(head, log0, hid0, [t], pos, 0, spec)
    {
      log := log + [DraftEntry(hid, win[|win| - 1], pos + d)];
      win := win + [head.draft(log)];
      hid := head.hidden(log);
    }
    forall d: nat | d < spec
      ensures log[|log0| + d] == DraftEntry(if d == 0 then hid0 else head.hidden(log[..|log0| + d]), win[d], pos + d)
    {
      assert IsStep(head, hid0, pos, |log0|, log, win, d);
    }
    forall n | |log0| < n <= |log| ensures win[n - |log0|] == head.draft(log[..n]) {
      assert IsStep(head, hid0, pos, |log0|, log, win, n - 1 - |log0|);
    }
  }

  lemma ScanExactly(win: seq<Tok>, am: seq<Tok>, ngen: nat, y0: Tally, r: Scan)
    requires |y0.tryAt| == |y0.accAt| == |win| - 1 && 0 < |win| == |am| && r == ScanFrom(win, am, ngen, y0, 0)
    ensures var y := r.tally;
      && 0 < r.nRows <= |win| && y.printed == y0.printed + win[..r.nRows] && r.next == am[r.nRows - 1]
      && (forall k | 0 <= k < r.nRows - 1 :: am[k] == win[k + 1] && |y0.printed| + k + 1 < ngen)
      && (r.nRows < |win| ==> am[r.nRows - 1] != win[r.nRows] || |y.printed| >= ngen)
      && y.rounds == y0.rounds && y.drafted == y0.drafted && y.accepted == y0.accepted + r.nRows - 1
      && |y.tryAt| == |y.accAt| == |win| - 1
      && (forall d | 0 <= d < |win| - 1 :: y.tryAt[d] == y0.tryAt[d] + if d < r.nRows then 1 else 0)
      && (forall d | 0 <= d < |win| - 1 :: y.accAt[d] == y0.accAt[d] + if d < r.nRows - 1 then 1 else 0)
  {
    hide ScanFrom;
    ScanCounts(win, am, ngen, y0, 0);
    ScanStops(win, am, ngen, y0, 0);
    assert win[0..r.nRows] == win[..r.nRows];
    forall k | 0 <= k < r.nRows - 1 ensures am[k] == win[k + 1] && |y0.printed| + k + 1 < ngen {
      assert |y0.printed| + (k - 0) + 1 == |y0.printed| + k + 1;
    }
  }

  /** Print the window's tokens while the verify rows confirm the drafts after them. */
  method ScanWindow(win: seq<Tok>, am: seq<Tok>, ngen: nat, y0: Tally) returns (y: Tally, nRows: nat, next: Tok)
    requires |y0.tryAt| == |y0.accAt| == |win| - 1 && 0 < |win| == |am|
    ensures Scan(y, nRows, next) == ScanFrom(win, am, ngen, y0, 0)
    ensures 0 < nRows <= |win| && y.printed == y0.printed + win[..nRows] && next == am[nRows - 1]
    ensures forall k | 0 <= k < nRows - 1 :: am[k] == win[k + 1] && |y0.printed| + k + 1 < ngen
    ensures nRows < |win| ==> am[nRows - 1] != win[nRows] || |y.printed| >= ngen
    ensures y.rounds == y0.rounds && y.drafted == y0.drafted && y.accepted == y0.accepted + nRows - 1
    ensures |y.tryAt| == |y.accAt| == |win| - 1
    ensures forall d | 0 <= d < |win| - 1 :: y.tryAt[d] == y0.tryAt[d] + if d < nRows then 1 else 0
    ensures forall d | 0 <= d < |win| - 1 :: y.accAt[d] == y0.accAt[d] + if d < nRows - 1 then 1 else 0
  {
    y, nRows := y0, |win|;
    var i := 0;
    while true
      invariant i < |win| && |y.tryAt| == |y.accAt| == |win| - 1 && nRows == |win|
      invariant ScanFrom(win, am, ngen, y, i) == ScanFrom(win, am, ngen, y0, 0)
      decreases |win| - i
    {
      y := y.(printed := y.printed + [win[i]]);
      next := am[i];
      if i + 1 < |win| {
        y := y.(tryAt := y.tryAt[i := y.tryAt[i] + 1]);
        if am[i] == win[i + 1] && |y.printed| < ngen {
          y := y.(accepted := y.accepted + 1, accAt := y.accAt[i := y.accAt[i] + 1]);
          i := i + 1;
          continue;
        }
        nRows := i + 1;
      }
      break;
    }
    ScanExactly(win, am, ngen, y0, Scan(y, nRows, next));
  }

  /** The window through both stages; rows are stage B's, one per window token. */
  method VerifyWindow(net: Net, a: GlmStage, b: GlmStage, win: seq<Tok>, pos: nat) returns (ok: bool, rows: seq<Val>)
    requires a != b && a.Valid() && b.Valid() && a.cfg == b.cfg == net.cfg && a.blocks == net.la && b.blocks == net.lb
    modifies a, b
    ensures var v := Verify(net, old(a.View()), old(b.View()), win, pos);
      a.View() == v.a && b.View() == v.b && ok == v.ok && (ok ==> rows == v.rows)
  {
    hide Forward, Accepts, WellFormed;
    var wide;
    ok, wide := a.ForwardRange(Embed(net, win), pos);
    if !ok { return false, []; }
    ok, rows := b.ForwardRange(wide, pos);
  }

  /** After the scan: commit the kept rows on each stage unless the whole window was kept. */
  method SettleWindow(net: Net, a: GlmStage, b: GlmStage, n: nat, width: nat) returns (ok: bool)
    requires a != b && a.Valid() && b.Valid() && a.cfg == b.cfg == net.cfg && a.blocks == net.la && b.blocks == net.lb
    modifies a, b
    ensures ok == (n == width || (Commits(old(a.View()), n) && Commits(old(b.View()), n)))
    ensures a.View() == if n == width then old(a.View()) else CommitStage(net.cfg, net.la, old(a.View()), n)
    ensures b.View() == if n == width || !Commits(old(a.View()), n) then old(b.View())
                        else CommitStage(net.cfg, net.lb, old(b.View()), n)
  {
    hide Commit, WellFormed;
    if n == width { return true; }
    ok := a.CommitVerify(n);
    if !ok { return false; }
    ok := b.CommitVerify(n);
  }

  ghost predicate Wired(net: Net, a: GlmStage, b: GlmStage)
    reads a, b
  {
    a != b && a.Valid() && b.Valid() && a.cfg == b.cfg == net.cfg && a.blocks == net.la && b.blocks == net.lb
  }

  /** The three ways a round ends, over the states its steps leave. */
  lemma RoundEnds(net: Net, head: Head, spec: nat, ngen: nat, s: Session, a1: StageState, b1: StageState, dr: Drafted,
        v: Verified)
    requires SessionOk(net, spec, s) && a1 == Snapshot(net.cfg, net.la, s.a) && b1 == Snapshot(net.cfg, net.lb, s.b)
    requires dr == DraftFrom(head, s.log, s.mean[s.lastT - 1], [s.t], s.pos, 0, spec)
        && v == Verify(net, a1, b1, dr.win, s.pos)
    ensures var y := s.tally.(rounds := s.tally.rounds + 1, drafted := s.tally.drafted + spec);
      SpecRound(net, head, spec, ngen, s) ==
        if !DraftFits(net, s.pos, spec) then s.(a := a1, b := b1, failed := true)
        else if !v.ok then s.(a := v.a, b := v.b, log := dr.log, tally := y, failed := true)
        else
          var c := ScanFrom(dr.win, Picks(net, v.rows), ngen, y, 0);
          Settle(net, s.(a := v.a, b := v.b, log := dr.log, tally := y), v, dr.log, c)
  {
    hide Snapshot, Verify, ScanFrom, Picks, DraftFrom, CommitStage, Commits;
  }

  /** The loop's variables, in main's order of use. */
  class SpecVars {
    var log: seq<DraftEntry>
    var mean: seq<Val>
    var lastT: nat
    var pos: nat
    var t: Tok
    var tally: Tally
    var failed: bool

    constructor (spec: nat, mean: seq<Val>, lastT: nat, pos: nat, t: Tok)
      ensures log == [] && this.mean == mean && this.lastT == lastT && this.pos == pos && this.t == t && !failed
      ensures tally == Tally([], 0, 0, 0, seq(spec, _ => 0), seq(spec, _ => 0))
    {
      log, failed, tally := [], false, Tally([], 0, 0, 0, seq(spec, _ => 0), seq(spec, _ => 0));
      this.mean, this.lastT, this.pos, this.t := mean, lastT, pos, t;
    }

    function On(a: GlmStage, b: GlmStage): Session
      reads this, a, b
    {
      Session(a.View(), b.View(), log, mean, lastT, pos, t, tally, failed)
    }

    /** Scan the verified window and settle both stages on the rows it kept. */
    method Keep(net: Net, a: GlmStage, b: GlmStage, win: seq<Tok>, rows: seq<Val>, ngen: nat, ghost s: Session)
      requires Wired(net, a, b) && s == On(a, b) && !s.failed
      requires |s.tally.tryAt| == |s.tally.accAt| == |win| - 1 && |rows| == |win| > 0
      modifies this, a, b
      ensures var c := ScanFrom(win, Picks(net, rows), ngen, s.tally, 0);
        On(a, b) == Settle(net, s, Verified(s.a, s.b, rows, true), s.log, c)
    {
      hide ScanFrom, WellFormed, CommitStage, Commits, Picks;
      var nRows, next;
      tally, nRows, next := ScanWindow(win, Picks(net, rows), ngen, tally);
      var ok := SettleWindow(net, a, b, nRows, |win|);
      failed := !ok;
      mean, lastT, pos, t := rows, nRows, pos + nRows, next;
    }

    /** One round. */
    method Round(net: Net, head: Head, a: GlmStage, b: GlmStage, spec: nat, ngen: nat)
      requires Wired(net, a, b) && SessionOk(net, spec, On(a, b)) && !failed
      modifies this, a, b
      ensures On(a, b) == SpecRound(net, head, spec, ngen, old(On(a, b)))
    {
      hide SpecRound, Settle, Snapshot, DraftFrom, ScanFrom, Verify, WellFormed, Picks;
      ghost var s := On(a, b);
      a.SnapshotState();
      b.SnapshotState();
      ghost var a1, b1 := a.View(), b.View();
      ghost var dr := DraftFrom(head, s.log, s.mean[s.lastT - 1], [s.t], s.pos, 0, spec);
      RoundEnds(net, head, spec, ngen, s, a1, b1, dr, Verify(net, a1, b1, dr.win, s.pos));
      if !DraftFits(net, pos, spec) { failed := true; return; }
      var win;
      log, win := DraftWindow(head, log, mean[lastT - 1], t, pos, spec);
      tally := tally.(rounds := tally.rounds + 1, drafted := tally.drafted + spec);
      var ok, rows := VerifyWindow(net, a, b, win, pos);
      if !ok { failed := true; return; }
      Keep(net, a, b, win, rows, ngen, On(a, b));
    }

    /** The whole loop does what the functional run does. */
    method Decode(net: Net, head: Head, a: GlmStage, b: GlmStage, spec: nat, ngen: nat)
      requires Wired(net, a, b) && SessionOk(net, spec, On(a, b)) && !failed
      modifies this, a, b
      ensures On(a, b) == SpecRun(net, head, spec, ngen, old(On(a, b)))
    {
      hide SpecRound;
      ghost var s := On(a, b);
      while |tally.printed| < ngen && !failed
        invariant Wired(net, a, b) && SessionOk(net, spec, On(a, b))
        invariant SpecRun(net, head, spec, ngen, On(a, b)) == SpecRun(net, head, spec, ngen, s)
        decreases if failed then 0 else 1 + ngen - |tally.printed|
      {
        RoundKeepsSession(net, head, spec, ngen, On(a, b));
        Round(net, head, a, b, spec, ngen);
      }
    }
  }

  /** --spec from a prefill: with a window the capture can hold it prints the greedy text, or a prefix of it
      and an error when a window does not fit the context; for every width the counters add up. */
  method SpecDecode(net: Net, head: Head, ghost prompt: seq<Tok>, a: GlmStage, b: GlmStage, mean: seq<Val>, lastT: nat,
        pos: nat, t: Tok, spec: nat, ngen: nat)
    returns (ok: bool, y: Tally)
    requires Wired(net, a, b) && AfterPrefill(net, prompt, a.View(), b.View(), mean, lastT, t) && pos == |prompt|
    modifies a, b
    ensures ok ==> Balanced(spec, y)
    ensures spec + 1 <= K_SPEC_MAX ==>
      var n := |y.printed|;
      && n <= ngen && y.printed == Continuation(net, prompt, n)
      && (ok <==> n == ngen) && (!ok ==> !Room(net, |prompt| + n, spec))
      && (ok ==> AHolds(net, a.View(), Text(net, prompt, n)) && BHolds(net, b.View(), Text(net, prompt, n)))
      && (|prompt| + ngen + spec <= Limit(net.cfg) && spec + 1 <= net.cfg.maxChunk ==> ok)
  {
    hide SpecRun, AHolds, BHolds, MeanRows, Next, Limit, Balanced;
    StartInStep(net, prompt, a.View(), b.View(), mean, lastT, t, spec);
    if spec + 1 <= K_SPEC_MAX { SpecIsGreedy(net, head, prompt, a.View(), b.View(), mean, lastT, t, spec, ngen); }
    SpecIsAccounted(net, head, a.View(), b.View(), mean, lastT, pos, t, spec, ngen);
    var vars := new SpecVars(spec, mean, lastT, pos, t);
    a.SetSpecVerify(true);
    b.SetSpecVerify(true);
    vars.Decode(net, head, a, b, spec, ngen);
    ok, y := !vars.failed, vars.tally;
  }

  /** The plain loop: print t, run one token through both stages, take the argmax. */
  method PlainDecode(net: Net, ghost prompt: seq<Tok>, a: GlmStage, b: GlmStage, pos0: nat, t0: Tok, ngen: nat)
    returns (ok: bool, printed: seq<Tok>)
    requires Wired(net, a, b) && |prompt| == pos0 > 0 && t0 == Next(net, prompt)
    requires AHolds(net, a.View(), prompt) && BHolds(net, b.View(), prompt)
    modifies a, b
    ensures printed == Continuation(net, prompt, |printed|) && |printed| <= ngen
    ensures ok ==> |printed| == ngen
    ensures ok ==> AHolds(net, a.View(), Text(net, prompt, ngen)) && BHolds(net, b.View(), Text(net, prompt, ngen))
    ensures ok <==> ngen == 0 || (pos0 + ngen <= Limit(net.cfg) && 1 <= net.cfg.maxChunk)
  {
    hide Holds, WideRows, MeanRows, Limit, Forward;
    printed := [];
    var pos, t := pos0, t0;
    assert Text(net, prompt, 0) == prompt;
    for s := 0 to ngen
      invariant Wired(net, a, b) && pos == pos0 + s && printed == Continuation(net, prompt, s)
          && t == Next(net, Text(net, prompt, s))
      invariant AHolds(net, a.View(), Text(net, prompt, s)) && BHolds(net, b.View(), Text(net, prompt, s))
      invariant s == 0 || (pos <= Limit(net.cfg) && 1 <= net.cfg.maxChunk)
    {
      TextGrows(net, prompt, s);
      printed := printed + [t];
      var step, row := OneToken(net, Text(net, prompt, s), a, b, t, pos);
      if !step { return false, printed; }
      pos, t := pos + 1, net.pick(row);
    }
    ok := true;
  }

  method OneToken(net: Net, ghost h: seq<Tok>, a: GlmStage, b: GlmStage, t: Tok, pos: nat) returns (ok: bool, row: Val)
    requires Wired(net, a, b) && AHolds(net, a.View(), h) && BHolds(net, b.View(), h) && pos == |h|
    modifies a, b
    ensures ok == (pos + 1 <= Limit(net.cfg) && 1 <= net.cfg.maxChunk)
    ensures ok ==>
      && Wired(net, a, b) && AHolds(net, a.View(), h + [t]) && BHolds(net, b.View(), h + [t])
      && row == Last(MeanRows(net, h + [t]))
  {
    hide WideRows, MeanRows, Limit, Forward;
    var rows;
    AHoldsDepth(net, a.View(), b.View(), h);
    if Accepts(net.cfg, a.View(), 1, pos) {
      AForward(net, a.View(), h, [t]);
      BForward(net, b.View(), h, [t], WideRows(net, h + [t])[|h|..]);
    }
    ok, rows := VerifyWindow(net, a, b, [t], pos);
    row := if ok then rows[0] else 0;
  }

  lemma AHoldsDepth(net: Net, a: StageState, b: StageState, h: seq<Tok>)
    requires AHolds(net, a, h) && BHolds(net, b, h)
    ensures a.kvLen == b.kvLen == |h|
  {
  }
}
