/** The windowed speculative decode loop: draft `spec` tokens, verify the window in one
    forward, keep the prefix greedy would have printed, and commit exactly its rows. */
module Speculative {
  import opened Blocks
  import opened Stage
  import opened Greedy

  /** One step of the draft head: a hidden row fused with the token at `pos`. */
  datatype DraftEntry = DraftEntry(hidden: Val, tok: Tok, pos: nat)

  /** The draft head: its proposal and its hidden row are arbitrary functions of everything it was ever given. */
  datatype Head = Head(draft: seq<DraftEntry> -> Tok, hidden: seq<DraftEntry> -> Val)

  datatype Tally = Tally(printed: seq<Tok>, rounds: nat, drafted: nat, accepted: nat, tryAt: seq<nat>, accAt: seq<nat>)

  /** Both stages, the rows and length of the last forward, the position and the token there, and what was
      printed and counted; `failed` once a model call returned an error, which ends the program. */
  datatype Session = Session(
    a: StageState, b: StageState, log: seq<DraftEntry>,
    mean: seq<Val>, lastT: nat, pos: nat, t: Tok,
    tally: Tally, failed: bool)

  datatype Drafted = Drafted(log: seq<DraftEntry>, win: seq<Tok>)

  /** The draft loop from step d on. */
  function DraftFrom(head: Head, log: seq<DraftEntry>, hid: Val, win: seq<Tok>, pos: nat, d: nat,
        spec: nat): (r: Drafted)
    requires |win| == d + 1 && d <= spec
    ensures |r.win| == spec + 1 && r.win[..d + 1] == win
    decreases spec - d
  {
    if d == spec then Drafted(log, win)
    else
      var log1 := log + [DraftEntry(hid, Last(win), pos + d)];
      DraftFrom(head, log1, head.hidden(log1), win + [head.draft(log1)], pos, d + 1, spec)
  }

  /** Entry `base + d` of the log is draft step d of a window: the first step fuses the row given, every later one the
      head's own row after the step before, each with the window's token; the head's answer is the next token. */
  ghost predicate IsStep(head: Head, hid0: Val, pos: nat, base: nat, log: seq<DraftEntry>, win: seq<Tok>, d: nat) {
    var n := base + d;
    && n < |log| && d + 1 < |win|
    && log[n] == DraftEntry(if d == 0 then hid0 else head.hidden(log[..n]), win[d], pos + d)
    && win[d + 1] == head.draft(log[..n + 1])
  }

  /** A window of spec drafts after t, and the log they leave. */
  ghost predicate IsDraft(head: Head, log0: seq<DraftEntry>, hid0: Val, t: Tok, pos: nat, spec: nat,
        log: seq<DraftEntry>, win: seq<Tok>) {
    && |log| == |log0| + spec && log[..|log0|] == log0
    && |win| == spec + 1 && win[0] == t
    && forall d: nat | d < spec :: IsStep(head, hid0, pos, |log0|, log, win, d)
  }

  /** The steps from step d on; `base` is where the window's first entry lies. */
  lemma {:induction false} DraftSteps(head: Head, log: seq<DraftEntry>, hid: Val, win: seq<Tok>, pos: nat, d: nat,
        spec: nat, hid0: Val, base: nat)
    requires |win| == d + 1 && d <= spec && |log| == base + d && hid == if d == 0 then hid0 else head.hidden(log)
    ensures var r := DraftFrom(head, log, hid, win, pos, d, spec);
      && |r.log| == base + spec && r.log[..|log|] == log
      && forall e: nat | d <= e < spec :: IsStep(head, hid0, pos, base, r.log, r.win, e)
    decreases spec - d
  {
    if d < spec {
      var log1 := log + [DraftEntry(hid, Last(win), pos + d)];
      var win1 := win + [head.draft(log1)];
      DraftSteps(head, log1, head.hidden(log1), win1, pos, d + 1, spec, hid0, base);
      var r := DraftFrom(head, log, hid, win, pos, d, spec);
      assert r.log[..|log|] == r.log[..|log1|][..|log|] == log;
      assert r.log[|log|] == r.log[..|log1|][|log|] == log1[|log|];
      assert r.win[d] == r.win[..d + 2][d] == win1[d] && r.win[d + 1] == r.win[..d + 2][d + 1] == win1[d + 1];
      assert IsStep(head, hid0, pos, base, r.log, r.win, d);
    }
  }

  /** The draft loop hands each step the head's own row after the step before it. */
  lemma DraftIs(head: Head, log0: seq<DraftEntry>, hid0: Val, t: Tok, pos: nat, spec: nat)
    ensures var r := DraftFrom(head, log0, hid0, [t], pos, 0, spec);
      IsDraft(head, log0, hid0, t, pos, spec, r.log, r.win)
  {
    DraftSteps(head, log0, hid0, [t], pos, 0, spec, hid0, |log0|);
    var r := DraftFrom(head, log0, hid0, [t], pos, 0, spec);
    assert r.win[0] == r.win[..1][0];
  }

  datatype Scan = Scan(tally: Tally, nRows: nat, next: Tok)

  /** Row i's token is printed and the draft after it is tried. */
  function Tried(y: Tally, i: nat, t: Tok): Tally
    requires i < |y.tryAt|
  {
    y.(printed := y.printed + [t], tryAt := y.tryAt[i := y.tryAt[i] + 1])
  }

  function Accepted(y: Tally, i: nat, t: Tok): Tally
    requires i < |y.tryAt| == |y.accAt|
  {
    Tried(y, i, t).(accepted := y.accepted + 1, accAt := y.accAt[i := y.accAt[i] + 1])
  }

  /** The print-and-compare loop from row i on; am[i] is the argmax of verify row i. */
  function ScanFrom(win: seq<Tok>, am: seq<Tok>, ngen: nat, y: Tally, i: nat): (r: Scan)
    requires i < |win| == |am| && |y.tryAt| == |y.accAt| == |win| - 1
    ensures |r.tally.tryAt| == |r.tally.accAt| == |win| - 1
    ensures i < r.nRows <= |win|
    ensures r.tally.printed == y.printed + win[i..r.nRows]
    decreases |win| - i
  {
    if i + 1 == |win| then Scan(y.(printed := y.printed + [win[i]]), |win|, am[i])
    else if am[i] == win[i + 1] && |y.printed| + 1 < ngen then ScanFrom(win, am, ngen, Accepted(y, i, win[i]), i + 1)
    else Scan(Tried(y, i, win[i]), i + 1, am[i])
  }

  ghost predicate SessionOk(net: Net, spec: nat, s: Session) {
    && WellFormed(net.cfg, net.la, s.a) && WellFormed(net.cfg, net.lb, s.b)
    && s.a.specVerify && s.b.specVerify
    && 0 < s.lastT <= |s.mean|
    && |s.tally.tryAt| == |s.tally.accAt| == spec
  }

  datatype Verified = Verified(a: StageState, b: StageState, rows: seq<Val>, ok: bool)

  /** The window through stage A, then stage B. */
  function Verify(net: Net, a: StageState, b: StageState, win: seq<Tok>, pos: nat): (v: Verified)
    requires WellFormed(net.cfg, net.la, a) && WellFormed(net.cfg, net.lb, b)
    ensures WellFormed(net.cfg, net.la, v.a) && WellFormed(net.cfg, net.lb, v.b) && (v.ok ==> |v.rows| == |win|)
    ensures v.a.specVerify == a.specVerify && v.b.specVerify == b.specVerify
  {
    var fa := Offer(net.cfg, net.la, a, Embed(net, win), pos);
    var fb := Offer(net.cfg, net.lb, b, fa.rows, pos);
    if !Accepts(net.cfg, a, |win|, pos) then Verified(a, b, [], false)
    else Verified(fa.state, fb.state, fb.rows, Accepts(net.cfg, b, |fa.rows|, pos))
  }

  function Picks(net: Net, rows: seq<Val>): (am: seq<Tok>)
    ensures |am| == |rows| && forall i | 0 <= i < |rows| :: am[i] == net.pick(rows[i])
  {
    seq(|rows|, i requires 0 <= i < |rows| => net.pick(rows[i]))
  }

  /** The draft head refuses a position past the context. */
  predicate DraftFits(net: Net, pos: nat, spec: nat) { spec == 0 || pos + spec <= net.cfg.maxCtx }

  function CommitStage(cfg: Config, ls: seq<Layer>, s: StageState, n: nat): (r: StageState)
    requires WellFormed(cfg, ls, s)
    ensures WellFormed(cfg, ls, r) && r.specVerify == s.specVerify
  {
    if Commits(s, n) then Commit(cfg, ls, s, n) else s
  }

  /** After the scan: a full window keeps the verify state, a partial one commits its prefix on each stage. */
  function Settle(net: Net, s: Session, v: Verified, log: seq<DraftEntry>, c: Scan): Session
    requires WellFormed(net.cfg, net.la, v.a) && WellFormed(net.cfg, net.lb, v.b)
  {
    if c.nRows == |v.rows| then Session(v.a, v.b, log, v.rows, c.nRows, s.pos + c.nRows, c.next, c.tally, false)
    else
      var b := if Commits(v.a, c.nRows) then CommitStage(net.cfg, net.lb, v.b, c.nRows) else v.b;
      Session(CommitStage(net.cfg, net.la, v.a, c.nRows), b, log, v.rows, c.nRows,
              s.pos + c.nRows, c.next, c.tally, !Commits(v.a, c.nRows) || !Commits(v.b, c.nRows))
  }

  /** The window of a round, what the draft head was given for it, and the verify forward over it. */
  function RoundDraft(head: Head, spec: nat, s: Session): (r: Drafted)
    requires 0 < s.lastT <= |s.mean|
    ensures |r.win| == spec + 1 && r.win[0] == s.t
  {
    var r := DraftFrom(head, s.log, s.mean[s.lastT - 1], [s.t], s.pos, 0, spec);
    assert r.win[..1] == [s.t] && r.win[0] == r.win[..1][0];
    r
  }

  function RoundVerify(net: Net, spec: nat, s: Session, win: seq<Tok>): (v: Verified)
    requires SessionOk(net, spec, s)
    ensures WellFormed(net.cfg, net.la, v.a) && WellFormed(net.cfg, net.lb, v.b) && v.a.specVerify && v.b.specVerify
    ensures v.ok ==> |v.rows| == |win|
  {
    Verify(net, Snapshot(net.cfg, net.la, s.a), Snapshot(net.cfg, net.lb, s.b), win, s.pos)
  }

  function SpecRound(net: Net, head: Head, spec: nat, ngen: nat, s: Session): (r: Session)
    requires SessionOk(net, spec, s)
  {
    var dr := RoundDraft(head, spec, s);
    var v := RoundVerify(net, spec, s, dr.win);
    var y := s.tally.(rounds := s.tally.rounds + 1, drafted := s.tally.drafted + spec);
    if !DraftFits(net, s.pos, spec) then
      s.(a := Snapshot(net.cfg, net.la, s.a), b := Snapshot(net.cfg, net.lb, s.b), failed := true)
    else if !v.ok then s.(a := v.a, b := v.b, log := dr.log, tally := y, failed := true)
    else Settle(net, s, v, dr.log, ScanFrom(dr.win, Picks(net, v.rows), ngen, y, 0))
  }

  lemma {:induction false} RoundKeepsSession(net: Net, head: Head, spec: nat, ngen: nat, s: Session)
    requires SessionOk(net, spec, s)
    ensures var r := SpecRound(net, head, spec, ngen, s);
      SessionOk(net, spec, r) && (!r.failed ==> |r.tally.printed| > |s.tally.printed|)
  {
    hide Snapshot, Commit, DraftFrom, ScanFrom, Picks;
  }

  function SpecRun(net: Net, head: Head, spec: nat, ngen: nat, s: Session): (r: Session)
    requires SessionOk(net, spec, s)
    ensures SessionOk(net, spec, r)
    decreases ngen - |s.tally.printed|, if s.failed then 0 else 1
  {
    if s.failed || |s.tally.printed| >= ngen then s
    else
      RoundKeepsSession(net, head, spec, ngen, s);
      var r := SpecRound(net, head, spec, ngen, s);
      if r.failed then r else SpecRun(net, head, spec, ngen, r)
  }

  // ---- the loop prints the greedy text -------------------------------------------------

  /** Both stages have consumed exactly the prompt and the printed text, t is the greedy token after it,
      and row lastT - 1 of the last forward is the hidden row of the position before. */
  ghost predicate InStep(net: Net, prompt: seq<Tok>, s: Session)
    requires |prompt| > 0
  {
    var j := |s.tally.printed|;
    var h := Text(net, prompt, j);
    && s.tally.printed == Continuation(net, prompt, j)
    && AHolds(net, s.a, h) && BHolds(net, s.b, h)
    && s.pos == |prompt| + j && s.t == Next(net, h)
    && 0 < s.lastT <= |s.mean| && s.mean[s.lastT - 1] == Last(MeanRows(net, h))
  }

  /** The verify argmaxes are the greedy tokens after the window's prefixes. */
  ghost predicate Predicts(net: Net, h: seq<Tok>, win: seq<Tok>, am: seq<Tok>) {
    |am| == |win| && forall i | 0 <= i < |win| :: am[i] == Next(net, h + win[..i + 1])
  }

  /** What the scan keeps: the longest prefix of the window that greedy would print, capped at ngen. */
  lemma {:induction false} ScanIsGreedy(net: Net, prompt: seq<Tok>, j: nat, win: seq<Tok>, am: seq<Tok>, ngen: nat,
        y: Tally, i: nat)
    requires |prompt| > 0 && i < |win| && |y.tryAt| == |y.accAt| == |win| - 1
    requires Predicts(net, Text(net, prompt, j), win, am)
    requires y.printed == Continuation(net, prompt, j + i) && j + i < ngen
    requires Text(net, prompt, j) + win[..i + 1] == Text(net, prompt, j + i + 1)
    ensures var r := ScanFrom(win, am, ngen, y, i);
      && r.tally.printed == Continuation(net, prompt, j + r.nRows) && j + r.nRows <= ngen
      && Text(net, prompt, j) + win[..r.nRows] == Text(net, prompt, j + r.nRows)
      && r.next == Next(net, Text(net, prompt, j + r.nRows))
      && (r.nRows < |win| ==> j + r.nRows == ngen || win[r.nRows] != r.next)
    decreases |win| - i
  {
    hide Next, Text, Continuation;
    var n := j + i;
    TextGrows(net, prompt, n);
    assert win[i] == Next(net, Text(net, prompt, n)) by {
      assert (Text(net, prompt, j) + win[..i + 1])[|prompt| + n] == win[i];
    }
    if i + 1 < |win| && am[i] == win[i + 1] && n + 1 < ngen {
      TextGrows(net, prompt, n + 1);
      assert win[..i + 2] == win[..i + 1] + [win[i + 1]];
      ScanIsGreedy(net, prompt, j, win, am, ngen, Accepted(y, i, win[i]), i + 1);
    }
  }

  /** A stage that verified a window keeps, after a commit, the history of the window's prefix. */
  lemma CommitA(net: Net, a: StageState, h: seq<Tok>, win: seq<Tok>, n: nat)
    requires AHolds(net, a, h + win) && SnapshotHolds(net.cfg, net.la, a, Embed(net, h))
    requires Recorded(net.cfg, net.la, a, Embed(net, h), Embed(net, win)) && 0 < n <= |win|
    ensures Commits(a, n) && AHolds(net, Commit(net.cfg, net.la, a, n), h + win[..n])
  {
    hide Commit;
    EmbedJoin(net, h, win);
    CommitKeepsPrefix(net.cfg, net.la, a, Embed(net, h), Embed(net, win), n);
    EmbedJoin(net, h, win[..n]);
    assert Embed(net, win)[..n] == Embed(net, win[..n]);
  }

  lemma CommitB(net: Net, b: StageState, h: seq<Tok>, win: seq<Tok>, n: nat)
    requires BHolds(net, b, h + win) && SnapshotHolds(net.cfg, net.lb, b, WideRows(net, h))
    requires Recorded(net.cfg, net.lb, b, WideRows(net, h), WideRows(net, h + win)[|h|..]) && 0 < n <= |win|
    ensures Commits(b, n) && BHolds(net, Commit(net.cfg, net.lb, b, n), h + win[..n])
  {
    hide Commit, WideRows, Holds, SnapshotHolds, WellFormed, CaptureHolds;
    var xs := WideRows(net, h + win)[|h|..];
    WideJoin(net, h, win);
    CommitKeepsPrefix(net.cfg, net.lb, b, WideRows(net, h), xs, n);
    RowsCausal(net, h + win, |h| + n);
    assert (h + win)[..|h| + n] == h + win[..n];
    assert WideRows(net, h) + xs[..n] == WideRows(net, h + win[..n]);
  }

  /** A verified stage A: it consumed the window, recorded it, and can still be rewound to before it. */
  ghost predicate WindowA(net: Net, a: StageState, h: seq<Tok>, win: seq<Tok>) {
    && AHolds(net, a, h + win) && SnapshotHolds(net.cfg, net.la, a, Embed(net, h))
    && |win| <= K_SPEC_MAX && Recorded(net.cfg, net.la, a, Embed(net, h), Embed(net, win))
  }

  ghost predicate WindowB(net: Net, b: StageState, h: seq<Tok>, win: seq<Tok>) {
    && BHolds(net, b, h + win) && SnapshotHolds(net.cfg, net.lb, b, WideRows(net, h))
    && |win| <= K_SPEC_MAX && Recorded(net.cfg, net.lb, b, WideRows(net, h), WideRows(net, h + win)[|h|..])
  }

  lemma VerifyA(net: Net, a: StageState, h: seq<Tok>, win: seq<Tok>)
    requires AHolds(net, a, h) && a.specVerify && Accepts(net.cfg, a, |win|, |h|) && |win| <= K_SPEC_MAX
    ensures var s := Snapshot(net.cfg, net.la, a);
      var f := Offer(net.cfg, net.la, s, Embed(net, win), |h|);
      WindowA(net, f.state, h, win) && f.rows == WideRows(net, h + win)[|h|..]
  {
    assert WellFormed(net.cfg, net.la, a) && a.kvLen == |h|;
    hide Forward, Holds, SnapshotHolds, Recorded, WideRows;
    var s := Snapshot(net.cfg, net.la, a);
    SnapshotTaken(net.cfg, net.la, a, Embed(net, h));
    AForward(net, s, h, win);
    ForwardKeepsSnapshot(net.cfg, net.la, s, Embed(net, win), Embed(net, h));
  }

  lemma VerifyB(net: Net, b: StageState, h: seq<Tok>, win: seq<Tok>, xs: seq<Val>)
    requires BHolds(net, b, h) && b.specVerify && Accepts(net.cfg, b, |win|, |h|) && |win| <= K_SPEC_MAX
    requires xs == WideRows(net, h + win)[|h|..]
    ensures var s := Snapshot(net.cfg, net.lb, b);
      var f := Offer(net.cfg, net.lb, s, xs, |h|);
      WindowB(net, f.state, h, win) && f.rows == MeanRows(net, h + win)[|h|..]
  {
    assert WellFormed(net.cfg, net.lb, b) && b.kvLen == |h|;
    hide Forward, Holds, SnapshotHolds, Recorded, WideRows, MeanRows;
    var s := Snapshot(net.cfg, net.lb, b);
    SnapshotTaken(net.cfg, net.lb, b, WideRows(net, h));
    BForward(net, s, h, win, xs);
    ForwardKeepsSnapshot(net.cfg, net.lb, s, xs, WideRows(net, h));
  }

  lemma PicksPredict(net: Net, h: seq<Tok>, win: seq<Tok>)
    ensures Predicts(net, h, win, Picks(net, MeanRows(net, h + win)[|h|..]))
  {
    hide MeanRows;
    var rows := MeanRows(net, h + win)[|h|..];
    forall i | 0 <= i < |win|
      ensures rows[i] == Last(MeanRows(net, h + win[..i + 1]))
    {
      RowIsLast(net, h + win, |h| + i);
      assert (h + win)[..|h| + i + 1] == h + win[..i + 1];
    }
  }

  /** Committing the kept rows leaves both stages with exactly the text printed so far. */
  lemma SettleKeeps(net: Net, prompt: seq<Tok>, s: Session, v: Verified, log: seq<DraftEntry>, win: seq<Tok>, c: Scan,
        h: seq<Tok>)
    requires |prompt| > 0 && WindowA(net, v.a, h, win) && WindowB(net, v.b, h, win)
    requires v.rows == MeanRows(net, h + win)[|h|..] && 0 < c.nRows <= |win| && s.pos == |h|
    requires h + win[..c.nRows] == Text(net, prompt, |c.tally.printed|)
        && c.tally.printed == Continuation(net, prompt, |c.tally.printed|)
    requires c.next == Next(net, h + win[..c.nRows])
    ensures var r := Settle(net, s, v, log, c); !r.failed && r.tally == c.tally && InStep(net, prompt, r)
  {
    hide Commit, Holds, SnapshotHolds, Recorded, WideRows, MeanRows, Text, Continuation;
    var n := c.nRows;
    if n == |win| {
      assert win[..n] == win;
    } else {
      CommitA(net, v.a, h, win, n);
      CommitB(net, v.b, h, win, n);
    }
    RowIsLast(net, h + win, |h| + n - 1);
    assert (h + win)[..|h| + n] == h + win[..n];
  }

  /** A window fits the context and a chunk. */
  predicate Room(net: Net, pos: nat, spec: nat) {
    pos + spec + 1 <= Limit(net.cfg) && spec + 1 <= net.cfg.maxChunk
  }

  /** A round's verify forward is accepted exactly when the window fits. */
  lemma RoundFits(net: Net, prompt: seq<Tok>, spec: nat, s: Session, win: seq<Tok>)
    requires |prompt| > 0 && SessionOk(net, spec, s) && InStep(net, prompt, s) && |win| == spec + 1
    ensures RoundVerify(net, spec, s, win).ok == Room(net, s.pos, spec)
    ensures Room(net, s.pos, spec) ==> DraftFits(net, s.pos, spec)
  {
    hide Forward, Text, Continuation, MeanRows, WideRows;
    HoldsDepth(net, s, Text(net, prompt, |s.tally.printed|));
    SnapshotDepth(net, s);
  }

  lemma RoundVerified(net: Net, prompt: seq<Tok>, spec: nat, s: Session, win: seq<Tok>)
    requires |prompt| > 0 && SessionOk(net, spec, s) && InStep(net, prompt, s) && |win| == spec + 1 <= K_SPEC_MAX
    requires Room(net, s.pos, spec)
    ensures var h := Text(net, prompt, |s.tally.printed|);
      var v := RoundVerify(net, spec, s, win);
      v.ok && WindowA(net, v.a, h, win) && WindowB(net, v.b, h, win) && v.rows == MeanRows(net, h + win)[|h|..]
  {
    hide Offer, Snapshot, Text, Continuation, MeanRows, WideRows, Next, WindowA, WindowB, WellFormed;
    var h := Text(net, prompt, |s.tally.printed|);
    HoldsDepth(net, s, h);
    SnapshotDepth(net, s);
    RoundFits(net, prompt, spec, s, win);
    VerifyA(net, s.a, h, win);
    VerifyB(net, s.b, h, win, WideRows(net, h + win)[|h|..]);
  }

  lemma RoundIs(net: Net, head: Head, spec: nat, ngen: nat, s: Session)
    requires SessionOk(net, spec, s)
    ensures var dr := RoundDraft(head, spec, s);
      var v := RoundVerify(net, spec, s, dr.win);
      var y := s.tally.(rounds := s.tally.rounds + 1, drafted := s.tally.drafted + spec);
      var r := SpecRound(net, head, spec, ngen, s);
      if DraftFits(net, s.pos, spec) && v.ok then
        r == Settle(net, s, v, dr.log, ScanFrom(dr.win, Picks(net, v.rows), ngen, y, 0))
      else r.failed && r.tally.printed == s.tally.printed
  {
    hide Snapshot, RoundDraft, RoundVerify, ScanFrom, Settle, Picks;
  }

  /** A round of a window the capture can hold prints what greedy prints, and fails exactly when the window does not
      fit. */
  lemma RoundIsGreedy(net: Net, head: Head, prompt: seq<Tok>, spec: nat, ngen: nat, s: Session)
    requires |prompt| > 0 && SessionOk(net, spec, s) && InStep(net, prompt, s) && |s.tally.printed| < ngen
    requires spec + 1 <= K_SPEC_MAX
    ensures var r := SpecRound(net, head, spec, ngen, s);
      && r.failed == !Room(net, s.pos, spec)
      && (r.failed ==> r.tally.printed == s.tally.printed)
      && (!r.failed ==> InStep(net, prompt, r) && |r.tally.printed| <= ngen)
  {
    hide SpecRound, RoundDraft, RoundVerify, Room, DraftFits, MeanRows, Next, Text, Continuation, ScanFrom, Settle,
        Picks, Predicts, WindowA, WindowB, AHolds, BHolds;
    var j := |s.tally.printed|;
    var h := Text(net, prompt, j);
    var dr := RoundDraft(head, spec, s);
    var v := RoundVerify(net, spec, s, dr.win);
    RoundIs(net, head, spec, ngen, s);
    RoundFits(net, prompt, spec, s, dr.win);
    if Room(net, s.pos, spec) {
      RoundVerified(net, prompt, spec, s, dr.win);
      PicksPredict(net, h, dr.win);
      TextGrows(net, prompt, j);
      assert dr.win[..1] == [s.t];
      var y := s.tally.(rounds := s.tally.rounds + 1, drafted := s.tally.drafted + spec);
      ScanIsGreedy(net, prompt, j, dr.win, Picks(net, v.rows), ngen, y, 0);
      SettleKeeps(net, prompt, s, v, dr.log, dr.win, ScanFrom(dr.win, Picks(net, v.rows), ngen, y, 0), h);
    }
  }

  lemma HoldsDepth(net: Net, s: Session, h: seq<Tok>)
    requires AHolds(net, s.a, h) && BHolds(net, s.b, h)
    ensures s.a.kvLen == s.b.kvLen == |h|
  {
  }

  lemma SnapshotDepth(net: Net, s: Session)
    requires WellFormed(net.cfg, net.la, s.a) && WellFormed(net.cfg, net.lb, s.b)
    ensures Snapshot(net.cfg, net.la, s.a).kvLen == s.a.kvLen && Snapshot(net.cfg, net.lb, s.b).kvLen == s.b.kvLen
  {
  }

  /** A run prints a prefix of the greedy text, and stops short of ngen tokens exactly where a window does not fit. */
  lemma {:induction false} RunIsGreedy(net: Net, head: Head, prompt: seq<Tok>, spec: nat, ngen: nat, s: Session)
    requires |prompt| > 0 && SessionOk(net, spec, s) && InStep(net, prompt, s) && |s.tally.printed| <= ngen && !s.failed
    requires spec + 1 <= K_SPEC_MAX
    ensures var r := SpecRun(net, head, spec, ngen, s);
      var n := |r.tally.printed|;
      && n <= ngen && r.tally.printed == Continuation(net, prompt, n)
      && (!r.failed ==> n == ngen && InStep(net, prompt, r))
      && (r.failed ==> n < ngen && !Room(net, |prompt| + n, spec))
      && (|prompt| + ngen + spec <= Limit(net.cfg) && spec + 1 <= net.cfg.maxChunk ==> !r.failed)
    decreases ngen - |s.tally.printed|
  {
    hide SpecRound, AHolds, BHolds, Next, Text, Continuation, MeanRows, Limit, WellFormed;
    if |s.tally.printed| < ngen {
      RoundKeepsSession(net, head, spec, ngen, s);
      RoundIsGreedy(net, head, prompt, spec, ngen, s);
      var r := SpecRound(net, head, spec, ngen, s);
      if !r.failed { RunIsGreedy(net, head, prompt, spec, ngen, r); }
    }
  }

  // ---- the counters --------------------------------------------------------------------

  function Sum(xs: seq<nat>): nat { if xs == [] then 0 else xs[0] + Sum(xs[1..]) }

  lemma {:induction false} SumBump(xs: seq<nat>, i: nat)
    requires i < |xs|
    ensures Sum(xs[i := xs[i] + 1]) == Sum(xs) + 1
  {
    var ys := xs[i := xs[i] + 1];
    if i == 0 {
      assert ys[1..] == xs[1..];
    } else {
      assert ys[1..] == xs[1..][i - 1 := xs[1..][i - 1] + 1];
      SumBump(xs[1..], i - 1);
    }
  }

  /** A try is due at depth i: depth 0 is tried every round, depth d + 1 after every accept at depth d. */
  predicate TryDue(y: Tally, i: nat) {
    |y.tryAt| == |y.accAt| &&
    forall d | 0 <= d < |y.tryAt| ::
      y.tryAt[d] + (if d == i then 1 else 0) == if d == 0 then y.rounds else y.accAt[d - 1]
  }

  /** The counters' laws between rounds. */
  predicate Balanced(spec: nat, y: Tally) {
    && |y.printed| == y.rounds + y.accepted
    && y.drafted == y.rounds * spec
    && y.accepted == Sum(y.accAt)
    && |y.tryAt| == |y.accAt| == spec
    && (spec > 0 ==> y.tryAt[0] == y.rounds)
    && forall d | 0 <= d < spec - 1 :: y.tryAt[d + 1] == y.accAt[d]
  }

  /** What a scan of nRows rows adds to each counter: a try at every depth it reached, an accept at every depth before
      the last. */
  lemma {:induction false} ScanCounts(win: seq<Tok>, am: seq<Tok>, ngen: nat, y: Tally, i: nat)
    requires i < |win| == |am| && |y.tryAt| == |y.accAt| == |win| - 1
    ensures var r := ScanFrom(win, am, ngen, y, i);
      && r.tally.rounds == y.rounds && r.tally.drafted == y.drafted && r.tally.accepted == y.accepted + r.nRows - 1 - i
      && (forall d | 0 <= d < |win| - 1 :: r.tally.tryAt[d] == y.tryAt[d] + if i <= d < r.nRows then 1 else 0)
      && (forall d | 0 <= d < |win| - 1 :: r.tally.accAt[d] == y.accAt[d] + if i <= d < r.nRows - 1 then 1 else 0)
    decreases |win| - i
  {
    if i + 1 < |win| && am[i] == win[i + 1] && |y.printed| + 1 < ngen {
      ScanCounts(win, am, ngen, Accepted(y, i, win[i]), i + 1);
    }
  }

  /** Where a scan stops: at the first draft that the row before it does not confirm, or at ngen tokens. */
  lemma {:induction false} ScanStops(win: seq<Tok>, am: seq<Tok>, ngen: nat, y: Tally, i: nat)
    requires i < |win| == |am| && |y.tryAt| == |y.accAt| == |win| - 1
    ensures var r := ScanFrom(win, am, ngen, y, i);
      && r.next == am[r.nRows - 1]
      && (forall k | i <= k < r.nRows - 1 :: am[k] == win[k + 1] && |y.printed| + (k - i) + 1 < ngen)
      && (r.nRows < |win| ==> am[r.nRows - 1] != win[r.nRows] || |y.printed| + (r.nRows - i) >= ngen)
    decreases |win| - i
  {
    if i + 1 < |win| && am[i] == win[i + 1] && |y.printed| + 1 < ngen {
      ScanStops(win, am, ngen, Accepted(y, i, win[i]), i + 1);
    }
  }

  lemma TryDuePrinted(y: Tally, i: nat, t: Tok)
    requires TryDue(y, i)
    ensures TryDue(y.(printed := y.printed + [t]), i)
  {
  }

  lemma TryBalances(y: Tally, i: nat, t: Tok)
    requires TryDue(y, i) && i < |y.tryAt|
    ensures TryDue(Tried(y, i, t), |y.tryAt|)
  {
  }

  lemma AcceptBalances(y: Tally, i: nat, t: Tok)
    requires TryDue(y, i) && i < |y.tryAt|
    ensures TryDue(Accepted(y, i, t), i + 1) && Sum(Accepted(y, i, t).accAt) == Sum(y.accAt) + 1
  {
    hide Sum;
    SumBump(y.accAt, i);
  }

  lemma {:induction false} ScanBalances(win: seq<Tok>, am: seq<Tok>, ngen: nat, y: Tally, i: nat)
    requires i < |win| == |am| && |y.tryAt| == |y.accAt| == |win| - 1 && TryDue(y, i)
    ensures var r := ScanFrom(win, am, ngen, y, i).tally;
      && TryDue(r, |win| - 1) && r.rounds == y.rounds && r.drafted == y.drafted
      && |r.printed| + y.accepted == |y.printed| + 1 + r.accepted
      && Sum(r.accAt) + y.accepted == Sum(y.accAt) + r.accepted
    decreases |win| - i
  {
    hide TryDue, Sum;
    if i + 1 < |win| {
      TryBalances(y, i, win[i]);
      if am[i] == win[i + 1] && |y.printed| + 1 < ngen {
        AcceptBalances(y, i, win[i]);
        ScanBalances(win, am, ngen, Accepted(y, i, win[i]), i + 1);
      }
    } else {
      assert TryDue(y.(printed := y.printed + [win[i]]), i) by { TryDuePrinted(y, i, win[i]); }
    }
  }

  lemma BalancedDue(spec: nat, y: Tally, y1: Tally)
    requires Balanced(spec, y) && y1.tryAt == y.tryAt && y1.accAt == y.accAt && y1.rounds == y.rounds + 1
    ensures TryDue(y1, 0)
  {
    forall d | 0 <= d < spec
      ensures y1.tryAt[d] + (if d == 0 then 1 else 0) == if d == 0 then y1.rounds else y1.accAt[d - 1]
    {
      if d > 0 { assert y.tryAt[d - 1 + 1] == y.accAt[d - 1]; }
    }
  }

  lemma BalancedEnd(spec: nat, y: Tally)
    requires TryDue(y, spec) && |y.tryAt| == |y.accAt| == spec
    ensures spec > 0 ==> y.tryAt[0] == y.rounds
    ensures forall d | 0 <= d < spec - 1 :: y.tryAt[d + 1] == y.accAt[d]
  {
  }

  lemma RoundBalances(net: Net, head: Head, spec: nat, ngen: nat, s: Session)
    requires SessionOk(net, spec, s) && Balanced(spec, s.tally)
    ensures var r := SpecRound(net, head, spec, ngen, s); r.failed || Balanced(spec, r.tally)
  {
    hide SpecRound, RoundDraft, RoundVerify, ScanFrom, Picks, Commit, Snapshot;
    RoundIs(net, head, spec, ngen, s);
    var win := RoundDraft(head, spec, s).win;
    var v := RoundVerify(net, spec, s, win);
    var y := s.tally.(rounds := s.tally.rounds + 1, drafted := s.tally.drafted + spec);
    if v.ok {
      assert TryDue(y, 0) by { BalancedDue(spec, s.tally, y); }
      ScanBalances(win, Picks(net, v.rows), ngen, y, 0);
      BalancedEnd(spec, ScanFrom(win, Picks(net, v.rows), ngen, y, 0).tally);
      assert (s.tally.rounds + 1) * spec == s.tally.rounds * spec + spec;
    }
  }

  /** Speculation is accounted for over every run that ends well, for every window width. */
  lemma {:induction false} RunBalances(net: Net, head: Head, spec: nat, ngen: nat, s: Session)
    requires SessionOk(net, spec, s) && Balanced(spec, s.tally)
    ensures var r := SpecRun(net, head, spec, ngen, s); r.failed || Balanced(spec, r.tally)
    decreases ngen - |s.tally.printed|
  {
    hide SpecRound, Balanced;
    if !s.failed && |s.tally.printed| < ngen {
      RoundKeepsSession(net, head, spec, ngen, s);
      RoundBalances(net, head, spec, ngen, s);
      var r := SpecRound(net, head, spec, ngen, s);
      if !r.failed { RunBalances(net, head, spec, ngen, r); }
    }
  }

  // ---- a run from a prefill -----------------------------------------------------------

  /** The loop's start: both stages told to record, the counters at zero. */
  function Start(a: StageState, b: StageState, mean: seq<Val>, lastT: nat, pos: nat, t: Tok, spec: nat): Session {
    Session(a.(specVerify := true), b.(specVerify := true), [], mean, lastT, pos, t,
            Tally([], 0, 0, 0, seq(spec, _ => 0), seq(spec, _ => 0)), false)
  }

  /** Both stages have consumed the prompt, and what the prefill's last forward left. */
  ghost predicate AfterPrefill(net: Net, prompt: seq<Tok>, a: StageState, b: StageState, mean: seq<Val>, lastT: nat,
        t: Tok) {
    && |prompt| > 0 && AHolds(net, a, prompt) && BHolds(net, b, prompt)
    && 0 < lastT <= |prompt| && mean == MeanRows(net, prompt)[|prompt| - lastT..] && t == Next(net, prompt)
  }

  lemma StartInStep(net: Net, prompt: seq<Tok>, a: StageState, b: StageState, mean: seq<Val>, lastT: nat, t: Tok,
        spec: nat)
    requires AfterPrefill(net, prompt, a, b, mean, lastT, t)
    ensures var s := Start(a, b, mean, lastT, |prompt|, t, spec); SessionOk(net, spec, s) && InStep(net, prompt, s)
  {
    hide WideRows, MeanRows;
    assert Text(net, prompt, 0) == prompt;
  }

  /** For every model and every draft head, a window of at most 8 rows prints the greedy text: all of it, or
      a prefix when a forward was refused, and then the window after that prefix does not fit. */
  lemma SpecIsGreedy(net: Net, head: Head, prompt: seq<Tok>, a: StageState, b: StageState, mean: seq<Val>, lastT: nat,
        t: Tok, spec: nat, ngen: nat)
    requires AfterPrefill(net, prompt, a, b, mean, lastT, t) && spec + 1 <= K_SPEC_MAX
    ensures var s := Start(a, b, mean, lastT, |prompt|, t, spec);
      SessionOk(net, spec, s) &&
      var r := SpecRun(net, head, spec, ngen, s);
      var n := |r.tally.printed|;
      && n <= ngen && r.tally.printed == Continuation(net, prompt, n)
      && (!r.failed ==> n == ngen && InStep(net, prompt, r))
      && (r.failed ==> n < ngen && !Room(net, |prompt| + n, spec))
      && (|prompt| + ngen + spec <= Limit(net.cfg) && spec + 1 <= net.cfg.maxChunk ==> !r.failed)
  {
    hide SpecRun, InStep, Limit, AHolds, BHolds, MeanRows;
    StartInStep(net, prompt, a, b, mean, lastT, t, spec);
    RunIsGreedy(net, head, prompt, spec, ngen, Start(a, b, mean, lastT, |prompt|, t, spec));
  }

  /** How a round is counted: a draft past the context is refused before the round counts, a window that does not fit
      after. */
  lemma RoundCounts(net: Net, head: Head, spec: nat, ngen: nat, s: Session)
    requires SessionOk(net, spec, s)
    ensures var r := SpecRound(net, head, spec, ngen, s);
      if spec > 0 && s.pos + spec > net.cfg.maxCtx then r.failed && r.tally == s.tally && r.log == s.log
      else r.tally.rounds == s.tally.rounds + 1 && r.tally.drafted == s.tally.drafted + spec
  {
    hide WellFormed, ScanFrom, Commits, CommitStage, Snapshot, Picks, RoundDraft, RoundVerify;
    var dr := RoundDraft(head, spec, s);
    var v := RoundVerify(net, spec, s, dr.win);
    var y := s.tally.(rounds := s.tally.rounds + 1, drafted := s.tally.drafted + spec);
    if v.ok { ScanCounts(dr.win, Picks(net, v.rows), ngen, y, 0); }
  }

  lemma RoundLog(net: Net, head: Head, spec: nat, ngen: nat, s: Session)
    requires SessionOk(net, spec, s)
    ensures var r := SpecRound(net, head, spec, ngen, s); !r.failed ==> r.log == RoundDraft(head, spec, s).log
  {
    hide WellFormed, ScanFrom, Commits, CommitStage, Snapshot, Picks, RoundDraft, RoundVerify;
  }

  /** What a round gives the draft head: first the hidden row of the last committed token, the token after it, and its
      position. */
  lemma RoundFeeds(net: Net, head: Head, prompt: seq<Tok>, spec: nat, ngen: nat, s: Session)
    requires |prompt| > 0 && SessionOk(net, spec, s) && InStep(net, prompt, s)
    ensures var r, h := SpecRound(net, head, spec, ngen, s), Text(net, prompt, |s.tally.printed|);
      && (!r.failed ==> |r.log| == |s.log| + spec && r.log[..|s.log|] == s.log)
      && (!r.failed && spec > 0 ==> r.log[|s.log|] == DraftEntry(Last(MeanRows(net, h)), Next(net, h), |h|))
  {
    hide MeanRows, Next, Text, Continuation, WellFormed, AHolds, BHolds, SpecRound, DraftFrom;
    RoundLog(net, head, spec, ngen, s);
    DraftIs(head, s.log, s.mean[s.lastT - 1], s.t, s.pos, spec);
    var dr := RoundDraft(head, spec, s);
    assert spec > 0 ==> IsStep(head, s.mean[s.lastT - 1], s.pos, |s.log|, dr.log, dr.win, 0);
  }

  // ---- when a run is refused -------------------------------------------------------------

  /** Any token but the greedy one after position p. */
  function WrongToken(net: Net, prompt: seq<Tok>, p: nat): Tok
    requires |prompt| > 0
  {
    if p < |prompt| then 0 else Next(net, Text(net, prompt, p - |prompt| + 1)) + 1
  }

  /** A head whose draft is never the greedy token. */
  function WrongHead(net: Net, prompt: seq<Tok>): Head
    requires |prompt| > 0
  {
    Head((log: seq<DraftEntry>) => WrongToken(net, prompt, if log == [] then 0 else log[|log| - 1].pos), _ => 0)
  }

  lemma WrongDraft(net: Net, prompt: seq<Tok>, spec: nat, s: Session)
    requires |prompt| > 0 && spec > 0 && s.pos == |prompt| + |s.tally.printed| && 0 < s.lastT <= |s.mean|
    ensures var j := |s.tally.printed|;
      RoundDraft(WrongHead(net, prompt), spec, s).win[1] == Next(net, Text(net, prompt, j + 1)) + 1
  {
    hide Next, Text;
    var head, hid := WrongHead(net, prompt), s.mean[s.lastT - 1];
    DraftIs(head, s.log, hid, s.t, s.pos, spec);
    var r := RoundDraft(head, spec, s);
    assert IsStep(head, hid, s.pos, |s.log|, r.log, r.win, 0);
    assert r.log[..|s.log| + 1][|s.log|] == r.log[|s.log|];
  }

  /** With it a round that is not refused prints one token. */
  lemma WrongRound(net: Net, prompt: seq<Tok>, spec: nat, ngen: nat, s: Session)
    requires |prompt| > 0 && SessionOk(net, spec, s) && InStep(net, prompt, s) && |s.tally.printed| < ngen
    requires spec + 1 <= K_SPEC_MAX && Room(net, s.pos, spec)
    ensures |SpecRound(net, WrongHead(net, prompt), spec, ngen, s).tally.printed| == |s.tally.printed| + 1
  {
    hide SpecRound, RoundDraft, RoundVerify, Room, DraftFits, MeanRows, Next, Text, Continuation, Settle, Picks, AHolds,
         BHolds, WindowA, WindowB, WrongHead;
    var j, head := |s.tally.printed|, WrongHead(net, prompt);
    var dr := RoundDraft(head, spec, s);
    var v := RoundVerify(net, spec, s, dr.win);
    var am := Picks(net, v.rows);
    RoundIs(net, head, spec, ngen, s);
    RoundFits(net, prompt, spec, s, dr.win);
    RoundVerified(net, prompt, spec, s, dr.win);
    PicksPredict(net, Text(net, prompt, j), dr.win);
    TextGrows(net, prompt, j);
    assert dr.win[..1] == [s.t];
    assert am[0] == Next(net, Text(net, prompt, j + 1));
    if spec > 0 { WrongDraft(net, prompt, spec, s); }
    var y := s.tally.(rounds := s.tally.rounds + 1, drafted := s.tally.drafted + spec);
    SettleTally(net, s, v, dr.log, ScanFrom(dr.win, am, ngen, y, 0));
  }

  lemma SettleTally(net: Net, s: Session, v: Verified, log: seq<DraftEntry>, c: Scan)
    requires WellFormed(net.cfg, net.la, v.a) && WellFormed(net.cfg, net.lb, v.b)
    ensures Settle(net, s, v, log, c).tally == c.tally
  {
  }

  /** So its run comes to every position, and ends well exactly when the last one has room. */
  lemma {:induction false} WrongRun(net: Net, prompt: seq<Tok>, spec: nat, ngen: nat, s: Session)
    requires |prompt| > 0 && SessionOk(net, spec, s) && InStep(net, prompt, s) && |s.tally.printed| < ngen && !s.failed
    requires spec + 1 <= K_SPEC_MAX
    ensures SpecRun(net, WrongHead(net, prompt), spec, ngen, s).failed == !Room(net, |prompt| + ngen - 1, spec)
    decreases ngen - |s.tally.printed|
  {
    hide SpecRound, AHolds, BHolds, Next, Text, Continuation, MeanRows, Limit, WellFormed, WrongHead;
    var head := WrongHead(net, prompt);
    RoundKeepsSession(net, head, spec, ngen, s);
    RoundIsGreedy(net, head, prompt, spec, ngen, s);
    if Room(net, s.pos, spec) {
      WrongRound(net, prompt, spec, ngen, s);
      var r := SpecRound(net, head, spec, ngen, s);
      if |r.tally.printed| < ngen { WrongRun(net, prompt, spec, ngen, r); }
    }
  }

  /** A run is accepted for every draft head exactly when a whole window fits after the last token but one: near the
      limit the loop can end in an error where the plain loop has room. */
  lemma RefusedExactly(net: Net, prompt: seq<Tok>, a: StageState, b: StageState, mean: seq<Val>, lastT: nat, t: Tok,
        spec: nat, ngen: nat)
    requires AfterPrefill(net, prompt, a, b, mean, lastT, t) && spec + 1 <= K_SPEC_MAX && ngen > 0
    ensures var s := Start(a, b, mean, lastT, |prompt|, t, spec);
      SessionOk(net, spec, s) &&
      ((forall head: Head :: !SpecRun(net, head, spec, ngen, s).failed)
       <==> |prompt| + ngen + spec <= Limit(net.cfg) && spec + 1 <= net.cfg.maxChunk)
  {
    hide SpecRun, InStep, Limit, AHolds, BHolds, MeanRows, WrongHead;
    var s := Start(a, b, mean, lastT, |prompt|, t, spec);
    StartInStep(net, prompt, a, b, mean, lastT, t, spec);
    if Room(net, |prompt| + ngen - 1, spec) {
      forall head: Head ensures !SpecRun(net, head, spec, ngen, s).failed {
        RunIsGreedy(net, head, prompt, spec, ngen, s);
      }
    } else {
      WrongRun(net, prompt, spec, ngen, s);
    }
  }

  lemma {:induction false} SumZeros(n: nat)
    ensures Sum(seq(n, _ => 0)) == 0
  {
    if n > 0 {
      assert seq(n, _ => 0)[1..] == seq(n - 1, _ => 0);
      SumZeros(n - 1);
    }
  }

  lemma SpecIsAccounted(net: Net, head: Head, a: StageState, b: StageState, mean: seq<Val>, lastT: nat, pos: nat,
        t: Tok, spec: nat, ngen: nat)
    requires SessionOk(net, spec, Start(a, b, mean, lastT, pos, t, spec))
    ensures var r := SpecRun(net, head, spec, ngen, Start(a, b, mean, lastT, pos, t, spec));
      r.failed || Balanced(spec, r.tally)
  {
    hide SpecRun;
    SumZeros(spec);
    RunBalances(net, head, spec, ngen, Start(a, b, mean, lastT, pos, t, spec));
  }
}
