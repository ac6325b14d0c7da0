/** The pipelined-draft decode loop: while stage B works on the real token, an async task
    drafts the next one and runs stage A on it behind a snapshot. */
module Pipedraft {
  import opened Blocks
  import opened Stage
  import opened Greedy
  import opened Machine
  import opened Cards
  import opened Prefill

  /** The async task of a round; with the draft head on stage A's card it drafts first. */
  ghost function RunAhead(net: Net, i: bool): Task {
    Then(SnapshotA(net), Then(RunAheadA(net), Then(CopyAhead(!i), Idle)))
  }

  ghost function TaskOps(env: Env, head: bool, i: bool): Task {
    if head then Then(HidUp(i), Then(DraftHead(env), RunAhead(env.net, i))) else RunAhead(env.net, i)
  }

  /** After the join: keep the run-ahead or redo it, and move on. */
  ghost function Settle(net: Net, i: bool, k: Prog): Prog {
    Join(CheckA(Do(Resolve(net, !i), CheckA(Do(Advance(), k)))))
  }

  /** The main thread once stage B has accepted the real token. */
  ghost function RealDone(net: Net, i: bool, k: Prog): Prog {
    Do(ArgmaxB(), Do(HidDown(!i), Do(SetTailRow(), Settle(net, i, k))))
  }

  /** The main thread while the async task is in flight. */
  ghost function RealToken(net: Net, i: bool, k: Prog): Prog {
    Do(CopyCurrent(i), Do(RealB(net), CheckB(RealDone(net, i, k))))
  }

  /** One round; with the draft head on stage B's card the draft runs before the launch. */
  ghost function Round(env: Env, head: bool, i: bool, k: Prog): Prog {
    var p := Launch(TaskOps(env, head, i), RealToken(env.net, i, k));
    if head then p else Do(DraftTail(env), p)
  }

  /** The decode loop with n tokens still to print; i is the parity of the round. */
  ghost function DecodeFrom(env: Env, head: bool, i: bool, n: nat, k: Prog): Prog
    decreases n
  {
    if n == 0 then k
    else if n == 1 then Do(Print(), k)
    else Do(Print(), Round(env, head, i, DecodeFrom(env, head, !i, n - 1, k)))
  }

  ghost function Decode(env: Env, head: bool, prompt: seq<Tok>, ngen: nat): Prog {
    Do(StartDecode(|prompt|), Do(SeedDraft(), Do(SeedA(env.net), CheckA(DecodeFrom(env, head, false, ngen, End)))))
  }

  /** The whole run: a pipelined or a serial prefill, then the decode loop. */
  ghost function Program(env: Env, head: bool, pipelined: bool, prompt: seq<Tok>, chunk: Pos, ngen: nat): Prog
    requires |prompt| > 0
  {
    if pipelined then Pipelined(env.net, prompt, chunk, Decode(env, head, prompt, ngen))
    else SerialFrom(env.net, prompt, chunk, 0, Decode(env, head, prompt, ngen))
  }

  // ---- no race ------------------------------------------------------------------------

  lemma TaskOpsHonest(env: Env, head: bool, i: bool)
    ensures HonestTask(TaskOps(env, head, i))
  {
    hide Honest, SnapshotA, RunAheadA, CopyAhead, HidUp, DraftHead;
    SnapshotAHonest(env.net);
    RunAheadAHonest(env.net);
    CopyAheadHonest(!i);
    HidUpHonest(i);
    DraftHeadHonest(env);
    assert HonestTask(Then(CopyAhead(!i), Idle));
    assert HonestTask(Then(RunAheadA(env.net), Then(CopyAhead(!i), Idle)));
    assert HonestTask(RunAhead(env.net, i));
    assert HonestTask(Then(DraftHead(env), RunAhead(env.net, i)));
  }

  lemma SettleSafe(net: Net, i: bool, k: Prog, task: Task)
    requires HonestProg(k) && RaceFree(k, Idle)
    ensures HonestProg(Settle(net, i, k)) && RaceFree(Settle(net, i, k), task)
  {
    hide Honest, StepResolve, Advance, CheckA, Resolve;
    ExclusiveHonest((m: Mem) => StepResolve(net, m, !i));
    assert Honest(Resolve(net, !i)) by { ResolveIs(net, !i); }
    AdvanceHonest();
    var p1 := Do(Advance(), k);
    assert HonestProg(p1) && RaceFree(p1, Idle);
    CheckedSafe(p1);
    var p2 := Do(Resolve(net, !i), CheckA(p1));
    assert HonestProg(p2) && RaceFree(p2, Idle);
    JoinedSafe(p2, task);
  }

  lemma ResolveIs(net: Net, i: bool)
    ensures Resolve(net, i) == Exclusive((m: Mem) => StepResolve(net, m, i))
  {
  }

  lemma CheckedSafe(next: Prog)
    requires HonestProg(next) && RaceFree(next, Idle)
    ensures HonestProg(CheckA(next)) && RaceFree(CheckA(next), Idle)
  {
    CheckAHonest(next);
  }

  /** What the main thread does during a round: its operations, and the check on stage B. */
  ghost predicate OfRealToken(net: Net, i: bool, op: Op) {
    || op == CopyCurrent(i) || op == RealB(net) || op == ArgmaxB() || op == HidDown(!i) || op == SetTailRow()
    || op == Reading({LCardB})
  }

  /** One of them, against every operation of the async task. */
  lemma RealApart(env: Env, head: bool, i: bool, op: Op)
    requires OfRealToken(env.net, i, op)
    ensures DisjointFrom(op, TaskOps(env, head, i))
  {
    var net := env.net;
    assert DisjointFrom(op, Then(CopyAhead(!i), Idle));
    assert DisjointFrom(op, Then(RunAheadA(net), Then(CopyAhead(!i), Idle)));
    assert DisjointFrom(op, RunAhead(net, i));
    assert DisjointFrom(op, Then(DraftHead(env), RunAhead(net, i)));
  }

  lemma RealDoneSafe(env: Env, head: bool, i: bool, k: Prog)
    requires HonestProg(k) && RaceFree(k, Idle)
    ensures HonestProg(RealDone(env.net, i, k)) && RaceFree(RealDone(env.net, i, k), TaskOps(env, head, i))
  {
    hide Honest, DisjointFrom, ArgmaxB, HidDown, SetTailRow, Settle, TaskOps;
    var net, task := env.net, TaskOps(env, head, i);
    SettleSafe(net, i, k, task);
    ArgmaxBHonest();
    HidDownHonest(!i);
    SetTailRowHonest();
    RealApart(env, head, i, ArgmaxB());
    RealApart(env, head, i, HidDown(!i));
    RealApart(env, head, i, SetTailRow());
    var p1 := Do(SetTailRow(), Settle(net, i, k));
    assert HonestProg(p1) && RaceFree(p1, task);
    var p2 := Do(HidDown(!i), p1);
    assert HonestProg(p2) && RaceFree(p2, task);
  }

  lemma RealTokenSafe(env: Env, head: bool, i: bool, k: Prog)
    requires HonestProg(k) && RaceFree(k, Idle)
    ensures HonestProg(RealToken(env.net, i, k)) && RaceFree(RealToken(env.net, i, k), TaskOps(env, head, i))
  {
    hide Honest, DisjointFrom, CopyCurrent, RealB, RealDone, TaskOps, Reading;
    var net, task := env.net, TaskOps(env, head, i);
    RealDoneSafe(env, head, i, k);
    CopyCurrentHonest(i);
    RealBHonest(net);
    RealApart(env, head, i, CopyCurrent(i));
    RealApart(env, head, i, RealB(net));
    RealApart(env, head, i, Reading({LCardB}));
    var p := CheckB(RealDone(net, i, k));
    CheckBHonest(RealDone(net, i, k));
    assert RaceFree(p, task);
    assert HonestProg(Do(RealB(net), p)) && RaceFree(Do(RealB(net), p), task);
  }

  lemma RoundSafe(env: Env, head: bool, i: bool, k: Prog)
    requires HonestProg(k) && RaceFree(k, Idle)
    ensures HonestProg(Round(env, head, i, k)) && RaceFree(Round(env, head, i, k), Idle)
  {
    hide Honest, RealToken, TaskOps, DraftTail;
    RealTokenSafe(env, head, i, k);
    TaskOpsHonest(env, head, i);
    DraftTailHonest(env);
    var p := Launch(TaskOps(env, head, i), RealToken(env.net, i, k));
    assert HonestProg(p) && RaceFree(p, Idle);
  }

  lemma {:induction false} DecodeSafe(env: Env, head: bool, i: bool, n: nat, k: Prog)
    requires HonestProg(k) && RaceFree(k, Idle)
    ensures HonestProg(DecodeFrom(env, head, i, n, k)) && RaceFree(DecodeFrom(env, head, i, n, k), Idle)
    decreases n
  {
    hide Honest, Round;
    ExclusiveHonest((m: Mem) => m.(host := m.host.(printed := m.host.printed + [m.t])));
    assert Honest(Print());
    if n > 1 {
      DecodeSafe(env, head, !i, n - 1, k);
      RoundSafe(env, head, i, DecodeFrom(env, head, !i, n - 1, k));
    }
  }

  lemma StartSafe(env: Env, prompt: seq<Tok>, k: Prog)
    requires HonestProg(k) && RaceFree(k, Idle)
    ensures var p := Do(StartDecode(|prompt|), Do(SeedDraft(), Do(SeedA(env.net), CheckA(k))));
      HonestProg(p) && RaceFree(p, Idle)
  {
    hide Honest, CallA, CheckA;
    var net, n := env.net, |prompt|;
    ExclusiveHonest((m: Mem) => m.(pos := n, t := m.cardB.logits));
    assert Honest(StartDecode(|prompt|));
    ExclusiveHonest(SeedDraft().run);
    assert Honest(SeedDraft());
    ExclusiveHonest(SeedA(net).run);
    assert Honest(SeedA(net));
    CheckedSafe(k);
    var p := Do(SeedA(net), CheckA(k));
    assert HonestProg(p) && RaceFree(p, Idle);
    assert HonestProg(Do(SeedDraft(), p)) && RaceFree(Do(SeedDraft(), p), Idle);
  }

  lemma ProgramSafe(env: Env, head: bool, pipelined: bool, prompt: seq<Tok>, chunk: Pos, ngen: nat)
    requires |prompt| > 0
    ensures HonestProg(Program(env, head, pipelined, prompt, chunk, ngen))
    ensures RaceFree(Program(env, head, pipelined, prompt, chunk, ngen), Idle)
  {
    hide DecodeFrom, StartDecode, SeedDraft, SeedA, Pipelined, SerialFrom, HonestProg, RaceFree;
    assert HonestProg(End) && RaceFree(End, Idle) by { NothingSafe(); }
    DecodeSafe(env, head, false, ngen, End);
    StartSafe(env, prompt, DecodeFrom(env, head, false, ngen, End));
    PipelinedRaceFree(env.net, prompt, chunk, Decode(env, head, prompt, ngen));
    SerialRaceFree(env.net, prompt, chunk, 0, Decode(env, head, prompt, ngen));
  }

  lemma NothingSafe()
    ensures HonestProg(End) && RaceFree(End, Idle)
  {
  }

  // ---- what the loop keeps --------------------------------------------------------------

  /** The draft head aligned with the committed text: entry p fuses the hidden row of p - 1 with the token at p. */
  function Fed(net: Net, prompt: seq<Tok>, j: nat): (r: seq<MtpEntry>)
    requires |prompt| > 0
    ensures |r| == j
  {
    if j == 0 then [] else
      var h := Text(net, prompt, j - 1);
      Fed(net, prompt, j - 1) + [MtpEntry(Last(MeanRows(net, h)), Next(net, h), |h|)]
  }

  /** How many of the first j drafts were the token greedy prints next. */
  function Hits(env: Env, prompt: seq<Tok>, j: nat): (n: nat)
    requires |prompt| > 0
    ensures n <= j
  {
    if j == 0 then 0 else
      var right := env.draft(Fed(env.net, prompt, j)) == Next(env.net, Text(env.net, prompt, j));
      Hits(env, prompt, j - 1) + if right then 1 else 0
  }

  /** Entry i fuses the hidden row of the text's first i tokens after the prompt with the greedy token there. */
  lemma {:induction false} FedAt(net: Net, prompt: seq<Tok>, j: nat, i: nat)
    requires |prompt| > 0 && i < j
    ensures var h := Text(net, prompt, i);
      Fed(net, prompt, j)[i] == MtpEntry(Last(MeanRows(net, h)), Next(net, h), |prompt| + i)
    ensures Fed(net, prompt, j)[..i + 1] == Fed(net, prompt, i + 1)
  {
    hide MeanRows, Next, Text;
    if i < j - 1 { FedAt(net, prompt, j - 1, i); }
  }

  /** The draft of round i, from the entries up to it, was the greedy token after it. */
  predicate RightDraft(env: Env, prompt: seq<Tok>, mtp: seq<MtpEntry>, i: nat)
    requires |prompt| > 0 && i < |mtp|
  {
    env.draft(mtp[..i + 1]) == Next(env.net, Text(env.net, prompt, i + 1))
  }

  function RightDrafts(env: Env, prompt: seq<Tok>, mtp: seq<MtpEntry>, rounds: nat): set<nat>
    requires |prompt| > 0 && rounds <= |mtp|
  {
    set i: nat | i < rounds && RightDraft(env, prompt, mtp, i)
  }

  lemma RightDraftsGrow(env: Env, prompt: seq<Tok>, mtp: seq<MtpEntry>, j: nat)
    requires |prompt| > 0 && j < |mtp|
    ensures |RightDrafts(env, prompt, mtp, j + 1)|
      == |RightDrafts(env, prompt, mtp, j)| + if RightDraft(env, prompt, mtp, j) then 1 else 0
  {
    hide RightDraft;
    var more := if RightDraft(env, prompt, mtp, j) then {j} else {};
    assert RightDrafts(env, prompt, mtp, j + 1) == RightDrafts(env, prompt, mtp, j) + more;
  }

  lemma {:induction false} HitsAre(env: Env, prompt: seq<Tok>, j: nat, n: nat)
    requires |prompt| > 0 && j <= n
    ensures Hits(env, prompt, j) == |RightDrafts(env, prompt, Fed(env.net, prompt, n), j)|
  {
    hide MeanRows, Next, Text, Fed, RightDrafts;
    var mtp := Fed(env.net, prompt, n);
    if j == 0 {
      assert RightDrafts(env, prompt, mtp, 0) == {} by { NoRightDraft(env, prompt, mtp); }
    } else {
      HitsAre(env, prompt, j - 1, n);
      FedAt(env.net, prompt, n, j - 1);
      RightDraftsGrow(env, prompt, mtp, j - 1);
    }
  }

  lemma NoRightDraft(env: Env, prompt: seq<Tok>, mtp: seq<MtpEntry>)
    requires |prompt| > 0
    ensures RightDrafts(env, prompt, mtp, 0) == {}
  {
  }

  /** The row of stage A's output for the last token of the text. */
  ghost function LastWide(net: Net, h: seq<Tok>): seq<Val>
    requires |h| > 0
  {
    WideRows(net, h)[|h| - 1..]
  }

  /** At the head of the loop, with j tokens printed: stage A has consumed the committed text and t, stage B
      the committed text, buffer i, the one `cur` names, holds stage A's rows for t, the hidden row of pos - 1 is
      in both its homes, and the draft head has been stepped once per committed token. */
  ghost predicate LoopHead(env: Env, prompt: seq<Tok>, m: Mem, i: bool, j: nat)
    requires |prompt| > 0
  {
    && StagesAt(env.net, prompt, m, i, j)
    && m.mtp == Fed(env.net, prompt, j)
    && m.host == Host(Continuation(env.net, prompt, j), j, Hits(env, prompt, j))
  }

  ghost predicate StagesAt(net: Net, prompt: seq<Tok>, m: Mem, i: bool, j: nat)
    requires |prompt| > 0
  {
    && m.pos == |prompt| + j && m.t == Next(net, Text(net, prompt, j)) && m.cur == m.par == i
    && AReady(net, m.cardA, Text(net, prompt, j + 1)) && BReady(net, m.cardB, Text(net, prompt, j))
    && Wide(m, i) == LastWide(net, Text(net, prompt, j + 1))
    && Hid(m, i) == RowAt(m.cardB.mean, m.tailRow) == Last(MeanRows(net, Text(net, prompt, j)))
  }

  // ---- one round ---------------------------------------------------------------------

  ghost function AfterDraft(env: Env, head: bool, i: bool, m: Mem): Mem {
    if head then StepDraftHead(env, HidUp(i).run(m)) else StepDraftTail(env, m)
  }

  ghost function AfterAhead(net: Net, i: bool, m: Mem): Mem {
    CopyAhead(!i).run(RunAheadA(net).run(SnapshotA(net).run(m)))
  }

  ghost function AfterReal(net: Net, i: bool, m: Mem): Mem {
    SetTailRow().run(HidDown(!i).run(ArgmaxB().run(RealB(net).run(CopyCurrent(i).run(m)))))
  }

  /** The memory after the join. */
  ghost function AfterJoin(env: Env, head: bool, i: bool, m: Mem): Mem {
    AfterReal(env.net, i, AfterAhead(env.net, i, AfterDraft(env, head, i, m)))
  }

  lemma AheadRuns(net: Net, i: bool, m: Mem)
    ensures ExecAll(RunAhead(net, i), m) == AfterAhead(net, i, m)
  {
    hide SnapshotA, RunAheadA, CopyAhead;
    var m1 := SnapshotA(net).run(m);
    var m2 := RunAheadA(net).run(m1);
    assert ExecAll(Then(CopyAhead(!i), Idle), m2) == ExecAll(Idle, CopyAhead(!i).run(m2));
    assert ExecAll(Then(RunAheadA(net), Then(CopyAhead(!i), Idle)), m1) == ExecAll(Then(CopyAhead(!i), Idle), m2);
  }

  lemma CheckRunsB(p: Prog, m: Mem)
    ensures Serial(CheckB(p), m) == if m.cardB.refused then m else Serial(p, m)
  {
  }

  /** Reading the argmax and the hidden row leaves the cards as they were. */
  lemma RealSparesCards(net: Net, i: bool, m: Mem)
    ensures AfterReal(net, i, m).cardB == RealB(net).run(CopyCurrent(i).run(m)).cardB
    ensures AfterReal(net, i, m).cardA == m.cardA
  {
    hide CallB;
  }

  lemma RealRuns(net: Net, i: bool, k: Prog, m: Mem)
    requires !AfterReal(net, i, m).cardB.refused
    ensures Serial(RealToken(net, i, k), m) == Serial(Settle(net, i, k), AfterReal(net, i, m))
  {
    hide CopyCurrent, RealB, ArgmaxB, HidDown, SetTailRow, Settle, CheckB;
    RealSparesCards(net, i, m);
    var p1 := Do(SetTailRow(), Settle(net, i, k));
    var p2 := Do(HidDown(!i), p1);
    var p3 := RealDone(net, i, k);
    var m1 := RealB(net).run(CopyCurrent(i).run(m));
    assert Serial(p3, m1) == Serial(p2, ArgmaxB().run(m1));
    var m2 := HidDown(!i).run(ArgmaxB().run(m1));
    assert Serial(p2, ArgmaxB().run(m1)) == Serial(p1, m2);
    CheckRunsB(p3, m1);
    assert Serial(Do(RealB(net), CheckB(p3)), CopyCurrent(i).run(m)) == Serial(CheckB(p3), m1);
  }

  lemma SettleRuns(net: Net, i: bool, k: Prog, m: Mem)
    ensures var r := StepResolve(net, m, !i);
      Serial(Settle(net, i, k), m)
      == if m.cardA.refused then m else if r.cardA.refused then r else Serial(k, Advance().run(r))
  {
    hide StepResolve, CheckA, Advance;
    var p1 := Do(Advance(), k);
    var p2 := Do(Resolve(net, !i), CheckA(p1));
    var r := Resolve(net, !i).run(m);
    assert r == StepResolve(net, m, !i);
    CheckRunsA(p2, m);
    assert Serial(p2, m) == Serial(CheckA(p1), r);
    CheckRunsA(p1, r);
    assert Serial(p1, r) == Serial(k, Advance().run(r));
    assert Serial(Settle(net, i, k), m) == Serial(CheckA(p2), m);
  }

  lemma RoundRuns(env: Env, head: bool, i: bool, k: Prog, m: Mem)
    requires !AfterJoin(env, head, i, m).cardB.refused
    ensures Serial(Round(env, head, i, k), m) == Serial(Settle(env.net, i, k), AfterJoin(env, head, i, m))
  {
    hide AfterAhead, AfterReal, RunAhead, RealToken, Settle, HidUp, StepDraftHead, StepDraftTail;
    var net := env.net;
    var m1 := AfterDraft(env, head, i, m);
    var m2 := AfterAhead(net, i, m1);
    var main := RealToken(net, i, k);
    AheadRuns(net, i, m1);
    if head {
      assert ExecAll(Then(DraftHead(env), RunAhead(net, i)), HidUp(i).run(m)) == ExecAll(RunAhead(net, i), m1);
    }
    var p := Launch(TaskOps(env, head, i), main);
    assert Serial(p, if head then m else m1) == Serial(main, m2);
    RealRuns(net, i, k, m2);
  }

  /** In a round of the loop, after j tokens were committed and t was printed. */
  ghost predicate InRound(env: Env, prompt: seq<Tok>, m: Mem, i: bool, j: nat)
    requires |prompt| > 0
  {
    && m.pos == |prompt| + j && m.t == Next(env.net, Text(env.net, prompt, j)) && m.cur == m.par == i
    && m.host == Host(Continuation(env.net, prompt, j + 1), j, Hits(env, prompt, j))
  }

  lemma DraftKeeps(env: Env, head: bool, prompt: seq<Tok>, i: bool, j: nat, m: Mem)
    requires |prompt| > 0 && InRound(env, prompt, m, i, j) && StagesAt(env.net, prompt, m, i, j)
    requires m.mtp == Fed(env.net, prompt, j)
    ensures var net, r := env.net, AfterDraft(env, head, i, m);
      && InRound(env, prompt, r, i, j) && r.mtp == Fed(net, prompt, j + 1) && r.dNow == env.draft(r.mtp)
      && AReady(net, r.cardA, Text(net, prompt, j + 1)) && BReady(net, r.cardB, Text(net, prompt, j))
      && Wide(r, i) == LastWide(net, Text(net, prompt, j + 1))
  {
    hide AHolds, BHolds, WideRows, MeanRows, Continuation, Next, Hits, LastWide;
  }

  /** The run-ahead touches stage A's card and the other buffer. */
  lemma AheadSpares(env: Env, prompt: seq<Tok>, i: bool, j: nat, m: Mem)
    requires |prompt| > 0 && InRound(env, prompt, m, i, j)
    ensures var r := AfterAhead(env.net, i, m);
      && InRound(env, prompt, r, i, j) && Wide(r, i) == Wide(m, i) && r.cardB == m.cardB && r.mtp == m.mtp
      && r.dNow == m.dNow
  {
    hide SnapA, CallA, Continuation, Next, Hits, Text;
  }

  lemma AheadKeeps(env: Env, prompt: seq<Tok>, i: bool, j: nat, m: Mem)
    requires |prompt| > 0 && InRound(env, prompt, m, i, j) && AReady(env.net, m.cardA, Text(env.net, prompt, j + 1))
    requires |prompt| + j + 2 <= Limit(env.net.cfg) && 1 <= env.net.cfg.maxChunk
    ensures var net, r := env.net, AfterAhead(env.net, i, m);
      var h1 := Text(net, prompt, j + 1);
      AReady(net, r.cardA, h1 + [m.dNow]) && SnapReady(net, r.cardA, h1) && Wide(r, !i) == LastWide(net, h1 + [m.dNow])
  {
    hide AReady, SnapReady, SnapA, CallA, WideRows, Continuation, Next, Hits, Text, Limit;
    var net, h1 := env.net, Text(env.net, prompt, j + 1);
    var a1 := SnapA(net, m.cardA);
    SnapCall(net, m.cardA, h1);
    ACall(net, a1, h1, [m.dNow]);
    ACallKeepsSnap(net, a1, h1, [m.dNow], |h1|);
  }

  /** With the context full the run-ahead is refused. */
  lemma AheadRefused(env: Env, prompt: seq<Tok>, i: bool, j: nat, m: Mem)
    requires |prompt| > 0 && InRound(env, prompt, m, i, j) && AReady(env.net, m.cardA, Text(env.net, prompt, j + 1))
    requires |prompt| + j + 2 > Limit(env.net.cfg)
    ensures AfterAhead(env.net, i, m).cardA.refused
  {
    hide AReady, SnapReady, SnapA, CallA, WideRows, Continuation, Next, Hits, Text, Limit;
    var net, h1 := env.net, Text(env.net, prompt, j + 1);
    SnapCall(net, m.cardA, h1);
    AFull(net, SnapA(net, m.cardA), h1, [m.dNow]);
  }

  lemma OneRow(net: Net, h: seq<Tok>, t: Tok)
    ensures |MeanRows(net, h + [t])[|h|..]| == 1 && MeanRows(net, h + [t])[|h|..][0] == Last(MeanRows(net, h + [t]))
  {
  }

  lemma RealKeeps(env: Env, prompt: seq<Tok>, i: bool, j: nat, m: Mem)
    requires |prompt| > 0 && InRound(env, prompt, m, i, j) && BReady(env.net, m.cardB, Text(env.net, prompt, j))
    requires Wide(m, i) == LastWide(env.net, Text(env.net, prompt, j + 1))
    requires |prompt| + j + 1 <= Limit(env.net.cfg) && 1 <= env.net.cfg.maxChunk
    ensures var net, r := env.net, AfterReal(env.net, i, m);
      var h1 := Text(net, prompt, j + 1);
      && BReady(net, r.cardB, h1) && r.tNext == Next(net, h1)
      && Hid(r, !i) == RowAt(r.cardB.mean, r.tailRow) == Last(MeanRows(net, h1))
      && InRound(env, prompt, r, i, j) && r.cardA == m.cardA && Wide(r, !i) == Wide(m, !i) && r.mtp == m.mtp
      && r.dNow == m.dNow
  {
    hide BReady, CallB, WideRows, MeanRows, Continuation, Next, Hits, Text, Limit;
    var net, h := env.net, Text(env.net, prompt, j);
    TextGrows(net, prompt, j);
    BReadyWide(net, m.cardB, h, Wide(m, i));
    BCall(net, m.cardB.(wide := Wide(m, i)), h, [m.t]);
    OneRow(net, h, m.t);
  }

  lemma SettleKeeps(env: Env, prompt: seq<Tok>, i: bool, j: nat, m: Mem)
    requires |prompt| > 0 && InRound(env, prompt, m, i, j)
    requires var h1 := Text(env.net, prompt, j + 1);
      && AReady(env.net, m.cardA, h1 + [m.dNow]) && SnapReady(env.net, m.cardA, h1)
      && Wide(m, !i) == LastWide(env.net, h1 + [m.dNow])
      && BReady(env.net, m.cardB, h1) && m.tNext == Next(env.net, h1)
      && Hid(m, !i) == RowAt(m.cardB.mean, m.tailRow) == Last(MeanRows(env.net, h1))
    requires m.mtp == Fed(env.net, prompt, j + 1) && m.dNow == env.draft(m.mtp)
    requires |prompt| + j + 2 <= Limit(env.net.cfg) && 1 <= env.net.cfg.maxChunk
    ensures var r := StepResolve(env.net, m, !i);
      !r.cardA.refused && LoopHead(env, prompt, Advance().run(r), !i, j + 1)
  {
    hide AHolds, BHolds, SnapReady, RestA, CallA, WideRows, MeanRows, Continuation, Next, Text, Fed, Limit;
    var net, h1 := env.net, Text(env.net, prompt, j + 1);
    TextGrows(net, prompt, j + 1);
    if m.dNow != m.tNext {
      RestCall(net, m.cardA, h1, [m.dNow]);
      ACall(net, RestA(net, m.cardA), h1, [m.tNext]);
    }
  }

  /** After the join of a round: stage B has the token at pos, the draft head one more entry; stage A accepted the
      draft or, with the context full, was refused. */
  lemma JoinKeeps(env: Env, head: bool, prompt: seq<Tok>, i: bool, j: nat, m: Mem)
    requires |prompt| > 0 && LoopHead(env, prompt, m, i, j)
    requires |prompt| + j + 1 <= Limit(env.net.cfg) && 1 <= env.net.cfg.maxChunk
    ensures var net, r := env.net, AfterJoin(env, head, i, Print().run(m));
      var h1 := Text(net, prompt, j + 1);
      && InRound(env, prompt, r, i, j) && r.mtp == Fed(net, prompt, j + 1) && r.dNow == env.draft(r.mtp)
      && BReady(net, r.cardB, h1) && r.tNext == Next(net, h1)
      && Hid(r, !i) == RowAt(r.cardB.mean, r.tailRow) == Last(MeanRows(net, h1))
      && if |prompt| + j + 2 <= Limit(net.cfg) then
           && AReady(net, r.cardA, h1 + [r.dNow]) && SnapReady(net, r.cardA, h1)
           && Wide(r, !i) == LastWide(net, h1 + [r.dNow])
         else r.cardA.refused
  {
    hide AReady, BReady, SnapReady, WideRows, MeanRows, Next, Text, Fed, Hits, Limit, LastWide, AfterDraft, AfterAhead,
         AfterReal;
    var m0 := Print().run(m);
    var m1 := AfterDraft(env, head, i, m0);
    TextGrows(env.net, prompt, j);
    DraftKeeps(env, head, prompt, i, j, m0);
    AheadSpares(env, prompt, i, j, m1);
    if |prompt| + j + 2 <= Limit(env.net.cfg) {
      AheadKeeps(env, prompt, i, j, m1);
    } else {
      AheadRefused(env, prompt, i, j, m1);
    }
    RealKeeps(env, prompt, i, j, AfterAhead(env.net, i, m1));
  }

  /** A round with room keeps the loop's invariant and commits one more token, whatever the draft was. */
  lemma RoundKeeps(env: Env, head: bool, prompt: seq<Tok>, i: bool, j: nat, m: Mem, k: Prog)
    requires |prompt| > 0 && LoopHead(env, prompt, m, i, j)
    requires |prompt| + j + 2 <= Limit(env.net.cfg) && 1 <= env.net.cfg.maxChunk
    ensures var r := Advance().run(StepResolve(env.net, AfterJoin(env, head, i, Print().run(m)), !i));
      && LoopHead(env, prompt, r, !i, j + 1)
      && Serial(Round(env, head, i, k), Print().run(m)) == Serial(k, r)
  {
    hide AHolds, BHolds, SnapReady, WideRows, MeanRows, Next, Text, Fed, Hits, Limit, LastWide, AfterJoin, Round,
         StepResolve, LoopHead, InRound, Settle, Advance;
    var m1 := AfterJoin(env, head, i, Print().run(m));
    JoinKeeps(env, head, prompt, i, j, m);
    SettleKeeps(env, prompt, i, j, m1);
    RoundRuns(env, head, i, k, Print().run(m));
    SettleRuns(env.net, i, k, m1);
  }

  /** A round with the context full ends the run: stage B's token was computed, stage A was refused the next. */
  lemma RoundRefused(env: Env, head: bool, prompt: seq<Tok>, i: bool, j: nat, m: Mem, k: Prog)
    requires |prompt| > 0 && LoopHead(env, prompt, m, i, j)
    requires |prompt| + j + 1 <= Limit(env.net.cfg) < |prompt| + j + 2 && 1 <= env.net.cfg.maxChunk
    ensures var r := Serial(Round(env, head, i, k), Print().run(m));
      && r.host == Host(Continuation(env.net, prompt, j + 1), j, Hits(env, prompt, j))
      && r.mtp == Fed(env.net, prompt, j + 1) && r.cardA.refused && !r.cardB.refused
  {
    hide AHolds, BHolds, SnapReady, WideRows, MeanRows, Next, Text, Fed, Hits, Limit, LastWide, AfterJoin, Round,
         StepResolve, LoopHead, Settle, Advance, Continuation;
    JoinKeeps(env, head, prompt, i, j, m);
    RoundRuns(env, head, i, k, Print().run(m));
    SettleRuns(env.net, i, k, AfterJoin(env, head, i, Print().run(m)));
  }

  // ---- the decode loop prints the greedy text --------------------------------------------

  /** What a decode of n tokens after the prompt leaves on the host and in the draft head. The tokens that fit the
      context are printed; a run that wants more is refused by stage A after the last of them. */
  ghost predicate Printed(env: Env, prompt: seq<Tok>, m: Mem, n: nat)
    requires 0 < |prompt| < Limit(env.net.cfg)
  {
    var room := Limit(env.net.cfg) - |prompt|;
    var rounds: nat := if n == 0 then 0 else if n <= room then n - 1 else room - 1;
    && m.host == Host(Continuation(env.net, prompt, if n <= room then n else room), rounds, Hits(env, prompt, rounds))
    && m.mtp == Fed(env.net, prompt, if n <= room then rounds else room)
    && (m.cardA.refused <==> n > room) && !m.cardB.refused
  }

  lemma {:induction false} DecodePrints(env: Env, head: bool, prompt: seq<Tok>, i: bool, j: nat, n: nat, m: Mem)
    requires |prompt| > 0 && LoopHead(env, prompt, m, i, j) && (j > 0 ==> n > 0)
    requires |prompt| + j + 1 <= Limit(env.net.cfg) && 1 <= env.net.cfg.maxChunk
    ensures Printed(env, prompt, Serial(DecodeFrom(env, head, i, n, End), m), j + n)
    decreases n
  {
    hide Round, AHolds, BHolds, WideRows, MeanRows, Next, Text, Fed, Hits, Limit, LastWide, AfterJoin, StepResolve,
         Continuation, Advance;
    if n > 1 {
      var rest := DecodeFrom(env, head, !i, n - 1, End);
      var m1 := Print().run(m);
      assert Serial(DecodeFrom(env, head, i, n, End), m) == Serial(Round(env, head, i, rest), m1);
      if |prompt| + j + 2 <= Limit(env.net.cfg) {
        RoundKeeps(env, head, prompt, i, j, m, rest);
        var m2 := Advance().run(StepResolve(env.net, AfterJoin(env, head, i, m1), !i));
        DecodePrints(env, head, prompt, !i, j + 1, n - 1, m2);
      } else {
        RoundRefused(env, head, prompt, i, j, m, rest);
      }
    } else if n == 1 {
      TextGrows(env.net, prompt, j);
      assert Serial(Do(Print(), End), m) == Print().run(m);
    } else {
      assert Serial(DecodeFrom(env, head, i, n, End), m) == m;
    }
  }

  ghost function AfterStart(net: Net, prompt: seq<Tok>, m: Mem): Mem {
    SeedA(net).run(SeedDraft().run(StartDecode(|prompt|).run(m)))
  }

  lemma StartParts(net: Net, prompt: seq<Tok>, m: Mem)
    requires m.lastRows > 0
    ensures var r := AfterStart(net, prompt, m);
      && r.pos == |prompt| && r.t == m.cardB.logits && r.cur == r.par == false
      && r.cardA == CallA(net, m.cardA, [r.t], |prompt|) && Wide(r, false) == r.cardA.wide && r.cardB == m.cardB
      && r.mtp == [] && r.tailRow == m.lastRows - 1 && Hid(r, false) == RowAt(m.cardB.mean, m.lastRows - 1)
      && r.host == m.host
  {
    hide CallA;
  }

  /** A prefill, pipelined or serial, followed by the seeds, reaches the head of the loop. */
  lemma StartReachesLoop(env: Env, prompt: seq<Tok>, m: Mem)
    requires 0 < |prompt| < Limit(env.net.cfg) && 1 <= env.net.cfg.maxChunk
    requires Prefilled(env.net, m, prompt) && m.host == Host([], 0, 0)
    ensures LoopHead(env, prompt, AfterStart(env.net, prompt, m), false, 0)
  {
    hide AReady, BReady, CallA, WideRows, MeanRows, Limit, AfterStart, Next;
    var net, t := env.net, m.cardB.logits;
    StartParts(net, prompt, m);
    assert Text(net, prompt, 0) == prompt;
    TextGrows(net, prompt, 0);
    ACall(net, m.cardA, prompt, [t]);
  }

  lemma DecodeRuns(env: Env, head: bool, prompt: seq<Tok>, ngen: nat, m: Mem)
    requires !AfterStart(env.net, prompt, m).cardA.refused
    ensures Serial(Decode(env, head, prompt, ngen), m)
      == Serial(DecodeFrom(env, head, false, ngen, End), AfterStart(env.net, prompt, m))
  {
    hide DecodeFrom, SeedA, SeedDraft, StartDecode, CheckA;
    var rest := CheckA(DecodeFrom(env, head, false, ngen, End));
    var m1 := StartDecode(|prompt|).run(m);
    var p := Do(SeedA(env.net), rest);
    assert Serial(Do(SeedDraft(), p), m1) == Serial(p, SeedDraft().run(m1));
    CheckRunsA(DecodeFrom(env, head, false, ngen, End), AfterStart(env.net, prompt, m));
  }

  /** The runner's check before it starts, and a chunk that fits a forward. Nothing bounds ngen. */
  predicate Runnable(net: Net, prompt: seq<Tok>, chunk: Pos) {
    0 < |prompt| < Limit(net.cfg) && chunk <= net.cfg.maxChunk
  }

  /** Both stages were reset and nothing was printed yet. */
  ghost predicate Fresh(net: Net, m: Mem) {
    AReady(net, m.cardA, []) && BReady(net, m.cardB, []) && m.host == Host([], 0, 0)
  }

  ghost function PrefillMem(net: Net, pipelined: bool, prompt: seq<Tok>, chunk: Pos, m: Mem): Mem
    requires |prompt| > 0
  {
    if pipelined then PipelinedMem(net, prompt, chunk, m) else SerialMem(net, prompt, chunk, 0, m)
  }

  lemma {:induction false} SerialKeepsHost(net: Net, prompt: seq<Tok>, chunk: Pos, off: nat, s: Mem)
    requires off < |prompt|
    ensures SerialMem(net, prompt, chunk, off, s).host == s.host
    decreases |prompt| - off
  {
    hide AfterSerial;
    ChunkKeepsHost(net, prompt, chunk, off, s);
    var nx := NextOff(|prompt|, chunk, off);
    var r := AfterSerial(net, prompt, chunk, off, s);
    if nx < |prompt| && !Stopped(r) { SerialKeepsHost(net, prompt, chunk, nx, r); }
  }

  lemma ChunkKeepsHost(net: Net, prompt: seq<Tok>, chunk: Pos, off: nat, s: Mem)
    requires off < |prompt|
    ensures AfterSerial(net, prompt, chunk, off, s).host == s.host
  {
    hide CallA, ChunkAt, AfterB;
    var s1 := ChunkA(net, ChunkAt(prompt, chunk, off), off).run(s);
    BParts(net, false, off, NextOff(|prompt|, chunk, off) - off, CopyOut(false).run(s1));
  }

  lemma PrefillReady(net: Net, pipelined: bool, prompt: seq<Tok>, chunk: Pos, m: Mem)
    requires Runnable(net, prompt, chunk) && Fresh(net, m)
    ensures var r := PrefillMem(net, pipelined, prompt, chunk, m); Prefilled(net, r, prompt) && r.host == Host([], 0, 0)
  {
    hide AHolds, BHolds, MeanRows, Next, PipelinedMem, SerialMem, SameCards, Limit;
    if pipelined {
      PipelinedFills(net, prompt, chunk, m);
      PipelinedIsSerial(net, prompt, chunk, m);
    } else {
      SerialFills(net, prompt, chunk, 0, m);
      SerialKeepsHost(net, prompt, chunk, 0, m);
    }
  }

  lemma StageVerdicts(net: Net, prompt: seq<Tok>, m: Mem, r: Mem)
    requires |prompt| > 0 && Fresh(net, m) && Prefilled(net, r, prompt)
    ensures !Stopped(m) && !Stopped(r)
  {
    hide AHolds, BHolds, MeanRows, Next;
  }

  lemma LoopRuns(env: Env, prompt: seq<Tok>, m: Mem, i: bool, j: nat)
    requires |prompt| > 0 && LoopHead(env, prompt, m, i, j)
    ensures !Stopped(m)
  {
    hide AHolds, BHolds, MeanRows, WideRows, Next, Text, Fed, Hits, Continuation;
  }

  lemma ProgramPrints(env: Env, head: bool, pipelined: bool, prompt: seq<Tok>, chunk: Pos, ngen: nat, m: Mem)
    requires Runnable(env.net, prompt, chunk) && Fresh(env.net, m)
    ensures Printed(env, prompt, Serial(Program(env, head, pipelined, prompt, chunk, ngen), m), ngen)
  {
    hide Prefilled, LoopHead, Printed, Decode, DecodeFrom, Pipelined, SerialFrom, PipelinedMem, SerialMem, AfterStart,
        Fresh, Limit;
    var m1 := PrefillMem(env.net, pipelined, prompt, chunk, m);
    PrefillReady(env.net, pipelined, prompt, chunk, m);
    StageVerdicts(env.net, prompt, m, m1);
    if pipelined {
      PipelinedRuns(env.net, prompt, chunk, m, Decode(env, head, prompt, ngen));
    } else {
      SerialRuns(env.net, prompt, chunk, 0, m, Decode(env, head, prompt, ngen));
    }
    StartReachesLoop(env, prompt, m1);
    LoopRuns(env, prompt, AfterStart(env.net, prompt, m1), false, 0);
    DecodeRuns(env, head, prompt, ngen, m1);
    DecodePrints(env, head, prompt, false, 0, ngen, AfterStart(env.net, prompt, m1));
  }

  /** For every model, every draft function, both homes of the draft head and every interleaving of the two threads: a
      finished run printed the first ngen tokens of the greedy text, as many as the context has room for. It was refused
      a forward exactly when ngen is more than that, and the draft head was stepped at consecutive positions. */
  lemma PipedraftIsGreedy(env: Env, head: bool, pipelined: bool, prompt: seq<Tok>, chunk: Pos, ngen: nat, m: Mem,
        ss: seq<Machine>)
    requires Runnable(env.net, prompt, chunk) && Fresh(env.net, m)
    requires Run(ss) && ss[0] == Machine(m, Program(env, head, pipelined, prompt, chunk, ngen), Idle)
    requires Finished(ss[|ss| - 1])
    ensures Printed(env, prompt, ss[|ss| - 1].mem, ngen)
    ensures ss[|ss| - 1].mem.host.printed <= Continuation(env.net, prompt, ngen)
    ensures Stopped(ss[|ss| - 1].mem) <==> |prompt| + ngen > Limit(env.net.cfg)
    ensures var m1, room := ss[|ss| - 1].mem, Limit(env.net.cfg) - |prompt|;
      && |m1.host.printed| == (if ngen <= room then ngen else room)
      && m1.host.rounds == (if ngen == 0 then 0 else |m1.host.printed| - 1) <= |m1.mtp|
      && m1.host.accepted == |set i: nat | i < m1.host.rounds && RightDraft(env, prompt, m1.mtp, i)|
      && forall i | 0 <= i < |m1.mtp| :: var h := Text(env.net, prompt, i);
           m1.mtp[i] == MtpEntry(Last(MeanRows(env.net, h)), Next(env.net, h), |prompt| + i)
  {
    hide Program, Fresh, Limit, Continuation, Fed, Hits, MeanRows, Next, Text;
    ProgramSafe(env, head, pipelined, prompt, chunk, ngen);
    ProgramPrints(env, head, pipelined, prompt, chunk, ngen, m);
    AnySchedule(ss, Serial(Program(env, head, pipelined, prompt, chunk, ngen), m));
    var room := Limit(env.net.cfg) - |prompt|;
    if ngen > room { GreedyPrefix(env.net, prompt, room, ngen); }
    var m1 := ss[|ss| - 1].mem;
    HitsAre(env, prompt, m1.host.rounds, |m1.mtp|);
    forall i | 0 <= i < |m1.mtp|
      ensures var h := Text(env.net, prompt, i);
        m1.mtp[i] == MtpEntry(Last(MeanRows(env.net, h)), Next(env.net, h), |prompt| + i)
    {
      FedAt(env.net, prompt, |m1.mtp|, i);
    }
  }

  /** In no reachable state do the two threads' next operations touch a location one of them writes. */
  lemma PipedraftHasNoRace(env: Env, head: bool, pipelined: bool, prompt: seq<Tok>, chunk: Pos, ngen: nat, m: Mem,
        ss: seq<Machine>)
    requires |prompt| > 0 && Run(ss) && ss[0] == Machine(m, Program(env, head, pipelined, prompt, chunk, ngen), Idle)
    ensures NoConflict(ss[|ss| - 1])
  {
    hide Program, Disjoint;
    ProgramSafe(env, head, pipelined, prompt, chunk, ngen);
    NoRace(ss, Serial(Program(env, head, pipelined, prompt, chunk, ngen), m));
  }

  /** Why a draft head on stage B's card is stepped before the launch, why the hand-off and the hidden-row copies are
      doubled, and why the two indices are flipped only after the join: in the async task, over one buffer, or before
      the join, each would race. */
  lemma WhatWouldRace(env: Env, i: bool)
    ensures !DisjointFrom(RealB(env.net), Then(DraftTail(env), RunAhead(env.net, i)))
    ensures !DisjointFrom(CopyCurrent(!i), RunAhead(env.net, i))
    ensures !DisjointFrom(HidDown(i), TaskOps(env, true, i))
    ensures !Disjoint(Advance(), CopyAhead(!i)) && !DisjointFrom(Advance(), RunAhead(env.net, i))
  {
    assert LCardB in RealB(env.net).wr && LCardB in DraftTail(env).rd;
    assert HidLoc(i) in HidDown(i).wr && HidLoc(i) in HidUp(i).rd;
    var copy := Then(CopyAhead(!i), Idle);
    assert WideLoc(!i) in CopyCurrent(!i).rd && WideLoc(!i) in CopyAhead(!i).wr;
    assert LCur in Advance().wr && LCur in CopyAhead(!i).rd;
    assert !DisjointFrom(CopyCurrent(!i), copy) && !DisjointFrom(Advance(), copy);
    assert !DisjointFrom(CopyCurrent(!i), Then(RunAheadA(env.net), copy));
    assert !DisjointFrom(Advance(), Then(RunAheadA(env.net), copy));
  }
}
