/** The operations the runner's two threads perform on the cards, with their footprints. */
module Cards {
  import opened Blocks
  import opened Stage
  import opened Greedy
  import opened Machine

  /** The model, and the draft head: its proposal is an arbitrary function of everything it was ever given. */
  datatype Env = Env(net: Net, draft: seq<MtpEntry> -> Tok)

  /** A forward the stage refuses changes nothing but the error the program ends with. */
  ghost function CallA(net: Net, c: CardA, toks: seq<Tok>, at: nat): CardA {
    if WellFormed(net.cfg, net.la, c.stage) && Accepts(net.cfg, c.stage, |toks|, at) then
      var f := Forward(net.cfg, net.la, c.stage, Embed(net, toks));
      c.(stage := f.state, wide := f.rows)
    else c.(refused := true)
  }

  ghost function CallB(net: Net, c: CardB, at: nat): CardB {
    if WellFormed(net.cfg, net.lb, c.stage) && Accepts(net.cfg, c.stage, |c.wide|, at) then
      var f := Forward(net.cfg, net.lb, c.stage, c.wide);
      c.(stage := f.state, mean := f.rows, logits := net.pick(Last(f.rows)))
    else c.(refused := true)
  }

  ghost function SnapA(net: Net, c: CardA): CardA {
    if WellFormed(net.cfg, net.la, c.stage) then c.(stage := Snapshot(net.cfg, net.la, c.stage)) else c
  }

  ghost function RestA(net: Net, c: CardA): CardA {
    if WellFormed(net.cfg, net.la, c.stage) then c.(stage := Restore(net.cfg, net.la, c.stage)) else c
  }

  // ---- a card that has consumed exactly a token history -------------------------------

  ghost predicate AReady(net: Net, c: CardA, h: seq<Tok>) { AHolds(net, c.stage, h) && !c.refused }

  ghost predicate BReady(net: Net, c: CardB, h: seq<Tok>) { BHolds(net, c.stage, h) && !c.refused }

  ghost predicate Room(net: Net, h: seq<Tok>, toks: seq<Tok>) {
    0 < |toks| <= net.cfg.maxChunk && |h| + |toks| <= Limit(net.cfg)
  }

  lemma ACall(net: Net, c: CardA, h: seq<Tok>, toks: seq<Tok>)
    requires AReady(net, c, h) && Room(net, h, toks)
    ensures var r := CallA(net, c, toks, |h|); AReady(net, r, h + toks) && r.wide == WideRows(net, h + toks)[|h|..]
  {
    hide Forward, WideRows, Limit;
    AForward(net, c.stage, h, toks);
  }

  /** A call past the limit is refused. */
  lemma AFull(net: Net, c: CardA, h: seq<Tok>, toks: seq<Tok>)
    requires AReady(net, c, h) && |h| + |toks| > Limit(net.cfg)
    ensures CallA(net, c, toks, |h|).refused
  {
    hide Forward, WideRows, Limit;
  }

  lemma BCall(net: Net, c: CardB, h: seq<Tok>, toks: seq<Tok>)
    requires BReady(net, c, h) && Room(net, h, toks) && c.wide == WideRows(net, h + toks)[|h|..]
    ensures var r := CallB(net, c, |h|);
      BReady(net, r, h + toks) && r.mean == MeanRows(net, h + toks)[|h|..] && r.logits == Next(net, h + toks)
  {
    hide Forward, WideRows, MeanRows, Limit;
    BForward(net, c.stage, h, toks, c.wide);
  }

  /** A stage-B call past the limit is refused too. */
  lemma BFull(net: Net, c: CardB, h: seq<Tok>)
    requires BReady(net, c, h) && |h| + |c.wide| > Limit(net.cfg)
    ensures CallB(net, c, |h|).refused
  {
    hide Forward, WideRows, Limit;
  }

  /** The snapshot slot of stage A was filled when it had consumed exactly `h`. */
  ghost predicate SnapReady(net: Net, c: CardA, h: seq<Tok>) { SnapshotHolds(net.cfg, net.la, c.stage, Embed(net, h)) }

  lemma SnapCall(net: Net, c: CardA, h: seq<Tok>)
    requires AReady(net, c, h)
    ensures AReady(net, SnapA(net, c), h) && SnapReady(net, SnapA(net, c), h)
  {
    hide Snapshot;
    SnapshotTaken(net.cfg, net.la, c.stage, Embed(net, h));
  }

  lemma ACallKeepsSnap(net: Net, c: CardA, h: seq<Tok>, toks: seq<Tok>, at: nat)
    requires SnapReady(net, c, h)
    ensures SnapReady(net, CallA(net, c, toks, at), h)
  {
    hide Forward;
    if WellFormed(net.cfg, net.la, c.stage) && Accepts(net.cfg, c.stage, |toks|, at) {
      ForwardKeepsSnapshot(net.cfg, net.la, c.stage, Embed(net, toks), Embed(net, h));
    }
  }

  /** A restore takes stage A back to the history it had when the snapshot was taken. */
  lemma RestCall(net: Net, c: CardA, h: seq<Tok>, toks: seq<Tok>)
    requires AReady(net, c, h + toks) && SnapReady(net, c, h)
    ensures AReady(net, RestA(net, c), h)
  {
    hide Restore;
    EmbedJoin(net, h, toks);
    RestoreUndoes(net.cfg, net.la, c.stage, Embed(net, h), Embed(net, toks));
  }

  function RowAt(xs: seq<Val>, i: int): Val { if 0 <= i < |xs| then xs[i] else 0 }

  function Wide(m: Mem, i: bool): seq<Val> { if i then m.wide1 else m.wide0 }

  function Hid(m: Mem, i: bool): Val { if i then m.hid1 else m.hid0 }

  function WideLoc(i: bool): Loc { if i then LWide1 else LWide0 }

  function HidLoc(i: bool): Loc { if i then LHid1 else LHid0 }

  function SetWide(m: Mem, i: bool, xs: seq<Val>): Mem { if i then m.(wide1 := xs) else m.(wide0 := xs) }

  function SetHid(m: Mem, i: bool, x: Val): Mem { if i then m.(hid1 := x) else m.(hid0 := x) }

  /** What the draft head has been given after one more step. */
  function Given(m: Mem, hidden: Val): seq<MtpEntry> {
    m.mtp + [MtpEntry(hidden, m.t, m.pos)]
  }

  function StepDraftHead(env: Env, m: Mem): Mem {
    var mtp := Given(m, m.hidD);
    m.(mtp := mtp, dNow := env.draft(mtp), cardA := m.cardA.(logits := env.draft(mtp)))
  }

  function StepDraftTail(env: Env, m: Mem): Mem {
    var mtp := Given(m, RowAt(m.cardB.mean, m.tailRow));
    m.(mtp := mtp, dNow := env.draft(mtp), cardB := m.cardB.(logits := env.draft(mtp)))
  }

  // ---- stage A's card ---------------------------------------------------------------

  /** Stage A on a prompt chunk. */
  ghost function ChunkA(net: Net, toks: seq<Tok>, at: nat): Op {
    Op({LCardA}, {LCardA}, (m: Mem) => m.(cardA := CallA(net, m.cardA, toks, at)))
  }

  /** Stage A on the drafted token at pos + 1. */
  ghost function RunAheadA(net: Net): Op {
    Op({LCardA, LDNow, LPos}, {LCardA}, (m: Mem) => m.(cardA := CallA(net, m.cardA, [m.dNow], m.pos + 1)))
  }

  /** Stage A's wide rows to host buffer i. */
  function CopyOut(i: bool): Op {
    Op({LCardA}, {WideLoc(i)}, (m: Mem) => SetWide(m, i, m.cardA.wide))
  }

  /** The same where the buffer is the one `cur` does not name. */
  function CopyAhead(i: bool): Op {
    Op({LCardA, LCur}, {WideLoc(i)}, (m: Mem) => SetWide(m, i, m.cardA.wide))
  }

  ghost function SnapshotA(net: Net): Op {
    Op({LCardA}, {LCardA}, (m: Mem) => m.(cardA := SnapA(net, m.cardA)))
  }

  /** The hidden row in host copy i, the parity the task was launched with, to the draft host's card. */
  function HidUp(i: bool): Op {
    Op({HidLoc(i)}, {LHidD}, (m: Mem) => m.(hidD := Hid(m, i)))
  }

  /** One draft step on stage A's card. */
  function DraftHead(env: Env): Op {
    Op({LCardA, LMtp, LHidD, LT, LPos}, {LCardA, LMtp, LDNow},
       (m: Mem) => StepDraftHead(env, m))
  }

  // ---- stage B's card ---------------------------------------------------------------

  /** Host buffer i to stage B's wide rows. */
  function CopyIn(i: bool): Op {
    Op({WideLoc(i), LCardB}, {LCardB}, (m: Mem) => m.(cardB := m.cardB.(wide := Wide(m, i))))
  }

  /** The same where `cur` names the buffer. */
  function CopyCurrent(i: bool): Op {
    Op({WideLoc(i), LCur, LCardB}, {LCardB}, (m: Mem) => m.(cardB := m.cardB.(wide := Wide(m, i))))
  }

  ghost function ChunkB(net: Net, at: nat): Op {
    Op({LCardB}, {LCardB}, (m: Mem) => m.(cardB := CallB(net, m.cardB, at)))
  }

  /** Stage B on the token at pos. */
  ghost function RealB(net: Net): Op {
    Op({LCardB, LPos}, {LCardB}, (m: Mem) => m.(cardB := CallB(net, m.cardB, m.pos)))
  }

  function SetLastRows(n: nat): Op {
    Op({}, {LLastRows}, (m: Mem) => m.(lastRows := n))
  }

  function ArgmaxB(): Op {
    Op({LCardB}, {LTNext}, (m: Mem) => m.(tNext := m.cardB.logits))
  }

  /** The hidden row of pos to host copy i, the one `par` does not name. */
  function HidDown(i: bool): Op {
    Op({LCardB, LPar}, {HidLoc(i)}, (m: Mem) => SetHid(m, i, RowAt(m.cardB.mean, 0)))
  }

  function SetTailRow(): Op {
    Op({}, {LTailRow}, (m: Mem) => m.(tailRow := 0))
  }

  /** One draft step on stage B's card: it reads the mean rows in place and leaves its logits in stage B's buffer. */
  function DraftTail(env: Env): Op {
    Op({LCardB, LMtp, LTailRow, LT, LPos}, {LCardB, LMtp, LDNow},
       (m: Mem) => StepDraftTail(env, m))
  }

  // ---- the main thread, with no task in flight -----------------------------------------

  /** pos and the first token after a prompt of n tokens. */
  function StartDecode(n: nat): Op {
    Exclusive((m: Mem) => m.(pos := n, t := m.cardB.logits))
  }

  /** A fresh draft head, and both seeds of its first hidden row: the prefill's last mean row. */
  function SeedDraft(): Op {
    Exclusive((m: Mem) => m.(mtp := [], tailRow := if m.lastRows > 0 then m.lastRows - 1 else 0, par := false,
                             hid0 := RowAt(m.cardB.mean, m.lastRows - 1)))
  }

  /** Stage A on the real token at pos, into host buffer 0. */
  ghost function SeedA(net: Net): Op {
    Exclusive((m: Mem) =>
      var c := CallA(net, m.cardA, [m.t], m.pos);
      SetWide(m.(cardA := c, cur := false), false, c.wide))
  }

  function Print(): Op {
    Exclusive((m: Mem) => m.(host := m.host.(printed := m.host.printed + [m.t])))
  }

  /** Keep stage A's run-ahead if the draft was right; else rewind it and run it on the real token. */
  ghost function StepResolve(net: Net, m: Mem, i: bool): Mem {
    if m.dNow == m.tNext then
      m.(host := m.host.(rounds := m.host.rounds + 1, accepted := m.host.accepted + 1))
    else
      var c := CallA(net, RestA(net, m.cardA), [m.tNext], m.pos + 1);
      SetWide(m.(cardA := c, host := m.host.(rounds := m.host.rounds + 1)), i, c.wide)
  }

  ghost function Resolve(net: Net, i: bool): Op {
    Exclusive((m: Mem) => StepResolve(net, m, i))
  }

  function Advance(): Op {
    Op({LTNext, LPos, LCur, LPar}, {LT, LPos, LCur, LPar},
       (m: Mem) => m.(t := m.tNext, pos := m.pos + 1, cur := !m.cur, par := !m.par))
  }

  // ---- a refused call ends the main thread ------------------------------------------------

  function CheckA(next: Prog): Prog { Check({LCardA}, (m: Mem) => !m.cardA.refused, next) }

  function CheckB(next: Prog): Prog { Check({LCardB}, (m: Mem) => !m.cardB.refused, next) }

  predicate Stopped(m: Mem) { m.cardA.refused || m.cardB.refused }

  // ---- the footprints are honest -----------------------------------------------------

  lemma ChunkAHonest(net: Net, toks: seq<Tok>, at: nat) ensures Honest(ChunkA(net, toks, at)) { }

  lemma RunAheadAHonest(net: Net) ensures Honest(RunAheadA(net)) { }

  lemma CopyOutHonest(i: bool) ensures Honest(CopyOut(i)) { }

  lemma CopyInHonest(i: bool) ensures Honest(CopyIn(i)) { }

  lemma CopyAheadHonest(i: bool) ensures Honest(CopyAhead(i)) { }

  lemma CopyCurrentHonest(i: bool) ensures Honest(CopyCurrent(i)) { }

  lemma AdvanceHonest() ensures Honest(Advance()) { }

  lemma SnapshotAHonest(net: Net) ensures Honest(SnapshotA(net)) { }

  lemma HidUpHonest(i: bool) ensures Honest(HidUp(i)) { }

  lemma HidDownHonest(i: bool) ensures Honest(HidDown(i)) { }

  lemma DraftHeadHonest(env: Env) ensures Honest(DraftHead(env)) { }

  lemma DraftTailHonest(env: Env) ensures Honest(DraftTail(env)) { }

  lemma ChunkBHonest(net: Net, at: nat) ensures Honest(ChunkB(net, at)) { }

  lemma RealBHonest(net: Net) ensures Honest(RealB(net)) { }

  lemma SetLastRowsHonest(n: nat) ensures Honest(SetLastRows(n)) { }

  lemma ArgmaxBHonest() ensures Honest(ArgmaxB()) { }

  lemma SetTailRowHonest() ensures Honest(SetTailRow()) { }
}
