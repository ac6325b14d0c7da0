/** The runner's host threads over the two cards: the main thread, and the one async
    task it may have in flight. Every operation carries its footprint; a program whose
    main thread never touches what the async task in flight touches ends, under every
    schedule, in the memory of its serial run. An error ends the main thread, and the
    task in flight runs on to its end. */
module Machine {
  import opened Stage

  type Val = int
  type Tok = int

  /** One step of the draft head: the hidden row of the position before, fused with the token at `pos`. */
  datatype MtpEntry = MtpEntry(hidden: Val, tok: Tok, pos: nat)

  /** A card: its stage object, the device rows its forwards read or leave, its logits buffer (named by
      the argmax of what it holds), and whether a forward on it was refused. */
  datatype CardA = CardA(stage: StageState, wide: seq<Val>, logits: Tok, refused: bool)

  datatype CardB = CardB(stage: StageState, wide: seq<Val>, mean: seq<Val>, logits: Tok, refused: bool)

  /** What only the main thread touches: the printed text and the counters. */
  datatype Host = Host(printed: seq<Tok>, rounds: nat, accepted: nat)

  /** The memory the two threads share. */
  datatype Mem = Mem(
    cardA: CardA, cardB: CardB,
    wide0: seq<Val>, wide1: seq<Val>,                  // the hand-off buffers
    hid0: Val, hid1: Val, hidD: Val, tailRow: nat,     // the draft head's hidden-row hop
    mtp: seq<MtpEntry>,                                // everything the draft head was given
    t: Tok, pos: nat, dNow: Tok, tNext: Tok, lastRows: nat,
    cur: bool, par: bool,                              // which hand-off buffer and which hidden-row copy is in use
    host: Host)

  datatype Loc =
    | LCardA | LCardB | LWide0 | LWide1 | LHid0 | LHid1 | LHidD | LTailRow
    | LMtp | LT | LPos | LDNow | LTNext | LLastRows | LCur | LPar | LHost

  const EVERYTHING := {LCardA, LCardB, LWide0, LWide1, LHid0, LHid1, LHidD, LTailRow,
                       LMtp, LT, LPos, LDNow, LTNext, LLastRows, LCur, LPar, LHost}

  /** The two memories hold the same at every location in `at`. */
  ghost predicate Agree(at: set<Loc>, m: Mem, n: Mem) {
    && (LCardA in at ==> m.cardA == n.cardA)
    && (LCardB in at ==> m.cardB == n.cardB)
    && (LWide0 in at ==> m.wide0 == n.wide0)
    && (LWide1 in at ==> m.wide1 == n.wide1)
    && (LHid0 in at ==> m.hid0 == n.hid0)
    && (LHid1 in at ==> m.hid1 == n.hid1)
    && (LHidD in at ==> m.hidD == n.hidD)
    && (LTailRow in at ==> m.tailRow == n.tailRow)
    && (LMtp in at ==> m.mtp == n.mtp)
    && (LT in at ==> m.t == n.t)
    && (LPos in at ==> m.pos == n.pos)
    && (LDNow in at ==> m.dNow == n.dNow)
    && (LTNext in at ==> m.tNext == n.tNext)
    && (LLastRows in at ==> m.lastRows == n.lastRows)
    && (LCur in at ==> m.cur == n.cur)
    && (LPar in at ==> m.par == n.par)
    && (LHost in at ==> m.host == n.host)
  }

  /** The two memories hold the same at every location outside `at`. */
  ghost predicate AgreeOff(at: set<Loc>, m: Mem, n: Mem) {
    && (LCardA !in at ==> m.cardA == n.cardA)
    && (LCardB !in at ==> m.cardB == n.cardB)
    && (LWide0 !in at ==> m.wide0 == n.wide0)
    && (LWide1 !in at ==> m.wide1 == n.wide1)
    && (LHid0 !in at ==> m.hid0 == n.hid0)
    && (LHid1 !in at ==> m.hid1 == n.hid1)
    && (LHidD !in at ==> m.hidD == n.hidD)
    && (LTailRow !in at ==> m.tailRow == n.tailRow)
    && (LMtp !in at ==> m.mtp == n.mtp)
    && (LT !in at ==> m.t == n.t)
    && (LPos !in at ==> m.pos == n.pos)
    && (LDNow !in at ==> m.dNow == n.dNow)
    && (LTNext !in at ==> m.tNext == n.tNext)
    && (LLastRows !in at ==> m.lastRows == n.lastRows)
    && (LCur !in at ==> m.cur == n.cur)
    && (LPar !in at ==> m.par == n.par)
    && (LHost !in at ==> m.host == n.host)
  }

  /** An operation, with the locations it may read and may write. */
  datatype Op = Op(rd: set<Loc>, wr: set<Loc>, run: Mem -> Mem)

  /** The declared footprint covers what the operation does. */
  ghost predicate Honest(op: Op) {
    && (forall m :: AgreeOff(op.wr, m, op.run(m)))
    && (forall m, n :: Agree(op.rd, m, n) ==> Agree(op.wr, op.run(m), op.run(n)))
  }

  /** No location is written by one and touched by the other. */
  predicate Disjoint(p: Op, q: Op) {
    p.wr !! q.rd && p.wr !! q.wr && p.rd !! q.wr
  }

  lemma Commute(p: Op, q: Op, m: Mem)
    requires Honest(p) && Honest(q) && Disjoint(p, q)
    ensures p.run(q.run(m)) == q.run(p.run(m))
  {
    var pm, qm := p.run(m), q.run(m);
    assert AgreeOff(q.wr, m, qm) && AgreeOff(p.wr, qm, p.run(qm)) && AgreeOff(p.wr, m, pm)
        && AgreeOff(q.wr, pm, q.run(pm));
    assert Agree(p.rd, m, qm) && Agree(q.rd, m, pm);
  }

  /** An operation the main thread runs only when no task is in flight claims the whole memory. */
  function Exclusive(run: Mem -> Mem): Op {
    Op(EVERYTHING, EVERYTHING, run)
  }

  lemma ExclusiveHonest(run: Mem -> Mem)
    ensures Honest(Exclusive(run))
  {
    forall m, n | Agree(EVERYTHING, m, n) ensures m == n { }
  }

  // ---- programs and their runs ----------------------------------------------------------

  datatype Task = Idle | Then(op: Op, rest: Task)

  /** The main thread: operations, checks that end it when they fail, launches of the async task, and waits for it. */
  datatype Prog =
    | End
    | Do(op: Op, next: Prog)
    | Check(rd: set<Loc>, ok: Mem -> bool, next: Prog)
    | Launch(task: Task, next: Prog)
    | Join(next: Prog)

  /** What a check does to the memory: it reads. */
  function Reading(rd: set<Loc>): Op { Op(rd, {}, (m: Mem) => m) }

  function ExecAll(task: Task, m: Mem): Mem {
    match task case Idle => m case Then(op, rest) => ExecAll(rest, op.run(m))
  }

  /** The serial run: a launched task runs to its end at once. */
  function Serial(main: Prog, m: Mem): Mem {
    match main
    case End => m
    case Do(op, next) => Serial(next, op.run(m))
    case Check(_, ok, next) => if ok(m) then Serial(next, m) else m
    case Launch(task, next) => Serial(next, ExecAll(task, m))
    case Join(next) => Serial(next, m)
  }

  ghost predicate HonestTask(task: Task) { task.Then? ==> Honest(task.op) && HonestTask(task.rest) }

  ghost predicate HonestProg(main: Prog) {
    match main
    case End => true
    case Do(op, next) => Honest(op) && HonestProg(next)
    case Check(rd, ok, next) => (forall m, n | Agree(rd, m, n) :: ok(m) == ok(n)) && HonestProg(next)
    case Launch(task, next) => HonestTask(task) && HonestProg(next)
    case Join(next) => HonestProg(next)
  }

  predicate DisjointFrom(op: Op, task: Task) { task.Then? ==> Disjoint(op, task.op) && DisjointFrom(op, task.rest) }

  /** While `pending` may be in flight, the main thread touches nothing it touches; the next launch waits for a join. */
  predicate RaceFree(main: Prog, pending: Task) {
    match main
    case End => true
    case Do(op, next) => DisjointFrom(op, pending) && RaceFree(next, pending)
    case Check(rd, _, next) => DisjointFrom(Reading(rd), pending) && RaceFree(next, pending)
    case Launch(task, next) => pending.Idle? && RaceFree(next, task)
    case Join(next) => RaceFree(next, Idle)
  }

  /** What is left of the main thread and of the async task in flight, over the memory. */
  datatype Machine = Machine(mem: Mem, main: Prog, task: Task)

  predicate Finished(s: Machine) { s.main.End? && s.task.Idle? }

  ghost predicate TaskStep(s: Machine, s': Machine) {
    s.task.Then? && s' == Machine(s.task.op.run(s.mem), s.main, s.task.rest)
  }

  /** A launch needs the previous task's future to be free; a join waits for the async task. */
  ghost predicate MainStep(s: Machine, s': Machine) {
    match s.main
    case End => false
    case Do(op, next) => s' == Machine(op.run(s.mem), next, s.task)
    case Check(_, ok, next) => s' == Machine(s.mem, if ok(s.mem) then next else End, s.task)
    case Launch(task, next) => s.task.Idle? && s' == Machine(s.mem, next, task)
    case Join(next) => s.task.Idle? && s' == Machine(s.mem, next, Idle)
  }

  ghost predicate Step(s: Machine, s': Machine) { TaskStep(s, s') || MainStep(s, s') }

  /** Any interleaving the scheduler may choose. */
  ghost predicate Run(ss: seq<Machine>) {
    |ss| > 0 && forall i | 0 <= i < |ss| - 1 :: Step(ss[i], ss[i + 1])
  }

  /** Letting the async task in flight finish and running the rest serially would end in `out`. */
  ghost predicate Sound(s: Machine, out: Mem) {
    && HonestProg(s.main) && HonestTask(s.task) && RaceFree(s.main, s.task)
    && Serial(s.main, ExecAll(s.task, s.mem)) == out
  }

  lemma {:induction false} OvertakeTask(op: Op, task: Task, m: Mem)
    requires Honest(op) && HonestTask(task) && DisjointFrom(op, task)
    ensures ExecAll(task, op.run(m)) == op.run(ExecAll(task, m))
  {
    if task.Then? {
      Commute(task.op, op, m);
      OvertakeTask(op, task.rest, task.op.run(m));
    }
  }

  /** A task leaves what it does not touch as it was. */
  lemma {:induction false} TaskSpares(rd: set<Loc>, task: Task, m: Mem)
    requires HonestTask(task) && DisjointFrom(Reading(rd), task)
    ensures Agree(rd, m, ExecAll(task, m))
  {
    if task.Then? {
      assert AgreeOff(task.op.wr, m, task.op.run(m));
      TaskSpares(rd, task.rest, task.op.run(m));
    }
  }

  lemma {:induction false} RaceFreeTail(main: Prog, task: Task)
    requires RaceFree(main, task) && task.Then?
    ensures RaceFree(main, task.rest)
  {
    if main.Do? || main.Check? { RaceFreeTail(main.next, task); }
  }

  lemma SoundStep(s: Machine, s': Machine, out: Mem)
    requires Sound(s, out) && Step(s, s')
    ensures Sound(s', out)
  {
    if TaskStep(s, s') {
      RaceFreeTail(s.main, s.task);
    } else if s.main.Do? {
      OvertakeTask(s.main.op, s.task, s.mem);
    } else if s.main.Check? {
      TaskSpares(s.main.rd, s.task, s.mem);
    }
  }

  /** Every state any schedule reaches still leads to the serial run's memory, and a finished run has it. */
  lemma {:induction false} AnySchedule(ss: seq<Machine>, out: Mem)
    requires Run(ss) && Sound(ss[0], out)
    ensures Sound(ss[|ss| - 1], out)
    ensures Finished(ss[|ss| - 1]) ==> ss[|ss| - 1].mem == out
    decreases |ss|
  {
    if |ss| > 1 {
      var init := ss[..|ss| - 1];
      AnySchedule(init, out);
      SoundStep(init[|init| - 1], ss[|ss| - 1], out);
    }
  }

  /** The two threads' next operations do not touch a location one of them writes. */
  predicate NoConflict(s: Machine) {
    && (s.main.Do? && s.task.Then? ==> Disjoint(s.main.op, s.task.op))
    && (s.main.Check? && s.task.Then? ==> Disjoint(Reading(s.main.rd), s.task.op))
  }

  /** No schedule reaches a state where the two threads' next operations conflict. */
  lemma NoRace(ss: seq<Machine>, out: Mem)
    requires Run(ss) && Sound(ss[0], out)
    ensures NoConflict(ss[|ss| - 1])
  {
    AnySchedule(ss, out);
  }

  function TaskWork(task: Task): nat { if task.Idle? then 0 else 1 + TaskWork(task.rest) }

  /** Operations left to run, launches and joins included. */
  function Work(main: Prog): nat {
    match main
    case End => 0
    case Do(_, next) => 1 + Work(next)
    case Check(_, _, next) => 1 + Work(next)
    case Launch(task, next) => 1 + TaskWork(task) + Work(next)
    case Join(next) => 1 + Work(next)
  }

  /** No schedule blocks or runs for ever: a state that is not finished has a step, and every step uses up work. */
  lemma EveryRunEnds(s: Machine)
    ensures Finished(s) || exists s' :: Step(s, s')
    ensures forall s' | Step(s, s') :: Work(s'.main) + TaskWork(s'.task) < Work(s.main) + TaskWork(s.task)
  {
    if s.task.Then? {
      assert Step(s, Machine(s.task.op.run(s.mem), s.main, s.task.rest));
    } else {
      match s.main
      case End =>
      case Do(op, next) => assert Step(s, Machine(op.run(s.mem), next, s.task));
      case Check(_, ok, next) => assert Step(s, Machine(s.mem, if ok(s.mem) then next else End, s.task));
      case Launch(task, next) => assert Step(s, Machine(s.mem, next, task));
      case Join(next) => assert Step(s, Machine(s.mem, next, Idle));
    }
  }
}
