/** The chunk-pipelined prefill: stage A runs the next chunk in an async task while
    stage B runs the current one, over two hand-off buffers. */
module Prefill {
  import opened Blocks
  import opened Stage
  import opened Greedy
  import opened Machine
  import opened Cards

  /** Where the chunk after the one at `off` begins; the last chunk may be ragged. */
  function NextOff(n: nat, chunk: Pos, off: nat): (r: nat)
    requires off < n
    ensures off < r <= n
  {
    if off + chunk < n then off + chunk else n
  }

  function ChunkAt(prompt: seq<Tok>, chunk: Pos, off: nat): (toks: seq<Tok>)
    requires off < |prompt|
    ensures |toks| > 0
  {
    prompt[off..NextOff(|prompt|, chunk, off)]
  }

  /** The async task for the chunk at `off`: stage A, then its rows into buffer i. */
  ghost function TaskA(net: Net, prompt: seq<Tok>, chunk: Pos, off: nat, i: bool): Task
    requires off < |prompt|
  {
    Then(ChunkA(net, ChunkAt(prompt, chunk, off), off), Then(CopyOut(i), Idle))
  }

  ghost function ChunkOnB(net: Net, i: bool, off: nat, rows: nat, next: Prog): Prog {
    Do(CopyIn(i), Do(ChunkB(net, off), CheckB(Do(SetLastRows(rows), next))))
  }

  /** The main thread from the chunk at `off` on, then `k`; i is the chunk's index modulo 2. */
  ghost function MainFrom(net: Net, prompt: seq<Tok>, chunk: Pos, off: nat, i: bool, k: Prog): Prog
    requires off < |prompt|
    decreases |prompt| - off
  {
    var nx := NextOff(|prompt|, chunk, off);
    Join(CheckA(
      if nx < |prompt| then
        var rest := MainFrom(net, prompt, chunk, nx, !i, k);
        Launch(TaskA(net, prompt, chunk, nx, !i), ChunkOnB(net, i, off, nx - off, rest))
      else ChunkOnB(net, i, off, nx - off, k)))
  }

  ghost function Pipelined(net: Net, prompt: seq<Tok>, chunk: Pos, k: Prog): Prog
    requires |prompt| > 0
  {
    Launch(TaskA(net, prompt, chunk, 0, false), MainFrom(net, prompt, chunk, 0, false, k))
  }

  /** The serial loop: each chunk through stage A, then through stage B, over one buffer; then `k`. */
  ghost function SerialFrom(net: Net, prompt: seq<Tok>, chunk: Pos, off: nat, k: Prog): Prog
    requires off < |prompt|
    decreases |prompt| - off
  {
    var nx := NextOff(|prompt|, chunk, off);
    var rest := if nx < |prompt| then SerialFrom(net, prompt, chunk, nx, k) else k;
    var bs := ChunkOnB(net, false, off, nx - off, rest);
    Do(ChunkA(net, ChunkAt(prompt, chunk, off), off), CheckA(Do(CopyOut(false), bs)))
  }

  // ---- no race ------------------------------------------------------------------------

  lemma TaskHonest(net: Net, prompt: seq<Tok>, chunk: Pos, off: nat, i: bool)
    requires off < |prompt|
    ensures HonestTask(TaskA(net, prompt, chunk, off, i))
  {
    hide Honest;
    ChunkAHonest(net, ChunkAt(prompt, chunk, off), off);
    CopyOutHonest(i);
    assert HonestTask(Then(CopyOut(i), Idle));
  }

  lemma ChunkOnBHonest(net: Net, i: bool, off: nat, rows: nat, next: Prog)
    requires HonestProg(next)
    ensures HonestProg(ChunkOnB(net, i, off, rows, next))
  {
    hide Honest, CopyIn, ChunkB, SetLastRows;
    CopyInHonest(i);
    ChunkBHonest(net, off);
    SetLastRowsHonest(rows);
    var p := Do(SetLastRows(rows), next);
    CheckBHonest(p);
    assert HonestProg(Do(ChunkB(net, off), CheckB(p)));
  }

  lemma CheckAHonest(next: Prog)
    requires HonestProg(next)
    ensures HonestProg(CheckA(next))
  {
  }

  lemma CheckBHonest(next: Prog)
    requires HonestProg(next)
    ensures HonestProg(CheckB(next))
  {
  }

  /** Stage B's chunk shares no buffer with stage A's next one. */
  lemma ChunkOnBRaceFree(net: Net, prompt: seq<Tok>, chunk: Pos, i: bool, off: nat, rows: nat, nx: nat, next: Prog)
    requires nx < |prompt|
    requires RaceFree(next, TaskA(net, prompt, chunk, nx, !i))
    ensures RaceFree(ChunkOnB(net, i, off, rows, next), TaskA(net, prompt, chunk, nx, !i))
  {
    var task := TaskA(net, prompt, chunk, nx, !i);
    forall op | op == CopyIn(i) || op == ChunkB(net, off) || op == SetLastRows(rows) || op == Reading({LCardB})
      ensures DisjointFrom(op, task)
    {
      assert Disjoint(op, CopyOut(!i)) && DisjointFrom(op, Then(CopyOut(!i), Idle));
    }
    hide TaskA, DisjointFrom, CopyIn, ChunkB, SetLastRows, Reading;
    var p := CheckB(Do(SetLastRows(rows), next));
    assert RaceFree(Do(SetLastRows(rows), next), task);
    assert RaceFree(p, task);
    assert RaceFree(Do(ChunkB(net, off), p), task);
  }

  lemma NoTaskRaceFree(net: Net, i: bool, off: nat, rows: nat, next: Prog)
    requires RaceFree(next, Idle)
    ensures RaceFree(ChunkOnB(net, i, off, rows, next), Idle)
  {
    var p := CheckB(Do(SetLastRows(rows), next));
    assert RaceFree(Do(SetLastRows(rows), next), Idle);
    assert RaceFree(p, Idle);
    assert RaceFree(Do(ChunkB(net, off), p), Idle);
  }

  lemma {:induction false} MainRaceFree(net: Net, prompt: seq<Tok>, chunk: Pos, off: nat, i: bool, k: Prog)
    requires off < |prompt| && HonestProg(k) && RaceFree(k, Idle)
    ensures HonestProg(MainFrom(net, prompt, chunk, off, i, k))
    ensures RaceFree(MainFrom(net, prompt, chunk, off, i, k), TaskA(net, prompt, chunk, off, i))
    decreases |prompt| - off
  {
    hide ChunkAt, TaskA, ChunkOnB, Disjoint, CheckA, Honest;
    var nx := NextOff(|prompt|, chunk, off);
    if nx < |prompt| {
      var rest := MainFrom(net, prompt, chunk, nx, !i, k);
      var bs := ChunkOnB(net, i, off, nx - off, rest);
      MainRaceFree(net, prompt, chunk, nx, !i, k);
      TaskHonest(net, prompt, chunk, nx, !i);
      ChunkOnBHonest(net, i, off, nx - off, rest);
      ChunkOnBRaceFree(net, prompt, chunk, i, off, nx - off, nx, rest);
      var p := Launch(TaskA(net, prompt, chunk, nx, !i), bs);
      assert HonestProg(p) && RaceFree(p, Idle);
      JoinedSafe(p, TaskA(net, prompt, chunk, off, i));
    } else {
      var bs := ChunkOnB(net, i, off, nx - off, k);
      ChunkOnBHonest(net, i, off, nx - off, k);
      NoTaskRaceFree(net, i, off, nx - off, k);
      JoinedSafe(bs, TaskA(net, prompt, chunk, off, i));
    }
  }

  /** Waiting for the task and checking stage A's verdict, before anything that is safe with no task in flight. */
  lemma JoinedSafe(next: Prog, task: Task)
    requires HonestProg(next) && RaceFree(next, Idle)
    ensures HonestProg(Join(CheckA(next))) && RaceFree(Join(CheckA(next)), task)
  {
    CheckAHonest(next);
    assert RaceFree(CheckA(next), Idle);
  }

  lemma PipelinedRaceFree(net: Net, prompt: seq<Tok>, chunk: Pos, k: Prog)
    requires |prompt| > 0 && HonestProg(k) && RaceFree(k, Idle)
    ensures HonestProg(Pipelined(net, prompt, chunk, k)) && RaceFree(Pipelined(net, prompt, chunk, k), Idle)
  {
    hide TaskA, MainFrom;
    TaskHonest(net, prompt, chunk, 0, false);
    MainRaceFree(net, prompt, chunk, 0, false, k);
  }

  lemma {:induction false} SerialRaceFree(net: Net, prompt: seq<Tok>, chunk: Pos, off: nat, k: Prog)
    requires off < |prompt| && HonestProg(k) && RaceFree(k, Idle)
    ensures HonestProg(SerialFrom(net, prompt, chunk, off, k)) && RaceFree(SerialFrom(net, prompt, chunk, off, k), Idle)
    decreases |prompt| - off
  {
    hide ChunkAt, ChunkA, CopyOut, ChunkOnB, Honest;
    var nx := NextOff(|prompt|, chunk, off);
    var rest := if nx < |prompt| then SerialFrom(net, prompt, chunk, nx, k) else k;
    if nx < |prompt| { SerialRaceFree(net, prompt, chunk, nx, k); }
    var bs := ChunkOnB(net, false, off, nx - off, rest);
    ChunkOnBHonest(net, false, off, nx - off, rest);
    NoTaskRaceFree(net, false, off, nx - off, rest);
    ChunkAHonest(net, ChunkAt(prompt, chunk, off), off);
    CopyOutHonest(false);
    var p := Do(CopyOut(false), bs);
    assert HonestProg(p) && RaceFree(p, Idle);
    CheckAHonest(p);
    assert RaceFree(CheckA(p), Idle);
  }

  // ---- the pipelined loop is the serial loop -----------------------------------------------

  ghost function AfterTaskA(net: Net, prompt: seq<Tok>, chunk: Pos, off: nat, i: bool, m: Mem): Mem
    requires off < |prompt|
  {
    CopyOut(i).run(ChunkA(net, ChunkAt(prompt, chunk, off), off).run(m))
  }

  /** Stage B's chunk: a refused one sets no row count. */
  ghost function AfterB(net: Net, i: bool, off: nat, rows: nat, m: Mem): Mem {
    var r := ChunkB(net, off).run(CopyIn(i).run(m));
    if r.cardB.refused then r else SetLastRows(rows).run(r)
  }

  lemma TaskRuns(net: Net, prompt: seq<Tok>, chunk: Pos, off: nat, i: bool, m: Mem)
    requires off < |prompt|
    ensures ExecAll(TaskA(net, prompt, chunk, off, i), m) == AfterTaskA(net, prompt, chunk, off, i, m)
  {
    var m1 := ChunkA(net, ChunkAt(prompt, chunk, off), off).run(m);
    assert ExecAll(Then(CopyOut(i), Idle), m1) == ExecAll(Idle, CopyOut(i).run(m1));
  }

  lemma ChunkOnBRuns(net: Net, i: bool, off: nat, rows: nat, next: Prog, m: Mem)
    ensures var r := AfterB(net, i, off, rows, m);
      Serial(ChunkOnB(net, i, off, rows, next), m) == if r.cardB.refused then r else Serial(next, r)
  {
    hide CallB;
    var p := CheckB(Do(SetLastRows(rows), next));
    var m1 := CopyIn(i).run(m);
    var m2 := ChunkB(net, off).run(m1);
    assert Serial(Do(ChunkB(net, off), p), m1) == Serial(p, m2);
    assert Serial(p, m2) == if m2.cardB.refused then m2 else Serial(Do(SetLastRows(rows), next), m2);
  }

  /** One chunk of the serial loop; stage A's rows are handed on unless it refused. */
  ghost function AfterSerial(net: Net, prompt: seq<Tok>, chunk: Pos, off: nat, s: Mem): Mem
    requires off < |prompt|
  {
    var s1 := ChunkA(net, ChunkAt(prompt, chunk, off), off).run(s);
    if s1.cardA.refused then s1
    else AfterB(net, false, off, NextOff(|prompt|, chunk, off) - off, CopyOut(false).run(s1))
  }

  /** What stage B's chunk does to each part of the memory. */
  lemma BParts(net: Net, i: bool, off: nat, rows: nat, m: Mem)
    ensures var r := AfterB(net, i, off, rows, m);
      && r.cardB == CallB(net, m.cardB.(wide := Wide(m, i)), off) && (!r.cardB.refused ==> r.lastRows == rows)
      && r.cardA == m.cardA && r.wide0 == m.wide0 && r.wide1 == m.wide1 && r.host == m.host && r.mtp == m.mtp
  {
    hide CallB;
  }

  lemma AParts(net: Net, prompt: seq<Tok>, chunk: Pos, off: nat, i: bool, m: Mem)
    requires off < |prompt|
    ensures var r := AfterTaskA(net, prompt, chunk, off, i, m);
      && r.cardA == CallA(net, m.cardA, ChunkAt(prompt, chunk, off), off)
      && Wide(r, i) == r.cardA.wide && Wide(r, !i) == Wide(m, !i)
      && r.cardB == m.cardB && r.host == m.host && r.mtp == m.mtp
  {
    hide CallA, ChunkAt;
  }

  lemma SerialParts(net: Net, prompt: seq<Tok>, chunk: Pos, off: nat, s: Mem)
    requires off < |prompt|
    ensures var r, c := AfterSerial(net, prompt, chunk, off, s), CallA(net, s.cardA, ChunkAt(prompt, chunk, off), off);
      && r.cardA == c
      && r.cardB == (if c.refused then s.cardB else CallB(net, s.cardB.(wide := c.wide), off))
      && (!Stopped(r) ==> r.lastRows == NextOff(|prompt|, chunk, off) - off)
  {
    hide CallA, CallB, ChunkAt, AfterB;
    var s1 := ChunkA(net, ChunkAt(prompt, chunk, off), off).run(s);
    BParts(net, false, off, NextOff(|prompt|, chunk, off) - off, CopyOut(false).run(s1));
  }

  lemma SerialChunk(net: Net, prompt: seq<Tok>, chunk: Pos, off: nat, s: Mem, k: Prog)
    requires off < |prompt|
    ensures var nx := NextOff(|prompt|, chunk, off);
      var r := AfterSerial(net, prompt, chunk, off, s);
      Serial(SerialFrom(net, prompt, chunk, off, k), s)
      == if Stopped(r) then r else Serial(if nx < |prompt| then SerialFrom(net, prompt, chunk, nx, k) else k, r)
  {
    hide ChunkAt, ChunkA, CopyOut, ChunkOnB, CallA, CallB, AfterB, CheckA;
    var nx := NextOff(|prompt|, chunk, off);
    var rest := if nx < |prompt| then SerialFrom(net, prompt, chunk, nx, k) else k;
    var op := ChunkA(net, ChunkAt(prompt, chunk, off), off);
    var bs := ChunkOnB(net, false, off, nx - off, rest);
    var s1 := op.run(s);
    var s2 := CopyOut(false).run(s1);
    CheckRunsA(Do(CopyOut(false), bs), s1);
    if !s1.cardA.refused {
      assert Serial(Do(CopyOut(false), bs), s1) == Serial(bs, s2);
      ChunkOnBRuns(net, false, off, nx - off, rest, s2);
      BParts(net, false, off, nx - off, s2);
      assert s2.cardA == s1.cardA by { CopySparesCards(false, s1); }
    }
  }

  lemma CheckRunsA(p: Prog, m: Mem)
    ensures Serial(CheckA(p), m) == if m.cardA.refused then m else Serial(p, m)
  {
  }

  lemma CopySparesCards(i: bool, m: Mem)
    ensures CopyOut(i).run(m).cardA == m.cardA
  {
  }

  /** The pipelined memory m, with stage A one chunk ahead of the serial memory s. */
  ghost predicate OneAhead(net: Net, prompt: seq<Tok>, chunk: Pos, off: nat, i: bool, m: Mem, s: Mem)
    requires off < |prompt|
  {
    && m.cardA == CallA(net, s.cardA, ChunkAt(prompt, chunk, off), off)
    && Wide(m, i) == m.cardA.wide
    && m.cardB == s.cardB
    && !Stopped(s)
  }

  /** One chunk of the pipelined loop: stage A's next one, if there is one, and stage B's. */
  ghost function AfterMain(net: Net, prompt: seq<Tok>, chunk: Pos, off: nat, i: bool, m: Mem): Mem
    requires off < |prompt|
  {
    var nx := NextOff(|prompt|, chunk, off);
    if m.cardA.refused then m
    else AfterB(net, i, off, nx - off, if nx < |prompt| then AfterTaskA(net, prompt, chunk, nx, !i, m) else m)
  }

  /** One iteration keeps stage A one chunk ahead, until either loop is refused a chunk, and then both are. */
  lemma ChunkKeepsOneAhead(net: Net, prompt: seq<Tok>, chunk: Pos, off: nat, i: bool, m: Mem, s: Mem)
    requires off < |prompt| && OneAhead(net, prompt, chunk, off, i, m, s)
    ensures var nx := NextOff(|prompt|, chunk, off);
      var m2, s2 := AfterMain(net, prompt, chunk, off, i, m), AfterSerial(net, prompt, chunk, off, s);
      && m2.host == m.host && m2.mtp == m.mtp && m2.cardB == s2.cardB && s2.cardA.refused == m.cardA.refused
      && (m.cardA.refused ==> m2 == m)
      && (!Stopped(s2) ==>
          m2.lastRows == s2.lastRows
          && if nx < |prompt| then OneAhead(net, prompt, chunk, nx, !i, m2, s2) else m2.cardA == s2.cardA)
  {
    hide CallA, CallB, ChunkAt, AfterB, AfterTaskA, AfterSerial;
    var nx := NextOff(|prompt|, chunk, off);
    SerialParts(net, prompt, chunk, off, s);
    if !m.cardA.refused {
      if nx < |prompt| {
        AParts(net, prompt, chunk, nx, !i, m);
        BParts(net, i, off, nx - off, AfterTaskA(net, prompt, chunk, nx, !i, m));
      } else {
        BParts(net, i, off, nx - off, m);
      }
    }
  }

  /** The memory the main thread's loop leaves, run serially from the chunk at `off` on. */
  ghost function MainMem(net: Net, prompt: seq<Tok>, chunk: Pos, off: nat, i: bool, m: Mem): Mem
    requires off < |prompt|
    decreases |prompt| - off
  {
    var nx := NextOff(|prompt|, chunk, off);
    var r := AfterMain(net, prompt, chunk, off, i, m);
    if nx < |prompt| && !m.cardA.refused && !r.cardB.refused then MainMem(net, prompt, chunk, nx, !i, r) else r
  }

  ghost function SerialMem(net: Net, prompt: seq<Tok>, chunk: Pos, off: nat, s: Mem): Mem
    requires off < |prompt|
    decreases |prompt| - off
  {
    var nx := NextOff(|prompt|, chunk, off);
    var r := AfterSerial(net, prompt, chunk, off, s);
    if nx < |prompt| && !Stopped(r) then SerialMem(net, prompt, chunk, nx, r) else r
  }

  /** A memory in which a call was refused is the end; any other goes on with `k`. */
  ghost function Onward(k: Prog, r: Mem): Mem { if Stopped(r) then r else Serial(k, r) }

  lemma MainChunk(net: Net, prompt: seq<Tok>, chunk: Pos, off: nat, i: bool, m: Mem, k: Prog)
    requires off < |prompt|
    ensures var nx := NextOff(|prompt|, chunk, off);
      var r := AfterMain(net, prompt, chunk, off, i, m);
      Serial(MainFrom(net, prompt, chunk, off, i, k), m)
      == if m.cardA.refused || r.cardB.refused then r
         else Serial(if nx < |prompt| then MainFrom(net, prompt, chunk, nx, !i, k) else k, r)
  {
    hide ChunkAt, ChunkA, CopyOut, AfterB, AfterTaskA, ChunkOnB, TaskA, CheckA;
    var nx := NextOff(|prompt|, chunk, off);
    var rest := if nx < |prompt| then MainFrom(net, prompt, chunk, nx, !i, k) else k;
    var bs := ChunkOnB(net, i, off, nx - off, rest);
    var p := if nx < |prompt| then Launch(TaskA(net, prompt, chunk, nx, !i), bs) else bs;
    assert Serial(MainFrom(net, prompt, chunk, off, i, k), m) == Serial(CheckA(p), m);
    CheckRunsA(p, m);
    if !m.cardA.refused {
      if nx < |prompt| {
        TaskRuns(net, prompt, chunk, nx, !i, m);
        ChunkOnBRuns(net, i, off, nx - off, rest, AfterTaskA(net, prompt, chunk, nx, !i, m));
      } else {
        ChunkOnBRuns(net, i, off, nx - off, k, m);
      }
    }
  }

  lemma {:induction false} MainRuns(net: Net, prompt: seq<Tok>, chunk: Pos, off: nat, i: bool, m: Mem, k: Prog)
    requires off < |prompt| && !m.cardB.refused
    ensures Serial(MainFrom(net, prompt, chunk, off, i, k), m) == Onward(k, MainMem(net, prompt, chunk, off, i, m))
    decreases |prompt| - off
  {
    hide ChunkAt, AfterB, AfterTaskA, MainFrom;
    MainChunk(net, prompt, chunk, off, i, m, k);
    var nx := NextOff(|prompt|, chunk, off);
    var r := AfterMain(net, prompt, chunk, off, i, m);
    if nx < |prompt| && !m.cardA.refused && !r.cardB.refused {
      MainRuns(net, prompt, chunk, nx, !i, r, k);
    } else if !m.cardA.refused && nx == |prompt| {
      BParts(net, i, off, nx - off, m);
    }
  }

  lemma {:induction false} SerialRuns(net: Net, prompt: seq<Tok>, chunk: Pos, off: nat, s: Mem, k: Prog)
    requires off < |prompt|
    ensures Serial(SerialFrom(net, prompt, chunk, off, k), s) == Onward(k, SerialMem(net, prompt, chunk, off, s))
    decreases |prompt| - off
  {
    hide ChunkAt, AfterSerial, SerialFrom;
    SerialChunk(net, prompt, chunk, off, s, k);
    var nx := NextOff(|prompt|, chunk, off);
    var r := AfterSerial(net, prompt, chunk, off, s);
    if nx < |prompt| && !Stopped(r) { SerialRuns(net, prompt, chunk, nx, r, k); }
  }

  /** What the pipelined and the serial loop leave alike: the verdict, and with no call refused both cards and the
      last row count. */
  ghost predicate SameCards(m: Mem, s: Mem) {
    && (Stopped(m) <==> Stopped(s))
    && (!Stopped(s) ==> m.cardA == s.cardA && m.cardB == s.cardB && m.lastRows == s.lastRows)
  }

  lemma {:induction false} MainIsSerial(net: Net, prompt: seq<Tok>, chunk: Pos, off: nat, i: bool, m: Mem, s: Mem)
    requires off < |prompt| && OneAhead(net, prompt, chunk, off, i, m, s)
    ensures var r := MainMem(net, prompt, chunk, off, i, m);
      SameCards(r, SerialMem(net, prompt, chunk, off, s)) && r.host == m.host && r.mtp == m.mtp
    decreases |prompt| - off
  {
    hide ChunkAt, AfterMain, AfterSerial, CallA;
    ChunkKeepsOneAhead(net, prompt, chunk, off, i, m, s);
    var nx := NextOff(|prompt|, chunk, off);
    var m2, s2 := AfterMain(net, prompt, chunk, off, i, m), AfterSerial(net, prompt, chunk, off, s);
    if nx < |prompt| && !m.cardA.refused && !s2.cardB.refused { MainIsSerial(net, prompt, chunk, nx, !i, m2, s2); }
  }

  ghost function PipelinedMem(net: Net, prompt: seq<Tok>, chunk: Pos, m: Mem): Mem
    requires |prompt| > 0
  {
    MainMem(net, prompt, chunk, 0, false, AfterTaskA(net, prompt, chunk, 0, false, m))
  }

  lemma PipelinedRuns(net: Net, prompt: seq<Tok>, chunk: Pos, m: Mem, k: Prog)
    requires |prompt| > 0 && !m.cardB.refused
    ensures Serial(Pipelined(net, prompt, chunk, k), m) == Onward(k, PipelinedMem(net, prompt, chunk, m))
  {
    hide TaskA, MainFrom, MainMem, CallA;
    TaskRuns(net, prompt, chunk, 0, false, m);
    MainRuns(net, prompt, chunk, 0, false, AfterTaskA(net, prompt, chunk, 0, false, m), k);
  }

  lemma PipelinedIsSerial(net: Net, prompt: seq<Tok>, chunk: Pos, m: Mem)
    requires |prompt| > 0 && !Stopped(m)
    ensures var r := PipelinedMem(net, prompt, chunk, m);
      SameCards(r, SerialMem(net, prompt, chunk, 0, m)) && r.host == m.host && r.mtp == m.mtp
  {
    hide ChunkAt, CallA, MainMem, SerialMem;
    MainIsSerial(net, prompt, chunk, 0, false, AfterTaskA(net, prompt, chunk, 0, false, m), m);
  }

  /** Whatever the interleaving, a pipelined prefill that ends was refused a chunk exactly when the serial loop is, and
      otherwise leaves both cards, and the count of rows in the last forward, as the serial loop leaves them. */
  lemma PipelinedPrefillIsSerialPrefill(net: Net, prompt: seq<Tok>, chunk: Pos, m: Mem, ss: seq<Machine>)
    requires |prompt| > 0 && !Stopped(m) && Run(ss) && ss[0] == Machine(m, Pipelined(net, prompt, chunk, End), Idle)
    requires Finished(ss[|ss| - 1])
    ensures SameCards(ss[|ss| - 1].mem, Serial(SerialFrom(net, prompt, chunk, 0, End), m))
  {
    hide Pipelined, PipelinedMem, SerialFrom, SerialMem, SameCards;
    PipelinedRaceFree(net, prompt, chunk, End);
    PipelinedRuns(net, prompt, chunk, m, End);
    AnySchedule(ss, PipelinedMem(net, prompt, chunk, m));
    PipelinedIsSerial(net, prompt, chunk, m);
    SerialRuns(net, prompt, chunk, 0, m, End);
  }

  // ---- a prefill leaves both stages having consumed the prompt ------------------------------

  /** Both stages have consumed exactly `h`, and what the last forward over it left: its mean rows and its logits. */
  ghost predicate Prefilled(net: Net, m: Mem, h: seq<Tok>) {
    && AReady(net, m.cardA, h) && BReady(net, m.cardB, h)
    && 0 < m.lastRows <= |h| && m.cardB.mean == MeanRows(net, h)[|h| - m.lastRows..]
    && m.cardB.logits == Next(net, h)
  }

  lemma ChunkAdvances(net: Net, prompt: seq<Tok>, chunk: Pos, off: nat, s: Mem)
    requires off < |prompt| <= Limit(net.cfg) && chunk <= net.cfg.maxChunk
    requires AReady(net, s.cardA, prompt[..off]) && BReady(net, s.cardB, prompt[..off])
    ensures var nx := NextOff(|prompt|, chunk, off);
      Prefilled(net, AfterSerial(net, prompt, chunk, off, s), prompt[..nx])
  {
    hide CallA, CallB, AHolds, BHolds, WideRows, MeanRows, Limit;
    var nx := NextOff(|prompt|, chunk, off);
    var toks := ChunkAt(prompt, chunk, off);
    var h := prompt[..off];
    assert prompt[..nx] == h + toks;
    ACall(net, s.cardA, h, toks);
    BCall(net, s.cardB.(wide := CallA(net, s.cardA, toks, off).wide), h, toks) by {
      BReadyWide(net, s.cardB, h, CallA(net, s.cardA, toks, off).wide);
    }
  }

  lemma BReadyWide(net: Net, c: CardB, h: seq<Tok>, xs: seq<Val>)
    requires BReady(net, c, h)
    ensures BReady(net, c.(wide := xs), h)
  {
  }

  lemma {:induction false} SerialFills(net: Net, prompt: seq<Tok>, chunk: Pos, off: nat, s: Mem)
    requires off < |prompt| <= Limit(net.cfg) && chunk <= net.cfg.maxChunk
    requires AReady(net, s.cardA, prompt[..off]) && BReady(net, s.cardB, prompt[..off])
    ensures Prefilled(net, SerialMem(net, prompt, chunk, off, s), prompt)
    decreases |prompt| - off
  {
    hide AfterSerial, AHolds, BHolds, Next, MeanRows, Limit;
    ChunkAdvances(net, prompt, chunk, off, s);
    var nx := NextOff(|prompt|, chunk, off);
    if nx < |prompt| {
      SerialFills(net, prompt, chunk, nx, AfterSerial(net, prompt, chunk, off, s));
    } else {
      assert prompt[..nx] == prompt;
    }
  }

  /** A pipelined prefill consumes the prompt, refuses nothing, and leaves the greedy first token and
      the draft head's seed row `lastRows - 1`. */
  lemma PipelinedFills(net: Net, prompt: seq<Tok>, chunk: Pos, m: Mem)
    requires 0 < |prompt| <= Limit(net.cfg) && chunk <= net.cfg.maxChunk
    requires AReady(net, m.cardA, []) && BReady(net, m.cardB, [])
    ensures Prefilled(net, PipelinedMem(net, prompt, chunk, m), prompt)
  {
    hide PipelinedMem, SerialMem, AHolds, BHolds, Next, MeanRows, Limit;
    PipelinedIsSerial(net, prompt, chunk, m);
    SerialFills(net, prompt, chunk, 0, m);
  }
}
