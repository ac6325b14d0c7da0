/** The expert-file tool: the concurrent slot writer, the concurrent verifier with its rebind,
    and what one promises the other. */
module ExpertFile {
  import opened Arith
  import opened Bytes
  import opened ExpertLayout
  import opened ExpertBytes
  import opened Wrappers
  import Pool

  /** The model's shards: the packed bytes of one expert, their dimensions, and their id. */
  datatype Shards = Shards(pack: (nat, nat) -> seq<Byte>, dim: nat, moeDim: nat, id: nat)

  ghost predicate Packs(p: Plan, sh: Shards) { forall l, e :: |sh.pack(l, e)| == p.slot }

  function SlotBytes(p: Plan, sh: Shards, s: nat): seq<Byte>
    requires ValidPlan(p) && s < Slots(p)
  {
    sh.pack(LayerOf(p, s), ExpertOf(p, s))
  }

  // ---- the file before any slot ------------------------------------------------------------

  function HeaderOf(p: Plan, sh: Shards): Header
    requires p.cutoff < p.end
  {
    Header(sh.dim, sh.moeDim, p.layers, p.experts, p.slot, TABLE_OFF, Slots(p), p.cutoff, 0, sh.id)
  }

  /** The header and table buffer: zeros, then the two copies into it. */
  function HeadBytes(p: Plan, sh: Shards, t: seq<nat>): (bs: seq<Byte>)
    requires p.cutoff < p.end && |t| == p.layers * p.experts
    ensures |bs| == SlotsOff(p)
  {
    RoundUp(TABLE_OFF + p.layers * p.experts * 8);
    Put(Put(seq(SlotsOff(p), _ => 0), 0, Encode(HeaderOf(p, sh))), TABLE_OFF, TableBytes(t))
  }

  /** Around the header and the table the page is zero. */
  lemma HeadPadding(p: Plan, sh: Shards, t: seq<nat>, i: nat)
    requires p.cutoff < p.end && |t| == p.layers * p.experts
    requires 64 <= i < 4096 || 4096 + 8 * |t| <= i < SlotsOff(p)
    ensures i < SlotsOff(p) && HeadBytes(p, sh, t)[i] == 0
  {
    hide Encode, TableBytes;
    RoundUp(TABLE_OFF + p.layers * p.experts * 8);
    var zeros := seq(SlotsOff(p), _ => 0);
    var hd := Put(zeros, 0, Encode(HeaderOf(p, sh)));
    PutElsewhere(zeros, 0, Encode(HeaderOf(p, sh)), i, i + 1);
    PutElsewhere(hd, TABLE_OFF, TableBytes(t), i, i + 1);
    assert zeros[i..i + 1][0] == 0 && hd[i..i + 1][0] == hd[i];
    assert HeadBytes(p, sh, t)[i..i + 1][0] == HeadBytes(p, sh, t)[i];
  }

  /** The tool's numbers fit their fields. */
  predicate Fits(p: Plan, sh: Shards)
    requires p.cutoff < p.end
  {
    InRange(HeaderOf(p, sh)) && Total(p) < Cap(8)
  }

  lemma HeadReads(p: Plan, sh: Shards, t: seq<nat>, f: seq<Byte>)
    requires ValidPlan(p) && Fits(p, sh) && IsTable(p, t)
    requires |f| >= SlotsOff(p) && f[..SlotsOff(p)] == HeadBytes(p, sh, t)
    ensures Decode(f) == Some(HeaderOf(p, sh))
    ensures TABLE_OFF + 8 * |t| <= |f| && ReadTable(f, TABLE_OFF, |t|) == t
  {
    hide Encode, TableBytes, Decode, ReadTable;
    RoundUp(TABLE_OFF + p.layers * p.experts * 8);
    var head := HeadBytes(p, sh, t);
    var hd := Put(seq(SlotsOff(p), _ => 0), 0, Encode(HeaderOf(p, sh)));
    PutElsewhere(hd, TABLE_OFF, TableBytes(t), 0, HEADER_BYTES);
    assert f[..HEADER_BYTES] == head[..HEADER_BYTES] == head[0..HEADER_BYTES] == hd[0..HEADER_BYTES];
    HeaderRoundTrip(HeaderOf(p, sh), f);
    TableSmall(p, t);
    assert f[TABLE_OFF..TABLE_OFF + 8 * |t|] == head[TABLE_OFF..TABLE_OFF + 8 * |t|];
    if t != [] { TableRoundTrip(f, TABLE_OFF, t); }
  }

  /** The header of a written file, field by field. */
  lemma HeadFields(p: Plan, sh: Shards, t: seq<nat>, f: seq<Byte>)
    requires ValidPlan(p) && Fits(p, sh) && IsTable(p, t)
    requires |f| >= SlotsOff(p) && f[..SlotsOff(p)] == HeadBytes(p, sh, t)
    ensures |f| >= 64 && f[..8] == MAGIC
    ensures UnLe(f[8..12]) == sh.dim && UnLe(f[12..16]) == sh.moeDim
    ensures UnLe(f[16..20]) == p.layers && UnLe(f[20..24]) == p.experts && UnLe(f[24..32]) == p.slot
    ensures UnLe(f[32..40]) == 4096 && UnLe(f[40..48]) == p.layers * (p.end - p.cutoff)
    ensures UnLe(f[48..52]) == p.cutoff && UnLe(f[52..56]) == 0 && UnLe(f[56..64]) == sh.id
  {
    hide UnLe, HeadBytes, IsTable, Permutation, Total, Decode, Fits, ReadTable, SlotsOff;
    HeadReads(p, sh, t, f);
    DecodedFields(f, HeaderOf(p, sh));
  }

  lemma DecodedFields(f: seq<Byte>, h: Header)
    requires Decode(f) == Some(h)
    ensures |f| >= 64 && f[..8] == MAGIC
    ensures UnLe(f[8..12]) == h.dim && UnLe(f[12..16]) == h.moeDim
    ensures UnLe(f[16..20]) == h.layers && UnLe(f[20..24]) == h.experts && UnLe(f[24..32]) == h.slotBytes
    ensures UnLe(f[32..40]) == h.tableOff && UnLe(f[40..48]) == h.slots
    ensures UnLe(f[48..52]) == h.cutoff && UnLe(f[52..56]) == h.reserved && UnLe(f[56..64]) == h.weightsId
  {
    hide UnLe;
  }

  lemma EntrySmall(p: Plan, l: nat, e: nat)
    requires ValidPlan(p) && Total(p) < Cap(8) && l < p.layers && e < p.experts
    ensures Entry(p, l, e) < Cap(8)
  {
    hide SlotsOff, Total, Cap, Position;
    EntryIs(p, l, e);
    Cap8();
    if Entry(p, l, e) != 0 { SlotPlace(p, SlotOf(p, l, Position(p.rank[l], e))); }
  }

  lemma Cap8()
    ensures Cap(8) > 0
  {
    assert Cap(8) == 256 * Cap(7);
  }

  lemma TableSmall(p: Plan, t: seq<nat>)
    requires ValidPlan(p) && Total(p) < Cap(8) && IsTable(p, t)
    ensures t != [] && forall k | 0 <= k < |t| :: t[k] < Cap(8)
  {
    hide Permutation, Total, Cap, Entry, Index, IsTable;
    assert |t| == p.layers * p.experts by { IsTableSize(p, t); }
    forall k | 0 <= k < |t|
      ensures t[k] < Cap(8)
    {
      TableAt(p, t, k);
      EntrySmall(p, k / p.experts, k % p.experts);
    }
    MulMonotone(1, p.layers, p.experts);
  }

  lemma IsTableSize(p: Plan, t: seq<nat>)
    requires ValidPlan(p) && IsTable(p, t)
    ensures |t| == p.layers * p.experts
  {
  }

  lemma TableAt(p: Plan, t: seq<nat>, k: nat)
    requires ValidPlan(p) && IsTable(p, t) && k < |t|
    ensures k / p.experts < p.layers && k % p.experts < p.experts && t[k] == Entry(p, k / p.experts, k % p.experts)
  {
    hide Permutation, Entry, Index;
    IndexSplit(p, k);
  }

  lemma IndexSplit(p: Plan, k: nat)
    requires p.experts > 0 && k < p.layers * p.experts
    ensures k / p.experts < p.layers && k % p.experts < p.experts && Index(p, k / p.experts, k % p.experts) == k
  {
    assert k == k / p.experts * p.experts + k % p.experts;
    if k / p.experts >= p.layers { MulMonotone(p.layers, k / p.experts, p.experts); }
  }

  // ---- the concurrent writer -----------------------------------------------------------------

  /** A slot written, cut short by a failed pwrite, or not packed. */
  datatype WriteOutcome = Wrote | Short(n: nat) | NotPacked

  function WriteRules(p: Plan): Pool.Rules<WriteOutcome> {
    Pool.Rules((k: nat, o: WriteOutcome) => o.Short? ==> o.n < p.slot, (o: WriteOutcome) => !o.Wrote?)
  }

  function WriteJob(p: Plan): Pool.Job
    requires p.cutoff < p.end
  {
    Pool.Job(Slots(p), true)
  }

  /** What one carried-out slot did to the file: its expert's packed bytes at its expert's table entry. */
  function Apply(p: Plan, sh: Shards, f: seq<Byte>, ev: Pool.Event<WriteOutcome>): seq<Byte>
    requires ValidPlan(p) && ev.item < Slots(p)
  {
    EntryOfSlot(p, ev.item);
    var off, bytes := Entry(p, LayerOf(p, ev.item), ExpertOf(p, ev.item)), SlotBytes(p, sh, ev.item);
    match ev.outcome
    case Wrote => Put(f, off, bytes)
    case Short(n) => if n <= |bytes| then Put(f, off, bytes[..n]) else f
    case NotPacked => f
  }

  ghost predicate InPlan(p: Plan, log: seq<Pool.Event<WriteOutcome>>)
    requires p.cutoff < p.end
  {
    forall i | 0 <= i < |log| :: log[i].item < Slots(p)
  }

  function Replay(p: Plan, sh: Shards, f: seq<Byte>, log: seq<Pool.Event<WriteOutcome>>): seq<Byte>
    requires ValidPlan(p) && InPlan(p, log)
  {
    if log == [] then f else Apply(p, sh, Replay(p, sh, f, log[..|log| - 1]), log[|log| - 1])
  }

  /** Slot s of the file holds its expert's bytes. */
  predicate HasSlot(p: Plan, sh: Shards, f: seq<Byte>, s: nat)
    requires ValidPlan(p) && s < Slots(p)
  {
    SlotAt(p, s) + p.slot <= |f| && f[SlotAt(p, s)..SlotAt(p, s) + p.slot] == SlotBytes(p, sh, s)
  }

  /** One slot's write keeps the head and every other slot. */
  lemma WriteKeeps(p: Plan, sh: Shards, f: seq<Byte>, s: nat, t: nat)
    requires ValidPlan(p) && Packs(p, sh) && s < Slots(p) && t < Slots(p) && SlotsOff(p) <= |f| <= Total(p)
    requires s == t || HasSlot(p, sh, f, t)
    ensures var r := Apply(p, sh, f, Pool.Event(s, Wrote));
      HasSlot(p, sh, r, t) && SlotsOff(p) <= |r| <= Total(p) && r[..SlotsOff(p)] == f[..SlotsOff(p)]
  {
    hide SlotBytes, SlotsOff, Slots;
    EntryOfSlot(p, s);
    SlotPlace(p, s);
    assert |SlotBytes(p, sh, s)| == p.slot by { SlotSize(p, sh, s); }
    PutElsewhere(f, SlotAt(p, s), SlotBytes(p, sh, s), 0, SlotsOff(p));
    if s != t {
      if s < t { SlotsApart(p, s, t); } else { SlotsApart(p, t, s); }
      PutElsewhere(f, SlotAt(p, s), SlotBytes(p, sh, s), SlotAt(p, t), SlotAt(p, t) + p.slot);
    }
  }

  lemma SlotSize(p: Plan, sh: Shards, s: nat)
    requires ValidPlan(p) && Packs(p, sh) && s < Slots(p)
    ensures |SlotBytes(p, sh, s)| == p.slot
  {
  }

  /** Every slot the log carried out is in the file. */
  ghost predicate HasAll(p: Plan, sh: Shards, f: seq<Byte>, log: seq<Pool.Event<WriteOutcome>>)
    requires ValidPlan(p)
  {
    forall i | 0 <= i < |log| :: log[i].item < Slots(p) && HasSlot(p, sh, f, log[i].item)
  }

  lemma AppendKeeps(p: Plan, sh: Shards, f: seq<Byte>, log: seq<Pool.Event<WriteOutcome>>, s: nat)
    requires ValidPlan(p) && Packs(p, sh) && s < Slots(p) && SlotsOff(p) <= |f| <= Total(p) && HasAll(p, sh, f, log)
    ensures var r := Apply(p, sh, f, Pool.Event(s, Wrote));
      HasAll(p, sh, r, log + [Pool.Event(s, Wrote)]) && SlotsOff(p) <= |r| <= Total(p)
          && r[..SlotsOff(p)] == f[..SlotsOff(p)]
  {
    hide HasSlot, Apply, SlotsOff, Permutation, Slots, Total;
    var ev, log1 := Pool.Event(s, Wrote), log + [Pool.Event(s, Wrote)];
    WriteKeeps(p, sh, f, s, s);
    forall i | 0 <= i < |log1|
      ensures log1[i].item < Slots(p) && HasSlot(p, sh, Apply(p, sh, f, ev), log1[i].item)
    {
      if i < |log| { WriteKeeps(p, sh, f, s, log[i].item); }
    }
  }

  /** Whatever the order the slots were written in, each one the log has is in the file, and the head is untouched. */
  lemma {:induction false} ReplayKeeps(p: Plan, sh: Shards, f: seq<Byte>, log: seq<Pool.Event<WriteOutcome>>)
    requires ValidPlan(p) && Packs(p, sh) && |f| == SlotsOff(p)
    requires forall i | 0 <= i < |log| :: log[i].item < Slots(p) && log[i].outcome == Wrote
    ensures var r := Replay(p, sh, f, log);
      SlotsOff(p) <= |r| <= Total(p) && r[..SlotsOff(p)] == f && HasAll(p, sh, r, log)
  {
    hide HasSlot, HasAll, Apply, SlotsOff, ValidPlan, Slots, Total, Packs;
    if log == [] {
      assert HasAll(p, sh, f, log) by { NothingWritten(p, sh, f); }
      NotEmpty(p);
      assert f[..SlotsOff(p)] == f;
    } else {
      var init, ev := log[..|log| - 1], log[|log| - 1];
      ReplayKeeps(p, sh, f, init);
      assert ev == Pool.Event(ev.item, Wrote) && log == init + [ev];
      AppendKeeps(p, sh, Replay(p, sh, f, init), init, ev.item);
    }
  }

  lemma NothingWritten(p: Plan, sh: Shards, f: seq<Byte>)
    requires ValidPlan(p)
    ensures HasAll(p, sh, f, [])
  {
  }

  lemma NotEmpty(p: Plan)
    requires ValidPlan(p)
    ensures Slots(p) > 0 && SlotsOff(p) < Total(p)
  {
    MulMonotone(1, p.layers, PerLayer(p));
    MulMonotone(1, Slots(p), p.slot);
  }

  /** The tool's exit code, and what it leaves at the path. */
  datatype Result = Exit(code: nat, file: Option<seq<Byte>>)

  /** The writer's own calls: whether the output opened (emptying it), whether the head's buffer was allocated, how
      many bytes of the head were written, and whether the fsync succeeded. */
  datatype WriteCalls = WriteCalls(created: bool, buffered: bool, headBytes: nat, synced: bool)

  /** The writer reaches its workers. */
  predicate HeadWritten(p: Plan, c: WriteCalls) { c.created && c.buffered && c.headBytes == SlotsOff(p) }

  /** The exit, from what was at the path before. Only a run that a worker failed removes the file. */
  function WriteResult(p: Plan, sh: Shards, t: seq<nat>, was: Option<seq<Byte>>, c: WriteCalls,
                       ss: seq<Pool.State<WriteOutcome>>): Result
    requires ValidPlan(p) && |t| == p.layers * p.experts && c.headBytes <= SlotsOff(p)
    requires HeadWritten(p, c) ==> |ss| > 0 && InPlan(p, ss[|ss| - 1].log)
  {
    var head := HeadBytes(p, sh, t);
    if !c.created then Exit(1, was)
    else if !c.buffered then Exit(1, Some([]))
    else if c.headBytes != SlotsOff(p) then Exit(1, Some(head[..c.headBytes]))
    else if ss[|ss| - 1].stop then Exit(1, None)
    else Exit(if c.synced then 0 else 1, Some(Replay(p, sh, head, ss[|ss| - 1].log)))
  }

  /** A file with every slot of the plan, a table that points at them, and the header of these shards. */
  ghost predicate Complete(p: Plan, sh: Shards, t: seq<nat>, f: seq<Byte>)
    requires ValidPlan(p)
  {
    && |t| == p.layers * p.experts && |f| == Total(p) && f[..SlotsOff(p)] == HeadBytes(p, sh, t)
    && forall s: nat | s < Slots(p) :: HasSlot(p, sh, f, s)
  }

  /** A run of the workers to its end. */
  ghost predicate WorkersEnd(p: Plan, workers: nat, ss: seq<Pool.State<WriteOutcome>>)
    requires p.cutoff < p.end
  {
    Pool.Run(WriteJob(p), WriteRules(p), ss) && ss[0] == Pool.Init(workers) && Pool.Finished(ss[|ss| - 1])
  }

  lemma WriterLog(p: Plan, workers: nat, ss: seq<Pool.State<WriteOutcome>>)
    requires p.cutoff < p.end && WorkersEnd(p, workers, ss)
    ensures var s := ss[|ss| - 1];
      && (forall i | 0 <= i < |s.log| :: s.log[i].item < Slots(p) && (s.stop || s.log[i].outcome == Wrote))
      && (!s.stop && workers > 0 ==> Pool.Covered(Slots(p), s.log))
      && (workers == 0 ==> !s.stop && s.log == [])
  {
    hide Slots;
    Pool.AnySchedule(WriteJob(p), WriteRules(p), workers, ss);
    Pool.FinishedRun(WriteJob(p), WriteRules(p), workers, ss);
    if workers == 0 { Stays(p, ss); }
  }

  lemma {:induction false} Stays(p: Plan, ss: seq<Pool.State<WriteOutcome>>)
    requires p.cutoff < p.end && Pool.Run(WriteJob(p), WriteRules(p), ss) && ss[0] == Pool.Init(0)
    ensures ss[|ss| - 1] == ss[0]
  {
    if |ss| > 1 { NoStep(p, ss[0], ss[1]); }
  }

  lemma NoStep(p: Plan, s: Pool.State<WriteOutcome>, s': Pool.State<WriteOutcome>)
    requires p.cutoff < p.end && s.ws == []
    ensures !Pool.Step(WriteJob(p), WriteRules(p), s, s')
  {
  }

  /** The workers run exactly when the head was written. */
  ghost predicate WriterEnds(p: Plan, c: WriteCalls, workers: nat, ss: seq<Pool.State<WriteOutcome>>)
    requires p.cutoff < p.end
  {
    c.headBytes <= SlotsOff(p) && if HeadWritten(p, c) then WorkersEnd(p, workers, ss) else ss == []
  }

  lemma LogInPlan(p: Plan, c: WriteCalls, workers: nat, ss: seq<Pool.State<WriteOutcome>>)
    requires p.cutoff < p.end && WriterEnds(p, c, workers, ss)
    ensures HeadWritten(p, c) ==> |ss| > 0 && InPlan(p, ss[|ss| - 1].log)
  {
    hide SlotsOff, Slots;
    if HeadWritten(p, c) { WriterLog(p, workers, ss); }
  }

  /** Workers that end without a failure, at least one of them, leave a complete file. */
  lemma WorkersFill(p: Plan, sh: Shards, t: seq<nat>, workers: nat, ss: seq<Pool.State<WriteOutcome>>)
    requires ValidPlan(p) && Packs(p, sh) && IsTable(p, t) && WorkersEnd(p, workers, ss) && workers > 0
    requires !ss[|ss| - 1].stop
    ensures var log := ss[|ss| - 1].log;
      InPlan(p, log) && Pool.Covered(Slots(p), log) && Complete(p, sh, t, Replay(p, sh, HeadBytes(p, sh, t), log))
  {
    hide Permutation, HeadBytes, HasSlot, SlotsOff, Slots, Total, Apply;
    var log := ss[|ss| - 1].log;
    WriterLog(p, workers, ss);
    var f := Replay(p, sh, HeadBytes(p, sh, t), log);
    ReplayKeeps(p, sh, HeadBytes(p, sh, t), log);
    assert HasAll(p, sh, f, log);
    forall k: nat | k < Slots(p)
      ensures HasSlot(p, sh, f, k)
    {
      assert Pool.Carried(log, k);
    }
    AllSlotsFill(p, sh, f);
  }

  /** For every schedule of at least one worker: exit 0 leaves a complete file, each slot carried out exactly once.
      Once the output is open, nothing is left behind exactly when a worker failed, and what is left is complete
      exactly when the workers ran: an incomplete file stays when the head was not written, and a complete one when
      only the fsync failed. */
  lemma WriterIsComplete(p: Plan, sh: Shards, t: seq<nat>, was: Option<seq<Byte>>, c: WriteCalls, workers: nat,
                         ss: seq<Pool.State<WriteOutcome>>)
    requires ValidPlan(p) && Packs(p, sh) && IsTable(p, t) && WriterEnds(p, c, workers, ss) && workers > 0
    ensures HeadWritten(p, c) ==> |ss| > 0 && InPlan(p, ss[|ss| - 1].log)
    ensures var r := WriteResult(p, sh, t, was, c, ss);
      && (r.code == 0 ==>
          && HeadWritten(p, c) && Pool.Covered(Slots(p), ss[|ss| - 1].log)
          && r.file.Some? && Complete(p, sh, t, r.file.value))
      && r.code in {0, 1} && (!c.created ==> r == Exit(1, was)) && (!HeadWritten(p, c) ==> r.code == 1)
      && (c.created ==> (r.file.None? <==> HeadWritten(p, c) && ss[|ss| - 1].stop))
      && (c.created && r.file.Some? ==> (Complete(p, sh, t, r.file.value) <==> HeadWritten(p, c)))
      && (c.created && r.file.Some? && HeadWritten(p, c) ==> (r.code == 0 <==> c.synced))
  {
    hide Permutation, HeadBytes, HasSlot, SlotsOff, Slots, Total, Replay;
    LogInPlan(p, c, workers, ss);
    NotEmpty(p);
    if HeadWritten(p, c) {
      if !ss[|ss| - 1].stop { WorkersFill(p, sh, t, workers, ss); }
    }
  }

  lemma AllSlotsFill(p: Plan, sh: Shards, f: seq<Byte>)
    requires ValidPlan(p) && |f| <= Total(p) && forall s: nat | s < Slots(p) :: HasSlot(p, sh, f, s)
    ensures |f| == Total(p)
  {
    var n := Slots(p);
    MulMonotone(1, p.layers, PerLayer(p));
    assert HasSlot(p, sh, f, n - 1);
    assert (n - 1) * p.slot + p.slot == n * p.slot;
  }

  /** With no worker the writer still exits 0, and leaves the head with no slot: exit 0 means a complete file iff
      there is a worker. */
  lemma NoWorkerWritesNothing(p: Plan, sh: Shards, t: seq<nat>, was: Option<seq<Byte>>, c: WriteCalls,
                              ss: seq<Pool.State<WriteOutcome>>)
    requires ValidPlan(p) && IsTable(p, t) && WriterEnds(p, c, 0, ss) && HeadWritten(p, c) && c.synced
    ensures |ss| > 0 && ss[|ss| - 1].log == []
    ensures WriteResult(p, sh, t, was, c, ss) == Exit(0, Some(HeadBytes(p, sh, t)))
    ensures !Complete(p, sh, t, HeadBytes(p, sh, t))
  {
    hide HeadBytes, Permutation, SlotsOff, Total;
    WriterLog(p, 0, ss);
    assert SlotsOff(p) < Total(p) by { NotEmpty(p); }
  }

  // ---- the verifier -----------------------------------------------------------------------

  /** What the verifier compares a file with: the model's dimensions, its slot size and its shards. */
  datatype Model = Model(layers: nat, experts: nat, slot: nat, sh: Shards)

  /** The header, if the file is an expert file of this model with its whole table. */
  function OpenFile(m: Model, f: seq<Byte>): (r: Option<Header>)
    ensures r.Some? ==> |f| >= HEADER_BYTES && r == Decode(f) && r.value.tableOff + 8 * (m.layers * m.experts) <= |f|
  {
    match Decode(f)
    case None => None
    case Some(h) =>
      if h.dim != m.sh.dim || h.moeDim != m.sh.moeDim || h.layers != m.layers || h.experts != m.experts
          || h.slotBytes != m.slot then None
      else if h.tableOff + 8 * (m.layers * m.experts) > |f| then None
      else Some(h)
  }

  /** A file opens exactly when its magic is right, its header names the model's layout, and it holds the whole
      table. */
  lemma OpensExactly(m: Model, f: seq<Byte>)
    ensures OpenFile(m, f).Some? <==>
      && |f| >= 64 && f[..8] == MAGIC
      && UnLe(f[8..12]) == m.sh.dim && UnLe(f[12..16]) == m.sh.moeDim
      && UnLe(f[16..20]) == m.layers && UnLe(f[20..24]) == m.experts && UnLe(f[24..32]) == m.slot
      && UnLe(f[32..40]) + 8 * (m.layers * m.experts) <= |f|
  {
    hide UnLe;
  }

  function TableOf(m: Model, f: seq<Byte>): (t: seq<nat>)
    requires OpenFile(m, f).Some?
    ensures |t| == m.layers * m.experts
  {
    ReadTable(f, OpenFile(m, f).value.tableOff, m.layers * m.experts)
  }

  /** The table indices below n whose entry is not 0, in order: the verifier's work list. */
  function NonZero(t: seq<nat>, n: nat): (w: seq<nat>)
    requires n <= |t|
    ensures forall k | 0 <= k < |w| :: w[k] < n && t[w[k]] != 0
    ensures forall i: nat | i < n && t[i] != 0 :: i in w
  {
    if n == 0 then [] else NonZero(t, n - 1) + if t[n - 1] != 0 then [n - 1] else []
  }

  lemma {:induction false} NonZeroOrdered(t: seq<nat>, n: nat)
    requires n <= |t|
    ensures forall j, k | 0 <= j < k < |NonZero(t, n)| :: NonZero(t, n)[j] < NonZero(t, n)[k]
  {
    if n > 0 { NonZeroOrdered(t, n - 1); }
  }

  /** The work list so far is the nonzero indices below n, as (layer, expert) pairs. */
  ghost predicate ListsTo(m: Model, t: seq<nat>, work: seq<(nat, nat)>, n: nat) {
    m.experts > 0 && n <= |t| && |work| == |NonZero(t, n)| &&
    forall k | 0 <= k < |work| :: work[k] == (NonZero(t, n)[k] / m.experts, NonZero(t, n)[k] % m.experts)
  }

  lemma ListAppend(m: Model, t: seq<nat>, work: seq<(nat, nat)>, n: nat)
    requires n < |t| && ListsTo(m, t, work, n)
    ensures ListsTo(m, t, if t[n] != 0 then work + [(n / m.experts, n % m.experts)] else work, n + 1)
  {
  }

  lemma ListNext(m: Model, t: seq<nat>, work: seq<(nat, nat)>, l: nat, e: nat)
    requires |t| == m.layers * m.experts && l < m.layers && e < m.experts && ListsTo(m, t, work, Index2(m, l, e))
    ensures Index2(m, l, e) < |t|
    ensures ListsTo(m, t, if t[Index2(m, l, e)] != 0 then work + [(l, e)] else work, Index2(m, l, e) + 1)
  {
    hide ListsTo;
    MulLess(l, m.layers, m.experts);
    DivModOf(l, e, m.experts);
    ListAppend(m, t, work, Index2(m, l, e));
  }

  function Index2(m: Model, l: nat, e: nat): nat { l * m.experts + e }

  lemma NextRow(m: Model, l: nat)
    ensures Index2(m, l, m.experts) == Index2(m, l + 1, 0)
  {
  }

  method WorkList(m: Model, t: seq<nat>) returns (work: seq<(nat, nat)>)
    requires m.experts > 0 && |t| == m.layers * m.experts
    ensures ListsTo(m, t, work, |t|)
  {
    hide NonZero, ListsTo, Index2;
    work := [];
    assert Index2(m, 0, 0) == 0 && ListsTo(m, t, [], 0) by { ListNone(m, t); }
    for l := 0 to m.layers
      invariant ListsTo(m, t, work, Index2(m, l, 0))
    {
      for e := 0 to m.experts
        invariant ListsTo(m, t, work, Index2(m, l, e))
      {
        ListNext(m, t, work, l, e);
        assert Index2(m, l, e) == l * m.experts + e && Index2(m, l, e + 1) == Index2(m, l, e) + 1 by {
          IndexNext(m, l, e);
        }
        if t[l * m.experts + e] != 0 { work := work + [(l, e)]; }
      }
      NextRow(m, l);
    }
    assert Index2(m, m.layers, 0) == |t| by { IndexNext(m, m.layers, 0); }
  }

  lemma ListNone(m: Model, t: seq<nat>)
    requires m.experts > 0
    ensures Index2(m, 0, 0) == 0 && ListsTo(m, t, [], 0)
  {
  }

  lemma IndexNext(m: Model, l: nat, e: nat)
    ensures Index2(m, l, e) == l * m.experts + e && Index2(m, l, e + 1) == Index2(m, l, e) + 1
  {
  }

  /** An unaligned or short read is an error. */
  function ReadSlot(f: seq<Byte>, off: nat, slot: nat): Option<seq<Byte>> {
    if off % PAGE != 0 || slot % PAGE != 0 || off + slot > |f| then None else Some(f[off..off + slot])
  }

  datatype VerifyOutcome = Same | Differs | Errored

  lemma FactorPositive(a: nat, b: nat, i: nat)
    requires i < a * b
    ensures b > 0
  {
  }

  /** What comparing table index i comes to, when no system call fails. */
  function Truth(m: Model, f: seq<Byte>, t: seq<nat>, i: nat): VerifyOutcome
    requires i < |t| == m.layers * m.experts
  {
    match ReadSlot(f, t[i], m.slot)
    case None => Errored
    case Some(b) =>
      FactorPositive(m.layers, m.experts, i);
      if b == m.sh.pack(i / m.experts, i % m.experts) then Same else Differs
  }

  /** A table entry is right exactly when an aligned slot lies there whole and holds its expert's packed bytes. */
  lemma TruthExactly(m: Model, f: seq<Byte>, t: seq<nat>, l: nat, e: nat)
    requires |t| == m.layers * m.experts && l < m.layers && e < m.experts
    ensures l * m.experts + e < |t|
    ensures var off := t[l * m.experts + e];
      var i := l * m.experts + e;
      && (Truth(m, f, t, i) == Errored <==> off % 4096 != 0 || m.slot % 4096 != 0 || off + m.slot > |f|)
      && (Truth(m, f, t, i) == Same <==>
          off % 4096 == 0 && m.slot % 4096 == 0 && off + m.slot <= |f| && f[off..off + m.slot] == m.sh.pack(l, e))
  {
    MulLess(l, m.layers, m.experts);
    DivModOf(l, e, m.experts);
  }

  /** A system call may fail on any item. */
  function VerifyRules(m: Model, f: seq<Byte>, t: seq<nat>): Pool.Rules<VerifyOutcome>
    requires |t| == m.layers * m.experts
  {
    var w := NonZero(t, |t|);
    Pool.Rules((k: nat, o: VerifyOutcome) => k < |w| && (o == Errored || o == Truth(m, f, t, w[k])),
               (o: VerifyOutcome) => false)
  }

  function VerifyJob(t: seq<nat>): Pool.Job { Pool.Job(|NonZero(t, |t|)|, false) }

  function Bad(log: seq<Pool.Event<VerifyOutcome>>): nat {
    if log == [] then 0 else Bad(log[..|log| - 1]) + if log[|log| - 1].outcome == Same then 0 else 1
  }

  /** The number of items that failed or differ, each once. */
  lemma {:induction false} BadCounts(log: seq<Pool.Event<VerifyOutcome>>)
    ensures Bad(log) == |set i: nat | i < |log| && log[i].outcome != Same|
  {
    var now := set i: nat | i < |log| && log[i].outcome != Same;
    if log == [] {
      assert now == {};
    } else {
      var n := |log| - 1;
      var init := log[..n];
      BadCounts(init);
      var was := set i: nat | i < n && init[i].outcome != Same;
      assert now == was + if log[n].outcome != Same then {n} else {};
    }
  }

  lemma {:induction false} BadIff(log: seq<Pool.Event<VerifyOutcome>>)
    ensures Bad(log) > 0 <==> exists i :: 0 <= i < |log| && log[i].outcome != Same
  {
    if log != [] {
      var init := log[..|log| - 1];
      BadIff(init);
      if Bad(log) > 0 && log[|log| - 1].outcome == Same {
        var i :| 0 <= i < |init| && init[i].outcome != Same;
        assert log[i].outcome != Same;
      }
    }
  }

  /** The verifier's own calls: whether the file opened and its header and table were read, and for the rebind
      whether the file opened for writing, how many bytes of the header were written, and the fsync. */
  datatype VerifyCalls = VerifyCalls(readable: bool, reopened: bool, headBytes: nat, synced: bool)

  predicate Rewritten(c: VerifyCalls) { c.reopened && c.headBytes == HEADER_BYTES && c.synced }

  /** The rebind writes the header it read with the shards' id; a write cut short leaves its first bytes. */
  function Rebind(m: Model, f: seq<Byte>, h: Header, c: VerifyCalls): Result
    requires c.headBytes <= HEADER_BYTES
  {
    if !c.reopened then Exit(1, Some(f))
    else
      var g := Put(f, 0, Encode(h.(weightsId := m.sh.id))[..c.headBytes]);
      Exit(if Rewritten(c) then 0 else 1, Some(g))
  }

  /** The exit code after the join, and the file. */
  function VerifyResult(m: Model, f: seq<Byte>, c: VerifyCalls, rebind: bool, bad: nat): Result
    requires c.headBytes <= HEADER_BYTES
  {
    if !c.readable then Exit(1, Some(f))
    else
      match OpenFile(m, f)
      case None => Exit(1, Some(f))
      case Some(h) =>
        if bad > 0 then Exit(5, Some(f))
        else if h.weightsId == m.sh.id then Exit(0, Some(f))
        else if !rebind then Exit(6, Some(f))
        else Rebind(m, f, h, c)
  }

  ghost predicate VerifierEnds(m: Model, f: seq<Byte>, workers: nat, ss: seq<Pool.State<VerifyOutcome>>)
    requires OpenFile(m, f).Some?
  {
    var t := TableOf(m, f);
    Pool.Run(VerifyJob(t), VerifyRules(m, f, t), ss) && ss[0] == Pool.Init(workers) && Pool.Finished(ss[|ss| - 1])
  }

  /** Every slot the table holds equals the shards' packed bytes. */
  ghost predicate Matches(m: Model, f: seq<Byte>)
    requires OpenFile(m, f).Some?
  {
    var t := TableOf(m, f);
    forall i | 0 <= i < |t| && t[i] != 0 :: Truth(m, f, t, i) == Same
  }

  /** No system call failed in the run: only reads that had to fail did. */
  ghost predicate NoFault(m: Model, f: seq<Byte>, s: Pool.State<VerifyOutcome>)
    requires OpenFile(m, f).Some?
  {
    var t := TableOf(m, f);
    var w := NonZero(t, |t|);
    forall i | 0 <= i < |s.log| && s.log[i].item < |w| :: s.log[i].outcome == Truth(m, f, t, w[s.log[i].item])
  }

  lemma VerifierLog(m: Model, f: seq<Byte>, workers: nat, ss: seq<Pool.State<VerifyOutcome>>)
    requires OpenFile(m, f).Some? && VerifierEnds(m, f, workers, ss)
    ensures var s := ss[|ss| - 1];
      var t := TableOf(m, f);
      var w := NonZero(t, |t|);
      && (forall i | 0 <= i < |s.log| ::
          s.log[i].item < |w| && (s.log[i].outcome == Errored || s.log[i].outcome == Truth(m, f, t, w[s.log[i].item])))
      && (Pool.Live(s) ==> Pool.Covered(|w|, s.log))
      && (!Pool.Live(s) ==> s.log == [])
  {
    hide OpenFile, TableOf, NonZero, Truth;
    var t := TableOf(m, f);
    Pool.AnySchedule(VerifyJob(t), VerifyRules(m, f, t), workers, ss);
    NeverStops(m, f, t, ss);
    Pool.FinishedRun(VerifyJob(t), VerifyRules(m, f, t), workers, ss);
  }

  /** A file that does not open, another model's layout included, ends the verifier with 1 and stays as it was. */
  lemma OtherLayoutRefused(m: Model, f: seq<Byte>, c: VerifyCalls, rebind: bool, bad: nat)
    requires c.headBytes <= HEADER_BYTES
    requires Decode(f).Some?
    requires var h := Decode(f).value;
      || h.dim != m.sh.dim || h.moeDim != m.sh.moeDim || h.layers != m.layers || h.experts != m.experts
      || h.slotBytes != m.slot
    ensures VerifyResult(m, f, c, rebind, bad) == Exit(1, Some(f))
  {
    hide Decode;
  }

  lemma {:induction false} NeverStops(m: Model, f: seq<Byte>, t: seq<nat>, ss: seq<Pool.State<VerifyOutcome>>)
    requires |t| == m.layers * m.experts && Pool.Run(VerifyJob(t), VerifyRules(m, f, t), ss) && !ss[0].stop
    ensures !ss[|ss| - 1].stop
    decreases |ss|
  {
    hide NonZero, Truth;
    if |ss| > 1 {
      NeverStops(m, f, t, ss[..|ss| - 1]);
      assert Pool.Step(VerifyJob(t), VerifyRules(m, f, t), ss[|ss| - 2], ss[|ss| - 1]);
    }
  }

  /** With a worker that got its buffers, whatever the schedule: any exit but 5 means every slot matches, any slot that
      does not match forces 5, and when no read fails 5 means some slot does not match. The only other error is a
      rebind whose header write failed. */
  lemma VerifierIsExact(m: Model, f: seq<Byte>, c: VerifyCalls, rebind: bool, workers: nat,
                        ss: seq<Pool.State<VerifyOutcome>>)
    requires c.readable && c.headBytes <= HEADER_BYTES
    requires OpenFile(m, f).Some? && VerifierEnds(m, f, workers, ss) && Pool.Live(ss[|ss| - 1])
    ensures var s := ss[|ss| - 1];
      var code := VerifyResult(m, f, c, rebind, Bad(s.log)).code;
      && code in {0, 1, 5, 6}
      && (code == 1 ==> rebind && !Rewritten(c) && OpenFile(m, f).value.weightsId != m.sh.id)
      && (code != 5 ==> Matches(m, f))
      && (NoFault(m, f, s) ==> (code == 5 <==> !Matches(m, f)))
  {
    hide OpenFile, TableOf, Truth, Decode;
    var s := ss[|ss| - 1];
    var t := TableOf(m, f);
    var w := NonZero(t, |t|);
    VerifierLog(m, f, workers, ss);
    BadIff(s.log);
    if Bad(s.log) == 0 {
      forall i | 0 <= i < |t| && t[i] != 0
        ensures Truth(m, f, t, i) == Same
      {
        var k :| 0 <= k < |w| && w[k] == i;
        assert Pool.Carried(s.log, k);
      }
    } else if NoFault(m, f, s) {
      var i :| 0 <= i < |s.log| && s.log[i].outcome != Same;
      assert Truth(m, f, t, w[s.log[i].item]) != Same;
    }
  }

  /** Every exit of the verifier, from the number of slots found bad. */
  lemma VerifyExits(m: Model, f: seq<Byte>, c: VerifyCalls, rebind: bool, bad: nat)
    requires c.headBytes <= HEADER_BYTES
    ensures var code := VerifyResult(m, f, c, rebind, bad).code;
      var opens := c.readable && OpenFile(m, f).Some?;
      && (code == 5 <==> opens && bad > 0)
      && (code == 6 <==> opens && bad == 0 && UnLe(f[56..64]) != m.sh.id && !rebind)
      && (code == 0 <==>
          && opens && bad == 0
          && (UnLe(f[56..64]) == m.sh.id || (rebind && c.reopened && c.headBytes == 64 && c.synced)))
      && code in {0, 1, 5, 6}
  {
    hide UnLe;
  }

  /** With no worker that got its buffers nothing is compared, and the exit is never 5, even when every slot differs. */
  lemma NoBuffersComparesNothing(m: Model, f: seq<Byte>, c: VerifyCalls, rebind: bool, workers: nat,
                                 ss: seq<Pool.State<VerifyOutcome>>)
    requires c.readable && c.headBytes <= HEADER_BYTES
    requires OpenFile(m, f).Some? && VerifierEnds(m, f, workers, ss) && !Pool.Live(ss[|ss| - 1])
    ensures ss[|ss| - 1].log == []
    ensures var code := VerifyResult(m, f, c, rebind, Bad(ss[|ss| - 1].log)).code;
      code in {0, 1, 6} && (code == 1 ==> rebind && !Rewritten(c))
  {
    hide OpenFile, TableOf, Truth, Decode;
    VerifierLog(m, f, workers, ss);
  }

  /** A rebind changes no byte but the eight of the header's id, of which an interrupted write replaces the first few;
      nothing else changes the file, and exit 0 means the header names these shards. */
  lemma RebindChangesOnlyTheId(m: Model, f: seq<Byte>, c: VerifyCalls, rebind: bool, bad: nat)
    requires m.sh.id < Cap(8) && c.headBytes <= HEADER_BYTES
    ensures var r := VerifyResult(m, f, c, rebind, bad);
      && r.file.Some?
      && (r.file.value == f || (rebind && |f| >= HEADER_BYTES
          && var k := if c.headBytes < 56 then 0 else c.headBytes - 56;
             r.file.value == f[..56] + Le(m.sh.id, 8)[..k] + f[56 + k..]))
      && (r.code == 0 ==>
          Decode(r.file.value).Some? && Decode(r.file.value) == Some(Decode(f).value.(weightsId := m.sh.id)))
  {
    hide Le, Cap, Encode, InRange, UnLe;
    if c.readable && OpenFile(m, f).Some? {
      var h := OpenFile(m, f).value;
      if bad == 0 && h.weightsId != m.sh.id && rebind && c.reopened {
        HeaderBytesKept(f, m.sh.id);
        PutsId(f, m.sh.id, c.headBytes);
        InRangeId(h, m.sh.id);
        var g := VerifyResult(m, f, c, rebind, bad).file.value;
        if c.headBytes == 64 {
          assert g[..64] == Encode(h.(weightsId := m.sh.id));
          HeaderRoundTrip(h.(weightsId := m.sh.id), g);
        }
      } else {
        assert h.weightsId == m.sh.id ==> h == h.(weightsId := m.sh.id);
      }
    }
  }

  /** The first n bytes of the header with another id, written over the header. */
  lemma PutsId(f: seq<Byte>, id: nat, n: nat)
    requires |f| >= HEADER_BYTES && n <= HEADER_BYTES
    ensures var k := if n < 56 then 0 else n - 56;
      Put(f, 0, (f[..56] + Le(id, 8))[..n]) == f[..56] + Le(id, 8)[..k] + f[56 + k..]
  {
    hide Le;
  }

  lemma InRangeId(h: Header, id: nat)
    requires InRange(h) && id < Cap(8)
    ensures InRange(h.(weightsId := id))
  {
  }

  // ---- write, then verify ----------------------------------------------------------------

  lemma WrittenFileOpens(p: Plan, sh: Shards, t: seq<nat>, f: seq<Byte>)
    requires ValidPlan(p) && Fits(p, sh) && IsTable(p, t) && Complete(p, sh, t, f)
    ensures var m := Model(p.layers, p.experts, p.slot, sh);
      OpenFile(m, f) == Some(HeaderOf(p, sh)) && TableOf(m, f) == t
  {
    hide HeadBytes, Decode, ReadTable, InRange, Permutation, HasSlot, Total, Cap;
    assert |t| == p.layers * p.experts by { IsTableSize(p, t); }
    NotEmpty(p);
    HeadReads(p, sh, t, f);
  }

  /** The table index of (layer, expert) is on the verifier's list iff the expert lies in the window. */
  lemma WindowListed(p: Plan, t: seq<nat>, l: nat, e: nat)
    requires ValidPlan(p) && IsTable(p, t) && l < p.layers && e < p.experts
    ensures e in p.rank[l] && Index(p, l, e) < |t|
    ensures Index(p, l, e) in NonZero(t, |t|) <==> p.cutoff <= Position(p.rank[l], e) < p.end
  {
    hide Index, Position;
    assert t[Index(p, l, e)] == Entry(p, l, e);
    EntryIs(p, l, e);
  }

  lemma WrittenSlotMatches(p: Plan, sh: Shards, t: seq<nat>, f: seq<Byte>, i: nat)
    requires ValidPlan(p) && IsTable(p, t) && i < |t| == p.layers * p.experts && t[i] != 0
    requires forall s: nat | s < Slots(p) :: HasSlot(p, sh, f, s)
    ensures Truth(Model(p.layers, p.experts, p.slot, sh), f, t, i) == Same
  {
    hide Permutation, ReadSlot, Entry, IsTable, HasSlot, Slots;
    TableAt(p, t, i);
    SlotReads(p, sh, f, i / p.experts, i % p.experts);
  }

  /** A file just written verifies: every slot its table holds reads back as the shards' bytes. */
  lemma WrittenFileMatches(p: Plan, sh: Shards, t: seq<nat>, f: seq<Byte>)
    requires ValidPlan(p) && Packs(p, sh) && Fits(p, sh) && IsTable(p, t) && Complete(p, sh, t, f)
    ensures var m := Model(p.layers, p.experts, p.slot, sh);
      && OpenFile(m, f) == Some(HeaderOf(p, sh)) && TableOf(m, f) == t && Matches(m, f)
  {
    hide HeadBytes, OpenFile, Permutation, HeaderOf, TableOf, Truth, IsTable, HasSlot, Slots, Total;
    WrittenFileOpens(p, sh, t, f);
    forall i | 0 <= i < |t| && t[i] != 0
      ensures Truth(Model(p.layers, p.experts, p.slot, sh), f, t, i) == Same
    {
      WrittenSlotMatches(p, sh, t, f, i);
    }
  }

  lemma SlotReads(p: Plan, sh: Shards, f: seq<Byte>, l: nat, e: nat)
    requires ValidPlan(p) && l < p.layers && e < p.experts && Entry(p, l, e) != 0
    requires forall s: nat | s < Slots(p) :: HasSlot(p, sh, f, s)
    ensures ReadSlot(f, Entry(p, l, e), p.slot) == Some(sh.pack(l, e))
  {
    EntryIs(p, l, e);
    var s := SlotOf(p, l, Position(p.rank[l], e));
    SlotPlace(p, s);
    assert HasSlot(p, sh, f, s);
  }

  /** A head cut short, or a head with no slot after it: the file either does not open or fails to match. */
  lemma HeadAloneFails(p: Plan, sh: Shards, t: seq<nat>, n: nat)
    requires ValidPlan(p) && Fits(p, sh) && IsTable(p, t) && n <= SlotsOff(p)
    ensures var m, f := Model(p.layers, p.experts, p.slot, sh), HeadBytes(p, sh, t)[..n];
      !Complete(p, sh, t, f) && (OpenFile(m, f).Some? ==> !Matches(m, f))
  {
    hide HeadBytes, Decode, Permutation, HasSlot, Total, Cap, Truth, SlotsOff, IsTable, NonZero, HeaderOf;
    IsTableSize(p, t);
    var m, f := Model(p.layers, p.experts, p.slot, sh), HeadBytes(p, sh, t)[..n];
    NotEmpty(p);
    if OpenFile(m, f).Some? {
      HeadCutReads(p, sh, t, n);
      FirstSlotMissing(p, sh, t, f);
    }
  }

  /** Where the cut head opens its table is whole. */
  lemma HeadCutReads(p: Plan, sh: Shards, t: seq<nat>, n: nat)
    requires ValidPlan(p) && Fits(p, sh) && IsTable(p, t) && n <= SlotsOff(p)
    requires OpenFile(Model(p.layers, p.experts, p.slot, sh), HeadBytes(p, sh, t)[..n]).Some?
    ensures TableOf(Model(p.layers, p.experts, p.slot, sh), HeadBytes(p, sh, t)[..n]) == t
  {
    hide HeadBytes, UnLe, Cap, Permutation, IsTable, Total, SlotsOff, InRange;
    IsTableSize(p, t);
    var m, head := Model(p.layers, p.experts, p.slot, sh), HeadBytes(p, sh, t);
    var f := head[..n];
    HeadReads(p, sh, t, head);
    DecodesAlike(f, head);
    forall k | 0 <= k < |t|
      ensures ReadTable(f, TABLE_OFF, |t|)[k] == ReadTable(head, TABLE_OFF, |t|)[k]
    {
      assert f[TABLE_OFF + 8 * k..TABLE_OFF + 8 * k + 8] == head[TABLE_OFF + 8 * k..TABLE_OFF + 8 * k + 8];
    }
  }

  lemma DecodesAlike(f: seq<Byte>, g: seq<Byte>)
    requires HEADER_BYTES <= |f| <= |g| && f == g[..|f|]
    ensures Decode(f) == Decode(g)
  {
    hide UnLe;
    assert f[..64] == g[..64];
    forall a: nat, b: nat | a <= b <= 64 ensures f[a..b] == g[a..b] {}
  }

  /** The first slot lies past the head, and the table points at it. */
  lemma FirstSlotMissing(p: Plan, sh: Shards, t: seq<nat>, f: seq<Byte>)
    requires ValidPlan(p) && IsTable(p, t) && |f| <= SlotsOff(p)
    requires var m := Model(p.layers, p.experts, p.slot, sh); OpenFile(m, f).Some? && TableOf(m, f) == t
    ensures !Matches(Model(p.layers, p.experts, p.slot, sh), f)
  {
    hide Permutation, Total, OpenFile, TableOf, SlotsOff, Position, Slots, IsTable, LayerOf, ExpertOf;
    var m := Model(p.layers, p.experts, p.slot, sh);
    NotEmpty(p);
    EntryOfSlot(p, 0);
    SlotPlace(p, 0);
    var l, e := LayerOf(p, 0), ExpertOf(p, 0);
    var i := Index(p, l, e);
    IndexRange(p, t, l, e);
    assert Truth(m, f, t, i) == Errored;
  }

  lemma IndexRange(p: Plan, t: seq<nat>, l: nat, e: nat)
    requires ValidPlan(p) && IsTable(p, t) && l < p.layers && e < p.experts
    ensures Index(p, l, e) < |t| == p.layers * p.experts && t[Index(p, l, e)] == Entry(p, l, e)
  {
  }

  /** What a failed head write leaves behind is never taken for a good file: the writer exits 1, and a verifier with a
      worker that got its buffers exits 1 or 5 on it. */
  lemma LeftoverRejected(p: Plan, sh: Shards, t: seq<nat>, was: Option<seq<Byte>>, c: WriteCalls,
                         d: VerifyCalls, rebind: bool, verifiers: nat, vs: seq<Pool.State<VerifyOutcome>>)
    requires ValidPlan(p) && Fits(p, sh) && IsTable(p, t)
    requires c.created && !HeadWritten(p, c) && c.headBytes <= SlotsOff(p) && d.headBytes <= HEADER_BYTES
    requires var f := WriteResult(p, sh, t, was, c, []).file;
      var m := Model(p.layers, p.experts, p.slot, sh);
      f.Some? && OpenFile(m, f.value).Some? ==> VerifierEnds(m, f.value, verifiers, vs) && Pool.Live(vs[|vs| - 1])
    ensures var r := WriteResult(p, sh, t, was, c, []);
      var m := Model(p.layers, p.experts, p.slot, sh);
      && r.code == 1 && r.file.Some? && !Complete(p, sh, t, r.file.value)
      && VerifyResult(m, r.file.value, d, rebind, if vs == [] then 0 else Bad(vs[|vs| - 1].log)).code in {1, 5}
  {
    hide HeadBytes, Decode, Permutation, HasSlot, Total, Cap, Truth, SlotsOff, Slots, NonZero, IsTable, Complete;
    IsTableSize(p, t);
    var m, f := Model(p.layers, p.experts, p.slot, sh), WriteResult(p, sh, t, was, c, []).file.value;
    var n := if c.buffered then c.headBytes else 0;
    assert f == HeadBytes(p, sh, t)[..n];
    HeadAloneFails(p, sh, t, n);
    if OpenFile(m, f).Some? && d.readable { VerifierIsExact(m, f, d, rebind, verifiers, vs); }
  }

  /** For one: a head pwrite that stops after 100 bytes ends the writer with those 100 bytes in place. */
  lemma ShortHeadStays(p: Plan, sh: Shards, t: seq<nat>, was: Option<seq<Byte>>)
    requires ValidPlan(p) && Fits(p, sh) && IsTable(p, t)
    ensures var r := WriteResult(p, sh, t, was, WriteCalls(true, true, 100, true), []);
      r.code == 1 && r.file.Some? && |r.file.value| == 100 && !Complete(p, sh, t, r.file.value)
  {
    hide HeadBytes, Permutation, HasSlot, Total, Fits, Complete, OpenFile;
    IsTableSize(p, t);
    RoundUp(TABLE_OFF + p.layers * p.experts * 8);
    HeadAloneFails(p, sh, t, 100);
  }

  /** The round trip: write with at least one worker to exit 0, verify against unchanged shards with a worker that got
      its buffers and no failing read, and the exit is 0 with the file untouched. */
  lemma WriteThenVerify(p: Plan, sh: Shards, t: seq<nat>, was: Option<seq<Byte>>, c: WriteCalls,
                        writers: nat, ws: seq<Pool.State<WriteOutcome>>,
                        d: VerifyCalls, rebind: bool, verifiers: nat, vs: seq<Pool.State<VerifyOutcome>>)
    requires ValidPlan(p) && Packs(p, sh) && Fits(p, sh) && IsTable(p, t)
    requires WriterEnds(p, c, writers, ws) && writers > 0
    requires HeadWritten(p, c) ==> |ws| > 0 && InPlan(p, ws[|ws| - 1].log)
    requires WriteResult(p, sh, t, was, c, ws).code == 0 && d.readable && d.headBytes <= HEADER_BYTES
    requires var f := WriteResult(p, sh, t, was, c, ws).file;
      var m := Model(p.layers, p.experts, p.slot, sh);
      f.Some? && OpenFile(m, f.value).Some? ==>
        VerifierEnds(m, f.value, verifiers, vs) && Pool.Live(vs[|vs| - 1]) && NoFault(m, f.value, vs[|vs| - 1])
    ensures var f := WriteResult(p, sh, t, was, c, ws).file;
      var m := Model(p.layers, p.experts, p.slot, sh);
      && f.Some? && OpenFile(m, f.value).Some? && |vs| > 0
      && VerifyResult(m, f.value, d, rebind, Bad(vs[|vs| - 1].log)) == Exit(0, f)
  {
    hide HeadBytes, Decode, ReadTable, InRange, Permutation, NonZero, Position, HasSlot, Replay, Slots, Total, Matches,
         Truth, NoFault, VerifierEnds, SlotsOff;
    WriterIsComplete(p, sh, t, was, c, writers, ws);
    var f := WriteResult(p, sh, t, was, c, ws).file.value;
    var m := Model(p.layers, p.experts, p.slot, sh);
    WrittenFileMatches(p, sh, t, f);
    assert |vs| > 0 by { EndedRun(m, f, verifiers, vs); }
    VerifierIsExact(m, f, d, rebind, verifiers, vs);
  }

  lemma EndedRun(m: Model, f: seq<Byte>, workers: nat, ss: seq<Pool.State<VerifyOutcome>>)
    requires OpenFile(m, f).Some? && VerifierEnds(m, f, workers, ss)
    ensures |ss| > 0
  {
  }
}
