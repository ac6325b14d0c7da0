/** The expert file: a header page, a (layer, expert) table of byte offsets, then the slots. */
module ExpertLayout {
  import opened Arith
  import opened Bytes

  const PAGE: nat := 4096
  const TABLE_OFF: nat := 4096
  const MAGIC: seq<Byte> := [73, 69, 83, 76, 79, 84, 48, 49]   // "IESLOT01"

  /** What is written: ranking positions cutoff..end of every layer, in slots of `slot` bytes. */
  datatype Plan = Plan(layers: nat, experts: nat, cutoff: nat, end: nat, slot: nat, rank: seq<seq<nat>>)

  ghost predicate Permutation(row: seq<nat>, n: nat) {
    && |row| == n && (forall i | 0 <= i < n :: row[i] < n)
    && (forall i, j | 0 <= i < j < n :: row[i] != row[j])
    && (forall e: nat | e < n :: e in row)
  }

  /** The tool's own checks, and what the ranking reader guarantees. */
  ghost predicate ValidPlan(p: Plan) {
    && p.layers > 0 && p.cutoff < p.end <= p.experts
    && p.slot > 0 && p.slot % PAGE == 0
    && |p.rank| == p.layers && forall l | 0 <= l < p.layers :: Permutation(p.rank[l], p.experts)
  }

  function PerLayer(p: Plan): nat
    requires p.cutoff < p.end
  {
    p.end - p.cutoff
  }

  function Slots(p: Plan): nat
    requires p.cutoff < p.end
  {
    p.layers * PerLayer(p)
  }

  function SlotsOff(p: Plan): nat { (TABLE_OFF + p.layers * p.experts * 8 + 4095) / 4096 * 4096 }

  function SlotAt(p: Plan, s: nat): nat { SlotsOff(p) + s * p.slot }

  function Total(p: Plan): nat
    requires p.cutoff < p.end
  {
    SlotAt(p, Slots(p))
  }

  /** The ranking position of an expert. */
  function Position(row: seq<nat>, e: nat): (i: nat)
    requires e in row
    ensures i < |row| && row[i] == e
  {
    if row[0] == e then 0 else Position(row[1..], e) + 1
  }

  /** The slot of a (layer, position) of the window, and back. */
  function SlotOf(p: Plan, l: nat, i: nat): nat
    requires p.cutoff <= i < p.end
  {
    l * PerLayer(p) + (i - p.cutoff)
  }

  function LayerOf(p: Plan, s: nat): nat
    requires p.cutoff < p.end
  {
    s / PerLayer(p)
  }

  function ExpertOf(p: Plan, s: nat): (e: nat)
    requires ValidPlan(p) && s < Slots(p)
  {
    LayerBound(p, s);
    p.rank[LayerOf(p, s)][p.cutoff + s % PerLayer(p)]
  }

  lemma LayerBound(p: Plan, s: nat)
    requires p.cutoff < p.end && s < Slots(p)
    ensures LayerOf(p, s) < p.layers
  {
    var per := PerLayer(p);
    assert s / per * per <= s;
    if s / per >= p.layers { MulMonotone(p.layers, s / per, per); }
  }

  lemma SlotOfBound(p: Plan, l: nat, i: nat)
    requires l < p.layers && p.cutoff <= i < p.end
    ensures SlotOf(p, l, i) < Slots(p)
  {
    MulLess(l, p.layers, PerLayer(p));
  }

  /** Slots and (layer, position) pairs of the window correspond. */
  lemma SlotOfInverse(p: Plan, l: nat, i: nat)
    requires p.cutoff <= i < p.end
    ensures LayerOf(p, SlotOf(p, l, i)) == l && p.cutoff + SlotOf(p, l, i) % PerLayer(p) == i
  {
    DivModOf(l, i - p.cutoff, PerLayer(p));
  }

  /** A table entry: the slot of the expert's window position, or 0 outside the window. */
  function Entry(p: Plan, l: nat, e: nat): nat
    requires ValidPlan(p) && l < p.layers && e < p.experts
  {
    var i := Position(p.rank[l], e);
    if p.cutoff <= i < p.end then SlotAt(p, SlotOf(p, l, i)) else 0
  }

  // ---- the layout -----------------------------------------------------------------------

  lemma RoundUp(n: nat)
    ensures n <= (n + 4095) / 4096 * 4096 < n + 4096
  {
  }

  lemma MulMod(k: nat, n: nat)
    requires n % PAGE == 0
    ensures k * n % PAGE == 0
  {
    var q := n / PAGE;
    assert k * n == k * (q * PAGE) == (k * q) * PAGE;
    DivModOf(k * q, 0, PAGE);
  }

  lemma PageSum(a: nat, b: nat)
    requires a % PAGE == 0 && b % PAGE == 0
    ensures (a + b) % PAGE == 0
  {
  }

  lemma SlotAligned(p: Plan, s: nat)
    requires ValidPlan(p)
    ensures SlotAt(p, s) % PAGE == 0
  {
    MulMod(s, p.slot);
    DivModOf((TABLE_OFF + p.layers * p.experts * 8 + 4095) / 4096, 0, PAGE);
    PageSum(SlotsOff(p), s * p.slot);
  }

  /** Every slot is page-aligned, past the header and the table, and inside the file. */
  lemma SlotPlace(p: Plan, s: nat)
    requires ValidPlan(p) && s < Slots(p)
    ensures SlotAt(p, s) % PAGE == 0
    ensures TABLE_OFF + p.layers * p.experts * 8 <= SlotsOff(p) <= SlotAt(p, s) && SlotAt(p, s) + p.slot <= Total(p)
  {
    SlotAligned(p, s);
    hide SlotsOff, Slots, Permutation;
    assert SlotsOff(p) >= TABLE_OFF + p.layers * p.experts * 8 by { HeadFits(p); }
    MulLess(s, Slots(p), p.slot);
  }

  lemma HeadFits(p: Plan)
    ensures SlotsOff(p) >= TABLE_OFF + p.layers * p.experts * 8
  {
    RoundUp(TABLE_OFF + p.layers * p.experts * 8);
  }

  lemma SlotsApart(p: Plan, s: nat, t: nat)
    requires ValidPlan(p) && s < t
    ensures SlotAt(p, s) + p.slot <= SlotAt(p, t)
  {
    MulLess(s, t, p.slot);
  }

  /** A byte lies in one slot only. */
  lemma InOneSlot(p: Plan, x: nat, s: nat, t: nat)
    requires ValidPlan(p) && SlotAt(p, s) <= x < SlotAt(p, s) + p.slot && SlotAt(p, t) <= x < SlotAt(p, t) + p.slot
    ensures s == t
  {
    if t < s { SlotsApart(p, t, s); } else if t > s { SlotsApart(p, s, t); }
  }

  /** The slots tile the file from SlotsOff to its end: every byte there lies in exactly one. */
  lemma SlotsTile(p: Plan, x: nat)
    requires ValidPlan(p) && SlotsOff(p) <= x < Total(p)
    ensures var s := (x - SlotsOff(p)) / p.slot;
      && s < Slots(p) && SlotAt(p, s) <= x < SlotAt(p, s) + p.slot
      && forall t: nat | SlotAt(p, t) <= x < SlotAt(p, t) + p.slot :: t == s
  {
    hide SlotsOff, Slots, Permutation;
    var d, s := x - SlotsOff(p), (x - SlotsOff(p)) / p.slot;
    assert s * p.slot <= d < s * p.slot + p.slot by { DivBounds(d, p.slot); }
    if s >= Slots(p) { MulMonotone(Slots(p), s, p.slot); }
    forall t: nat | SlotAt(p, t) <= x < SlotAt(p, t) + p.slot
      ensures t == s
    {
      InOneSlot(p, x, s, t);
    }
  }

  lemma DivBounds(n: nat, d: nat)
    requires d > 0
    ensures n / d * d <= n < n / d * d + d
  {
  }

  /** A row that lists no expert twice gives each its one position. */
  lemma PositionOf(row: seq<nat>, n: nat, i: nat)
    requires Permutation(row, n) && i < n
    ensures Position(row, row[i]) == i
  {
    assert row[Position(row, row[i])] == row[i];
  }

  /** A table entry is nonzero iff its expert lies in the window; it is then the offset of that expert's slot. */
  lemma EntryIs(p: Plan, l: nat, e: nat)
    requires ValidPlan(p) && l < p.layers && e < p.experts
    ensures Entry(p, l, e) != 0 <==> p.cutoff <= Position(p.rank[l], e) < p.end
    ensures Entry(p, l, e) != 0 ==>
      var s := SlotOf(p, l, Position(p.rank[l], e));
      s < Slots(p) && Entry(p, l, e) == SlotAt(p, s) && LayerOf(p, s) == l && ExpertOf(p, s) == e
  {
    var i := Position(p.rank[l], e);
    if p.cutoff <= i < p.end {
      SlotOfBound(p, l, i);
      SlotOfInverse(p, l, i);
      RoundUp(TABLE_OFF + p.layers * p.experts * 8);
    }
  }

  /** The entry of the expert a slot holds is that slot's offset. */
  lemma EntryOfSlot(p: Plan, s: nat)
    requires ValidPlan(p) && s < Slots(p)
    ensures LayerOf(p, s) < p.layers && ExpertOf(p, s) < p.experts
    ensures Entry(p, LayerOf(p, s), ExpertOf(p, s)) == SlotAt(p, s)
  {
    LayerBound(p, s);
    var l, i := LayerOf(p, s), p.cutoff + s % PerLayer(p);
    PositionOf(p.rank[l], p.experts, i);
    assert s == s / PerLayer(p) * PerLayer(p) + s % PerLayer(p);
  }

  // ---- building the table ---------------------------------------------------------------

  function Index(p: Plan, l: nat, e: nat): nat { l * p.experts + e }

  lemma IndexIs(p: Plan, l: nat, e: nat)
    requires l < p.layers && e < p.experts
    ensures Index(p, l, e) < p.layers * p.experts
    ensures Index(p, l, e) / p.experts == l && Index(p, l, e) % p.experts == e
  {
    MulLess(l, p.layers, p.experts);
    DivModOf(l, e, p.experts);
  }

  /** The entry once the rows before l, and row l's positions below i, are filled. */
  function EntrySoFar(p: Plan, l1: nat, e: nat, l: nat, i: nat): nat
    requires ValidPlan(p) && l1 < p.layers && e < p.experts
  {
    if l1 < l || (l1 == l && Position(p.rank[l1], e) < i) then Entry(p, l1, e) else 0
  }

  ghost predicate FilledTo(p: Plan, t: seq<nat>, l: nat, i: nat)
    requires ValidPlan(p)
  {
    |t| == p.layers * p.experts &&
    forall l1: nat, e: nat | l1 < p.layers && e < p.experts ::
      Index(p, l1, e) < |t| && t[Index(p, l1, e)] == EntrySoFar(p, l1, e, l, i)
  }

  lemma FillOne(p: Plan, t: seq<nat>, l: nat, i: nat)
    requires ValidPlan(p) && l < p.layers && p.cutoff <= i < p.end && FilledTo(p, t, l, i)
    ensures p.rank[l][i] < p.experts && Index(p, l, p.rank[l][i]) < |t|
    ensures FilledTo(p, t[Index(p, l, p.rank[l][i]) := SlotAt(p, SlotOf(p, l, i))], l, i + 1)
  {
    hide ValidPlan;
    assert p.rank[l][i] < p.experts && Permutation(p.rank[l], p.experts) by { PlanRow(p, l); }
    var e0 := p.rank[l][i];
    var t1 := t[Index(p, l, e0) := SlotAt(p, SlotOf(p, l, i))];
    PositionOf(p.rank[l], p.experts, i);
    forall l1: nat, e: nat | l1 < p.layers && e < p.experts
      ensures Index(p, l1, e) < |t1| && t1[Index(p, l1, e)] == EntrySoFar(p, l1, e, l, i + 1)
    {
      IndexIs(p, l1, e);
      IndexIs(p, l, e0);
    }
  }

  lemma PlanRow(p: Plan, l: nat)
    requires ValidPlan(p) && l < p.layers
    ensures |p.rank| == p.layers && Permutation(p.rank[l], p.experts) && p.end <= p.experts
  {
  }

  lemma FillRow(p: Plan, t: seq<nat>, l: nat)
    requires ValidPlan(p) && l < p.layers && FilledTo(p, t, l, p.end)
    ensures FilledTo(p, t, l + 1, p.cutoff)
  {
    hide ValidPlan, Permutation;
  }

  lemma FillNone(p: Plan, t: seq<nat>)
    requires ValidPlan(p) && |t| == p.layers * p.experts && forall k | 0 <= k < |t| :: t[k] == 0
    ensures FilledTo(p, t, 0, p.cutoff)
  {
    forall l1: nat, e: nat | l1 < p.layers && e < p.experts
      ensures Index(p, l1, e) < |t| && t[Index(p, l1, e)] == EntrySoFar(p, l1, e, 0, p.cutoff)
    {
      IndexIs(p, l1, e);
    }
  }

  /** The whole table: every (layer, expert) at its own index. */
  ghost predicate IsTable(p: Plan, t: seq<nat>)
    requires ValidPlan(p)
  {
    |t| == p.layers * p.experts &&
    forall l: nat, e: nat | l < p.layers && e < p.experts :: Index(p, l, e) < |t| && t[Index(p, l, e)] == Entry(p, l, e)
  }

  /** The table's numbers: slots begin at the first page after the table, the expert at window position i of layer l has
      slot l * (end - cutoff) + (i - cutoff), and an expert outside the window has entry 0. */
  lemma TableIs(p: Plan, t: seq<nat>, l: nat, i: nat)
    requires ValidPlan(p) && IsTable(p, t) && l < p.layers && i < p.experts
    ensures |p.rank[l]| == p.experts && l * p.experts + p.rank[l][i] < |t|
    ensures var off := SlotsOff(p);
      && off % 4096 == 0 && 4096 + p.layers * p.experts * 8 <= off < 4096 + p.layers * p.experts * 8 + 4096
      && t[l * p.experts + p.rank[l][i]]
        == if p.cutoff <= i < p.end then off + (l * (p.end - p.cutoff) + (i - p.cutoff)) * p.slot else 0
  {
    PlanRow(p, l);
    hide ValidPlan, IsTable, Permutation;
    var e := p.rank[l][i];
    assert e < p.experts by { RowEntry(p.rank[l], p.experts, i); }
    PositionOf(p.rank[l], p.experts, i);
    assert Index(p, l, e) < |t| && t[Index(p, l, e)] == Entry(p, l, e) by { TableEntry(p, t, l, e); }
    RoundUp(TABLE_OFF + p.layers * p.experts * 8);
    DivModOf((TABLE_OFF + p.layers * p.experts * 8 + 4095) / 4096, 0, 4096);
  }

  lemma RowEntry(row: seq<nat>, n: nat, i: nat)
    requires Permutation(row, n) && i < n
    ensures row[i] < n
  {
  }

  lemma TableEntry(p: Plan, t: seq<nat>, l: nat, e: nat)
    requires ValidPlan(p) && IsTable(p, t) && l < p.layers && e < p.experts
    ensures Index(p, l, e) < |t| && t[Index(p, l, e)] == Entry(p, l, e)
  {
  }

  /** Fill the table from the ranking's window; every other entry stays 0. */
  method BuildTable(p: Plan) returns (table: array<nat>)
    requires ValidPlan(p)
    ensures fresh(table) && IsTable(p, table[..])
  {
    table := new nat[p.layers * p.experts](_ => 0);
    FillNone(p, table[..]);
    for l := 0 to p.layers
      invariant FilledTo(p, table[..], l, p.cutoff)
    {
      for i := p.cutoff to p.end
        invariant FilledTo(p, table[..], l, i)
      {
        FillOne(p, table[..], l, i);
        PlanRow(p, l);
        ghost var was := table[..];
        table[l * p.experts + p.rank[l][i]] := SlotsOff(p) + (l * PerLayer(p) + (i - p.cutoff)) * p.slot;
        assert table[..] == was[Index(p, l, p.rank[l][i]) := SlotAt(p, SlotOf(p, l, i))];
      }
      FillRow(p, table[..], l);
    }
  }
}
