/** Byte-level pieces of the expert file: the header struct, pwrite, and the table. */
module ExpertBytes {
  import opened Bytes
  import opened ExpertLayout
  import opened Wrappers

  // ---- the header ---------------------------------------------------------------------

  datatype Header = Header(
    dim: nat, moeDim: nat, layers: nat, experts: nat,
    slotBytes: nat, tableOff: nat, slots: nat,
    cutoff: nat, reserved: nat, weightsId: nat)

  const HEADER_BYTES: nat := 64

  function Dims(h: Header): (bs: seq<Byte>)
    ensures |bs| == 16
  {
    Le(h.dim, 4) + (Le(h.moeDim, 4) + (Le(h.layers, 4) + Le(h.experts, 4)))
  }

  function Sizes(h: Header): (bs: seq<Byte>)
    ensures |bs| == 24
  {
    Le(h.slotBytes, 8) + (Le(h.tableOff, 8) + Le(h.slots, 8))
  }

  function Marks(h: Header): (bs: seq<Byte>)
    ensures |bs| == 8
  {
    Le(h.cutoff, 4) + Le(h.reserved, 4)
  }

  /** The struct's bytes: magic, dimensions, sizes, cutoff and reserved, weights id. */
  function Encode(h: Header): (bs: seq<Byte>)
    ensures |bs| == HEADER_BYTES
  {
    MAGIC + Dims(h) + Sizes(h) + Marks(h) + Le(h.weightsId, 8)
  }

  function Decode(f: seq<Byte>): Option<Header> {
    if |f| < HEADER_BYTES || f[..8] != MAGIC then None
    else
      Some(Header(UnLe(f[8..12]), UnLe(f[12..16]), UnLe(f[16..20]), UnLe(f[20..24]),
                  UnLe(f[24..32]), UnLe(f[32..40]), UnLe(f[40..48]),
                  UnLe(f[48..52]), UnLe(f[52..56]), UnLe(f[56..64])))
  }

  predicate InRange(h: Header) {
    && h.dim < Cap(4) && h.moeDim < Cap(4) && h.layers < Cap(4) && h.experts < Cap(4)
    && h.slotBytes < Cap(8) && h.tableOff < Cap(8) && h.slots < Cap(8)
    && h.cutoff < Cap(4) && h.reserved < Cap(4) && h.weightsId < Cap(8)
  }

  /** The middle of three joined pieces. */
  lemma Middle(a: seq<Byte>, b: seq<Byte>, c: seq<Byte>, e: seq<Byte>)
    requires e == a + b + c
    ensures e[..|a|] == a && e[|a|..|a| + |b|] == b && e[|a| + |b|..] == c
  {
  }

  lemma PartFields(h: Header)
    ensures var d := Dims(h);
      && d[..4] == Le(h.dim, 4) && d[4..8] == Le(h.moeDim, 4)
      && d[8..12] == Le(h.layers, 4) && d[12..16] == Le(h.experts, 4)
    ensures var z := Sizes(h);
      z[..8] == Le(h.slotBytes, 8) && z[8..16] == Le(h.tableOff, 8) && z[16..24] == Le(h.slots, 8)
    ensures var k := Marks(h); k[..4] == Le(h.cutoff, 4) && k[4..8] == Le(h.reserved, 4)
  {
    hide Le;
    Middle(Le(h.dim, 4), Le(h.moeDim, 4), Le(h.layers, 4) + Le(h.experts, 4), Dims(h));
    Middle(Le(h.dim, 4) + Le(h.moeDim, 4), Le(h.layers, 4), Le(h.experts, 4), Dims(h));
    Middle(Le(h.slotBytes, 8), Le(h.tableOff, 8), Le(h.slots, 8), Sizes(h));
    Middle(Le(h.cutoff, 4), Le(h.reserved, 4), [], Marks(h));
  }

  lemma EncodeParts(h: Header)
    ensures var e := Encode(h);
      && e[..8] == MAGIC && e[8..24] == Dims(h) && e[24..48] == Sizes(h)
      && e[48..56] == Marks(h) && e[56..64] == Le(h.weightsId, 8)
  {
    hide Le, Dims, Sizes, Marks;
    var e, d, z, k, w := Encode(h), Dims(h), Sizes(h), Marks(h), Le(h.weightsId, 8);
    Middle(MAGIC, d, z + k + w, e);
    Middle(MAGIC + d, z, k + w, e);
    Middle(MAGIC + d + z, k, w, e);
  }

  lemma Subrange(f: seq<Byte>, a: nat, b: nat, c: nat, d: nat)
    requires a <= b <= |f| && c <= d <= b - a
    ensures f[a..b][c..d] == f[a + c..a + d]
  {
    forall i | 0 <= i < d - c
      ensures f[a..b][c..d][i] == f[a + c..a + d][i]
    {
    }
  }

  /** Where each field of the struct lies. */
  lemma HeaderLayout(h: Header)
    requires InRange(h)
    ensures var e := Encode(h);
      && e[..8] == [73, 69, 83, 76, 79, 84, 48, 49]
      && UnLe(e[8..12]) == h.dim && UnLe(e[12..16]) == h.moeDim
      && UnLe(e[16..20]) == h.layers && UnLe(e[20..24]) == h.experts
      && UnLe(e[24..32]) == h.slotBytes && UnLe(e[32..40]) == h.tableOff && UnLe(e[40..48]) == h.slots
      && UnLe(e[48..52]) == h.cutoff && UnLe(e[52..56]) == h.reserved && UnLe(e[56..64]) == h.weightsId
  {
    hide Le, UnLe, Dims, Sizes, Marks, Encode, Cap;
    var e := Encode(h);
    EncodeParts(h);
    PartFields(h);
    Subrange(e, 8, 24, 0, 4); Subrange(e, 8, 24, 4, 8); Subrange(e, 8, 24, 8, 12); Subrange(e, 8, 24, 12, 16);
    Subrange(e, 24, 48, 0, 8); Subrange(e, 24, 48, 8, 16); Subrange(e, 24, 48, 16, 24);
    Subrange(e, 48, 56, 0, 4); Subrange(e, 48, 56, 4, 8);
    LeRoundTrip(h.dim, 4); LeRoundTrip(h.moeDim, 4); LeRoundTrip(h.layers, 4); LeRoundTrip(h.experts, 4);
    LeRoundTrip(h.slotBytes, 8); LeRoundTrip(h.tableOff, 8); LeRoundTrip(h.slots, 8);
    LeRoundTrip(h.cutoff, 4); LeRoundTrip(h.reserved, 4); LeRoundTrip(h.weightsId, 8);
  }

  /** A header written and read back is the same header. */
  lemma HeaderRoundTrip(h: Header, f: seq<Byte>)
    requires InRange(h) && |f| >= HEADER_BYTES && f[..HEADER_BYTES] == Encode(h)
    ensures Decode(f) == Some(h)
  {
    hide Le, UnLe, Dims, Sizes, Marks, Encode, Cap;
    EncodeParts(h);
    PartFields(h);
    assert f[..8] == f[..64][..8];
    Subrange(f, 0, 64, 8, 24); Subrange(f, 0, 64, 24, 48); Subrange(f, 0, 64, 48, 56); Subrange(f, 0, 64, 56, 64);
    Subrange(f, 8, 24, 0, 4); Subrange(f, 8, 24, 4, 8); Subrange(f, 8, 24, 8, 12); Subrange(f, 8, 24, 12, 16);
    Subrange(f, 24, 48, 0, 8); Subrange(f, 24, 48, 8, 16); Subrange(f, 24, 48, 16, 24);
    Subrange(f, 48, 56, 0, 4); Subrange(f, 48, 56, 4, 8);
    LeRoundTrip(h.dim, 4); LeRoundTrip(h.moeDim, 4); LeRoundTrip(h.layers, 4); LeRoundTrip(h.experts, 4);
    LeRoundTrip(h.slotBytes, 8); LeRoundTrip(h.tableOff, 8); LeRoundTrip(h.slots, 8);
    LeRoundTrip(h.cutoff, 4); LeRoundTrip(h.reserved, 4); LeRoundTrip(h.weightsId, 8);
  }

  lemma Join(f: seq<Byte>, a: nat, b: nat, c: nat)
    requires a <= b <= c <= |f|
    ensures f[a..b] + f[b..c] == f[a..c]
  {
  }

  /** Writing back a header that was read changes no byte, but for the fields changed in between. */
  lemma HeaderBytesKept(f: seq<Byte>, id: nat)
    requires Decode(f).Some?
    ensures Encode(Decode(f).value.(weightsId := id)) == f[..56] + Le(id, 8)
    ensures InRange(Decode(f).value)
  {
    hide Le, UnLe, Cap;
    UnLeRoundTrip(f[8..12]); UnLeRoundTrip(f[12..16]); UnLeRoundTrip(f[16..20]); UnLeRoundTrip(f[20..24]);
    UnLeRoundTrip(f[24..32]); UnLeRoundTrip(f[32..40]); UnLeRoundTrip(f[40..48]);
    UnLeRoundTrip(f[48..52]); UnLeRoundTrip(f[52..56]); UnLeRoundTrip(f[56..64]);
    Join(f, 16, 20, 24); Join(f, 12, 16, 24); Join(f, 8, 12, 24);
    Join(f, 32, 40, 48); Join(f, 24, 32, 48);
    Join(f, 48, 52, 56);
    Join(f, 0, 8, 24); Join(f, 0, 24, 48); Join(f, 0, 48, 56);
    assert f[..8] == f[0..8] && f[..56] == f[0..56];
  }

  // ---- pwrite ------------------------------------------------------------------------

  function Pad(f: seq<Byte>, n: nat): (r: seq<Byte>)
    ensures |r| == if n < |f| then |f| else n
    ensures r[..|f|] == f && forall i | |f| <= i < |r| :: r[i] == 0
  {
    if n < |f| then f else f + seq(n - |f|, _ => 0)
  }

  /** Bytes d at offset `off`; a gap past the old end reads as zeros. */
  function Put(f: seq<Byte>, off: nat, d: seq<Byte>): (r: seq<Byte>)
    ensures |r| == if off + |d| < |f| || d == [] then |f| else off + |d|
    ensures d != [] ==> r[off..off + |d|] == d
  {
    if d == [] then f
    else
      var g := Pad(f, off + |d|);
      g[..off] + d + g[off + |d|..]
  }

  /** A write leaves every other region as it was. */
  lemma PutElsewhere(f: seq<Byte>, off: nat, d: seq<Byte>, a: nat, b: nat)
    requires a <= b <= |f| && (b <= off || off + |d| <= a)
    ensures |Put(f, off, d)| >= b && Put(f, off, d)[a..b] == f[a..b]
  {
    if d != [] {
      var g := Pad(f, off + |d|);
      forall i | a <= i < b
        ensures Put(f, off, d)[i] == f[i]
      {
        assert g[i] == g[..|f|][i];
      }
    }
  }

  // ---- the table's bytes ----------------------------------------------------------------

  function TableBytes(t: seq<nat>): (bs: seq<Byte>)
    ensures |bs| == 8 * |t|
  {
    if t == [] then [] else Le(t[0], 8) + TableBytes(t[1..])
  }

  lemma {:induction false} TableBytesAt(t: seq<nat>, k: nat)
    requires k < |t|
    ensures TableBytes(t)[8 * k..8 * k + 8] == Le(t[k], 8)
  {
    hide Le;
    if k > 0 {
      TableBytesAt(t[1..], k - 1);
      assert TableBytes(t)[8 * k..8 * k + 8] == TableBytes(t[1..])[8 * (k - 1)..8 * (k - 1) + 8];
    }
  }

  /** The n table entries read back from the file at `off`. */
  function ReadTable(f: seq<Byte>, off: nat, n: nat): (t: seq<nat>)
    requires off + 8 * n <= |f|
    ensures |t| == n && forall k | 0 <= k < n :: t[k] == UnLe(f[off + 8 * k..off + 8 * k + 8])
  {
    seq(n, k requires 0 <= k < n => UnLe(f[off + 8 * k..off + 8 * k + 8]))
  }

  lemma FieldRoundTrip(f: seq<Byte>, off: nat, t: seq<nat>, k: nat)
    requires off + 8 * |t| <= |f| && f[off..off + 8 * |t|] == TableBytes(t)
    requires k < |t| && t[k] < Cap(8)
    ensures UnLe(f[off + 8 * k..off + 8 * k + 8]) == t[k]
  {
    hide Le, UnLe, Cap, TableBytes;
    TableBytesAt(t, k);
    Subrange(f, off, off + 8 * |t|, 8 * k, 8 * k + 8);
    LeRoundTrip(t[k], 8);
  }

  lemma TableRoundTrip(f: seq<Byte>, off: nat, t: seq<nat>)
    requires off + 8 * |t| <= |f| && f[off..off + 8 * |t|] == TableBytes(t)
    requires forall k | 0 <= k < |t| :: t[k] < Cap(8)
    ensures ReadTable(f, off, |t|) == t
  {
    hide Le, UnLe, Cap, TableBytes;
    forall k | 0 <= k < |t|
      ensures UnLe(f[off + 8 * k..off + 8 * k + 8]) == t[k]
    {
      FieldRoundTrip(f, off, t, k);
    }
  }
}
