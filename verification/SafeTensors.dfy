/** The consolidated safetensors file: the fetched tensors in a dictionary, written in name order behind a
    JSON header, and read back into a dictionary and widened from BF16. The header's JSON codec is any that
    reads back a dictionary it wrote and ignores trailing spaces. */
module SafeTensors {
  import opened Bytes
  import opened Wrappers

  datatype Blob = Blob(dtype: string, shape: seq<nat>, bytes: seq<Byte>)

  datatype Tensor = Tensor(name: string, dtype: string, shape: seq<nat>, blob: seq<Byte>)

  datatype Meta = Meta(name: string, dtype: string, shape: seq<nat>, start: int, end: int)

  /** A header is a dictionary in the order its names were entered. */
  datatype Codec = Codec(enc: seq<Meta> -> seq<Byte>, dec: seq<Byte> -> Option<seq<Meta>>)

  const SPACE: Byte := 32

  function Spaces(n: nat): (s: seq<Byte>)
    ensures |s| == n && forall i | 0 <= i < n :: s[i] == 32
  {
    seq(n, _ => SPACE)
  }

  /** No name is entered twice. */
  predicate IsDictionary(h: seq<Meta>) { forall i, j | 0 <= i < j < |h| :: h[i].name != h[j].name }

  ghost predicate Sound(c: Codec) {
    forall h: seq<Meta>, n: nat :: IsDictionary(h) ==> c.dec(c.enc(h) + Spaces(n)) == Some(h)
  }

  // ---- the tensors fetched ---------------------------------------------------------------

  const METADATA: string := "__metadata__"

  predicate IsMtp(name: string) { "mtp." <= name }

  /** The last of the first n tensors that has this name. */
  function Last(fetched: seq<Tensor>, n: nat, name: string): (r: Option<Blob>)
    requires n <= |fetched|
    ensures r.Some? <==> exists i :: 0 <= i < n && fetched[i].name == name
    ensures forall i | 0 <= i < n && fetched[i].name == name && (forall j | i < j < n :: fetched[j].name != name) ::
      r == Some(Blob(fetched[i].dtype, fetched[i].shape, fetched[i].blob))
  {
    if n == 0 then None
    else
      var t := fetched[n - 1];
      if t.name == name then Some(Blob(t.dtype, t.shape, t.blob)) else Last(fetched, n - 1, name)
  }

  /** The shards' tensors, shard by shard: the dictionary holds the MTP tensors, a later one of a name for the
      earlier. */
  method Collect(fetched: seq<Tensor>) returns (tensors: map<string, Blob>)
    ensures forall n :: n in tensors <==>
      |n| >= 4 && n[..4] == "mtp." && exists i :: 0 <= i < |fetched| && fetched[i].name == n
    ensures forall i | 0 <= i < |fetched| && fetched[i].name in tensors
                       && (forall j | i < j < |fetched| :: fetched[j].name != fetched[i].name) ::
      tensors[fetched[i].name] == Blob(fetched[i].dtype, fetched[i].shape, fetched[i].blob)
    ensures METADATA !in tensors
  {
    tensors := map[];
    assert !IsMtp(METADATA) by { assert METADATA[0] != "mtp."[0]; }
    for i := 0 to |fetched|
      invariant forall n :: n in tensors <==> IsMtp(n) && Last(fetched, i, n).Some?
      invariant forall n | n in tensors :: Last(fetched, i, n) == Some(tensors[n])
    {
      var t := fetched[i];
      if t.name == METADATA || !IsMtp(t.name) { continue; }
      tensors := tensors[t.name := Blob(t.dtype, t.shape, t.blob)];
    }
    forall n: string ensures IsMtp(n) <==> |n| >= 4 && n[..4] == "mtp." {}
  }

  // ---- name order ------------------------------------------------------------------------

  /** String order: the first different character decides, and a proper prefix comes first. */
  predicate Before(a: string, b: string) {
    b != [] && (a == [] || a[0] < b[0] || (a[0] == b[0] && Before(a[1..], b[1..])))
  }

  /** One string comes before another where, after equal beginnings, it ends or has the smaller character. */
  lemma {:induction false} BeforeExactly(a: string, b: string)
    ensures Before(a, b) <==>
      exists i: nat :: i <= |a| && i < |b| && a[..i] == b[..i] && (i == |a| || a[i] < b[i])
  {
    if b != [] && a != [] && a[0] == b[0] {
      BeforeExactly(a[1..], b[1..]);
      if Before(a, b) {
        var u, v := a[1..], b[1..];
        var i: nat :| i <= |u| && i < |v| && u[..i] == v[..i] && (i == |u| || u[i] < v[i]);
        assert a[..i + 1] == [a[0]] + u[..i] && b[..i + 1] == [b[0]] + v[..i];
      }
      forall i: nat | i <= |a| && i < |b| && a[..i] == b[..i] && (i == |a| || a[i] < b[i]) ensures Before(a, b) {
        if i > 0 { assert a[1..][..i - 1] == a[..i][1..] && b[1..][..i - 1] == b[..i][1..]; }
      }
    } else if b != [] {
      assert a[..0] == b[..0];
      forall i | 0 < i <= |a| && i < |b| ensures a[..i] != b[..i] {
        assert a[..i][0] == a[0] && b[..i][0] == b[0];
      }
    }
  }

  lemma {:induction false} BeforeTotal(a: string, b: string)
    ensures a == b || Before(a, b) || Before(b, a)
    ensures !(Before(a, b) && Before(b, a)) && !Before(a, a)
  {
    if a != [] && b != [] && a[0] == b[0] { BeforeTotal(a[1..], b[1..]); }
    if a != [] { BeforeTotal(a[1..], a[1..]); }
  }

  lemma {:induction false} BeforeTransitive(a: string, b: string, c: string)
    requires Before(a, b) && Before(b, c)
    ensures Before(a, c)
  {
    if a != [] && a[0] == b[0] == c[0] { BeforeTransitive(a[1..], b[1..], c[1..]); }
  }

  predicate IsFirst(s: set<string>, x: string) { x in s && forall y | y in s && y != x :: Before(x, y) }

  lemma {:induction false} FirstExists(s: set<string>)
    requires s != {}
    ensures exists x :: IsFirst(s, x)
  {
    var z :| z in s;
    if s == {z} {
      assert IsFirst(s, z);
    } else {
      FirstExists(s - {z});
      var x :| IsFirst(s - {z}, x);
      BeforeTotal(x, z);
      forall y | y in s && Before(z, x) && Before(x, y) ensures Before(z, y) { BeforeTransitive(z, x, y); }
      assert IsFirst(s, if Before(x, z) then x else z);
    }
  }

  lemma FirstUnique(s: set<string>, x: string, y: string)
    requires IsFirst(s, x) && IsFirst(s, y)
    ensures x == y
  {
    BeforeTotal(x, y);
  }

  predicate Sorted(xs: seq<string>) { forall i, j | 0 <= i < j < |xs| :: Before(xs[i], xs[j]) }

  /** The names in order. */
  function SortedNames(s: set<string>): (r: seq<string>)
    ensures Sorted(r) && |r| == |s| && forall x :: x in r <==> x in s
  {
    if s == {} then []
    else
      FirstExists(s);
      assert forall x, y | IsFirst(s, x) && IsFirst(s, y) :: x == y by {
        forall x, y | IsFirst(s, x) && IsFirst(s, y) ensures x == y { FirstUnique(s, x, y); }
      }
      var x :| IsFirst(s, x);
      [x] + SortedNames(s - {x})
  }

  function ItemOf(tensors: map<string, Blob>, n: string): Tensor
    requires n in tensors
  {
    var b := tensors[n];
    Tensor(n, b.dtype, b.shape, b.bytes)
  }

  function ItemsNamed(tensors: map<string, Blob>, ns: seq<string>): (ts: seq<Tensor>)
    requires forall n | n in ns :: n in tensors
    ensures |ts| == |ns| && forall i | 0 <= i < |ns| :: ts[i] == ItemOf(tensors, ns[i])
  {
    if ns == [] then [] else [ItemOf(tensors, ns[0])] + ItemsNamed(tensors, ns[1..])
  }

  /** The sorted items of the dictionary. */
  function Items(tensors: map<string, Blob>): seq<Tensor> {
    ItemsNamed(tensors, SortedNames(tensors.Keys))
  }

  predicate DistinctNames(ts: seq<Tensor>) { forall i, j | 0 <= i < j < |ts| :: ts[i].name != ts[j].name }

  predicate InNameOrder(ts: seq<Tensor>) { forall i, j | 0 <= i < j < |ts| :: Before(ts[i].name, ts[j].name) }

  /** Some tensor of the first n has this name. */
  predicate Named(ts: seq<Tensor>, n: nat, name: string)
    requires n <= |ts|
  {
    exists i :: 0 <= i < n && ts[i].name == name
  }

  /** The dictionary's entries, each once. */
  ghost predicate AreItems(tensors: map<string, Blob>, ts: seq<Tensor>) {
    && |ts| == |tensors| && DistinctNames(ts)
    && (forall i | 0 <= i < |ts| :: ts[i].name in tensors && ts[i] == ItemOf(tensors, ts[i].name))
    && forall n :: n in tensors <==> Named(ts, |ts|, n)
  }

  lemma ItemsInOrder(tensors: map<string, Blob>, ns: seq<string>)
    requires Sorted(ns) && forall n | n in ns :: n in tensors
    ensures var ts := ItemsNamed(tensors, ns); InNameOrder(ts) && DistinctNames(ts)
  {
    hide Before;
    var ts := ItemsNamed(tensors, ns);
    forall i, j | 0 <= i < j < |ts| ensures Before(ts[i].name, ts[j].name) && ts[i].name != ts[j].name {
      BeforeTotal(ns[i], ns[j]);
    }
  }

  /** The items are the dictionary's entries, each once, in strict name order. */
  lemma ItemsAre(tensors: map<string, Blob>)
    ensures AreItems(tensors, Items(tensors)) && InNameOrder(Items(tensors))
  {
    hide Before, Sorted, Named, DistinctNames, InNameOrder;
    var ns, ts := SortedNames(tensors.Keys), Items(tensors);
    assert |ns| == |tensors.Keys| == |tensors|;
    ItemsInOrder(tensors, ns);
    forall n ensures n in tensors <==> Named(ts, |ts|, n) { NameFound(tensors, ns, n); }
    forall i | 0 <= i < |ts| ensures ts[i].name in tensors && ts[i] == ItemOf(tensors, ts[i].name) {
      assert ns[i] in ns;
    }
  }

  lemma NameFound(tensors: map<string, Blob>, ns: seq<string>, n: string)
    requires forall x :: x in ns <==> x in tensors
    ensures var ts := ItemsNamed(tensors, ns); n in tensors <==> Named(ts, |ts|, n)
  {
    var ts := ItemsNamed(tensors, ns);
    if n in tensors {
      var i :| 0 <= i < |ns| && ns[i] == n;
      assert ts[i].name == n;
    }
  }

  // ---- the layout ---------------------------------------------------------------------

  /** The bytes of the first n blobs. */
  function Offset(ts: seq<Tensor>, n: nat): nat
    requires n <= |ts|
  {
    if n == 0 then 0 else Offset(ts, n - 1) + |ts[n - 1].blob|
  }

  /** The header's entry for tensor i. */
  function MetaOf(ts: seq<Tensor>, i: nat): Meta
    requires i < |ts|
  {
    Meta(ts[i].name, ts[i].dtype, ts[i].shape, Offset(ts, i), Offset(ts, i + 1))
  }

  function HeaderOf(ts: seq<Tensor>): (h: seq<Meta>)
    ensures |h| == |ts| && forall i | 0 <= i < |ts| :: h[i] == MetaOf(ts, i)
  {
    seq(|ts|, i requires 0 <= i < |ts| => MetaOf(ts, i))
  }

  /** The first entry starts at 0, every other where the one before it ends, and each is as long as its blob. */
  lemma EntriesFollow(ts: seq<Tensor>, i: nat)
    requires i < |ts|
    ensures var h := HeaderOf(ts);
      && |h| == |ts| && h[i].start == (if i == 0 then 0 else h[i - 1].end) && h[i].end == h[i].start + |ts[i].blob|
      && h[i].name == ts[i].name && h[i].dtype == ts[i].dtype && h[i].shape == ts[i].shape
  {
  }

  function Data(ts: seq<Tensor>, n: nat): (d: seq<Byte>)
    requires n <= |ts|
    ensures |d| == Offset(ts, n)
  {
    if n == 0 then [] else Data(ts, n - 1) + ts[n - 1].blob
  }

  /** The spaces that bring the header to a multiple of 8 bytes. */
  function Padding(n: nat): (p: nat)
    ensures p < 8 && (n + p) % 8 == 0
  {
    (8 - n % 8) % 8
  }

  /** A file of these tensors: header length, padded header, blobs. */
  function FileOf(ts: seq<Tensor>, c: Codec): seq<Byte> {
    var h := c.enc(HeaderOf(ts));
    Le(|h| + Padding(|h|), 8) + (h + Spaces(Padding(|h|))) + Data(ts, |ts|)
  }

  /** The dictionary's file holds its items in name order. */
  method WriteFile(tensors: map<string, Blob>, c: Codec) returns (file: seq<Byte>)
    ensures file == FileOf(Items(tensors), c)
  {
    hide Items;
    var ts := Items(tensors);
    var header: seq<Meta> := [];
    var off := 0;
    for i := 0 to |ts|
      invariant header == HeaderOf(ts)[..i] && off == Offset(ts, i)
    {
      header := header + [Meta(ts[i].name, ts[i].dtype, ts[i].shape, off, off + |ts[i].blob|)];
      off := off + |ts[i].blob|;
    }
    assert header == HeaderOf(ts);
    var h := c.enc(header);
    h := h + Spaces((8 - |h| % 8) % 8);
    file := Le(|h|, 8) + h;
    ghost var head := file;
    for i := 0 to |ts|
      invariant file == head + Data(ts, i)
    {
      file := file + ts[i].blob;
    }
  }

  // ---- the offsets tile the data area ---------------------------------------------------

  lemma {:induction false} OffsetMonotone(ts: seq<Tensor>, i: nat, j: nat)
    requires i <= j <= |ts|
    ensures Offset(ts, i) <= Offset(ts, j)
    decreases j
  {
    if i < j { OffsetMonotone(ts, i, j - 1); }
  }

  /** Tensor i's range holds byte x of the data area. */
  predicate InRange(ts: seq<Tensor>, i: nat, x: nat)
    requires i < |ts|
  {
    Offset(ts, i) <= x < Offset(ts, i + 1)
  }

  /** No byte lies in two ranges. */
  lemma OneRange(ts: seq<Tensor>, i: nat, j: nat, x: nat)
    requires i < |ts| && j < |ts| && InRange(ts, i, x) && InRange(ts, j, x)
    ensures i == j
  {
    hide Offset;
    if i < j { OffsetMonotone(ts, i + 1, j); } else if j < i { OffsetMonotone(ts, j + 1, i); }
  }

  /** Every byte of the data area lies in some range: the ranges tile it. */
  lemma {:induction false} OffsetsTile(ts: seq<Tensor>, n: nat, x: nat)
    requires n <= |ts| && x < Offset(ts, n)
    ensures exists i :: 0 <= i < n && InRange(ts, i, x)
  {
    if x >= Offset(ts, n - 1) {
      assert InRange(ts, n - 1, x);
    } else {
      OffsetsTile(ts, n - 1, x);
    }
  }

  lemma {:induction false} DataHolds(ts: seq<Tensor>, n: nat, i: nat)
    requires i < n <= |ts|
    ensures Offset(ts, i) <= Offset(ts, i + 1) <= Offset(ts, n)
    ensures Data(ts, n)[Offset(ts, i)..Offset(ts, i + 1)] == ts[i].blob
    decreases n
  {
    if i < n - 1 {
      DataHolds(ts, n - 1, i);
      assert Data(ts, n)[Offset(ts, i)..Offset(ts, i + 1)] == Data(ts, n - 1)[Offset(ts, i)..Offset(ts, i + 1)];
    }
  }

  // ---- the reader -----------------------------------------------------------------------

  /** A seek and a read: past the end it is short, and a negative length reads to the end. */
  function ReadAt(file: seq<Byte>, at: int, len: int): seq<Byte> {
    if at < 0 || at >= |file| then []
    else if len < 0 || at + len > |file| then file[at..]
    else file[at..at + len]
  }

  /** A 16-bit word as the high half of a 32-bit float's bits. */
  function High16(lo: Byte, hi: Byte): nat { (lo as int + 256 * hi as int) * 65536 }

  /** Pairs of bytes as 16-bit words, each shifted up into a 32-bit float's bits. */
  function Widen(raw: seq<Byte>): (ws: seq<nat>)
    requires |raw| % 2 == 0
    ensures |ws| == |raw| / 2
    ensures forall i | 0 <= i < |ws| :: ws[i] == High16(raw[2 * i], raw[2 * i + 1])
  {
    seq(|raw| / 2, i requires 0 <= i < |raw| / 2 => High16(raw[2 * i], raw[2 * i + 1]))
  }

  /** A widened word holds its two bytes, low byte first, as the high half of 32 bits. */
  lemma WidenedWord(raw: seq<Byte>, i: nat)
    requires |raw| % 2 == 0 && i < |raw| / 2
    ensures Widen(raw)[i] == UnLe(raw[2 * i..2 * i + 2]) * 65536
  {
    var s := raw[2 * i..2 * i + 2];
    assert s == [raw[2 * i], raw[2 * i + 1]] && s[1..] == [raw[2 * i + 1]] && s[1..][1..] == [];
    assert UnLe(s) == s[0] + 256 * UnLe(s[1..]) && UnLe(s[1..]) == s[1] + 256 * UnLe([]);
  }

  /** Widening loses nothing. */
  lemma WidenInjective(a: seq<Byte>, b: seq<Byte>)
    requires |a| % 2 == 0 && |b| % 2 == 0 && Widen(a) == Widen(b)
    ensures a == b
  {
    assert |a| == 2 * |Widen(a)| == |b|;
    forall k | 0 <= k < |a|
      ensures a[k] == b[k]
    {
      var i := k / 2;
      assert Widen(a)[i] == Widen(b)[i];
      Halves(a[2 * i], a[2 * i + 1], b[2 * i], b[2 * i + 1]);
      assert k == 2 * i || k == 2 * i + 1;
    }
  }

  lemma Halves(a0: Byte, a1: Byte, b0: Byte, b1: Byte)
    requires High16(a0, a1) == High16(b0, b1)
    ensures a0 == b0 && a1 == b1
  {
  }

  function Elements(shape: seq<nat>): nat { if shape == [] then 1 else shape[0] * Elements(shape[1..]) }

  /** A shape's elements are the product of its dimensions. */
  lemma {:induction false} ElementsProduct(a: seq<nat>, b: seq<nat>, n: nat)
    ensures Elements(a + b) == Elements(a) * Elements(b)
    ensures Elements([]) == 1 && Elements([n]) == n
  {
    assert [n][1..] == [];
    if a == [] {
      assert a + b == b;
    } else {
      assert (a + b)[1..] == a[1..] + b;
      ElementsProduct(a[1..], b, n);
      Associate(a[0], Elements(a[1..]), Elements(b));
    }
  }

  lemma Associate(a: nat, b: nat, c: nat)
    ensures a * (b * c) == a * b * c
  {
  }

  datatype Loaded = Loaded(shape: seq<nat>, words: seq<nat>)

  /** A tensor that is not BF16, or whose bytes do not fill its shape, is an error. */
  function LoadOne(file: seq<Byte>, data0: nat, m: Meta): Option<Loaded> {
    var raw := ReadAt(file, data0 + m.start, m.end - m.start);
    if m.dtype != "BF16" || |raw| % 2 != 0 || Elements(m.shape) != |raw| / 2 then None
    else Some(Loaded(m.shape, Widen(raw)))
  }

  /** The first n header entries, loaded. */
  function LoadAll(file: seq<Byte>, data0: nat, h: seq<Meta>, n: nat): Option<map<string, Loaded>>
    requires n <= |h|
  {
    if n == 0 then Some(map[])
    else
      match LoadAll(file, data0, h, n - 1)
      case None => None
      case Some(ls) =>
        if h[n - 1].name == METADATA then Some(ls)
        else match LoadOne(file, data0, h[n - 1]) case None => None case Some(l) => Some(ls[h[n - 1].name := l])
  }

  function LoadSpec(file: seq<Byte>, c: Codec): Option<map<string, Loaded>> {
    if |file| < 8 then None
    else
      var n := UnLe(file[..8]);
      match c.dec(ReadAt(file, 8, n))
      case None => None
      case Some(h) => LoadAll(file, 8 + n, h, |h|)
  }

  /** A file loads exactly when it holds a header length, the header decodes, and every tensor's bytes are BF16 and fill
      its shape. */
  lemma {:induction false} LoadsExactly(file: seq<Byte>, data0: nat, h: seq<Meta>, n: nat)
    requires n <= |h|
    ensures LoadAll(file, data0, h, n).Some? <==> forall i | 0 <= i < n && h[i].name != "__metadata__" ::
      var raw := ReadAt(file, data0 + h[i].start, h[i].end - h[i].start);
      h[i].dtype == "BF16" && |raw| % 2 == 0 && Elements(h[i].shape) == |raw| / 2
  {
    hide ReadAt, Elements, Widen;
    if n > 0 { LoadsExactly(file, data0, h, n - 1); }
  }

  /** The reader, tensor by tensor. */
  method Load(file: seq<Byte>, c: Codec) returns (r: Option<map<string, Loaded>>)
    ensures r == LoadSpec(file, c)
    ensures |file| < 8 ==> r == None
    ensures |file| >= 8 ==>
      var dec := c.dec(ReadAt(file, 8, UnLe(file[..8])));
      (dec == None ==> r == None) && (dec == Some([]) ==> r == Some(map[]))
  {
    hide LoadOne;
    if |file| < 8 { return None; }
    var n := UnLe(file[..8]);
    var dec := c.dec(ReadAt(file, 8, n));
    if dec.None? { return None; }
    var hdr, data0 := dec.value, 8 + n;
    var out: map<string, Loaded> := map[];
    for i := 0 to |hdr|
      invariant LoadAll(file, data0, hdr, i) == Some(out)
    {
      if hdr[i].name == METADATA { continue; }
      var l := LoadOne(file, data0, hdr[i]);
      if l.None? {
        StaysNone(file, data0, hdr, i + 1, |hdr|);
        return None;
      }
      out := out[hdr[i].name := l.value];
    }
    return Some(out);
  }

  lemma {:induction false} StaysNone(file: seq<Byte>, data0: nat, h: seq<Meta>, m: nat, n: nat)
    requires m <= n <= |h| && LoadAll(file, data0, h, m) == None
    ensures LoadAll(file, data0, h, n) == None
    decreases n
  {
    hide LoadOne;
    if m < n { StaysNone(file, data0, h, m, n - 1); }
  }

  // ---- the round trip ------------------------------------------------------------------

  /** A tensor the reader takes. */
  predicate Readable(t: Tensor) { t.dtype == "BF16" && |t.blob| % 2 == 0 && Elements(t.shape) == |t.blob| / 2 }

  function LoadedOf(t: Tensor): Loaded
    requires Readable(t)
  {
    Loaded(t.shape, Widen(t.blob))
  }

  ghost predicate Writable(ts: seq<Tensor>, c: Codec) {
    && Sound(c) && |c.enc(HeaderOf(ts))| + 8 <= Cap(8)
    && DistinctNames(ts)
    && forall i | 0 <= i < |ts| :: ts[i].name != METADATA
  }

  lemma FileParts(ts: seq<Tensor>, c: Codec)
    requires |c.enc(HeaderOf(ts))| + 8 <= Cap(8)
    ensures var f, h := FileOf(ts, c), c.enc(HeaderOf(ts));
      var n := |h| + Padding(|h|);
      && n % 8 == 0 && |f| == 8 + n + Offset(ts, |ts|)
      && f[..8] == Le(n, 8) && UnLe(f[..8]) == n
      && f[8..8 + n] == h + Spaces(Padding(|h|)) && f[8 + n..] == Data(ts, |ts|)
  {
    hide Le, UnLe, Cap;
    var f, h := FileOf(ts, c), c.enc(HeaderOf(ts));
    var n := |h| + Padding(|h|);
    LeRoundTrip(n, 8);
    assert f[..8] == Le(n, 8);
  }

  lemma OffsetNext(ts: seq<Tensor>, i: nat)
    requires i < |ts|
    ensures Offset(ts, i + 1) == Offset(ts, i) + |ts[i].blob|
  {
  }

  lemma SliceOfTail(f: seq<Byte>, d0: nat, a: nat, b: nat)
    requires d0 <= |f| && a <= b <= |f| - d0
    ensures f[d0..][a..b] == f[d0 + a..d0 + b]
  {
  }

  lemma ReadExact(f: seq<Byte>, at: nat, len: nat)
    requires at + len <= |f|
    ensures ReadAt(f, at, len) == f[at..at + len]
  {
    if at == |f| { assert f[at..at + len] == []; }
  }

  /** Reading blob i's range gives blob i, byte for byte. */
  lemma BlobRead(ts: seq<Tensor>, c: Codec, i: nat)
    requires Writable(ts, c) && i < |ts|
    ensures var h := c.enc(HeaderOf(ts));
      ReadAt(FileOf(ts, c), 8 + |h| + Padding(|h|) + Offset(ts, i), |ts[i].blob|) == ts[i].blob
  {
    hide Le, UnLe, Cap, FileOf, Data, HeaderOf, ReadAt, Offset, Padding, Spaces, Sound;
    FileParts(ts, c);
    DataHolds(ts, |ts|, i);
    OffsetNext(ts, i);
    var f, h := FileOf(ts, c), c.enc(HeaderOf(ts));
    var d0, a := 8 + |h| + Padding(|h|), Offset(ts, i);
    SliceOfTail(f, d0, a, a + |ts[i].blob|);
    ReadExact(f, d0 + a, |ts[i].blob|);
  }

  lemma LoadsOne(ts: seq<Tensor>, c: Codec, i: nat)
    requires Writable(ts, c) && i < |ts|
    ensures var h := c.enc(HeaderOf(ts));
      LoadOne(FileOf(ts, c), 8 + |h| + Padding(|h|), MetaOf(ts, i))
      == if Readable(ts[i]) then Some(LoadedOf(ts[i])) else None
  {
    hide FileOf, ReadAt, HeaderOf, Offset, Widen, Padding, Writable, Elements;
    BlobRead(ts, c, i);
    OffsetNext(ts, i);
  }

  /** The first n tensors loaded, if all are readable. */
  ghost predicate Loads(ts: seq<Tensor>, r: Option<map<string, Loaded>>, n: nat)
    requires n <= |ts|
  {
    if forall i | 0 <= i < n :: Readable(ts[i]) then
      && r.Some? && (forall name :: name in r.value <==> Named(ts, n, name))
      && forall i | 0 <= i < n :: ts[i].name in r.value && r.value[ts[i].name] == LoadedOf(ts[i])
    else r == None
  }

  lemma LoadsNext(ts: seq<Tensor>, r: Option<map<string, Loaded>>, n: nat)
    requires n < |ts| && DistinctNames(ts) && Loads(ts, r, n)
    ensures r.None? || !Readable(ts[n]) ==> Loads(ts, None, n + 1)
    ensures r.Some? && Readable(ts[n]) ==> Loads(ts, Some(r.value[ts[n].name := LoadedOf(ts[n])]), n + 1)
  {
    hide Readable, LoadedOf;
    if r.Some? && Readable(ts[n]) {
      forall name ensures Named(ts, n + 1, name) <==> Named(ts, n, name) || name == ts[n].name {}
    }
  }

  lemma {:induction false} LoadsAll(ts: seq<Tensor>, c: Codec, n: nat)
    requires Writable(ts, c) && n <= |ts|
    ensures var h := c.enc(HeaderOf(ts));
      Loads(ts, LoadAll(FileOf(ts, c), 8 + |h| + Padding(|h|), HeaderOf(ts), n), n)
  {
    hide FileOf, LoadOne, LoadedOf, Readable, MetaOf, Padding, Sound, Loads, DistinctNames, Cap, HeaderOf;
    if n == 0 {
      LoadsNone(ts);
    } else {
      LoadsAll(ts, c, n - 1);
      LoadsOne(ts, c, n - 1);
      var h := c.enc(HeaderOf(ts));
      LoadsNext(ts, LoadAll(FileOf(ts, c), 8 + |h| + Padding(|h|), HeaderOf(ts), n - 1), n - 1);
      MetaName(ts, n - 1);
    }
  }

  lemma LoadsNone(ts: seq<Tensor>)
    ensures Loads(ts, Some(map[]), 0)
  {
    forall name ensures !Named(ts, 0, name) {}
  }

  lemma MetaName(ts: seq<Tensor>, i: nat)
    requires i < |ts|
    ensures HeaderOf(ts)[i] == MetaOf(ts, i) && HeaderOf(ts)[i].name == ts[i].name
  {
  }

  lemma HeaderIsDictionary(ts: seq<Tensor>)
    requires DistinctNames(ts)
    ensures IsDictionary(HeaderOf(ts))
  {
  }

  lemma ReadsBack(ts: seq<Tensor>, c: Codec)
    requires Writable(ts, c)
    ensures Loads(ts, LoadSpec(FileOf(ts, c), c), |ts|)
  {
    hide Le, UnLe, Cap, FileOf, Data, LoadAll, HeaderOf, ReadAt, Loads, Padding, DistinctNames, IsDictionary;
    FileParts(ts, c);
    HeaderIsDictionary(ts);
    var f, h := FileOf(ts, c), c.enc(HeaderOf(ts));
    ReadExact(f, 8, |h| + Padding(|h|));
    LoadsAll(ts, c, |ts|);
  }

  predicate ReadableBlob(b: Blob) {
    b.dtype == "BF16" && |b.bytes| % 2 == 0 && Elements(b.shape) == |b.bytes| / 2
  }

  function LoadedBlob(b: Blob): Loaded
    requires ReadableBlob(b)
  {
    Loaded(b.shape, Widen(b.bytes))
  }

  lemma LoadedMap(tensors: map<string, Blob>, r: map<string, Loaded>)
    requires forall n :: n in r <==> n in tensors
    requires forall n | n in tensors :: ReadableBlob(tensors[n]) && r[n] == LoadedBlob(tensors[n])
    ensures r == map n | n in tensors :: LoadedBlob(tensors[n])
  {
    hide ReadableBlob, LoadedBlob;
  }

  /** What a reader of every item has, as a dictionary. */
  lemma LoadsDictionary(tensors: map<string, Blob>, ts: seq<Tensor>, r: Option<map<string, Loaded>>)
    requires AreItems(tensors, ts) && Loads(ts, r, |ts|)
    ensures r == if forall n | n in tensors :: ReadableBlob(tensors[n])
                 then Some(map n | n in tensors :: LoadedBlob(tensors[n])) else None
  {
    hide Widen, Elements;
    if forall n | n in tensors :: ReadableBlob(tensors[n]) {
      assert forall i | 0 <= i < |ts| :: Readable(ts[i]);
      forall n | n in tensors ensures r.value[n] == LoadedBlob(tensors[n]) {
        var i :| 0 <= i < |ts| && ts[i].name == n;
      }
      LoadedMap(tensors, r.value);
    } else {
      var n :| n in tensors && !ReadableBlob(tensors[n]);
      var i :| 0 <= i < |ts| && ts[i].name == n;
      assert !Readable(ts[i]);
    }
  }

  /** Every dictionary of tensors is written so that it reads back with each blob widened and nothing else; the
      read fails exactly when some tensor is not BF16 or does not fill its shape. */
  lemma FileRoundTrip(tensors: map<string, Blob>, c: Codec)
    requires Sound(c) && |c.enc(HeaderOf(Items(tensors)))| + 8 <= Cap(8) && METADATA !in tensors
    ensures LoadSpec(FileOf(Items(tensors), c), c)
      == if forall n | n in tensors :: ReadableBlob(tensors[n])
         then Some(map n | n in tensors :: LoadedBlob(tensors[n])) else None
  {
    hide Sound, Cap, HeaderOf, LoadSpec, FileOf, Loads, ReadableBlob, Items;
    var ts := Items(tensors);
    ItemsAre(tensors);
    ReadsBack(ts, c);
    LoadsDictionary(tensors, ts, LoadSpec(FileOf(ts, c), c));
  }

  /** The data starts at a multiple of 8. */
  lemma HeaderAligned(tensors: map<string, Blob>, c: Codec)
    requires |c.enc(HeaderOf(Items(tensors)))| + 8 <= Cap(8)
    ensures UnLe(FileOf(Items(tensors), c)[..8]) % 8 == 0
  {
    hide *;
    var ts := Items(tensors);
    FileParts(ts, c);
  }
}
