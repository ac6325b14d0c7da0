/** The divergence monitor: per-buffer word hashes of each chain, folded into one, and the
    search for the first buffer whose hash differs from chain A's. */
module Divergence {
  import opened Wrappers

  // ---- one hash step is a bijection ---------------------------------------------------

  const SEED: bv64 := 0xcbf29ce484222325

  function Scale(x: bv64): bv64 { x * 0x100000001b3 }

  /** 0xce965057aff6957b is the inverse of 0x100000001b3 modulo 2^64. */
  function Unscale(x: bv64): bv64 { x * 0xce965057aff6957b }

  lemma UnscaleProduct(x: bv64)
    ensures Unscale(x * 0x100000001b3) == x
  {
  }

  lemma ScaleProduct(x: bv64)
    ensures Scale(x * 0xce965057aff6957b) == x
  {
  }

  lemma ScaleUndone(x: bv64)
    ensures Unscale(Scale(x)) == x
  {
    hide Unscale;
    UnscaleProduct(x);
  }

  lemma UnscaleUndone(x: bv64)
    ensures Scale(Unscale(x)) == x
  {
    hide Scale;
    ScaleProduct(x);
  }

  /** The multiplication is a bijection, and this is its inverse on both sides. */
  lemma UnscaleScale(x: bv64)
    ensures Unscale(Scale(x)) == x && Scale(Unscale(x)) == x
  {
    hide Scale, Unscale;
    ScaleUndone(x);
    UnscaleUndone(x);
  }

  function Mix(h: bv64, w: bv64): bv64 { Scale(h ^ w) }

  /** A step is an exclusive or, then the multiplication. */
  lemma MixIs(h: bv64, w: bv64)
    ensures Mix(h, w) == Scale(h ^ w) && Unscale(Mix(h, w)) == h ^ w
  {
    hide Scale, Unscale;
    UnscaleScale(h ^ w);
  }

  /** A step loses neither its word nor the hash before it: each is recovered from the result and the other. */
  lemma MixInverse(h: bv64, w: bv64)
    ensures Unscale(Mix(h, w)) ^ w == h && Unscale(Mix(h, w)) ^ h == w
  {
    hide Scale, Unscale;
    UnscaleScale(h ^ w);
  }

  lemma MixKeepsWords(h: bv64, u: bv64, v: bv64)
    requires u != v
    ensures Mix(h, u) != Mix(h, v)
  {
    hide Mix, Unscale;
    MixInverse(h, u);
    MixInverse(h, v);
  }

  lemma MixKeepsHashes(g: bv64, h: bv64, w: bv64)
    requires g != h
    ensures Mix(g, w) != Mix(h, w)
  {
    hide Mix, Unscale;
    MixInverse(g, w);
    MixInverse(h, w);
  }

  function Fold(h: bv64, ws: seq<bv64>): bv64 {
    if ws == [] then h else Mix(Fold(h, ws[..|ws| - 1]), ws[|ws| - 1])
  }

  lemma {:induction false} FoldAppend(h: bv64, us: seq<bv64>, vs: seq<bv64>)
    ensures Fold(h, us + vs) == Fold(Fold(h, us), vs)
  {
    hide Scale;
    if vs == [] {
      assert us + vs == us;
    } else {
      FoldAppend(h, us, vs[..|vs| - 1]);
      assert (us + vs)[..|us + vs| - 1] == us + vs[..|vs| - 1];
    }
  }

  /** Equal words keep different hashes apart. */
  lemma {:induction false} FoldInjective(g: bv64, h: bv64, ws: seq<bv64>)
    requires g != h
    ensures Fold(g, ws) != Fold(h, ws)
  {
    hide Mix, Unscale;
    if ws != [] {
      FoldInjective(g, h, ws[..|ws| - 1]);
      MixKeepsHashes(Fold(g, ws[..|ws| - 1]), Fold(h, ws[..|ws| - 1]), ws[|ws| - 1]);
    }
  }

  /** The two sequences differ at position i and nowhere else. */
  ghost predicate OnlyAt<T>(us: seq<T>, vs: seq<T>, i: nat) {
    |us| == |vs| && i < |us| && us[i] != vs[i] && forall j | 0 <= j < |us| && j != i :: us[j] == vs[j]
  }

  /** Changing one word always changes the hash. */
  lemma OneWordChanges(h: bv64, us: seq<bv64>, vs: seq<bv64>, i: nat)
    requires OnlyAt(us, vs, i)
    ensures Fold(h, us) != Fold(h, vs)
  {
    hide Mix, Fold;
    var pre, post := us[..i], us[i + 1..];
    assert us == pre + [us[i]] + post && vs == pre + [vs[i]] + post;
    FoldAppend(h, pre + [us[i]], post);
    FoldAppend(h, pre + [vs[i]], post);
    FoldLast(h, pre, us[i]);
    FoldLast(h, pre, vs[i]);
    MixKeepsWords(Fold(h, pre), us[i], vs[i]);
    FoldInjective(Mix(Fold(h, pre), us[i]), Mix(Fold(h, pre), vs[i]), post);
  }

  lemma FoldLast(h: bv64, ws: seq<bv64>, w: bv64)
    ensures Fold(h, ws + [w]) == Mix(Fold(h, ws), w)
  {
    hide Mix;
    assert (ws + [w])[..|ws|] == ws;
  }

  /** Two changed words may cancel: after any first change exactly one second word restores the hash, and it is not
      the word that was there. */
  lemma TwoWordsCanCancel(h: bv64, u: bv64, v: bv64, x: bv64, y: bv64)
    ensures Fold(h, [u, x]) == Fold(h, [v, y]) <==> y == Cancelling(Mix(h, u), Mix(h, v), x)
    ensures u != v ==> Cancelling(Mix(h, u), Mix(h, v), x) != x
  {
    hide Mix, Fold, Cancelling;
    var z := Cancelling(Mix(h, u), Mix(h, v), x);
    FoldPair(h, u, x);
    FoldPair(h, v, y);
    Cancels(Mix(h, u), Mix(h, v), x);
    if y != z { MixKeepsWords(Mix(h, v), y, z); }
    if u != v {
      MixKeepsWords(h, u, v);
      CancellingMoves(Mix(h, u), Mix(h, v), x);
    }
  }

  lemma CancellingMoves(a: bv64, b: bv64, x: bv64)
    requires a != b
    ensures Cancelling(a, b, x) != x
  {
  }

  function Cancelling(a: bv64, b: bv64, x: bv64): bv64 { a ^ b ^ x }

  lemma Cancels(a: bv64, b: bv64, x: bv64)
    ensures Mix(b, Cancelling(a, b, x)) == Mix(a, x)
  {
    hide Scale;
    assert b ^ (a ^ b ^ x) == a ^ x;
  }

  lemma FoldPair(h: bv64, u: bv64, x: bv64)
    ensures Fold(h, [u, x]) == Mix(Mix(h, u), x)
  {
    hide Mix;
    FoldLast(h, [u], x);
    FoldLast(h, [], u);
    assert [] + [u] == [u] && [u] + [x] == [u, x];
  }

  // ---- the words of a buffer ----------------------------------------------------------

  function Widen(b: bv8): bv64 { b as bv64 }

  /** Eight bytes as one little-endian word. */
  function Word(b: seq<bv8>): bv64
    requires |b| == 8
  {
    (b[0] as bv64) | (b[1] as bv64 << 8) | (b[2] as bv64 << 16) | (b[3] as bv64 << 24)
    | (b[4] as bv64 << 32) | (b[5] as bv64 << 40) | (b[6] as bv64 << 48) | (b[7] as bv64 << 56)
  }

  lemma WordInjective(a: seq<bv8>, b: seq<bv8>)
    requires |a| == |b| == 8 && Word(a) == Word(b)
    ensures a == b
  {
  }

  /** Byte i of the buffer is bits 8i to 8i + 7 of the word, and a tail byte is its own low bits. */
  lemma WordBytes(b: seq<bv8>, x: bv8)
    requires |b| == 8
    ensures var w := Word(b);
      && w & 0xff == b[0] as bv64 && (w >> 8) & 0xff == b[1] as bv64
      && (w >> 16) & 0xff == b[2] as bv64 && (w >> 24) & 0xff == b[3] as bv64
      && (w >> 32) & 0xff == b[4] as bv64 && (w >> 40) & 0xff == b[5] as bv64
      && (w >> 48) & 0xff == b[6] as bv64 && w >> 56 == b[7] as bv64
    ensures Widen(x) & 0xff == x as bv64 && Widen(x) >> 8 == 0
  {
  }

  /** The first n words of a buffer. */
  function Words(bytes: seq<bv8>, n: nat): (ws: seq<bv64>)
    requires 8 * n <= |bytes|
    ensures |ws| == n
  {
    seq(n, i requires 0 <= i < n => Word(bytes[8 * i..8 * i + 8]))
  }

  /** The bytes past the last whole word, each hashed on its own. */
  function Tail(bytes: seq<bv8>): (ws: seq<bv64>)
    ensures |ws| == |bytes| % 8
  {
    var n := |bytes| / 8 * 8;
    seq(|bytes| - n, i requires 0 <= i < |bytes| - n => Widen(bytes[n + i]))
  }

  function Units(bytes: seq<bv8>): (ws: seq<bv64>)
    ensures |ws| == |bytes| / 8 + |bytes| % 8
  {
    Words(bytes, |bytes| / 8) + Tail(bytes)
  }

  /** The unit byte i is hashed in. */
  function UnitOf(n: nat, i: nat): nat
    requires i < n
  {
    if i / 8 < n / 8 then i / 8 else n / 8 + (i - n / 8 * 8)
  }

  /** Two buffers of one size that differ, and only within the bytes of unit k. */
  ghost predicate OnlyInUnit(a: seq<bv8>, b: seq<bv8>, k: nat) {
    |a| == |b| && a != b && forall i | 0 <= i < |a| && a[i] != b[i] :: UnitOf(|a|, i) == k
  }

  lemma UnitAt(a: seq<bv8>, j: nat)
    requires j < |a| / 8 + |a| % 8
    ensures Units(a)[j] == if j < |a| / 8 then Word(a[8 * j..8 * j + 8]) else Widen(a[8 * (|a| / 8) + (j - |a| / 8)])
  {
    hide Word, Widen;
  }

  lemma UnitKept(a: seq<bv8>, b: seq<bv8>, k: nat, j: nat)
    requires OnlyInUnit(a, b, k) && j < |a| / 8 + |a| % 8 && j != k
    ensures Units(a)[j] == Units(b)[j]
  {
    hide Word, Widen, Units;
    UnitAt(a, j);
    UnitAt(b, j);
    if j < |a| / 8 { assert a[8 * j..8 * j + 8] == b[8 * j..8 * j + 8]; }
  }

  lemma UnitChanged(a: seq<bv8>, b: seq<bv8>, k: nat)
    requires OnlyInUnit(a, b, k)
    ensures k < |a| / 8 + |a| % 8 && Units(a)[k] != Units(b)[k]
  {
    hide Word, Widen, Units;
    var i :| 0 <= i < |a| && a[i] != b[i];
    UnitAt(a, k);
    UnitAt(b, k);
    if i / 8 < |a| / 8 {
      var u, v := a[8 * k..8 * k + 8], b[8 * k..8 * k + 8];
      assert u[i - 8 * k] != v[i - 8 * k];
      if Word(u) == Word(v) { WordInjective(u, v); }
    } else {
      ByteInjective(a[i], b[i]);
    }
  }

  lemma UnitsDiffer(a: seq<bv8>, b: seq<bv8>, k: nat)
    requires OnlyInUnit(a, b, k)
    ensures OnlyAt(Units(a), Units(b), k)
  {
    hide Units;
    UnitChanged(a, b, k);
    forall j | 0 <= j < |Units(a)| && j != k
      ensures Units(a)[j] == Units(b)[j]
    {
      UnitKept(a, b, k, j);
    }
  }

  lemma ByteInjective(a: bv8, b: bv8)
    requires a != b
    ensures Widen(a) != Widen(b)
  {
  }

  function HashOf(bytes: seq<bv8>, seed: bv64): bv64 { Fold(seed, Units(bytes)) }

  /** Changing bytes of one 8-byte word, or one tail byte, always changes a buffer's hash. */
  lemma OneUnitChanges(a: seq<bv8>, b: seq<bv8>, k: nat, seed: bv64)
    requires OnlyInUnit(a, b, k)
    ensures HashOf(a, seed) != HashOf(b, seed)
  {
    hide Fold, Units;
    UnitsDiffer(a, b, k);
    OneWordChanges(seed, Units(a), Units(b), k);
  }

  lemma UnitsSmall(x: bv8, b: seq<bv8>)
    requires |b| == 8
    ensures Units([]) == [] && Units([x]) == [Widen(x)] && Units(b) == [Word(b)]
  {
    hide Word, Widen, Units;
    UnitAt([x], 0);
    UnitAt(b, 0);
    assert b[8 * 0..8 * 0 + 8] == b;
  }

  lemma FoldOne(h: bv64, w: bv64)
    ensures Fold(h, [w]) == Mix(h, w)
  {
    hide Mix;
    FoldLast(h, [], w);
    assert [] + [w] == [w];
  }

  /** No bytes leave the seed; one byte is one step from it; eight bytes are one word's step. */
  lemma HashSmall(seed: bv64, x: bv8, b: seq<bv8>)
    requires |b| == 8
    ensures HashOf([], seed) == seed
    ensures HashOf([x], seed) == Mix(seed, Widen(x))
    ensures HashOf(b, seed) == Mix(seed, Word(b))
  {
    hide Word, Widen, Mix, Fold, Units;
    UnitsSmall(x, b);
    FoldNone(seed);
    FoldOne(seed, Widen(x));
    FoldOne(seed, Word(b));
  }

  method Hash64(bytes: seq<bv8>, seed: bv64) returns (h: bv64)
    ensures h == HashOf(bytes, seed)
  {
    hide Mix, Word, Widen, Fold;
    h := seed;
    FoldNone(seed);
    var nw := |bytes| / 8;
    for i := 0 to nw
      invariant h == Fold(seed, Units(bytes)[..i])
    {
      h := Mix(h, Word(bytes[8 * i..8 * i + 8]));
      FoldNext(seed, Units(bytes), i);
    }
    for i := nw * 8 to |bytes|
      invariant h == Fold(seed, Units(bytes)[..nw + (i - nw * 8)])
    {
      h := Mix(h, Widen(bytes[i]));
      FoldNext(seed, Units(bytes), nw + (i - nw * 8));
    }
    assert Units(bytes)[..|Units(bytes)|] == Units(bytes);
  }

  lemma FoldNone(h: bv64)
    ensures Fold(h, []) == h
  {
  }

  lemma FoldNext(h: bv64, ws: seq<bv64>, i: nat)
    requires i < |ws|
    ensures Fold(h, ws[..i + 1]) == Mix(Fold(h, ws[..i]), ws[i])
  {
    hide Mix, Fold;
    FoldLast(h, ws[..i], ws[i]);
    assert ws[..i + 1] == ws[..i] + [ws[i]];
  }

  // ---- a chain's hashes -----------------------------------------------------------------

  /** What a chain keeps between steps: per-layer recurrent and convolution state, per-layer key and value rows
      (the populated part, one buffer per head), and the logits. */
  datatype Chain = Chain(
    dnState: seq<seq<bv8>>, dnConv: seq<seq<bv8>>,
    lens: seq<nat>, k: seq<seq<seq<bv8>>>, v: seq<seq<seq<bv8>>>,
    logits: seq<bv8>)

  datatype Hashes = Hashes(combined: bv64, dnState: seq<bv64>, dnConv: seq<bv64>, kvK: seq<bv64>, kvV: seq<bv64>,
      logits: bv64)

  /** A layer's heads are hashed one after the other, each seeded by the hash so far; an empty layer hashes to 0. */
  function HeadsHash(heads: seq<seq<bv8>>): bv64 {
    if heads == [] then SEED else HashOf(heads[|heads| - 1], HeadsHash(heads[..|heads| - 1]))
  }

  /** Every unit of every head, head after head. */
  function AllUnits(heads: seq<seq<bv8>>): seq<bv64> {
    if heads == [] then [] else AllUnits(heads[..|heads| - 1]) + Units(heads[|heads| - 1])
  }

  /** Chaining the seeds is one fold over all the heads' units, from the offset basis. */
  lemma {:induction false} HeadsFold(heads: seq<seq<bv8>>)
    ensures HeadsHash(heads) == Fold(0xcbf29ce484222325, AllUnits(heads))
  {
    hide Mix, Units;
    if heads == [] {
      FoldNone(SEED);
    } else {
      HeadsFold(heads[..|heads| - 1]);
      FoldAppend(SEED, AllUnits(heads[..|heads| - 1]), Units(heads[|heads| - 1]));
    }
  }

  function LayerHash(len: nat, heads: seq<seq<bv8>>): bv64 { if len == 0 then 0 else HeadsHash(heads) }

  function BufferHashes(bufs: seq<seq<bv8>>): (hs: seq<bv64>)
    ensures |hs| == |bufs| && forall l | 0 <= l < |bufs| :: hs[l] == HashOf(bufs[l], SEED)
  {
    seq(|bufs|, l requires 0 <= l < |bufs| => HashOf(bufs[l], SEED))
  }

  function LayerHashes(lens: seq<nat>, layers: seq<seq<seq<bv8>>>): (hs: seq<bv64>)
    requires |lens| == |layers|
    ensures |hs| == |layers| && forall l | 0 <= l < |layers| :: hs[l] == LayerHash(lens[l], layers[l])
  {
    seq(|layers|, l requires 0 <= l < |layers| => LayerHash(lens[l], layers[l]))
  }

  /** The hashes in the order the buffers are produced. */
  function InOrder(h: Hashes): seq<bv64> { h.dnState + h.dnConv + h.kvK + h.kvV + [h.logits] }

  ghost predicate ChainOk(c: Chain) { |c.lens| == |c.k| == |c.v| }

  function HashesOf(c: Chain): (h: Hashes)
    requires ChainOk(c)
  {
    var h := Hashes(0, BufferHashes(c.dnState), BufferHashes(c.dnConv), LayerHashes(c.lens, c.k),
                    LayerHashes(c.lens, c.v), HashOf(c.logits, SEED));
    h.(combined := Fold(SEED, InOrder(h)))
  }

  method HashLayer(len: nat, heads: seq<seq<bv8>>) returns (h: bv64)
    ensures h == LayerHash(len, heads)
  {
    hide HashOf;
    if len == 0 { return 0; }
    h := SEED;
    for i := 0 to |heads|
      invariant h == HeadsHash(heads[..i])
    {
      h := Hash64(heads[i], h);
      assert heads[..i + 1][..i] == heads[..i];
    }
    assert heads[..|heads|] == heads;
  }

  method HashBuffers(bufs: seq<seq<bv8>>) returns (hs: seq<bv64>)
    ensures hs == BufferHashes(bufs)
  {
    hs := [];
    for l := 0 to |bufs|
      invariant hs == BufferHashes(bufs)[..l]
    {
      var h := Hash64(bufs[l], SEED);
      hs := hs + [h];
    }
  }

  method FoldInto(h0: bv64, ws: seq<bv64>) returns (h: bv64)
    ensures h == Fold(h0, ws)
  {
    hide Mix, Fold;
    h := h0;
    FoldNone(h0);
    for i := 0 to |ws|
      invariant h == Fold(h0, ws[..i])
    {
      h := Mix(h, ws[i]);
      FoldNext(h0, ws, i);
    }
    assert ws[..|ws|] == ws;
  }

  method HashChain(c: Chain) returns (h: Hashes)
    requires ChainOk(c)
    ensures h == HashesOf(c)
    ensures |h.dnState| == |c.dnState| && |h.dnConv| == |c.dnConv| && |h.kvK| == |h.kvV| == |c.lens|
    ensures forall l | 0 <= l < |c.dnState| :: h.dnState[l] == HashOf(c.dnState[l], 0xcbf29ce484222325)
    ensures forall l | 0 <= l < |c.dnConv| :: h.dnConv[l] == HashOf(c.dnConv[l], 0xcbf29ce484222325)
    ensures forall l | 0 <= l < |c.lens| :: h.kvK[l] == if c.lens[l] == 0 then 0 else HeadsHash(c.k[l])
    ensures forall l | 0 <= l < |c.lens| :: h.kvV[l] == if c.lens[l] == 0 then 0 else HeadsHash(c.v[l])
    ensures h.logits == HashOf(c.logits, 0xcbf29ce484222325)
    ensures h.combined == Fold(0xcbf29ce484222325, h.dnState + h.dnConv + h.kvK + h.kvV + [h.logits])
  {
    hide Fold, HashOf, HeadsHash, Mix;
    var dnState := HashBuffers(c.dnState);
    var dnConv := HashBuffers(c.dnConv);
    var kvK, kvV := [], [];
    for l := 0 to |c.lens|
      invariant kvK == LayerHashes(c.lens, c.k)[..l] && kvV == LayerHashes(c.lens, c.v)[..l]
    {
      var kh := HashLayer(c.lens[l], c.k[l]);
      var vh := HashLayer(c.lens[l], c.v[l]);
      kvK, kvV := kvK + [kh], kvV + [vh];
    }
    assert kvK == LayerHashes(c.lens, c.k) && kvV == LayerHashes(c.lens, c.v);
    var logits := Hash64(c.logits, SEED);
    var x := FoldInto(SEED, dnState);
    x := FoldInto(x, dnConv);
    x := FoldInto(x, kvK);
    x := FoldInto(x, kvV);
    FoldAppend(SEED, dnState, dnConv);
    FoldAppend(SEED, dnState + dnConv, kvK);
    FoldAppend(SEED, dnState + dnConv + kvK, kvV);
    FoldLast(SEED, dnState + dnConv + kvK + kvV, logits);
    h := Hashes(Mix(x, logits), dnState, dnConv, kvK, kvV, logits);
  }

  // ---- the search -----------------------------------------------------------------------

  datatype Tag = DnState(l: nat) | DnConv(l: nat) | KvK(l: nat) | KvV(l: nat) | Logits | Unexplained

  datatype Diff = Diff(diverged: bool, tag: Option<Tag>)

  ghost predicate SameShape(r: Hashes, x: Hashes) {
    |r.dnState| == |x.dnState| && |r.dnConv| == |x.dnConv| && |r.kvK| == |x.kvK| && |r.kvV| == |x.kvV|
  }

  /** The buffer at position i of the producer order. */
  function TagAt(h: Hashes, i: nat): Tag {
    var a, b, c, d := |h.dnState|, |h.dnConv|, |h.kvK|, |h.kvV|;
    if i < a then DnState(i) else if i < a + b then DnConv(i - a) else if i < a + b + c then KvK(i - a - b)
    else if i < a + b + c + d then KvV(i - a - b - c) else Logits
  }

  /** Position i holds the first difference in producer order. */
  ghost predicate FirstAt<T>(us: seq<T>, vs: seq<T>, i: nat) {
    i < |us| && i < |vs| && us[i] != vs[i] && forall j | 0 <= j < i :: us[j] == vs[j]
  }

  /** The first layer that differs, within the layers both records have. */
  method CheckLayer(a: seq<bv64>, b: seq<bv64>) returns (found: bool, l: nat)
    ensures found ==> FirstAt(a, b, l)
    ensures !found ==> forall j | 0 <= j < |a| && j < |b| :: a[j] == b[j]
  {
    for i := 0 to if |a| < |b| then |a| else |b|
      invariant forall j | 0 <= j < i :: a[j] == b[j]
    {
      if a[i] != b[i] { return true, i; }
    }
    return false, 0;
  }

  /** A first difference stays first behind equal prefixes. */
  lemma FirstWithin(p: seq<bv64>, us: seq<bv64>, a: seq<bv64>, q: seq<bv64>, vs: seq<bv64>, b: seq<bv64>, l: nat)
    requires p == q && FirstAt(us, vs, l)
    ensures FirstAt(p + us + a, q + vs + b, |p| + l)
  {
  }

  /** For records of one shape the tag is the first difference in producer order, or, when no hash differs, says so. */
  ghost predicate Explains(r: Hashes, x: Hashes, tag: Tag) {
    SameShape(r, x) ==>
      if InOrder(r) == InOrder(x) then tag == Unexplained
      else exists i :: FirstAt(InOrder(r), InOrder(x), i) && tag == TagAt(r, i)
  }

  lemma FoundAt(r: Hashes, x: Hashes, i: nat)
    requires SameShape(r, x) ==> FirstAt(InOrder(r), InOrder(x), i)
    ensures Explains(r, x, TagAt(r, i))
  {
  }

  lemma FoundDnState(r: Hashes, x: Hashes, l: nat)
    requires FirstAt(r.dnState, x.dnState, l)
    ensures Explains(r, x, DnState(l))
  {
    FirstWithin([], r.dnState, r.dnConv + r.kvK + r.kvV + [r.logits],
                [], x.dnState, x.dnConv + x.kvK + x.kvV + [x.logits], l);
    assert InOrder(r) == [] + r.dnState + (r.dnConv + r.kvK + r.kvV + [r.logits]);
    assert InOrder(x) == [] + x.dnState + (x.dnConv + x.kvK + x.kvV + [x.logits]);
    FoundAt(r, x, l);
  }

  lemma FoundDnConv(r: Hashes, x: Hashes, l: nat)
    requires r.dnState == x.dnState && FirstAt(r.dnConv, x.dnConv, l)
    ensures Explains(r, x, DnConv(l))
  {
    FirstWithin(r.dnState, r.dnConv, r.kvK + r.kvV + [r.logits], x.dnState, x.dnConv, x.kvK + x.kvV + [x.logits], l);
    assert InOrder(r) == r.dnState + r.dnConv + (r.kvK + r.kvV + [r.logits]);
    assert InOrder(x) == x.dnState + x.dnConv + (x.kvK + x.kvV + [x.logits]);
    FoundAt(r, x, |r.dnState| + l);
  }

  lemma FoundKvK(r: Hashes, x: Hashes, l: nat)
    requires r.dnState == x.dnState && r.dnConv == x.dnConv && FirstAt(r.kvK, x.kvK, l)
    ensures Explains(r, x, KvK(l))
  {
    FirstWithin(r.dnState + r.dnConv, r.kvK, r.kvV + [r.logits], x.dnState + x.dnConv, x.kvK, x.kvV + [x.logits], l);
    assert InOrder(r) == (r.dnState + r.dnConv) + r.kvK + (r.kvV + [r.logits]);
    assert InOrder(x) == (x.dnState + x.dnConv) + x.kvK + (x.kvV + [x.logits]);
    FoundAt(r, x, |r.dnState| + |r.dnConv| + l);
  }

  lemma FoundKvV(r: Hashes, x: Hashes, l: nat)
    requires r.dnState == x.dnState && r.dnConv == x.dnConv && r.kvK == x.kvK && FirstAt(r.kvV, x.kvV, l)
    ensures Explains(r, x, KvV(l))
  {
    FirstWithin(r.dnState + r.dnConv + r.kvK, r.kvV, [r.logits], x.dnState + x.dnConv + x.kvK, x.kvV, [x.logits], l);
    FoundAt(r, x, |r.dnState| + |r.dnConv| + |r.kvK| + l);
  }

  lemma FoundLogits(r: Hashes, x: Hashes)
    requires r.dnState == x.dnState && r.dnConv == x.dnConv && r.kvK == x.kvK && r.kvV == x.kvV
    ensures if r.logits != x.logits then Explains(r, x, Logits) else Explains(r, x, Unexplained)
  {
    var n := |r.dnState| + |r.dnConv| + |r.kvK| + |r.kvV|;
    if r.logits != x.logits {
      assert InOrder(r)[n] == r.logits && InOrder(x)[n] == x.logits;
      FoundAt(r, x, n);
    }
  }

  /** Different shapes explain nothing. */
  lemma AnyTag(r: Hashes, x: Hashes, tag: Tag)
    requires !SameShape(r, x)
    ensures Explains(r, x, tag)
  {
  }

  lemma SameGroup(a: seq<bv64>, b: seq<bv64>)
    requires |a| == |b| && forall j | 0 <= j < |a| && j < |b| :: a[j] == b[j]
    ensures a == b
  {
  }

  /** Diverged iff the combined hashes differ, with a tag that explains the difference. */
  method DiffVsRef(r: Hashes, x: Hashes) returns (d: Diff)
    ensures d.diverged == (r.combined != x.combined) && (d.diverged <==> d.tag.Some?)
    ensures d.diverged ==> Explains(r, x, d.tag.value)
  {
    if r.combined == x.combined { return Diff(false, None); }
    ghost var same := SameShape(r, x);
    if !same { forall tag ensures Explains(r, x, tag) { AnyTag(r, x, tag); } }
    hide Explains, InOrder;
    var found, l := CheckLayer(r.dnState, x.dnState);
    if found {
      FoundDnState(r, x, l);
      return Diff(true, Some(DnState(l)));
    }
    if same { SameGroup(r.dnState, x.dnState); }
    found, l := CheckLayer(r.dnConv, x.dnConv);
    if found {
      if same { FoundDnConv(r, x, l); }
      return Diff(true, Some(DnConv(l)));
    }
    if same { SameGroup(r.dnConv, x.dnConv); }
    found, l := CheckLayer(r.kvK, x.kvK);
    if found {
      if same { FoundKvK(r, x, l); }
      return Diff(true, Some(KvK(l)));
    }
    if same { SameGroup(r.kvK, x.kvK); }
    found, l := CheckLayer(r.kvV, x.kvV);
    if found {
      if same { FoundKvV(r, x, l); }
      return Diff(true, Some(KvV(l)));
    }
    if same {
      SameGroup(r.kvV, x.kvV);
      FoundLogits(r, x);
    }
    return Diff(true, Some(if r.logits != x.logits then Logits else Unexplained));
  }

  // ---- detection and localisation -----------------------------------------------------------

  /** One hashed buffer: flat bytes, or the heads of a layer with its length. */
  datatype Source = Flat(bytes: seq<bv8>) | Heads(len: nat, heads: seq<seq<bv8>>)

  function SourceHash(s: Source): bv64 {
    match s
    case Flat(bytes) => HashOf(bytes, SEED)
    case Heads(len, heads) => LayerHash(len, heads)
  }

  function Flats(bufs: seq<seq<bv8>>): (r: seq<Source>)
    ensures |r| == |bufs| && forall l | 0 <= l < |bufs| :: r[l] == Flat(bufs[l])
  {
    seq(|bufs|, l requires 0 <= l < |bufs| => Flat(bufs[l]))
  }

  function HeadLayers(lens: seq<nat>, layers: seq<seq<seq<bv8>>>): (r: seq<Source>)
    requires |lens| == |layers|
    ensures |r| == |layers| && forall l | 0 <= l < |layers| :: r[l] == Heads(lens[l], layers[l])
  {
    seq(|layers|, l requires 0 <= l < |layers| => Heads(lens[l], layers[l]))
  }

  /** Every hashed buffer of a chain, in the order the buffers are produced. */
  function Sources(c: Chain): seq<Source>
    requires ChainOk(c)
  {
    Flats(c.dnState) + Flats(c.dnConv) + HeadLayers(c.lens, c.k) + HeadLayers(c.lens, c.v) + [Flat(c.logits)]
  }

  lemma SourcesHash(c: Chain)
    requires ChainOk(c)
    ensures |InOrder(HashesOf(c))| == |Sources(c)|
    ensures forall i | 0 <= i < |Sources(c)| :: InOrder(HashesOf(c))[i] == SourceHash(Sources(c)[i])
  {
    hide HashOf, LayerHash, Fold;
  }

  /** One unit of one buffer changed: of the flat bytes, or of one head of a layer that holds rows. */
  ghost predicate Changed(s: Source, s': Source) {
    match (s, s')
    case (Flat(a), Flat(b)) => exists k: nat :: OnlyInUnit(a, b, k)
    case (Heads(n, us), Heads(m, vs)) =>
      n == m > 0 && exists j: nat, k: nat :: OnlyAt(us, vs, j) && OnlyInUnit(us[j], vs[j], k)
    case _ => false
  }

  lemma {:induction false} HeadsChange(us: seq<seq<bv8>>, vs: seq<seq<bv8>>, j: nat, k: nat)
    requires OnlyAt(us, vs, j) && OnlyInUnit(us[j], vs[j], k)
    ensures HeadsHash(us) != HeadsHash(vs)
  {
    hide Fold, Units;
    var n := |us| - 1;
    if j == n {
      assert us[..n] == vs[..n];
      OneUnitChanges(us[n], vs[n], k, HeadsHash(us[..n]));
    } else {
      HeadsChange(us[..n], vs[..n], j, k);
      FoldInjective(HeadsHash(us[..n]), HeadsHash(vs[..n]), Units(us[n]));
    }
  }

  lemma ChangedHash(s: Source, s': Source)
    requires Changed(s, s')
    ensures SourceHash(s) != SourceHash(s')
  {
    hide HashOf, HeadsHash;
    match s
    case Flat(a) =>
      var k: nat :| OnlyInUnit(a, s'.bytes, k);
      OneUnitChanges(a, s'.bytes, k, SEED);
    case Heads(n, us) =>
      var j: nat, k: nat :| OnlyAt(us, s'.heads, j) && OnlyInUnit(us[j], s'.heads[j], k);
      HeadsChange(us, s'.heads, j, k);
  }

  /** One changed unit in one buffer is always detected, and the search names exactly that buffer. */
  lemma DetectsAndLocates(a: Chain, b: Chain, i: nat)
    requires ChainOk(a) && ChainOk(b) && SameShape(HashesOf(a), HashesOf(b))
    requires |Sources(a)| == |Sources(b)| && i < |Sources(a)| && Changed(Sources(a)[i], Sources(b)[i])
    requires forall j | 0 <= j < |Sources(a)| && j != i :: Sources(a)[j] == Sources(b)[j]
    ensures HashesOf(a).combined != HashesOf(b).combined
    ensures forall tag | Explains(HashesOf(a), HashesOf(b), tag) :: tag == TagAt(HashesOf(a), i)
  {
    var r, x := HashesOf(a), HashesOf(b);
    assert r.combined == Fold(SEED, InOrder(r)) && x.combined == Fold(SEED, InOrder(x));
    SourcesHash(a);
    SourcesHash(b);
    ChangedHash(Sources(a)[i], Sources(b)[i]);
    hide Changed, SourceHash, Sources, HashesOf, InOrder, Fold;
    assert OnlyAt(InOrder(r), InOrder(x), i);
    OneWordChanges(SEED, InOrder(r), InOrder(x), i);
  }

  /** "combined diff but per-layer match" is never reported for chains of one shape. */
  lemma AlwaysExplained(a: Chain, b: Chain, tag: Tag)
    requires ChainOk(a) && ChainOk(b) && SameShape(HashesOf(a), HashesOf(b))
    requires HashesOf(a).combined != HashesOf(b).combined && Explains(HashesOf(a), HashesOf(b), tag)
    ensures tag != Unexplained
  {
    hide Fold;
  }

  // ---- the monitor's bookkeeping ---------------------------------------------------------

  /** The counters and the first divergence: its iteration (-1 if none), its chain and its tag. */
  datatype Dashboard = Dashboard(matches: nat, diffs: nat, firstIter: int, firstChain: int, firstTag: Option<Tag>,
      unique: nat)

  ghost predicate Diverged(hs: seq<Hashes>) { exists c :: 0 < c < |hs| && hs[c].combined != hs[0].combined }

  /** The first chain that differs from chain A. */
  ghost predicate FirstChain(hs: seq<Hashes>, c: int) {
    0 < c < |hs| && hs[c].combined != hs[0].combined && forall j | 0 < j < c :: hs[j].combined == hs[0].combined
  }

  /** The iterations in which some chain differs from chain A. */
  ghost function DivergedSet(iters: seq<seq<Hashes>>): set<nat> {
    set k: nat | k < |iters| && Diverged(iters[k])
  }

  /** The bookkeeping is exact: the diffs are the iterations that diverged, the matches the others, and the first
      divergence is the first iteration in which some chain differs from chain A, at its lowest such chain, with a tag
      that explains it. */
  ghost predicate Exact(d: Dashboard, iters: seq<seq<Hashes>>) {
    && d.diffs == |DivergedSet(iters)|
    && d.matches + d.diffs == |iters|
    && (d.firstIter == -1 <==> forall k | 0 <= k < |iters| :: !Diverged(iters[k]))
    && (d.firstIter == -1 <==> d.diffs == 0)
    && (d.firstIter == -1 ==> d.firstChain == -1 && d.firstTag == None)
    && (d.firstIter != -1 ==>
        && 0 <= d.firstIter < |iters| && (forall k | 0 <= k < d.firstIter :: !Diverged(iters[k]))
        && FirstChain(iters[d.firstIter], d.firstChain)
        && d.firstTag.Some? && Explains(iters[d.firstIter][0], iters[d.firstIter][d.firstChain], d.firstTag.value))
  }

  /** Compare every chain with chain A. */
  method CompareAll(hs: seq<Hashes>) returns (diffs: seq<Diff>)
    requires |hs| > 0
    ensures |diffs| == |hs| && !diffs[0].diverged
    ensures forall c | 0 < c < |hs| :: diffs[c].diverged == (hs[0].combined != hs[c].combined)
    ensures forall c | 0 < c < |hs| && diffs[c].diverged ::
        diffs[c].tag.Some? && Explains(hs[0], hs[c], diffs[c].tag.value)
  {
    hide Explains;
    diffs := [Diff(false, None)];
    for c := 1 to |hs|
      invariant |diffs| == c && !diffs[0].diverged
      invariant forall j | 0 < j < c :: diffs[j].diverged == (hs[0].combined != hs[j].combined)
      invariant forall j | 0 < j < c && diffs[j].diverged ::
          diffs[j].tag.Some? && Explains(hs[0], hs[j], diffs[j].tag.value)
    {
      var d := DiffVsRef(hs[0], hs[c]);
      diffs := diffs + [d];
    }
  }

  /** The lowest chain that diverged, if any. */
  method FirstDiverged(diffs: seq<Diff>) returns (c: nat)
    requires |diffs| > 0 && !diffs[0].diverged
    ensures c <= |diffs| && (forall j | 0 <= j < c :: !diffs[j].diverged) && (c < |diffs| ==> diffs[c].diverged)
  {
    c := 1;
    while c < |diffs| && !diffs[c].diverged
      invariant c <= |diffs| && forall j | 0 <= j < c :: !diffs[j].diverged
    {
      c := c + 1;
    }
  }

  /** The different combined hashes the chains show. */
  function CombinedSet(hs: seq<Hashes>): set<bv64> { set c | 0 <= c < |hs| :: hs[c].combined }

  method CountUnique(hs: seq<Hashes>) returns (n: nat)
    ensures n == |CombinedSet(hs)|
  {
    var uniq: seq<bv64> := [];
    for c := 0 to |hs|
      invariant forall h :: h in uniq <==> exists j :: 0 <= j < c && hs[j].combined == h
      invariant forall i, j | 0 <= i < j < |uniq| :: uniq[i] != uniq[j]
    {
      if hs[c].combined !in uniq { uniq := uniq + [hs[c].combined]; }
    }
    n := |uniq|;
    DistinctCount(uniq);
    assert (set h | h in uniq) == CombinedSet(hs);
  }

  lemma {:induction false} DistinctCount(xs: seq<bv64>)
    requires forall i, j | 0 <= i < j < |xs| :: xs[i] != xs[j]
    ensures |set h | h in xs| == |xs|
  {
    if xs != [] {
      DistinctCount(xs[1..]);
      assert (set h | h in xs) == {xs[0]} + set h | h in xs[1..];
    }
  }

  method Monitor(iters: seq<seq<Hashes>>) returns (d: Dashboard)
    requires forall k | 0 <= k < |iters| :: |iters[k]| > 0
    ensures Exact(d, iters)
    ensures d.unique == if iters == [] then 1 else |CombinedSet(iters[|iters| - 1])|
  {
    d := Dashboard(0, 0, -1, -1, None, 1);
    hide Explains, Exact;
    for k := 0 to |iters|
      invariant Exact(d, iters[..k])
      invariant d.unique == if k == 0 then 1 else |CombinedSet(iters[k - 1])|
    {
      var diffs := CompareAll(iters[k]);
      var unique := CountUnique(iters[k]);
      var c := FirstDiverged(diffs);
      ghost var was := d;
      d := d.(unique := unique);
      if c < |diffs| {
        d := d.(diffs := d.diffs + 1);
        if d.firstIter < 0 { d := d.(firstIter := k, firstChain := c, firstTag := diffs[c].tag); }
      } else {
        d := d.(matches := d.matches + 1);
      }
      ExactNext(was, d, iters, k, c, if c < |diffs| then diffs[c].tag else None);
    }
    assert iters[..|iters|] == iters;
  }

  /** One iteration counted: a match, or a diff at chain c, the first one recorded. */
  lemma ExactNext(was: Dashboard, d: Dashboard, iters: seq<seq<Hashes>>, k: nat, c: nat, tag: Option<Tag>)
    requires k < |iters| && 0 < |iters[k]| && 0 < c && Exact(was, iters[..k])
    requires forall j | 0 < j < c && j < |iters[k]| :: iters[k][j].combined == iters[k][0].combined
    requires c < |iters[k]| ==>
      iters[k][c].combined != iters[k][0].combined && tag.Some? && Explains(iters[k][0], iters[k][c], tag.value)
    requires c < |iters[k]| ==> d.matches == was.matches && d.diffs == was.diffs + 1
    requires c >= |iters[k]| ==> d.matches == was.matches + 1 && d.diffs == was.diffs
    requires if c < |iters[k]| && was.firstIter < 0 then d.firstIter == k && d.firstChain == c && d.firstTag == tag
      else d.firstIter == was.firstIter && d.firstChain == was.firstChain && d.firstTag == was.firstTag
    ensures Exact(d, iters[..k + 1])
  {
    hide Explains;
    assert Diverged(iters[k]) <==> c < |iters[k]|;
    Extends(was, iters, k);
    DivergedGrows(iters, k);
  }

  lemma DivergedGrows(iters: seq<seq<Hashes>>, k: nat)
    requires k < |iters|
    ensures |DivergedSet(iters[..k + 1])| == |DivergedSet(iters[..k])| + if Diverged(iters[k]) then 1 else 0
  {
    hide Diverged;
    assert DivergedSet(iters[..k + 1]) == DivergedSet(iters[..k]) + if Diverged(iters[k]) then {k} else {};
  }

  lemma Extends(d: Dashboard, iters: seq<seq<Hashes>>, k: nat)
    requires k < |iters| && Exact(d, iters[..k])
    ensures forall j | 0 <= j < k :: iters[..k + 1][j] == iters[..k][j]
    ensures iters[..k + 1][k] == iters[k]
  {
  }
}
