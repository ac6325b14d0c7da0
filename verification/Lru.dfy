/** The expert-cache simulator: exact LRU over a request stream, and the reuse-distance
    pass over the same stream. An ordered dict is a sequence of keys, oldest first. */
module Lru {
  /** The stream is keyed by pair, since two blocks never share an expert. */
  datatype Key = Key(block: int, expert: int)

  // ---- recency: the reference the cache is compared with ----------------------------

  function Without(xs: seq<Key>, k: Key): (r: seq<Key>)
    ensures |r| <= |xs| && forall x :: x in r <==> x in xs && x != k
  {
    if xs == [] then [] else (if xs[0] == k then [] else [xs[0]]) + Without(xs[1..], k)
  }

  /** Every key requested so far, least recently used first. */
  function Recency(ks: seq<Key>): (r: seq<Key>)
    ensures forall x :: x in r <==> x in ks
  {
    if ks == [] then [] else
      var init, k := ks[..|ks| - 1], ks[|ks| - 1];
      assert ks == init + [k];
      Without(Recency(init), k) + [k]
  }

  /** The n most recent elements. */
  function Suffix(xs: seq<Key>, n: nat): (r: seq<Key>)
    ensures |r| == if n < |xs| then n else |xs|
  {
    if n < |xs| then xs[|xs| - n..] else xs
  }

  /** Where `k` was last requested. */
  function LastUse(ks: seq<Key>, k: Key): (j: nat)
    requires k in ks
    ensures j < |ks| && ks[j] == k && k !in ks[j + 1..]
  {
    if ks[|ks| - 1] == k then |ks| - 1 else
      assert ks == ks[..|ks| - 1] + [ks[|ks| - 1]];
      var j := LastUse(ks[..|ks| - 1], k);
      assert ks[j + 1..] == ks[..|ks| - 1][j + 1..] + [ks[|ks| - 1]];
      j
  }

  function Keys(ks: seq<Key>): set<Key> { set x | x in ks }

  /** A request hits: its key was used before, and fewer than `capacity` distinct keys were requested since. */
  predicate Hit(ks: seq<Key>, i: nat, capacity: nat)
    requires i < |ks|
  {
    ks[i] in ks[..i] && |Keys(ks[LastUse(ks[..i], ks[i]) + 1..i])| < capacity
  }

  function HitSet(ks: seq<Key>, capacity: nat): set<nat> {
    set i: nat | i < |ks| && Hit(ks, i, capacity)
  }

  // ---- how deep a key lies in the recency order ---------------------------------------

  predicate Distinct(xs: seq<Key>) { forall i, j | 0 <= i < j < |xs| :: xs[i] != xs[j] }

  /** The keys after `k`, in an order that lists no key twice. */
  function Newer(xs: seq<Key>, k: Key): set<Key>
    requires k in xs
  {
    if xs[0] == k then Keys(xs[1..]) else Newer(xs[1..], k)
  }

  lemma {:induction false} WithoutAbsent(xs: seq<Key>, k: Key)
    requires k !in xs
    ensures Without(xs, k) == xs
  {
    if xs != [] { WithoutAbsent(xs[1..], k); }
  }

  lemma {:induction false} RecencyDistinct(ks: seq<Key>)
    ensures Distinct(Recency(ks))
  {
    if ks != [] {
      RecencyDistinct(ks[..|ks| - 1]);
      WithoutDistinct(Recency(ks[..|ks| - 1]), ks[|ks| - 1]);
    }
  }

  lemma {:induction false} WithoutDistinct(xs: seq<Key>, k: Key)
    requires Distinct(xs)
    ensures Distinct(Without(xs, k) + [k])
  {
    if xs != [] {
      WithoutDistinct(xs[1..], k);
      var w := Without(xs[1..], k) + [k];
      if xs[0] != k {
        assert Without(xs, k) + [k] == [xs[0]] + w;
        assert xs[0] !in xs[1..] && xs[0] !in w;
      } else {
        assert Without(xs, k) + [k] == w;
      }
    }
  }

  lemma {:induction false} DistinctSize(xs: seq<Key>)
    requires Distinct(xs)
    ensures |Keys(xs)| == |xs|
  {
    if xs != [] {
      DistinctSize(xs[1..]);
      assert Keys(xs) == {xs[0]} + Keys(xs[1..]);
    }
  }

  /** Moving z to the end makes it newer than every other key, and changes nothing else. */
  lemma {:induction false} MovedNewer(xs: seq<Key>, z: Key, k: Key)
    requires k in xs && k != z
    ensures k in Without(xs, z) + [z] && Newer(Without(xs, z) + [z], k) == Newer(xs, k) + {z}
  {
    var w := Without(xs[1..], z) + [z];
    if xs[0] == z {
      MovedNewer(xs[1..], z, k);
      assert Without(xs, z) + [z] == w;
    } else {
      assert Without(xs, z) + [z] == [xs[0]] + w;
      if xs[0] == k {
        assert Keys(w) == Keys(xs[1..]) + {z};
      } else {
        MovedNewer(xs[1..], z, k);
      }
    }
  }

  /** The last of the order is newer than all before it. */
  lemma {:induction false} LastNewest(xs: seq<Key>, k: Key)
    requires k !in xs
    ensures Newer(xs + [k], k) == {}
  {
    if xs != [] {
      assert (xs + [k])[1..] == xs[1..] + [k];
      LastNewest(xs[1..], k);
    } else {
      assert (xs + [k])[1..] == [];
    }
  }

  /** The keys newer than k are those requested since its last use. */
  lemma {:induction false} SinceLastUse(ks: seq<Key>, k: Key)
    requires k in ks
    ensures Newer(Recency(ks), k) == Keys(ks[LastUse(ks, k) + 1..])
  {
    var init, z := ks[..|ks| - 1], ks[|ks| - 1];
    assert ks == init + [z];
    assert Recency(ks) == Without(Recency(init), z) + [z];
    hide Without, Newer, Recency;
    if k == z {
      LastNewest(Without(Recency(init), z), z);
      assert ks[|ks|..] == [];
    } else {
      SinceLastUse(init, k);
      MovedNewer(Recency(init), z, k);
      LastUseBefore(ks, k);
      KeysAppend(init[LastUse(init, k) + 1..], z);
    }
  }

  lemma LastUseBefore(ks: seq<Key>, k: Key)
    requires k in ks && ks[|ks| - 1] != k
    ensures var init := ks[..|ks| - 1];
      && k in init && LastUse(ks, k) == LastUse(init, k)
      && ks[LastUse(ks, k) + 1..] == init[LastUse(init, k) + 1..] + [ks[|ks| - 1]]
  {
    assert ks == ks[..|ks| - 1] + [ks[|ks| - 1]];
  }

  lemma KeysAppend(xs: seq<Key>, z: Key)
    ensures Keys(xs + [z]) == Keys(xs) + {z}
  {
  }

  lemma {:induction false} DeepInSuffix(xs: seq<Key>, k: Key, c: nat)
    requires Distinct(xs) && k in xs
    ensures k in Suffix(xs, c) <==> |Newer(xs, k)| < c
  {
    if xs[0] == k {
      DistinctSize(xs[1..]);
    } else {
      DeepInSuffix(xs[1..], k, c);
      if c < |xs| { assert Suffix(xs, c) == Suffix(xs[1..], c); }
    }
  }

  /** A key is among the c most recent iff it was requested, and fewer than c distinct keys since. */
  lemma AmongMostRecent(ks: seq<Key>, k: Key, c: nat)
    ensures k in Suffix(Recency(ks), c) <==> k in ks && |Keys(ks[LastUse(ks, k) + 1..])| < c
  {
    if k in ks {
      RecencyDistinct(ks);
      DeepInSuffix(Recency(ks), k, c);
      SinceLastUse(ks, k);
    }
  }

  lemma {:induction false} SubsetSize<T>(a: set<T>, b: set<T>)
    requires a <= b
    ensures |a| <= |b|
  {
    assert b == a + (b - a);
  }

  // ---- the simulator ------------------------------------------------------------------

  /** One request: a hit moves its key to the end; a miss appends it and, over capacity, drops the oldest. */
  function Request(od: seq<Key>, k: Key, capacity: nat): seq<Key> {
    if k in od then Without(od, k) + [k]
    else if |od + [k]| > capacity then (od + [k])[1..]
    else od + [k]
  }

  /** The ordered dict after the requests of a stream. */
  function Cache(ks: seq<Key>, capacity: nat): seq<Key> {
    if ks == [] then [] else Request(Cache(ks[..|ks| - 1], capacity), ks[|ks| - 1], capacity)
  }

  /** The first position of a key. */
  function Find(xs: seq<Key>, k: Key): (p: nat)
    requires k in xs
    ensures p < |xs| && xs[p] == k && k !in xs[..p]
  {
    if xs[0] == k then 0 else Find(xs[1..], k) + 1
  }

  lemma TailDistinct(xs: seq<Key>, d: nat)
    requires Distinct(xs) && d <= |xs|
    ensures Distinct(xs[d..]) && (0 < d ==> forall i | d <= i < |xs| :: xs[0] != xs[i])
  {
  }

  lemma {:induction false} WithoutSplits(xs: seq<Key>, p: nat)
    requires Distinct(xs) && p < |xs|
    ensures Without(xs, xs[p]) == xs[..p] + xs[p + 1..]
  {
    if p == 0 {
      WithoutAbsent(xs[1..], xs[0]);
    } else {
      var tail := xs[1..];
      assert Distinct(tail) by { TailDistinct(xs, 1); }
      WithoutSplits(tail, p - 1);
      hide Distinct;
      assert tail[p - 1] == xs[p] && xs[0] != xs[p];
      assert xs[..p] == [xs[0]] + tail[..p - 1] && xs[p + 1..] == tail[p..];
    }
  }

  lemma WithoutTail(xs: seq<Key>, p: nat, d: nat)
    requires Distinct(xs) && d <= p < |xs|
    ensures |Without(xs, xs[p])| == |xs| - 1
    ensures Without(xs[d..], xs[p]) == Without(xs, xs[p])[d..]
  {
    hide Without;
    TailDistinct(xs, d);
    assert xs[d..][p - d] == xs[p];
    WithoutSplits(xs[d..], p - d);
    WithoutSplits(xs, p);
    hide Distinct;
    CutTail(xs, p, d);
  }

  /** Dropping one key from the c most recent and appending it gives the c most recent after it is requested. */
  lemma {:induction false} ServeHit(xs: seq<Key>, k: Key, c: nat)
    requires Distinct(xs) && k in Suffix(xs, c)
    ensures Without(Suffix(xs, c), k) + [k] == Suffix(Without(xs, k) + [k], c)
  {
    hide Without, Distinct;
    var d := if c < |xs| then |xs| - c else 0;
    assert Suffix(xs, c) == xs[d..];
    var q := Find(xs[d..], k);
    WithoutTail(xs, d + q, d);
    var w := Without(xs, k);
    assert (w + [k])[d..] == w[d..] + [k];
  }

  lemma CutTail(xs: seq<Key>, p: nat, d: nat)
    requires d <= p < |xs|
    ensures (xs[..p] + xs[p + 1..])[d..] == xs[d..][..p - d] + xs[d..][p - d + 1..]
  {
  }

  lemma WithoutHead(xs: seq<Key>, p: nat, c: nat)
    requires Distinct(xs) && p + c < |xs|
    ensures |Without(xs, xs[p])| == |xs| - 1 && Without(xs, xs[p])[|xs| - 1 - c..] == xs[|xs| - c..]
  {
    WithoutSplits(xs, p);
  }

  lemma FoundEarly(xs: seq<Key>, k: Key, c: nat)
    requires k in xs && k !in Suffix(xs, c)
    ensures c < |xs| && Find(xs, k) < |xs| - c
  {
    if Find(xs, k) + c >= |xs| { InSuffix(xs, Find(xs, k), c); }
  }

  lemma InSuffix(xs: seq<Key>, p: nat, c: nat)
    requires p < |xs| <= p + c
    ensures xs[p] in Suffix(xs, c)
  {
    if c < |xs| { assert Suffix(xs, c)[p - (|xs| - c)] == xs[p]; }
  }

  lemma {:induction false} ServeMiss(xs: seq<Key>, k: Key, c: nat)
    requires Distinct(xs) && k !in Suffix(xs, c)
    ensures var od := Suffix(xs, c) + [k];
      Suffix(Without(xs, k) + [k], c) == if |od| > c then od[1..] else od
  {
    hide Without, Find, Distinct;
    if k in xs {
      FoundEarly(xs, k, c);
      WithoutHead(xs, Find(xs, k), c);
    } else {
      WithoutAbsent(xs, k);
    }
  }

  lemma HitOfPrefix(ks: seq<Key>, n: nat, i: nat, c: nat)
    requires i < n <= |ks|
    ensures Hit(ks[..n], i, c) == Hit(ks, i, c)
  {
    assert ks[..n][..i] == ks[..i];
    if ks[i] in ks[..i] {
      var u := LastUse(ks[..i], ks[i]) + 1;
      assert ks[..n][u..i] == ks[u..i];
    }
  }

  lemma HitSetGrows(ks: seq<Key>, i: nat, c: nat)
    requires i < |ks|
    ensures |HitSet(ks[..i + 1], c)| == |HitSet(ks[..i], c)| + if Hit(ks, i, c) then 1 else 0
  {
    hide Hit;
    forall j: nat | j <= i
      ensures Hit(ks[..i + 1], j, c) == Hit(ks, j, c) && (j < i ==> Hit(ks[..i], j, c) == Hit(ks, j, c))
    {
      HitOfPrefix(ks, i + 1, j, c);
      if j < i { HitOfPrefix(ks, i, j, c); }
    }
    assert HitSet(ks[..i + 1], c) == HitSet(ks[..i], c) + if Hit(ks, i, c) then {i} else {};
  }

  /** One request served on the c most recent keys leaves the c most recent after it, and hits iff its stack
      distance is below c. */
  lemma Served(ks: seq<Key>, i: nat, c: nat)
    requires i < |ks|
    ensures Hit(ks, i, c) <==> ks[i] in Suffix(Recency(ks[..i]), c)
    ensures Request(Suffix(Recency(ks[..i]), c), ks[i], c) == Suffix(Recency(ks[..i + 1]), c)
  {
    RecencyGrows(ks, i);
    HitIffRecent(ks, i, c);
    RecencyDistinct(ks[..i]);
    hide Without, Hit, Recency, Distinct;
    var r, k := Recency(ks[..i]), ks[i];
    if k in Suffix(r, c) { ServeHit(r, k, c); } else { ServeMiss(r, k, c); }
  }

  lemma RecencyGrows(ks: seq<Key>, i: nat)
    requires i < |ks|
    ensures Recency(ks[..i + 1]) == Without(Recency(ks[..i]), ks[i]) + [ks[i]]
  {
    hide Without;
    assert ks[..i + 1][..i] == ks[..i];
  }

  lemma HitIffRecent(ks: seq<Key>, i: nat, c: nat)
    requires i < |ks|
    ensures Hit(ks, i, c) <==> ks[i] in Suffix(Recency(ks[..i]), c)
  {
    hide Suffix, Recency;
    AmongMostRecent(ks[..i], ks[i], c);
    if ks[i] in ks[..i] { assert ks[..i][LastUse(ks[..i], ks[i]) + 1..] == ks[LastUse(ks[..i], ks[i]) + 1..i]; }
  }

  /** What the simulator holds is the most recent keys, as many as fit. */
  lemma {:induction false} CacheIsMostRecent(ks: seq<Key>, c: nat)
    ensures Cache(ks, c) == Suffix(Recency(ks), c)
  {
    if ks != [] {
      var n := |ks| - 1;
      CacheIsMostRecent(ks[..n], c);
      assert ks[..n + 1] == ks;
      Served(ks, n, c);
    }
  }

  /** A request finds its key in the dict iff its stack distance is below the capacity. */
  lemma HitIffCached(ks: seq<Key>, i: nat, c: nat)
    requires i < |ks|
    ensures Hit(ks, i, c) <==> ks[i] in Cache(ks[..i], c)
  {
    CacheIsMostRecent(ks[..i], c);
    Served(ks, i, c);
  }

  /** The stack property: after every stream the smaller cache is the most recent part of the larger one, in the
      same order, so whatever hits in the smaller hits in the larger. */
  lemma Inclusion(ks: seq<Key>, c1: nat, c2: nat)
    requires c1 <= c2
    ensures Cache(ks, c1) == Suffix(Cache(ks, c2), c1)
    ensures HitSet(ks, c1) <= HitSet(ks, c2) && |HitSet(ks, c1)| <= |HitSet(ks, c2)|
  {
    CacheIsMostRecent(ks, c1);
    CacheIsMostRecent(ks, c2);
    SubsetSize(HitSet(ks, c1), HitSet(ks, c2));
  }

  lemma CacheGrows(ks: seq<Key>, i: nat, c: nat)
    requires i < |ks|
    ensures Cache(ks[..i + 1], c) == Request(Cache(ks[..i], c), ks[i], c)
  {
    assert ks[..i + 1][..i] == ks[..i];
  }

  lemma HitsAreCached(ks: seq<Key>, c: nat)
    ensures HitSet(ks, c) == set i: nat | i < |ks| && ks[i] in Cache(ks[..i], c)
  {
    hide Hit, Cache;
    forall i: nat | i < |ks| ensures Hit(ks, i, c) <==> ks[i] in Cache(ks[..i], c) { HitIffCached(ks, i, c); }
  }

  /** Exact LRU over the stream: the hits are exactly the requests the stack distance says. */
  method LruHitRate(ks: seq<Key>, capacity: nat) returns (hits: nat, rate: real)
    ensures hits == |HitSet(ks, capacity)|
    ensures hits == |set i: nat | i < |ks| && ks[i] in Cache(ks[..i], capacity)|
    ensures rate == if ks == [] then 0.0 else hits as real / |ks| as real
  {
    var od: seq<Key> := [];
    hits := 0;
    assert HitSet(ks[..0], capacity) == {};
    hide Hit, HitSet, Suffix, Recency, Without;
    for i := 0 to |ks|
      invariant od == Cache(ks[..i], capacity)
      invariant hits == |HitSet(ks[..i], capacity)|
    {
      HitIffCached(ks, i, capacity);
      HitSetGrows(ks, i, capacity);
      CacheGrows(ks, i, capacity);
      var k := ks[i];
      if k in od {
        hits := hits + 1;
        od := Without(od, k) + [k];
      } else {
        od := od + [k];
        if |od| > capacity { od := od[1..]; }
      }
    }
    assert ks[..|ks|] == ks;
    HitsAreCached(ks, capacity);
    rate := if ks == [] then 0.0 else hits as real / |ks| as real;
  }

  // ---- the reuse-distance pass ----------------------------------------------------------

  /** The requests whose key was used before, and how far back. */
  function Distances(ks: seq<Key>): (d: seq<nat>)
  {
    if ks == [] then [] else
      var init, k := ks[..|ks| - 1], ks[|ks| - 1];
      Distances(init) + if k in init then [|init| - LastUse(init, k)] else []
  }

  /** The requests whose key was used before. */
  function Repeats(ks: seq<Key>): set<nat> { set i: nat | i < |ks| && ks[i] in ks[..i] }

  lemma RepeatsGrow(ks: seq<Key>)
    requires ks != []
    ensures var n := |ks| - 1; |Repeats(ks)| == |Repeats(ks[..n])| + if ks[n] in ks[..n] then 1 else 0
  {
    var n := |ks| - 1;
    forall i: nat | i < n ensures ks[..n][..i] == ks[..i] {}
    assert Repeats(ks) == Repeats(ks[..n]) + if ks[n] in ks[..n] then {n} else {};
  }

  /** A distance of d at position i: the key was requested d positions before, and not since. */
  predicate IsDistance(ks: seq<Key>, i: nat, d: nat)
    requires i < |ks|
  {
    1 <= d <= i && ks[i - d] == ks[i] && ks[i] !in ks[i - d + 1..i]
  }

  /** If position i is a repeat, its distance stands after those of the repeats before it. */
  ghost predicate DistanceAt(ks: seq<Key>, i: nat, dists: seq<nat>)
    requires i < |ks|
  {
    var r := |Repeats(ks[..i])|;
    ks[i] in ks[..i] ==> r < |dists| && IsDistance(ks, i, dists[r])
  }

  /** There is one distance for every repeat, in request order, and it is the gap to the key's previous request. */
  lemma {:induction false} DistancesAre(ks: seq<Key>)
    ensures |Distances(ks)| == |Repeats(ks)|
    ensures forall i: nat | i < |ks| :: DistanceAt(ks, i, Distances(ks))
  {
    if ks == [] {
      assert Repeats(ks) == {};
    } else {
      var n := |ks| - 1;
      DistancesAre(ks[..n]);
      RepeatsGrow(ks);
      LastDistance(ks);
      hide Distances, DistanceAt, Repeats;
      forall i: nat | i < |ks| ensures DistanceAt(ks, i, Distances(ks)) {
        if i < n { EarlierDistance(ks, i); }
      }
    }
  }

  lemma EarlierDistance(ks: seq<Key>, i: nat)
    requires i < |ks| - 1 && DistanceAt(ks[..|ks| - 1], i, Distances(ks[..|ks| - 1]))
    ensures DistanceAt(ks, i, Distances(ks))
  {
    hide Repeats, LastUse;
    var init := ks[..|ks| - 1];
    assert init[..i] == ks[..i];
    if ks[i] in ks[..i] {
      var d := Distances(init)[|Repeats(ks[..i])|];
      assert init[i - d + 1..i] == ks[i - d + 1..i];
    }
  }

  lemma LastDistance(ks: seq<Key>)
    requires ks != [] && |Distances(ks[..|ks| - 1])| == |Repeats(ks[..|ks| - 1])|
    ensures |Distances(ks)| == |Repeats(ks)| && DistanceAt(ks, |ks| - 1, Distances(ks))
  {
    RepeatsGrow(ks);
    hide Repeats;
    var n := |ks| - 1;
    if ks[n] in ks[..n] {
      var j := LastUse(ks[..n], ks[n]);
      assert ks[..n][j + 1..] == ks[j + 1..n];
    }
  }

  ghost predicate IsLastMap(ks: seq<Key>, last: map<Key, nat>) {
    (forall k :: k in last <==> k in ks) && forall k | k in last :: last[k] == LastUse(ks, k)
  }

  lemma LastMapGrows(ks: seq<Key>, i: nat, last: map<Key, nat>)
    requires i < |ks| && IsLastMap(ks[..i], last)
    ensures IsLastMap(ks[..i + 1], last[ks[i] := i])
  {
    assert ks[..i + 1] == ks[..i] + [ks[i]] && ks[..i + 1][..i] == ks[..i];
  }

  method ReuseDistances(ks: seq<Key>) returns (dists: seq<nat>, last: map<Key, nat>)
    ensures dists == Distances(ks)
    ensures |dists| == |set i: nat | i < |ks| && ks[i] in ks[..i]|
    ensures forall i: nat | i < |ks| && ks[i] in ks[..i] :: var r := |Repeats(ks[..i])|;
      && r < |dists| && 1 <= dists[r] <= i
      && ks[i - dists[r]] == ks[i] && ks[i] !in ks[i - dists[r] + 1..i]
    ensures IsLastMap(ks, last)
  {
    hide Repeats;
    dists, last := [], map[];
    for i := 0 to |ks|
      invariant dists == Distances(ks[..i])
      invariant IsLastMap(ks[..i], last)
    {
      var k := ks[i];
      assert ks[..i + 1] == ks[..i] + [k] && ks[..i + 1][..i] == ks[..i];
      LastMapGrows(ks, i, last);
      if k in last { dists := dists + [i - last[k]]; }
      last := last[k := i];
    }
    assert ks[..|ks|] == ks;
    Recorded(ks);
  }

  lemma Recorded(ks: seq<Key>)
    ensures |Distances(ks)| == |set i: nat | i < |ks| && ks[i] in ks[..i]|
    ensures forall i: nat | i < |ks| && ks[i] in ks[..i] :: var r := |Repeats(ks[..i])|;
      r < |Distances(ks)| && IsDistance(ks, i, Distances(ks)[r])
  {
    DistancesAre(ks);
    assert Repeats(ks) == set i: nat | i < |ks| && ks[i] in ks[..i];
    hide Distances, Repeats, IsDistance;
    forall i: nat | i < |ks| && ks[i] in ks[..i]
      ensures |Repeats(ks[..i])| < |Distances(ks)| && IsDistance(ks, i, Distances(ks)[|Repeats(ks[..i])|])
    {
      assert DistanceAt(ks, i, Distances(ks));
    }
  }

  lemma {:induction false} KeysAtMost(xs: seq<Key>)
    ensures |Keys(xs)| <= |xs|
  {
    if xs != [] {
      KeysAtMost(xs[1..]);
      assert Keys(xs) == {xs[0]} + Keys(xs[1..]);
    }
  }

  /** The last use is the only use with none after it. */
  lemma {:induction false} LastUseUnique(ks: seq<Key>, k: Key, p: nat)
    requires p < |ks| && ks[p] == k && k !in ks[p + 1..]
    ensures k in ks && LastUse(ks, k) == p
  {
    var n := |ks| - 1;
    if p < n {
      assert ks[p + 1..][n - p - 1] == ks[n];
      assert ks[..n][p + 1..] == ks[p + 1..][..n - p - 1];
      LastUseUnique(ks[..n], k, p);
    }
  }

  /** A recorded distance of at most `capacity` always hits. */
  lemma ShortReuseHits(ks: seq<Key>, i: nat, capacity: nat)
    requires i < |ks| && ks[i] in ks[..i]
    ensures var r := |Repeats(ks[..i])|; r < |Distances(ks)| && (Distances(ks)[r] <= capacity ==> Hit(ks, i, capacity))
  {
    DistancesAre(ks);
    assert DistanceAt(ks, i, Distances(ks));
    hide Distances, Repeats, LastUse;
    var p := i - Distances(ks)[|Repeats(ks[..i])|];
    assert ks[..i][p + 1..] == ks[p + 1..i];
    LastUseUnique(ks[..i], ks[i], p);
    KeysAtMost(ks[p + 1..i]);
  }

  /** With room for every distinct key every repeat hits: hits, repeats, and requests less distinct keys agree. */
  lemma {:induction false} EveryRepeatHits(ks: seq<Key>, capacity: nat)
    requires |Keys(ks)| <= capacity
    ensures |HitSet(ks, capacity)| == |Distances(ks)| == |ks| - |Keys(ks)|
  {
    if ks == [] {
      assert HitSet(ks, capacity) == {};
    } else {
      var n := |ks| - 1;
      var init, k := ks[..n], ks[n];
      assert ks == init + [k] && ks[..n + 1] == ks;
      assert Keys(ks) == Keys(init) + {k};
      SubsetSize(Keys(init), Keys(ks));
      hide HitSet, Hit, LastUse;
      EveryRepeatHits(init, capacity);
      HitSetGrows(ks, n, capacity);
      if k in init { RoomForAll(ks, capacity); }
    }
  }

  /** A repeat hits when the cache has room for every key of the stream. */
  lemma RoomForAll(ks: seq<Key>, capacity: nat)
    requires |ks| > 0 && |Keys(ks)| <= capacity && ks[|ks| - 1] in ks[..|ks| - 1]
    ensures Hit(ks, |ks| - 1, capacity)
    ensures Keys(ks) == Keys(ks[..|ks| - 1])
  {
    var n := |ks| - 1;
    var init, k := ks[..n], ks[n];
    assert ks == init + [k];
    var since := ks[LastUse(init, k) + 1..n];
    assert since == init[LastUse(init, k) + 1..];
    SubsetSize(Keys(since) + {k}, Keys(ks));
  }
}
