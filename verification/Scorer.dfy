/** The chunked perplexity scorer: forwards of any chunk size over a fixed text, each row's score
    against the token that follows it. */
module Scorer {
  import opened Arith
  import opened Blocks
  import opened Stage
  import opened StageObject
  import opened Greedy
  import opened Speculative
  import opened SpecLoop

  /** The score of the first n predictions, from one forward over the whole text. */
  function Score(net: Net, cost: (Val, Tok) -> real, ids: seq<Tok>, n: nat): real
    requires n == 0 || n < |ids|
  {
    if n == 0 then 0.0 else Score(net, cost, ids, n - 1) + cost(MeanRows(net, ids)[n - 1], ids[n])
  }

  lemma {:induction false} ScorePrefix(net: Net, cost: (Val, Tok) -> real, ids: seq<Tok>, m: nat, n: nat)
    requires n < m <= |ids|
    ensures Score(net, cost, ids, n) == Score(net, cost, ids[..m], n)
  {
    hide MeanRows;
    if n > 0 {
      ScorePrefix(net, cost, ids, m, n - 1);
      RowsCausal(net, ids, m);
    }
  }

  /** Under a cost that is zero for the token picked, greedy text adds nothing to its prompt's score: every row is
      scored against the token that follows it. */
  lemma {:induction false} GreedyCostsNothing(net: Net, cost: (Val, Tok) -> real, prompt: seq<Tok>, j: nat)
    requires |prompt| > 0 && forall v: Val :: cost(v, net.pick(v)) == 0.0
    ensures Score(net, cost, Text(net, prompt, j), |prompt| + j - 1) == Score(net, cost, prompt, |prompt| - 1)
  {
    hide MeanRows;
    var ids := Text(net, prompt, j);
    if j == 0 {
      assert ids == prompt;
    } else {
      var n := |prompt| + j - 1;
      GreedyCostsNothing(net, cost, prompt, j - 1);
      TextGrows(net, prompt, j - 1);
      assert ids[..n] == Text(net, prompt, j - 1);
      RowIsLast(net, ids, n - 1);
      assert ids[n] == net.pick(MeanRows(net, ids)[n - 1]);
      ScorePrefix(net, cost, ids, n, n - 1);
    }
  }

  function Min(a: nat, b: nat): nat { if a < b then a else b }

  /** How many predictions the first n rows of the text make: the last token predicts nothing. */
  function Predictions(ids: seq<Tok>, n: nat): (k: nat)
    ensures k <= n && (k == 0 || k < |ids|)
  {
    if n < |ids| then n else if |ids| == 0 then 0 else |ids| - 1
  }

  /** A chunk's rows against the tokens after them. */
  method ScoreChunk(net: Net, cost: (Val, Tok) -> real, ids: seq<Tok>, p0: nat, rows: seq<Val>,
        nll0: real) returns (nll: real, count: nat)
    requires p0 + |rows| <= |ids| && rows == MeanRows(net, ids)[p0..p0 + |rows|]
        && nll0 == Score(net, cost, ids, Predictions(ids, p0))
    requires p0 < |ids|
    ensures nll == Score(net, cost, ids, Predictions(ids, p0 + |rows|)) && count == Predictions(ids, p0 + |rows|) - p0
  {
    hide MeanRows;
    nll, count := nll0, 0;
    var t := 0;
    while t < |rows| && p0 + t + 1 < |ids|
      invariant t <= |rows| && p0 + t < |ids| && count == t && nll == Score(net, cost, ids, p0 + t)
    {
      nll := nll + cost(rows[t], ids[p0 + t + 1]);
      count := count + 1;
      t := t + 1;
    }
  }

  /** The rows forwarded for a text of n tokens: the last token is forwarded too, although it predicts nothing, unless a
      chunk ends just before it. Chunk size 1 starts with one chunk of 8. */
  function Used(n: nat, chunk: Pos): (u: nat)
    ensures u <= n <= u + 1
  {
    if n <= 1 then 0 else if (chunk == 1 && n <= 8) || (n - 1) % chunk != 0 then n else n - 1
  }

  /** The first chunk, which no later one exceeds. */
  function Widest(n: nat, chunk: Pos): nat { Min(if chunk == 1 then 8 else chunk, n) }

  /** Chunk boundaries are multiples of the chunk size, except where the text ends or the first 8 rows do. */
  lemma ChunkEnd(n: nat, chunk: Pos, p0: nat, len: nat)
    requires p0 + 1 < n && p0 % chunk == 0 && (chunk == 1 && 0 < p0 ==> 8 <= p0)
    requires len == Min(if chunk == 1 && p0 == 0 then 8 else chunk, n - p0)
    ensures 0 < len <= Widest(n, chunk) && p0 + len <= Used(n, chunk)
    ensures (p0 + len) % chunk == 0 || p0 + len == n
    ensures p0 == 0 ==> len == Widest(n, chunk)
  {
    var q := p0 / chunk;
    assert p0 == q * chunk;
    if len == chunk {
      assert p0 + len == (q + 1) * chunk + 0;
      DivModOf(q + 1, 0, chunk);
    }
    if p0 + len == n && len <= chunk {
      DivModOf(q, n - 1 - p0, chunk);
    }
  }

  /** Where the loop stops is how far it went. */
  lemma UsedUp(n: nat, chunk: Pos, p0: nat)
    requires p0 <= n <= p0 + 1 && p0 <= Used(n, chunk)
    requires p0 == n || (p0 % chunk == 0 && (chunk == 1 && 0 < p0 ==> 8 <= p0))
    ensures p0 == Used(n, chunk)
  {
  }

  /** Whatever the chunk size, a run that ends well scores each position once, exactly as one forward over the text
      would; it ends well exactly when the rows it forwards fit the context and the widest chunk a forward. */
  method ScoreText(net: Net, cost: (Val, Tok) -> real, ids: seq<Tok>, a: GlmStage, b: GlmStage, chunk: Pos)
    returns (ok: bool, nll: real, nPred: nat)
    requires Wired(net, a, b) && AHolds(net, a.View(), []) && BHolds(net, b.View(), [])
    modifies a, b
    ensures ok ==> nPred == (if ids == [] then 0 else |ids| - 1) && nll == Score(net, cost, ids, nPred)
    ensures ok ==>
      var h := ids[..Used(|ids|, chunk)];
      Wired(net, a, b) && AHolds(net, a.View(), h) && BHolds(net, b.View(), h)
    ensures ok <==>
      (1 < |ids| ==> Used(|ids|, chunk) <= Limit(net.cfg) && Widest(|ids|, chunk) <= net.cfg.maxChunk)
  {
    hide AHolds, BHolds, MeanRows, WideRows, Limit, Score, Used, Widest;
    nll, nPred := 0.0, 0;
    assert Score(net, cost, ids, 0) == 0.0 by { NothingScored(net, cost, ids); }
    var p0 := 0;
    assert ids[..0] == [];
    while p0 + 1 < |ids|
      invariant p0 <= |ids| && Wired(net, a, b) && AHolds(net, a.View(), ids[..p0]) && BHolds(net, b.View(), ids[..p0])
      invariant nPred == Predictions(ids, p0) && nll == Score(net, cost, ids, nPred)
      invariant p0 == |ids| || p0 % chunk == 0
      invariant 0 < p0 ==> 1 < |ids| && p0 <= Used(|ids|, chunk) && (chunk == 1 ==> 8 <= p0 || p0 == |ids|)
      invariant 0 < p0 ==> p0 <= Limit(net.cfg) && Widest(|ids|, chunk) <= net.cfg.maxChunk
      decreases |ids| - p0
    {
      var len := if chunk == 1 && p0 == 0 then Min(8, |ids| - p0) else Min(chunk, |ids| - p0);
      ChunkEnd(|ids|, chunk, p0, len);
      var step, rows := Chunk(net, ids, a, b, p0, len);
      if !step { return false, nll, nPred; }
      var n;
      nll, n := ScoreChunk(net, cost, ids, p0, rows, nll);
      nPred, p0 := nPred + n, p0 + len;
    }
    UsedUp(|ids|, chunk, p0);
    ok := true;
  }

  lemma NothingScored(net: Net, cost: (Val, Tok) -> real, ids: seq<Tok>)
    ensures Score(net, cost, ids, 0) == 0.0
  {
  }

  /** One chunk through both stages. */
  method Chunk(net: Net, ids: seq<Tok>, a: GlmStage, b: GlmStage, p0: nat, len: nat) returns (ok: bool, rows: seq<Val>)
    requires Wired(net, a, b) && 0 < len && p0 + len <= |ids| && AHolds(net, a.View(), ids[..p0])
        && BHolds(net, b.View(), ids[..p0])
    modifies a, b
    ensures ok <==> p0 + len <= Limit(net.cfg) && len <= net.cfg.maxChunk
    ensures ok ==>
      && Wired(net, a, b) && AHolds(net, a.View(), ids[..p0 + len]) && BHolds(net, b.View(), ids[..p0 + len])
      && rows == MeanRows(net, ids)[p0..p0 + len]
  {
    hide WideRows, MeanRows, Limit, Forward;
    var toks := ids[p0..p0 + len];
    ghost var h := ids[..p0];
    assert h + toks == ids[..p0 + len];
    AHoldsDepth(net, a.View(), b.View(), h);
    if Accepts(net.cfg, a.View(), len, p0) {
      AForward(net, a.View(), h, toks);
      BForward(net, b.View(), h, toks, WideRows(net, h + toks)[p0..]);
      ChunkRows(net, ids, p0, p0 + len);
    }
    ok, rows := VerifyWindow(net, a, b, toks, p0);
  }
}
