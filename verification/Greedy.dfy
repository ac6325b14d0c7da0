/** The two-stage model and the text a plain greedy loop prints: the reference every
    decode mode of the runner is compared with. */
module Greedy {
  import opened Blocks
  import opened Stage

  type Tok = int

  /** Stage A (embedding and the first blocks), stage B (the other blocks and the head).
      `pick` is the head and its argmax over one output row. A one-card run is a stage A with no blocks. */
  datatype Net = Net(cfg: Config, la: seq<Layer>, lb: seq<Layer>, embed: Tok -> Val, pick: Val -> Tok)

  function Embed(net: Net, toks: seq<Tok>): (xs: seq<Val>)
    ensures |xs| == |toks|
  {
    MapRows(net.embed, toks)
  }

  /** The rows stage A hands to stage B for a whole token history. */
  function WideRows(net: Net, h: seq<Tok>): (xs: seq<Val>)
    ensures |xs| == |h|
  {
    RefStage(net.cfg, net.la, Embed(net, h))
  }

  /** Stage B's output rows for a whole token history. */
  function MeanRows(net: Net, h: seq<Tok>): (xs: seq<Val>)
    ensures |xs| == |h|
  {
    RefStage(net.cfg, net.lb, WideRows(net, h))
  }

  /** The greedy next token after a history. */
  function Next(net: Net, h: seq<Tok>): Tok
    requires |h| > 0
  {
    net.pick(Last(MeanRows(net, h)))
  }

  /** The first n tokens a greedy continuation of the prompt prints. */
  function Continuation(net: Net, prompt: seq<Tok>, n: nat): (r: seq<Tok>)
    requires |prompt| > 0
    ensures |r| == n
  {
    if n == 0 then [] else
      var r := Continuation(net, prompt, n - 1);
      r + [Next(net, prompt + r)]
  }

  lemma {:induction false} GreedyPrefix(net: Net, prompt: seq<Tok>, m: nat, n: nat)
    requires |prompt| > 0 && m <= n
    ensures Continuation(net, prompt, m) == Continuation(net, prompt, n)[..m]
    decreases n
  {
    if m < n { GreedyPrefix(net, prompt, m, n - 1); }
  }

  /** The committed text after j tokens. */
  function Text(net: Net, prompt: seq<Tok>, j: nat): (h: seq<Tok>)
    requires |prompt| > 0
    ensures |h| == |prompt| + j
  {
    prompt + Continuation(net, prompt, j)
  }

  /** The text grows by the greedy next token. */
  lemma TextGrows(net: Net, prompt: seq<Tok>, j: nat)
    requires |prompt| > 0
    ensures Text(net, prompt, j + 1) == Text(net, prompt, j) + [Next(net, Text(net, prompt, j))]
    ensures Continuation(net, prompt, j + 1) == Continuation(net, prompt, j) + [Next(net, Text(net, prompt, j))]
  {
  }

  ghost predicate AHolds(net: Net, a: StageState, h: seq<Tok>) {
    Holds(net.cfg, net.la, a, Embed(net, h))
  }

  ghost predicate BHolds(net: Net, b: StageState, h: seq<Tok>) {
    Holds(net.cfg, net.lb, b, WideRows(net, h))
  }

  lemma RowsCausal(net: Net, h: seq<Tok>, n: nat)
    requires n <= |h|
    ensures WideRows(net, h[..n]) == WideRows(net, h)[..n]
    ensures MeanRows(net, h[..n]) == MeanRows(net, h)[..n]
  {
    assert Embed(net, h[..n]) == Embed(net, h)[..n];
    InputsCausal(net.cfg, net.la, Embed(net, h), n, |net.la|);
    InputsCausal(net.cfg, net.lb, WideRows(net, h), n, |net.lb|);
  }

  /** A row of a longer history's output is the last output row of its prefix. */
  lemma RowIsLast(net: Net, h: seq<Tok>, i: nat)
    requires i < |h|
    ensures MeanRows(net, h)[i] == Last(MeanRows(net, h[..i + 1]))
  {
    RowsCausal(net, h, i + 1);
  }

  lemma EmbedJoin(net: Net, h: seq<Tok>, toks: seq<Tok>)
    ensures Embed(net, h) + Embed(net, toks) == Embed(net, h + toks)
  {
  }

  lemma AForward(net: Net, a: StageState, h: seq<Tok>, toks: seq<Tok>)
    requires AHolds(net, a, h) && Accepts(net.cfg, a, |toks|, |h|)
    ensures var r := Forward(net.cfg, net.la, a, Embed(net, toks));
      && AHolds(net, r.state, h + toks)
      && r.rows == WideRows(net, h + toks)[|h|..]
      && (Records(a, |toks|) ==> Recorded(net.cfg, net.la, r.state, Embed(net, h), Embed(net, toks)))
  {
    EmbedJoin(net, h, toks);
    ForwardHolds(net.cfg, net.la, a, Embed(net, h), Embed(net, toks));
  }

  lemma WideJoin(net: Net, h: seq<Tok>, toks: seq<Tok>)
    ensures WideRows(net, h) + WideRows(net, h + toks)[|h|..] == WideRows(net, h + toks)
  {
    RowsCausal(net, h + toks, |h|);
    assert (h + toks)[..|h|] == h;
  }

  lemma BForward(net: Net, b: StageState, h: seq<Tok>, toks: seq<Tok>, xs: seq<Val>)
    requires BHolds(net, b, h) && Accepts(net.cfg, b, |toks|, |h|)
    requires xs == WideRows(net, h + toks)[|h|..]
    ensures var r := Forward(net.cfg, net.lb, b, xs);
      && BHolds(net, r.state, h + toks)
      && r.rows == MeanRows(net, h + toks)[|h|..]
      && (Records(b, |toks|) ==> Recorded(net.cfg, net.lb, r.state, WideRows(net, h), xs))
  {
    WideJoin(net, h, toks);
    ForwardHolds(net.cfg, net.lb, b, WideRows(net, h), xs);
  }

  /** The rows a chunk off..nx yields are those of one forward over the whole text, however the text is cut. */
  lemma ChunkRows(net: Net, text: seq<Tok>, off: nat, nx: nat)
    requires off <= nx <= |text|
    ensures MeanRows(net, text[..nx])[off..] == MeanRows(net, text)[off..nx]
  {
    hide MeanRows;
    RowsCausal(net, text, nx);
  }
}
