/** The benchmark's metric block: one `key=value` line per metric as it is produced, the reader that
    takes a previous run's output back into a map, and the diff of a run against it. */
module MetricLog {
  import opened Wrappers

  const TAG: string := "[ds4-bench] "

  /** A printed line: a metric, or anything else (a note, a delta). */
  datatype Line = Metric(key: string, value: string) | Other(text: string)

  function Printed(l: Line): string {
    match l
    case Metric(k, v) => TAG + k + "=" + v
    case Other(t) => t
  }

  /** Keys hold no '=' and no newline, values no newline; other lines do not look like metrics. */
  ghost predicate Plain(l: Line) {
    match l
    case Metric(k, v) => '\n' !in k && '=' !in k && '\n' !in v
    case Other(t) => '\n' !in t && !(TAG <= t)
  }

  /** The metrics of a log, the last write of a key winning. */
  function All(ls: seq<Line>): map<string, string> {
    if ls == [] then map[]
    else
      var m := All(ls[..|ls| - 1]);
      match ls[|ls| - 1]
      case Metric(k, v) => m[k := v]
      case Other(_) => m
  }

  /** What a log puts on stdout. */
  function Text(ls: seq<Line>): string {
    if ls == [] then "" else Text(ls[..|ls| - 1]) + Printed(ls[|ls| - 1]) + "\n"
  }

  lemma LogGrows(ls: seq<Line>, l: Line)
    ensures Text(ls + [l]) == Text(ls) + Printed(l) + "\n"
    ensures All(ls + [l]) == match l case Metric(k, v) => All(ls)[k := v] case Other(_) => All(ls)
  {
    assert (ls + [l])[..|ls|] == ls;
  }

  lemma PiecesPrint(out: string, k: string, v: string)
    ensures out + TAG + k + "=" + v + "\n" == out + Printed(Metric(k, v)) + "\n"
  {
    assert out + TAG + k + "=" + v == out + (TAG + k + "=" + v);
  }

  /** The emitter: the map it retains and the text it printed always belong to one log. */
  class Emit {
    var kv: map<string, string>
    var out: string
    ghost var log: seq<Line>

    ghost predicate Valid()
      reads this
    {
      kv == All(log) && out == Text(log)
    }

    constructor ()
      ensures Valid() && log == []
    {
      kv, out, log := map[], "", [];
    }

    method S(k: string, v: string)
      requires Valid()
      modifies this
      ensures Valid() && log == old(log) + [Metric(k, v)] && kv == old(kv)[k := v]
      ensures out == old(out) + "[ds4-bench] " + k + "=" + v + "\n"
    {
      hide Text, All, Printed;
      LogGrows(log, Metric(k, v));
      PiecesPrint(out, k, v);
      kv := kv[k := v];
      out := out + TAG + k + "=" + v + "\n";
      log := log + [Metric(k, v)];
    }

    method Note(t: string)
      requires Valid()
      modifies this
      ensures Valid() && log == old(log) + [Other("[ds4-note] " + t)] && kv == old(kv)
      ensures out == old(out) + ("[ds4-note] " + t) + "\n"
    {
      var text := "[ds4-note] " + t;
      LogGrows(log, Other(text));
      hide Text, All;
      out := out + text + "\n";
      log := log + [Other(text)];
    }

    /** A metric that could not be measured keeps its key. */
    method Na(k: string, why: string)
      requires Valid()
      modifies this
      ensures Valid() && log == old(log) + [Metric(k, "unavailable"), Other("[ds4-note] " + k + ": " + why)]
      ensures kv == old(kv)[k := "unavailable"]
      ensures out == old(out) + "[ds4-bench] " + k + "=" + "unavailable" + "\n"
                     + ("[ds4-note] " + (k + ": " + why)) + "\n"
    {
      hide Text, All;
      S(k, "unavailable");
      Note(k + ": " + why);
      assert "[ds4-note] " + (k + ": " + why) == "[ds4-note] " + k + ": " + why;
    }
  }

  // ---- the reader -----------------------------------------------------------------------

  /** Where a character first occurs at or after `from`, or the length. */
  function Find(s: string, c: char, from: nat): (p: nat)
    requires from <= |s|
    ensures from <= p <= |s| && c !in s[from..p] && (p < |s| ==> s[p] == c)
    decreases |s| - from
  {
    if from == |s| || s[from] == c then from
    else
      var p := Find(s, c, from + 1);
      assert s[from..p] == [s[from]] + s[from + 1..p];
      p
  }

  /** The lines getline returns: a newline ends a line, and an unended last line counts if it is not empty. */
  function Lines(text: string): seq<string> {
    if text == "" then []
    else
      var p := Find(text, '\n', 0);
      [text[..p]] + if p < |text| then Lines(text[p + 1..]) else []
  }

  datatype Pair = Pair(key: string, value: string)

  function Parse(line: string): Option<Pair> {
    if !(TAG <= line) then None
    else
      var body := line[|TAG|..];
      var eq := Find(body, '=', 0);
      if eq == |body| then None else Some(Pair(body[..eq], body[eq + 1..]))
  }

  function Collect(lines: seq<string>): map<string, string> {
    if lines == [] then map[]
    else
      var m := Collect(lines[..|lines| - 1]);
      match Parse(lines[|lines| - 1])
      case None => m
      case Some(p) => m[p.key := p.value]
  }

  /** An output with no metric line is an error. */
  method ReadBaseline(text: string) returns (out: map<string, string>, err: bool)
    ensures out == Collect(Lines(text)) && err == (out == map[])
  {
    hide Parse, Lines, Collect;
    out := map[];
    var at := 0;
    ghost var read: seq<string> := [];
    assert text[0..] == text && Collect([]) == map[] by { NothingCollected(); }
    while at < |text|
      invariant at <= |text| && read + Lines(text[at..]) == Lines(text) && out == Collect(read)
    {
      var p := Find(text, '\n', at);
      var line := text[at..p];
      LineAt(text, at);
      CollectNext(read, line);
      match Parse(line) {
        case None =>
        case Some(kv) => out := out[kv.key := kv.value];
      }
      read := read + [line];
      at := if p < |text| then p + 1 else p;
    }
    assert Lines(text[at..]) == [] by { NoLines(text[at..]); }
    assert read + [] == read;
    err := out == map[];
  }

  lemma NothingCollected()
    ensures Collect([]) == map[]
  {
  }

  lemma NoLines(s: string)
    requires |s| == 0
    ensures Lines(s) == []
  {
  }

  lemma CollectNext(read: seq<string>, line: string)
    ensures Collect(read + [line]) ==
      match Parse(line) case None => Collect(read) case Some(p) => Collect(read)[p.key := p.value]
  {
    hide Parse;
    assert (read + [line])[..|read|] == read;
  }

  /** The next line of the text from `at` on, and what follows it. */
  lemma LineAt(text: string, at: nat)
    requires at < |text|
    ensures var p := Find(text, '\n', at);
      Lines(text[at..]) == [text[at..p]] + Lines(text[if p < |text| then p + 1 else p..])
  {
    hide Lines, Find;
    FindShift(text, '\n', at);
    FirstLine(text[at..]);
    var p := Find(text, '\n', at);
    TakeDrop(text, at, p - at);
    if p < |text| { TakeDrop(text, at, p - at + 1); } else { NoLines(text[p..]); }
  }

  lemma TakeDrop(s: string, a: nat, n: nat)
    requires a + n <= |s|
    ensures s[a..][..n] == s[a..a + n] && s[a..][n..] == s[a + n..]
  {
  }

  lemma FirstLine(s: string)
    requires |s| > 0
    ensures var p := Find(s, '\n', 0); Lines(s) == [s[..p]] + if p < |s| then Lines(s[p + 1..]) else []
  {
  }

  /** Searching a suffix finds the same place. */
  lemma {:induction false} FindShift(s: string, c: char, from: nat)
    requires from <= |s|
    ensures Find(s[from..], c, 0) + from == Find(s, c, from)
  {
    FindUnique(s[from..], c, Find(s, c, from) - from);
    assert s[from..][..Find(s, c, from) - from] == s[from..Find(s, c, from)];
  }

  lemma CharIn(s: string, i: nat, n: nat)
    requires i < n <= |s|
    ensures s[i] in s[..n] && s[i] in s[0..n]
  {
    assert s[..n][i] == s[i] && s[0..n][i] == s[i];
  }

  /** The first occurrence is the only place with none before it. */
  lemma FindUnique(s: string, c: char, p: nat)
    requires p <= |s| && c !in s[..p] && (p < |s| ==> s[p] == c)
    ensures Find(s, c, 0) == p
  {
    var q := Find(s, c, 0);
    if q < p { CharIn(s, q, p); }
  }

  // ---- the round trip ------------------------------------------------------------------

  /** A metric line reads back as its key and value exactly when the key holds no '='. */
  lemma LineRoundTrip(k: string, v: string)
    ensures Parse(Printed(Metric(k, v))) == Some(Pair(k, v)) <==> '=' !in k
  {
    var line := Printed(Metric(k, v));
    var body := k + "=" + v;
    assert line == TAG + body && line[|TAG|..] == body;
    if '=' !in k {
      assert body[..|k|] == k;
      FindUnique(body, '=', |k|);
      assert body[|k| + 1..] == v;
    } else {
      var eq := Find(body, '=', 0);
      var i :| 0 <= i < |k| && k[i] == '=';
      assert body[i] == '=';
      assert eq < |k|;
    }
  }

  /** A tagged line with no '=' is no metric, and a last line without its newline is still a line. */
  lemma OddLines(t: string)
    ensures '=' !in t ==> Parse(TAG + t) == None
    ensures '\n' !in t && t != "" ==> Lines(t) == [t] && Lines(t + "\n") == [t]
    ensures Lines("") == []
  {
    assert (TAG + t)[|TAG|..] == t;
    if '=' !in t {
      assert t[..|t|] == t;
      FindUnique(t, '=', |t|);
    }
    if '\n' !in t && t != "" {
      assert t[..|t|] == t;
      FindUnique(t, '\n', |t|);
      assert (t + "\n")[..|t|] == t;
      FindUnique(t + "\n", '\n', |t|);
      assert (t + "\n")[|t| + 1..] == "";
    }
  }

  lemma {:induction false} LinesOfText(ls: seq<Line>, tail: string)
    requires forall i | 0 <= i < |ls| :: '\n' !in Printed(ls[i])
    ensures Lines(Text(ls) + tail) == PrintedAll(ls) + Lines(tail)
  {
    if ls == [] {
      assert "" + tail == tail;
    } else {
      var init, p := ls[..|ls| - 1], Printed(ls[|ls| - 1]);
      var rest := p + "\n" + tail;
      assert Text(ls) + tail == Text(init) + rest;
      LinesOfText(init, rest);
      assert rest[..|p|] == p && rest[|p| + 1..] == tail;
      FindUnique(rest, '\n', |p|);
      assert Lines(rest) == [p] + Lines(tail);
    }
  }

  function PrintedAll(ls: seq<Line>): seq<string> {
    if ls == [] then [] else PrintedAll(ls[..|ls| - 1]) + [Printed(ls[|ls| - 1])]
  }

  lemma PlainPrints(l: Line)
    requires Plain(l)
    ensures '\n' !in Printed(l)
    ensures match l
      case Metric(k, v) => Parse(Printed(l)) == Some(Pair(k, v))
      case Other(_) => Parse(Printed(l)) == None
  {
    if l.Metric? { LineRoundTrip(l.key, l.value); }
  }

  lemma {:induction false} CollectsAll(ls: seq<Line>)
    requires forall i | 0 <= i < |ls| :: Plain(ls[i])
    ensures Collect(PrintedAll(ls)) == All(ls)
  {
    hide Parse, Plain, Printed;
    if ls != [] {
      var init := ls[..|ls| - 1];
      CollectsAll(init);
      PlainPrints(ls[|ls| - 1]);
      assert PrintedAll(ls)[..|PrintedAll(ls)| - 1] == PrintedAll(init);
    }
  }

  /** Reading a log's text back gives exactly the emitter's map, whatever notes and deltas lie between the metrics. */
  lemma LogRoundTrip(ls: seq<Line>)
    requires forall i | 0 <= i < |ls| :: Plain(ls[i])
    ensures Collect(Lines(Text(ls))) == All(ls)
  {
    hide Plain, Printed;
    forall i | 0 <= i < |ls| ensures '\n' !in Printed(ls[i]) { PlainPrints(ls[i]); }
    LinesOfText(ls, "");
    assert Text(ls) + "" == Text(ls) && PrintedAll(ls) + [] == PrintedAll(ls);
    CollectsAll(ls);
  }

  // ---- the diff ------------------------------------------------------------------------

  /** What strtod makes of a value. */
  datatype Number = NotNumeric | Nan | Num(x: real)

  /** Floating-point equality: NaN differs from itself. */
  predicate SameNumber(x: Number, y: Number) { x.Num? && y.Num? && x.x == y.x }

  function Missing(base: map<string, string>, now: map<string, string>): set<string> { set k | k in now && k !in base }

  function Compared(num: string -> Number, base: map<string, string>, now: map<string, string>): set<string> {
    set k | k in now && k in base && !num(base[k]).NotNumeric? && !num(now[k]).NotNumeric?
  }

  function Changed(num: string -> Number, base: map<string, string>, now: map<string, string>): set<string> {
    set k | k in Compared(num, base, now) && !SameNumber(num(base[k]), num(now[k]))
  }

  /** Two numbers count as changed exactly when they differ, a NaN always, and a value that is no number never. */
  lemma ChangedExactly(num: string -> Number, base: map<string, string>, now: map<string, string>, k: string)
    requires k in now && k in base
    ensures num(base[k]).NotNumeric? || num(now[k]).NotNumeric? ==> k !in Changed(num, base, now)
    ensures num(base[k]).Num? && num(now[k]).Num? ==>
      (k in Changed(num, base, now) <==> num(base[k]).x != num(now[k]).x)
    ensures num(base[k]).Nan? && !num(now[k]).NotNumeric? ==> k in Changed(num, base, now)
    ensures num(now[k]).Nan? && !num(base[k]).NotNumeric? ==> k in Changed(num, base, now)
  {
  }

  lemma InSets(num: string -> Number, base: map<string, string>, now: map<string, string>, k: string)
    requires k in now
    ensures k in Missing(base, now) <==> k !in base
    ensures k in Compared(num, base, now) <==> k in base && !num(base[k]).NotNumeric? && !num(now[k]).NotNumeric?
    ensures k in Changed(num, base, now) <==> k in Compared(num, base, now) && !SameNumber(num(base[k]), num(now[k]))
  {
  }

  /** What one key of the run adds to each counter. */
  method DiffKey(num: string -> Number, base: map<string, string>, now: map<string, string>, k: string) returns (c: nat,
        h: nat, m: nat)
    requires k in now
    ensures c == if k in Compared(num, base, now) then 1 else 0
    ensures h == if k in Changed(num, base, now) then 1 else 0
    ensures m == if k in Missing(base, now) then 1 else 0
  {
    InSets(num, base, now, k);
    hide Compared, Changed, Missing;
    c, h, m := 0, 0, 0;
    if k !in base { return 0, 0, 1; }
    if num(base[k]).NotNumeric? || num(now[k]).NotNumeric? { return; }
    c := 1;
    h := if SameNumber(num(base[k]), num(now[k])) then 0 else 1;
  }

  /** n of the keys seen so far are in s. */
  ghost predicate Counted(s: set<string>, seen: set<string>, n: nat) { n == |s * seen| }

  lemma CountOne(s: set<string>, seen: set<string>, k: string, n: nat)
    requires k !in seen && Counted(s, seen, n)
    ensures Counted(s, seen + {k}, n + if k in s then 1 else 0)
  {
    assert s * (seen + {k}) == s * seen + if k in s then {k} else {};
  }

  lemma CountNone(s: set<string>)
    ensures Counted(s, {}, 0)
  {
    assert s * {} == {};
  }

  lemma CountAll(s: set<string>, keys: set<string>, n: nat)
    requires s <= keys && Counted(s, keys, n)
    ensures n == |s|
  {
    assert s * keys == s;
  }

  /** The keys are those seen and those left. */
  ghost predicate Parted(keys: set<string>, seen: set<string>, rest: set<string>) {
    seen !! rest && seen + rest == keys
  }

  lemma PartOne(keys: set<string>, seen: set<string>, rest: set<string>, k: string)
    requires Parted(keys, seen, rest) && k in rest
    ensures k in keys && k !in seen && Parted(keys, seen + {k}, rest - {k}) && |rest - {k}| < |rest|
  {
    assert rest == (rest - {k}) + {k};
  }

  lemma InKeys(num: string -> Number, base: map<string, string>, now: map<string, string>)
    ensures Missing(base, now) <= now.Keys
    ensures Changed(num, base, now) <= now.Keys && Compared(num, base, now) <= now.Keys
  {
  }

  lemma DiffSets(num: string -> Number, base: map<string, string>, now: map<string, string>)
    ensures Missing(base, now) == set k | k in now && k !in base
    ensures Compared(num, base, now)
      == set k | k in now && k in base && !num(base[k]).NotNumeric? && !num(now[k]).NotNumeric?
    ensures Changed(num, base, now)
      == set k | k in now && k in base && !num(base[k]).NotNumeric? && !num(now[k]).NotNumeric?
                 && !(num(base[k]).Num? && num(now[k]).Num? && num(base[k]).x == num(now[k]).x)
  {
  }

  /** The counters of the baseline diff. */
  method Diff(num: string -> Number, base: map<string, string>, now: map<string, string>) returns (compared: nat,
        changed: nat, missing: nat)
    ensures compared == |Compared(num, base, now)| && changed == |Changed(num, base, now)|
        && missing == |Missing(base, now)|
    ensures missing == |set k | k in now && k !in base|
    ensures compared == |set k | k in now && k in base && !num(base[k]).NotNumeric? && !num(now[k]).NotNumeric?|
    ensures changed == |set k | k in now && k in base && !num(base[k]).NotNumeric? && !num(now[k]).NotNumeric?
                               && !(num(base[k]).Num? && num(now[k]).Num? && num(base[k]).x == num(now[k]).x)|
  {
    DiffSets(num, base, now);
    ghost var cs, hs, ms := Compared(num, base, now), Changed(num, base, now), Missing(base, now);
    compared, changed, missing := 0, 0, 0;
    var rest := now.Keys;
    ghost var seen: set<string> := {};
    assert Parted(now.Keys, {}, rest);
    CountNone(cs);
    CountNone(hs);
    CountNone(ms);
    hide Compared, Changed, Missing, Counted, Parted;
    while rest != {}
      invariant Parted(now.Keys, seen, rest)
      invariant Counted(cs, seen, compared) && Counted(hs, seen, changed) && Counted(ms, seen, missing)
      decreases |rest|
    {
      var k :| k in rest;
      PartOne(now.Keys, seen, rest, k);
      var c, h, m := DiffKey(num, base, now, k);
      CountOne(cs, seen, k, compared);
      CountOne(hs, seen, k, changed);
      CountOne(ms, seen, k, missing);
      rest, seen := rest - {k}, seen + {k};
      compared, changed, missing := compared + c, changed + h, missing + m;
    }
    InKeys(num, base, now);
    assert seen == now.Keys by { PartEnd(now.Keys, seen); }
    CountAll(cs, now.Keys, compared);
    CountAll(hs, now.Keys, changed);
    CountAll(ms, now.Keys, missing);
  }

  lemma PartEnd(keys: set<string>, seen: set<string>)
    requires Parted(keys, seen, {})
    ensures seen == keys
  {
  }

  /** A run against its own log: no key is missing, and the keys that count as changed are exactly those whose value
      is NaN. */
  lemma SelfDiff(num: string -> Number, ls: seq<Line>)
    requires forall i | 0 <= i < |ls| :: Plain(ls[i])
    ensures var now := All(ls);
      var base := Collect(Lines(Text(ls)));
      && Missing(base, now) == {}
      && Changed(num, base, now) == set k | k in now && num(now[k]).Nan?
  {
    LogRoundTrip(ls);
  }
}
