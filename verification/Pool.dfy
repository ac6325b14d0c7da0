/** Worker threads that claim items from one shared counter, as the expert-file writer and
    verifier both do: what is true of every interleaving of them. */
module Pool {
  /** One worker: before its buffers, between items, with an item claimed, past the stop check, and ended
      (`live` if it got its buffers). */
  datatype Worker = Starting | Ready | Claimed(k: nat) | Going(k: nat) | Done(live: bool)

  datatype Event<O> = Event(item: nat, outcome: O)

  /** n items; `strict` if a worker without buffers stops the run. */
  datatype Job = Job(n: nat, strict: bool)

  /** The shared counter and flag, the workers, and every item that was carried out, in order. */
  datatype State<O> = State(next: nat, stop: bool, ws: seq<Worker>, log: seq<Event<O>>)

  /** What an item's outcome may be, and which outcomes stop the run. */
  datatype Rules<!O> = Rules(allows: (nat, O) -> bool, stops: O -> bool)

  function Init<O>(workers: nat): State<O> {
    State(0, false, seq(workers, _ => Starting), [])
  }

  function SetWorker<O>(s: State<O>, t: nat, w: Worker): State<O>
    requires t < |s.ws|
  {
    s.(ws := s.ws[t := w])
  }

  /** Worker t takes its next step; `o` is the outcome if it carries an item out, `ok` whether it got its buffers. */
  predicate StepOf<O(==)>(job: Job, rules: Rules<O>, s: State<O>, s': State<O>, t: nat, ok: bool, o: O) {
    t < |s.ws| &&
    match s.ws[t]
    case Starting =>
      s' == if ok then SetWorker(s, t, Ready) else SetWorker(s, t, Done(false)).(stop := s.stop || job.strict)
    case Ready => s' == SetWorker(s, t, Claimed(s.next)).(next := s.next + 1)
    case Claimed(k) => s' == SetWorker(s, t, if k >= job.n || s.stop then Done(true) else Going(k))
    case Going(k) =>
      && rules.allows(k, o)
      && var w := if rules.stops(o) then Done(true) else Ready;
         s' == SetWorker(s, t, w).(log := s.log + [Event(k, o)], stop := s.stop || rules.stops(o))
    case Done(_) => false
  }

  ghost predicate Step<O(!new)>(job: Job, rules: Rules<O>, s: State<O>, s': State<O>) {
    exists t: nat, ok: bool, o: O :: StepOf(job, rules, s, s', t, ok, o)
  }

  ghost predicate Run<O(!new)>(job: Job, rules: Rules<O>, ss: seq<State<O>>) {
    |ss| > 0 && forall i | 0 <= i < |ss| - 1 :: Step(job, rules, ss[i], ss[i + 1])
  }

  predicate Finished<O>(s: State<O>) { forall t | 0 <= t < |s.ws| :: s.ws[t].Done? }

  predicate Holds(w: Worker, k: nat) { (w.Claimed? || w.Going?) && w.k == k }

  predicate Held<O>(s: State<O>, k: nat) { exists t | 0 <= t < |s.ws| :: Holds(s.ws[t], k) }

  predicate Carried<O>(log: seq<Event<O>>, k: nat) { exists i | 0 <= i < |log| :: log[i].item == k }

  predicate Busy(w: Worker) { w.Claimed? || w.Going? }

  /** Someone got its buffers. */
  predicate Live<O>(s: State<O>) {
    exists t | 0 <= t < |s.ws| :: s.ws[t] != Starting && s.ws[t] != Done(false)
  }

  /** No item is claimed or carried out twice. */
  ghost predicate Once<O(!new)>(job: Job, rules: Rules<O>, s: State<O>) {
    HeldOnce(job, s) && LoggedOnce(job, rules, s)
  }

  ghost predicate HeldOnce<O(!new)>(job: Job, s: State<O>) {
    && (forall t | 0 <= t < |s.ws| && Busy(s.ws[t]) :: s.ws[t].k < s.next && !Carried(s.log, s.ws[t].k))
    && (forall t, u | 0 <= t < u < |s.ws| && Busy(s.ws[t]) && Busy(s.ws[u]) :: s.ws[t].k != s.ws[u].k)
    && (forall t | 0 <= t < |s.ws| && s.ws[t].Going? :: s.ws[t].k < job.n)
  }

  ghost predicate LoggedOnce<O(!new)>(job: Job, rules: Rules<O>, s: State<O>) {
    && (forall i | 0 <= i < |s.log| ::
        s.log[i].item < s.next && s.log[i].item < job.n && rules.allows(s.log[i].item, s.log[i].outcome))
    && (forall i, j | 0 <= i < j < |s.log| :: s.log[i].item != s.log[j].item)
  }

  /** A worker ends only when the items have run out or the run has stopped, and a stopping outcome stops it. */
  ghost predicate Ends<O(!new)>(job: Job, rules: Rules<O>, s: State<O>) {
    && (s.stop || forall t | 0 <= t < |s.ws| :: s.ws[t] == Done(true) ==> s.next > job.n)
    && (s.stop || !job.strict || forall t | 0 <= t < |s.ws| :: s.ws[t] != Done(false))
    && (s.stop || forall i | 0 <= i < |s.log| :: !rules.stops(s.log[i].outcome))
  }

  /** Until the run stops, a claimed item is held or carried out. */
  ghost predicate NoneLost<O(!new)>(job: Job, s: State<O>) {
    s.stop || forall k: nat | k < s.next && k < job.n :: Carried(s.log, k) || Held(s, k)
  }

  ghost predicate Inv<O(!new)>(job: Job, rules: Rules<O>, s: State<O>) {
    Once(job, rules, s) && Ends(job, rules, s) && NoneLost(job, s) && (Live(s) || s.log == [])
  }

  lemma InitInv<O(!new)>(job: Job, rules: Rules<O>, workers: nat)
    ensures Inv(job, rules, Init<O>(workers))
  {
  }

  lemma CarryHeld<O(!new)>(job: Job, rules: Rules<O>, s: State<O>, s': State<O>, t: nat, ok: bool, o: O)
    requires Once(job, rules, s) && StepOf(job, rules, s, s', t, ok, o) && s.ws[t].Going?
    ensures HeldOnce(job, s')
  {
    forall u | 0 <= u < |s'.ws| && Busy(s'.ws[u])
      ensures !Carried(s'.log, s'.ws[u].k)
    {
      assert s'.ws[u] == s.ws[u] && s.ws[u].k != s.ws[t].k;
    }
  }

  lemma StepHeld<O(!new)>(job: Job, rules: Rules<O>, s: State<O>, s': State<O>, t: nat, ok: bool, o: O)
    requires Once(job, rules, s) && StepOf(job, rules, s, s', t, ok, o)
    ensures HeldOnce(job, s')
  {
    if s.ws[t].Going? {
      CarryHeld(job, rules, s, s', t, ok, o);
    } else if s.ws[t].Ready? {
      assert !Carried(s.log, s.next);
    }
  }

  lemma StepLogged<O(!new)>(job: Job, rules: Rules<O>, s: State<O>, s': State<O>, t: nat, ok: bool, o: O)
    requires Once(job, rules, s) && StepOf(job, rules, s, s', t, ok, o)
    ensures LoggedOnce(job, rules, s')
  {
  }

  lemma StepOnce<O(!new)>(job: Job, rules: Rules<O>, s: State<O>, s': State<O>, t: nat, ok: bool, o: O)
    requires Once(job, rules, s) && StepOf(job, rules, s, s', t, ok, o)
    ensures Once(job, rules, s')
  {
    hide HeldOnce, LoggedOnce, StepOf;
    StepHeld(job, rules, s, s', t, ok, o);
    StepLogged(job, rules, s, s', t, ok, o);
  }

  lemma StepEnds<O(!new)>(job: Job, rules: Rules<O>, s: State<O>, s': State<O>, t: nat, ok: bool, o: O)
    requires Once(job, rules, s) && Ends(job, rules, s) && StepOf(job, rules, s, s', t, ok, o)
    ensures Ends(job, rules, s')
  {
  }

  /** A claimed item stays held by the worker that holds it until it carries it out. */
  lemma StepNoneLost<O(!new)>(job: Job, rules: Rules<O>, s: State<O>, s': State<O>, t: nat, ok: bool, o: O)
    requires NoneLost(job, s) && StepOf(job, rules, s, s', t, ok, o)
    ensures NoneLost(job, s')
  {
    forall k: nat | !s'.stop && k < s'.next && k < job.n
      ensures Carried(s'.log, k) || Held(s', k)
    {
      if k == s.next {
        assert Holds(s'.ws[t], k);
      } else if Carried(s.log, k) {
        var i :| 0 <= i < |s.log| && s.log[i].item == k;
        assert s'.log[i].item == k;
      } else {
        assert Held(s, k);
        var u :| 0 <= u < |s.ws| && Holds(s.ws[u], k);
        if u == t && s.ws[t].Going? { assert s'.log[|s.log|].item == k; } else { assert Holds(s'.ws[u], k); }
      }
    }
  }

  lemma StepLive<O(!new)>(job: Job, rules: Rules<O>, s: State<O>, s': State<O>, t: nat, ok: bool, o: O)
    requires (Live(s) || s.log == []) && StepOf(job, rules, s, s', t, ok, o)
    ensures Live(s') || s'.log == []
  {
    if Live(s) {
      var u :| 0 <= u < |s.ws| && s.ws[u] != Starting && s.ws[u] != Done(false);
      assert s'.ws[u] != Starting && s'.ws[u] != Done(false);
    } else if s.ws[t].Going? {
      assert s'.ws[t] != Starting && s'.ws[t] != Done(false);
    }
  }

  /** Whatever the interleaving, every reachable state keeps the invariant. */
  lemma {:induction false} AnySchedule<O(!new)>(job: Job, rules: Rules<O>, workers: nat, ss: seq<State<O>>)
    requires Run(job, rules, ss) && ss[0] == Init<O>(workers)
    ensures Inv(job, rules, ss[|ss| - 1])
    ensures |ss[|ss| - 1].ws| == workers
    decreases |ss|
  {
    hide Once, Ends, NoneLost, Live;
    if |ss| == 1 {
      InitInv(job, rules, workers);
    } else {
      var init := ss[..|ss| - 1];
      AnySchedule(job, rules, workers, init);
      var s, s' := init[|init| - 1], ss[|ss| - 1];
      assert Step(job, rules, ss[|ss| - 2], ss[|ss| - 1]);
      var t, ok, o :| StepOf(job, rules, s, s', t, ok, o);
      StepOnce(job, rules, s, s', t, ok, o);
      StepEnds(job, rules, s, s', t, ok, o);
      StepNoneLost(job, rules, s, s', t, ok, o);
      StepLive(job, rules, s, s', t, ok, o);
    }
  }

  // ---- what a stopped run still does --------------------------------------------------------

  /** The workers past the stop check. */
  function PastCheck(ws: seq<Worker>): nat {
    if ws == [] then 0 else (if ws[0].Going? then 1 else 0) + PastCheck(ws[1..])
  }

  lemma {:induction false} GoingUpdate(ws: seq<Worker>, t: nat, w: Worker)
    requires t < |ws|
    ensures PastCheck(ws[t := w]) + (if ws[t].Going? then 1 else 0) == PastCheck(ws) + if w.Going? then 1 else 0
  {
    if t == 0 {
      assert ws[0 := w][1..] == ws[1..];
    } else {
      GoingUpdate(ws[1..], t - 1, w);
      assert ws[t := w][1..] == ws[1..][t - 1 := w];
    }
  }

  lemma {:induction false} GoingAtMost(ws: seq<Worker>)
    ensures PastCheck(ws) <= |ws|
  {
    if ws != [] { GoingAtMost(ws[1..]); }
  }

  lemma StoppedStep<O(!new)>(job: Job, rules: Rules<O>, s: State<O>, s': State<O>, t: nat, ok: bool, o: O)
    requires s.stop && StepOf(job, rules, s, s', t, ok, o)
    ensures s'.stop && |s'.ws| == |s.ws| && |s'.log| + PastCheck(s'.ws) == |s.log| + PastCheck(s.ws)
  {
    hide PastCheck;
    GoingUpdate(s.ws, t, s'.ws[t]);
  }

  /** Once the run has stopped it stays stopped, and only the items already past the check are carried out: at most one
      more for each worker. */
  lemma {:induction false} StopsSoon<O(!new)>(job: Job, rules: Rules<O>, ss: seq<State<O>>)
    requires Run(job, rules, ss) && ss[0].stop
    ensures var s := ss[|ss| - 1];
      && s.stop && |s.ws| == |ss[0].ws| && |s.log| + PastCheck(s.ws) == |ss[0].log| + PastCheck(ss[0].ws)
      && |s.log| <= |ss[0].log| + |ss[0].ws|
    decreases |ss|
  {
    GoingAtMost(ss[0].ws);
    hide StepOf, PastCheck;
    if |ss| > 1 {
      StopsSoon(job, rules, ss[..|ss| - 1]);
      var s, s' := ss[|ss| - 2], ss[|ss| - 1];
      assert Step(job, rules, ss[|ss| - 2], ss[|ss| - 1]);
      var t: nat, ok, o :| StepOf(job, rules, s, s', t, ok, o);
      StoppedStep(job, rules, s, s', t, ok, o);
    }
  }

  // ---- how a finished run ends ---------------------------------------------------------

  /** Every item was carried out exactly once, and nothing else was. */
  ghost predicate Covered<O(!new)>(n: nat, log: seq<Event<O>>) {
    && (forall k: nat | k < n :: Carried(log, k))
    && (forall i | 0 <= i < |log| :: log[i].item < n)
    && (forall i, j | 0 <= i < j < |log| :: log[i].item != log[j].item)
  }

  /** A run that ended without stopping, with a worker that got its buffers, carried out every item
      exactly once; one in which no worker got its buffers carried out none. */
  lemma FinishedRun<O(!new)>(job: Job, rules: Rules<O>, workers: nat, ss: seq<State<O>>)
    requires Run(job, rules, ss) && ss[0] == Init<O>(workers) && Finished(ss[|ss| - 1])
    ensures var s := ss[|ss| - 1];
      && (!s.stop && Live(s) ==> Covered(job.n, s.log))
      && (!Live(s) ==> s.log == [])
      && (!s.stop && job.strict && workers > 0 ==> Live(s))
  {
    AnySchedule(job, rules, workers, ss);
    var s := ss[|ss| - 1];
    if !s.stop && Live(s) {
      var t :| 0 <= t < |s.ws| && s.ws[t] != Starting && s.ws[t] != Done(false);
      assert s.ws[t] == Done(true);
      forall k: nat | k < job.n
        ensures Carried(s.log, k)
      {
        assert !Held(s, k);
      }
    }
    if !s.stop && job.strict && workers > 0 {
      assert s.ws[0].Done? && s.ws[0] != Done(false);
    }
  }

  // ---- every run ends --------------------------------------------------------------------

  function Rank(w: Worker, n: nat): nat {
    match w
    case Starting => 5
    case Ready => 2
    case Claimed(k) => if k < n then 4 else 1
    case Going(_) => 3
    case Done(_) => 0
  }

  function Ranks(ws: seq<Worker>, n: nat): nat {
    if ws == [] then 0 else Rank(ws[0], n) + Ranks(ws[1..], n)
  }

  lemma {:induction false} RanksUpdate(ws: seq<Worker>, n: nat, t: nat, w: Worker)
    requires t < |ws|
    ensures Ranks(ws[t := w], n) == Ranks(ws, n) - Rank(ws[t], n) + Rank(w, n)
  {
    if t == 0 {
      assert ws[0 := w][1..] == ws[1..];
    } else {
      RanksUpdate(ws[1..], n, t - 1, w);
      assert ws[t := w][1..] == ws[1..][t - 1 := w];
    }
  }

  function Work<O>(job: Job, s: State<O>): nat {
    3 * (if s.next < job.n then job.n - s.next else 0) + Ranks(s.ws, job.n)
  }

  /** Every step uses up work, so no schedule runs for ever. */
  lemma EveryRunEnds<O(!new)>(job: Job, rules: Rules<O>, s: State<O>, s': State<O>, t: nat, ok: bool, o: O)
    requires StepOf(job, rules, s, s', t, ok, o)
    ensures Work(job, s') < Work(job, s)
  {
    RanksUpdate(s.ws, job.n, t, s'.ws[t]);
  }
}
