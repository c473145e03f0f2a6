/**
  What the events of single runs add up to when many runs share one trace: the trace is any
  interleaving of runs, each of them possibly still in progress.
 */
module OlogTraces {
  import opened Prelude
  import opened SlidingWindow
  import opened OlogGate
  import opened OlogRuns

  /** An event together with the run it belongs to. */
  type Tagged = (nat, Event)

  /** What is asked, and the world it meets. */
  datatype Job = Job(request: Request, w: World)

  /** A job with the moment its gate was asked and whether the window had room then. */
  datatype Run = Run(job: Job, room: bool, now: real)

  function RunApproach(c: Config, job: Job): Approach {
    ApproachOf(c, job.request, job.w)
  }

  function RunEvents(c: Config, r: Run): seq<Event> {
    EventsOf(c, RunApproach(c, r.job), r.room, r.job.w, r.now)
  }

  function RunEnding(c: Config, r: Run): Ending {
    EndingOf(c, RunApproach(c, r.job), r.room, r.job.w)
  }

  /** The run will read attachment files and they cannot be read. */
  predicate FilesFail(job: Job) {
    Reading(job.request, job.w) && !job.w.filesReadable
  }

  function Tag(id: nat, t: seq<Event>): seq<Tagged> {
    seq(|t|, i requires 0 <= i < |t| => (id, t[i]))
  }

  /** The events of one run, in order. */
  function Of(g: seq<Tagged>, id: nat): seq<Tagged> {
    if g == [] then [] else Of(g[..|g| - 1], id) + (if g[|g| - 1].0 == id then [g[|g| - 1]] else [])
  }

  function Without(g: seq<Tagged>, id: nat): seq<Tagged> {
    if g == [] then [] else Without(g[..|g| - 1], id) + (if g[|g| - 1].0 == id then [] else [g[|g| - 1]])
  }

  /** Every run has done a prefix of its events. */
  ghost predicate Interleaves(c: Config, g: seq<Tagged>, runs: map<nat, Run>) {
    forall id: nat ::
      if id in runs then Of(g, id) <= Tag(id, RunEvents(c, runs[id])) else Of(g, id) == []
  }

  ghost predicate AllComplete(c: Config, g: seq<Tagged>, runs: map<nat, Run>) {
    forall id :: id in runs ==> Of(g, id) == Tag(id, RunEvents(c, runs[id]))
  }

  function Tally(g: seq<Tagged>, p: Tagged -> bool): nat {
    if g == [] then 0 else Tally(g[..|g| - 1], p) + (if p(g[|g| - 1]) then 1 else 0)
  }

  predicate IsToken(x: Tagged) { x.1.Token? }
  predicate IsSend(x: Tagged) { x.1.Send? }
  predicate IsAllow(x: Tagged) { x.1.Allow? }
  predicate IsDeny(x: Tagged) { x.1.Deny? }

  /** A terminal line: ALLOW or FAILED. */
  predicate IsTerminal(x: Tagged) { x.1.Allow? || x.1.Failed? }

  // ---------------------------------------------------------------------------------------
  // Tallies over interleavings are sums over runs
  // ---------------------------------------------------------------------------------------

  lemma TallySnoc(g: seq<Tagged>, x: Tagged, p: Tagged -> bool)
    ensures Tally(g + [x], p) == Tally(g, p) + (if p(x) then 1 else 0)
  {
    assert (g + [x])[..|g|] == g;
  }

  lemma OfSnoc(g: seq<Tagged>, x: Tagged, id: nat)
    ensures Of(g + [x], id) == if x.0 == id then Of(g, id) + [x] else Of(g, id)
    ensures Without(g + [x], id) == if x.0 == id then Without(g, id) else Without(g, id) + [x]
  {
    assert (g + [x])[..|g|] == g;
  }

  lemma {:induction false} TallySplit(g: seq<Tagged>, id: nat, p: Tagged -> bool)
    ensures Tally(g, p) == Tally(Of(g, id), p) + Tally(Without(g, id), p)
    ensures |g| == |Of(g, id)| + |Without(g, id)|
  {
    if g != [] {
      var front, x := g[..|g| - 1], g[|g| - 1];
      assert g == front + [x];
      TallySplit(front, id, p);
      OfSnoc(front, x, id);
      TallySnoc(front, x, p);
      TallySnoc(Of(front, id), x, p);
      TallySnoc(Without(front, id), x, p);
      hide Of, Without, Tally;
    }
  }

  lemma {:induction false} OfWithout(g: seq<Tagged>, x: nat, y: nat)
    ensures Of(Without(g, x), y) == if x == y then [] else Of(g, y)
  {
    if g != [] {
      var front, last := g[..|g| - 1], g[|g| - 1];
      assert g == front + [last];
      OfWithout(front, x, y);
      OfSnoc(front, last, x);
      OfSnoc(front, last, y);
      OfSnoc(Without(front, x), last, y);
      hide Of, Without;
    }
  }

  /** A bound that holds run by run holds for the interleaving. */
  lemma {:induction false} SumUp(g: seq<Tagged>, p: Tagged -> bool, q: Tagged -> bool)
    requires forall id: nat :: Tally(Of(g, id), p) <= Tally(Of(g, id), q)
    ensures Tally(g, p) <= Tally(g, q)
    decreases |g|
  {
    if g != [] {
      var id := g[|g| - 1].0;
      var rest := Without(g, id);
      TallySplit(g, id, p);
      TallySplit(g, id, q);
      assert |Of(g, id)| > 0;
      forall y: nat
        ensures Tally(Of(rest, y), p) <= Tally(Of(rest, y), q)
      {
        OfWithout(g, id, y);
      }
      SumUp(rest, p, q);
    }
  }

  // ---------------------------------------------------------------------------------------
  // One run, as far as it has got
  // ---------------------------------------------------------------------------------------

  lemma {:induction false} TallyNone(g: seq<Tagged>, p: Tagged -> bool)
    requires forall x :: x in g ==> !p(x)
    ensures Tally(g, p) == 0
  {
    if g != [] {
      TallyNone(g[..|g| - 1], p);
    }
  }

  lemma {:induction false} TallyAppend(a: seq<Tagged>, b: seq<Tagged>, p: Tagged -> bool)
    ensures Tally(a + b, p) == Tally(a, p) + Tally(b, p)
  {
    if b == [] {
      assert a + b == a;
    } else {
      var front, x := b[..|b| - 1], b[|b| - 1];
      assert b == front + [x] && a + b == (a + front) + [x];
      TallyAppend(a, front, p);
      TallySnoc(a + front, x, p);
      TallySnoc(front, x, p);
      hide Tally;
    }
  }

  /** Only what follows the probes counts: probes are none of the counted kinds. */
  lemma TailTally(id: nat, sources: seq<Source>, tail: seq<Event>, x: seq<Tagged>, p: Tagged -> bool)
    requires x <= Tag(id, Probes(sources) + tail)
    requires forall s :: !p((id, Probe(s)))
    ensures |x| <= |sources| ==> Tally(x, p) == 0
    ensures |x| > |sources| ==> Tally(x, p) == Tally(Tag(id, tail[..|x| - |sources|]), p)
  {
    hide Tally;
    forall i | 0 <= i < |x| && i < |sources|
      ensures !p(x[i])
    {
      assert x[i] == (id, Probe(sources[i]));
    }
    if |x| <= |sources| {
      TallyNone(x, p);
    } else {
      TallyNone(x[..|sources|], p);
      assert x == x[..|sources|] + x[|sources|..];
      TallyAppend(x[..|sources|], x[|sources|..], p);
      assert x[|sources|..] == Tag(id, tail[..|x| - |sources|]);
    }
  }

  /** The tally of a short trace, spelled out. */
  function Spelled(id: nat, t: seq<Event>, p: Tagged -> bool): nat {
    (if |t| > 0 && p((id, t[0])) then 1 else 0) + (if |t| > 1 && p((id, t[1])) then 1 else 0)
    + (if |t| > 2 && p((id, t[2])) then 1 else 0) + (if |t| > 3 && p((id, t[3])) then 1 else 0)
  }

  lemma SpelledOut(id: nat, t: seq<Event>, p: Tagged -> bool)
    requires |t| <= 4
    ensures Tally(Tag(id, t), p) == Spelled(id, t, p)
  {
    hide Tally;
    TagTallyNone(id, t, p);
    if |t| > 0 { TagTally(id, t, 0, p); }
    if |t| > 1 { TagTally(id, t, 1, p); }
    if |t| > 2 { TagTally(id, t, 2, p); }
    if |t| > 3 { TagTally(id, t, 3, p); }
    assert t[..|t|] == t;
  }

  lemma TagTally(id: nat, t: seq<Event>, k: nat, p: Tagged -> bool)
    requires k < |t|
    ensures Tally(Tag(id, t[..k + 1]), p) == Tally(Tag(id, t[..k]), p) + (if p((id, t[k])) then 1 else 0)
  {
    assert Tag(id, t[..k + 1]) == Tag(id, t[..k]) + [(id, t[k])];
    TallySnoc(Tag(id, t[..k]), (id, t[k]), p);
  }

  lemma TagTallyNone(id: nat, t: seq<Event>, p: Tagged -> bool)
    ensures Tally(Tag(id, t[..0]), p) == 0
  {
  }

  /** What a run does behind its probes. */
  function RunTail(c: Config, r: Run): seq<Event> {
    Finish(c, RunApproach(c, r.job), r.room, r.job.w, r.now)
  }

  /** A tail is nothing, a DENY line, or a token and its aftermath. */
  ghost predicate IsTail(t: seq<Event>, e: Ending) {
    if e.Denied? then t == [Deny(e.code)]
    else if !TookToken(e) then t == []
    else exists now, reading, gated, entry :: t == AfterToken(e, reading, gated, entry, now)
  }

  function AfterToken(e: Ending, reading: bool, gated: set<string>, entry: Option<string>, now: real): seq<Event> {
    [Token(now)] + Aftermath(e, reading, gated, entry)
  }

  lemma TailIs(c: Config, r: Run)
    ensures RunEvents(c, r) == Probes(RunApproach(c, r.job).probes) + RunTail(c, r)
    ensures IsTail(RunTail(c, r), RunEnding(c, r)) && |RunTail(c, r)| <= 4
    ensures RunEnding(c, r) == Stranded <==> TookToken(RunEnding(c, r)) && FilesFail(r.job)
  {
    var a := RunApproach(c, r.job);
    if a.verdict.Proceeds? {
      OnlyPermittedReachTheGate(c, r.job.request, r.job.w);
      var wr, e := a.verdict.write, RunEnding(c, r);
      hide ApproachOf, Reading;
      if !e.Denied? {
        assert RunTail(c, r) == AfterToken(e, wr.reading, wr.gated, wr.entry, r.now);
      }
    } else {
      StopsWithoutToken(c, r.job.request, r.job.w);
    }
  }

  lemma StopsWithoutToken(c: Config, req: Request, w: World)
    requires ApproachOf(c, req, w).verdict.Stops?
    ensures !TookToken(ApproachOf(c, req, w).verdict.e)
  {
    hide LevelOk, LevelProbes, EditOk, NamesKnown, NameProbes, EnvAndUrl, Preconditions;
  }

  /** How far a tail has got after `n` events, kind by kind. */
  lemma TailSoFar(id: nat, t: seq<Event>, e: Ending, n: nat)
    requires IsTail(t, e) && n <= |t|
    ensures Spelled(id, t[..n], IsSend) <= Spelled(id, t[..n], IsToken) <= 1
    ensures Spelled(id, t[..n], IsAllow) <= Spelled(id, t[..n], IsSend)
    ensures Spelled(id, t[..n], IsTerminal) <= Spelled(id, t[..n], IsToken)
    ensures Spelled(id, t[..n], IsToken) > 0 ==> Spelled(id, t[..n], IsDeny) == 0
  {
  }

  lemma WholeTail(id: nat, t: seq<Event>, e: Ending)
    requires IsTail(t, e)
    ensures Spelled(id, t, IsToken) == (if TookToken(e) then 1 else 0)
    ensures Spelled(id, t, IsTerminal) == (if TookToken(e) && e != Stranded then 1 else 0)
    ensures Spelled(id, t, IsDeny) == (if e.Denied? then 1 else 0)
    ensures Spelled(id, t, IsSend) == (if e == Lost || e == Done then 1 else 0)
  {
  }

  lemma SoFarSpelled(id: nat, c: Config, r: Run, x: seq<Tagged>, p: Tagged -> bool)
    requires x <= Tag(id, RunEvents(c, r))
    requires forall s :: !p((id, Probe(s)))
    ensures var n := |RunApproach(c, r.job).probes|;
            && |x| <= n + |RunTail(c, r)|
            && Tally(x, p) == if |x| <= n then 0 else Spelled(id, RunTail(c, r)[..|x| - n], p)
  {
    hide RunTail, RunApproach, Spelled, Tally, RunEnding, IsTail, FilesFail, RunEvents;
    var sources := RunApproach(c, r.job).probes;
    TailIs(c, r);
    assert |Tag(id, RunEvents(c, r))| == |sources| + |RunTail(c, r)|;
    hide Tag;
    TailTally(id, sources, RunTail(c, r), x, p);
    if |x| > |sources| {
      SpelledOut(id, RunTail(c, r)[..|x| - |sources|], p);
    }
  }

  /** What a run has done so far, kind by kind. */
  lemma RunSoFar(id: nat, c: Config, r: Run, x: seq<Tagged>)
    requires x <= Tag(id, RunEvents(c, r))
    ensures Tally(x, IsSend) <= Tally(x, IsToken) <= 1
    ensures Tally(x, IsAllow) <= Tally(x, IsSend)
    ensures Tally(x, IsTerminal) <= Tally(x, IsToken)
    ensures Tally(x, IsToken) > 0 ==> Tally(x, IsDeny) == 0
  {
    hide Tally, RunTail, RunApproach, RunEvents, RunEnding, IsTail, FilesFail, Spelled, Tag;
    SoFarSpelled(id, c, r, x, IsToken);
    SoFarSpelled(id, c, r, x, IsSend);
    SoFarSpelled(id, c, r, x, IsAllow);
    SoFarSpelled(id, c, r, x, IsTerminal);
    SoFarSpelled(id, c, r, x, IsDeny);
    TailIs(c, r);
    var n := |RunApproach(c, r.job).probes|;
    if |x| > n {
      TailSoFar(id, RunTail(c, r), RunEnding(c, r), |x| - n);
    }
  }

  /** What a run has done when it is over: one terminal line for a token, unless its attachment
      files failed; one DENY line if the gate refused. */
  lemma RunAtItsEnd(id: nat, c: Config, r: Run)
    ensures var x, e := Tag(id, RunEvents(c, r)), RunEnding(c, r);
            && Tally(x, IsToken) == (if TookToken(e) then 1 else 0)
            && Tally(x, IsTerminal) == (if TookToken(e) && !FilesFail(r.job) then 1 else 0)
            && Tally(x, IsDeny) == (if e.Denied? then 1 else 0)
            && Tally(x, IsSend) == (if e == Lost || e == Done then 1 else 0)
            && Tally(x, IsSend) <= Tally(x, IsTerminal)
  {
    hide Tally, RunTail, RunApproach, RunEnding, IsTail, FilesFail, Spelled;
    var x := Tag(id, RunEvents(c, r));
    SoFarSpelled(id, c, r, x, IsToken);
    SoFarSpelled(id, c, r, x, IsSend);
    SoFarSpelled(id, c, r, x, IsTerminal);
    SoFarSpelled(id, c, r, x, IsDeny);
    TailIs(c, r);
    WholeTail(id, RunTail(c, r), RunEnding(c, r));
    NothingYet(id);
    assert RunTail(c, r)[..|RunTail(c, r)|] == RunTail(c, r);
  }

  lemma NothingYet(id: nat)
    ensures Spelled(id, [], IsToken) == Spelled(id, [], IsSend) == 0
    ensures Spelled(id, [], IsTerminal) == Spelled(id, [], IsDeny) == 0
  {
  }

  // ---------------------------------------------------------------------------------------
  // All runs together
  // ---------------------------------------------------------------------------------------

  /** At every moment of every interleaving: no more requests than tokens, no more ALLOW lines
      than requests, no more terminal lines than tokens. */
  lemma AtEveryMoment(c: Config, g: seq<Tagged>, runs: map<nat, Run>)
    requires Interleaves(c, g, runs)
    ensures Tally(g, IsAllow) <= Tally(g, IsSend) <= Tally(g, IsToken)
    ensures Tally(g, IsTerminal) <= Tally(g, IsToken)
  {
    hide RunEvents;
    forall id: nat
      ensures Tally(Of(g, id), IsAllow) <= Tally(Of(g, id), IsSend) <= Tally(Of(g, id), IsToken)
      ensures Tally(Of(g, id), IsTerminal) <= Tally(Of(g, id), IsToken)
    {
      if id in runs {
        RunSoFar(id, c, runs[id], Of(g, id));
      }
    }
    SumUp(g, IsAllow, IsSend);
    SumUp(g, IsSend, IsToken);
    SumUp(g, IsTerminal, IsToken);
  }

  /** When all runs are over, every request has its terminal line; and tokens and terminal lines
      balance exactly when no run that took a token had files to read that cannot be read. */
  lemma WhenAllAreOver(c: Config, g: seq<Tagged>, runs: map<nat, Run>)
    requires Interleaves(c, g, runs) && AllComplete(c, g, runs)
    ensures Tally(g, IsSend) <= Tally(g, IsTerminal)
    ensures Tally(g, IsTerminal) == Tally(g, IsToken)
       <==> forall id :: id in runs && TookToken(RunEnding(c, runs[id])) ==> !FilesFail(runs[id].job)
  {
    hide RunEvents, RunEnding, FilesFail;
    forall id: nat
      ensures Tally(Of(g, id), IsSend) <= Tally(Of(g, id), IsTerminal) <= Tally(Of(g, id), IsToken)
      ensures (id in runs && TookToken(RunEnding(c, runs[id])) && FilesFail(runs[id].job))
         <==> Tally(Of(g, id), IsTerminal) < Tally(Of(g, id), IsToken)
    {
      if id in runs {
        RunAtItsEnd(id, c, runs[id]);
      }
    }
    SumUp(g, IsSend, IsTerminal);
    SumUp(g, IsTerminal, IsToken);
    if id :| id in runs && TookToken(RunEnding(c, runs[id])) && FilesFail(runs[id].job) {
      var rest := Without(g, id);
      TallySplit(g, id, IsTerminal);
      TallySplit(g, id, IsToken);
      forall y: nat
        ensures Tally(Of(rest, y), IsTerminal) <= Tally(Of(rest, y), IsToken)
      {
        OfWithout(g, id, y);
      }
      SumUp(rest, IsTerminal, IsToken);
    } else {
      SumUp(g, IsToken, IsTerminal);
    }
  }

  // ---------------------------------------------------------------------------------------
  // Requests per window
  // ---------------------------------------------------------------------------------------

  /** The moments at which tokens were taken, in order. */
  function Moments(g: seq<Tagged>): seq<real> {
    if g == [] then [] else Moments(g[..|g| - 1]) + (if g[|g| - 1].1.Token? then [g[|g| - 1].1.moment] else [])
  }

  function TokenIn(lo: real, hi: real): Tagged -> bool {
    (x: Tagged) => x.1.Token? && lo <= x.1.moment <= hi
  }

  /** A request of a run whose token was taken in the window. */
  function SendOfWindow(runs: map<nat, Run>, lo: real, hi: real): Tagged -> bool {
    (x: Tagged) => x.1.Send? && x.0 in runs && lo <= runs[x.0].now <= hi
  }

  lemma {:induction false} WindowTally(g: seq<Tagged>, lo: real, hi: real)
    ensures CountIn(Moments(g), lo, hi) == Tally(g, TokenIn(lo, hi))
  {
    if g != [] {
      var front, x := g[..|g| - 1], g[|g| - 1];
      assert g == front + [x];
      WindowTally(front, lo, hi);
      TallyAppend(front, [x], TokenIn(lo, hi));
      if x.1.Token? {
        assert (Moments(front) + [x.1.moment])[..|Moments(front)|] == Moments(front);
      } else {
        assert Moments(front) + [] == Moments(front);
      }
    }
  }

  lemma RunInWindow(id: nat, c: Config, runs: map<nat, Run>, x: seq<Tagged>, lo: real, hi: real)
    requires id in runs && x <= Tag(id, RunEvents(c, runs[id]))
    ensures Tally(x, SendOfWindow(runs, lo, hi)) <= Tally(x, TokenIn(lo, hi))
  {
    hide Tally, RunTail, RunApproach, RunEvents, RunEnding, FilesFail, Spelled, Tag, SendOfWindow, TokenIn, IsTail;
    var r := runs[id];
    KindsOfWindow(id, runs, lo, hi);
    SoFarSpelled(id, c, r, x, SendOfWindow(runs, lo, hi));
    SoFarSpelled(id, c, r, x, TokenIn(lo, hi));
    TailIs(c, r);
    var n := |RunApproach(c, r.job).probes|;
    if |x| > n {
      TailInWindow(id, c, runs, |x| - n, lo, hi);
    }
  }

  lemma KindsOfWindow(id: nat, runs: map<nat, Run>, lo: real, hi: real)
    ensures forall s :: !SendOfWindow(runs, lo, hi)((id, Probe(s))) && !TokenIn(lo, hi)((id, Probe(s)))
  {
  }

  lemma TailInWindow(id: nat, c: Config, runs: map<nat, Run>, n: nat, lo: real, hi: real)
    requires id in runs && n <= |RunTail(c, runs[id])|
    ensures var t := RunTail(c, runs[id])[..n];
            Spelled(id, t, SendOfWindow(runs, lo, hi)) <= Spelled(id, t, TokenIn(lo, hi))
  {
    hide ApproachOf, GateAnswer, WriteEnding;
  }

  /** If the tokens in a trace were handed out by the limiter, then of the mutating requests at
      most `limit` belong to runs admitted inside any one closed window. */
  lemma RequestsOfWindow(c: Config, g: seq<Tagged>, runs: map<nat, Run>, limit: nat, start: real)
    requires Interleaves(c, g, runs)
    requires Ascending(Moments(g)) && WellAdmitted(Moments(g), limit)
    ensures Tally(g, SendOfWindow(runs, start, start + WINDOW_SECONDS)) <= limit
  {
    hide RunEvents;
    var end := start + WINDOW_SECONDS;
    forall id: nat
      ensures Tally(Of(g, id), SendOfWindow(runs, start, end)) <= Tally(Of(g, id), TokenIn(start, end))
    {
      if id in runs {
        RunInWindow(id, c, runs, Of(g, id), start, end);
      }
    }
    SumUp(g, SendOfWindow(runs, start, end), TokenIn(start, end));
    WindowTally(g, start, end);
    RateBound(Moments(g), limit, start);
  }
}
