/**
  The Olog gate as a step system: any number of runs at once, one event at a time, and a clock that
  moves on between any two of them. Asking the window and taking the token is one step, as the lock
  makes it; everything else may be interleaved. Nothing about the trace is assumed: it is what the
  steps make of it.
 */
module OlogSystem {
  import opened Prelude
  import opened SlidingWindow
  import opened OlogGate
  import opened OlogRuns
  import opened OlogTraces

  /** A run is still probing, or its gate has been asked: how many admissions the window then knew
      of, and the events still to come. */
  datatype Local =
    | Approaching(probed: nat)
    | Acting(run: Run, seen: nat, rest: seq<Event>)

  datatype State = State(clock: real, admitted: seq<real>, locals: map<nat, Local>, trace: seq<Tagged>)

  datatype Action = Tick(elapsed: real) | Advance(id: nat)

  /** The gate in front of its jobs. */
  datatype System = System(c: Config, limit: nat, jobs: map<nat, Job>)

  function Begin(sys: System, clock: real): State {
    State(clock, [], map id | id in sys.jobs :: Approaching(0), [])
  }

  /** The moment the gate is asked, after the last probe. */
  function Decide(sys: System, s: State, id: nat): State
    requires id in sys.jobs
  {
    var job := sys.jobs[id];
    match RunApproach(sys.c, job).verdict
    case Stops(e) => s.(locals := s.locals[id := Acting(Run(job, false, s.clock), |s.admitted|, StopLine(e))])
    case Proceeds(wr) =>
      var room := RoomFor(s.admitted, s.clock, sys.limit);
      var run := Run(job, room, s.clock);
      match GateAnswer(sys.c, wr, room)
      case Some(code) => s.(locals := s.locals[id := Acting(run, |s.admitted|, [Deny(code)])])
      case None =>
        s.(admitted := s.admitted + [s.clock],
           locals := s.locals[id := Acting(run, |s.admitted|,
                                           Aftermath(WriteEnding(wr.reading, job.w), wr.reading, wr.gated, wr.entry))],
           trace := s.trace + [(id, Token(s.clock))])
  }

  /** One event of one run, or time passing; an action that is not enabled changes nothing. */
  function Step(sys: System, s: State, a: Action): State {
    match a
    case Tick(d) => if d >= 0.0 then s.(clock := s.clock + d) else s
    case Advance(id) =>
      if id !in s.locals || id !in sys.jobs then s
      else match s.locals[id]
        case Approaching(k) =>
          var probes := RunApproach(sys.c, sys.jobs[id]).probes;
          if k < |probes| then
            s.(locals := s.locals[id := Approaching(k + 1)], trace := s.trace + [(id, Probe(probes[k]))])
          else Decide(sys, s, id)
        case Acting(run, seen, rest) =>
          if rest == [] then s
          else s.(locals := s.locals[id := Acting(run, seen, rest[1..])], trace := s.trace + [(id, rest[0])])
  }

  function Steps(sys: System, s: State, actions: seq<Action>): State
    decreases |actions|
  {
    if actions == [] then s else Steps(sys, Step(sys, s, actions[0]), actions[1..])
  }

  /** The run a local state belongs to; before the gate is asked, any will do. */
  function RunAt(job: Job, l: Local): Run {
    match l case Approaching(_) => Run(job, false, 0.0) case Acting(run, _, _) => run
  }

  function RunsAt(sys: System, s: State): map<nat, Run>
    requires s.locals.Keys == sys.jobs.Keys
  {
    map id | id in sys.jobs :: RunAt(sys.jobs[id], s.locals[id])
  }

  predicate Over(s: State, id: nat) {
    id in s.locals && s.locals[id].Acting? && s.locals[id].rest == []
  }

  // ---------------------------------------------------------------------------------------
  // The invariant
  // ---------------------------------------------------------------------------------------

  predicate NoToken(t: seq<Event>) {
    forall i :: 0 <= i < |t| ==> !t[i].Token?
  }

  /** The first `seen` admissions are the earlier ones, and the run's own, if it has one, is next. */
  predicate Divides(admitted: seq<real>, seen: nat, now: real, took: bool) {
    && seen <= |admitted|
    && (forall i :: 0 <= i < seen ==> admitted[i] <= now)
    && (forall i :: seen <= i < |admitted| ==> now <= admitted[i])
    && (took ==> seen < |admitted| && admitted[seen] == now)
  }

  /** The gate was asked at `now`, and its word on the window was right for the admissions until then. */
  ghost predicate AnswerOk(sys: System, clock: real, admitted: seq<real>, run: Run, seen: nat) {
    && run.now <= clock
    && Divides(admitted, seen, run.now, TookToken(RunEnding(sys.c, run)))
    && (RunApproach(sys.c, run.job).verdict.Proceeds? ==> run.room == RoomFor(admitted[..seen], run.now, sys.limit))
  }

  /** What a run has done and what it still has to do are together its events. */
  ghost predicate LocalOk(sys: System, clock: real, admitted: seq<real>, id: nat, job: Job, l: Local,
                          done: seq<Tagged>) {
    match l
    case Approaching(k) =>
      var probes := RunApproach(sys.c, job).probes;
      k <= |probes| && done == Tag(id, Probes(probes[..k]))
    case Acting(run, seen, rest) =>
      && run.job == job && NoToken(rest)
      && done + Tag(id, rest) == Tag(id, RunEvents(sys.c, run))
      && AnswerOk(sys, clock, admitted, run, seen)
  }

  ghost predicate LocalsOk(sys: System, s: State) {
    && s.locals.Keys == sys.jobs.Keys
    && forall id: nat ::
         if id in sys.jobs then LocalOk(sys, s.clock, s.admitted, id, sys.jobs[id], s.locals[id], Of(s.trace, id))
         else Of(s.trace, id) == []
  }

  /** The admissions are the tokens of the trace, and each of them found room. */
  ghost predicate WindowOk(limit: nat, clock: real, admitted: seq<real>, trace: seq<Tagged>) {
    && Moments(trace) == admitted
    && Ascending(admitted) && WellAdmitted(admitted, limit)
    && forall i :: 0 <= i < |admitted| ==> admitted[i] <= clock
  }

  ghost predicate Inv(sys: System, s: State) {
    LocalsOk(sys, s) && WindowOk(sys.limit, s.clock, s.admitted, s.trace)
  }

  lemma MomentsSnoc(g: seq<Tagged>, x: Tagged)
    ensures Moments(g + [x]) == Moments(g) + if x.1.Token? then [x.1.moment] else []
    ensures !x.1.Token? ==> Moments(g + [x]) == Moments(g)
  {
    assert (g + [x])[..|g|] == g;
  }

  /** One run moves on; the others have done nothing. */
  lemma LocalsMove(sys: System, s: State, s': State, id: nat, l: Local)
    requires LocalsOk(sys, s) && id in sys.jobs && s'.locals == s.locals[id := l]
    requires forall y: nat :: y in sys.jobs ==>
               LocalOk(sys, s'.clock, s'.admitted, y, sys.jobs[y], s.locals[y], Of(s.trace, y))
    requires forall y: nat :: y != id ==> Of(s'.trace, y) == Of(s.trace, y)
    requires LocalOk(sys, s'.clock, s'.admitted, id, sys.jobs[id], l, Of(s'.trace, id))
    ensures LocalsOk(sys, s')
  {
    hide LocalOk, Of;
  }

  /** One event of run `id` that is no token, with its local state moving on, keeps the rest. */
  lemma EventKeeps(sys: System, s: State, id: nat, x: Event, l: Local)
    requires Inv(sys, s) && id in sys.jobs && !x.Token?
    requires LocalOk(sys, s.clock, s.admitted, id, sys.jobs[id], l, Of(s.trace, id) + [(id, x)])
    ensures Inv(sys, s.(locals := s.locals[id := l], trace := s.trace + [(id, x)]))
  {
    hide LocalOk, Of, Ascending, WellAdmitted, Moments;
    var s' := s.(locals := s.locals[id := l], trace := s.trace + [(id, x)]);
    MomentsSnoc(s.trace, (id, x));
    assert WindowOk(sys.limit, s'.clock, s'.admitted, s'.trace);
    hide WindowOk;
    forall y: nat
      ensures Of(s'.trace, y) == if id == y then Of(s.trace, y) + [(id, x)] else Of(s.trace, y)
    {
      OfSnoc(s.trace, (id, x), y);
    }
    LocalsMove(sys, s, s', id, l);
  }

  lemma ProbeKeeps(sys: System, s: State, id: nat)
    requires Inv(sys, s) && id in sys.jobs && s.locals[id].Approaching?
    requires s.locals[id].probed < |RunApproach(sys.c, sys.jobs[id]).probes|
    ensures Inv(sys, Step(sys, s, Advance(id)))
  {
    hide RunApproach, WindowOk;
    var probes, k := RunApproach(sys.c, sys.jobs[id]).probes, s.locals[id].probed;
    assert LocalOk(sys, s.clock, s.admitted, id, sys.jobs[id], s.locals[id], Of(s.trace, id));
    assert Tag(id, Probes(probes[..k])) + [(id, Probe(probes[k]))] == Tag(id, Probes(probes[..k + 1]));
    EventKeeps(sys, s, id, Probe(probes[k]), Approaching(k + 1));
  }

  lemma ActKeeps(sys: System, s: State, id: nat)
    requires Inv(sys, s) && id in sys.jobs && s.locals[id].Acting? && s.locals[id].rest != []
    ensures Inv(sys, Step(sys, s, Advance(id)))
  {
    hide RunApproach, RunEvents, WindowOk, RoomFor;
    var l := s.locals[id];
    var x := l.rest[0];
    assert LocalOk(sys, s.clock, s.admitted, id, sys.jobs[id], l, Of(s.trace, id));
    assert Tag(id, l.rest) == [(id, x)] + Tag(id, l.rest[1..]);
    assert Of(s.trace, id) + ([(id, x)] + Tag(id, l.rest[1..])) == (Of(s.trace, id) + [(id, x)]) + Tag(id, l.rest[1..]);
    EventKeeps(sys, s, id, x, Acting(l.run, l.seen, l.rest[1..]));
  }

  /** The events of a run, cut where its gate is asked. */
  lemma CutAtGate(sys: System, id: nat, run: Run)
    ensures Tag(id, RunEvents(sys.c, run))
         == Tag(id, Probes(RunApproach(sys.c, run.job).probes)) + Tag(id, RunTail(sys.c, run))
  {
    hide RunApproach;
  }

  lemma AskedWithoutToken(sys: System, s: State, id: nat, run: Run, rest: seq<Event>)
    requires Inv(sys, s) && id in sys.jobs && s.locals[id].Approaching?
    requires s.locals[id].probed == |RunApproach(sys.c, sys.jobs[id]).probes|
    requires run.job == sys.jobs[id] && NoToken(rest) && RunTail(sys.c, run) == rest
    requires RunApproach(sys.c, run.job).verdict.Proceeds? ==> run.room == RoomFor(s.admitted, run.now, sys.limit)
    requires run.now == s.clock && !TookToken(RunEnding(sys.c, run))
    ensures Inv(sys, s.(locals := s.locals[id := Acting(run, |s.admitted|, rest)]))
  {
    assert forall i :: 0 <= i < |s.admitted| ==> s.admitted[i] <= s.clock;
    hide RunApproach, RunEvents, RunTail, RunEnding, WindowOk, RoomFor;
    var probes := RunApproach(sys.c, sys.jobs[id]).probes;
    assert LocalOk(sys, s.clock, s.admitted, id, sys.jobs[id], s.locals[id], Of(s.trace, id));
    assert probes[..|probes|] == probes && s.admitted[..|s.admitted|] == s.admitted;
    CutAtGate(sys, id, run);
    var l := Acting(run, |s.admitted|, rest);
    assert AnswerOk(sys, s.clock, s.admitted, run, |s.admitted|);
    assert LocalOk(sys, s.clock, s.admitted, id, run.job, l, Of(s.trace, id));
    LocalsMove(sys, s, s.(locals := s.locals[id := l]), id, l);
  }

  /** Time and further admissions do not change what a run knew. */
  lemma LaterStillOk(sys: System, id: nat, job: Job, l: Local, done: seq<Tagged>, clock: real, later: real,
                     admitted: seq<real>)
    requires LocalOk(sys, clock, admitted, id, job, l, done) && clock <= later
    ensures LocalOk(sys, later, admitted, id, job, l, done)
  {
    hide RunApproach, RunEvents, RunEnding, RoomFor, Divides;
  }

  lemma MoreStillOk(sys: System, id: nat, job: Job, l: Local, done: seq<Tagged>, clock: real, admitted: seq<real>)
    requires LocalOk(sys, clock, admitted, id, job, l, done)
    ensures LocalOk(sys, clock, admitted + [clock], id, job, l, done)
  {
    hide RunApproach, RunEvents, RunEnding, RoomFor;
    if l.Acting? {
      assert (admitted + [clock])[..l.seen] == admitted[..l.seen];
    }
  }

  lemma LocalsWithMore(sys: System, s: State)
    requires LocalsOk(sys, s)
    ensures forall id: nat :: id in sys.jobs ==>
              LocalOk(sys, s.clock, s.admitted + [s.clock], id, sys.jobs[id], s.locals[id], Of(s.trace, id))
  {
    hide LocalOk;
    forall id: nat | id in sys.jobs
      ensures LocalOk(sys, s.clock, s.admitted + [s.clock], id, sys.jobs[id], s.locals[id], Of(s.trace, id))
    {
      MoreStillOk(sys, id, sys.jobs[id], s.locals[id], Of(s.trace, id), s.clock, s.admitted);
    }
  }

  lemma TickKeeps(sys: System, s: State, d: real)
    requires Inv(sys, s) && d >= 0.0
    ensures Inv(sys, s.(clock := s.clock + d))
  {
    hide LocalOk, Of, Ascending, WellAdmitted, Moments;
    var s' := s.(clock := s.clock + d);
    assert WindowOk(sys.limit, s'.clock, s'.admitted, s'.trace);
    forall id: nat | id in sys.jobs
      ensures LocalOk(sys, s'.clock, s'.admitted, id, sys.jobs[id], s'.locals[id], Of(s'.trace, id))
    {
      LaterStillOk(sys, id, sys.jobs[id], s.locals[id], Of(s.trace, id), s.clock, s'.clock, s.admitted);
    }
  }

  lemma TokenTaken(sys: System, s: State, id: nat, run: Run, rest: seq<Event>)
    requires Inv(sys, s) && id in sys.jobs && s.locals[id].Approaching?
    requires s.locals[id].probed == |RunApproach(sys.c, sys.jobs[id]).probes|
    requires run == Run(sys.jobs[id], true, s.clock) && RoomFor(s.admitted, s.clock, sys.limit)
    requires NoToken(rest) && RunTail(sys.c, run) == [Token(s.clock)] + rest
    ensures Inv(sys, s.(admitted := s.admitted + [s.clock],
                        locals := s.locals[id := Acting(run, |s.admitted|, rest)],
                        trace := s.trace + [(id, Token(s.clock))]))
  {
    hide LocalOk, Of, RunTail, RunApproach, Ascending, WellAdmitted, Moments, Tag, CountIn;
    var x, l := (id, Token(s.clock)), Acting(run, |s.admitted|, rest);
    var s' := s.(admitted := s.admitted + [s.clock], locals := s.locals[id := l], trace := s.trace + [x]);
    MomentsSnoc(s.trace, x);
    AdmitHistory(s.admitted, s.clock, sys.limit);
    assert WindowOk(sys.limit, s'.clock, s'.admitted, s'.trace);
    hide WindowOk, RoomFor;
    LocalsWithMore(sys, s);
    TokenLocal(sys, s, id, run, rest);
    forall y: nat
      ensures Of(s'.trace, y) == if id == y then Of(s.trace, y) + [x] else Of(s.trace, y)
    {
      OfSnoc(s.trace, x, y);
    }
    LocalsMove(sys, s, s', id, l);
  }

  lemma TokenLocal(sys: System, s: State, id: nat, run: Run, rest: seq<Event>)
    requires LocalsOk(sys, s) && forall i :: 0 <= i < |s.admitted| ==> s.admitted[i] <= s.clock
    requires id in sys.jobs && s.locals[id].Approaching?
    requires s.locals[id].probed == |RunApproach(sys.c, sys.jobs[id]).probes|
    requires run == Run(sys.jobs[id], true, s.clock) && RoomFor(s.admitted, s.clock, sys.limit)
    requires NoToken(rest) && RunTail(sys.c, run) == [Token(s.clock)] + rest
    ensures LocalOk(sys, s.clock, s.admitted + [s.clock], id, sys.jobs[id], Acting(run, |s.admitted|, rest),
                    Of(s.trace, id) + [(id, Token(s.clock))])
  {
    hide RunApproach, RunEvents, RunTail, RunEnding, RoomFor;
    var probes := RunApproach(sys.c, sys.jobs[id]).probes;
    assert LocalOk(sys, s.clock, s.admitted, id, sys.jobs[id], s.locals[id], Of(s.trace, id));
    assert probes[..|probes|] == probes && (s.admitted + [s.clock])[..|s.admitted|] == s.admitted;
    CutAtGate(sys, id, run);
    var done, x := Of(s.trace, id), (id, Token(s.clock));
    assert Tag(id, [Token(s.clock)] + rest) == [x] + Tag(id, rest);
    assert done + ([x] + Tag(id, rest)) == (done + [x]) + Tag(id, rest);
  }

  lemma DecideKeeps(sys: System, s: State, id: nat)
    requires Inv(sys, s) && id in sys.jobs && s.locals[id].Approaching?
    requires s.locals[id].probed == |RunApproach(sys.c, sys.jobs[id]).probes|
    ensures Inv(sys, Decide(sys, s, id))
  {
    hide Inv, RunApproach, RoomFor, GateAnswer;
    var job := sys.jobs[id];
    match RunApproach(sys.c, job).verdict
    case Stops(e) =>
      StopsAlways(sys.c, job);
      AskedWithoutToken(sys, s, id, Run(job, false, s.clock), StopLine(e));
    case Proceeds(wr) =>
      var room := RoomFor(s.admitted, s.clock, sys.limit);
      match GateAnswer(sys.c, wr, room)
      case Some(code) =>
        AskedWithoutToken(sys, s, id, Run(job, room, s.clock), [Deny(code)]);
      case None =>
        GateNeedsRoom(sys.c, wr, room);
        TokenTaken(sys, s, id, Run(job, room, s.clock),
                   Aftermath(WriteEnding(wr.reading, job.w), wr.reading, wr.gated, wr.entry));
  }

  lemma GateNeedsRoom(c: Config, wr: Write, room: bool)
    requires GateAnswer(c, wr, room).None?
    ensures room
  {
  }

  /** Every step of every run keeps the invariant. */
  lemma StepKeeps(sys: System, s: State, a: Action)
    requires Inv(sys, s)
    ensures Inv(sys, Step(sys, s, a))
  {
    hide Inv, RunApproach, Decide;
    match a
    case Tick(d) =>
      if d >= 0.0 {
        TickKeeps(sys, s, d);
      }
    case Advance(id) =>
      if id in sys.jobs && id in s.locals {
        match s.locals[id]
        case Approaching(k) =>
          ProbedWithin(sys, s, id);
          if k < |RunApproach(sys.c, sys.jobs[id]).probes| {
            ProbeKeeps(sys, s, id);
          } else {
            DecideKeeps(sys, s, id);
          }
        case Acting(_, _, rest) =>
          if rest != [] {
            ActKeeps(sys, s, id);
          }
      }
  }

  lemma ProbedWithin(sys: System, s: State, id: nat)
    requires Inv(sys, s) && id in sys.jobs && s.locals[id].Approaching?
    ensures s.locals[id].probed <= |RunApproach(sys.c, sys.jobs[id]).probes|
  {
    hide RunApproach;
    assert LocalOk(sys, s.clock, s.admitted, id, sys.jobs[id], s.locals[id], Of(s.trace, id));
  }

  lemma {:induction false} StepsKeep(sys: System, s: State, actions: seq<Action>)
    requires Inv(sys, s)
    ensures Inv(sys, Steps(sys, s, actions))
    decreases |actions|
  {
    hide Inv, Step;
    if actions != [] {
      StepKeeps(sys, s, actions[0]);
      StepsKeep(sys, Step(sys, s, actions[0]), actions[1..]);
    }
  }

  function Reached(sys: System, clock: real, actions: seq<Action>): State {
    Steps(sys, Begin(sys, clock), actions)
  }

  lemma BeginsOk(sys: System, clock: real)
    ensures Inv(sys, Begin(sys, clock))
  {
    hide RunApproach;
    var s := Begin(sys, clock);
    forall id: nat | id in sys.jobs
      ensures LocalOk(sys, s.clock, s.admitted, id, sys.jobs[id], s.locals[id], Of(s.trace, id))
    {
      assert Tag(id, Probes(RunApproach(sys.c, sys.jobs[id]).probes[..0])) == [];
    }
  }

  lemma ReachedOk(sys: System, clock: real, actions: seq<Action>)
    ensures Inv(sys, Reached(sys, clock, actions))
  {
    BeginsOk(sys, clock);
    StepsKeep(sys, Begin(sys, clock), actions);
  }

  /** The trace of a reached state interleaves its runs. */
  lemma InterleavesNow(sys: System, s: State)
    requires LocalsOk(sys, s)
    ensures Interleaves(sys.c, s.trace, RunsAt(sys, s))
    ensures (forall id :: id in sys.jobs ==> Over(s, id)) ==> AllComplete(sys.c, s.trace, RunsAt(sys, s))
  {
    hide RunApproach;
    forall id: nat | id in sys.jobs
      ensures Of(s.trace, id) <= Tag(id, RunEvents(sys.c, RunsAt(sys, s)[id]))
      ensures Over(s, id) ==> Of(s.trace, id) == Tag(id, RunEvents(sys.c, RunsAt(sys, s)[id]))
    {
      assert LocalOk(sys, s.clock, s.admitted, id, sys.jobs[id], s.locals[id], Of(s.trace, id));
      PrefixNow(sys, s.clock, s.admitted, id, sys.jobs[id], s.locals[id], Of(s.trace, id));
    }
  }

  lemma PrefixNow(sys: System, clock: real, admitted: seq<real>, id: nat, job: Job, l: Local, done: seq<Tagged>)
    requires LocalOk(sys, clock, admitted, id, job, l, done)
    ensures done <= Tag(id, RunEvents(sys.c, RunAt(job, l)))
    ensures l.Acting? && l.rest == [] ==> done == Tag(id, RunEvents(sys.c, RunAt(job, l)))
  {
    hide RunApproach, RunTail, RoomFor;
    match l
    case Approaching(k) =>
      var probes := RunApproach(sys.c, job).probes;
      CutAtGate(sys, id, RunAt(job, l));
      assert Tag(id, Probes(probes[..k])) == Tag(id, Probes(probes))[..k];
      hide RunEvents;
    case Acting(run, _, rest) =>
      hide RunEvents;
      if rest == [] {
        assert done + [] == done;
      }
  }

  // ---------------------------------------------------------------------------------------
  // What holds of every run of the system
  // ---------------------------------------------------------------------------------------

  /** Of all the requests ever sent, at most `limit` belong to runs admitted inside any one closed
      window, wherever it starts and however the runs are interleaved. */
  lemma RequestsPerWindow(sys: System, clock: real, actions: seq<Action>, start: real)
    ensures var s := Reached(sys, clock, actions);
            && s.locals.Keys == sys.jobs.Keys
            && Tally(s.trace, SendOfWindow(RunsAt(sys, s), start, start + 60.0)) <= sys.limit
  {
    hide Reached, LocalOk;
    var s := Reached(sys, clock, actions);
    ReachedOk(sys, clock, actions);
    InterleavesNow(sys, s);
    RequestsOfWindow(sys.c, s.trace, RunsAt(sys, s), sys.limit, start);
  }

  /** At every moment: no more ALLOW lines than requests, no more requests than tokens, no more
      terminal lines than tokens; and every answer about the window was right when it was given: for
      the admissions up to that moment, the run's own following them if it has one, whatever other
      runs do before and after. */
  lemma AtAnyMoment(sys: System, clock: real, actions: seq<Action>)
    ensures var g := Reached(sys, clock, actions).trace;
            && Tally(g, IsAllow) <= Tally(g, IsSend) <= Tally(g, IsToken)
            && Tally(g, IsTerminal) <= Tally(g, IsToken)
    ensures var s := Reached(sys, clock, actions);
            forall id :: id in sys.jobs && id in s.locals && s.locals[id].Acting? ==>
              var Acting(run, seen, _) := s.locals[id];
              && Divides(s.admitted, seen, run.now, TookToken(RunEnding(sys.c, run)))
              && (RunApproach(sys.c, run.job).verdict.Proceeds? ==>
                    run.room == RoomFor(s.admitted[..seen], run.now, sys.limit))
  {
    hide Reached, RunApproach, RunEvents, RunEnding, RoomFor, Divides;
    var s := Reached(sys, clock, actions);
    ReachedOk(sys, clock, actions);
    InterleavesNow(sys, s);
    AtEveryMoment(sys.c, s.trace, RunsAt(sys, s));
    forall id: nat | id in sys.jobs
      ensures LocalOk(sys, s.clock, s.admitted, id, sys.jobs[id], s.locals[id], Of(s.trace, id))
    {
    }
  }

  /** When every run is over, requests and terminal lines balance as they do run by run. */
  lemma OnceAllAreOver(sys: System, clock: real, actions: seq<Action>)
    requires forall id :: id in sys.jobs ==> Over(Reached(sys, clock, actions), id)
    ensures var s := Reached(sys, clock, actions);
            && s.locals.Keys == sys.jobs.Keys
            && Tally(s.trace, IsSend) <= Tally(s.trace, IsTerminal)
            && (Tally(s.trace, IsTerminal) == Tally(s.trace, IsToken)
                <==> forall id :: id in sys.jobs && TookToken(RunEnding(sys.c, RunsAt(sys, s)[id])) ==>
                       !FilesFail(sys.jobs[id]))
  {
    hide Reached, LocalOk, RunEnding, FilesFail;
    var s := Reached(sys, clock, actions);
    ReachedOk(sys, clock, actions);
    InterleavesNow(sys, s);
    WhenAllAreOver(sys.c, s.trace, RunsAt(sys, s));
    forall id | id in sys.jobs
      ensures RunsAt(sys, s)[id].job == sys.jobs[id]
    {
      JobOfLocal(sys, s, id);
    }
  }

  lemma JobOfLocal(sys: System, s: State, id: nat)
    requires LocalsOk(sys, s) && id in sys.jobs
    ensures RunsAt(sys, s)[id].job == sys.jobs[id]
  {
    hide RunApproach, RunEvents;
    assert LocalOk(sys, s.clock, s.admitted, id, sys.jobs[id], s.locals[id], Of(s.trace, id));
  }

  // ---------------------------------------------------------------------------------------
  // A run left alone, and which systems never lose a token
  // ---------------------------------------------------------------------------------------

  function Advances(id: nat, n: nat): seq<Action> {
    seq(n, _ => Advance(id))
  }

  lemma {:induction false} StepsAppend(sys: System, s: State, a: seq<Action>, b: seq<Action>)
    ensures Steps(sys, s, a + b) == Steps(sys, Steps(sys, s, a), b)
    decreases |a|
  {
    hide Step;
    if a == [] {
      assert a + b == b;
    } else {
      assert (a + b)[1..] == a[1..] + b;
      StepsAppend(sys, Step(sys, s, a[0]), a[1..], b);
    }
  }

  lemma FirstAdvance(sys: System, s: State, id: nat, n: nat)
    requires n > 0
    ensures Steps(sys, s, Advances(id, n)) == Steps(sys, Step(sys, s, Advance(id)), Advances(id, n - 1))
  {
    hide Step;
    assert Advances(id, n)[1..] == Advances(id, n - 1);
  }

  lemma {:induction false} ProbesDone(sys: System, s: State, id: nat, n: nat)
    requires id in sys.jobs && id in s.locals && s.locals[id].Approaching?
    requires s.locals[id].probed + n == |RunApproach(sys.c, sys.jobs[id]).probes|
    ensures var probes, k := RunApproach(sys.c, sys.jobs[id]).probes, s.locals[id].probed;
            var after := s.(locals := s.locals[id := Approaching(|probes|)],
                            trace := s.trace + Tag(id, Probes(probes[k..])));
            Steps(sys, s, Advances(id, n)) == after
    decreases n
  {
    hide RunApproach, Decide;
    var probes, k := RunApproach(sys.c, sys.jobs[id]).probes, s.locals[id].probed;
    if n == 0 {
      assert s.locals[id := Approaching(k)] == s.locals;
      assert s.trace + Tag(id, Probes(probes[k..])) == s.trace;
    } else {
      var s1 := Step(sys, s, Advance(id));
      FirstAdvance(sys, s, id, n);
      ProbesDone(sys, s1, id, n - 1);
      hide Steps, Step;
      assert [(id, Probe(probes[k]))] + Tag(id, Probes(probes[k + 1..])) == Tag(id, Probes(probes[k..]));
      Assoc(s.trace, [(id, Probe(probes[k]))], Tag(id, Probes(probes[k + 1..])));
      assert s1.locals[id := Approaching(|probes|)] == s.locals[id := Approaching(|probes|)];
    }
  }

  lemma Assoc<T>(a: seq<T>, b: seq<T>, c: seq<T>)
    ensures (a + b) + c == a + (b + c)
  {
  }

  lemma {:induction false} ActsDone(sys: System, s: State, id: nat)
    requires id in sys.jobs && id in s.locals && s.locals[id].Acting?
    ensures var Acting(run, seen, rest) := s.locals[id];
            var after := s.(locals := s.locals[id := Acting(run, seen, [])], trace := s.trace + Tag(id, rest));
            Steps(sys, s, Advances(id, |rest|)) == after
    decreases |s.locals[id].rest|
  {
    hide RunApproach, Decide;
    var Acting(run, seen, rest) := s.locals[id];
    if rest == [] {
      assert s.locals[id := Acting(run, seen, [])] == s.locals;
      assert s.trace + Tag(id, rest) == s.trace;
    } else {
      var s1 := Step(sys, s, Advance(id));
      FirstAdvance(sys, s, id, |rest|);
      ActsDone(sys, s1, id);
      hide Steps, Step;
      assert [(id, rest[0])] + Tag(id, rest[1..]) == Tag(id, rest);
      Assoc(s.trace, [(id, rest[0])], Tag(id, rest[1..]));
      assert s1.locals[id := Acting(run, seen, [])] == s.locals[id := Acting(run, seen, [])];
    }
  }

  /** What asking the gate does: the token, if there is one, and the rest of the tail. */
  lemma Asked(sys: System, s: State, id: nat)
    requires id in sys.jobs
    ensures var run := Run(sys.jobs[id], RoomFor(s.admitted, s.clock, sys.limit), s.clock);
            var s' := Decide(sys, s, id);
            && id in s'.locals && s'.locals[id].Acting? && s'.clock == s.clock
            && s'.trace + Tag(id, s'.locals[id].rest) == s.trace + Tag(id, RunTail(sys.c, run))
            && s'.admitted == s.admitted + if TookToken(RunEnding(sys.c, run)) then [s.clock] else []
  {
    hide RunApproach, RoomFor, GateAnswer, Aftermath;
    var job := sys.jobs[id];
    var s' := Decide(sys, s, id);
    match RunApproach(sys.c, job).verdict
    case Stops(e) =>
      StopsAlways(sys.c, job);
    case Proceeds(wr) =>
      var rest := s'.locals[id].rest;
      var token := (id, Token(s.clock));
      Assoc(s.trace, [token], Tag(id, rest));
      assert [token] + Tag(id, rest) == Tag(id, [Token(s.clock)] + rest);
  }

  lemma StopsAlways(c: Config, job: Job)
    requires RunApproach(c, job).verdict.Stops?
    ensures !TookToken(RunApproach(c, job).verdict.e)
  {
    StopsWithoutToken(c, job.request, job.w);
  }

  /** A run that nothing interrupts leaves exactly the events the operations leave when they have
      the gate to themselves, decided by the window as it found it. */
  lemma Alone(sys: System, s: State, id: nat) returns (actions: seq<Action>)
    requires id in sys.jobs && id in s.locals && s.locals[id] == Approaching(0)
    ensures var run := Run(sys.jobs[id], RoomFor(s.admitted, s.clock, sys.limit), s.clock);
            var s' := Steps(sys, s, actions);
            && Over(s', id) && s'.clock == s.clock
            && s'.trace == s.trace + Tag(id, RunEvents(sys.c, run))
            && s'.admitted == s.admitted + if TookToken(RunEnding(sys.c, run)) then [s.clock] else []
  {
    hide RunApproach, RunTail, RunEnding, RoomFor, Decide;
    var probes := RunApproach(sys.c, sys.jobs[id]).probes;
    var run := Run(sys.jobs[id], RoomFor(s.admitted, s.clock, sys.limit), s.clock);
    ProbesDone(sys, s, id, |probes|);
    var s1 := Steps(sys, s, Advances(id, |probes|));
    var s2 := Step(sys, s1, Advance(id));
    Asked(sys, s1, id);
    ActsDone(sys, s2, id);
    actions := Advances(id, |probes|) + ([Advance(id)] + Advances(id, |s2.locals[id].rest|));
    StepsAppend(sys, s, Advances(id, |probes|), [Advance(id)] + Advances(id, |s2.locals[id].rest|));
    StepsAppend(sys, s1, [Advance(id)], Advances(id, |s2.locals[id].rest|));
    OneStep(sys, s1, Advance(id));
    hide Steps, Step, RunEvents;
    CutAtGate(sys, id, run);
    assert probes[0..] == probes;
    Assoc(s.trace, Tag(id, Probes(probes)), Tag(id, RunTail(sys.c, run)));
  }

  lemma OneStep(sys: System, s: State, a: Action)
    ensures Steps(sys, s, [a]) == Step(sys, s, a)
  {
    hide Step;
    assert [a][1..] == [];
  }

  /** A token can be had for this job, in an empty window. */
  predicate MayTakeToken(sys: System, job: Job) {
    && RunApproach(sys.c, job).verdict.Proceeds?
    && RunApproach(sys.c, job).verdict.write.bytes <= sys.c.attachMaxBytes && sys.limit > 0
  }

  /** Every token of the run has its terminal line. */
  predicate AccountedFor(x: seq<Tagged>) {
    Tally(x, IsTerminal) == Tally(x, IsToken)
  }

  /** Under every schedule every finished run accounts for its token, exactly when no job that may
      get one has files to read that cannot be read. */
  lemma NoTokenIsLostIff(sys: System)
    ensures (forall clock: real, actions, id :: id in sys.jobs && Over(Reached(sys, clock, actions), id) ==>
               AccountedFor(Of(Reached(sys, clock, actions).trace, id)))
       <==> (forall id :: id in sys.jobs && MayTakeToken(sys, sys.jobs[id]) ==> !FilesFail(sys.jobs[id]))
  {
    hide Reached, MayTakeToken, FilesFail, AccountedFor, Over;
    if id :| id in sys.jobs && MayTakeToken(sys, sys.jobs[id]) && FilesFail(sys.jobs[id]) {
      var actions := LosesAlone(sys, id);
      assert Over(Reached(sys, 0.0, actions), id);
    } else {
      forall clock: real, actions, id | id in sys.jobs && Over(Reached(sys, clock, actions), id)
        ensures AccountedFor(Of(Reached(sys, clock, actions).trace, id))
      {
        FinishedAccounts(sys, clock, actions, id);
      }
    }
  }

  lemma LosesAlone(sys: System, id: nat) returns (actions: seq<Action>)
    requires id in sys.jobs && MayTakeToken(sys, sys.jobs[id]) && FilesFail(sys.jobs[id])
    ensures Over(Reached(sys, 0.0, actions), id) && !AccountedFor(Of(Reached(sys, 0.0, actions).trace, id))
  {
    hide RunApproach, RunEvents, Step, Tally, FilesFail;
    var s, job := Begin(sys, 0.0), sys.jobs[id];
    actions := Alone(sys, s, id);
    var run := Run(job, RoomFor(s.admitted, s.clock, sys.limit), s.clock);
    assert run == Run(job, true, 0.0);
    TokenForRun(sys, run);
    RunAtItsEnd(id, sys.c, run);
    OfTag(id, RunEvents(sys.c, run));
    assert [] + Tag(id, RunEvents(sys.c, run)) == Tag(id, RunEvents(sys.c, run));
  }

  lemma TokenForRun(sys: System, run: Run)
    requires MayTakeToken(sys, run.job) && run.room
    ensures TookToken(RunEnding(sys.c, run))
  {
    LateDenials(sys.c, run.job.request, run.job.w, true);
  }

  lemma TagSnoc(id: nat, t: seq<Event>)
    requires t != []
    ensures Tag(id, t) == Tag(id, t[..|t| - 1]) + [(id, t[|t| - 1])]
  {
  }

  lemma {:induction false} OfTag(id: nat, t: seq<Event>)
    ensures Of(Tag(id, t), id) == Tag(id, t)
    decreases |t|
  {
    if t != [] {
      hide Of, Tag;
      TagSnoc(id, t);
      OfTag(id, t[..|t| - 1]);
      OfSnoc(Tag(id, t[..|t| - 1]), (id, t[|t| - 1]), id);
    }
  }

  lemma FinishedAccounts(sys: System, clock: real, actions: seq<Action>, id: nat)
    requires id in sys.jobs && Over(Reached(sys, clock, actions), id)
    requires MayTakeToken(sys, sys.jobs[id]) ==> !FilesFail(sys.jobs[id])
    ensures AccountedFor(Of(Reached(sys, clock, actions).trace, id))
  {
    hide Reached, RunApproach, RunEvents, Tally, FilesFail, RunEnding, MayTakeToken, RoomFor, Tag, WindowOk;
    var s := Reached(sys, clock, actions);
    ReachedOk(sys, clock, actions);
    assert LocalOk(sys, s.clock, s.admitted, id, sys.jobs[id], s.locals[id], Of(s.trace, id));
    PrefixNow(sys, s.clock, s.admitted, id, sys.jobs[id], s.locals[id], Of(s.trace, id));
    var run := s.locals[id].run;
    RunAtItsEnd(id, sys.c, run);
    if TookToken(RunEnding(sys.c, run)) {
      TokenNeeds(sys, run, s.admitted[..s.locals[id].seen]);
    }
  }

  lemma TokenNeeds(sys: System, run: Run, before: seq<real>)
    requires TookToken(RunEnding(sys.c, run))
    requires RunApproach(sys.c, run.job).verdict.Proceeds? ==> run.room == RoomFor(before, run.now, sys.limit)
    ensures MayTakeToken(sys, run.job)
  {
    hide ApproachOf;
    if RunApproach(sys.c, run.job).verdict.Stops? {
      StopsAlways(sys.c, run.job);
    } else {
      LateDenials(sys.c, run.job.request, run.job.w, run.room);
    }
  }

  // ---------------------------------------------------------------------------------------
  // Waiting
  // ---------------------------------------------------------------------------------------

  /** After more than a window of waiting the gate has room again, and nothing else has changed. */
  lemma WaitingMakesRoom(sys: System, s: State, wait: real)
    requires Inv(sys, s) && wait > 60.0 && sys.limit > 0
    ensures var s' := Step(sys, s, Tick(wait));
            && Inv(sys, s') && RoomFor(s'.admitted, s'.clock, sys.limit)
            && s'.clock == s.clock + wait && s'.locals == s.locals && s'.trace == s.trace
  {
    StepKeeps(sys, s, Tick(wait));
    hide LocalsOk;
    CountOfSuffix(s.admitted, |s.admitted|, s.clock + wait - WINDOW_SECONDS, s.clock + wait);
  }
}
