/**
  The same limiter as a step system: any number of threads, one lock, and a clock that moves on
  between any two steps. Every run is a sequence of actions; the claims hold after each of them.
 */
module WindowThreads {
  import opened SlidingWindow

  /** Where a thread stands inside the check. */
  datatype Pc =
    | Idle
    | Entered
    | Sampled(now: real)
    | Purged(now: real)
    | Checked(now: real, over: bool)
    | Finished

  datatype Entry = Entry(thread: nat, now: real, admitted: bool)

  datatype State = State(
    holder: map<nat, Pc>,    // the threads between lock and unlock
    clock: real,
    timestamps: seq<real>,
    log: seq<Entry>)

  datatype Action =
    | Tick(elapsed: real)    // time passes
    | Acquire(t: nat)        // enter `with lock`
    | Sample(t: nat)         // now = monotonic()
    | Pop(t: nat)            // one turn of the purge loop
    | EndPurge(t: nat)
    | CheckLength(t: nat)
    | Finish(t: nat)         // append, or remember the refusal
    | Release(t: nat)

  function PcOf(s: State, t: nat): Pc {
    if t in s.holder then s.holder[t] else Idle
  }

  predicate Old(s: State, now: real) {
    s.timestamps != [] && s.timestamps[0] < now - WINDOW_SECONDS
  }

  /** One step; an action that is not enabled leaves the state alone. Without the lock (`locking`
      false) any number of threads may be inside at once. */
  function Step(s: State, a: Action, limit: int, locking: bool): State
    requires limit >= 0
  {
    match a
    case Tick(d) => if d >= 0.0 then s.(clock := s.clock + d) else s
    case Acquire(t) =>
      if t !in s.holder && (locking ==> s.holder == map[]) then s.(holder := s.holder[t := Entered]) else s
    case Sample(t) =>
      if PcOf(s, t).Entered? then s.(holder := s.holder[t := Sampled(s.clock)]) else s
    case Pop(t) =>
      if PcOf(s, t).Sampled? && Old(s, PcOf(s, t).now) then s.(timestamps := s.timestamps[1..]) else s
    case EndPurge(t) =>
      if PcOf(s, t).Sampled? && !Old(s, PcOf(s, t).now)
      then s.(holder := s.holder[t := Purged(PcOf(s, t).now)]) else s
    case CheckLength(t) =>
      if PcOf(s, t).Purged?
      then s.(holder := s.holder[t := Checked(PcOf(s, t).now, |s.timestamps| >= limit)]) else s
    case Finish(t) =>
      if PcOf(s, t).Checked? then
        var Checked(now, over) := PcOf(s, t);
        s.(holder := s.holder[t := Finished],
           timestamps := if over then s.timestamps else Append(s.timestamps, limit, now),
           log := s.log + [Entry(t, now, !over)])
      else s
    case Release(t) =>
      if PcOf(s, t).Finished? then s.(holder := s.holder - {t}) else s
  }

  function Start(clock: real): State {
    State(map[], clock, [], [])
  }

  function Run(s: State, actions: seq<Action>, limit: int, locking: bool): State
    requires limit >= 0
    decreases |actions|
  {
    if actions == [] then s else Run(Step(s, actions[0], limit, locking), actions[1..], limit, locking)
  }

  /** The admissions of a log, in order. */
  function Admissions(log: seq<Entry>): seq<real> {
    if log == [] then []
    else
      var e := log[|log| - 1];
      Admissions(log[..|log| - 1]) + (if e.admitted then [e.now] else [])
  }

  /** Each verdict was right when it was given: refused exactly when the window was full. */
  predicate VerdictsExact(log: seq<Entry>, limit: int) {
    log == [] || (
      var e := log[|log| - 1];
      var before := Admissions(log[..|log| - 1]);
      && VerdictsExact(log[..|log| - 1], limit)
      && (e.admitted <==> CountIn(before, e.now - WINDOW_SECONDS, e.now) < limit))
  }

  /** What the lock holder knows at its point in the check. */
  ghost predicate HolderKnows(s: State, pc: Pc, limit: int) {
    match pc
    case Idle => false
    case Entered => true
    case Sampled(now) => now <= s.clock && Tracks(s.timestamps, Admissions(s.log), now, limit)
    case Purged(now) =>
      now <= s.clock && Tracks(s.timestamps, Admissions(s.log), now, limit) && !Old(s, now)
    case Checked(now, over) =>
      && now <= s.clock && Tracks(s.timestamps, Admissions(s.log), now, limit) && !Old(s, now)
      && (over <==> |s.timestamps| >= limit)
    case Finished => true
  }

  ghost predicate Inv(s: State, limit: int) {
    && limit >= 0
    && Tracks(s.timestamps, Admissions(s.log), s.clock, limit)
    && VerdictsExact(s.log, limit)
    && (forall t, u :: t in s.holder && u in s.holder ==> t == u)
    && (forall t :: t in s.holder ==> HolderKnows(s, s.holder[t], limit))
  }

  lemma AdmissionsSnoc(log: seq<Entry>, e: Entry)
    ensures Admissions(log + [e]) == Admissions(log) + (if e.admitted then [e.now] else [])
    ensures (log + [e])[..|log|] == log
  {
  }

  lemma FinishDeque(deque: seq<real>, h: seq<real>, now: real, clock: real, over: bool, limit: int)
    requires Tracks(deque, h, now, limit) && (deque == [] || deque[0] >= now - WINDOW_SECONDS) && now <= clock
    requires limit >= 0 && (over <==> |deque| >= limit)
    ensures over <==> CountIn(h, now - WINDOW_SECONDS, now) >= limit
    ensures Tracks(if over then deque else Append(deque, limit, now), h + (if over then [] else [now]), clock, limit)
  {
    hide Tracks, Append, CountIn;
    PurgedLength(deque, h, now, limit);
    if over {
      assert h + [] == h;
      LaterKeepsTracking(deque, h, now, clock, limit);
    } else {
      AdmitKeepsTracking(deque, h, now, limit);
      LaterKeepsTracking(deque + [now], h + [now], now, clock, limit);
    }
  }

  lemma VerdictsSnoc(log: seq<Entry>, e: Entry, limit: int)
    requires VerdictsExact(log, limit)
    requires e.admitted <==> CountIn(Admissions(log), e.now - WINDOW_SECONDS, e.now) < limit
    ensures VerdictsExact(log + [e], limit)
  {
    hide Admissions, CountIn;
    assert (log + [e])[..|log|] == log;
  }

  lemma FinishKeeps(s: State, t: nat, limit: int)
    requires Inv(s, limit) && PcOf(s, t).Checked?
    ensures Inv(Step(s, Finish(t), limit, true), limit)
  {
    hide Tracks, Append, CountIn, VerdictsExact, Admissions;
    var Checked(now, over) := PcOf(s, t);
    var e := Entry(t, now, !over);
    AdmissionsSnoc(s.log, e);
    FinishDeque(s.timestamps, Admissions(s.log), now, s.clock, over, limit);
    VerdictsSnoc(s.log, e, limit);
  }

  lemma PopKeeps(s: State, t: nat, limit: int)
    requires Inv(s, limit) && PcOf(s, t).Sampled? && Old(s, PcOf(s, t).now)
    ensures Inv(Step(s, Pop(t), limit, true), limit)
  {
    hide Tracks, VerdictsExact;
    var now := PcOf(s, t).now;
    PopKeepsTracking(s.timestamps, Admissions(s.log), now, limit);
    LaterKeepsTracking(s.timestamps[1..], Admissions(s.log), now, s.clock, limit);
  }

  /** Every locked step keeps the invariant. */
  lemma StepKeeps(s: State, a: Action, limit: int)
    requires Inv(s, limit)
    ensures Inv(Step(s, a, limit, true), limit)
  {
    hide Tracks, VerdictsExact;
    match a
    case Tick(d) =>
      if d >= 0.0 {
        LaterKeepsTracking(s.timestamps, Admissions(s.log), s.clock, s.clock + d, limit);
      }
    case Acquire(t) =>
    case Sample(t) =>
    case Pop(t) =>
      if PcOf(s, t).Sampled? && Old(s, PcOf(s, t).now) {
        PopKeeps(s, t, limit);
      }
    case EndPurge(t) =>
    case CheckLength(t) =>
    case Finish(t) =>
      if PcOf(s, t).Checked? {
        FinishKeeps(s, t, limit);
      }
    case Release(t) =>
  }

  lemma {:induction false} RunKeeps(s: State, actions: seq<Action>, limit: int)
    requires Inv(s, limit)
    ensures Inv(Run(s, actions, limit, true), limit)
    decreases |actions|
  {
    if actions != [] {
      StepKeeps(s, actions[0], limit);
      RunKeeps(Step(s, actions[0], limit, true), actions[1..], limit);
    }
  }

  /** Under every interleaving: no closed window of the whole run holds more than `limit`
      admissions, every refusal and every admission was the right verdict, at most one thread is
      inside, and the deque never outgrows its bound. */
  lemma AnyInterleaving(clock: real, actions: seq<Action>, limit: int, start: real)
    requires limit >= 0
    ensures var s := Run(Start(clock), actions, limit, true);
            && CountIn(Admissions(s.log), start, start + 60.0) <= limit
            && VerdictsExact(s.log, limit)
            && (forall t, u :: t in s.holder && u in s.holder ==> t == u)
            && |s.timestamps| <= limit
  {
    assert Inv(Start(clock), limit);
    RunKeeps(Start(clock), actions, limit);
    var s := Run(Start(clock), actions, limit, true);
    RateBound(Admissions(s.log), limit, start);
  }

  /** The unlocked race: two threads pass the length check before either appends. */
  const RACE: seq<Action> := [
    Acquire(0), Acquire(1), Sample(0), Sample(1), EndPurge(0), EndPurge(1),
    CheckLength(0), CheckLength(1), Finish(0), Finish(1)]

  /** Without the lock a limit of one admits two at the same moment. */
  lemma UnlockedAdmitsTwo()
    ensures var s := Run(Start(0.0), RACE, 1, false);
            CountIn(Admissions(s.log), 0.0, WINDOW_SECONDS) == 2
  {
    var s0 := Start(0.0);
    var s1 := Step(s0, RACE[0], 1, false);
    var s2 := Step(s1, RACE[1], 1, false);
    var s3 := Step(s2, RACE[2], 1, false);
    var s4 := Step(s3, RACE[3], 1, false);
    var s5 := Step(s4, RACE[4], 1, false);
    var s6 := Step(s5, RACE[5], 1, false);
    var s7 := Step(s6, RACE[6], 1, false);
    var s8 := Step(s7, RACE[7], 1, false);
    var s9 := Step(s8, RACE[8], 1, false);
    var s10 := Step(s9, RACE[9], 1, false);
    RunSplit(s0, RACE, 5, 1, false);
    RunFive(s0, RACE[..5]);
    RunFive(s5, RACE[5..]);
    assert s10.log == [Entry(0, 0.0, true)] + [Entry(1, 0.0, true)];
    AdmissionsSnoc([], Entry(0, 0.0, true));
    AdmissionsSnoc([Entry(0, 0.0, true)], Entry(1, 0.0, true));
    TwoInWindow();
  }

  lemma TwoInWindow()
    ensures CountIn([0.0, 0.0], 0.0, WINDOW_SECONDS) == 2
  {
    assert [0.0, 0.0][..1] == [0.0] && [0.0][..0] == [];
  }

  lemma {:induction false} RunSplit(s: State, actions: seq<Action>, k: nat, limit: int, locking: bool)
    requires k <= |actions| && limit >= 0
    ensures Run(s, actions, limit, locking) == Run(Run(s, actions[..k], limit, locking), actions[k..], limit, locking)
    decreases |actions|
  {
    if k == 0 {
      assert actions[0..] == actions;
    } else {
      assert actions[..k][1..] == actions[1..][..k - 1] && actions[1..][k - 1..] == actions[k..];
      RunSplit(Step(s, actions[0], limit, locking), actions[1..], k - 1, limit, locking);
    }
  }

  lemma RunFive(s: State, a: seq<Action>)
    requires |a| == 5
    ensures var two := Step(Step(s, a[0], 1, false), a[1], 1, false);
            Run(s, a, 1, false) == Step(Step(Step(two, a[2], 1, false), a[3], 1, false), a[4], 1, false)
  {
    hide Step;
    var s1 := Step(s, a[0], 1, false);
    var s2 := Step(s1, a[1], 1, false);
    var s3 := Step(s2, a[2], 1, false);
    var s4 := Step(s3, a[3], 1, false);
    assert a[1..][1..] == a[2..] && a[2..][1..] == a[3..] && a[3..][1..] == a[4..] && a[4..][1..] == [];
    assert Run(s4, a[4..], 1, false) == Step(s4, a[4], 1, false);
    assert Run(s3, a[3..], 1, false) == Run(s4, a[4..], 1, false);
    assert Run(s2, a[2..], 1, false) == Run(s3, a[3..], 1, false);
    assert Run(s1, a[1..], 1, false) == Run(s2, a[2..], 1, false);
  }

  // ---------------------------------------------------------------------------------------
  // Whoever comes gets an answer
  // ---------------------------------------------------------------------------------------

  /** One uninterrupted turn of a thread, with so many rounds of the purge loop. */
  function Turn(t: nat, pops: nat): seq<Action> {
    [Acquire(t), Sample(t)] + (seq(pops, _ => Pop(t)) + [EndPurge(t), CheckLength(t), Finish(t), Release(t)])
  }

  lemma {:induction false} PurgeEnds(s: State, t: nat, now: real, limit: int) returns (pops: nat)
    requires limit >= 0 && s.holder == map[t := Sampled(now)]
    ensures var s' := Run(s, seq(pops, _ => Pop(t)), limit, true);
            s'.holder == s.holder && s'.clock == s.clock && s'.log == s.log && !Old(s', now)
    decreases |s.timestamps|
  {
    if Old(s, now) {
      var next := Step(s, Pop(t), limit, true);
      var rest := PurgeEnds(next, t, now, limit);
      pops := rest + 1;
      var all := seq(pops, _ => Pop(t));
      assert all[0] == Pop(t) && all[1..] == seq(rest, _ => Pop(t));
    } else {
      pops := 0;
    }
  }

  lemma RunTwo(s: State, a: Action, b: Action, limit: int)
    requires limit >= 0
    ensures Run(s, [a, b], limit, true) == Step(Step(s, a, limit, true), b, limit, true)
  {
    hide Step;
    var s1 := Step(s, a, limit, true);
    assert [a, b][1..] == [b] && [b][1..] == [];
    assert Run(s1, [b], limit, true) == Step(s1, b, limit, true);
  }

  /** Behind the purge: the verdict is logged and the lock is free again. */
  lemma TurnEnds(s: State, t: nat, now: real, limit: int)
    requires limit >= 0 && s.holder == map[t := Sampled(now)] && !Old(s, now)
    ensures var s' := Run(s, [EndPurge(t), CheckLength(t), Finish(t), Release(t)], limit, true);
            s'.holder == map[] && s'.clock == s.clock && s'.log == s.log + [Entry(t, now, |s.timestamps| < limit)]
  {
    var a := [EndPurge(t), CheckLength(t), Finish(t), Release(t)];
    var s2 := Step(Step(s, a[0], limit, true), a[1], limit, true);
    var s4 := Step(Step(s2, a[2], limit, true), a[3], limit, true);
    assert s2.holder == map[t := Checked(now, |s.timestamps| >= limit)];
    RunSplit(s, a, 2, limit, true);
    assert a[..2] == [a[0], a[1]] && a[2..] == [a[2], a[3]];
    RunTwo(s, a[0], a[1], limit);
    RunTwo(s2, a[2], a[3], limit);
    assert s4.holder == map[];
  }

  lemma EnterAndSample(s: State, t: nat, limit: int)
    requires limit >= 0 && s.holder == map[]
    ensures Run(s, [Acquire(t), Sample(t)], limit, true) == s.(holder := map[t := Sampled(s.clock)])
  {
    RunTwo(s, Acquire(t), Sample(t), limit);
  }

  /** A thread that runs on its own logs a verdict and leaves the lock free. */
  lemma TurnAnswers(s: State, t: nat, limit: int) returns (pops: nat, admitted: bool)
    requires limit >= 0 && s.holder == map[]
    ensures var s' := Run(s, Turn(t, pops), limit, true);
            s'.holder == map[] && s'.clock == s.clock && s'.log == s.log + [Entry(t, s.clock, admitted)]
  {
    hide Step, Run, Turn, Old;
    var now := s.clock;
    EnterAndSample(s, t, limit);
    var entered := s.(holder := map[t := Sampled(now)]);
    pops := PurgeEnds(entered, t, now, limit);
    var purged := Run(entered, seq(pops, _ => Pop(t)), limit, true);
    TurnEnds(purged, t, now, limit);
    TurnRuns(s, t, pops, limit);
    admitted := |purged.timestamps| < limit;
  }

  /** From every reached state with a free lock a thread that runs on its own is answered and leaves
      the lock free, and the answer is: admitted exactly if the window that ends now has room. */
  lemma AloneIsAnswered(s: State, t: nat, limit: int) returns (pops: nat)
    requires Inv(s, limit) && s.holder == map[]
    ensures var s' := Run(s, Turn(t, pops), limit, true);
            var room := CountIn(Admissions(s.log), s.clock - 60.0, s.clock) < limit;
            s'.holder == map[] && s'.clock == s.clock && s'.log == s.log + [Entry(t, s.clock, room)]
  {
    assert limit >= 0;
    hide Step, Inv, Run, Turn, CountIn, Admissions;
    var admitted;
    pops, admitted := TurnAnswers(s, t, limit);
    RunKeeps(s, Turn(t, pops), limit);
    var s' := Run(s, Turn(t, pops), limit, true);
    assert s'.log[..|s.log|] == s.log;
    LastVerdict(s', limit);
  }

  lemma TurnRuns(s: State, t: nat, pops: nat, limit: int)
    requires limit >= 0
    ensures var s2 := Run(s, [Acquire(t), Sample(t)], limit, true);
            var s3 := Run(s2, seq(pops, _ => Pop(t)), limit, true);
            Run(s, Turn(t, pops), limit, true)
            == Run(s3, [EndPurge(t), CheckLength(t), Finish(t), Release(t)], limit, true)
  {
    hide Run;
    var front, pop, back := [Acquire(t), Sample(t)], seq(pops, _ => Pop(t)),
                            [EndPurge(t), CheckLength(t), Finish(t), Release(t)];
    var all := Turn(t, pops);
    assert all[..2] == front && all[2..] == pop + back;
    RunSplit(s, all, 2, limit, true);
    assert (pop + back)[..pops] == pop && (pop + back)[pops..] == back;
    RunSplit(Run(s, front, limit, true), pop + back, pops, limit, true);
  }

  lemma LastVerdict(s: State, limit: int)
    requires Inv(s, limit) && s.log != []
    ensures var e := s.log[|s.log| - 1];
            e.admitted <==> CountIn(Admissions(s.log[..|s.log| - 1]), e.now - 60.0, e.now) < limit
  {
    hide CountIn, Admissions;
  }

  /** And whoever waits for more than a window is admitted. */
  lemma WaitedIsAdmitted(s: State, t: nat, wait: real, limit: int) returns (pops: nat)
    requires Inv(s, limit) && s.holder == map[] && limit > 0 && wait > 60.0
    ensures var s' := Run(s, [Tick(wait)] + Turn(t, pops), limit, true);
            s'.holder == map[] && s'.log == s.log + [Entry(t, s.clock + wait, true)]
  {
    hide CountIn, Admissions, Turn, Run;
    var later := Step(s, Tick(wait), limit, true);
    StepKeeps(s, Tick(wait), limit);
    pops := AloneIsAnswered(later, t, limit);
    RunStep(s, Tick(wait), Turn(t, pops), limit);
    CountOfSuffix(Admissions(s.log), |Admissions(s.log)|, later.clock - 60.0, later.clock);
  }

  lemma RunStep(s: State, a: Action, rest: seq<Action>, limit: int)
    requires limit >= 0
    ensures Run(s, [a] + rest, limit, true) == Run(Step(s, a, limit, true), rest, limit, true)
  {
    assert ([a] + rest)[1..] == rest;
  }
}
