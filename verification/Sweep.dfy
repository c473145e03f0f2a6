/**
  The mutation sweep over files that someone else may be writing at the same time. Foreign
  writes may land between any two steps of the sweep; one step is a read, its check and the
  write that follows from it.
 */
module Sweep {
  import opened Splice

  type Disk = map<string, Bytes>

  const TRUE: Bytes := [84, 114, 117, 101]
  const FALSE: Bytes := [70, 97, 108, 115, 101]

  /** A write of the sweep, with what it found and what it left; or writes of someone else. */
  datatype Event =
    | Own(path: string, before: Bytes, after: Bytes)
    | Others(writes: Disk)

  /** What the log makes of the tree. */
  function After(start: Disk, log: seq<Event>): Disk {
    if log == [] then start
    else
      var d := After(start, log[..|log| - 1]);
      match log[|log| - 1]
      case Own(p, _, after) => d[p := after]
      case Others(w) => d + w
  }

  /** Everything the sweep itself ever wrote into one file. */
  ghost function OwnBytes(log: seq<Event>, path: string): set<Bytes> {
    set i | 0 <= i < |log| && log[i].Own? && log[i].path == path :: log[i].after
  }

  /** The baseline with one guard replaced by a constant. */
  ghost predicate IsMutant(baseline: Bytes, b: Bytes) {
    exists t: Target :: LinesExist(SplitLines(baseline), t)
      && (b == SpliceBytes(baseline, t, TRUE) || b == SpliceBytes(baseline, t, FALSE))
  }

  /** Every own write mutates a pristine file, or puts the baseline back over own bytes. */
  ghost predicate Polite(baseline: Disk, log: seq<Event>) {
    log == [] || (
      var front := log[..|log| - 1];
      && Polite(baseline, front)
      && match log[|log| - 1]
         case Others(_) => true
         case Own(p, before, after) =>
           && p in baseline && p in After(baseline, front) && After(baseline, front)[p] == before
           && ((before == baseline[p] && IsMutant(baseline[p], after))
               || (after == baseline[p] && before in OwnBytes(front, p))))
  }

  lemma MutantOf(baseline: Bytes, t: Target, polarity: Bytes)
    requires LinesExist(SplitLines(baseline), t) && (polarity == TRUE || polarity == FALSE)
    ensures IsMutant(baseline, SpliceBytes(baseline, t, polarity))
  {
  }

  lemma OwnBytesGrow(log: seq<Event>, e: Event, path: string)
    ensures OwnBytes(log, path) <= OwnBytes(log + [e], path)
    ensures e.Own? && e.path == path ==> e.after in OwnBytes(log + [e], path)
  {
    forall b | b in OwnBytes(log, path)
      ensures b in OwnBytes(log + [e], path)
    {
      var i :| 0 <= i < |log| && log[i].Own? && log[i].path == path && log[i].after == b;
      assert (log + [e])[i] == log[i];
    }
    assert (log + [e])[|log|] == e;
  }

  /** The last write to a file came from someone else. */
  predicate LastByOthers(log: seq<Event>, path: string) {
    log != [] && (
      match log[|log| - 1]
      case Own(p, _, _) => p != path && LastByOthers(log[..|log| - 1], path)
      case Others(w) => path in w || LastByOthers(log[..|log| - 1], path))
  }

  lemma LastOf(log: seq<Event>, e: Event, path: string)
    ensures LastByOthers(log + [e], path)
       <==> if e.Own? then e.path != path && LastByOthers(log, path) else path in e.writes || LastByOthers(log, path)
  {
    Snoc(log, e);
  }

  lemma Snoc(log: seq<Event>, e: Event)
    ensures (log + [e])[..|log|] == log && (log + [e])[|log|] == e
  {
  }

  /** Foreign content that is neither the baseline nor a mutant of the sweep stays on disk until
      the next foreign write to the same file, whatever the sweep does. */
  lemma {:induction false} ForeignSurvives(baseline: Disk, log: seq<Event>, i: nat, path: string)
    requires Polite(baseline, log) && path in baseline
    requires i < |log| && log[i].Others? && path in log[i].writes
    requires log[i].writes[path] != baseline[path]
    requires log[i].writes[path] !in OwnBytes(log, path)
    requires forall j :: i < j < |log| && log[j].Others? ==> path !in log[j].writes
    ensures path in After(baseline, log) && After(baseline, log)[path] == log[i].writes[path]
    decreases |log|
  {
    if i < |log| - 1 {
      var front := log[..|log| - 1];
      var last := log[|log| - 1];
      assert log == front + [last];
      OwnBytesGrow(front, last, path);
      ForeignSurvives(baseline, front, i, path);
    }
  }

  // ---------------------------------------------------------------------------------------
  // The sweep
  // ---------------------------------------------------------------------------------------

  /** One guard site, and whether any test executes its line. */
  datatype Site = Site(path: string, span: Target, covered: bool)

  /** What becomes of one mutant: the write itself raises, the test run raises (a timeout, say),
      or the run ends with a selection that was valid or not. */
  datatype Attempt = WriteRaises | RunRaises | Ran(valid: bool)

  datatype Exit = Completed | Drift | BadSplice | InvalidSelection | Raised

  predicate SiteOk(baseline: Disk, s: Site) {
    s.path in baseline && LinesExist(SplitLines(baseline[s.path]), s.span)
  }

  /** The writes of one undisturbed mutant: the mutation, and its undoing unless it was a no-op. */
  function Trial(p: string, baseline: Bytes, mutant: Bytes): seq<Event> {
    [Own(p, baseline, mutant)] + if mutant == baseline then [] else [Own(p, mutant, baseline)]
  }

  function SiteTrials(baseline: Disk, s: Site): seq<Event>
    requires SiteOk(baseline, s)
  {
    var b := baseline[s.path];
    if s.covered then Trial(s.path, b, SpliceBytes(b, s.span, TRUE)) + Trial(s.path, b, SpliceBytes(b, s.span, FALSE))
    else []
  }

  /** The mutants of a sweep in the order they are tried: `True`, then `False`, at each covered site. */
  function Mutants(baseline: Disk, sites: seq<Site>): seq<Bytes>
    requires forall s :: s in sites ==> SiteOk(baseline, s)
  {
    if sites == [] then [] else Mutants(baseline, sites[..|sites| - 1]) + SiteMutants(baseline, sites[|sites| - 1])
  }

  function SiteMutants(baseline: Disk, s: Site): seq<Bytes>
    requires SiteOk(baseline, s)
  {
    if s.covered
    then [SpliceBytes(baseline[s.path], s.span, TRUE), SpliceBytes(baseline[s.path], s.span, FALSE)]
    else []
  }

  lemma {:induction false} MutantsSplit(baseline: Disk, sites: seq<Site>, k: nat)
    requires k <= |sites| && forall s :: s in sites ==> SiteOk(baseline, s)
    ensures Mutants(baseline, sites[..k]) <= Mutants(baseline, sites)
    decreases |sites|
  {
    hide SiteMutants, SiteOk;
    if k < |sites| {
      assert sites[..|sites| - 1][..k] == sites[..k];
      MutantsSplit(baseline, sites[..|sites| - 1], k);
    } else {
      assert sites[..k] == sites;
    }
  }

  lemma MutantsSnoc(baseline: Disk, sites: seq<Site>, k: nat)
    requires k < |sites| && forall s :: s in sites ==> SiteOk(baseline, s)
    ensures Mutants(baseline, sites[..k + 1]) == Mutants(baseline, sites[..k]) + SiteMutants(baseline, sites[k])
    ensures Mutants(baseline, sites[..k + 1]) <= Mutants(baseline, sites)
  {
    hide SiteMutants, SiteOk;
    assert sites[..k + 1][..k] == sites[..k];
    MutantsSplit(baseline, sites, k + 1);
  }

  /** How far a sweep got: of the mutants `ms` it began `n`, with the test runs from the `first` on, and
      it ended for the reason these give. */
  predicate EndedAt(exit: Exit, ms: seq<Bytes>, n: nat, first: nat, attempts: nat -> Attempt, compiles: Bytes -> bool) {
    && n <= |ms|
    && (forall k :: 0 <= k < n ==> compiles(ms[k]))
    && (forall j :: first <= j < first + n - 1 ==> attempts(j) == Ran(true))
    && (exit == Completed ==> n == |ms| && forall j :: first <= j < first + n ==> attempts(j) == Ran(true))
    && (exit == InvalidSelection <==> n > 0 && attempts(first + n - 1) == Ran(false))
    && (exit == Raised <==> n > 0 && !attempts(first + n - 1).Ran?)
    && (exit == BadSplice ==> n < |ms| && !compiles(ms[n]))
    && (exit == Drift ==> n < |ms|)
  }

  /** The writes of a whole undisturbed sweep. */
  function Trials(baseline: Disk, sites: seq<Site>): seq<Event>
    requires forall s :: s in sites ==> SiteOk(baseline, s)
  {
    if sites == [] then []
    else Trials(baseline, sites[..|sites| - 1]) + SiteTrials(baseline, sites[|sites| - 1])
  }

  lemma TrialIs(before: seq<Event>, p: string, baseline: Bytes, mutant: Bytes)
    ensures before + Trial(p, baseline, mutant)
         == if mutant == baseline then before + [Own(p, baseline, mutant)]
            else before + [Own(p, baseline, mutant)] + [Own(p, mutant, baseline)]
  {
  }

  lemma SiteTrialsAre(baseline: Disk, s: Site, before: seq<Event>, log: seq<Event>)
    requires SiteOk(baseline, s)
    requires var b := baseline[s.path];
             var first, second := SpliceBytes(b, s.span, TRUE), SpliceBytes(b, s.span, FALSE);
             log == if s.covered then (before + Trial(s.path, b, first)) + Trial(s.path, b, second) else before
    ensures log == before + SiteTrials(baseline, s)
  {
    hide SpliceBytes, Trial;
  }

  lemma NoMutants(baseline: Disk)
    ensures Mutants(baseline, []) == []
  {
  }

  /** A completed stretch and the next one. */
  lemma EndsJoin(exit: Exit, ms: seq<Bytes>, more: seq<Bytes>, n: nat, m: nat, first: nat, attempts: nat -> Attempt,
                 compiles: Bytes -> bool)
    requires EndedAt(Completed, ms, n, first, attempts, compiles)
    requires EndedAt(exit, more, m, first + n, attempts, compiles)
    ensures EndedAt(exit, ms + more, n + m, first, attempts, compiles)
  {
    forall k | 0 <= k < n + m
      ensures compiles((ms + more)[k])
    {
      if k >= n {
        assert (ms + more)[k] == more[k - n];
      }
    }
  }

  /** Where it ended early, the mutants still due do not matter. */
  lemma EndsWhole(exit: Exit, ms: seq<Bytes>, all: seq<Bytes>, n: nat, first: nat, attempts: nat -> Attempt,
                  compiles: Bytes -> bool)
    requires EndedAt(exit, ms, n, first, attempts, compiles) && ms <= all && (exit == Completed ==> ms == all)
    ensures EndedAt(exit, all, n, first, attempts, compiles)
  {
    assert forall k :: 0 <= k < |ms| ==> all[k] == ms[k];
  }

  lemma NothingDue(first: nat, attempts: nat -> Attempt, compiles: Bytes -> bool)
    ensures EndedAt(Completed, [], 0, first, attempts, compiles)
  {
  }

  /** One mutant. */
  lemma OneEnds(exit: Exit, mutant: Bytes, n: nat, first: nat, attempts: nat -> Attempt, compiles: Bytes -> bool)
    requires n == if exit == Drift || exit == BadSplice then 0 else 1
    requires exit == Drift || exit == (
               if !compiles(mutant) then BadSplice
               else match attempts(first)
                    case Ran(valid) => if valid then Completed else InvalidSelection
                    case _ => Raised)
    requires n == 1 ==> compiles(mutant)
    ensures EndedAt(exit, [mutant], n, first, attempts, compiles)
  {
  }

  lemma NoTrials(baseline: Disk)
    ensures Trials(baseline, []) == []
  {
  }

  lemma TrialsSnoc(baseline: Disk, sites: seq<Site>, k: nat)
    requires k < |sites| && forall s :: s in sites ==> SiteOk(baseline, s)
    ensures Trials(baseline, sites[..k + 1]) == Trials(baseline, sites[..k]) + SiteTrials(baseline, sites[k])
  {
    assert sites[..k + 1][..k] == sites[..k];
  }

  /** The two polarities are the words `True` and `False`. */
  lemma PolaritiesSpelled()
    ensures |TRUE| == 4 && forall i :: 0 <= i < 4 ==> TRUE[i] as int == "True"[i] as int
    ensures |FALSE| == 5 && forall i :: 0 <= i < 5 ==> FALSE[i] as int == "False"[i] as int
  {
  }

  /** The bytes of `True`, or of `False`, spliced over the span of a site. */
  predicate MutantOfSite(baseline: Disk, s: Site, b: Bytes)
    requires SiteOk(baseline, s)
  {
    b == SpliceBytes(baseline[s.path], s.span, TRUE) || b == SpliceBytes(baseline[s.path], s.span, FALSE)
  }

  /** Site after site, and of each covered one the `True` mutant before the `False` one. */
  lemma DueInOrder(baseline: Disk, sites: seq<Site>, k: nat)
    requires k < |sites| && forall s :: s in sites ==> SiteOk(baseline, s)
    requires SiteOk(baseline, sites[k]) && sites[k].covered
    ensures var s, due, at := sites[k], Mutants(baseline, sites), |Mutants(baseline, sites[..k])|;
            && at + 2 <= |due|
            && due[at] == SpliceBytes(baseline[s.path], s.span, TRUE)
            && due[at + 1] == SpliceBytes(baseline[s.path], s.span, FALSE)
  {
    hide SiteOk, SpliceBytes;
    MutantsSnoc(baseline, sites, k);
    MutantsSplit(baseline, sites, k + 1);
    hide Mutants;
  }

  /** Each mutant is written over the baseline and the baseline put back before the next. */
  lemma TriedInOrder(baseline: Disk, sites: seq<Site>, k: nat)
    requires k < |sites| && forall s :: s in sites ==> SiteOk(baseline, s)
    requires SiteOk(baseline, sites[k]) && sites[k].covered
    ensures var s, b := sites[k], baseline[sites[k].path];
            var first, second := SpliceBytes(b, s.span, TRUE), SpliceBytes(b, s.span, FALSE);
            first != b && second != b ==>
              Trials(baseline, sites[..k + 1])
              == Trials(baseline, sites[..k])
                 + [Own(s.path, b, first), Own(s.path, first, b), Own(s.path, b, second), Own(s.path, second, b)]
  {
    hide SiteOk, SpliceBytes;
    TrialsSnoc(baseline, sites, k);
    hide Trials;
  }

  /** Both mutants of every covered site are due, and nothing else. */
  lemma {:induction false} MutantsAre(baseline: Disk, sites: seq<Site>, b: Bytes)
    requires forall s :: s in sites ==> SiteOk(baseline, s)
    ensures b in Mutants(baseline, sites) <==> exists s :: s in sites && s.covered && MutantOfSite(baseline, s, b)
  {
    hide SiteOk, SpliceBytes;
    if sites != [] {
      var front, last := sites[..|sites| - 1], sites[|sites| - 1];
      assert sites == front + [last];
      MutantsAre(baseline, front, b);
      assert Mutants(baseline, sites) == Mutants(baseline, front) + SiteMutants(baseline, last);
      hide Mutants;
    }
  }

  /** A completed undisturbed sweep has written both mutants of every covered site over its baseline
      and put the baseline back over each, and has written nothing else. */
  lemma {:induction false} TrialsAre(baseline: Disk, sites: seq<Site>, e: Event)
    requires forall s :: s in sites ==> SiteOk(baseline, s)
    ensures e in Trials(baseline, sites)
       <==> exists s, b ::
              && s in sites && s.covered && MutantOfSite(baseline, s, b)
              && (e == Own(s.path, baseline[s.path], b)
                  || (b != baseline[s.path] && e == Own(s.path, b, baseline[s.path])))
  {
    hide SiteOk, SpliceBytes;
    if sites != [] {
      var front, last := sites[..|sites| - 1], sites[|sites| - 1];
      assert sites == front + [last];
      TrialsAre(baseline, front, e);
      SiteTrialsHold(baseline, last, e);
      assert Trials(baseline, sites) == Trials(baseline, front) + SiteTrials(baseline, last);
      hide Trials, SiteTrials, MutantOfSite;
    }
  }

  lemma SiteTrialsHold(baseline: Disk, s: Site, e: Event)
    requires SiteOk(baseline, s)
    ensures e in SiteTrials(baseline, s)
       <==> exists b ::
              && s.covered && MutantOfSite(baseline, s, b)
              && (e == Own(s.path, baseline[s.path], b)
                  || (b != baseline[s.path] && e == Own(s.path, b, baseline[s.path])))
  {
    hide SpliceBytes;
    var b := baseline[s.path];
    var first, second := SpliceBytes(b, s.span, TRUE), SpliceBytes(b, s.span, FALSE);
    TrialHolds(s.path, b, first, e);
    TrialHolds(s.path, b, second, e);
    hide Trial;
    assert MutantOfSite(baseline, s, first) && MutantOfSite(baseline, s, second);
  }

  lemma TrialHolds(p: string, baseline: Bytes, mutant: Bytes, e: Event)
    ensures e in Trial(p, baseline, mutant)
       <==> e == Own(p, baseline, mutant) || (mutant != baseline && e == Own(p, mutant, baseline))
  {
  }

  // ---------------------------------------------------------------------------------------
  // Its steps, as functions of what is on disk
  // ---------------------------------------------------------------------------------------

  /** The tree, what the sweep last wrote into each file, and everything written so far. */
  datatype Snapshot = Snapshot(disk: Disk, written: Disk, log: seq<Event>)

  /** What others write at one opportunity. */
  function OthersStep(s: Snapshot, w: Disk): Snapshot {
    if w == map[] then s else s.(disk := s.disk + w, log := s.log + [Others(w)])
  }

  function WriteStep(s: Snapshot, path: string, data: Bytes): Snapshot
    requires path in s.disk
  {
    s.(disk := s.disk[path := data], log := s.log + [Own(path, s.disk[path], data)])
  }

  /** The bytes on disk are the sweep's own and not the baseline. */
  predicate Dirty(base: Disk, s: Snapshot, path: string) {
    && path in base && path in s.disk && path in s.written
    && s.disk[path] == s.written[path] && s.disk[path] != base[path]
  }

  /** The baseline goes back over the sweep's own bytes, over nothing else. */
  function RestoreStep(base: Disk, s: Snapshot, path: string): Snapshot {
    if Dirty(base, s, path)
    then WriteStep(s, path, base[path]).(written := s.written - {path})
    else s
  }

  /** The first `n` turns of the restore loop; others get their opportunity, the k-th and on, before
      each turn. */
  function RestoreSteps(base: Disk, s: Snapshot, paths: seq<string>, n: nat, foreign: nat -> Disk, k: nat): Snapshot
    requires n <= |paths|
  {
    if n == 0 then s
    else
      var before := RestoreSteps(base, s, paths, n - 1, foreign, k);
      RestoreStep(base, OthersStep(before, foreign(k + n - 1)), paths[n - 1])
  }

  /** The mutant written, with the note that it is the sweep's own. */
  function MutateStep(s: Snapshot, path: string, mutant: Bytes): Snapshot
    requires path in s.disk
  {
    WriteStep(s, path, mutant).(written := s.written[path := mutant])
  }

  /** The log and the tree agree, the writes were polite, and the notes are true. */
  ghost predicate Coherent(base: Disk, s: Snapshot) {
    && base.Keys <= s.disk.Keys && s.disk == After(base, s.log) && Polite(base, s.log)
    && forall p :: p in s.written ==> p in base && s.written[p] in OwnBytes(s.log, p)
  }

  predicate Pristine(base: Disk, disk: Disk) {
    forall p :: p in base ==> p in disk && disk[p] == base[p]
  }

  /** The file is at its baseline, or someone else wrote it last: no mutant is left behind. */
  predicate SettledAt(base: Disk, s: Snapshot, p: string) {
    p in base ==> p in s.disk && (s.disk[p] == base[p] || LastByOthers(s.log, p))
  }

  predicate Settled(base: Disk, s: Snapshot) {
    forall p :: p in base ==> SettledAt(base, s, p)
  }

  /** What is not settled is noted as the sweep's own. */
  predicate Accounted(base: Disk, s: Snapshot) {
    forall p :: p in base ==> SettledAt(base, s, p) || Dirty(base, s, p)
  }

  lemma OthersCoherent(base: Disk, s: Snapshot, w: Disk)
    requires Coherent(base, s)
    ensures Coherent(base, OthersStep(s, w))
  {
    if w != map[] {
      Snoc(s.log, Others(w));
      NotesStay(base, s, Others(w));
    }
  }

  lemma NotesStay(base: Disk, s: Snapshot, e: Event)
    requires forall p :: p in s.written ==> p in base && s.written[p] in OwnBytes(s.log, p)
    ensures forall p :: p in s.written ==> p in base && s.written[p] in OwnBytes(s.log + [e], p)
  {
    forall p | p in s.written
      ensures s.written[p] in OwnBytes(s.log + [e], p)
    {
      OwnBytesGrow(s.log, e, p);
    }
  }

  /** One write of the sweep, over a pristine file or over its own bytes. */
  lemma WriteCoherent(base: Disk, s: Snapshot, path: string, data: Bytes)
    requires Coherent(base, s) && path in base
    requires (s.disk[path] == base[path] && IsMutant(base[path], data)) || (data == base[path] && Dirty(base, s, path))
    ensures Coherent(base, WriteStep(s, path, data)) && data in OwnBytes(WriteStep(s, path, data).log, path)
  {
    hide IsMutant;
    var e := Own(path, s.disk[path], data);
    Snoc(s.log, e);
    NotesStay(base, s, e);
    OwnBytesGrow(s.log, e, path);
    hide OwnBytes;
  }

  lemma OthersKeep(base: Disk, s: Snapshot, w: Disk)
    requires base.Keys <= s.disk.Keys
    ensures forall p :: SettledAt(base, s, p) ==> SettledAt(base, OthersStep(s, w), p)
    ensures Accounted(base, s) ==> Accounted(base, OthersStep(s, w))
  {
    hide LastByOthers;
    forall p
      ensures w != map[] ==> (LastByOthers(s.log + [Others(w)], p) <==> p in w || LastByOthers(s.log, p))
    {
      LastOf(s.log, Others(w), p);
    }
  }

  lemma WriteKeeps(base: Disk, s: Snapshot, path: string, data: Bytes, p: string)
    requires path in s.disk && p != path
    ensures SettledAt(base, s, p) ==> SettledAt(base, WriteStep(s, path, data), p)
  {
    hide LastByOthers;
    LastOf(s.log, Own(path, s.disk[path], data), p);
  }

  lemma RestoreSettles(base: Disk, s: Snapshot, path: string)
    ensures Accounted(base, s) ==>
              Accounted(base, RestoreStep(base, s, path)) && SettledAt(base, RestoreStep(base, s, path), path)
    ensures forall p :: SettledAt(base, s, p) ==> SettledAt(base, RestoreStep(base, s, path), p)
  {
    hide LastByOthers;
    if Dirty(base, s, path) {
      forall p | p != path
        ensures SettledAt(base, s, p) ==> SettledAt(base, RestoreStep(base, s, path), p)
      {
        WriteKeeps(base, s, path, base[path], p);
      }
    }
  }

  /** However others write meanwhile, what was turned to is settled, and what was settled stays so. */
  lemma {:induction false} StepsSettle(base: Disk, s: Snapshot, paths: seq<string>, n: nat, foreign: nat -> Disk,
                                       k: nat)
    requires n <= |paths| && Coherent(base, s) && Accounted(base, s)
    ensures var s' := RestoreSteps(base, s, paths, n, foreign, k);
            && Coherent(base, s') && Accounted(base, s')
            && (forall p :: SettledAt(base, s, p) ==> SettledAt(base, s', p))
            && (forall i :: 0 <= i < n ==> SettledAt(base, s', paths[i]))
  {
    hide Coherent, Accounted, SettledAt, RestoreStep, OthersStep;
    if n > 0 {
      StepsSettle(base, s, paths, n - 1, foreign, k);
      var s1 := RestoreSteps(base, s, paths, n - 1, foreign, k);
      var s2 := OthersStep(s1, foreign(k + n - 1));
      HasFiles(base, s1);
      OthersKeep(base, s1, foreign(k + n - 1));
      OthersCoherent(base, s1, foreign(k + n - 1));
      RestoreCoherent(base, s2, paths[n - 1]);
      RestoreSettles(base, s2, paths[n - 1]);
    }
  }

  lemma HasFiles(base: Disk, s: Snapshot)
    requires Coherent(base, s)
    ensures base.Keys <= s.disk.Keys
  {
  }

  lemma RestoreCoherent(base: Disk, s: Snapshot, path: string)
    requires Coherent(base, s)
    ensures Coherent(base, RestoreStep(base, s, path))
  {
    if Dirty(base, s, path) {
      WriteCoherent(base, s, path, base[path]);
    }
  }

  /** Undisturbed, the loop changes nothing up to a dirty file, and there puts the baseline back. */
  lemma {:induction false} StepsUndisturbed(base: Disk, s: Snapshot, paths: seq<string>, n: nat, foreign: nat -> Disk,
                                            k: nat, path: string)
    requires n <= |paths| && (forall i :: foreign(i) == map[])
    requires forall p :: p in base && p != path ==> p in s.disk && s.disk[p] == base[p]
    ensures RestoreSteps(base, s, paths, n, foreign, k) == if path in paths[..n] then RestoreStep(base, s, path) else s
  {
    hide RestoreStep;
    if n > 0 {
      StepsUndisturbed(base, s, paths, n - 1, foreign, k, path);
      assert paths[..n] == paths[..n - 1] + [paths[n - 1]];
      OneTurn(base, s, paths[n - 1], path, path in paths[..n - 1]);
    }
  }

  lemma OneTurn(base: Disk, s: Snapshot, turn: string, path: string, done: bool)
    requires forall p :: p in base && p != path ==> p in s.disk && s.disk[p] == base[p]
    ensures var before := if done then RestoreStep(base, s, path) else s;
            RestoreStep(base, before, turn) == if done || turn == path then RestoreStep(base, s, path) else s
  {
  }

  // ---------------------------------------------------------------------------------------
  // The run
  // ---------------------------------------------------------------------------------------

  class SweepRun {
    const originals: Disk
    const paths: seq<string>
    const compiles: Bytes -> bool
    const attempts: nat -> Attempt
    const foreign: nat -> Disk      // what others write at the k-th opportunity
    var disk: Disk
    var written: Disk               // what this sweep last wrote into each file
    var attempt: nat
    var opportunity: nat
    ghost var log: seq<Event>

    ghost function Now(): Snapshot
      reads this
    {
      Snapshot(disk, written, log)
    }

    ghost predicate Valid()
      reads this
    {
      (forall p :: p in paths <==> p in originals) && Coherent(originals, Now())
    }

    /** Nobody else ever writes. */
    ghost predicate Quiet() {
      forall k :: foreign(k) == map[]
    }

    constructor (originals: Disk, paths: seq<string>, compiles: Bytes -> bool, attempts: nat -> Attempt,
                 foreign: nat -> Disk)
      requires forall p :: p in paths <==> p in originals
      ensures Valid() && disk == originals && log == [] && written == map[]
      ensures this.originals == originals && this.compiles == compiles && this.attempts == attempts
      ensures this.foreign == foreign && attempt == 0 && opportunity == 0
    {
      this.originals, this.paths, this.compiles := originals, paths, compiles;
      this.attempts, this.foreign := attempts, foreign;
      disk, written, attempt, opportunity, log := originals, map[], 0, 0, [];
    }

    /** An opportunity for everybody else. */
    method OthersWrite()
      requires Valid()
      modifies this`disk, this`opportunity, this`log
      ensures Valid() && opportunity == old(opportunity) + 1
      ensures Now() == OthersStep(old(Now()), foreign(old(opportunity)))
    {
      hide Coherent;
      var w := foreign(opportunity);
      OthersCoherent(originals, Now(), w);
      opportunity := opportunity + 1;
      if w != map[] {
        disk := disk + w;
        log := log + [Others(w)];
      }
    }

    /** One write of the sweep, allowed only over a pristine file or over its own bytes. */
    method WriteBytes(path: string, data: Bytes)
      requires Valid() && path in originals && path in disk
      requires (disk[path] == originals[path] && IsMutant(originals[path], data))
            || (data == originals[path] && Dirty(originals, Now(), path))
      modifies this`disk, this`log
      ensures Valid() && data in OwnBytes(log, path)
      ensures Now() == WriteStep(old(Now()), path, data)
    {
      hide Coherent, IsMutant, OwnBytes;
      WriteCoherent(originals, Now(), path, data);
      log := log + [Own(path, disk[path], data)];
      disk := disk[path := data];
    }

    /** One turn of the restore loop. */
    method RestoreOne(path: string)
      requires Valid() && path in originals
      modifies this`disk, this`written, this`opportunity, this`log
      ensures Valid() && opportunity == old(opportunity) + 1
      ensures Now() == RestoreStep(originals, OthersStep(old(Now()), foreign(old(opportunity))), path)
    {
      hide Coherent, IsMutant, OwnBytes;
      OthersWrite();
      HasFiles(originals, Now());
      RestoreCoherent(originals, Now(), path);
      var current := disk[path];
      if current == originals[path] {
        return;
      }
      if !(path in written && current == written[path]) {
        return;
      }
      WriteBytes(path, originals[path]);
      written := written - {path};
    }

    /** Puts baselines back wherever the bytes on disk are still the sweep's own. */
    method RestoreAll()
      requires Valid()
      modifies this`disk, this`written, this`opportunity, this`log
      ensures Valid() && opportunity == old(opportunity) + |paths|
      ensures Now() == RestoreSteps(originals, old(Now()), paths, |paths|, foreign, old(opportunity))
    {
      hide Coherent, OthersStep, RestoreStep;
      var i := 0;
      while i < |paths|
        invariant i <= |paths| && Valid() && opportunity == old(opportunity) + i
        invariant Now() == RestoreSteps(originals, old(Now()), paths, i, foreign, old(opportunity))
      {
        RestoreOne(paths[i]);
        i := i + 1;
      }
    }

    /** One mutant: check for drift, splice, compile, write, run, restore in any case. Drift is what
        others have made of the file by now, a bad splice is a mutant that does not compile. */
    method TryMutant(site: Site, polarity: Bytes) returns (exit: Exit)
      requires Valid() && SiteOk(originals, site)
      requires polarity == TRUE || polarity == FALSE
      modifies this`disk, this`written, this`opportunity, this`log, this`attempt
      ensures Valid()
      ensures attempt == old(attempt) + if exit == Drift || exit == BadSplice then 0 else 1
      ensures exit != Drift && exit != BadSplice ==>
                compiles(SpliceBytes(originals[site.path], site.span, polarity))
      ensures var found := OthersStep(old(Now()), foreign(old(opportunity))).disk;
              var mutant := SpliceBytes(originals[site.path], site.span, polarity);
              && site.path in found
              && exit == if found[site.path] != originals[site.path] then Drift else if !compiles(mutant) then BadSplice
                         else (match attempts(old(attempt))
                               case Ran(valid) => if valid then Completed else InvalidSelection
                               case _ => Raised)
      ensures Settled(originals, old(Now())) ==> Settled(originals, Now())
      ensures Quiet() && Pristine(originals, old(disk)) ==> Pristine(originals, disk) && exit != Drift
      ensures Quiet() && Pristine(originals, old(disk)) && exit == Completed ==>
                log == old(log) + Trial(site.path, originals[site.path],
                                        SpliceBytes(originals[site.path], site.span, polarity))
    {
      hide SplitLines, SpliceBytes, Coherent, IsMutant, Trial, SettledAt, OwnBytes, Accounted;
      HasFiles(originals, Now());
      OthersKeep(originals, Now(), foreign(opportunity));
      OthersWrite();
      HasFiles(originals, Now());
      var path := site.path;
      var current := disk[path];
      if current != originals[path] {
        return Drift;
      }
      var mutated := SpliceBytes(current, site.span, polarity);
      if !compiles(mutated) {
        return BadSplice;
      }
      MutantOf(originals[path], site.span, polarity);
      exit := RunMutant(path, mutated);
    }

    /** Write, run, and restore whatever happened. */
    method RunMutant(path: string, mutated: Bytes) returns (exit: Exit)
      requires Valid() && path in originals && path in disk && disk[path] == originals[path]
      requires IsMutant(originals[path], mutated)
      modifies this`disk, this`written, this`opportunity, this`log, this`attempt
      ensures Valid() && attempt == old(attempt) + 1
      ensures exit == match attempts(old(attempt))
                      case Ran(valid) => if valid then Completed else InvalidSelection
                      case _ => Raised
      ensures Settled(originals, old(Now())) ==> Settled(originals, Now())
      ensures Quiet() && Pristine(originals, old(disk)) ==> Pristine(originals, disk)
      ensures Quiet() && Pristine(originals, old(disk)) && exit == Completed ==>
                log == old(log) + Trial(path, originals[path], mutated)
    {
      hide IsMutant, Coherent, OwnBytes, Trial, Settled, Pristine, RestoreSteps, MutateStep, OthersStep;
      ghost var start := Now();
      QuietMeans();
      hide Quiet;
      var outcome := attempts(attempt);
      attempt := attempt + 1;
      if outcome == WriteRaises {
        RestoreAtExit();
        return Raised;
      }
      MutateCoherent(originals, start, path, mutated);
      TriedSettles(originals, start, path, mutated, paths, foreign, opportunity);
      WriteBytes(path, mutated);
      written := written[path := mutated];
      assert Now() == MutateStep(start, path, mutated) by { MutateIs(start, path, mutated); }
      OthersWrite();
      RestoreAll();
      match outcome
      case Ran(valid) => exit := if valid then Completed else InvalidSelection;
      case _ => exit := Raised;
    }

    /** One mutant, as a sweep of its own. */
    method TryOne(site: Site, polarity: Bytes) returns (exit: Exit)
      requires Valid() && SiteOk(originals, site) && Settled(originals, Now())
      requires polarity == TRUE || polarity == FALSE
      modifies this`disk, this`written, this`opportunity, this`log, this`attempt
      ensures Valid() && Settled(originals, Now()) && attempt >= old(attempt)
      ensures var mutant := SpliceBytes(originals[site.path], site.span, polarity);
              && EndedAt(exit, [mutant], attempt - old(attempt), old(attempt), attempts, compiles)
              && (Quiet() && Pristine(originals, old(disk)) ==> Pristine(originals, disk) && exit != Drift)
              && (Quiet() && Pristine(originals, old(disk)) && exit == Completed ==>
                    log == old(log) + Trial(site.path, originals[site.path], mutant))
    {
      hide Valid, SplitLines, SpliceBytes, Trial, Pristine, Settled, Quiet, OthersStep, EndedAt;
      ghost var first := attempt;
      exit := TryMutant(site, polarity);
      OneEnds(exit, SpliceBytes(originals[site.path], site.span, polarity), attempt - first, first, attempts, compiles);
    }

    /** One site in both polarities, unless no test executes it. */
    method TrySite(site: Site) returns (exit: Exit)
      requires Valid() && SiteOk(originals, site) && Settled(originals, Now())
      modifies this`disk, this`written, this`opportunity, this`log, this`attempt
      ensures Valid() && Settled(originals, Now()) && attempt >= old(attempt)
      ensures EndedAt(exit, SiteMutants(originals, site), attempt - old(attempt), old(attempt), attempts, compiles)
      ensures Quiet() && Pristine(originals, old(disk)) ==> Pristine(originals, disk) && exit != Drift
      ensures Quiet() && Pristine(originals, old(disk)) && exit == Completed ==>
                log == old(log) + SiteTrials(originals, site)
    {
      hide Valid, SplitLines, SpliceBytes, SiteTrials, Trial, Pristine, Settled, Quiet, EndedAt;
      ghost var before, first := log, attempt;
      exit := Completed;
      if site.covered {
        exit := TryOne(site, TRUE);
        ghost var ms := SiteMutants(originals, site);
        ghost var n := attempt - first;
        if exit == Completed {
          exit := TryOne(site, FALSE);
          EndsJoin(exit, [ms[0]], [ms[1]], n, attempt - first - n, first, attempts, compiles);
          assert [ms[0]] + [ms[1]] == ms;
        } else {
          EndsWhole(exit, [ms[0]], ms, n, first, attempts, compiles);
        }
      } else {
        NothingDue(first, attempts, compiles);
      }
      if Quiet() && Pristine(originals, old(disk)) && exit == Completed {
        SiteTrialsAre(originals, site, before, log);
      }
    }

    /** What is true of a sweep after its first `k` sites. */
    ghost predicate Swept(sites: seq<Site>, k: nat, exit: Exit, first: nat)
      reads this
      requires k <= |sites| && forall s :: s in sites ==> SiteOk(originals, s)
    {
      && attempt >= first
      && EndedAt(exit, Mutants(originals, sites[..k]), attempt - first, first, attempts, compiles)
      && (Quiet() ==> Pristine(originals, disk) && exit != Drift)
      && (Quiet() && exit == Completed ==> log == Trials(originals, sites[..k]))
    }

    method NextSite(sites: seq<Site>, k: nat, ghost first: nat) returns (exit: Exit)
      requires Valid() && Settled(originals, Now())
      requires k < |sites| && forall s :: s in sites ==> SiteOk(originals, s)
      requires Swept(sites, k, Completed, first)
      modifies this`disk, this`written, this`opportunity, this`log, this`attempt
      ensures Valid() && Settled(originals, Now())
      ensures Swept(sites, k + 1, exit, first)
    {
      hide SiteOk, SiteTrials, Valid, Pristine, Settled, Quiet, Trials, Mutants, SiteMutants, EndedAt;
      TrialsSnoc(originals, sites, k);
      MutantsSnoc(originals, sites, k);
      ghost var n := attempt - first;
      exit := TrySite(sites[k]);
      EndsJoin(exit, Mutants(originals, sites[..k]), SiteMutants(originals, sites[k]), n, attempt - first - n, first,
               attempts, compiles);
    }

    /** The whole sweep. However others write meanwhile, every exit leaves each file at its baseline
        or as someone else last wrote it, and is the one the test runs and the compiler give.
        Undisturbed, every file is at its baseline, no drift is ever reported, and a completed sweep
        has tried each covered site in both polarities. */
    method CmdSweep(sites: seq<Site>) returns (exit: Exit)
      requires Valid() && Pristine(originals, disk) && log == []
      requires forall s :: s in sites ==> SiteOk(originals, s)
      modifies this
      ensures Valid() && attempt >= old(attempt)
      ensures EndedAt(exit, Mutants(originals, sites), attempt - old(attempt), old(attempt), attempts, compiles)
      ensures Settled(originals, Now())
      ensures Quiet() ==> Pristine(originals, disk) && exit != Drift
      ensures Quiet() && exit == Completed ==> log == Trials(originals, sites)
    {
      hide SiteOk, Valid, Settled, Swept, Quiet, Pristine, Mutants, Trials, EndedAt;
      ghost var first := attempt;
      NothingSwept(sites);
      exit := Completed;
      var k := 0;
      while k < |sites| && exit == Completed
        invariant k <= |sites| && Valid() && Settled(originals, Now())
        invariant Swept(sites, k, exit, first)
      {
        exit := NextSite(sites, k, first);
        k := k + 1;
      }
      SweptAll(sites, k, exit, first);
      RestoreAtExit();
    }

    lemma NothingSwept(sites: seq<Site>)
      requires Pristine(originals, disk) && log == [] && forall s :: s in sites ==> SiteOk(originals, s)
      ensures Settled(originals, Now()) && Swept(sites, 0, Completed, attempt)
    {
      NoTrials(originals);
      NoMutants(originals);
      NothingDue(attempt, attempts, compiles);
      hide SiteOk, EndedAt, Mutants, Trials;
      assert sites[..0] == [];
    }

    lemma SweptAll(sites: seq<Site>, k: nat, exit: Exit, first: nat)
      requires k <= |sites| && forall s :: s in sites ==> SiteOk(originals, s)
      requires Swept(sites, k, exit, first) && (exit == Completed ==> k == |sites|)
      ensures attempt >= first
      ensures EndedAt(exit, Mutants(originals, sites), attempt - first, first, attempts, compiles)
      ensures Quiet() ==> Pristine(originals, disk) && exit != Drift
      ensures Quiet() && exit == Completed ==> log == Trials(originals, sites)
    {
      hide SiteOk, Pristine, Quiet, Trials, Mutants, EndedAt;
      MutantsSplit(originals, sites, k);
      assert k == |sites| ==> sites[..k] == sites;
      var seen, all := Mutants(originals, sites[..k]), Mutants(originals, sites);
      EndsWhole(exit, seen, all, attempt - first, first, attempts, compiles);
    }

    /** Restoring with no mutant of this sweep unaccounted for. */
    method RestoreAtExit()
      requires Valid()
      modifies this`disk, this`written, this`opportunity, this`log
      ensures Valid()
      ensures Settled(originals, old(Now())) ==> Settled(originals, Now())
      ensures Quiet() && Pristine(originals, old(disk)) ==> Pristine(originals, disk) && log == old(log)
    {
      hide Coherent, Settled, Pristine, RestoreSteps;
      QuietMeans();
      UntriedSettles(originals, Now(), paths, foreign, opportunity);
      RestoreAll();
    }

    lemma QuietMeans()
      ensures Quiet() <==> forall i :: foreign(i) == map[]
    {
    }
  }

  lemma MutateIs(s: Snapshot, path: string, mutant: Bytes)
    requires path in s.disk
    ensures MutateStep(s, path, mutant) == WriteStep(s, path, mutant).(written := s.written[path := mutant])
  {
  }

  lemma MutateCoherent(base: Disk, s: Snapshot, path: string, mutant: Bytes)
    requires Coherent(base, s) && path in base && path in s.disk && s.disk[path] == base[path]
    requires IsMutant(base[path], mutant)
    ensures Coherent(base, MutateStep(s, path, mutant))
  {
    hide IsMutant;
    WriteCoherent(base, s, path, mutant);
  }

  /** A mutant just written is accounted for. */
  lemma MutateAccounts(base: Disk, s: Snapshot, path: string, mutant: Bytes)
    requires Settled(base, s) && path in base && path in s.disk
    ensures Accounted(base, MutateStep(s, path, mutant))
  {
    hide LastByOthers;
    forall p | p in base && p != path
      ensures SettledAt(base, MutateStep(s, path, mutant), p)
    {
      WriteKeeps(base, s, path, mutant, p);
    }
  }

  lemma AllSettled(base: Disk, s: Snapshot, paths: seq<string>, foreign: nat -> Disk, k: nat)
    requires (forall p :: p in paths <==> p in base) && Coherent(base, s) && Accounted(base, s)
    ensures Settled(base, RestoreSteps(base, s, paths, |paths|, foreign, k))
  {
    StepsSettle(base, s, paths, |paths|, foreign, k);
    hide SettledAt, Coherent, Accounted, RestoreSteps;
  }

  /** Restoring with no mutant written. */
  lemma UntriedSettles(base: Disk, s: Snapshot, paths: seq<string>, foreign: nat -> Disk, k: nat)
    requires (forall p :: p in paths <==> p in base) && Coherent(base, s)
    ensures var s' := RestoreSteps(base, s, paths, |paths|, foreign, k);
            && (Settled(base, s) ==> Settled(base, s'))
            && ((forall i :: foreign(i) == map[]) && Pristine(base, s.disk) ==>
                  Pristine(base, s'.disk) && s'.log == s.log)
  {
    hide Coherent, SettledAt;
    if Settled(base, s) {
      AllSettled(base, s, paths, foreign, k);
    }
    if (forall i :: foreign(i) == map[]) && Pristine(base, s.disk) {
      StepsUndisturbed(base, s, paths, |paths|, foreign, k, "");
    }
  }

  /** Restoring after a mutant was written and run. */
  lemma TriedSettles(base: Disk, s: Snapshot, path: string, mutant: Bytes, paths: seq<string>, foreign: nat -> Disk,
                     k: nat)
    requires (forall p :: p in paths <==> p in base) && Coherent(base, s)
    requires path in base && path in s.disk && s.disk[path] == base[path] && Coherent(base, MutateStep(s, path, mutant))
    ensures var tried := OthersStep(MutateStep(s, path, mutant), foreign(k));
            var s' := RestoreSteps(base, tried, paths, |paths|, foreign, k + 1);
            && (Settled(base, s) ==> Settled(base, s'))
            && ((forall i :: foreign(i) == map[]) && Pristine(base, s.disk) ==>
                  Pristine(base, s'.disk) && s'.log == s.log + Trial(path, base[path], mutant))
  {
    hide MutateStep, Coherent, Settled, Pristine, OthersStep, RestoreSteps, Trial;
    var m := MutateStep(s, path, mutant);
    if Settled(base, s) {
      MutateAccounts(base, s, path, mutant);
      HasFiles(base, m);
      OthersKeep(base, m, foreign(k));
      OthersCoherent(base, m, foreign(k));
      AllSettled(base, OthersStep(m, foreign(k)), paths, foreign, k + 1);
    }
    if (forall i :: foreign(i) == map[]) && Pristine(base, s.disk) {
      UndisturbedTrial(base, s, path, mutant, paths, foreign, k);
    }
  }

  lemma UndisturbedTrial(base: Disk, s: Snapshot, path: string, mutant: Bytes, paths: seq<string>,
                         foreign: nat -> Disk, k: nat)
    requires forall p :: p in paths <==> p in base
    requires path in base && path in s.disk && (forall i :: foreign(i) == map[]) && Pristine(base, s.disk)
    ensures var tried := OthersStep(MutateStep(s, path, mutant), foreign(k));
            var s' := RestoreSteps(base, tried, paths, |paths|, foreign, k + 1);
            Pristine(base, s'.disk) && s'.log == s.log + Trial(path, base[path], mutant)
  {
    hide RestoreSteps, RestoreStep, Trial;
    var m := MutateStep(s, path, mutant);
    assert OthersStep(m, foreign(k)) == m;
    StepsUndisturbed(base, m, paths, |paths|, foreign, k + 1, path);
    assert paths[..|paths|] == paths;
    TrialUndone(base, s, path, mutant);
  }

  lemma TrialUndone(base: Disk, s: Snapshot, path: string, mutant: Bytes)
    requires path in base && path in s.disk && Pristine(base, s.disk)
    ensures var s' := RestoreStep(base, MutateStep(s, path, mutant), path);
            Pristine(base, s'.disk) && s'.log == s.log + Trial(path, base[path], mutant)
  {
    TrialIs(s.log, path, base[path], mutant);
  }
}
