/**
  The three mutating Olog operations. `ApproachOf` says what each of them reads before the full
  gate and how it gets there; the methods are proved to leave exactly the trace that follows.
 */
module OlogRuns {
  import opened Prelude
  import opened SlidingWindow
  import opened OlogGate

  /** An edit: the fields passed, None for "leave unchanged". */
  datatype Edit = Edit(
    title: Option<string>,
    description: Option<string>,
    level: Option<string>,
    logbooks: Option<set<string>>,
    tags: Option<set<string>>)

  datatype Request =
    | Create(logbooks: set<string>, level: Option<string>)                // create, or reply
    | Attach(hasAttachment: bool, numericId: bool, id: string)
    | Update(edit: Edit, numericIdGiven: bool, entryId: string)

  /** Some attachment file is going to be read. */
  predicate Reading(req: Request, w: World) {
    match req
    case Create(_, _) => w.plan.Some? && w.plan.value.specs > 0
    case Attach(_, _, _) => true
    case Update(_, _, _) => false
  }

  predicate HasTarget(w: World) {
    w.raw.Some? && w.raw.value.Some?
  }

  /** The arguments are usable before anything is contacted. */
  predicate EditOk(edit: Edit, numericId: bool) {
    && (edit.title.Some? || edit.description.Some? || edit.level.Some? || edit.logbooks.Some? || edit.tags.Some?)
    && numericId
    && (edit.title.Some? ==> Strip(edit.title.value) != "")
  }

  function Resulting(edit: Edit, entry: Entry): set<string> {
    if edit.logbooks.Some? then edit.logbooks.value else entry.logbooks
  }

  /** The entry can be edited and stays in some logbook. */
  predicate EntryOk(edit: Edit, entry: Entry) {
    !entry.unsafe && Resulting(edit, entry) != {}
  }

  /** Moving an entry writes to the logbooks it leaves and to those it enters. */
  function GatedBy(edit: Edit, entry: Entry): set<string> {
    entry.logbooks + Resulting(edit, entry)
  }

  predicate LogbooksKnown(edit: Edit, w: World) {
    edit.logbooks.Some? ==> w.knownLogbooks.Some? && edit.logbooks.value <= w.knownLogbooks.value
  }

  predicate TagsKnown(edit: Edit, w: World) {
    edit.tags.Some? ==> w.knownTags.Some? && edit.tags.value <= w.knownTags.value
  }

  predicate NamesKnown(edit: Edit, w: World) {
    LogbooksKnown(edit, w) && TagsKnown(edit, w) && LevelOk(edit.level, w.levels)
  }

  function LevelProbes(level: Option<string>): seq<Source> {
    if AsksLevels(level) then [LevelsSource] else []
  }

  /** Each listing is read only when its field is edited and the earlier fields were known. */
  function NameProbes(edit: Edit, w: World): seq<Source> {
    (if edit.logbooks.Some? then [LogbooksSource] else [])
    + (if LogbooksKnown(edit, w) && edit.tags.Some? then [TagsSource] else [])
    + (if LogbooksKnown(edit, w) && TagsKnown(edit, w) then LevelProbes(edit.level) else [])
  }

  function ApproachOf(c: Config, req: Request, w: World): Approach {
    if !c.urlSet then Approach([], Stops(Disabled))
    else match req
      case Create(logbooks, level) => CreateApproach(c, logbooks, level, w)
      case Attach(hasAttachment, numericId, id) =>
        if !hasAttachment || !numericId then Approach([], Stops(Refused)) else AttachApproach(c, id, w)
      case Update(edit, numericId, id) =>
        if !EditOk(edit, numericId) then Approach([], Stops(Refused)) else UpdateApproach(c, edit, id, w)
  }

  function CreateApproach(c: Config, logbooks: set<string>, level: Option<string>, w: World): Approach {
    if !Preconditions(c, logbooks) then Approach([], Stops(Denied(WriteDenied)))
    else if !LevelOk(level, w.levels) then Approach(LevelProbes(level), Stops(Refused))
    else Approach(LevelProbes(level) + [FileSizes], Planned(logbooks, None, w))
  }

  function AttachApproach(c: Config, id: string, w: World): Approach {
    if !EnvAndUrl(c) then Approach([], Stops(Denied(WriteDenied)))
    else if !HasTarget(w) then Approach([EntrySource], Stops(Refused))
    else if !Preconditions(c, w.raw.value.value.logbooks) then Approach([EntrySource], Stops(Denied(WriteDenied)))
    else Approach([EntrySource, FileSizes],
                  if w.plan.None? then Stops(Refused)
                  else Proceeds(Write(w.raw.value.value.logbooks, Some(id), w.plan.value.totalBytes, true)))
  }

  function UpdateApproach(c: Config, edit: Edit, id: string, w: World): Approach {
    if !EnvAndUrl(c) then Approach([], Stops(Denied(WriteDenied)))
    else if !HasTarget(w) || !EntryOk(edit, w.raw.value.value) then Approach([EntrySource], Stops(Refused))
    else
      var gated := GatedBy(edit, w.raw.value.value);
      if !Preconditions(c, gated) then Approach([EntrySource], Stops(Denied(WriteDenied)))
      else Approach([EntrySource] + NameProbes(edit, w),
                    if NamesKnown(edit, w) then Proceeds(Write(gated, Some(id), 0, false)) else Stops(Refused))
  }

  /** A bad path or bad base64 is refused when the attachments are sized. */
  function Planned(logbooks: set<string>, entry: Option<string>, w: World): Verdict {
    if w.plan.None? then Stops(Refused)
    else Proceeds(Write(logbooks, entry, w.plan.value.totalBytes, w.plan.value.specs > 0))
  }

  // ---------------------------------------------------------------------------------------
  // The operations
  // ---------------------------------------------------------------------------------------

  /** A run that only probed so far. */
  predicate Probing(before: seq<Event>, trace: seq<Event>, probes: seq<Source>) {
    trace == before + Probes(probes)
  }

  lemma ProbeMore(before: seq<Event>, trace: seq<Event>, probes: seq<Source>, s: Source)
    requires Probing(before, trace, probes)
    ensures Probing(before, trace + [Probe(s)], probes + [s])
  {
    assert Probes(probes + [s]) == Probes(probes) + [Probe(s)];
  }

  lemma StartProbing(before: seq<Event>)
    ensures Probing(before, before, [])
  {
  }

  /** The probes and what follows them are the events of the run. */
  lemma Complete(before: seq<Event>, mid: seq<Event>, trace: seq<Event>, c: Config, a: Approach, room: bool, w: World,
                 now: real)
    requires Probing(before, mid, a.probes) && trace == mid + Finish(c, a, room, w, now)
    ensures trace == before + EventsOf(c, a, room, w, now)
  {
  }

  lemma Stopped(before: seq<Event>, mid: seq<Event>, c: Config, probes: seq<Source>, e: Ending, room: bool, w: World,
                now: real)
    requires Probing(before, mid, probes)
    ensures mid + StopLine(e) == before + EventsOf(c, Approach(probes, Stops(e)), room, w, now)
    ensures !e.Denied? ==> mid + StopLine(e) == mid
  {
    Complete(before, mid, mid + StopLine(e), c, Approach(probes, Stops(e)), room, w, now);
  }

  /** The level check, as one more stage of probing. */
  method CheckLevel(gate: OlogWriteGate, level: Option<string>, w: World, ghost before: seq<Event>,
                    ghost probes: seq<Source>)
      returns (ok: bool)
    requires gate.Valid() && Probing(before, gate.trace, probes)
    modifies gate`trace
    ensures gate.Valid()
    ensures ok == LevelOk(level, w.levels) && Probing(before, gate.trace, probes + LevelProbes(level))
  {
    hide Probing, LevelOk, AsksLevels, Tracks, TokenMoments;
    ProbeMore(before, gate.trace, probes, LevelsSource);
    assert probes + [] == probes;
    ok := gate.RejectUnknownLevel(level, w);
  }

  /** Create, or reply. The cheap checks come before any probe; the token comes last. */
  method QueryOlogCreate(gate: OlogWriteGate, logbooks: set<string>, level: Option<string>, w: World, now: real)
      returns (e: Ending)
    requires gate.Valid() && now >= gate.window.clock
    modifies gate`trace, gate.window
    ensures gate.Valid()
    ensures var c, a := gate.config, ApproachOf(gate.config, Create(logbooks, level), w);
            var room := RoomFor(old(gate.window.admitted), now, gate.window.limit);
            e == EndingOf(c, a, room, w) && gate.trace == old(gate.trace) + EventsOf(c, a, room, w, now)
    ensures gate.window.admitted == old(gate.window.admitted) + if TookToken(e) then [now] else []
  {
    hide Tracks, TokenMoments, EnvAndUrl, Preconditions, LevelOk, LevelProbes, RoomFor;
    hide Probing, WriteEvents, EventsOf, StopLine, GateAnswer;
    ghost var c, before := gate.config, gate.trace;
    ghost var room := RoomFor(gate.window.admitted, now, gate.window.limit);
    StartProbing(before);
    if !gate.config.urlSet {
      Stopped(before, gate.trace, c, [], Disabled, room, w, now);
      return Disabled;
    }
    var denied := gate.CheckWritePreconditions(logbooks);
    if denied.Some? {
      DeniedNow(before, before, c, [], room, w, now);
      return Denied(denied.value);
    }
    var ok := CheckLevel(gate, level, w, before, []);
    assert [] + LevelProbes(level) == LevelProbes(level);
    if !ok {
      Stopped(before, gate.trace, c, LevelProbes(level), Refused, room, w, now);
      return Refused;
    }
    ProbeMore(before, gate.trace, LevelProbes(level), FileSizes);
    gate.Note(Probe(FileSizes));
    if w.plan.None? {
      Stopped(before, gate.trace, c, LevelProbes(level) + [FileSizes], Refused, room, w, now);
      return Refused;
    }
    ghost var mid := gate.trace;
    e := gate.AdmitAndSend(Write(logbooks, None, w.plan.value.totalBytes, w.plan.value.specs > 0), w, now);
    Complete(before, mid, gate.trace, c, ApproachOf(c, Create(logbooks, level), w), room, w, now);
  }

  lemma DeniedNow(before: seq<Event>, mid: seq<Event>, c: Config, probes: seq<Source>, room: bool, w: World, now: real)
    requires Probing(before, mid, probes)
    ensures var a := Approach(probes, Stops(Denied(WriteDenied)));
            mid + [Deny(WriteDenied)] == before + EventsOf(c, a, room, w, now)
  {
    Stopped(before, mid, c, probes, Denied(WriteDenied), room, w, now);
  }

  /** The attachment once the entry has been read. */
  method AttachToEntry(gate: OlogWriteGate, id: string, w: World, now: real, ghost before: seq<Event>)
      returns (e: Ending)
    requires gate.Valid() && now >= gate.window.clock
    requires EnvAndUrl(gate.config) && HasTarget(w) && Probing(before, gate.trace, [EntrySource])
    modifies gate`trace, gate.window
    ensures gate.Valid()
    ensures var c, a := gate.config, AttachApproach(gate.config, id, w);
            var room := RoomFor(old(gate.window.admitted), now, gate.window.limit);
            e == EndingOf(c, a, room, w) && gate.trace == before + EventsOf(c, a, room, w, now)
    ensures gate.window.admitted == old(gate.window.admitted) + if TookToken(e) then [now] else []
  {
    hide Tracks, TokenMoments, EnvAndUrl, Preconditions, RoomFor, Probing, WriteEvents, EventsOf, StopLine, GateAnswer;
    ghost var c := gate.config;
    ghost var room := RoomFor(gate.window.admitted, now, gate.window.limit);
    var gated := w.raw.value.value.logbooks;
    ghost var mid := gate.trace;
    var denied := gate.CheckWritePreconditions(gated);
    if denied.Some? {
      DeniedNow(before, mid, c, [EntrySource], room, w, now);
      return Denied(denied.value);
    }
    ProbeMore(before, gate.trace, [EntrySource], FileSizes);
    gate.Note(Probe(FileSizes));
    assert [EntrySource] + [FileSizes] == [EntrySource, FileSizes];
    if w.plan.None? {
      Stopped(before, gate.trace, c, [EntrySource, FileSizes], Refused, room, w, now);
      return Refused;
    }
    mid := gate.trace;
    e := gate.AdmitAndSend(Write(gated, Some(id), w.plan.value.totalBytes, true), w, now);
    Complete(before, mid, gate.trace, c, AttachApproach(c, id, w), room, w, now);
  }

  /** Attach to an existing entry, gated on that entry's own logbooks. */
  method QueryOlogAddAttachment(gate: OlogWriteGate, hasAttachment: bool, numericId: bool, id: string, w: World,
                                now: real)
      returns (e: Ending)
    requires gate.Valid() && now >= gate.window.clock
    modifies gate`trace, gate.window
    ensures gate.Valid()
    ensures var c, a := gate.config, ApproachOf(gate.config, Attach(hasAttachment, numericId, id), w);
            var room := RoomFor(old(gate.window.admitted), now, gate.window.limit);
            e == EndingOf(c, a, room, w) && gate.trace == old(gate.trace) + EventsOf(c, a, room, w, now)
    ensures gate.window.admitted == old(gate.window.admitted) + if TookToken(e) then [now] else []
  {
    hide Tracks, TokenMoments, EnvAndUrl, Preconditions, RoomFor, Probing, WriteEvents, EventsOf, StopLine, GateAnswer;
    ghost var c, before := gate.config, gate.trace;
    ghost var room := RoomFor(gate.window.admitted, now, gate.window.limit);
    StartProbing(before);
    if !gate.config.urlSet {
      Stopped(before, gate.trace, c, [], Disabled, room, w, now);
      return Disabled;
    }
    if !hasAttachment || !numericId {
      Stopped(before, gate.trace, c, [], Refused, room, w, now);
      return Refused;
    }
    var denied := gate.CheckWriteEnvAndUrl();
    if denied.Some? {
      DeniedNow(before, before, c, [], room, w, now);
      return Denied(denied.value);
    }
    ProbeMore(before, gate.trace, [], EntrySource);
    gate.Note(Probe(EntrySource));
    assert [] + [EntrySource] == [EntrySource];
    if w.raw.None? || w.raw.value.None? {
      Stopped(before, gate.trace, c, [EntrySource], Refused, room, w, now);
      return Refused;
    }
    e := AttachToEntry(gate, id, w, now, before);
  }

  /** The existence checks of an edit: logbooks, tags, level, each read only when edited. */
  method CheckNames(gate: OlogWriteGate, edit: Edit, w: World, ghost before: seq<Event>, ghost probes: seq<Source>)
      returns (ok: bool)
    requires gate.Valid() && Probing(before, gate.trace, probes)
    modifies gate`trace
    ensures gate.Valid()
    ensures ok == NamesKnown(edit, w) && Probing(before, gate.trace, probes + NameProbes(edit, w))
  {
    hide Probing, LevelOk, LevelProbes, Tracks, TokenMoments;
    ghost var sofar := probes;
    if edit.logbooks.Some? {
      ProbeMore(before, gate.trace, sofar, LogbooksSource);
      gate.Note(Probe(LogbooksSource));
      sofar := sofar + [LogbooksSource];
      if w.knownLogbooks.None? || !(edit.logbooks.value <= w.knownLogbooks.value) {
        assert NameProbes(edit, w) == [LogbooksSource];
        return false;
      }
    }
    if edit.tags.Some? {
      ProbeMore(before, gate.trace, sofar, TagsSource);
      gate.Note(Probe(TagsSource));
      sofar := sofar + [TagsSource];
      if w.knownTags.None? || !(edit.tags.value <= w.knownTags.value) {
        assert sofar == probes + NameProbes(edit, w);
        return false;
      }
    }
    assert sofar + LevelProbes(edit.level) == probes + NameProbes(edit, w);
    ok := CheckLevel(gate, edit.level, w, before, sofar);
  }

  /** The edit once the entry has been read. */
  method UpdateEntry(gate: OlogWriteGate, edit: Edit, id: string, w: World, now: real, ghost before: seq<Event>)
      returns (e: Ending)
    requires gate.Valid() && now >= gate.window.clock
    requires EnvAndUrl(gate.config) && HasTarget(w) && Probing(before, gate.trace, [EntrySource])
    modifies gate`trace, gate.window
    ensures gate.Valid()
    ensures var c, a := gate.config, UpdateApproach(gate.config, edit, id, w);
            var room := RoomFor(old(gate.window.admitted), now, gate.window.limit);
            e == EndingOf(c, a, room, w) && gate.trace == before + EventsOf(c, a, room, w, now)
    ensures gate.window.admitted == old(gate.window.admitted) + if TookToken(e) then [now] else []
  {
    hide Tracks, TokenMoments, EnvAndUrl, Preconditions, RoomFor, NamesKnown, NameProbes;
    hide Probing, WriteEvents, EventsOf, StopLine, GateAnswer;
    ghost var c := gate.config;
    ghost var room := RoomFor(gate.window.admitted, now, gate.window.limit);
    ghost var mid := gate.trace;
    Stopped(before, mid, c, [EntrySource], Refused, room, w, now);
    var entry := w.raw.value.value;
    if entry.unsafe {
      return Refused;
    }
    var effective := if edit.logbooks.Some? then edit.logbooks.value else entry.logbooks;
    if effective == {} {
      return Refused;
    }
    var gated := entry.logbooks + effective;
    var denied := gate.CheckWritePreconditions(gated);
    if denied.Some? {
      DeniedNow(before, mid, c, [EntrySource], room, w, now);
      return Denied(denied.value);
    }
    var ok := CheckNames(gate, edit, w, before, [EntrySource]);
    if !ok {
      Stopped(before, gate.trace, c, [EntrySource] + NameProbes(edit, w), Refused, room, w, now);
      return Refused;
    }
    mid := gate.trace;
    e := gate.AdmitAndSend(Write(gated, Some(id), 0, false), w, now);
    Complete(before, mid, gate.trace, c, UpdateApproach(c, edit, id, w), room, w, now);
  }

  /** Edit an existing entry, gated on its current and its resulting logbooks together. */
  method QueryOlogUpdate(gate: OlogWriteGate, edit: Edit, numericId: bool, id: string, w: World, now: real)
      returns (e: Ending)
    requires gate.Valid() && now >= gate.window.clock
    modifies gate`trace, gate.window
    ensures gate.Valid()
    ensures var c, a := gate.config, ApproachOf(gate.config, Update(edit, numericId, id), w);
            var room := RoomFor(old(gate.window.admitted), now, gate.window.limit);
            e == EndingOf(c, a, room, w) && gate.trace == old(gate.trace) + EventsOf(c, a, room, w, now)
    ensures gate.window.admitted == old(gate.window.admitted) + if TookToken(e) then [now] else []
  {
    hide Tracks, TokenMoments, EnvAndUrl, Preconditions, RoomFor, NamesKnown, NameProbes;
    hide Probing, WriteEvents, EventsOf, StopLine, GateAnswer;
    ghost var c, before := gate.config, gate.trace;
    ghost var room := RoomFor(gate.window.admitted, now, gate.window.limit);
    StartProbing(before);
    if !gate.config.urlSet {
      Stopped(before, gate.trace, c, [], Disabled, room, w, now);
      return Disabled;
    }
    if edit == Edit(None, None, None, None, None) || !numericId || (edit.title.Some? && Strip(edit.title.value) == "") {
      Stopped(before, gate.trace, c, [], Refused, room, w, now);
      return Refused;
    }
    var denied := gate.CheckWriteEnvAndUrl();
    if denied.Some? {
      DeniedNow(before, before, c, [], room, w, now);
      return Denied(denied.value);
    }
    ProbeMore(before, gate.trace, [], EntrySource);
    gate.Note(Probe(EntrySource));
    assert [] + [EntrySource] == [EntrySource];
    if w.raw.None? || w.raw.value.None? {
      Stopped(before, gate.trace, c, [EntrySource], Refused, room, w, now);
      return Refused;
    }
    e := UpdateEntry(gate, edit, id, w, now, before);
  }

  // ---------------------------------------------------------------------------------------
  // What the three operations promise
  // ---------------------------------------------------------------------------------------

  /** A caller refused by the switch or the URL boundary causes no read and no stat, and neither
      does a create refused for its logbooks. */
  lemma DeniedCallersReadNothing(c: Config, req: Request, w: World)
    ensures !EnvAndUrl(c) ==> ApproachOf(c, req, w).probes == []
    ensures req.Create? && !Preconditions(c, req.logbooks) ==> ApproachOf(c, req, w).probes == []
  {
  }

  /** What comes as far as the full gate is gated on the right logbooks, all of them allowed: those
      named, those of the target, or for an edit those it leaves and those it enters. */
  lemma OnlyPermittedReachTheGate(c: Config, req: Request, w: World)
    requires ApproachOf(c, req, w).verdict.Proceeds?
    ensures var wr := ApproachOf(c, req, w).verdict.write;
            && c.urlSet && Preconditions(c, wr.gated) && wr.reading == Reading(req, w)
            && match req
               case Create(logbooks, _) => wr.gated == logbooks && wr.entry == None
               case Attach(_, _, id) => HasTarget(w) && wr.gated == w.raw.value.value.logbooks && wr.entry == Some(id)
               case Update(edit, _, id) =>
                 && HasTarget(w) && wr.entry == Some(id) && wr.bytes == 0
                 && wr.gated == w.raw.value.value.logbooks + Resulting(edit, w.raw.value.value)
  {
    hide LevelOk, LevelProbes, EditOk, NamesKnown, NameProbes, EnvAndUrl;
  }

  /** A denial that late is for size exactly when the upload is over the cap, else for the rate. */
  lemma LateDenials(c: Config, req: Request, w: World, room: bool)
    requires ApproachOf(c, req, w).verdict.Proceeds?
    ensures var a := ApproachOf(c, req, w);
            var fits := a.verdict.write.bytes <= c.attachMaxBytes;
            && (EndingOf(c, a, room, w) == Denied(AttachTooLarge) <==> !fits)
            && (EndingOf(c, a, room, w) == Denied(RateLimitExceeded) <==> fits && !room)
            && (TookToken(EndingOf(c, a, room, w)) <==> fits && room)
  {
    hide ApproachOf, Preconditions;
    OnlyPermittedReachTheGate(c, req, w);
  }

  predicate TakesToken(t: seq<Event>) {
    exists i :: 0 <= i < |t| && t[i].Token?
  }

  /** An ALLOW or a FAILED line. */
  predicate Terminates(t: seq<Event>) {
    exists i :: 0 <= i < |t| && (t[i].Allow? || t[i].Failed?)
  }

  function RunOf(c: Config, req: Request, w: World, room: bool, now: real): seq<Event> {
    EventsOf(c, ApproachOf(c, req, w), room, w, now)
  }

  /** A run that took its token gets its terminal line exactly unless it has files to read and they
      cannot be read; what an edit takes is therefore always accounted for. */
  lemma TerminalLineIff(c: Config, req: Request, w: World, room: bool, now: real)
    requires TakesToken(RunOf(c, req, w, room, now))
    ensures Terminates(RunOf(c, req, w, room, now)) <==> !(Reading(req, w) && !w.filesReadable)
    ensures req.Update? ==> Terminates(RunOf(c, req, w, room, now))
  {
    hide ApproachOf, GateAnswer, Aftermath, WriteEnding, Terminates;
    var a, t := ApproachOf(c, req, w), RunOf(c, req, w, room, now);
    var i :| 0 <= i < |t| && t[i].Token?;
    assert a.verdict.Proceeds?;
    OnlyPermittedReachTheGate(c, req, w);
    var wr := a.verdict.write;
    AftermathEnds(wr, w, now);
    LinesOfTail(a.probes, [Token(now)] + Aftermath(WriteEnding(wr.reading, w), wr.reading, wr.gated, wr.entry));
  }

  lemma AftermathEnds(wr: Write, w: World, now: real)
    ensures Terminates([Token(now)] + Aftermath(WriteEnding(wr.reading, w), wr.reading, wr.gated, wr.entry))
       <==> !(wr.reading && !w.filesReadable)
  {
    var tail := [Token(now)] + Aftermath(WriteEnding(wr.reading, w), wr.reading, wr.gated, wr.entry);
    var last := tail[|tail| - 1];
    assert !(wr.reading && !w.filesReadable) ==> last.Allow? || last.Failed?;
  }

  lemma LinesOfTail(sources: seq<Source>, tail: seq<Event>)
    ensures Terminates(Probes(sources) + tail) <==> Terminates(tail)
  {
    var t := Probes(sources) + tail;
    if Terminates(tail) {
      var i :| 0 <= i < |tail| && (tail[i].Allow? || tail[i].Failed?);
      assert t[|sources| + i] == tail[i];
    }
  }

  /** For instance: a permitted create with one attachment that cannot be read any more. */
  lemma StrandedRun(now: real)
    ensures var c := Config(true, true, true, {"ops"}, 100);
            var w := World(None, None, None, None, Some(Plan(1, 10)), false, Succeeds);
            var t := RunOf(c, Create({"ops"}, None), w, true, now);
            && t == [Probe(FileSizes), Token(now), FilesRead]
            && TakesToken(t) && !Terminates(t)
  {
    var c := Config(true, true, true, {"ops"}, 100);
    var w := World(None, None, None, None, Some(Plan(1, 10)), false, Succeeds);
    var t := RunOf(c, Create({"ops"}, None), w, true, now);
    assert Probes([] + [FileSizes]) == [Probe(FileSizes)];
    assert t[1].Token?;
  }

  // ---------------------------------------------------------------------------------------
  // The operations in plain terms
  // ---------------------------------------------------------------------------------------

  predicate Has(t: seq<Event>, kind: Event -> bool) {
    exists i :: 0 <= i < |t| && kind(t[i])
  }

  lemma HasBehindProbes(sources: seq<Source>, tail: seq<Event>, kind: Event -> bool)
    requires forall s :: !kind(Probe(s))
    ensures Has(Probes(sources) + tail, kind) <==> Has(tail, kind)
  {
    var t := Probes(sources) + tail;
    if Has(tail, kind) {
      var i :| 0 <= i < |tail| && kind(tail[i]);
      assert kind(t[|sources| + i]);
    }
    if Has(t, kind) {
      var i :| 0 <= i < |t| && kind(t[i]);
      assert i >= |sources| && kind(tail[i - |sources|]);
    }
  }

  /** The logbooks an operation writes to: those named, those of the target, or for an edit the
      current ones and the new ones. */
  function WritesTo(req: Request, w: World): set<string> {
    match req
    case Create(logbooks, _) => logbooks
    case Attach(_, _, _) => if HasTarget(w) then w.raw.value.value.logbooks else {}
    case Update(edit, _, _) =>
      if !HasTarget(w) then {}
      else
        var current := w.raw.value.value.logbooks;
        current + if edit.logbooks.Some? then edit.logbooks.value else current
  }

  function EntryOf(req: Request): Option<string> {
    match req
    case Create(_, _) => None
    case Attach(_, _, id) => Some(id)
    case Update(_, _, id) => Some(id)
  }

  /** What a run that took its token leaves, by the world alone: files are read if there are any; if
      they can be, the request leaves unless the client refuses it; then one line says ALLOW exactly
      if the send succeeded, and FAILED otherwise. */
  lemma TraceMeans(c: Config, req: Request, w: World, room: bool, now: real)
    requires TakesToken(RunOf(c, req, w, room, now))
    ensures var t := RunOf(c, req, w, room, now);
            var withFiles := req.Attach? || (req.Create? && w.plan.Some? && w.plan.value.specs > 0);
            var lost := withFiles && !w.filesReadable;
            && (Has(t, (x: Event) => x.FilesRead?) <==> withFiles)
            && (Has(t, (x: Event) => x.Send?) <==> !lost && !w.send.RefusesLocally?)
            && (Has(t, (x: Event) => x.Allow?) <==> !lost && w.send.Succeeds?)
            && (Has(t, (x: Event) => x.Failed?) <==> !lost && !w.send.Succeeds?)
            && (EndingOf(c, ApproachOf(c, req, w), room, w) == Done <==> !lost && w.send.Succeeds?)
  {
    var a := ApproachOf(c, req, w);
    var wr := AdmittedWrite(c, req, w, room, now);
    assert Reading(req, w) <==> req.Attach? || (req.Create? && w.plan.Some? && w.plan.value.specs > 0);
    hide ApproachOf, GateAnswer, Preconditions, RunOf, Reading;
    var tail := [Token(now)] + Aftermath(WriteEnding(wr.reading, w), wr.reading, wr.gated, wr.entry);
    AftermathMeans(wr, w, now);
    HasBehindProbes(a.probes, tail, (x: Event) => x.FilesRead?);
    HasBehindProbes(a.probes, tail, (x: Event) => x.Send?);
    HasBehindProbes(a.probes, tail, (x: Event) => x.Allow?);
    HasBehindProbes(a.probes, tail, (x: Event) => x.Failed?);
    hide Has;
  }

  /** The write behind a token, and the trace it makes. */
  lemma AdmittedWrite(c: Config, req: Request, w: World, room: bool, now: real) returns (wr: Write)
    requires TakesToken(RunOf(c, req, w, room, now))
    ensures var a := ApproachOf(c, req, w);
            && a.verdict == Proceeds(wr) && wr.reading == Reading(req, w)
            && wr.gated == WritesTo(req, w) && wr.entry == EntryOf(req)
            && RunOf(c, req, w, room, now)
               == Probes(a.probes)
                  + ([Token(now)] + Aftermath(WriteEnding(wr.reading, w), wr.reading, wr.gated, wr.entry))
            && EndingOf(c, a, room, w) == WriteEnding(wr.reading, w)
  {
    var a, t := ApproachOf(c, req, w), RunOf(c, req, w, room, now);
    hide ApproachOf, GateAnswer, Reading;
    var i :| 0 <= i < |t| && t[i].Token?;
    assert a.verdict.Proceeds?;
    wr := a.verdict.write;
    OnlyPermittedReachTheGate(c, req, w);
    hide Preconditions, Aftermath, WriteEnding;
    assert GateAnswer(c, wr, room).None?;
  }

  lemma AftermathMeans(wr: Write, w: World, now: real)
    ensures var t, lost := [Token(now)] + Aftermath(WriteEnding(wr.reading, w), wr.reading, wr.gated, wr.entry),
                           wr.reading && !w.filesReadable;
            && (Has(t, (x: Event) => x.FilesRead?) <==> wr.reading)
            && (Has(t, (x: Event) => x.Send?) <==> !lost && !w.send.RefusesLocally?)
            && (Has(t, (x: Event) => x.Allow?) <==> !lost && w.send.Succeeds?)
            && (Has(t, (x: Event) => x.Failed?) <==> !lost && !w.send.Succeeds?)
            && (WriteEnding(wr.reading, w) == Done <==> !lost && w.send.Succeeds?)
  {
    var t := [Token(now)] + Aftermath(WriteEnding(wr.reading, w), wr.reading, wr.gated, wr.entry);
    if wr.reading {
      assert t[1] == FilesRead;
      if w.filesReadable {
        LastTwo(t, w);
      }
    } else {
      LastTwo(t, w);
    }
  }

  lemma LastTwo(t: seq<Event>, w: World)
    requires |t| >= 2
    requires w.send.RefusesLocally? ==> t[|t| - 1].Failed?
    requires w.send.FailsOnTheWire? ==> t[|t| - 2].Send? && t[|t| - 1].Failed?
    requires w.send.Succeeds? ==> t[|t| - 2].Send? && t[|t| - 1].Allow?
    ensures w.send.RefusesLocally? ==> Has(t, (x: Event) => x.Failed?)
    ensures w.send.FailsOnTheWire? ==> Has(t, (x: Event) => x.Send?) && Has(t, (x: Event) => x.Failed?)
    ensures w.send.Succeeds? ==> Has(t, (x: Event) => x.Send?) && Has(t, (x: Event) => x.Allow?)
  {
  }

  /** What the lines carry, and when the token was taken. */
  predicate CarriesRightly(t: seq<Event>, now: real, logbooks: set<string>, entry: Option<string>) {
    forall i :: 0 <= i < |t| ==>
      && (t[i].Token? ==> t[i].moment == now)
      && (t[i].Allow? ==> t[i].logbooks == logbooks)
      && (t[i].Failed? ==> t[i].logbooks == logbooks && t[i].entry == entry)
  }

  /** The place of an event in a run. */
  function Rank(x: Event): nat {
    match x
    case Probe(_) => 0
    case Token(_) => 1
    case FilesRead => 2
    case Send => 3
    case Deny(_) => 4
    case Allow(_) => 4
    case Failed(_, _) => 4
  }

  /** Behind the probes each kind stands once, in the order of the ranks. */
  predicate InOrder(t: seq<Event>) {
    forall i, j :: 0 <= i < j < |t| ==> Rank(t[i]) < Rank(t[j]) || (t[i].Probe? && t[j].Probe?)
  }

  /** A run that took its token: probes, the token, the files, the request, one line, in this order
      and none of them twice; every line carries the logbooks written to, FAILED the entry as well. */
  lemma LinesMean(c: Config, req: Request, w: World, room: bool, now: real)
    requires TakesToken(RunOf(c, req, w, room, now))
    ensures CarriesRightly(RunOf(c, req, w, room, now), now, WritesTo(req, w), EntryOf(req))
    ensures InOrder(RunOf(c, req, w, room, now))
  {
    var a := ApproachOf(c, req, w);
    var wr := AdmittedWrite(c, req, w, room, now);
    hide ApproachOf, RunOf, WritesTo, EntryOf, CarriesRightly, InOrder, Aftermath, WriteEnding;
    var tail := [Token(now)] + Aftermath(WriteEnding(wr.reading, w), wr.reading, wr.gated, wr.entry);
    AftermathInOrder(wr, w, now);
    BehindProbes(a.probes, tail, now, wr.gated, wr.entry);
  }

  lemma AftermathInOrder(wr: Write, w: World, now: real)
    ensures var t := [Token(now)] + Aftermath(WriteEnding(wr.reading, w), wr.reading, wr.gated, wr.entry);
            && CarriesRightly(t, now, wr.gated, wr.entry) && InOrder(t)
            && forall i :: 0 <= i < |t| ==> !t[i].Probe?
  {
  }

  lemma BehindProbes(sources: seq<Source>, tail: seq<Event>, now: real, gated: set<string>, entry: Option<string>)
    requires CarriesRightly(tail, now, gated, entry) && InOrder(tail) && forall i :: 0 <= i < |tail| ==> !tail[i].Probe?
    ensures CarriesRightly(Probes(sources) + tail, now, gated, entry) && InOrder(Probes(sources) + tail)
  {
    var t, n := Probes(sources) + tail, |sources|;
    forall i | 0 <= i < |t|
      ensures i < n ==> t[i].Probe?
      ensures i >= n ==> t[i] == tail[i - n]
    {
    }
    forall i, j | 0 <= i < j < |t|
      ensures Rank(t[i]) < Rank(t[j]) || (t[i].Probe? && t[j].Probe?)
    {
      if i >= n {
        assert t[i] == tail[i - n] && t[j] == tail[j - n];
      }
    }
  }

  /** The gate's permission, spelled out. */
  predicate Permitted(c: Config, logbooks: set<string>) {
    c.allowWrite && c.urlPermitted && logbooks != {} && forall l :: l in logbooks ==> l in c.logbooks
  }

  /** An absent level is fine; a present one must not be blank and must be on the server's list. */
  predicate LevelKnown(level: Option<string>, w: World) {
    level == None || (!IsBlank(level.value) && w.levels.Some? && level.value in w.levels.value)
  }

  function LevelRead(level: Option<string>): seq<Source> {
    if level != None && !IsBlank(level.value) then [LevelsSource] else []
  }

  lemma PlainWords(c: Config, logbooks: set<string>, level: Option<string>, w: World)
    ensures Preconditions(c, logbooks) <==> Permitted(c, logbooks)
    ensures LevelOk(level, w.levels) <==> LevelKnown(level, w)
    ensures LevelProbes(level) == LevelRead(level)
  {
    hide Strip;
  }

  /** Every ending of a create, and what it reads. */
  lemma CreateMeans(c: Config, logbooks: set<string>, level: Option<string>, w: World, room: bool)
    ensures var a := ApproachOf(c, Create(logbooks, level), w);
            var e := EndingOf(c, a, room, w);
            var open := c.urlSet && Permitted(c, logbooks);
            var ready := open && LevelKnown(level, w) && w.plan.Some?;
            var fits := ready && w.plan.value.totalBytes <= c.attachMaxBytes;
            && (e == Disabled <==> !c.urlSet)
            && (e == Denied(WriteDenied) <==> c.urlSet && !open)
            && (e == Refused <==> open && !ready)
            && (e == Denied(AttachTooLarge) <==> ready && !fits)
            && (e == Denied(RateLimitExceeded) <==> fits && !room)
            && (TookToken(e) <==> fits && room)
            && a.probes == if !open then [] else LevelRead(level) + if LevelKnown(level, w) then [FileSizes] else []
  {
    PlainWords(c, logbooks, level, w);
    hide LevelOk, LevelProbes, LevelRead, LevelKnown, Preconditions, Permitted;
    assert LevelRead(level) + [] == LevelRead(level);
  }

  /** Every ending of an attachment, and what it reads. */
  lemma AttachMeans(c: Config, hasAttachment: bool, numericId: bool, id: string, w: World, room: bool)
    ensures var req := Attach(hasAttachment, numericId, id);
            var a := ApproachOf(c, req, w);
            var e := EndingOf(c, a, room, w);
            var asked := c.urlSet && hasAttachment && numericId;
            var looks := asked && c.allowWrite && c.urlPermitted;
            var open := looks && HasTarget(w) && Permitted(c, WritesTo(req, w));
            var ready := open && w.plan.Some?;
            var fits := ready && w.plan.value.totalBytes <= c.attachMaxBytes;
            && (e == Disabled <==> !c.urlSet)
            && (e == Denied(WriteDenied) <==> asked && (!looks || (HasTarget(w) && !open)))
            && (e == Refused <==> c.urlSet && (!asked || (looks && !HasTarget(w)) || (open && !ready)))
            && (e == Denied(AttachTooLarge) <==> ready && !fits)
            && (e == Denied(RateLimitExceeded) <==> fits && !room)
            && (TookToken(e) <==> fits && room)
            && a.probes == if !looks then [] else if open then [EntrySource, FileSizes] else [EntrySource]
  {
    if HasTarget(w) {
      PlainWords(c, w.raw.value.value.logbooks, None, w);
    }
    hide Preconditions, Permitted;
  }

  /** The listings an edit reads: logbooks, tags, level, each if edited, up to the first unknown. */
  predicate AllKnown(wanted: Option<set<string>>, listing: Option<set<string>>) {
    wanted == None || (listing.Some? && forall x :: x in wanted.value ==> x in listing.value)
  }

  function ListingsRead(edit: Edit, w: World): seq<Source> {
    (if edit.logbooks != None then [LogbooksSource] else [])
    + if !AllKnown(edit.logbooks, w.knownLogbooks) then []
      else (if edit.tags != None then [TagsSource] else [])
           + if !AllKnown(edit.tags, w.knownTags) then [] else LevelRead(edit.level)
  }

  lemma ListingsAre(edit: Edit, w: World)
    ensures NameProbes(edit, w) == ListingsRead(edit, w)
    ensures NamesKnown(edit, w)
       <==> && AllKnown(edit.logbooks, w.knownLogbooks) && AllKnown(edit.tags, w.knownTags)
            && LevelKnown(edit.level, w)
  {
    PlainWords(Config(true, true, true, {}, 0), {}, edit.level, w);
    hide LevelOk, LevelProbes, LevelRead, LevelKnown;
    assert AllKnown(edit.logbooks, w.knownLogbooks) <==> LogbooksKnown(edit, w);
    assert AllKnown(edit.tags, w.knownTags) <==> TagsKnown(edit, w);
  }

  /** Every ending of an edit, and what it reads. */
  lemma UpdateMeans(c: Config, edit: Edit, numericId: bool, id: string, w: World, room: bool)
    ensures var req := Update(edit, numericId, id);
            var a := ApproachOf(c, req, w);
            var e := EndingOf(c, a, room, w);
            var asked := c.urlSet && edit != Edit(None, None, None, None, None) && numericId
                         && (edit.title == None || !IsBlank(edit.title.value));
            var looks := asked && c.allowWrite && c.urlPermitted;
            var editable := looks && HasTarget(w) && !w.raw.value.value.unsafe
                            && (edit.logbooks != None ==> edit.logbooks.value != {})
                            && (edit.logbooks == None ==> w.raw.value.value.logbooks != {});
            var open := editable && Permitted(c, WritesTo(req, w));
            var ready := open && AllKnown(edit.logbooks, w.knownLogbooks) && AllKnown(edit.tags, w.knownTags)
                         && LevelKnown(edit.level, w);
            var fits := ready && 0 <= c.attachMaxBytes;
            && (e == Disabled <==> !c.urlSet)
            && (e == Denied(WriteDenied) <==> asked && (!looks || (editable && !open)))
            && (e == Refused <==> c.urlSet && (!asked || (looks && !editable) || (open && !ready)))
            && (e == Denied(AttachTooLarge) <==> ready && !fits)
            && (e == Denied(RateLimitExceeded) <==> fits && !room)
            && (TookToken(e) <==> fits && room)
            && a.probes == if !looks then [] else [EntrySource] + if open then ListingsRead(edit, w) else []
  {
    if HasTarget(w) {
      PlainWords(c, GatedBy(edit, w.raw.value.value), None, w);
    }
    ListingsAre(edit, w);
    hide Preconditions, Permitted, NamesKnown, NameProbes, ListingsRead, AllKnown, LevelKnown, Strip, IsBlank;
    assert [EntrySource] + [] == [EntrySource];
  }

  /** A DENY line stands in a run exactly if it was denied, and with that code. */
  lemma DenialsMean(c: Config, req: Request, w: World, room: bool, now: real, code: DenyCode)
    ensures Has(RunOf(c, req, w, room, now), (x: Event) => x == Deny(code))
       <==> EndingOf(c, ApproachOf(c, req, w), room, w) == Denied(code)
  {
    var a := ApproachOf(c, req, w);
    hide ApproachOf, GateAnswer;
    var tail := Finish(c, a, room, w, now);
    HasBehindProbes(a.probes, tail, (x: Event) => x == Deny(code));
    if EndingOf(c, a, room, w) == Denied(code) {
      assert tail[0] == Deny(code);
    }
  }
}
