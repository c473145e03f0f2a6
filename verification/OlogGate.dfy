/**
  The Olog write gate and the write behind it, as methods that append to one trace of events. The
  outcomes of reads, of sizing, of the file read and of the send are given from outside. The tokens
  of the trace are always the admissions of the limiter.
 */
module OlogGate {
  import opened Prelude
  import opened SlidingWindow

  /** `urlPermitted` stands for the URL boundary, a fixed function of the configuration. */
  datatype Config = Config(
    urlSet: bool,
    allowWrite: bool,
    urlPermitted: bool,
    logbooks: set<string>,
    attachMaxBytes: int)

  datatype DenyCode = WriteDenied | AttachTooLarge | RateLimitExceeded

  datatype Source = EntrySource | LevelsSource | LogbooksSource | TagsSource | FileSizes

  datatype Event =
    | Probe(source: Source)                        // a read, or a stat of attachment sizes
    | Token(moment: real)                          // a rate token taken
    | FilesRead                                    // attachment bytes materialised
    | Send                                         // the mutating request leaves
    | Deny(code: DenyCode)                         // audit line event=DENY
    | Allow(logbooks: set<string>)                 // audit line event=ALLOW
    | Failed(logbooks: set<string>, entry: Option<string>)  // audit line event=FAILED

  /** How a run ends; everything but Disabled and Done raises. */
  datatype Ending =
    | Disabled               // no Olog URL configured
    | Refused                // refused or failed outside the gate, before any token
    | Denied(code: DenyCode) // refused by the gate
    | Stranded               // the file read failed after the token was taken
    | Unsent                 // the client refused its own request
    | Lost                   // the request left and failed
    | Done

  datatype SendOutcome = RefusesLocally | FailsOnTheWire | Succeeds

  predicate EnvAndUrl(c: Config) {
    c.allowWrite && c.urlPermitted
  }

  predicate Preconditions(c: Config, logbooks: set<string>) {
    logbooks != {} && EnvAndUrl(c) && logbooks <= c.logbooks
  }

  predicate RoomFor(h: seq<real>, now: real, limit: int) {
    CountIn(h, now - WINDOW_SECONDS, now) < limit
  }

  // ---------------------------------------------------------------------------------------
  // The requests and their world
  // ---------------------------------------------------------------------------------------

  /** What the outside does during a run. A failed read or an unreadable answer is None. */
  datatype World = World(
    raw: Option<Option<Entry>>,          // the target entry; Some(None) is "no such entry"
    levels: Option<seq<string>>,
    knownLogbooks: Option<set<string>>,
    knownTags: Option<set<string>>,
    plan: Option<Plan>,                  // None: a bad path or bad base64
    filesReadable: bool,
    send: SendOutcome)

  /** `unsafe`: its attachments would not survive the round trip. */
  datatype Entry = Entry(logbooks: set<string>, unsafe: bool)

  datatype Plan = Plan(specs: nat, totalBytes: nat)

  /** A level is acceptable if absent, or not blank and listed by the server. */
  predicate LevelOk(level: Option<string>, levels: Option<seq<string>>) {
    level.Some? ==> Strip(level.value) != "" && levels.Some? && level.value in levels.value
  }

  predicate AsksLevels(level: Option<string>) {
    level.Some? && Strip(level.value) != ""
  }

  // ---------------------------------------------------------------------------------------
  // What a run leaves in the trace
  // ---------------------------------------------------------------------------------------

  /** A write that has come as far as the full gate. */
  datatype Write = Write(gated: set<string>, entry: Option<string>, bytes: nat, reading: bool)

  datatype Verdict = Stops(e: Ending) | Proceeds(write: Write)

  /** Everything before the full gate: the reads and stats made, in order, and what came of it. */
  datatype Approach = Approach(probes: seq<Source>, verdict: Verdict)

  /** The gate's answer, given whether the window has room. */
  function GateAnswer(c: Config, wr: Write, room: bool): Option<DenyCode> {
    if !Preconditions(c, wr.gated) then Some(WriteDenied)
    else if wr.bytes > c.attachMaxBytes then Some(AttachTooLarge)
    else if !room then Some(RateLimitExceeded)
    else None
  }

  /** Past the gate the world decides. */
  function WriteEnding(reading: bool, w: World): Ending {
    if reading && !w.filesReadable then Stranded
    else match w.send case RefusesLocally => Unsent case FailsOnTheWire => Lost case Succeeds => Done
  }

  function EndingOf(c: Config, a: Approach, room: bool, w: World): Ending {
    match a.verdict
    case Stops(e) => e
    case Proceeds(wr) =>
      match GateAnswer(c, wr, room)
      case Some(code) => Denied(code)
      case None => WriteEnding(wr.reading, w)
  }

  predicate TookToken(e: Ending) {
    e == Stranded || e == Unsent || e == Lost || e == Done
  }

  function Probes(sources: seq<Source>): seq<Event> {
    seq(|sources|, i requires 0 <= i < |sources| => Probe(sources[i]))
  }

  /** The events behind the token, ending by ending. */
  function Aftermath(e: Ending, reading: bool, gated: set<string>, entry: Option<string>): seq<Event> {
    (if reading then [FilesRead] else []) + (
      match e
      case Unsent => [Failed(gated, entry)]
      case Lost => [Send, Failed(gated, entry)]
      case Done => [Send, Allow(gated)]
      case _ => [])
  }

  function StopLine(e: Ending): seq<Event> {
    if e.Denied? then [Deny(e.code)] else []
  }

  function WriteEvents(c: Config, wr: Write, room: bool, w: World, now: real): seq<Event> {
    match GateAnswer(c, wr, room)
    case Some(code) => [Deny(code)]
    case None => [Token(now)] + Aftermath(WriteEnding(wr.reading, w), wr.reading, wr.gated, wr.entry)
  }

  /** What follows the probes. */
  function Finish(c: Config, a: Approach, room: bool, w: World, now: real): seq<Event> {
    match a.verdict
    case Stops(e) => StopLine(e)
    case Proceeds(wr) => WriteEvents(c, wr, room, w, now)
  }

  /** All events of one run whose gate is asked at `now`. */
  function EventsOf(c: Config, a: Approach, room: bool, w: World, now: real): seq<Event> {
    Probes(a.probes) + Finish(c, a, room, w, now)
  }

  /** The moments of the tokens in a trace, in order. */
  function TokenMoments(t: seq<Event>): seq<real> {
    if t == [] then []
    else TokenMoments(t[..|t| - 1]) + if t[|t| - 1].Token? then [t[|t| - 1].moment] else []
  }

  lemma TokenSnoc(t: seq<Event>, x: Event)
    ensures TokenMoments(t + [x]) == TokenMoments(t) + if x.Token? then [x.moment] else []
    ensures !x.Token? ==> TokenMoments(t + [x]) == TokenMoments(t)
  {
    assert (t + [x])[..|t|] == t;
  }

  class OlogWriteGate {
    const config: Config
    const window: RateWindow
    var trace: seq<Event>

    ghost predicate Valid()
      reads this, window
    {
      window.Valid() && TokenMoments(trace) == window.admitted
    }

    constructor (config: Config, limit: int, ghost start: real)
      requires limit >= 0
      ensures Valid() && this.config == config && window.limit == limit && window.admitted == []
      ensures trace == [] && fresh(window) && window.clock == start
    {
      this.config := config;
      window := new RateWindow(limit, start);
      trace := [];
    }

    /** One event other than a token. */
    method Note(x: Event)
      requires Valid() && !x.Token?
      modifies this`trace
      ensures Valid() && trace == old(trace) + [x]
    {
      TokenSnoc(trace, x);
      trace := trace + [x];
    }

    method CheckWriteEnvAndUrl() returns (denied: Option<DenyCode>)
      requires Valid()
      modifies this`trace
      ensures Valid()
      ensures denied == if EnvAndUrl(config) then None else Some(WriteDenied)
      ensures denied.None? <==> config.allowWrite && config.urlPermitted
      ensures trace == if denied.Some? then old(trace) + [Deny(denied.value)] else old(trace)
    {
      if !config.allowWrite {
        Note(Deny(WriteDenied));
        return Some(WriteDenied);
      }
      if !config.urlPermitted {
        Note(Deny(WriteDenied));
        return Some(WriteDenied);
      }
      return None;
    }

    method CheckWritePreconditions(logbooks: set<string>) returns (denied: Option<DenyCode>)
      requires Valid()
      modifies this`trace
      ensures Valid()
      ensures denied.None? <==> (
                logbooks != {} && config.allowWrite && config.urlPermitted && logbooks <= config.logbooks)
      ensures denied == if Preconditions(config, logbooks) then None else Some(WriteDenied)
      ensures trace == if denied.Some? then old(trace) + [Deny(denied.value)] else old(trace)
    {
      if logbooks == {} {
        Note(Deny(WriteDenied));
        return Some(WriteDenied);
      }
      denied := CheckWriteEnvAndUrl();
      if denied.Some? {
        return;
      }
      if !(logbooks <= config.logbooks) {
        Note(Deny(WriteDenied));
        return Some(WriteDenied);
      }
    }

    /** The full gate. It passes exactly when the preconditions hold, the size fits and the
        window has room; only then is one token taken. A denial writes one line and no token. */
    method CheckWriteAllowed(logbooks: set<string>, attachmentBytes: nat, now: real) returns (denied: Option<DenyCode>)
      requires Valid() && now >= window.clock
      modifies this`trace, window
      ensures Valid()
      ensures denied.None? <==> (
                && Preconditions(config, logbooks) && attachmentBytes <= config.attachMaxBytes
                && RoomFor(old(window.admitted), now, window.limit))
      ensures denied == Some(AttachTooLarge) <==> (
                Preconditions(config, logbooks) && attachmentBytes > config.attachMaxBytes)
      ensures denied == Some(WriteDenied) <==> !Preconditions(config, logbooks)
      ensures denied == Some(RateLimitExceeded) <==> (
                && Preconditions(config, logbooks) && attachmentBytes <= config.attachMaxBytes
                && !RoomFor(old(window.admitted), now, window.limit))
      ensures window.admitted == if denied.None? then old(window.admitted) + [now] else old(window.admitted)
      ensures trace == old(trace) + [if denied.None? then Token(now) else Deny(denied.value)]
    {
      denied := CheckWritePreconditions(logbooks);
      if denied.Some? {
        return;
      }
      if attachmentBytes > config.attachMaxBytes {
        Note(Deny(AttachTooLarge));
        return Some(AttachTooLarge);
      }
      var overLimit := window.Take(now);
      if overLimit {
        Note(Deny(RateLimitExceeded));
        return Some(RateLimitExceeded);
      }
      TokenSnoc(trace, Token(now));
      trace := trace + [Token(now)];
    }

    /** The level is checked against the server's list; a blank one is refused without a read. */
    method RejectUnknownLevel(level: Option<string>, w: World) returns (ok: bool)
      requires Valid()
      modifies this`trace
      ensures Valid()
      ensures ok == LevelOk(level, w.levels)
      ensures trace == if AsksLevels(level) then old(trace) + [Probe(LevelsSource)] else old(trace)
    {
      if level.None? {
        return true;
      }
      if Strip(level.value) == "" {
        return false;
      }
      Note(Probe(LevelsSource));
      if w.levels.None? {
        return false;
      }
      ok := level.value in w.levels.value;
    }

    /** Everything after the token: read the files if there are any, send, audit the result. */
    method ReadAndSend(gated: set<string>, entry: Option<string>, reading: bool, w: World) returns (e: Ending)
      requires Valid()
      modifies this`trace
      ensures Valid()
      ensures e == WriteEnding(reading, w)
      ensures trace == old(trace) + Aftermath(e, reading, gated, entry)
      ensures e == Done <==> (reading ==> w.filesReadable) && w.send.Succeeds?
      ensures e == Done ==> trace[|trace| - 2..] == [Send, Allow(gated)]
      ensures e == Lost ==> trace[|trace| - 2..] == [Send, Failed(gated, entry)]
      ensures e == Unsent ==> trace[|trace| - 1] == Failed(gated, entry)
    {
      hide TokenMoments, Tracks;
      if reading {
        Note(FilesRead);
        if !w.filesReadable {
          return Stranded;
        }
      }
      match w.send
      case RefusesLocally =>
        Note(Failed(gated, entry));
        return Unsent;
      case FailsOnTheWire =>
        Note(Send);
        Note(Failed(gated, entry));
        return Lost;
      case Succeeds =>
        Note(Send);
        Note(Allow(gated));
        return Done;
    }

    /** The common end of all three operations: the full gate, and on success the write itself. */
    method AdmitAndSend(wr: Write, w: World, now: real) returns (e: Ending)
      requires Valid() && now >= window.clock
      modifies this`trace, window
      ensures Valid()
      ensures var room := RoomFor(old(window.admitted), now, window.limit);
              && e == EndingOf(config, Approach([], Proceeds(wr)), room, w)
              && trace == old(trace) + WriteEvents(config, wr, room, w, now)
      ensures window.admitted == old(window.admitted) + if TookToken(e) then [now] else []
    {
      hide Preconditions, RoomFor, Tracks, TokenMoments, Aftermath;
      var denied := CheckWriteAllowed(wr.gated, wr.bytes, now);
      if denied.Some? {
        return Denied(denied.value);
      }
      e := ReadAndSend(wr.gated, wr.entry, wr.reading, w);
    }
  }
}
