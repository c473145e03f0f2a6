/**
  The cross-plane coverage audit: a matrix of three-valued cells over displays, the channel
  registry, the archiver and the alarm system.
 */
module Coverage {
  import opened Prelude
  import opened RecordNames

  datatype Cell = Yes | No | Withheld

  /** One index row; the tuples of displays and roles are sets here. */
  datatype IndexRow = IndexRow(pv: string, displays: set<string>, roles: set<string>)

  datatype Answer = Confirmed | Absent | QueryFails

  /** A plane's checker, or None when the plane is disabled. */
  type Checker = Option<string -> Answer>

  datatype Registry = NotWired | Capped | Failed | Names(names: set<string>)

  datatype Query = Query(
    rows: seq<IndexRow>,
    scope: string,
    registry: Registry,
    archived: Checker,
    alarmed: Checker,
    contextCapped: set<string>,
    globCapped: nat)

  datatype Row = Row(
    hasDisplay: Cell,
    registered: Cell,
    archived: Cell,
    alarmed: Cell,
    displays: set<string>,
    roles: set<string>)

  datatype Plane = Display | ChannelFinder | Archiver | Alarm

  datatype Report = Report(
    planesLive: set<Plane>,
    rows: map<string, Row>,
    cfAndDisplay: set<string>,
    cfOnly: set<string>,
    displayOnly: set<string>,
    critical: set<string>,
    blindSpots: set<string>,
    unarchived: set<string>,
    unalarmed: set<string>,
    cfRegistered: nat,
    cfCapped: bool,
    displaysIncomplete: set<string>)

  // ---------------------------------------------------------------------------------------
  // What the matrix is
  // ---------------------------------------------------------------------------------------

  function PlaneVerdict(checker: Checker, pv: string): Cell {
    if checker.None? then Withheld
    else match checker.value(pv) case Confirmed => Yes case Absent => No case QueryFails => Withheld
  }

  predicate InScope(q: Query, r: IndexRow) {
    StartsWith(RecordName(r.pv), q.scope)
  }

  /** The records shown on some indexed display, within the scope. */
  function Shown(q: Query): set<string> {
    set r | r in q.rows && InScope(q, r) :: RecordName(r.pv)
  }

  function DisplaysOf(q: Query, pv: string): set<string> {
    set r, d | r in q.rows && InScope(q, r) && RecordName(r.pv) == pv && d in r.displays :: d
  }

  function RolesOf(q: Query, pv: string): set<string> {
    set r, d | r in q.rows && InScope(q, r) && RecordName(r.pv) == pv && d in r.roles :: d
  }

  /** The records the registry delivers; empty when it gave no usable answer. */
  function Delivered(q: Query): set<string> {
    if q.registry.Names? then set n | n in q.registry.names :: RecordName(n) else {}
  }

  function Universe(q: Query): set<string> {
    Shown(q) + Delivered(q)
  }

  function HasDisplay(q: Query, pv: string): Cell {
    if pv in Shown(q) then Yes else if q.contextCapped != {} then Withheld else No
  }

  function Registered(q: Query, pv: string): Cell {
    if !q.registry.Names? then Withheld else if pv in Delivered(q) then Yes else No
  }

  function RowOf(q: Query, pv: string): Row {
    Row(HasDisplay(q, pv), Registered(q, pv), PlaneVerdict(q.archived, pv), PlaneVerdict(q.alarmed, pv),
        DisplaysOf(q, pv), RolesOf(q, pv))
  }

  function BlindSpots(q: Query): set<string> {
    set pv | pv in Delivered(q) && HasDisplay(q, pv) == No
  }

  function Unarchived(q: Query): set<string> {
    set pv | pv in Delivered(q) && PlaneVerdict(q.archived, pv) == No
  }

  function Unalarmed(q: Query): set<string> {
    set pv | pv in Delivered(q) && PlaneVerdict(q.alarmed, pv) == No
  }

  /** The planes that answer: the displays always, the others if wired. */
  function PlanesLive(q: Query): set<Plane> {
    {Display} + (if q.registry.Names? then {ChannelFinder} else {})
    + (if q.archived.Some? then {Archiver} else {}) + (if q.alarmed.Some? then {Alarm} else {})
  }

  function ReportOf(q: Query): Report {
    Report(PlanesLive(q),
           RowsOf(q, Universe(q)),
           if q.registry.Names? then Delivered(q) * Shown(q) else {},
           if q.registry.Names? then Delivered(q) - Shown(q) else {},
           if q.registry.Names? then Shown(q) - Delivered(q) else {},
           BlindSpots(q) + Unarchived(q) + Unalarmed(q),
           BlindSpots(q), Unarchived(q), Unalarmed(q),
           if q.registry.Names? then |q.registry.names| else 0, q.registry.Capped?, q.contextCapped)
  }

  // ---------------------------------------------------------------------------------------
  // How the code computes it
  // ---------------------------------------------------------------------------------------

  /** The rows merged by record name: what the first loop has built after `n` rows. */
  ghost predicate Merged(q: Query, n: nat, rows: map<string, IndexRow>)
    requires n <= |q.rows|
  {
    var front := q.(rows := q.rows[..n]);
    && rows.Keys == Shown(front)
    && forall pv :: pv in rows ==> rows[pv] == IndexRow(pv, DisplaysOf(front, pv), RolesOf(front, pv))
  }

  lemma MergeOne(q: Query, n: nat)
    requires n < |q.rows|
    ensures var front, next := q.(rows := q.rows[..n]), q.(rows := q.rows[..n + 1]);
            var r := q.rows[n];
            if !InScope(q, r) then
              Shown(next) == Shown(front)
              && forall pv :: DisplaysOf(next, pv) == DisplaysOf(front, pv) && RolesOf(next, pv) == RolesOf(front, pv)
            else
              && Shown(next) == Shown(front) + {RecordName(r.pv)}
              && (forall pv ::
                    DisplaysOf(next, pv) == DisplaysOf(front, pv) + if pv == RecordName(r.pv) then r.displays else {})
              && (forall pv :: RolesOf(next, pv) == RolesOf(front, pv) + if pv == RecordName(r.pv) then r.roles else {})
  {
    hide RecordName;
    var front, next := q.(rows := q.rows[..n]), q.(rows := q.rows[..n + 1]);
    var r := q.rows[n];
    assert next.rows == front.rows + [r];
    assert forall x :: x in next.rows <==> x in front.rows || x == r;
    assert forall x :: InScope(next, x) == InScope(front, x) == InScope(q, x);
  }

  method MergeRows(q: Query) returns (rows: map<string, IndexRow>)
    ensures rows.Keys == Shown(q)
    ensures forall pv :: pv in rows ==> rows[pv] == IndexRow(pv, DisplaysOf(q, pv), RolesOf(q, pv))
  {
    hide Shown, DisplaysOf, RolesOf, RecordName;
    rows := map[];
    EmptyMerge(q);
    for n := 0 to |q.rows|
      invariant Merged(q, n, rows)
      invariant forall pv :: pv !in Shown(q.(rows := q.rows[..n])) ==>
        DisplaysOf(q.(rows := q.rows[..n]), pv) == {} && RolesOf(q.(rows := q.rows[..n]), pv) == {}
    {
      var row := q.rows[n];
      var rec := RecordName(row.pv);
      MergeOne(q, n);
      if !StartsWith(rec, q.scope) {
        continue;
      }
      if rec in rows {
        var prev := rows[rec];
        rows := rows[rec := IndexRow(rec, prev.displays + row.displays, prev.roles + row.roles)];
      } else {
        rows := rows[rec := IndexRow(rec, row.displays, row.roles)];
      }
    }
    assert q.rows[..|q.rows|] == q.rows;
    assert q.(rows := q.rows[..|q.rows|]) == q;
  }

  lemma EmptyMerge(q: Query)
    ensures var front := q.(rows := q.rows[..0]);
            Shown(front) == {} && forall pv :: DisplaysOf(front, pv) == {} && RolesOf(front, pv) == {}
  {
  }

  /** The verdicts for one PV of the universe. */
  method AuditOne(q: Query, pv: string, displayRows: map<string, IndexRow>, cfSet: set<string>, cfWithheld: bool)
      returns (row: Row)
    requires displayRows.Keys == Shown(q) && cfSet == Delivered(q) && (cfWithheld <==> !q.registry.Names?)
    requires forall p :: p in displayRows ==> displayRows[p] == IndexRow(p, DisplaysOf(q, p), RolesOf(q, p))
    ensures row == RowOf(q, pv)
  {
    hide Shown, Delivered, DisplaysOf, RolesOf, PlaneVerdict;
    var hasDisplay := if pv in displayRows.Keys then Yes else if q.contextCapped != {} then Withheld else No;
    var registered := if cfWithheld then Withheld else if pv in cfSet then Yes else No;
    var archived := PlaneVerdict(q.archived, pv);
    var alarmed := PlaneVerdict(q.alarmed, pv);
    OnlyShownHaveDisplays(q, pv);
    var displays := if pv in displayRows then displayRows[pv].displays else {};
    var roles := if pv in displayRows then displayRows[pv].roles else {};
    row := Row(hasDisplay, registered, archived, alarmed, displays, roles);
  }

  lemma InFindings(q: Query, pv: string)
    ensures var row := RowOf(q, pv);
            && (pv in BlindSpots(q) <==> row.registered == Yes && row.hasDisplay == No)
            && (pv in Unarchived(q) <==> row.registered == Yes && row.archived == No)
            && (pv in Unalarmed(q) <==> row.registered == Yes && row.alarmed == No)
  {
    hide Shown, PlaneVerdict;
  }

  datatype Findings = Findings(
    critical: set<string>,
    blindSpots: set<string>,
    unarchived: set<string>,
    unalarmed: set<string>)

  /** The findings among the PVs audited so far. */
  ghost predicate FoundIn(q: Query, done: set<string>, f: Findings) {
    && f.blindSpots == BlindSpots(q) * done
    && f.unarchived == Unarchived(q) * done
    && f.unalarmed == Unalarmed(q) * done
    && f.critical == f.blindSpots + f.unarchived + f.unalarmed
  }

  /** The triage of one delivered PV; a withheld gap is not a gap. */
  method Triage(ghost q: Query, ghost done: set<string>, pv: string, row: Row, f: Findings) returns (f': Findings)
    requires row == RowOf(q, pv) && FoundIn(q, done, f)
    ensures FoundIn(q, done + {pv}, f')
  {
    hide RowOf, BlindSpots, Unarchived, Unalarmed;
    InFindings(q, pv);
    var critical, blindSpots, unarchived, unalarmed := f.critical, f.blindSpots, f.unarchived, f.unalarmed;
    if row.registered == Yes {
      if row.hasDisplay == No {
        blindSpots := blindSpots + {pv};
      }
      if row.archived == No {
        unarchived := unarchived + {pv};
      }
      if row.alarmed == No {
        unalarmed := unalarmed + {pv};
      }
      if row.hasDisplay == No || row.archived == No || row.alarmed == No {
        critical := critical + {pv};
      }
    }
    f' := Findings(critical, blindSpots, unarchived, unalarmed);
  }

  /** The audit. The universe is walked in some order; the report does not depend on it. */
  method AuditCoverage(q: Query) returns (report: Report)
    ensures report == ReportOf(q)
  {
    hide Shown, RowOf, BlindSpots, Unarchived, Unalarmed, DisplaysOf, RolesOf;
    var displayRows := MergeRows(q);
    var displaySet := displayRows.Keys;
    var cfSet: set<string> := {};
    var cfRegistered, cfCapped, cfWithheld := 0, false, true;
    match q.registry {
      case Names(names) =>
        cfSet := set n | n in names :: RecordName(n);
        cfRegistered := |names|;
        cfWithheld := false;
      case Capped =>
        cfCapped := true;
      case _ =>
    }
    assert cfSet == Delivered(q);
    var universe := if !cfWithheld then cfSet + displaySet else displaySet;
    assert universe == Universe(q);
    var rows, f := WalkUniverse(q, universe, displayRows, cfSet, cfWithheld);
    FindingsDelivered(q);
    var planesLive := {Display};
    if !cfWithheld {
      planesLive := planesLive + {ChannelFinder};
    }
    if q.archived.Some? {
      planesLive := planesLive + {Archiver};
    }
    if q.alarmed.Some? {
      planesLive := planesLive + {Alarm};
    }
    assert planesLive == PlanesLive(q);
    report := Report(planesLive, rows,
      if !cfWithheld then cfSet * displaySet else {},
      if !cfWithheld then cfSet - displaySet else {},
      if !cfWithheld then displaySet - cfSet else {},
      f.critical, f.blindSpots, f.unarchived, f.unalarmed,
      cfRegistered, cfCapped, q.contextCapped);
  }

  /** The matrix rows of the PVs audited so far. */
  function RowsOf(q: Query, done: set<string>): map<string, Row> {
    map pv | pv in done :: RowOf(q, pv)
  }

  method WalkUniverse(q: Query, universe: set<string>, displayRows: map<string, IndexRow>, cfSet: set<string>,
                      cfWithheld: bool)
      returns (rows: map<string, Row>, f: Findings)
    requires displayRows.Keys == Shown(q) && cfSet == Delivered(q) && (cfWithheld <==> !q.registry.Names?)
    requires forall p :: p in displayRows ==> displayRows[p] == IndexRow(p, DisplaysOf(q, p), RolesOf(q, p))
    ensures rows == RowsOf(q, universe)
    ensures FoundIn(q, universe, f)
  {
    hide Shown, Delivered, RowOf, DisplaysOf, RolesOf, FoundIn, RowsOf;
    rows, f := map[], Findings({}, {}, {}, {});
    NothingFound(q);
    var todo := universe;
    ghost var done: set<string> := {};
    while todo != {}
      invariant universe == todo + done
      invariant rows == RowsOf(q, done)
      invariant FoundIn(q, done, f)
      decreases |todo|
    {
      var pv :| pv in todo;
      todo := todo - {pv};
      var row := AuditOne(q, pv, displayRows, cfSet, cfWithheld);
      f := Triage(q, done, pv, row, f);
      RowsMore(q, done, pv);
      rows := rows[pv := row];
      done := done + {pv};
    }
    assert done == universe;
  }

  lemma RowsMore(q: Query, done: set<string>, pv: string)
    ensures RowsOf(q, done)[pv := RowOf(q, pv)] == RowsOf(q, done + {pv})
  {
    hide RowOf;
  }

  lemma NothingFound(q: Query)
    ensures FoundIn(q, {}, Findings({}, {}, {}, {})) && RowsOf(q, {}) == map[]
  {
  }

  lemma FindingsDelivered(q: Query)
    ensures BlindSpots(q) * Universe(q) == BlindSpots(q)
    ensures Unarchived(q) * Universe(q) == Unarchived(q)
    ensures Unalarmed(q) * Universe(q) == Unalarmed(q)
  {
  }

  lemma OnlyShownHaveDisplays(q: Query, pv: string)
    ensures pv !in Shown(q) ==> DisplaysOf(q, pv) == {} && RolesOf(q, pv) == {}
  {
  }

  // ---------------------------------------------------------------------------------------
  // Order and losses
  // ---------------------------------------------------------------------------------------

  /** Reordering or repeating index rows changes nothing in the report. */
  lemma OrderIsIrrelevant(q: Query, rows: seq<IndexRow>)
    requires forall r :: r in rows <==> r in q.rows
    ensures ReportOf(q.(rows := rows)) == ReportOf(q)
  {
    var q' := q.(rows := rows);
    SameRowsShown(q, q');
    hide Shown, DisplaysOf, RolesOf, RecordName, PlaneVerdict;
    assert Delivered(q') == Delivered(q) && Universe(q') == Universe(q) && PlanesLive(q') == PlanesLive(q);
    forall pv
      ensures RowOf(q', pv) == RowOf(q, pv)
    {
    }
    hide RowOf;
    assert RowsOf(q', Universe(q')) == RowsOf(q, Universe(q));
    assert BlindSpots(q') == BlindSpots(q) && Unarchived(q') == Unarchived(q) && Unalarmed(q') == Unalarmed(q);
  }

  lemma SameRowsShown(q: Query, q': Query)
    requires q'.scope == q.scope && forall r :: r in q'.rows <==> r in q.rows
    ensures Shown(q') == Shown(q)
    ensures forall pv :: DisplaysOf(q', pv) == DisplaysOf(q, pv) && RolesOf(q', pv) == RolesOf(q, pv)
  {
    hide RecordName;
    assert forall r :: InScope(q', r) == InScope(q, r);
  }

  /** The second checker knows nothing the first does not: disabled, or failing more often. */
  ghost predicate CheckerLoses(c: Checker, c': Checker) {
    c'.None? || (c.Some? && forall pv :: c'.value(pv) == c.value(pv) || c'.value(pv) == QueryFails)
  }

  /** Index rows with some rows missing, or with displays or roles missing from them. */
  ghost predicate RowsLost(rows: seq<IndexRow>, rows': seq<IndexRow>) {
    forall r' :: r' in rows' ==>
      exists r :: r in rows && r.pv == r'.pv && r'.displays <= r.displays && r'.roles <= r.roles
  }

  /** The second run saw less: weaker checkers, a lost registry, more capped displays and, if any
      is capped, fewer index rows. */
  ghost predicate Loses(q: Query, q': Query) {
    && (q'.rows == q.rows || (q'.contextCapped != {} && RowsLost(q.rows, q'.rows))) && q'.scope == q.scope
    && (q'.registry == q.registry || !q'.registry.Names?)
    && CheckerLoses(q.archived, q'.archived) && CheckerLoses(q.alarmed, q'.alarmed)
    && q.contextCapped <= q'.contextCapped
  }

  predicate SameOrWithheld(c: Cell, c': Cell) {
    c' == c || c' == Withheld
  }

  lemma ShownLost(q: Query, q': Query)
    requires Loses(q, q')
    ensures Shown(q') <= Shown(q) && (q'.contextCapped == {} ==> Shown(q') == Shown(q))
    ensures forall pv :: DisplaysOf(q', pv) <= DisplaysOf(q, pv) && RolesOf(q', pv) <= RolesOf(q, pv)
  {
    hide RecordName;
    assert forall r :: InScope(q', r) == InScope(q, r);
    if q'.rows != q.rows {
      forall r' | r' in q'.rows
        ensures exists r :: r in q.rows && r.pv == r'.pv && r'.displays <= r.displays && r'.roles <= r.roles
      {
      }
    }
  }

  /** Losing information only withholds: no cell flips and no finding appears. Of the set
      differences, the registered records on no display can only grow by records whose rows were
      lost. */
  lemma LosingOnlyWithholds(q: Query, q': Query)
    requires Loses(q, q')
    ensures var r, r' := ReportOf(q), ReportOf(q');
            && r'.rows.Keys <= r.rows.Keys
            && (forall pv :: pv in r'.rows ==>
                  && SameOrWithheld(r.rows[pv].hasDisplay, r'.rows[pv].hasDisplay)
                  && SameOrWithheld(r.rows[pv].registered, r'.rows[pv].registered)
                  && SameOrWithheld(r.rows[pv].archived, r'.rows[pv].archived)
                  && SameOrWithheld(r.rows[pv].alarmed, r'.rows[pv].alarmed)
                  && r'.rows[pv].displays <= r.rows[pv].displays)
            && r'.blindSpots <= r.blindSpots && r'.unarchived <= r.unarchived && r'.unalarmed <= r.unalarmed
            && r'.critical <= r.critical
            && r'.displayOnly <= r.displayOnly && r'.cfAndDisplay <= r.cfAndDisplay
            && r'.cfOnly <= r.cfOnly + (Shown(q) - Shown(q'))
  {
    hide RecordName, Shown, DisplaysOf, RolesOf;
    ShownLost(q, q');
    assert Delivered(q') <= Delivered(q);
    forall pv
      ensures SameOrWithheld(HasDisplay(q, pv), HasDisplay(q', pv))
      ensures SameOrWithheld(PlaneVerdict(q.archived, pv), PlaneVerdict(q'.archived, pv))
      ensures SameOrWithheld(PlaneVerdict(q.alarmed, pv), PlaneVerdict(q'.alarmed, pv))
    {
    }
  }

  /** Under a cap the registered records on no display are an upper bound, not a lower one: seeing
      more of the displays only shortens the list. */
  lemma CfOnlyShrinksWithSight(q: Query, q': Query)
    requires Loses(q, q') && q'.registry == q.registry
    ensures ReportOf(q).cfOnly <= ReportOf(q').cfOnly
  {
    hide RecordName, Shown, DisplaysOf, RolesOf;
    ShownLost(q, q');
  }

  // ---------------------------------------------------------------------------------------
  // The report in plain terms
  // ---------------------------------------------------------------------------------------

  /** Some index row in the scope is of this record. */
  predicate HasRow(q: Query, pv: string) {
    |q.scope| <= |pv| && pv[..|q.scope|] == q.scope && exists r :: r in q.rows && RecordName(r.pv) == pv
  }

  /** The registry answered, and some name in the answer is of this record. */
  predicate IsDelivered(q: Query, pv: string) {
    q.registry.Names? && exists n :: n in q.registry.names && RecordName(n) == pv
  }

  predicate Answers(c: Checker, pv: string, a: Answer) {
    c.Some? && c.value(pv) == a
  }

  /** Every cell, from the rows, the registry and the checkers' answers alone. */
  lemma CellsMean(q: Query, pv: string)
    ensures var row := RowOf(q, pv);
            && (row.hasDisplay == Yes <==> HasRow(q, pv))
            && (row.hasDisplay == No <==> !HasRow(q, pv) && q.contextCapped == {})
            && (row.registered == Yes <==> IsDelivered(q, pv))
            && (row.registered == No <==> q.registry.Names? && !IsDelivered(q, pv))
            && (row.archived == Yes <==> Answers(q.archived, pv, Confirmed))
            && (row.archived == No <==> Answers(q.archived, pv, Absent))
            && (row.alarmed == Yes <==> Answers(q.alarmed, pv, Confirmed))
            && (row.alarmed == No <==> Answers(q.alarmed, pv, Absent))
  {
    InTheSets(q, pv);
    hide Shown, Delivered, HasRow, RecordName;
  }

  lemma InTheSets(q: Query, pv: string)
    ensures pv in Shown(q) <==> HasRow(q, pv)
    ensures pv in Delivered(q) <==> IsDelivered(q, pv)
  {
    hide RecordName;
  }

  /** The displays and roles of a row are those of all its index rows. */
  lemma DetailsMean(q: Query, pv: string, d: string)
    ensures d in RowOf(q, pv).displays
       <==> HasRow(q, pv) && exists r :: r in q.rows && RecordName(r.pv) == pv && d in r.displays
    ensures d in RowOf(q, pv).roles
       <==> HasRow(q, pv) && exists r :: r in q.rows && RecordName(r.pv) == pv && d in r.roles
  {
    hide RecordName, Shown, Delivered, PlaneVerdict;
    assert forall r :: r in q.rows && RecordName(r.pv) == pv ==>
             (InScope(q, r) <==> |q.scope| <= |pv| && pv[..|q.scope|] == q.scope);
  }

  /** Every list, from the rows, the registry and the checkers' answers alone: a delivered PV with a
      wired checker that says absent is a finding, and nothing less is. */
  lemma FindingsMean(q: Query, pv: string)
    ensures var rep := ReportOf(q);
            var blind := !HasRow(q, pv) && q.contextCapped == {};
            var unarchived, unalarmed := Answers(q.archived, pv, Absent), Answers(q.alarmed, pv, Absent);
            && (pv in rep.blindSpots <==> IsDelivered(q, pv) && blind)
            && (pv in rep.unarchived <==> IsDelivered(q, pv) && unarchived)
            && (pv in rep.unalarmed <==> IsDelivered(q, pv) && unalarmed)
            && (pv in rep.critical <==> IsDelivered(q, pv) && (blind || unarchived || unalarmed))
            && (pv in rep.rows <==> IsDelivered(q, pv) || HasRow(q, pv))
            && (pv in rep.cfAndDisplay <==> IsDelivered(q, pv) && HasRow(q, pv))
            && (pv in rep.cfOnly <==> IsDelivered(q, pv) && !HasRow(q, pv))
            && (pv in rep.displayOnly <==> q.registry.Names? && !IsDelivered(q, pv) && HasRow(q, pv))
  {
    InTheSets(q, pv);
    CellsMean(q, pv);
    hide Shown, HasRow, IsDelivered, Answers, PlaneVerdict, RecordName;
  }

  /** The counters and flags, from what was asked and answered. */
  lemma FlagsMean(q: Query, p: Plane)
    ensures var rep := ReportOf(q);
            && (p in rep.planesLive <==> match p
                                         case Display => true
                                         case ChannelFinder => q.registry.Names?
                                         case Archiver => q.archived.Some?
                                         case Alarm => q.alarmed.Some?)
            && rep.cfRegistered == (match q.registry case Names(names) => |names| case _ => 0)
            && (rep.cfCapped <==> q.registry == Capped)
            && rep.displaysIncomplete == q.contextCapped
  {
  }
}
