/**
  The coverage matrix against a ground truth: oracles that answer truthfully or fail, a registry
  that truncates, an inventory that may be capped.
 */
module CoverageTruth {
  import opened Prelude
  import opened RecordNames
  import opened Coverage
  import opened Globs

  datatype World = World(
    channels: set<string>,     // names in the registry
    shown: set<string>,        // records some operator display shows by a resolved reference
    archived: set<string>,
    alarmed: set<string>)

  // ---------------------------------------------------------------------------------------
  // The registry adapter
  // ---------------------------------------------------------------------------------------

  /** The channels the registry finds for a prefix: the adapter asks for the glob `prefix*`, and
      wildcards in the prefix itself are neither escaped nor refused. */
  function Matching(w: World, prefix: string): set<string> {
    set n | n in w.channels && AskedFor(prefix, n)
  }

  /** The edge adapter: a reply as long as the cap counts as truncated. */
  function RegisteredUnder(reply: Option<seq<string>>, maxResults: nat): Registry {
    if reply.None? then Failed
    else if |reply.value| >= maxResults then Capped
    else Names(set n | n in reply.value)
  }

  predicate Distinct(s: seq<string>) {
    forall i, j :: 0 <= i < j < |s| ==> s[i] != s[j]
  }

  /** A registry that answers with min(N, size) of the matching channels, or not at all. */
  predicate HonestReply(reply: Option<seq<string>>, w: World, prefix: string, maxResults: nat) {
    reply.Some? ==>
      && Distinct(reply.value) && (forall n :: n in reply.value ==> n in Matching(w, prefix))
      && |reply.value| == if |Matching(w, prefix)| <= maxResults then |Matching(w, prefix)| else maxResults
  }

  lemma {:induction false} DistinctCount(s: seq<string>)
    requires Distinct(s)
    ensures |set n | n in s| == |s|
  {
    if s != [] {
      var front := s[..|s| - 1];
      DistinctCount(front);
      assert (set n | n in s) == (set n | n in front) + {s[|s| - 1]};
    }
  }

  lemma SubsetOfSameSize(a: set<string>, b: set<string>)
    requires a <= b && |a| == |b|
    ensures a == b
  {
    if x :| x in b && x !in a {
      assert a <= b - {x};
      SubsetSize(a, b - {x});
    }
  }

  lemma {:induction false} SubsetSize(a: set<string>, b: set<string>)
    requires a <= b
    ensures |a| <= |b|
  {
    if x :| x in a {
      SubsetSize(a - {x}, b - {x});
    }
  }

  /** A set of names the adapter hands on is the complete registry answer, never a part of it. */
  lemma AdapterIsComplete(reply: Option<seq<string>>, w: World, prefix: string, maxResults: nat)
    requires HonestReply(reply, w, prefix, maxResults)
    requires RegisteredUnder(reply, maxResults).Names?
    ensures RegisteredUnder(reply, maxResults).names == Matching(w, prefix)
  {
    DistinctCount(reply.value);
    SubsetOfSameSize((set n | n in reply.value), Matching(w, prefix));
  }

  /** And it is handed on exactly if the registry answered with fewer names than the cap. */
  lemma AdapterAnswersIff(reply: Option<seq<string>>, maxResults: nat)
    ensures RegisteredUnder(reply, maxResults).Names? <==> reply.Some? && |reply.value| < maxResults
    ensures RegisteredUnder(reply, maxResults).Capped? <==> reply.Some? && |reply.value| >= maxResults
  {
  }

  // ---------------------------------------------------------------------------------------
  // Truthful inputs
  // ---------------------------------------------------------------------------------------

  ghost predicate TruthfulChecker(c: Checker, truth: set<string>) {
    c.Some? ==> forall pv :: (c.value(pv) == Confirmed ==> pv in truth) && (c.value(pv) == Absent ==> pv !in truth)
  }

  /** The inventory lists only what is shown; uncapped, it lists all of it within the scope. Shown
      means shown by a resolved reference: the index holds no others. */
  ghost predicate HonestInventory(q: Query, w: World) {
    && (forall r :: r in q.rows ==> RecordName(r.pv) in w.shown)
    && (q.contextCapped == {} && q.globCapped == 0 ==>
          forall rec :: rec in w.shown && StartsWith(rec, q.scope) ==> rec in Shown(q))
  }

  ghost predicate Truthful(q: Query, w: World) {
    && HonestInventory(q, w)
    && (q.registry.Names? ==> q.registry.names == Matching(w, q.scope))
    && (forall n :: n in w.channels ==> NewlineFree(n))
    && TruthfulChecker(q.archived, w.archived) && TruthfulChecker(q.alarmed, w.alarmed)
  }

  function Records(w: World): set<string> {
    set n | n in w.channels :: RecordName(n)
  }

  // ---------------------------------------------------------------------------------------
  // Soundness
  // ---------------------------------------------------------------------------------------

  /** A record shown in the scope but not delivered is in no registered channel at all. */
  lemma NotDeliveredIsUnregistered(q: Query, w: World, pv: string)
    requires Truthful(q, w) && q.registry.Names?
    requires pv in Shown(q) && pv !in Delivered(q)
    ensures pv !in Records(w)
  {
    forall n | n in w.channels && StartsWith(RecordName(n), q.scope)
      ensures n in Matching(w, q.scope)
    {
      RecordNameStrips(n);
      PrefixOfPrefix(n, RecordName(n), q.scope);
      PrefixIsAskedFor(q.scope, n);
    }
  }

  lemma PrefixOfPrefix(n: string, r: string, p: string)
    requires r <= n && StartsWith(r, p)
    ensures StartsWith(n, p)
  {
    assert n[..|p|] == r[..|p|];
  }

  /** Registered, archived and alarmed cells: yes is really there, no is really absent. */
  lemma RuntimeCellsAreTrue(q: Query, w: World, pv: string)
    requires Truthful(q, w) && pv in Universe(q)
    ensures var row := RowOf(q, pv);
            && (row.registered == Yes ==> pv in Records(w)) && (row.registered == No ==> pv !in Records(w))
            && (row.archived == Yes ==> pv in w.archived) && (row.archived == No ==> pv !in w.archived)
            && (row.alarmed == Yes ==> pv in w.alarmed) && (row.alarmed == No ==> pv !in w.alarmed)
            && (row.hasDisplay == Yes ==> pv in w.shown)
  {
    if q.registry.Names? && pv !in Delivered(q) {
      NotDeliveredIsUnregistered(q, w, pv);
    }
  }

  /** A delivered record without a row that no capped display excuses, though the inventory left
      files out or the record lies outside the audited scope. */
  predicate UnbackedNo(q: Query, pv: string) {
    && pv in Delivered(q) && pv !in Shown(q) && q.contextCapped == {}
    && (q.globCapped > 0 || !StartsWith(pv, q.scope))
  }

  /** The display column says "no" only of records really on no display, in every world the inputs
      allow, exactly when no "no" is unbacked. A glob cap alone withholds nothing in the code. */
  lemma DisplayNoIsTrueIff(q: Query)
    ensures (forall w, pv :: HonestInventory(q, w) && pv in Universe(q) && HasDisplay(q, pv) == No ==> pv !in w.shown)
       <==> (forall pv :: !UnbackedNo(q, pv))
  {
    if pv :| UnbackedNo(q, pv) {
      var w := World({}, {pv} + (set r | r in q.rows :: RecordName(r.pv)), {}, {});
      assert HonestInventory(q, w) by { UnbackedWorld(q, w, pv); }
      assert pv in w.shown && pv in Universe(q) && HasDisplay(q, pv) == No;
    } else {
      forall w, pv | HonestInventory(q, w) && pv in Universe(q) && HasDisplay(q, pv) == No
        ensures pv !in w.shown
      {
        assert !UnbackedNo(q, pv);
      }
    }
  }

  lemma UnbackedWorld(q: Query, w: World, pv: string)
    requires UnbackedNo(q, pv)
    requires w.shown == {pv} + (set r | r in q.rows :: RecordName(r.pv))
    ensures HonestInventory(q, w)
  {
    hide RecordName;
    forall rec | rec in w.shown && StartsWith(rec, q.scope) && q.globCapped == 0
      ensures rec in Shown(q)
    {
      var r :| r in q.rows && RecordName(r.pv) == rec;
      assert InScope(q, r);
    }
  }

  /** One registered channel whose record is on a screen and in no row of the scope. */
  lemma OneUnseen(n: string, rec: string, scope: string, rows: seq<IndexRow>, globCapped: nat)
    requires RecordName(n) == rec && AskedFor(scope, n) && NewlineFree(n)
    requires globCapped > 0 || !StartsWith(rec, scope)
    requires forall r :: r in rows ==> RecordName(r.pv) == rec && !StartsWith(rec, scope)
    ensures var q := Query(rows, scope, Names({n}), None, None, {}, globCapped);
            var w := World({n}, {rec}, {}, {});
            && Truthful(q, w) && rec in w.shown
            && ReportOf(q).blindSpots == {rec} && ReportOf(q).critical == {rec}
  {
    hide RecordName, StartsWith, NewlineFree, AskedFor;
    var q := Query(rows, scope, Names({n}), None, None, {}, globCapped);
    assert Delivered(q) == {rec} && Shown(q) == {};
    assert Matching(World({n}, {rec}, {}, {}), scope) == {n};
    hide Delivered, Shown, Matching;
    assert BlindSpots(q) == {rec} && Unarchived(q) == {} && Unalarmed(q) == {};
  }

  /** For instance: one file left out by the glob cap, no rows, and a registered record that the
      missing file shows. The report calls it a blind spot. */
  lemma GlobCapHidesAScreen()
    ensures var q := Query([], "S:", Names({"S:a"}), None, None, {}, 1);
            var w := World({"S:a"}, {"S:a"}, {}, {});
            && Truthful(q, w) && "S:a" in w.shown
            && ReportOf(q).blindSpots == {"S:a"} && ReportOf(q).critical == {"S:a"}
  {
    hide RecordName, Truthful, ReportOf;
    PlainRecord("S:a");
    assert "S:a"[..2] == "S:";
    PrefixIsAskedFor("S:", "S:a");
    OneUnseen("S:a", "S:a", "S:", [], 1);
  }

  lemma PlainRecord(r: string)
    requires '.' !in r
    ensures RecordName(r) == r
  {
    EndsInNewline(r);
    NoFieldNoStrip(r);
    if EndsWith(r, "\n") {
      NoFieldNoStrip(r[..|r| - 1]);
      assert r == r[..|r| - 1] + "\n";
    }
  }

  /** For instance: the scope `S:a.` ends where a field may start. The registry delivers `S:a`, which
      is on a screen; the screen's row is out of scope, and the report calls `S:a` a blind spot. */
  lemma ScopeInsideASuffix()
    ensures var q := Query([IndexRow("S:a", {"main"}, {})], "S:a.", Names({"S:a.B"}), None, None, {}, 0);
            var w := World({"S:a.B"}, {"S:a"}, {}, {});
            && Truthful(q, w) && "S:a" in w.shown
            && ReportOf(q).blindSpots == {"S:a"} && ReportOf(q).critical == {"S:a"}
  {
    hide RecordName, Truthful, ReportOf;
    PlainRecord("S:a");
    FieldRecord("S:a", "B");
    assert "S:a" + "." + "B" == "S:a.B";
    assert "S:a.B"[..4] == "S:a.";
    PrefixIsAskedFor("S:a.", "S:a.B");
    OneUnseen("S:a.B", "S:a", "S:a.", [IndexRow("S:a", {"main"}, {})], 0);
  }

  /** For instance: the scope `S:?` holds a wildcard. The registry delivers `S:ab`, which is on a screen;
      the screen's row does not start with the scope, and the report calls `S:ab` a blind spot. */
  lemma WildcardInScope()
    ensures var q := Query([IndexRow("S:ab", {"main"}, {})], "S:?", Names({"S:ab"}), None, None, {}, 0);
            var w := World({"S:ab"}, {"S:ab"}, {}, {});
            && Truthful(q, w) && "S:ab" in w.shown
            && ReportOf(q).blindSpots == {"S:ab"} && ReportOf(q).critical == {"S:ab"}
  {
    hide RecordName, Truthful, ReportOf, AskedFor;
    PlainRecord("S:ab");
    AskedForBySample();
    assert "S:ab"[2] != "S:?"[2];
    OneUnseen("S:ab", "S:ab", "S:?", [IndexRow("S:ab", {"main"}, {})], 0);
  }

  lemma AskedForBySample()
    ensures AskedFor("S:?", "S:ab")
  {
    hide AskedFor;
    assert "S:?"[1..] == ":?" && ":?"[1..] == "?" && "?"[1..] == "";
    assert "S:ab"[1..] == ":ab" && ":ab"[1..] == "ab" && "ab"[1..] == "b";
    AskedStep("S:?", "S:ab");
    AskedStep(":?", ":ab");
    AskedStep("?", "ab");
    AskedNothing("b");
  }

  lemma FieldRecord(r: string, field: string)
    requires IsField(field) && '.' !in r && NewlineFree(r)
    ensures RecordName(r + "." + field) == r
  {
    FieldAlikeIff(r, field);
    EndsInNewline(r);
    PlainRecord(r);
  }

  // ---------------------------------------------------------------------------------------
  // Registered records on no display
  // ---------------------------------------------------------------------------------------

  /** Nothing is left out of the list: every delivered record that is really on no display is on it,
      whatever is capped. */
  lemma CfOnlyHoldsAll(q: Query, w: World, pv: string)
    requires HonestInventory(q, w) && q.registry.Names?
    requires pv in Delivered(q) && pv !in w.shown
    ensures pv in ReportOf(q).cfOnly
  {
    hide RecordName;
  }

  /** A delivered record without a row, where rows may be missing: a capped display, a capped glob,
      or a record outside the scope. */
  predicate UnseenRow(q: Query, pv: string) {
    && pv in Delivered(q) && pv !in Shown(q)
    && (q.contextCapped != {} || q.globCapped > 0 || !StartsWith(pv, q.scope))
  }

  /** The list holds only records on no display, in every world the inputs allow, exactly when no
      delivered record lacks a row where rows may be missing. A cap withholds nothing here. */
  lemma CfOnlyIsTrueIff(q: Query)
    requires q.registry.Names?
    ensures (forall w, pv :: HonestInventory(q, w) && pv in ReportOf(q).cfOnly ==> pv !in w.shown)
       <==> (forall pv :: !UnseenRow(q, pv))
  {
    hide RecordName;
    if pv :| UnseenRow(q, pv) {
      var w := World({}, {pv} + (set r | r in q.rows :: RecordName(r.pv)), {}, {});
      assert HonestInventory(q, w) by { UnseenWorld(q, w, pv); }
      assert pv in w.shown && pv in ReportOf(q).cfOnly;
    } else {
      forall w, pv | HonestInventory(q, w) && pv in ReportOf(q).cfOnly
        ensures pv !in w.shown
      {
        assert !UnseenRow(q, pv);
      }
    }
  }

  /** For instance: a display is capped, and the registered record it shows is listed as shown
      nowhere, though its cell is withheld and it is no blind spot. */
  lemma CappedDisplayIsListed()
    ensures var q := Query([], "S:", Names({"S:a"}), None, None, {"main"}, 0);
            && HonestInventory(q, World({"S:a"}, {"S:a"}, {}, {}))
            && ReportOf(q).cfOnly == {"S:a"} && ReportOf(q).blindSpots == {} && HasDisplay(q, "S:a") == Withheld
  {
    hide RecordName, HonestInventory, ReportOf, HasDisplay;
    PlainRecord("S:a");
    OneCapped("S:a", "S:", "main");
  }

  lemma OneCapped(n: string, scope: string, display: string)
    requires RecordName(n) == n
    ensures var q := Query([], scope, Names({n}), None, None, {display}, 0);
            && HonestInventory(q, World({n}, {n}, {}, {}))
            && ReportOf(q).cfOnly == {n} && ReportOf(q).blindSpots == {} && HasDisplay(q, n) == Withheld
  {
    var q := Query([], scope, Names({n}), None, None, {display}, 0);
    OneDelivered(q, n);
    hide Delivered, Shown, RecordName, StartsWith;
    CappedHasNoBlindSpots(q);
    assert display in q.contextCapped;
  }

  lemma OneDelivered(q: Query, n: string)
    requires q.rows == [] && q.registry == Names({n}) && RecordName(n) == n
    ensures Delivered(q) == {n} && Shown(q) == {}
  {
    hide RecordName;
  }

  lemma CappedHasNoBlindSpots(q: Query)
    requires q.contextCapped != {}
    ensures BlindSpots(q) == {}
  {
    hide Delivered, Shown;
  }

  lemma UnseenWorld(q: Query, w: World, pv: string)
    requires UnseenRow(q, pv)
    requires w.shown == {pv} + (set r | r in q.rows :: RecordName(r.pv))
    ensures HonestInventory(q, w)
  {
    hide RecordName;
    forall rec | rec in w.shown && StartsWith(rec, q.scope) && q.globCapped == 0 && q.contextCapped == {}
      ensures rec in Shown(q)
    {
      var r :| r in q.rows && RecordName(r.pv) == rec;
      assert InScope(q, r);
    }
  }

  /** What `critical_uncovered` lists is really delivered and really has a gap. */
  lemma CriticalIsReal(q: Query, w: World, pv: string)
    requires Truthful(q, w) && pv in ReportOf(q).critical
    requires !UnbackedNo(q, pv)
    ensures pv in Records(w)
    ensures pv !in w.shown || pv !in w.archived || pv !in w.alarmed
  {
    assert pv in Delivered(q) && pv in Universe(q);
    RuntimeCellsAreTrue(q, w, pv);
  }

  /** A scope no field suffix can start within. */
  predicate ScopeIsWhole(scope: string) {
    StartsWith(RecordName(scope + "E"), scope)
  }

  /** Every channel the registry finds for a scope has its record under the scope, exactly if the
      scope holds no wildcard and no field suffix can start within it. */
  lemma ScopeIsWholeIff(scope: string)
    requires NewlineFree(scope)
    ensures WildcardFree(scope) && ScopeIsWhole(scope)
       <==> forall n :: NewlineFree(n) && AskedFor(scope, n) ==> StartsWith(RecordName(n), scope)
  {
    hide AskedFor, RecordName, StartsWith;
    if !WildcardFree(scope) {
      FilledIsAskedFor(scope);
      FilledLeavesScope(scope);
    } else if ScopeIsWhole(scope) {
      forall n | NewlineFree(n) && AskedFor(scope, n)
        ensures StartsWith(RecordName(n), scope)
      {
        PlainScopeIsPrefix(scope, n);
        WholeKeeps(scope, n);
      }
    } else {
      ScopeStarts(scope);
      PrefixIsAskedFor(scope, scope + "E");
      assert NewlineFree(scope + "E");
    }
  }

  lemma ScopeStarts(scope: string)
    ensures StartsWith(scope + "E", scope)
  {
  }

  lemma FilledLeavesScope(scope: string)
    requires NewlineFree(scope) && !WildcardFree(scope)
    ensures NewlineFree(Filled(scope)) && !StartsWith(RecordName(Filled(scope)), scope)
  {
    hide RecordName, StartsWith;
    var f := Filled(scope);
    RecordNameStrips(f);
    SameLengthStart(RecordName(f), f, scope);
  }

  lemma SameLengthStart(r: string, f: string, scope: string)
    requires r <= f && |f| == |scope|
    ensures StartsWith(r, scope) ==> f == scope
  {
  }

  /** Under such a scope and with nothing left out by a glob cap, no display cell is a wrong "no". */
  lemma WholeScopeIsBacked(q: Query, w: World, pv: string)
    requires Truthful(q, w) && q.globCapped == 0
    requires NewlineFree(q.scope) && WildcardFree(q.scope) && ScopeIsWhole(q.scope)
    ensures !UnbackedNo(q, pv)
    ensures pv in Universe(q) && HasDisplay(q, pv) == No ==> pv !in w.shown
  {
    hide AskedFor, RecordName, StartsWith, ScopeIsWhole;
    ScopeIsWholeIff(q.scope);
    if pv in Delivered(q) {
      var n :| n in q.registry.names && RecordName(n) == pv;
      assert NewlineFree(n) && AskedFor(q.scope, n);
    }
    DisplayNoIsTrueIff(q);
  }

  lemma WholeKeeps(scope: string, n: string)
    requires NewlineFree(scope) && NewlineFree(n) && StartsWith(n, scope) && ScopeIsWhole(scope)
    ensures StartsWith(RecordName(n), scope)
  {
    RecordNameStrips(n);
    if |RecordName(n)| < |scope| {
      CutInsideScope(scope, n);
    } else {
      assert n[..|RecordName(n)|] == RecordName(n) && n[..|RecordName(n)|][..|scope|] == n[..|scope|];
    }
  }

  /** If one channel's field suffix starts inside the scope, the scope plus a letter shows it. */
  lemma CutInsideScope(scope: string, n: string)
    requires NewlineFree(scope) && NewlineFree(n) && StartsWith(n, scope) && |RecordName(n)| < |scope|
    ensures |RecordName(scope + "E")| < |scope|
  {
    hide IsRun, RecordName, HasField;
    var k := |RecordName(n)|;
    RecordNameStrips(n);
    var t := n[|scope|..];
    assert n == scope + t;
    SliceLeft(scope, t, k);
    RunCompletes(scope[k..], t);
    SliceLeft(scope, "E", k);
    RunCutsBefore(scope + "E", k);
  }

  lemma RunCutsBefore(s: string, k: nat)
    requires k < |s| && IsRun(s[k..]) && s[|s| - 1] != '\n'
    ensures |RecordName(s)| <= k
  {
    hide IsRun;
    EndsInNewline(s);
    assert RunStart(s, 0) <= k;
  }

  /** A non-empty beginning of a run can be completed to a run by one letter. */
  lemma {:induction false} RunCompletes(x: string, t: string)
    requires x != "" && IsRun(x + t)
    ensures IsRun(x + "E")
    decreases |x|
  {
    var s := x + t;
    var k :| 2 <= k <= |s| && FirstSegment(s, k) && (k == |s| || IsRun(s[k..]));
    hide IsRun, FirstSegment;
    if k < |x| {
      SliceLeft(x, t, k);
      SliceLeft(x, "E", k);
      RunCompletes(x[k..], t);
      SegmentStays(x, t, "E", k);
      RunFrom(x + "E", k);
    } else {
      LetterEnds(x, t, k);
      RunFrom(x + "E", |x| + 1);
    }
  }

  lemma SliceLeft(x: string, t: string, k: nat)
    requires k <= |x|
    ensures (x + t)[k..] == x[k..] + t
  {
  }

  lemma SegmentStays(x: string, t: string, u: string, k: nat)
    requires k <= |x| && FirstSegment(x + t, k)
    ensures FirstSegment(x + u, k)
  {
    assert (x + t)[1..k] == x[1..k] == (x + u)[1..k];
  }

  lemma RunFrom(s: string, k: nat)
    requires FirstSegment(s, k) && (k == |s| || IsRun(s[k..]))
    ensures IsRun(s)
  {
    hide FirstSegment;
    RunByFirst(s);
  }

  /** A beginning that ends inside the first segment becomes a whole segment by one letter. */
  lemma LetterEnds(x: string, t: string, k: nat)
    requires x != "" && |x| <= k && FirstSegment(x + t, k)
    ensures FirstSegment(x + "E", |x| + 1)
  {
    var s, e := x + t, x + "E";
    forall i | 1 <= i < |e|
      ensures IsWord(e[i]) && (i == 1 ==> IsAlpha(e[i]))
    {
      if i < |x| {
        assert e[i] == s[1..k][i - 1];
      }
    }
    assert e[1..|e|][0] == e[1];
  }
}
