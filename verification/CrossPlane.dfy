/** Joining display PVs with an IOC and its records: which linked records may be called broken. */
module CrossPlane {
  import opened Prelude
  import opened RecordNames
  import opened Coverage
  import opened MacroExpand
  import opened IocDb

  datatype Resolution = Resolved | Dynamic | Unresolved
  datatype Role = Read | Write
  datatype Protocol = Ca | Pva | Loc | Sim | Sys | Other

  datatype JoinPv = JoinPv(display: string, pv: string, resolution: Resolution, role: Role, protocol: Protocol)

  /** The `.db` sets handed over, and whether they are provably complete. */
  datatype DbSets = DbSets(resolved: set<string>, unresolved: set<string>, complete: bool)

  datatype CrossReport = CrossReport(
    linked: set<string>,
    linkedWrite: set<string>,
    linkedDisplays: set<string>,
    otherPrefix: set<string>,
    dynamic: set<string>,
    unresolved: set<string>,
    indeterminate: set<string>,
    nonChannel: set<string>,
    indeterminatePairs: set<(string, string)>,
    dbResolved: nat,
    dbNeedsMsi: nat,
    broken: set<string>,
    brokenWrite: set<string>,
    brokenWithheld: bool,
    cfUnregistered: set<string>,
    cfUnregisteredWrite: set<string>,
    cfRegistered: nat,
    cfCapped: bool)

  predicate Real(r: JoinPv) {
    r.protocol == Ca || r.protocol == Pva
  }

  predicate Concrete(r: JoinPv) {
    Real(r) && r.resolution == Resolved
  }

  /** Shares the IOC's prefix; an empty prefix links nothing. */
  predicate IsLinked(r: JoinPv, prefix: string) {
    Concrete(r) && prefix != "" && StartsWith(r.pv, prefix)
  }

  function RecordsOf(pvs: set<string>): set<string> {
    set pv | pv in pvs :: RecordName(pv)
  }

  /** The verdict can be given: complete, fully resolved, and not over an empty set. */
  predicate CanProveAbsence(db: DbSets) {
    db.complete && db.resolved != {} && db.unresolved == {}
  }

  function Pick(rows: seq<JoinPv>, p: JoinPv -> bool): set<string> {
    set r | r in rows && p(r) :: r.pv
  }

  function ReportOf(rows: seq<JoinPv>, prefix: string, db: Option<DbSets>, registry: Registry): CrossReport {
    var linked := Pick(rows, r => IsLinked(r, prefix));
    var linkedWrite := Pick(rows, r => IsLinked(r, prefix) && r.role == Write);
    var broken := if db.Some? && CanProveAbsence(db.value) then RecordsOf(linked) - db.value.resolved else {};
    var missing := if registry.Names? && prefix != "" then RecordsOf(linked) - registry.names else {};
    CrossReport(
      linked, linkedWrite,
      set r | r in rows && IsLinked(r, prefix) :: r.display,
      Pick(rows, r => Concrete(r) && !IsLinked(r, prefix)),
      Pick(rows, r => Real(r) && r.resolution == Dynamic),
      Pick(rows, r => Real(r) && r.resolution == Unresolved),
      Pick(rows, r => Real(r) && r.resolution != Resolved),
      Pick(rows, r => !Real(r)),
      set r | r in rows && Real(r) && r.resolution != Resolved :: (r.display, r.pv),
      if db.Some? then |db.value.resolved| else 0, if db.Some? then |db.value.unresolved| else 0,
      broken, broken * RecordsOf(linkedWrite), db.Some? && !CanProveAbsence(db.value),
      missing, missing * RecordsOf(linkedWrite),
      if registry.Names? && prefix != "" then |registry.names| else 0, registry.Capped? && prefix != "")
  }

  lemma PickMore(rows: seq<JoinPv>, i: nat, p: JoinPv -> bool)
    requires i < |rows|
    ensures Pick(rows[..i + 1], p) == Pick(rows[..i], p) + (if p(rows[i]) then {rows[i].pv} else {})
  {
    assert rows[..i + 1] == rows[..i] + [rows[i]];
    assert forall r :: r in rows[..i + 1] <==> r in rows[..i] || r == rows[i];
  }

  /** The buckets the loop fills, one row at a time. */
  datatype Buckets = Buckets(
    linked: set<string>, linkedWrite: set<string>, linkedDisplays: set<string>, otherPrefix: set<string>,
    dynamic: set<string>, unresolved: set<string>, nonChannel: set<string>, pairs: set<(string, string)>)

  ghost predicate Bucketed(rows: seq<JoinPv>, prefix: string, b: Buckets) {
    && b.linked == Pick(rows, r => IsLinked(r, prefix))
    && b.linkedWrite == Pick(rows, r => IsLinked(r, prefix) && r.role == Write)
    && b.linkedDisplays == (set r | r in rows && IsLinked(r, prefix) :: r.display)
    && b.otherPrefix == Pick(rows, r => Concrete(r) && !IsLinked(r, prefix))
    && b.dynamic == Pick(rows, r => Real(r) && r.resolution == Dynamic)
    && b.unresolved == Pick(rows, r => Real(r) && r.resolution == Unresolved)
    && b.nonChannel == Pick(rows, r => !Real(r))
    && b.pairs == (set r | r in rows && Real(r) && r.resolution != Resolved :: (r.display, r.pv))
  }

  /** One turn of the bucketing loop. */
  method Sort(jp: JoinPv, prefix: string, b: Buckets, ghost rows: seq<JoinPv>, ghost i: nat) returns (b': Buckets)
    requires i < |rows| && jp == rows[i] && Bucketed(rows[..i], prefix, b)
    ensures Bucketed(rows[..i + 1], prefix, b')
  {
    b' := b;
    if jp.protocol != Ca && jp.protocol != Pva {
      b' := b.(nonChannel := b.nonChannel + {jp.pv});
    } else if jp.resolution == Resolved {
      if prefix != "" && StartsWith(jp.pv, prefix) {
        b' := b.(linked := b.linked + {jp.pv}, linkedDisplays := b.linkedDisplays + {jp.display});
        if jp.role == Write {
          b' := b'.(linkedWrite := b.linkedWrite + {jp.pv});
        }
      } else {
        b' := b.(otherPrefix := b.otherPrefix + {jp.pv});
      }
    } else if jp.resolution == Dynamic {
      b' := b.(dynamic := b.dynamic + {jp.pv}, pairs := b.pairs + {(jp.display, jp.pv)});
    } else {
      b' := b.(unresolved := b.unresolved + {jp.pv}, pairs := b.pairs + {(jp.display, jp.pv)});
    }
    BucketMore(rows, i, prefix, b, b');
  }

  lemma BucketMore(rows: seq<JoinPv>, i: nat, prefix: string, b: Buckets, b': Buckets)
    requires i < |rows| && Bucketed(rows[..i], prefix, b)
    requires var jp := rows[i];
             && b'.linked == b.linked + (if IsLinked(jp, prefix) then {jp.pv} else {})
             && b'.linkedWrite == b.linkedWrite + (if IsLinked(jp, prefix) && jp.role == Write then {jp.pv} else {})
             && b'.linkedDisplays == b.linkedDisplays + (if IsLinked(jp, prefix) then {jp.display} else {})
             && b'.otherPrefix == b.otherPrefix + (if Concrete(jp) && !IsLinked(jp, prefix) then {jp.pv} else {})
             && b'.dynamic == b.dynamic + (if Real(jp) && jp.resolution == Dynamic then {jp.pv} else {})
             && b'.unresolved == b.unresolved + (if Real(jp) && jp.resolution == Unresolved then {jp.pv} else {})
             && b'.nonChannel == b.nonChannel + (if !Real(jp) then {jp.pv} else {})
             && b'.pairs == b.pairs + (if Real(jp) && jp.resolution != Resolved then {(jp.display, jp.pv)} else {})
    ensures Bucketed(rows[..i + 1], prefix, b')
  {
    hide IsLinked, Concrete, Real, Pick;
    PickMore(rows, i, r => IsLinked(r, prefix));
    PickMore(rows, i, r => IsLinked(r, prefix) && r.role == Write);
    PickMore(rows, i, r => Concrete(r) && !IsLinked(r, prefix));
    PickMore(rows, i, r => Real(r) && r.resolution == Dynamic);
    PickMore(rows, i, r => Real(r) && r.resolution == Unresolved);
    PickMore(rows, i, r => !Real(r));
    assert rows[..i + 1] == rows[..i] + [rows[i]];
    assert forall r :: r in rows[..i + 1] <==> r in rows[..i] || r == rows[i];
  }

  method CrossplaneCheck(rows: seq<JoinPv>, prefix: string, db: Option<DbSets>, registry: Registry)
      returns (report: CrossReport)
    ensures report == ReportOf(rows, prefix, db, registry)
  {
    hide Pick, IsLinked, Concrete, RecordName;
    var b := Buckets({}, {}, {}, {}, {}, {}, {}, {});
    NothingBucketed(prefix);
    for i := 0 to |rows|
      invariant Bucketed(rows[..i], prefix, b)
    {
      b := Sort(rows[i], prefix, b, rows, i);
    }
    assert rows[..|rows|] == rows;
    var linkedRecords := set pv | pv in b.linked :: RecordName(pv);
    var linkedWriteRecords := set pv | pv in b.linkedWrite :: RecordName(pv);
    var broken: set<string> := {};
    var brokenWithheld := false;
    var dbResolved, dbNeedsMsi := 0, 0;
    if db.Some? {
      var sets := db.value;
      dbResolved, dbNeedsMsi := |sets.resolved|, |sets.unresolved|;
      if sets.complete && sets.resolved != {} && sets.unresolved == {} {
        broken := set r | r in linkedRecords && r !in sets.resolved;
      } else {
        brokenWithheld := true;
      }
    }
    var cfUnregistered: set<string> := {};
    var cfRegistered, cfCapped := 0, false;
    if registry != NotWired && prefix != "" {
      match registry
      case Names(names) =>
        cfUnregistered := set r | r in linkedRecords && r !in names;
        cfRegistered := |names|;
      case Capped =>
        cfCapped := true;
      case _ =>
    }
    IndeterminateIs(rows);
    report := CrossReport(b.linked, b.linkedWrite, b.linkedDisplays, b.otherPrefix, b.dynamic, b.unresolved,
                          b.dynamic + b.unresolved, b.nonChannel, b.pairs, dbResolved, dbNeedsMsi,
                          broken, broken * linkedWriteRecords, brokenWithheld,
                          cfUnregistered, cfUnregistered * linkedWriteRecords, cfRegistered, cfCapped);
  }

  lemma IndeterminateIs(rows: seq<JoinPv>)
    ensures Pick(rows, r => Real(r) && r.resolution == Dynamic) + Pick(rows, r => Real(r) && r.resolution == Unresolved)
         == Pick(rows, r => Real(r) && r.resolution != Resolved)
  {
    hide Real;
  }

  lemma NothingBucketed(prefix: string)
    ensures Bucketed([], prefix, Buckets({}, {}, {}, {}, {}, {}, {}, {}))
  {
  }

  // ---------------------------------------------------------------------------------------
  // What the report promises
  // ---------------------------------------------------------------------------------------

  /** A row of a real protocol, by name. */
  predicate OnThePlant(r: JoinPv) {
    r.protocol == Ca || r.protocol == Pva
  }

  /** A resolved channel under a non-empty prefix. */
  predicate UnderPrefix(r: JoinPv, prefix: string) {
    && OnThePlant(r) && r.resolution == Resolved
    && 0 < |prefix| <= |r.pv| && r.pv[..|prefix|] == prefix
  }

  /** Linked and other-prefix PVs, from the fields of the rows alone. */
  lemma LinksMean(rows: seq<JoinPv>, prefix: string, db: Option<DbSets>, registry: Registry, pv: string)
    ensures var rep := ReportOf(rows, prefix, db, registry);
            && (pv in rep.linked <==> exists r :: r in rows && r.pv == pv && UnderPrefix(r, prefix))
            && (pv in rep.linkedWrite
                <==> exists r :: r in rows && r.pv == pv && UnderPrefix(r, prefix) && r.role == Write)
            && (pv in rep.otherPrefix
                <==> exists r :: && r in rows && r.pv == pv && OnThePlant(r) && r.resolution == Resolved
                                 && !UnderPrefix(r, prefix))
  {
    LinkedIs(prefix);
    hide IsLinked, UnderPrefix, Real, OnThePlant;
    PickHolds(rows, r => IsLinked(r, prefix), pv);
    PickHolds(rows, r => IsLinked(r, prefix) && r.role == Write, pv);
    PickHolds(rows, r => Concrete(r) && !IsLinked(r, prefix), pv);
    hide Pick, RecordsOf;
  }

  lemma LinkedIs(prefix: string)
    ensures forall r :: (Real(r) <==> OnThePlant(r)) && (IsLinked(r, prefix) <==> UnderPrefix(r, prefix))
  {
  }

  /** All other buckets, from the fields of the rows alone. */
  lemma LeftoversMean(rows: seq<JoinPv>, prefix: string, db: Option<DbSets>, registry: Registry, pv: string)
    ensures var rep := ReportOf(rows, prefix, db, registry);
            && (pv in rep.nonChannel
                <==> exists r :: r in rows && r.pv == pv && r.protocol != Ca && r.protocol != Pva)
            && (pv in rep.dynamic
                <==> exists r :: r in rows && r.pv == pv && OnThePlant(r) && r.resolution == Dynamic)
            && (pv in rep.unresolved
                <==> exists r :: r in rows && r.pv == pv && OnThePlant(r) && r.resolution == Unresolved)
            && (pv in rep.indeterminate <==> pv in rep.dynamic || pv in rep.unresolved)
  {
    LinkedIs(prefix);
    PickHolds(rows, r => !Real(r), pv);
    hide Real, IsLinked;
    PickHolds(rows, r => Real(r) && r.resolution == Dynamic, pv);
    PickHolds(rows, r => Real(r) && r.resolution == Unresolved, pv);
    PickHolds(rows, r => Real(r) && r.resolution != Resolved, pv);
    hide Pick, RecordsOf;
  }

  lemma PickHolds(rows: seq<JoinPv>, p: JoinPv -> bool, pv: string)
    ensures pv in Pick(rows, p) <==> exists r :: r in rows && r.pv == pv && p(r)
  {
  }

  /** The displays and the pairs, from the fields of the rows alone. */
  lemma DisplaysMean(rows: seq<JoinPv>, prefix: string, db: Option<DbSets>, registry: Registry,
                     display: string, pv: string)
    ensures var rep := ReportOf(rows, prefix, db, registry);
            && (display in rep.linkedDisplays
                <==> exists r :: r in rows && r.display == display && UnderPrefix(r, prefix))
            && ((display, pv) in rep.indeterminatePairs
                <==> exists r :: && r in rows && r.display == display && r.pv == pv
                                 && OnThePlant(r) && (r.resolution == Dynamic || r.resolution == Unresolved))
  {
    hide Pick, RecordsOf;
  }

  /** Some linked row, a writing one if asked for, has this record. */
  predicate LinkedRecord(rows: seq<JoinPv>, prefix: string, b: string, writing: bool) {
    exists r :: r in rows && UnderPrefix(r, prefix) && RecordName(r.pv) == b && (writing ==> r.role == Write)
  }

  /** The verdicts, from the rows, the two sets and the registry alone. */
  lemma VerdictsMean(rows: seq<JoinPv>, prefix: string, db: Option<DbSets>, registry: Registry, b: string)
    ensures var rep := ReportOf(rows, prefix, db, registry);
            var provable := db.Some? && db.value.complete && db.value.resolved != {} && db.value.unresolved == {};
            && (b in rep.broken <==> provable && b !in db.value.resolved && LinkedRecord(rows, prefix, b, false))
            && (b in rep.brokenWrite <==> b in rep.broken && LinkedRecord(rows, prefix, b, true))
            && (rep.brokenWithheld <==> db.Some? && !provable)
            && (b in rep.cfUnregistered
                <==> registry.Names? && prefix != "" && b !in registry.names && LinkedRecord(rows, prefix, b, false))
            && (b in rep.cfUnregisteredWrite <==> b in rep.cfUnregistered && LinkedRecord(rows, prefix, b, true))
  {
    RecordsMean(rows, prefix, b);
    hide Pick, RecordsOf, LinkedRecord;
  }

  /** The counters and the cap, from the two sets and the registry alone. */
  lemma CountersMean(rows: seq<JoinPv>, prefix: string, db: Option<DbSets>, registry: Registry)
    ensures var rep := ReportOf(rows, prefix, db, registry);
            && (db.Some? ==> rep.dbResolved == |db.value.resolved| && rep.dbNeedsMsi == |db.value.unresolved|)
            && (db.None? ==> rep.dbResolved == 0 && rep.dbNeedsMsi == 0)
            && (prefix == "" || !registry.Names? ==> rep.cfRegistered == 0)
            && (prefix != "" && registry.Names? ==> rep.cfRegistered == |registry.names|)
            && (rep.cfCapped <==> registry == Capped && prefix != "")
  {
  }

  lemma RecordsMean(rows: seq<JoinPv>, prefix: string, b: string)
    ensures b in RecordsOf(Pick(rows, r => IsLinked(r, prefix))) <==> LinkedRecord(rows, prefix, b, false)
    ensures b in RecordsOf(Pick(rows, r => IsLinked(r, prefix) && r.role == Write))
       <==> LinkedRecord(rows, prefix, b, true)
  {
    forall r
      ensures IsLinked(r, prefix) <==> UnderPrefix(r, prefix)
    {
    }
    hide RecordName, IsLinked, UnderPrefix;
    forall r | r in rows && UnderPrefix(r, prefix) && RecordName(r.pv) == b
      ensures r.pv in Pick(rows, r => IsLinked(r, prefix))
      ensures r.role == Write ==> r.pv in Pick(rows, r => IsLinked(r, prefix) && r.role == Write)
    {
      PickHolds(rows, r => IsLinked(r, prefix), r.pv);
      PickHolds(rows, r => IsLinked(r, prefix) && r.role == Write, r.pv);
    }
  }

  /** The report depends only on which rows occur, not on their order or their number. */
  lemma RowsAsASet(rows: seq<JoinPv>, rows': seq<JoinPv>, prefix: string, db: Option<DbSets>, registry: Registry)
    requires forall r :: r in rows <==> r in rows'
    ensures ReportOf(rows, prefix, db, registry) == ReportOf(rows', prefix, db, registry)
  {
    hide IsLinked, Concrete, Real, RecordName;
    forall p: JoinPv -> bool
      ensures Pick(rows, p) == Pick(rows', p)
    {
    }
    assert (set r | r in rows && IsLinked(r, prefix) :: r.display)
        == (set r | r in rows' && IsLinked(r, prefix) :: r.display);
    assert (set r | r in rows && Real(r) && r.resolution != Resolved :: (r.display, r.pv))
        == (set r | r in rows' && Real(r) && r.resolution != Resolved :: (r.display, r.pv));
  }

  /** A PV is linked or belongs to another prefix, never both; nothing is ever called broken or
      unregistered that is not the record of a linked PV; and of newline-free PVs that record is a
      normal form. */
  lemma BucketsAreApart(rows: seq<JoinPv>, prefix: string, db: Option<DbSets>, registry: Registry)
    ensures var rep := ReportOf(rows, prefix, db, registry);
            && rep.linked !! rep.otherPrefix
            && (forall b :: b in rep.broken + rep.cfUnregistered ==>
                  exists pv :: pv in rep.linked && RecordName(pv) == b)
            && (forall pv :: pv in rep.linked && NewlineFree(pv) ==> RecordName(RecordName(pv)) == RecordName(pv))
  {
    hide RecordName, Real;
    var rep := ReportOf(rows, prefix, db, registry);
    forall pv | pv in rep.linked && NewlineFree(pv)
      ensures RecordName(RecordName(pv)) == RecordName(pv)
    {
      RecordNameStrips(pv);
      RecordNameStrips(RecordName(pv));
    }
  }

  /** The sets the loader hands over to the check. */
  function HandedOver(loads: seq<Load>, env: Macros, tree: Tree): DbSets {
    DbSets(AllResolved(loads, env, tree), AllUnresolved(loads, env, tree),
           AllResolved(loads, env, tree) != {} && forall l :: l in loads ==> Followed(l, env, tree))
  }

  /** Broken, end to end. If anything is reported broken, then nothing in the startup script was
      unfollowable, every `.db` load became macro-free, met exactly one readable file and gave
      ground names only; and `broken` is exactly the linked records outside all of those names. */
  lemma BrokenIsProved(rows: seq<JoinPv>, prefix: string, registry: Registry, loads: seq<Load>, env: Macros, tree: Tree)
    requires ReportOf(rows, prefix, Some(HandedOver(loads, env, tree)), registry).broken != {}
    ensures forall l :: l in loads ==> l.command == DbLoadRecords
    ensures forall l :: l in loads && IsDbLoad(l) ==>
              && Ground(l.target, env)
              && exists p, raw ::
                  && Matches(Expanded(l.target, env), tree) == {p} && p in tree.files && tree.files[p] == Readable(raw)
                  && (forall n :: n in raw ==> Ground(n, env + l.macros))
                  && OutcomeOf(l, env, tree).resolved == ResolvedNames(raw, env + l.macros)
    ensures AllResolved(loads, env, tree) != {}
    ensures var rep := ReportOf(rows, prefix, Some(HandedOver(loads, env, tree)), registry);
            forall b :: b in rep.broken <==>
              && (exists pv :: pv in rep.linked && RecordName(pv) == b)
              && (forall l :: l in loads && IsDbLoad(l) ==> b !in OutcomeOf(l, env, tree).resolved)
  {
    assert forall l :: l in loads ==> Followed(l, env, tree);
    forall l | l in loads && IsDbLoad(l)
      ensures Ground(l.target, env)
      ensures exists p, raw ::
                && Matches(Expanded(l.target, env), tree) == {p} && p in tree.files && tree.files[p] == Readable(raw)
                && (forall n :: n in raw ==> Ground(n, env + l.macros))
                && OutcomeOf(l, env, tree).resolved == ResolvedNames(raw, env + l.macros)
    {
      FollowedMeans(l, env, tree);
    }
    DbLoadsOnly(loads, env, tree);
  }

  lemma DbLoadsOnly(loads: seq<Load>, env: Macros, tree: Tree)
    requires forall l :: l in loads ==> Followed(l, env, tree)
    ensures forall b :: b in AllResolved(loads, env, tree) <==>
              exists l ::
                && l in loads && IsDbLoad(l) && OutcomeOf(l, env, tree).Loaded?
                && b in OutcomeOf(l, env, tree).resolved
  {
    forall l | l in loads && OutcomeOf(l, env, tree).Loaded?
      ensures IsDbLoad(l)
    {
      hide Ground, Matches, FileAt;
    }
  }

  // ---------------------------------------------------------------------------------------
  // When "broken" is true of the IOC
  // ---------------------------------------------------------------------------------------

  /** What each load may really create: a loaded database its names, a skipped load anything. */
  ghost predicate Plausible(creates: Load -> set<string>, loads: seq<Load>, env: Macros, tree: Tree) {
    forall l :: l in loads && OutcomeOf(l, env, tree).Loaded? ==> creates(l) == OutcomeOf(l, env, tree).resolved
  }

  ghost function Served(creates: Load -> set<string>, loads: seq<Load>): set<string> {
    set l, n | l in loads && n in creates(l) :: n
  }

  /** What is reported broken is served by no IOC these loads allow, exactly if every load is of a
      `.db` file: one skipped target is enough for a report of a record that is there. */
  lemma BrokenIsTrueIff(rows: seq<JoinPv>, prefix: string, registry: Registry, loads: seq<Load>, env: Macros,
                        tree: Tree)
    requires ReportOf(rows, prefix, Some(HandedOver(loads, env, tree)), registry).broken != {}
    ensures (forall creates: Load -> set<string> :: Plausible(creates, loads, env, tree) ==>
               ReportOf(rows, prefix, Some(HandedOver(loads, env, tree)), registry).broken !! Served(creates, loads))
       <==> (forall l :: l in loads ==> IsDbLoad(l))
  {
    hide Pick, OutcomeOf, Followed, AllResolved, AllUnresolved, IsDbLoad;
    AbsentIsTrueIff(ReportOf(rows, prefix, Some(HandedOver(loads, env, tree)), registry).broken, loads, env, tree);
  }

  lemma AbsentIsTrueIff(absent: set<string>, loads: seq<Load>, env: Macros, tree: Tree)
    requires absent != {} && absent !! AllResolved(loads, env, tree)
    requires forall l :: l in loads ==> Followed(l, env, tree)
    ensures (forall creates: Load -> set<string> ::
               Plausible(creates, loads, env, tree) ==> absent !! Served(creates, loads))
       <==> (forall l :: l in loads ==> IsDbLoad(l))
  {
    if odd :| odd in loads && !IsDbLoad(odd) {
      var b :| b in absent;
      LoadedAreDbLoads(loads, env, tree);
      hide OutcomeOf, IsDbLoad, Followed;
      ServedBySkipped(loads, odd, b, env, tree);
    } else {
      hide OutcomeOf, IsDbLoad;
      forall creates: Load -> set<string> | Plausible(creates, loads, env, tree)
        ensures absent !! Served(creates, loads)
      {
        assert Served(creates, loads) == AllResolved(loads, env, tree);
      }
    }
  }

  /** A skipped load may create any name. */
  lemma ServedBySkipped(loads: seq<Load>, odd: Load, n: string, env: Macros, tree: Tree)
    requires odd in loads && !OutcomeOf(odd, env, tree).Loaded?
    ensures exists creates: Load -> set<string> :: Plausible(creates, loads, env, tree) && n in Served(creates, loads)
  {
    hide OutcomeOf;
    var creates: Load -> set<string> := (l: Load) =>
      if OutcomeOf(l, env, tree).Loaded? then OutcomeOf(l, env, tree).resolved else {n};
    assert n in creates(odd);
    assert Plausible(creates, loads, env, tree) && n in Served(creates, loads);
  }

  lemma LoadedAreDbLoads(loads: seq<Load>, env: Macros, tree: Tree)
    ensures forall l :: l in loads && OutcomeOf(l, env, tree).Loaded? ==> IsDbLoad(l)
  {
    hide Ground, Matches, FileAt;
  }

  // ---------------------------------------------------------------------------------------
  // Only one side is normalised
  // ---------------------------------------------------------------------------------------

  /** A display row for one channel. */
  function RowFor(pv: string): JoinPv {
    JoinPv("screen", pv, Resolved, Read, Ca)
  }

  /** The report on a single linked row. */
  lemma OneLinked(pv: string, prefix: string, db: Option<DbSets>, registry: Registry)
    requires prefix != "" && StartsWith(pv, prefix)
    ensures var report := ReportOf([RowFor(pv)], prefix, db, registry);
            && report.linked == {pv}
            && (db.Some? && CanProveAbsence(db.value) ==> report.broken == {RecordName(pv)} - db.value.resolved)
            && (registry.Names? ==> report.cfUnregistered == {RecordName(pv)} - registry.names)
  {
    hide RecordName, StartsWith;
    assert RowFor(pv) in [RowFor(pv)];
    assert Pick([RowFor(pv)], r => IsLinked(r, prefix)) == {pv};
    assert RecordsOf({pv}) == {RecordName(pv)};
    hide Pick, RecordsOf;
  }

  /** PVs whose very name was loaded are never called broken, whatever the rows, exactly if the
      loaded names under the prefix hold their own record names: the code normalises the display
      side only. */
  lemma LoadedIsNeverBrokenIff(db: DbSets, prefix: string, registry: Registry)
    requires CanProveAbsence(db) && prefix != ""
    ensures (forall rows, n :: n in db.resolved && n in ReportOf(rows, prefix, Some(db), registry).linked ==>
               RecordName(n) !in ReportOf(rows, prefix, Some(db), registry).broken)
       <==> (forall n :: n in db.resolved && StartsWith(n, prefix) ==> RecordName(n) in db.resolved)
  {
    hide RecordName;
    if n :| n in db.resolved && StartsWith(n, prefix) && RecordName(n) !in db.resolved {
      OneLinked(n, prefix, Some(db), registry);
      var report := ReportOf([RowFor(n)], prefix, Some(db), registry);
      assert n in report.linked && RecordName(n) in report.broken;
    }
  }

  /** The same of the channels the registry lists. */
  lemma RegisteredIsNeverFlaggedIff(names: set<string>, prefix: string, db: Option<DbSets>)
    requires prefix != ""
    ensures (forall rows, n :: n in names && n in ReportOf(rows, prefix, db, Names(names)).linked ==>
               RecordName(n) !in ReportOf(rows, prefix, db, Names(names)).cfUnregistered)
       <==> (forall n :: n in names && StartsWith(n, prefix) ==> RecordName(n) in names)
  {
    hide RecordName;
    if n :| n in names && StartsWith(n, prefix) && RecordName(n) !in names {
      OneLinked(n, prefix, db, Names(names));
      var report := ReportOf([RowFor(n)], prefix, db, Names(names));
      assert n in report.linked && RecordName(n) in report.cfUnregistered;
    }
  }

  /** Of one name: it is safe from every report exactly if it is its own record name. */
  lemma NameIsSafeIff(n: string, prefix: string)
    requires prefix != "" && StartsWith(n, prefix)
    ensures (forall db, rows ::
               CanProveAbsence(db) && n in db.resolved && n in ReportOf(rows, prefix, Some(db), NotWired).linked ==>
                 RecordName(n) !in ReportOf(rows, prefix, Some(db), NotWired).broken)
       <==> RecordName(n) == n
  {
    hide RecordName;
    if RecordName(n) != n {
      var db := DbSets({n}, {}, true);
      OneLinked(n, prefix, Some(db), NotWired);
      var report := ReportOf([RowFor(n)], prefix, Some(db), NotWired);
      assert n in report.linked && RecordName(n) in report.broken;
    }
  }

  /** For instance: `P:X.Y` is loaded and linked, and `P:X` is reported broken. */
  lemma LoadedYetBroken()
    ensures var db := DbSets({"P:X.Y"}, {}, true);
            var report := ReportOf([RowFor("P:X.Y")], "P:", Some(db), NotWired);
            "P:X.Y" in report.linked && report.broken == {"P:X"}
  {
    hide RecordName, ReportOf;
    var n := "P:X.Y";
    assert n[..2] == "P:" && |"P:X"| != |n|;
    FieldName();
    OneLinked(n, "P:", Some(DbSets({n}, {}, true)), NotWired);
  }

  lemma FieldName()
    ensures RecordName("P:X.Y") == "P:X"
  {
    hide RecordName;
    RecordOfField("P:X", "Y");
    assert "P:X" + "." + "Y" == "P:X.Y";
  }

  lemma RecordOfField(r: string, field: string)
    requires IsField(field) && NewlineFree(r) && '.' !in r
    ensures RecordName(r + "." + field) == r == RecordName(r)
  {
    var s := r + "." + field;
    NoFieldNoStrip(r);
    StripIgnoresField(r, field);
    EndsInNewline(s);
    EndsInNewline(r);
    assert s[|s| - 1] == field[|field| - 1] && IsWord(field[|field| - 1]);
  }

  /** For instance: a `.db` file with `P:X`, a template, and a screen with `P:Y`. The report calls
      `P:Y` broken, and the template may well create it. */
  lemma BrokenYetServed()
    ensures var loads := [Load(DbLoadRecords, "a.db", map[]), Load(DbLoadRecords, "b.template", map[])];
            var tree := Tree("/r", map["/r/a.db" := "/r/a.db"], map[], map["/r/a.db" := Readable(["P:X"])]);
            var report := ReportOf([RowFor("P:Y")], "P:", Some(HandedOver(loads, map[], tree)), NotWired);
            && report.broken == {"P:Y"}
            && exists creates: Load -> set<string> ::
                 Plausible(creates, loads, map[], tree) && "P:Y" in Served(creates, loads)
  {
    hide OutcomeOf, Followed, AllResolved, AllUnresolved, RecordName, StartsWith, ReportOf, Plausible, Served;
    var loads := [Load(DbLoadRecords, "a.db", map[]), Load(DbLoadRecords, "b.template", map[])];
    var tree := Tree("/r", map["/r/a.db" := "/r/a.db"], map[], map["/r/a.db" := Readable(["P:X"])]);
    SkippedYetComplete();
    RowIsLinked();
    CompleteHandsOver(loads, map[], tree);
    OneLinked("P:Y", "P:", Some(HandedOver(loads, map[], tree)), NotWired);
    assert "P:Y"[2] != "P:X"[2];
    ServedBySkipped(loads, loads[1], "P:Y", map[], tree);
  }

  lemma CompleteHandsOver(loads: seq<Load>, env: Macros, tree: Tree)
    requires AllResolved(loads, env, tree) != {} && forall l :: l in loads ==> Followed(l, env, tree)
    ensures CanProveAbsence(HandedOver(loads, env, tree))
  {
    CompleteIff(loads, env, tree);
    hide OutcomeOf, Followed;
  }

  lemma RowIsLinked()
    ensures StartsWith("P:Y", "P:") && RecordName("P:Y") == "P:Y"
  {
    assert "P:Y"[..2] == "P:";
    EndsInNewline("P:Y");
    NoFieldNoStrip("P:Y");
  }
}
