/**
  Loading the PV names of an IOC from its `.db` files, and the flag that says whether the load
  is provably complete. Pattern matching and the file tree are inputs.
 */
module IocDb {
  import opened Prelude
  import opened MacroScan
  import opened MacroExpand
  import opened MacroTree

  /** Passes spent on one text by default. */
  const MAX_PASSES: nat := 10

  datatype Command = DbLoadRecords | DbLoadTemplate | IocshLoad

  datatype Load = Load(command: Command, target: string, macros: Macros)

  /** A file as the reader sees it: the raw record and alias names in it, if it can be read. */
  datatype File = Unreadable | Readable(rawNames: seq<string>)

  /** `direct`: what a path leads to if it is a file. `walk`: paths by basename, from one walk. */
  datatype Tree = Tree(
    root: string,
    direct: map<string, string>,
    walk: map<string, set<string>>,
    files: map<string, File>)

  datatype IocDbResult = IocDbResult(
    resolved: set<string>,
    unresolved: set<string>,
    complete: bool,
    missing: multiset<string>,     // sorted tuples in the code: what counts is what they hold
    ambiguous: multiset<string>,
    unsupported: bool)

  /** The text after the default number of passes. */
  function Expanded(text: string, m: Macros): string {
    Repeat(text, m, MAX_NAME_EXPANSION_DEPTH, MAX_PASSES)
  }

  predicate Ground(text: string, m: Macros) {
    !HasMacroRef(Expanded(text, m))
  }

  // ---------------------------------------------------------------------------------------
  // Names of one file
  // ---------------------------------------------------------------------------------------

  function ResolvedNames(rawNames: seq<string>, m: Macros): set<string> {
    set n | n in rawNames && Ground(n, m) :: Expanded(n, m)
  }

  function UnresolvedNames(rawNames: seq<string>, m: Macros): set<string> {
    set n | n in rawNames && !Ground(n, m) :: Expanded(n, m)
  }

  method IocDbPvs(rawNames: seq<string>, macros: Macros) returns (resolved: set<string>, unresolved: set<string>)
    ensures resolved == ResolvedNames(rawNames, macros)
    ensures unresolved == UnresolvedNames(rawNames, macros)
  {
    hide Repeat, HasMacroRef;
    resolved, unresolved := {}, {};
    for i := 0 to |rawNames|
      invariant resolved == ResolvedNames(rawNames[..i], macros)
      invariant unresolved == UnresolvedNames(rawNames[..i], macros)
    {
      OneMoreName(rawNames, i, macros);
      var name := Substitute(rawNames[i], macros, MAX_PASSES);
      if HasMacroRef(name) {
        unresolved := unresolved + {name};
      } else {
        resolved := resolved + {name};
      }
    }
    assert rawNames[..|rawNames|] == rawNames;
  }

  lemma OneMoreName(rawNames: seq<string>, i: nat, m: Macros)
    requires i < |rawNames|
    ensures ResolvedNames(rawNames[..i + 1], m)
         == ResolvedNames(rawNames[..i], m) + (if Ground(rawNames[i], m) then {Expanded(rawNames[i], m)} else {})
    ensures UnresolvedNames(rawNames[..i + 1], m)
         == UnresolvedNames(rawNames[..i], m) + (if Ground(rawNames[i], m) then {} else {Expanded(rawNames[i], m)})
  {
    hide Expanded, Ground;
    assert rawNames[..i + 1] == rawNames[..i] + [rawNames[i]];
    assert forall n :: n in rawNames[..i + 1] <==> n in rawNames[..i] || n == rawNames[i];
  }

  // ---------------------------------------------------------------------------------------
  // Finding a file
  // ---------------------------------------------------------------------------------------

  function Join(root: string, path: string): string {
    if StartsWith(path, "/") then path else root + "/" + path
  }

  function Basename(path: string): string {
    if path == "" || path[|path| - 1] == '/' then ""
    else Basename(path[..|path| - 1]) + [path[|path| - 1]]
  }

  /** All files a target may mean: the direct one, else every file of that basename. */
  function Matches(target: string, tree: Tree): set<string> {
    var direct := Join(tree.root, target);
    if direct in tree.direct then {tree.direct[direct]}
    else if Basename(target) in tree.walk then tree.walk[Basename(target)] else {}
  }

  /** The basename index, built by the first query and kept. */
  class LazyIndex {
    const tree: Tree
    var cache: Option<map<string, set<string>>>
    var walks: nat

    ghost predicate Valid()
      reads this
    {
      && (cache.Some? ==> cache.value == tree.walk && walks == 1)
      && (cache.None? ==> walks == 0)
    }

    constructor (tree: Tree)
      ensures Valid() && this.tree == tree && walks == 0
    {
      this.tree := tree;
      cache, walks := None, 0;
    }

    method Lookup(name: string) returns (paths: set<string>)
      requires Valid()
      modifies this
      ensures Valid() && walks == 1
      ensures paths == if name in tree.walk then tree.walk[name] else {}
    {
      if cache.None? {
        cache := Some(tree.walk);
        walks := walks + 1;
      }
      paths := if name in cache.value then cache.value[name] else {};
    }
  }

  method LocateDb(target: string, index: LazyIndex) returns (matches: set<string>)
    requires index.Valid()
    modifies index
    ensures index.Valid()
    ensures matches == Matches(target, index.tree)
    ensures index.walks == if Join(index.tree.root, target) in index.tree.direct then old(index.walks) else 1
  {
    var direct := Join(index.tree.root, target);
    if direct in index.tree.direct {
      return {index.tree.direct[direct]};
    }
    matches := index.Lookup(Basename(target));
  }

  // ---------------------------------------------------------------------------------------
  // What becomes of each load
  // ---------------------------------------------------------------------------------------

  predicate IsDbLoad(load: Load) {
    load.command == DbLoadRecords && EndsWith(load.target, ".db")
  }

  datatype Outcome = Skipped | Missing | Ambiguous | Loaded(resolved: set<string>, unresolved: set<string>)

  function OutcomeOf(load: Load, env: Macros, tree: Tree): Outcome {
    if !IsDbLoad(load) then Skipped
    else if !Ground(load.target, env) then Missing
    else
      var matches := Matches(Expanded(load.target, env), tree);
      if matches == {} then Missing
      else if |matches| > 1 then Ambiguous
      else
        var file := FileAt(matches, tree);
        match file
        case Unreadable => Missing
        case Readable(raw) => Loaded(ResolvedNames(raw, env + load.macros), UnresolvedNames(raw, env + load.macros))
  }

  /** The file behind a single match; a path without a file cannot be read. */
  function FileAt(matches: set<string>, tree: Tree): File
    requires |matches| == 1
  {
    OneElement(matches);
    var p :| p in matches;
    if p in tree.files then tree.files[p] else Unreadable
  }

  lemma OneElement(s: set<string>)
    requires |s| == 1
    ensures exists p :: p in s
    ensures forall p, r :: p in s && r in s ==> p == r
  {
    var p :| p in s;
    assert |s - {p}| == 0;
  }

  /** The synthesised module directories. */
  function DirEnv(modules: seq<string>, root: string): Macros {
    if modules == [] then map[]
    else DirEnv(modules[..|modules| - 1], root)[modules[|modules| - 1] + "_DIR" := root + "/" + modules[|modules| - 1]]
  }

  /** The load adds no doubt: a database whose every name is known, or a load the loop skips. */
  predicate Followed(load: Load, env: Macros, tree: Tree) {
    && load.command == DbLoadRecords
    && (IsDbLoad(load) ==> OutcomeOf(load, env, tree).Loaded? && OutcomeOf(load, env, tree).unresolved == {})
  }

  function AllResolved(loads: seq<Load>, env: Macros, tree: Tree): set<string> {
    set l, n | l in loads && OutcomeOf(l, env, tree).Loaded? && n in OutcomeOf(l, env, tree).resolved :: n
  }

  function AllUnresolved(loads: seq<Load>, env: Macros, tree: Tree): set<string> {
    set l, n | l in loads && OutcomeOf(l, env, tree).Loaded? && n in OutcomeOf(l, env, tree).unresolved :: n
  }

  /** The targets of the loads with a given outcome. */
  function TargetsWith(loads: seq<Load>, o: Outcome, env: Macros, tree: Tree): multiset<string> {
    if loads == [] then multiset{}
    else
      var last := loads[|loads| - 1];
      var here := if OutcomeOf(last, env, tree) == o then multiset{last.target} else multiset{};
      TargetsWith(loads[..|loads| - 1], o, env, tree) + here
  }

  predicate FellBack(load: Load, env: Macros, tree: Tree) {
    IsDbLoad(load) && Ground(load.target, env) && Join(tree.root, Expanded(load.target, env)) !in tree.direct
  }

  /** One turn of the loop. */
  method LoadOne(load: Load, env: Macros, index: LazyIndex) returns (o: Outcome)
    requires index.Valid()
    modifies index
    ensures index.Valid() && o == OutcomeOf(load, env, index.tree)
    ensures index.walks == if FellBack(load, env, index.tree) then 1 else old(index.walks)
  {
    hide Repeat, HasMacroRef, Matches, Join, ResolvedNames, UnresolvedNames;
    if load.command != DbLoadRecords || !EndsWith(load.target, ".db") {
      return Skipped;
    }
    var target := Substitute(load.target, env, MAX_PASSES);
    if HasMacroRef(target) {
      return Missing;
    }
    var matches := LocateDb(target, index);
    if matches == {} {
      return Missing;
    }
    if |matches| > 1 {
      return Ambiguous;
    }
    var file := FileAt(matches, index.tree);
    if file.Unreadable? {
      return Missing;
    }
    var resolved, unresolved := IocDbPvs(file.rawNames, env + load.macros);
    return Loaded(resolved, unresolved);
  }

  /** The loader. The flag is set exactly when every load is followed and some name is known; the
      tree is walked at most once, and only if some load falls back to a basename search. */
  method LoadIocDb(loads: seq<Load>, modules: seq<string>, stEnv: Macros, tree: Tree)
      returns (r: IocDbResult, walks: nat)
    ensures var env := stEnv + DirEnv(modules, tree.root);
            && r.resolved == AllResolved(loads, env, tree)
            && r.unresolved == AllUnresolved(loads, env, tree)
            && r.missing == TargetsWith(loads, Missing, env, tree)
            && r.ambiguous == TargetsWith(loads, Ambiguous, env, tree)
            && (r.unsupported <==> exists l :: l in loads && l.command != DbLoadRecords)
            && (r.complete <==> r.resolved != {} && forall l :: l in loads ==> Followed(l, env, tree))
            && (walks == if exists l :: l in loads && FellBack(l, env, tree) then 1 else 0)
  {
    hide OutcomeOf, FellBack, AllResolved, AllUnresolved, TargetsWith;
    var env := stEnv + DirEnv(modules, tree.root);
    var index := new LazyIndex(tree);
    var resolved, unresolved: set<string> := {}, {};
    var missing, ambiguous: multiset<string> := multiset{}, multiset{};
    NothingLoaded(env, tree);
    for i := 0 to |loads|
      invariant index.Valid() && index.tree == tree
      invariant resolved == AllResolved(loads[..i], env, tree) && unresolved == AllUnresolved(loads[..i], env, tree)
      invariant missing == TargetsWith(loads[..i], Missing, env, tree)
      invariant ambiguous == TargetsWith(loads[..i], Ambiguous, env, tree)
      invariant index.walks == if exists l :: l in loads[..i] && FellBack(l, env, tree) then 1 else 0
    {
      OneMoreLoad(loads, i, env, tree);
      var o := LoadOne(loads[i], env, index);
      match o
      case Skipped =>
      case Missing => missing := missing + multiset{loads[i].target};
      case Ambiguous => ambiguous := ambiguous + multiset{loads[i].target};
      case Loaded(more, open) =>
        resolved := resolved + more;
        unresolved := unresolved + open;
    }
    assert loads[..|loads|] == loads;
    var unsupported := exists l :: l in loads && (l.command == IocshLoad || l.command == DbLoadTemplate);
    var complete :=
      resolved != {} && missing == multiset{} && ambiguous == multiset{} && unresolved == {} && !unsupported;
    CompleteIff(loads, env, tree);
    r := IocDbResult(resolved, unresolved, complete, missing, ambiguous, unsupported);
    walks := index.walks;
  }

  lemma NothingLoaded(env: Macros, tree: Tree)
    ensures AllResolved([], env, tree) == {} && AllUnresolved([], env, tree) == {}
    ensures TargetsWith([], Missing, env, tree) == multiset{} && TargetsWith([], Ambiguous, env, tree) == multiset{}
  {
  }

  lemma OneMoreLoad(loads: seq<Load>, i: nat, env: Macros, tree: Tree)
    requires i < |loads|
    ensures var o := OutcomeOf(loads[i], env, tree);
            var front, next := loads[..i], loads[..i + 1];
            && AllResolved(next, env, tree) == AllResolved(front, env, tree) + (if o.Loaded? then o.resolved else {})
            && AllUnresolved(next, env, tree)
               == AllUnresolved(front, env, tree) + (if o.Loaded? then o.unresolved else {})
            && TargetsWith(next, Missing, env, tree)
               == (if o == Missing then TargetsWith(front, Missing, env, tree) + multiset{loads[i].target}
                   else TargetsWith(front, Missing, env, tree))
            && TargetsWith(next, Ambiguous, env, tree)
               == (if o == Ambiguous then TargetsWith(front, Ambiguous, env, tree) + multiset{loads[i].target}
                   else TargetsWith(front, Ambiguous, env, tree))
            && (forall l :: l in next <==> l in front || l == loads[i])
  {
    hide OutcomeOf;
    assert loads[..i + 1] == loads[..i] + [loads[i]];
    assert loads[..i + 1][..i] == loads[..i];
  }

  lemma {:induction false} NoTargetsIff(loads: seq<Load>, o: Outcome, env: Macros, tree: Tree)
    ensures TargetsWith(loads, o, env, tree) == multiset{} <==> forall l :: l in loads ==> OutcomeOf(l, env, tree) != o
  {
    hide OutcomeOf;
    if loads != [] {
      NoTargetsIff(loads[..|loads| - 1], o, env, tree);
      assert loads == loads[..|loads| - 1] + [loads[|loads| - 1]];
    }
  }

  /** The four counts the code consults say together that every load was followed. */
  lemma CompleteIff(loads: seq<Load>, env: Macros, tree: Tree)
    ensures (&& TargetsWith(loads, Missing, env, tree) == multiset{}
             && TargetsWith(loads, Ambiguous, env, tree) == multiset{}
             && AllUnresolved(loads, env, tree) == {}
             && !exists l :: l in loads && l.command != DbLoadRecords)
       <==> forall l :: l in loads ==> Followed(l, env, tree)
  {
    NoTargetsIff(loads, Missing, env, tree);
    NoTargetsIff(loads, Ambiguous, env, tree);
    NothingOpenIff(loads, env, tree);
    hide TargetsWith, AllUnresolved;
    forall l | l in loads
      ensures OutcomeOf(l, env, tree) == Skipped <==> !IsDbLoad(l)
    {
      hide Ground, Matches, FileAt;
    }
    hide OutcomeOf, EndsWith;
  }

  lemma NothingOpenIff(loads: seq<Load>, env: Macros, tree: Tree)
    ensures AllUnresolved(loads, env, tree) == {}
       <==> forall l :: l in loads && OutcomeOf(l, env, tree).Loaded? ==> OutcomeOf(l, env, tree).unresolved == {}
  {
    hide OutcomeOf;
    forall l, n | l in loads && OutcomeOf(l, env, tree).Loaded? && n in OutcomeOf(l, env, tree).unresolved
      ensures n in AllUnresolved(loads, env, tree)
    {
    }
  }

  /** What a set flag is worth, load by load. */
  lemma FollowedMeans(load: Load, env: Macros, tree: Tree)
    requires Followed(load, env, tree) && IsDbLoad(load)
    ensures Ground(load.target, env)
    ensures exists p, raw ::
              && Matches(Expanded(load.target, env), tree) == {p}
              && p in tree.files && tree.files[p] == Readable(raw)
              && (forall n :: n in raw ==> Ground(n, env + load.macros))
              && OutcomeOf(load, env, tree).resolved == ResolvedNames(raw, env + load.macros)
  {
    hide Expanded, HasMacroRef;
    var matches := Matches(Expanded(load.target, env), tree);
    var raw := FileAt(matches, tree).rawNames;
    OneElement(matches);
    var p :| p in matches;
    assert matches == {p};
    forall n | n in raw && !Ground(n, env + load.macros)
      ensures Expanded(n, env + load.macros) in UnresolvedNames(raw, env + load.macros)
    {
    }
  }

  /** A database load whose target does not end in `.db` is dropped without a trace: neither the
      names nor the flag can tell that it was ever there. */
  lemma OtherTargetsLeaveNoTrace(loads: seq<Load>, odd: Load, env: Macros, tree: Tree)
    requires odd.command == DbLoadRecords && !EndsWith(odd.target, ".db")
    ensures AllResolved(loads + [odd], env, tree) == AllResolved(loads, env, tree)
    ensures AllUnresolved(loads + [odd], env, tree) == AllUnresolved(loads, env, tree)
    ensures (forall l :: l in loads + [odd] ==> Followed(l, env, tree))
       <==> (forall l :: l in loads ==> Followed(l, env, tree))
  {
    assert OutcomeOf(odd, env, tree) == Skipped;
    hide OutcomeOf;
    assert forall l :: l in loads + [odd] <==> l in loads || l == odd;
  }

  /** When a set flag does cover every load: exactly if every target ends in `.db`. */
  lemma CompleteCoversAllIff(loads: seq<Load>, env: Macros, tree: Tree)
    requires forall l :: l in loads ==> Followed(l, env, tree)
    ensures (forall l :: l in loads ==> OutcomeOf(l, env, tree).Loaded?)
       <==> (forall l :: l in loads ==> EndsWith(l.target, ".db"))
  {
    hide Ground, Matches, FileAt, EndsWith;
  }

  /** For instance: one database and one `dbLoadRecords` of a template. The template is never looked
      for, and the load still counts as complete. */
  lemma SkippedYetComplete()
    ensures var loads := [Load(DbLoadRecords, "a.db", map[]), Load(DbLoadRecords, "b.template", map[])];
            var tree := Tree("/r", map["/r/a.db" := "/r/a.db"], map[], map["/r/a.db" := Readable(["P:X"])]);
            && AllResolved(loads, map[], tree) == {"P:X"}
            && (forall l :: l in loads ==> Followed(l, map[], tree))
            && OutcomeOf(loads[1], map[], tree) == Skipped
  {
    hide OutcomeOf, Followed, AllResolved;
    var db, other := Load(DbLoadRecords, "a.db", map[]), Load(DbLoadRecords, "b.template", map[]);
    var tree := Tree("/r", map["/r/a.db" := "/r/a.db"], map[], map["/r/a.db" := Readable(["P:X"])]);
    assert "a.db"[1..] == ".db" && "b.template"[7..] == "ate";
    assert "a.db"[..1] == "a" && "/r" + "/" + "a.db" == "/r/a.db";
    OneFile(db, "/r/a.db", "P:X", map[], tree);
    Beside(db, other, "P:X", map[], tree);
  }

  /** A macro-free load of a file with one macro-free name. */
  lemma OneFile(db: Load, path: string, name: string, env: Macros, tree: Tree)
    requires IsDbLoad(db) && '$' !in db.target && '$' !in name
    requires Join(tree.root, db.target) in tree.direct && tree.direct[Join(tree.root, db.target)] == path
    requires path in tree.files && tree.files[path] == Readable([name])
    ensures OutcomeOf(db, env, tree) == Loaded({name}, {})
  {
    hide Join, Expanded, Ground, EndsWith;
    PlainIsGround(db.target, env);
    PlainIsGround(name, env + db.macros);
    assert ResolvedNames([name], env + db.macros) == {name} && UnresolvedNames([name], env + db.macros) == {};
  }

  lemma Beside(db: Load, other: Load, name: string, env: Macros, tree: Tree)
    requires IsDbLoad(db) && OutcomeOf(db, env, tree) == Loaded({name}, {})
    requires other.command == DbLoadRecords && !EndsWith(other.target, ".db")
    ensures AllResolved([db, other], env, tree) == {name} && OutcomeOf(other, env, tree) == Skipped
    ensures Followed(db, env, tree) && Followed(other, env, tree)
  {
    assert OutcomeOf(other, env, tree) == Skipped;
    hide OutcomeOf, EndsWith;
    assert forall l :: l in [db, other] <==> l == db || l == other;
  }

  /** A text without `$` expands to itself. */
  lemma PlainIsGround(text: string, m: Macros)
    requires '$' !in text
    ensures Expanded(text, m) == text && Ground(text, m)
  {
    NoDollars(text);
    NoDollarSettled(text, m, MAX_NAME_EXPANSION_DEPTH);
    SettledStays(text, m, MAX_NAME_EXPANSION_DEPTH, MAX_PASSES);
  }

  // ---------------------------------------------------------------------------------------
  // The loader in plain terms
  // ---------------------------------------------------------------------------------------

  /** Ten passes: with `$`-free values every text of at most ten `$` is finished, and the text of
      eleven nested defaults is not. */
  lemma TenPasses(text: string, m: Macros)
    ensures ValuesWithoutDollar(m) && Dollars(text) <= 10 ==>
              Expand(Expanded(text, m), m, MAX_NAME_EXPANSION_DEPTH) == Pass(Expanded(text, m), false)
    ensures Expanded(Text(Onion(11)), map[]) == Text(Onion(1))
  {
    hide Expand, Repeat, Onion, Print;
    if ValuesWithoutDollar(m) && Dollars(text) <= 10 {
      Converges(text, m, MAX_NAME_EXPANSION_DEPTH, MAX_PASSES);
      UnchangedIsIdentity(Expanded(text, m), m, MAX_NAME_EXPANSION_DEPTH);
    }
    BoundIsTight(11, MAX_PASSES, MAX_NAME_EXPANSION_DEPTH);
  }

  /** A name is kept as resolved or as unresolved by whether a `$(` or `${` is left in it. */
  predicate OpenerLeft(x: string) {
    Contains(x, "$(") || Contains(x, "${")
  }

  lemma OpenerLeftIs(x: string)
    ensures OpenerLeft(x) <==> HasMacroRef(x)
  {
    forall i
      ensures OccursAt(x, "$(", i) || OccursAt(x, "${", i) <==> OpensAt(x, i)
    {
      TwoAt(x, "$(", i);
      TwoAt(x, "${", i);
    }
    if HasMacroRef(x) {
      var i :| 0 <= i < |x| && OpensAt(x, i);
      assert OccursAt(x, "$(", i) || OccursAt(x, "${", i);
    }
    if OpenerLeft(x) {
      var i :| 0 <= i <= |x| && (OccursAt(x, "$(", i) || OccursAt(x, "${", i));
      assert OpensAt(x, i);
    }
  }

  lemma TwoAt(x: string, two: string, i: int)
    requires |two| == 2
    ensures OccursAt(x, two, i) <==> 0 <= i && i + 1 < |x| && x[i] == two[0] && x[i + 1] == two[1]
  {
    if 0 <= i && i + 1 < |x| {
      assert x[i..i + 2] == [x[i], x[i + 1]] && two == [two[0], two[1]];
    }
  }

  lemma NamesOfFile(rawNames: seq<string>, m: Macros, x: string)
    ensures x in ResolvedNames(rawNames, m)
       <==> (exists n :: n in rawNames && Expanded(n, m) == x) && !OpenerLeft(x)
    ensures x in UnresolvedNames(rawNames, m)
       <==> (exists n :: n in rawNames && Expanded(n, m) == x) && OpenerLeft(x)
  {
    hide Expanded, HasMacroRef, OpenerLeft;
    OpenerLeftIs(x);
  }

  lemma {:induction false} BasenameIs(dir: string, name: string)
    requires '/' !in name
    ensures Basename(dir + "/" + name) == name && Basename(name) == name
    decreases |name|
  {
    if name == "" {
      assert dir + "/" + name == dir + "/";
    } else {
      var front, last := name[..|name| - 1], name[|name| - 1];
      var path := dir + "/" + name;
      assert path[..|path| - 1] == dir + "/" + front && path[|path| - 1] == last && name == front + [last];
      BasenameIs(dir, front);
    }
  }

  /** Where a target points: itself if it begins with a slash, else below the root. */
  predicate PointsTo(target: string, root: string, path: string) {
    path == if target != "" && target[0] == '/' then target else root + "/" + target
  }

  lemma JoinPoints(target: string, root: string)
    ensures PointsTo(target, root, Join(root, target))
  {
    if target != "" {
      assert target[..1] == [target[0]];
    }
  }

  /** The direct file if there is one; else every file of the walk whose name is the part of the
      target behind its last slash. */
  lemma MatchesAre(dir: string, name: string, target: string, path: string, tree: Tree)
    requires '/' !in name && (target == name || target == dir + "/" + name)
    requires PointsTo(target, tree.root, path)
    ensures path in tree.direct ==> Matches(target, tree) == {tree.direct[path]}
    ensures path !in tree.direct ==> Matches(target, tree) == if name in tree.walk then tree.walk[name] else {}
  {
    JoinPoints(target, tree.root);
    BasenameIs(dir, name);
    hide Join, Basename;
  }

  /** A database that is not where its target points is loaded from the one place the walk knows. */
  lemma FoundBelow(dir: string, base: string, name: string, direct: string, path: string, load: Load,
                   env: Macros, tree: Tree)
    requires load.command == DbLoadRecords && load.target == dir + "/" + base && EndsWith(load.target, ".db")
    requires '/' !in base && '$' !in load.target && '$' !in name
    requires PointsTo(load.target, tree.root, direct) && direct !in tree.direct
    requires base in tree.walk && tree.walk[base] == {path}
    requires path in tree.files && tree.files[path] == Readable([name])
    ensures OutcomeOf(load, env, tree) == Loaded({name}, {})
  {
    hide OutcomeOf, Matches, Expanded, Ground, EndsWith;
    MatchesAre(dir, base, load.target, direct, tree);
    PlainIsGround(load.target, env);
    PlainIsGround(name, env + load.macros);
    NamesOfOne(name, env + load.macros);
    OneMatch(load, path, [name], env, tree);
  }

  /** For instance: `db/x.db` is not there, `x.db` is found once below, and is loaded. */
  lemma FoundByName(env: Macros)
    ensures var tree := Tree("/r", map[], map["x.db" := {"/r/m/db/x.db"}], map["/r/m/db/x.db" := Readable(["P:X"])]);
            OutcomeOf(Load(DbLoadRecords, "db/x.db", map[]), env, tree) == Loaded({"P:X"}, {})
  {
    hide OutcomeOf;
    assert "db" + "/" + "x.db" == "db/x.db" && "db/x.db"[4..] == ".db" && "/r" + "/" + "db/x.db" == "/r/db/x.db";
    FoundBelow("db", "x.db", "P:X", "/r/db/x.db", "/r/m/db/x.db", Load(DbLoadRecords, "db/x.db", map[]), env,
               Tree("/r", map[], map["x.db" := {"/r/m/db/x.db"}], map["/r/m/db/x.db" := Readable(["P:X"])]));
  }

  lemma NamesOfOne(name: string, m: Macros)
    requires Expanded(name, m) == name && Ground(name, m)
    ensures ResolvedNames([name], m) == {name} && UnresolvedNames([name], m) == {}
  {
    hide Expanded, Ground;
  }

  /** A load with one readable match yields the names of that file, under the load's own macros over
      the environment's. */
  lemma OneMatch(load: Load, path: string, raw: seq<string>, env: Macros, tree: Tree)
    requires load.command == DbLoadRecords && EndsWith(load.target, ".db") && Ground(load.target, env)
    requires Matches(Expanded(load.target, env), tree) == {path}
    requires path in tree.files && tree.files[path] == Readable(raw)
    ensures var m := env + load.macros;
            OutcomeOf(load, env, tree) == Loaded(ResolvedNames(raw, m), UnresolvedNames(raw, m))
  {
    hide Ground, Matches, Expanded, ResolvedNames, UnresolvedNames, EndsWith;
    OneElement({path});
  }

  /** Each outcome, and when it happens. */
  lemma OutcomesAre(load: Load, env: Macros, tree: Tree)
    ensures var o := OutcomeOf(load, env, tree);
            var database := load.command == DbLoadRecords && EndsWith(load.target, ".db");
            var target := Expanded(load.target, env);
            var matches := Matches(target, tree);
            && (o == Skipped <==> !database)
            && (o == Ambiguous <==> database && !OpenerLeft(target) && |matches| > 1)
            && (o.Loaded?
                <==> (database && !OpenerLeft(target)
                      && exists p, raw :: matches == {p} && p in tree.files && tree.files[p] == Readable(raw)))
  {
    var target := Expanded(load.target, env);
    var matches := Matches(target, tree);
    OpenerLeftIs(target);
    hide Expanded, HasMacroRef, Matches, EndsWith, OpenerLeft, ResolvedNames, UnresolvedNames;
    if |matches| == 1 {
      OneElement(matches);
      var p :| p in matches;
      assert matches == {p};
    }
  }

  /** A load adds no doubt exactly if it is a skipped `dbLoadRecords`, or was loaded with every name
      ground. */
  lemma FollowedIff(load: Load, env: Macros, tree: Tree)
    ensures Followed(load, env, tree)
       <==> && load.command == DbLoadRecords
            && (EndsWith(load.target, ".db") ==>
                  && !OpenerLeft(Expanded(load.target, env))
                  && exists p, raw ::
                       && Matches(Expanded(load.target, env), tree) == {p}
                       && p in tree.files && tree.files[p] == Readable(raw)
                       && forall n :: n in raw ==> !OpenerLeft(Expanded(n, env + load.macros)))
  {
    var target := Expanded(load.target, env);
    OpenerLeftIs(target);
    forall n
      ensures OpenerLeft(Expanded(n, env + load.macros)) <==> !Ground(n, env + load.macros)
    {
      hide Expanded;
      OpenerLeftIs(Expanded(n, env + load.macros));
    }
    hide Expanded, HasMacroRef, OpenerLeft, Matches, EndsWith, Ground;
    if Followed(load, env, tree) && IsDbLoad(load) {
      FollowedMeans(load, env, tree);
    } else if p, raw :| (&& Matches(target, tree) == {p} && p in tree.files && tree.files[p] == Readable(raw)
                         && forall n :: n in raw ==> Ground(n, env + load.macros)) {
      OneElement({p});
    }
  }

  /** The load's own macros win over the environment's. */
  lemma OwnMacrosWin(name: string, rest: string, load: Load, env: Macros)
    requires PlainName(name, ')') && name in load.macros && '$' !in load.macros[name] && '$' !in rest
    ensures Expanded("$(" + name + ")" + rest, env + load.macros) == load.macros[name] + rest
  {
    var m := env + load.macros;
    var v := load.macros[name] + rest;
    RoundReference(name, rest, m, MAX_NAME_EXPANSION_DEPTH);
    NoDollars(rest);
    NoDollarSettled(rest, m, MAX_NAME_EXPANSION_DEPTH);
    hide Expand, Repeat;
    NoDollars(v);
    NoDollarSettled(v, m, MAX_NAME_EXPANSION_DEPTH);
    SettlesOn("$(" + name + ")" + rest, v, m, MAX_NAME_EXPANSION_DEPTH, MAX_PASSES);
  }

  /** The directory of every required module is defined, whatever the startup script says. */
  lemma {:induction false} DirEnvIs(modules: seq<string>, root: string, required: string, stEnv: Macros)
    ensures var env := stEnv + DirEnv(modules, root);
            && (required in modules ==> required + "_DIR" in env && env[required + "_DIR"] == root + "/" + required)
            && (forall k :: k in stEnv && k !in DirEnv(modules, root) ==> env[k] == stEnv[k])
    ensures forall k :: k in DirEnv(modules, root) ==> exists d :: d in modules && k == d + "_DIR"
  {
    if modules != [] {
      var front, last := modules[..|modules| - 1], modules[|modules| - 1];
      assert modules == front + [last];
      DirEnvIs(front, root, required, stEnv);
      SameSuffix(required, last);
    }
  }

  lemma SameSuffix(a: string, b: string)
    ensures a + "_DIR" == b + "_DIR" <==> a == b
  {
    if a + "_DIR" == b + "_DIR" {
      assert (a + "_DIR")[..|a|] == a && (b + "_DIR")[..|b|] == b;
    }
  }

  lemma {:induction false} TargetsAre(loads: seq<Load>, o: Outcome, env: Macros, tree: Tree, t: string)
    ensures t in TargetsWith(loads, o, env, tree)
       <==> exists l :: l in loads && l.target == t && OutcomeOf(l, env, tree) == o
  {
    hide OutcomeOf;
    if loads != [] {
      var front, last := loads[..|loads| - 1], loads[|loads| - 1];
      assert loads == front + [last];
      TargetsAre(front, o, env, tree, t);
      assert TargetsWith(loads, o, env, tree)
          == TargetsWith(front, o, env, tree)
             + if OutcomeOf(last, env, tree) == o then multiset{last.target} else multiset{};
      hide TargetsWith;
    }
  }

  /** The tree is walked for a load exactly if its direct path leads to no file. */
  lemma FellBackIff(load: Load, path: string, env: Macros, tree: Tree)
    requires PointsTo(Expanded(load.target, env), tree.root, path)
    ensures FellBack(load, env, tree)
       <==> && load.command == DbLoadRecords && EndsWith(load.target, ".db")
            && !OpenerLeft(Expanded(load.target, env)) && path !in tree.direct
  {
    hide Expanded, HasMacroRef, OpenerLeft, EndsWith;
    OpenerLeftIs(Expanded(load.target, env));
    JoinPoints(Expanded(load.target, env), tree.root);
  }
}
