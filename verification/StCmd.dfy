/** The vote for an IOC's device prefix among the `P` macros of its startup script. */
module StCmd {
  import opened Prelude
  import opened MacroScan
  import opened IocDb

  /** A load votes with a concrete, non-empty `P`, unless it is a template load. */
  function Vote(load: Load): Option<string> {
    if "P" in load.macros && load.macros["P"] != "" && !HasMacroRef(load.macros["P"]) && load.command != DbLoadTemplate
    then Some(load.macros["P"]) else None
  }

  function Votes(loads: seq<Load>, p: string): nat {
    if loads == [] then 0
    else Votes(loads[..|loads| - 1], p) + if Vote(loads[|loads| - 1]) == Some(p) then 1 else 0
  }

  /** `a` has the larger key of negated character codes: smaller at the first difference, or, when
      one is a beginning of the other, longer. */
  predicate LargerNegKey(a: string, b: string) {
    if a == "" then false
    else if b == "" then true
    else a[0] < b[0] || (a[0] == b[0] && LargerNegKey(a[1..], b[1..]))
  }

  predicate Beats(loads: seq<Load>, p: string, q: string) {
    Votes(loads, p) > Votes(loads, q) || (Votes(loads, p) == Votes(loads, q) && LargerNegKey(p, q))
  }

  /** The winner of the vote. */
  ghost predicate Wins(loads: seq<Load>, p: string) {
    Votes(loads, p) > 0 && forall q :: Votes(loads, q) > 0 && q != p ==> Beats(loads, p, q)
  }

  method CountVotes(loads: seq<Load>) returns (counts: map<string, nat>)
    ensures forall p :: p in counts <==> Votes(loads, p) > 0
    ensures forall p :: p in counts ==> counts[p] == Votes(loads, p)
  {
    hide HasMacroRef;
    counts := map[];
    for i := 0 to |loads|
      invariant forall p :: p in counts <==> Votes(loads[..i], p) > 0
      invariant forall p :: p in counts ==> counts[p] == Votes(loads[..i], p)
    {
      assert loads[..i + 1][..i] == loads[..i];
      var v := Vote(loads[i]);
      if v.Some? {
        counts := counts[v.value := 1 + if v.value in counts then counts[v.value] else 0];
      }
    }
    assert loads[..|loads|] == loads;
  }

  /** The winner beats every other candidate: more votes, or as many and the larger key. */
  method DominantPrefix(loads: seq<Load>) returns (prefix: Option<string>)
    ensures prefix == None <==> forall p :: Votes(loads, p) == 0
    ensures prefix.Some? ==> Wins(loads, prefix.value)
  {
    hide Votes, LargerNegKey;
    var counts := CountVotes(loads);
    prefix := None;
    var todo := counts.Keys;
    while todo != {}
      invariant todo <= counts.Keys
      invariant prefix == None ==> todo == counts.Keys
      invariant prefix.Some? ==> prefix.value in counts
      invariant prefix.Some? ==>
        forall q :: q in counts.Keys - todo && q != prefix.value ==> Beats(loads, prefix.value, q)
      decreases |todo|
    {
      var p :| p in todo;
      todo := todo - {p};
      if prefix == None {
        prefix := Some(p);
      } else {
        var top := prefix.value;
        KeysAreTotal(p, top);
        if counts[p] > counts[top] || (counts[p] == counts[top] && LargerNegKey(p, top)) {
          forall q | q in counts.Keys - todo && q != p
            ensures Beats(loads, p, q)
          {
            if q != top {
              BeatsIsTransitive(loads, p, top, q);
            }
          }
          prefix := Some(p);
        }
      }
    }
    if prefix == None {
      forall p
        ensures Votes(loads, p) == 0
      {
        assert p !in counts.Keys;
      }
    } else {
      assert Votes(loads, prefix.value) > 0;
    }
  }

  lemma {:induction false} KeysAreTotal(a: string, b: string)
    ensures a == b || LargerNegKey(a, b) || LargerNegKey(b, a)
    ensures !(LargerNegKey(a, b) && LargerNegKey(b, a))
  {
    if a != "" && b != "" {
      KeysAreTotal(a[1..], b[1..]);
      if a[1..] == b[1..] && a[0] == b[0] {
        assert a == [a[0]] + a[1..] && b == [b[0]] + b[1..];
      }
    }
  }

  lemma {:induction false} KeysAreTransitive(a: string, b: string, c: string)
    requires LargerNegKey(a, b) && LargerNegKey(b, c)
    ensures LargerNegKey(a, c)
  {
    if b != "" && c != "" && a[0] == b[0] == c[0] {
      KeysAreTransitive(a[1..], b[1..], c[1..]);
    }
  }

  lemma BeatsIsTransitive(loads: seq<Load>, a: string, b: string, c: string)
    requires Beats(loads, a, b) && Beats(loads, b, c)
    ensures Beats(loads, a, c)
  {
    hide Votes, LargerNegKey;
    if Votes(loads, a) == Votes(loads, c) {
      KeysAreTransitive(a, b, c);
    }
  }

  /** The key order against the alphabetic one: they agree except on a string and its beginning. */
  lemma {:induction false} KeyOrderIs(a: string, b: string)
    ensures LargerNegKey(a, b) <==> (LexLess(a, b) && !(a <= b)) || b < a
  {
    if a != "" && b != "" {
      KeyOrderIs(a[1..], b[1..]);
      PrefixStep(a, b);
      PrefixStep(b, a);
    }
  }

  lemma PrefixStep(a: string, b: string)
    requires a != "" && b != ""
    ensures a <= b <==> a[0] == b[0] && a[1..] <= b[1..]
    ensures a < b <==> a[0] == b[0] && a[1..] < b[1..]
  {
    assert a == [a[0]] + a[1..] && b == [b[0]] + b[1..];
  }

  lemma {:induction false} LexTotal(a: string, b: string)
    ensures a == b || LexLess(a, b) || LexLess(b, a)
  {
    if a != "" && b != "" {
      LexTotal(a[1..], b[1..]);
      if a[1..] == b[1..] && a[0] == b[0] {
        assert a == [a[0]] + a[1..] && b == [b[0]] + b[1..];
      }
    }
  }

  lemma {:induction false} LexTransitive(a: string, b: string, c: string)
    requires LexLess(a, b) && LexLess(b, c)
    ensures LexLess(a, c)
  {
    if a != "" && b != "" && c != "" && a[0] == b[0] == c[0] {
      LexTransitive(a[1..], b[1..], c[1..]);
    }
  }

  lemma {:induction false} LexAsymmetric(a: string, b: string)
    requires LexLess(a, b)
    ensures !LexLess(b, a)
  {
    if a != "" && a[0] == b[0] {
      LexAsymmetric(a[1..], b[1..]);
    }
  }

  /** The candidates tied for the most votes, and the alphabetically first of them. */
  ghost predicate MostVoted(loads: seq<Load>, p: string) {
    Votes(loads, p) > 0 && forall q :: Votes(loads, q) <= Votes(loads, p)
  }

  ghost predicate FirstOfMostVoted(loads: seq<Load>, first: string) {
    MostVoted(loads, first) && forall q :: MostVoted(loads, q) && q != first ==> LexLess(first, q)
  }

  /** Ties go to the alphabetically first of the most voted candidates exactly when it is no
      beginning of another of them; the code means "first" but prefers the longer string there. */
  lemma TieWinnerIsFirstIff(loads: seq<Load>, winner: string, first: string)
    requires Wins(loads, winner) && FirstOfMostVoted(loads, first)
    ensures winner == first <==> forall q :: MostVoted(loads, q) ==> !(first < q)
  {
    hide Votes, LargerNegKey, LexLess;
    if q :| MostVoted(loads, q) && first < q {
      KeyOrderIs(q, first);
      KeysAreTotal(q, first);
      assert winner == first ==> Beats(loads, first, q);
    } else if winner != first {
      assert Beats(loads, winner, first) && MostVoted(loads, winner);
      KeyOrderIs(winner, first);
      LexAsymmetric(first, winner);
    }
  }

  /** Such a first candidate exists whenever anybody votes. */
  lemma FirstExists(loads: seq<Load>, winner: string)
    requires Wins(loads, winner)
    ensures exists first :: FirstOfMostVoted(loads, first)
  {
    hide Votes, LargerNegKey, LexLess, Vote;
    var candidates := set l | l in loads && Vote(l).Some? :: Vote(l).value;
    forall p | Votes(loads, p) > 0
      ensures p in candidates
    {
      VotersVote(loads, p);
    }
    var tied := set p | p in candidates && MostVoted(loads, p);
    assert winner in tied;
    var first := LexFirst(tied);
    assert FirstOfMostVoted(loads, first);
  }

  lemma {:induction false} VotersVote(loads: seq<Load>, p: string)
    requires Votes(loads, p) > 0
    ensures exists l :: l in loads && Vote(l) == Some(p)
  {
    hide Vote;
    var last := loads[|loads| - 1];
    if Vote(last) != Some(p) {
      VotersVote(loads[..|loads| - 1], p);
    }
  }

  lemma {:induction false} LexFirst(s: set<string>) returns (first: string)
    requires s != {}
    ensures first in s && forall q :: q in s && q != first ==> LexLess(first, q)
  {
    hide LexLess;
    var p :| p in s;
    if s == {p} {
      return p;
    }
    assert s - {p} != {};
    first := LexFirst(s - {p});
    LexTotal(p, first);
    if LexLess(p, first) {
      forall q | q in s && q != p && q != first
        ensures LexLess(p, q)
      {
        LexTransitive(p, first, q);
      }
      first := p;
    }
  }

  /** For instance: of two loads with `P=A` and `P=AB` the second names the winner, though `A` is
      the first of the two tied candidates. */
  lemma LongerWins()
    ensures var loads := [Load(DbLoadRecords, "a.db", map["P" := "A"]), Load(DbLoadRecords, "b.db", map["P" := "AB"])];
            Votes(loads, "A") == 1 && Votes(loads, "AB") == 1 && Wins(loads, "AB") && FirstOfMostVoted(loads, "A")
  {
    hide Vote, LargerNegKey, LexLess;
    var a, b := Load(DbLoadRecords, "a.db", map["P" := "A"]), Load(DbLoadRecords, "b.db", map["P" := "AB"]);
    PrefixOfTwo();
    ConcreteVotes("a.db", "A");
    ConcreteVotes("b.db", "AB");
    forall p
      ensures Votes([a, b], p) == (if p == "A" then 1 else 0) + (if p == "AB" then 1 else 0)
    {
      TwoLoads(a, b, p);
    }
  }

  lemma ConcreteVotes(target: string, p: string)
    requires p != "" && '$' !in p
    ensures Vote(Load(DbLoadRecords, target, map["P" := p])) == Some(p)
  {
  }

  lemma TwoLoads(a: Load, b: Load, p: string)
    ensures Votes([a, b], p) == (if Vote(a) == Some(p) then 1 else 0) + (if Vote(b) == Some(p) then 1 else 0)
  {
    hide Vote;
    assert [a, b][..1] == [a] && [a][..0] == [];
    assert Votes([a], p) == Votes([], p) + if Vote(a) == Some(p) then 1 else 0;
    assert Votes([a, b], p) == Votes([a], p) + if Vote(b) == Some(p) then 1 else 0;
  }

  lemma PrefixOfTwo()
    ensures "A" != "AB" && LargerNegKey("AB", "A") && LexLess("A", "AB")
  {
    assert "AB"[1..] == "B" && "A"[1..] == "";
  }

  // ---------------------------------------------------------------------------------------
  // Who votes
  // ---------------------------------------------------------------------------------------

  /** A load votes for `p` exactly if `p` is its `P` macro, not empty and without `$(` and `${`, and it
      is no template load. */
  lemma VotesFor(load: Load, p: string)
    ensures Vote(load) == Some(p)
       <==> && load.command != DbLoadTemplate && "P" in load.macros && load.macros["P"] == p
            && p != "" && !Contains(p, "$(") && !Contains(p, "${")
  {
    OpenerLeftIs(p);
    hide HasMacroRef, Contains;
  }

  /** A template load, a templated `P`, an empty one or none at all leave every count as it was. */
  lemma {:induction false} NoVoteChangesNothing(loads: seq<Load>, odd: Load, i: nat, p: string)
    requires i <= |loads|
    requires odd.command == DbLoadTemplate || "P" !in odd.macros || odd.macros["P"] == ""
          || Contains(odd.macros["P"], "$(") || Contains(odd.macros["P"], "${")
    ensures Votes(loads[..i] + [odd] + loads[i..], p) == Votes(loads, p)
    decreases |loads|
  {
    VotesFor(odd, p);
    var all := loads[..i] + [odd] + loads[i..];
    if i == |loads| {
      assert all[..|all| - 1] == loads;
    } else {
      var front, last := loads[..|loads| - 1], loads[|loads| - 1];
      assert all[..|all| - 1] == front[..i] + [odd] + front[i..] && all[|all| - 1] == last;
      NoVoteChangesNothing(front, odd, i, p);
    }
  }

  /** Nor does it change who wins. */
  lemma NoVoteNoWinner(loads: seq<Load>, odd: Load, i: nat, p: string)
    requires i <= |loads|
    requires odd.command == DbLoadTemplate || "P" !in odd.macros || odd.macros["P"] == ""
          || Contains(odd.macros["P"], "$(") || Contains(odd.macros["P"], "${")
    ensures Wins(loads[..i] + [odd] + loads[i..], p) <==> Wins(loads, p)
  {
    hide Votes, LargerNegKey, Contains;
    forall q
      ensures Votes(loads[..i] + [odd] + loads[i..], q) == Votes(loads, q)
    {
      NoVoteChangesNothing(loads, odd, i, q);
    }
  }
}
