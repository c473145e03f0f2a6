/** Name globs as the registry reads them: `*` for any stretch of a name, `?` for one character. */
module Globs {
  import opened Prelude

  predicate IsWildcard(c: char) {
    c == '*' || c == '?'
  }

  predicate WildcardFree(p: string) {
    forall i :: 0 <= i < |p| ==> !IsWildcard(p[i])
  }

  predicate Glob(p: string, n: string)
    decreases |p| + |n|
  {
    if p == "" then n == ""
    else if p[0] == '*' then Glob(p[1..], n) || (n != "" && Glob(p, n[1..]))
    else n != "" && (p[0] == '?' || p[0] == n[0]) && Glob(p[1..], n[1..])
  }

  /** What a scope asks the registry for. */
  predicate AskedFor(scope: string, n: string) {
    Glob(scope + "*", n)
  }

  lemma {:induction false} StarMatchesAll(n: string)
    ensures Glob("*", n)
    decreases |n|
  {
    if n == "" {
      assert "*"[1..] == "";
    } else {
      StarMatchesAll(n[1..]);
    }
  }

  /** One character off the scope. */
  lemma AskedStep(p: string, n: string)
    requires p != ""
    ensures AskedFor(p, n)
       <==> if p[0] == '*' then AskedFor(p[1..], n) || (n != "" && AskedFor(p, n[1..]))
            else n != "" && (p[0] == '?' || p[0] == n[0]) && AskedFor(p[1..], n[1..])
  {
    assert (p + "*")[1..] == p[1..] + "*";
  }

  lemma AskedNothing(n: string)
    ensures AskedFor("", n)
  {
    StarMatchesAll(n);
    assert "" + "*" == "*";
  }

  lemma StartStep(p: string, n: string)
    requires p != ""
    ensures StartsWith(n, p) <==> n != "" && n[0] == p[0] && StartsWith(n[1..], p[1..])
  {
    if n != "" && n[0] == p[0] && StartsWith(n[1..], p[1..]) {
      assert n == [n[0]] + n[1..] && p == [p[0]] + p[1..];
      assert n[..|p|] == [n[0]] + n[1..][..|p| - 1];
    }
  }

  /** Whatever starts with the scope is asked for, wildcards or not. */
  lemma {:induction false} PrefixIsAskedFor(p: string, n: string)
    requires StartsWith(n, p)
    ensures AskedFor(p, n)
    decreases |p|
  {
    hide AskedFor;
    if p == "" {
      AskedNothing(n);
    } else {
      StartStep(p, n);
      hide StartsWith;
      PrefixIsAskedFor(p[1..], n[1..]);
      AskedStep(p, n);
      if p[0] == '*' {
        AskedStep(p, n[1..]);
      }
    }
  }

  /** Without wildcards nothing else is. */
  lemma {:induction false} PlainScopeIsPrefix(p: string, n: string)
    requires WildcardFree(p)
    ensures AskedFor(p, n) <==> StartsWith(n, p)
    decreases |p|
  {
    hide AskedFor;
    if p == "" {
      AskedNothing(n);
    } else {
      StartStep(p, n);
      AskedStep(p, n);
      hide StartsWith;
      if n != "" {
        PlainScopeIsPrefix(p[1..], n[1..]);
      }
    }
  }

  /** The scope with a letter for every wildcard. */
  function Filled(p: string): (f: string)
    ensures |f| == |p|
    ensures forall i :: 0 <= i < |p| ==> f[i] == if IsWildcard(p[i]) then 'E' else p[i]
  {
    if p == "" then "" else [if IsWildcard(p[0]) then 'E' else p[0]] + Filled(p[1..])
  }

  lemma {:induction false} FilledIsAskedFor(p: string)
    ensures AskedFor(p, Filled(p))
  {
    hide AskedFor;
    if p == "" {
      AskedNothing("");
    } else {
      FilledIsAskedFor(p[1..]);
      var f := Filled(p);
      assert f[1..] == Filled(p[1..]);
      AskedStep(p, f);
      if p[0] == '*' {
        AskedStep(p, f[1..]);
      }
    }
  }
}
