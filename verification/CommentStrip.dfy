/**
  Cutting a `#` comment from one line. The loop counts the backslashes before each quote; the
  automaton below reads the line once and carries one parity bit instead.
 */
module CommentStrip {

  /** Length of the run of backslashes that ends just before `i`. */
  function Run(line: string, i: nat): nat
    requires i <= |line|
  {
    if i > 0 && line[i - 1] == '\\' then 1 + Run(line, i - 1) else 0
  }

  /** Inside a quoted string just before `i`: an odd number of unescaped quotes lies behind. */
  predicate Quoted(line: string, i: nat)
    requires i <= |line|
  {
    i > 0 && if line[i - 1] == '"' && Run(line, i - 1) % 2 == 0 then !Quoted(line, i - 1) else Quoted(line, i - 1)
  }

  predicate CommentAt(line: string, i: nat)
    requires i <= |line|
  {
    i < |line| && line[i] == '#' && !Quoted(line, i)
  }

  /** The cut falls at the first `#` outside quotes, or at the end of the line. */
  predicate IsCut(line: string, k: nat) {
    && k <= |line|
    && (k < |line| ==> CommentAt(line, k))
    && (forall i :: 0 <= i < k ==> !CommentAt(line, i))
  }

  method StripLineComment(line: string) returns (kept: string)
    ensures IsCut(line, |kept|) && kept == line[..|kept|]
  {
    var inQuote := false;
    var index := 0;
    while index < |line|
      invariant index <= |line|
      invariant inQuote == Quoted(line, index)
      invariant forall i :: 0 <= i < index ==> !CommentAt(line, i)
    {
      if line[index] == '"' {
        var backslashes := 0;
        var probe := index - 1;
        while probe >= 0 && line[probe] == '\\'
          invariant -1 <= probe < index
          invariant backslashes == index - 1 - probe
          invariant Run(line, index) == backslashes + Run(line, probe + 1)
        {
          backslashes := backslashes + 1;
          probe := probe - 1;
        }
        if backslashes % 2 == 0 {
          inQuote := !inQuote;
        }
      } else if line[index] == '#' && !inQuote {
        return line[..index];
      }
      index := index + 1;
    }
    return line[..index];
  }

  /** One left-to-right reading with two bits: in a quote, and after an odd backslash run. */
  function Strip(rest: string, quoted: bool, odd: bool): (kept: string)
    ensures kept <= rest
  {
    if rest == "" then ""
    else if rest[0] == '#' && !quoted then ""
    else
      var toggles := rest[0] == '"' && !odd;
      [rest[0]] + Strip(rest[1..], quoted != toggles, rest[0] == '\\' && !odd)
  }

  /** Where the automaton cuts the rest of the line from `i` on. */
  function CutFrom(line: string, i: nat): (k: nat)
    requires i <= |line|
    ensures k <= |line|
  {
    i + |Strip(line[i..], Quoted(line, i), Run(line, i) % 2 == 1)|
  }

  lemma CutStep(line: string, i: nat)
    requires i < |line|
    ensures CommentAt(line, i) ==> CutFrom(line, i) == i
    ensures !CommentAt(line, i) ==> CutFrom(line, i) == CutFrom(line, i + 1)
  {
    assert line[i..][1..] == line[i + 1..];
  }

  lemma {:induction false} AutomatonFrom(line: string, i: nat)
    requires i <= |line|
    ensures i <= CutFrom(line, i) && (CutFrom(line, i) < |line| ==> CommentAt(line, CutFrom(line, i)))
    ensures forall j :: i <= j < CutFrom(line, i) ==> !CommentAt(line, j)
    decreases |line| - i
  {
    hide CommentAt;
    if i < |line| {
      CutStep(line, i);
      if !CommentAt(line, i) {
        AutomatonFrom(line, i + 1);
      }
    }
  }

  lemma CutUnique(line: string, a: nat, b: nat)
    requires IsCut(line, a) && IsCut(line, b)
    ensures a == b
  {
  }

  /** The backward run count and the one-bit automaton cut every line at the same place. */
  lemma AutomatonAgrees(line: string, kept: string)
    requires IsCut(line, |kept|) && kept == line[..|kept|]
    ensures kept == Strip(line, false, false)
  {
    AutomatonFrom(line, 0);
    assert line[0..] == line;
    CutUnique(line, |Strip(line, false, false)|, |kept|);
  }

  /** Stripping twice is stripping once. */
  lemma {:induction false} StripIdempotent(rest: string, quoted: bool, odd: bool)
    ensures Strip(Strip(rest, quoted, odd), quoted, odd) == Strip(rest, quoted, odd)
  {
    if rest != "" && !(rest[0] == '#' && !quoted) {
      var toggles := rest[0] == '"' && !odd;
      StripIdempotent(rest[1..], quoted != toggles, rest[0] == '\\' && !odd);
      var tail := Strip(rest[1..], quoted != toggles, rest[0] == '\\' && !odd);
      assert ([rest[0]] + tail)[1..] == tail;
    }
  }

  // ---------------------------------------------------------------------------------------
  // The cut in plain terms
  // ---------------------------------------------------------------------------------------

  /** No quote and no backslash. */
  predicate Ordinary(s: string) {
    '"' !in s && '\\' !in s
  }

  lemma {:induction false} ReadOn(s: string, rest: string, quoted: bool)
    requires Ordinary(s) && (!quoted ==> '#' !in s)
    ensures Strip(s + rest, quoted, false) == s + Strip(rest, quoted, false)
  {
    if s == "" {
      assert s + rest == rest;
    } else {
      assert (s + rest)[1..] == s[1..] + rest && s == [s[0]] + s[1..];
      ReadOn(s[1..], rest, quoted);
      assert Strip(s + rest, quoted, false) == [s[0]] + Strip(s[1..] + rest, quoted, false);
    }
  }

  /** A `#` behind ordinary text starts the comment. */
  lemma HashCuts(a: string, comment: string)
    requires Ordinary(a) && '#' !in a
    ensures Strip(a + "#" + comment, false, false) == a
  {
    assert a + "#" + comment == a + ("#" + comment);
    ReadOn(a, "#" + comment, false);
  }

  lemma Quotes(rest: string, quoted: bool)
    ensures Strip("\"" + rest, quoted, false) == "\"" + Strip(rest, !quoted, false)
    ensures Strip("\\\"" + rest, true, false) == "\\\"" + Strip(rest, true, false)
  {
    assert ("\"" + rest)[1..] == rest;
    assert ("\\\"" + rest)[1..] == "\"" + rest;
    assert Strip("\"" + rest, true, true) == "\"" + Strip(rest, true, false);
  }

  /** Between double quotes a `#` stays, and a quote behind a backslash ends nothing. */
  lemma QuotedStays(a: string, q: string, p: string, rest: string)
    requires Ordinary(a) && '#' !in a && Ordinary(q) && Ordinary(p)
    ensures var front := a + "\"" + q + "\\\"" + p + "\"";
            Strip(front + rest, false, false) == front + Strip(rest, false, false)
  {
    hide Strip, Ordinary;
    var r3 := "\"" + rest;
    var r2 := "\\\"" + (p + r3);
    var r1 := "\"" + (q + r2);
    assert a + "\"" + q + "\\\"" + p + "\"" + rest == a + r1;
    ReadOn(a, r1, false);
    Quotes(q + r2, false);
    ReadOn(q, r2, true);
    Quotes(p + r3, true);
    ReadOn(p, r3, true);
    Quotes(rest, true);
  }
}
