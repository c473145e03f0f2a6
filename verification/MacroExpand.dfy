/**
  One expansion pass over a text, the name expansion nested inside it, and the driver that
  repeats passes. `Expand` is the meaning of a pass as a left-to-right sequence of tokens; the
  methods are the loops that compute it.
 */
module MacroExpand {
  import opened Prelude
  import opened MacroScan
  import opened MacroTree

  type Macros = map<string, string>

  /** The bound on nested name expansion, and on the passes spent on one name. */
  const MAX_NAME_EXPANSION_DEPTH: nat := 32

  datatype Pass = Pass(text: string, changed: bool)

  function Join(a: Pass, b: Pass): Pass {
    Pass(a.text + b.text, a.changed || b.changed)
  }

  predicate ReferenceAhead(text: string) {
    OpensAt(text, 0) && Close(text[2..], [CloserOf(text[1])]) >= 0
  }

  /** A token is one closed reference, or else one character (an unclosed opener included). */
  function TokenLength(text: string): (n: nat)
    requires text != ""
    ensures 1 <= n <= |text|
    ensures n == 1 || n >= 3
  {
    if ReferenceAhead(text) then Close(text[2..], [CloserOf(text[1])]) + 3 else 1
  }

  /** One pass; `depth` is the number of name levels that may still be entered. */
  function Expand(text: string, m: Macros, depth: nat): Pass
    decreases depth, 0, |text|, 1
  {
    if text == "" then Pass("", false)
    else
      var n := TokenLength(text);
      Join(Token(text[..n], m, depth), Expand(text[n..], m, depth))
  }

  function Token(token: string, m: Macros, depth: nat): Pass
    decreases depth, 0, |token|, 0
  {
    if |token| < 3 then Pass(token, false)
    else
      var (name, rest) := Split(token[2..|token| - 1]);
      if !HasMacroRef(name) then Lookup(token, name, rest, m)
      else if depth == 0 then Pass(token, false)
      else
        var key := Repeat(name, m, depth - 1, MAX_NAME_EXPANSION_DEPTH);
        if HasMacroRef(key) then Pass(token, false) else Lookup(token, key, rest, m)
  }

  function Lookup(token: string, name: string, rest: string, m: Macros): Pass {
    if name in m then Pass(m[name], true)
    else if Default(rest).Some? then Pass(Default(rest).value, true)
    else Pass(token, false)
  }

  /** At most `rounds` passes, stopping after the first that changes nothing. */
  function Repeat(text: string, m: Macros, depth: nat, rounds: nat): string
    decreases depth, 1, rounds
  {
    if rounds == 0 then text
    else
      var p := Expand(text, m, depth);
      if p.changed then Repeat(p.text, m, depth, rounds - 1) else p.text
  }

  /** Name levels left below a given nesting level. */
  function Left(nameDepth: nat): nat {
    if nameDepth >= MAX_NAME_EXPANSION_DEPTH then 0 else MAX_NAME_EXPANSION_DEPTH - nameDepth
  }

  method ExpandOnce(text: string, macros: Macros, nameDepth: nat) returns (expanded: string, changed: bool)
    ensures Pass(expanded, changed) == Expand(text, macros, Left(nameDepth))
    decreases Left(nameDepth)
  {
    hide Expand, Token;
    var out := "";
    var index := 0;
    changed := false;
    ghost var depth := Left(nameDepth);
    assert text[0..] == text;
    while index < |text|
      invariant index <= |text|
      invariant Expand(text, macros, depth) == Join(Pass(out, changed), Expand(text[index..], macros, depth))
    {
      if !OpensAt(text, index) {
        LiteralStep(text, index, macros, depth, Pass(out, changed));
        out := out + [text[index]];
        index := index + 1;
        continue;
      }
      var end := FindClosingBracket(text, index);
      ReferenceAt(text, index);
      if end == -1 {
        LiteralStep(text, index, macros, depth, Pass(out, changed));
        out := out + [text[index]];
        index := index + 1;
        continue;
      }
      var piece, hit := ExpandReference(text[index..end + 1], macros, nameDepth);
      ReferenceStep(text, index, end + 1, macros, depth, Pass(out, changed));
      out := out + piece;
      changed := changed || hit;
      index := end + 1;
    }
    assert text[index..] == "" && out + "" == out;
    ExpandEmpty(macros, depth);
    expanded := out;
  }

  lemma ExpandEmpty(m: Macros, depth: nat)
    ensures Expand("", m, depth) == Pass("", false)
  {
  }

  lemma ReferenceAt(text: string, index: nat)
    requires OpensAt(text, index)
    ensures OpensAt(text[index..], 0) && text[index..][1] == text[index + 1]
    ensures Close(text[index..][2..], [CloserOf(text[index + 1])])
         == Close(text[index + 2..], [CloserOf(text[index + 1])])
  {
    assert text[index..][2..] == text[index + 2..];
  }

  lemma LiteralStep(text: string, index: nat, m: Macros, depth: nat, before: Pass)
    requires index < |text| && !ReferenceAhead(text[index..])
    ensures Join(before, Expand(text[index..], m, depth))
         == Join(Pass(before.text + [text[index]], before.changed), Expand(text[index + 1..], m, depth))
  {
    var ahead := text[index..];
    assert ahead[..1] == [text[index]] && ahead[1..] == text[index + 1..];
    JoinAssoc(before, Pass([text[index]], false), Expand(text[index + 1..], m, depth));
  }

  lemma ReferenceStep(text: string, index: nat, end: nat, m: Macros, depth: nat, before: Pass)
    requires index < end <= |text| && ReferenceAhead(text[index..])
    requires TokenLength(text[index..]) == end - index
    ensures Join(before, Expand(text[index..], m, depth))
         == Join(Join(before, Token(text[index..end], m, depth)), Expand(text[end..], m, depth))
  {
    var ahead := text[index..];
    assert ahead[..end - index] == text[index..end] && ahead[end - index..] == text[end..];
    JoinAssoc(before, Token(text[index..end], m, depth), Expand(text[end..], m, depth));
  }

  /** The part of the pass that deals with one closed reference. */
  method ExpandReference(token: string, macros: Macros, nameDepth: nat) returns (piece: string, changed: bool)
    requires |token| >= 3
    ensures Pass(piece, changed) == Token(token, macros, Left(nameDepth))
    decreases Left(nameDepth), 1
  {
    hide HasMacroRef, Repeat, Split, Default;
    var name, rest := SplitBody(token[2..|token| - 1]);
    if HasMacroRef(name) {
      if nameDepth >= MAX_NAME_EXPANSION_DEPTH {
        return token, false;
      }
      var expandedName := ExpandName(name, macros, nameDepth);
      if HasMacroRef(expandedName) {
        return token, false;
      }
      name := expandedName;
    }
    var default := DefaultFromRest(rest);
    if name in macros {
      return macros[name], true;
    } else if default != None {
      return default.value, true;
    } else {
      return token, false;
    }
  }

  /** The passes spent on a name, one name level further in. */
  method ExpandName(name: string, macros: Macros, nameDepth: nat) returns (expandedName: string)
    requires nameDepth < MAX_NAME_EXPANSION_DEPTH
    ensures expandedName == Repeat(name, macros, Left(nameDepth) - 1, MAX_NAME_EXPANSION_DEPTH)
    decreases Left(nameDepth), 0
  {
    hide Expand;
    expandedName := name;
    var rounds := 0;
    while rounds < MAX_NAME_EXPANSION_DEPTH
      invariant rounds <= MAX_NAME_EXPANSION_DEPTH
      invariant Repeat(name, macros, Left(nameDepth) - 1, MAX_NAME_EXPANSION_DEPTH)
             == Repeat(expandedName, macros, Left(nameDepth) - 1, MAX_NAME_EXPANSION_DEPTH - rounds)
    {
      var innerChanged: bool;
      ghost var before := expandedName;
      expandedName, innerChanged := ExpandOnce(expandedName, macros, nameDepth + 1);
      rounds := rounds + 1;
      if !innerChanged {
        UnchangedIsIdentity(before, macros, Left(nameDepth) - 1);
        SettledStays(before, macros, Left(nameDepth) - 1, MAX_NAME_EXPANSION_DEPTH - rounds);
        break;
      }
    }
  }

  /** The driver. */
  method Substitute(text: string, macros: Macros, maxDepth: nat) returns (result: string)
    ensures result == Repeat(text, macros, MAX_NAME_EXPANSION_DEPTH, maxDepth)
  {
    result := text;
    var rounds := 0;
    while rounds < maxDepth
      invariant rounds <= maxDepth
      invariant Repeat(text, macros, MAX_NAME_EXPANSION_DEPTH, maxDepth)
             == Repeat(result, macros, MAX_NAME_EXPANSION_DEPTH, maxDepth - rounds)
    {
      var changed: bool;
      ghost var before := result;
      result, changed := ExpandOnce(result, macros, 0);
      rounds := rounds + 1;
      if !changed {
        UnchangedIsIdentity(before, macros, MAX_NAME_EXPANSION_DEPTH);
        SettledStays(before, macros, MAX_NAME_EXPANSION_DEPTH, maxDepth - rounds);
        break;
      }
    }
  }

  lemma JoinAssoc(a: Pass, b: Pass, c: Pass)
    ensures Join(a, Join(b, c)) == Join(Join(a, b), c)
  {
  }

  // ---------------------------------------------------------------------------------------
  // A pass that reports no change, and what stopping means
  // ---------------------------------------------------------------------------------------

  lemma UnchangedToken(token: string, m: Macros, depth: nat)
    requires !Token(token, m, depth).changed
    ensures Token(token, m, depth).text == token
  {
    hide Split, Default, Repeat;
  }

  /** A pass reporting no change returns its input exactly, whatever it tried on the way. */
  lemma {:induction false} UnchangedIsIdentity(text: string, m: Macros, depth: nat)
    requires !Expand(text, m, depth).changed
    ensures Expand(text, m, depth).text == text
    decreases |text|
  {
    hide Token, TokenLength;
    if text != "" {
      var n := TokenLength(text);
      UnchangedToken(text[..n], m, depth);
      UnchangedIsIdentity(text[n..], m, depth);
      assert text == text[..n] + text[n..];
    }
  }

  /** A settled text is a fixpoint of the driver at every bound. */
  lemma SettledStays(text: string, m: Macros, depth: nat, rounds: nat)
    requires !Expand(text, m, depth).changed
    ensures Repeat(text, m, depth, rounds) == text
  {
    UnchangedIsIdentity(text, m, depth);
  }

  /** The driver left its loop by `break`: some pass within the bound changed nothing. */
  predicate StopsWithin(text: string, m: Macros, depth: nat, rounds: nat)
    decreases rounds
  {
    rounds > 0 && (
      var p := Expand(text, m, depth);
      !p.changed || StopsWithin(p.text, m, depth, rounds - 1))
  }

  /** The result is a fixpoint of the pass exactly when one more round would have stopped. */
  lemma {:induction false} FixpointIffStops(text: string, m: Macros, depth: nat, rounds: nat)
    ensures !Expand(Repeat(text, m, depth, rounds), m, depth).changed
        <==> StopsWithin(text, m, depth, rounds + 1)
    decreases rounds
  {
    hide Expand;
    var p := Expand(text, m, depth);
    if !p.changed {
      SettledStays(text, m, depth, rounds);
    } else if rounds > 0 {
      FixpointIffStops(p.text, m, depth, rounds - 1);
    }
  }

  /** Once the driver has stopped, running it again, or with a larger bound, changes nothing. */
  lemma {:induction false} StoppedIsIdempotent(text: string, m: Macros, depth: nat, rounds: nat, more: nat)
    requires StopsWithin(text, m, depth, rounds)
    ensures Repeat(Repeat(text, m, depth, rounds), m, depth, more) == Repeat(text, m, depth, rounds)
    ensures Repeat(text, m, depth, rounds + more) == Repeat(text, m, depth, rounds)
    ensures !Expand(Repeat(text, m, depth, rounds), m, depth).changed
    decreases rounds
  {
    var p := Expand(text, m, depth);
    if !p.changed {
      UnchangedIsIdentity(text, m, depth);
      SettledStays(text, m, depth, more);
    } else {
      StoppedIsIdempotent(p.text, m, depth, rounds - 1, more);
    }
  }

  // ---------------------------------------------------------------------------------------
  // Composition
  // ---------------------------------------------------------------------------------------

  /** No reference of `a` is left open and `a` does not end in a loose `$`. */
  predicate Sealed(a: string)
    decreases |a|
  {
    a == "" || (
      && (OpensAt(a, 0) ==> ReferenceAhead(a))
      && a != "$"
      && Sealed(a[TokenLength(a)..]))
  }

  /** A pass over a sealed text and a continuation is the two passes side by side. */
  lemma {:induction false} PassComposes(a: string, b: string, m: Macros, depth: nat)
    requires Sealed(a)
    ensures Expand(a + b, m, depth) == Join(Expand(a, m, depth), Expand(b, m, depth))
    decreases |a|
  {
    if a == "" {
      assert a + b == b;
    } else {
      var n := TokenLength(a);
      SameToken(a, b);
      assert (a + b)[..n] == a[..n] && (a + b)[n..] == a[n..] + b;
      PassComposes(a[n..], b, m, depth);
      JoinAssoc(Token(a[..n], m, depth), Expand(a[n..], m, depth), Expand(b, m, depth));
    }
  }

  lemma SameToken(a: string, b: string)
    requires a != "" && a != "$" && (OpensAt(a, 0) ==> ReferenceAhead(a))
    ensures TokenLength(a + b) == TokenLength(a)
  {
    if OpensAt(a, 0) {
      assert (a + b)[2..] == a[2..] + b;
      CloseIgnoresSuffix(a[2..], b, [CloserOf(a[1])]);
    } else {
      assert !OpensAt(a + b, 0);
    }
  }

  // ---------------------------------------------------------------------------------------
  // Meaning of a reference
  // ---------------------------------------------------------------------------------------

  /** The key a reference looks up, or nothing when its name cannot be computed. */
  function Key(r: Reference, m: Macros, depth: nat): Option<string> {
    if !HasNest(r.name) then Some(Text(r.name))
    else if depth == 0 then None
    else
      var key := Repeat(Text(r.name), m, depth - 1, MAX_NAME_EXPANSION_DEPTH);
      if HasMacroRef(key) then None else Some(key)
  }

  /** Macro value if defined, else default, else the reference itself. */
  function Meaning(r: Reference, m: Macros, depth: nat): Pass {
    var key := Key(r, m, depth);
    if key.None? then Pass(PrintReference(r, ""), false)
    else if key.value in m then Pass(m[key.value], true)
    else if r.default.Some? then Pass(Text(r.default.value), true)
    else Pass(PrintReference(r, ""), false)
  }

  /** A printed reference is replaced by its meaning and the pass goes on behind it. */
  lemma ReferenceMeans(r: Reference, suffix: string, m: Macros, depth: nat)
    requires WfReference(r)
    ensures Expand(PrintReference(r, suffix), m, depth) == Join(Meaning(r, m, depth), Expand(suffix, m, depth))
  {
    var token := PrintReference(r, "");
    ScanPrinted(r, suffix);
    ReferenceAppend(r, suffix);
    assert TokenLength(PrintReference(r, suffix)) == |token|;
    TokenMeans(r, m, depth);
  }

  lemma TokenMeans(r: Reference, m: Macros, depth: nat)
    requires WfReference(r)
    ensures Token(PrintReference(r, ""), m, depth) == Meaning(r, m, depth)
  {
    hide Split, Default, Repeat, Print, PrintBody, PrintRest, HasMacroRef;
    var token := PrintReference(r, "");
    ReferenceBody(r);
    ScanPrinted(r, "");
    NestShows(r.name, Some(CloserOf(r.open)));
  }

  /** The tokens a pass sees: a plain character, or a whole reference. */
  datatype Tok = Char(c: char) | Ref(r: Reference)

  function ReferenceAtStart(text: string): Reference
    requires ReferenceAhead(text)
  {
    ReferenceOf(text[1], Build(text[2..], CloserOf(text[1])))
  }

  function Tokens(text: string): seq<Tok> {
    if text == "" then []
    else
      var n := TokenLength(text);
      [if ReferenceAhead(text) then Ref(ReferenceAtStart(text)) else Char(text[0])] + Tokens(text[n..])
  }

  function TokText(t: Tok): string {
    match t case Char(c) => [c] case Ref(r) => PrintReference(r, "")
  }

  function TokMeaning(t: Tok, m: Macros, depth: nat): Pass {
    match t case Char(c) => Pass([c], false) case Ref(r) => Meaning(r, m, depth)
  }

  function AllText(ts: seq<Tok>): string {
    if ts == [] then "" else TokText(ts[0]) + AllText(ts[1..])
  }

  function AllMeaning(ts: seq<Tok>, m: Macros, depth: nat): Pass {
    if ts == [] then Pass("", false) else Join(TokMeaning(ts[0], m, depth), AllMeaning(ts[1..], m, depth))
  }

  predicate AllWf(ts: seq<Tok>) {
    forall i :: 0 <= i < |ts| && ts[i].Ref? ==> WfReference(ts[i].r)
  }

  lemma FirstToken(text: string, m: Macros, depth: nat)
    requires text != ""
    ensures var t, n := Tokens(text)[0], TokenLength(text);
            && TokText(t) == text[..n] && (t.Ref? ==> WfReference(t.r))
            && Token(text[..n], m, depth) == TokMeaning(t, m, depth)
  {
    hide Close, Build, Meaning, Token, Split, Default;
    if ReferenceAhead(text) {
      AcceptedIsPrinted(text);
      TokenMeans(ReferenceAtStart(text), m, depth);
    } else {
      PlainToken(text[0], m, depth);
      assert text[..1] == [text[0]];
    }
  }

  lemma PlainToken(c: char, m: Macros, depth: nat)
    ensures Token([c], m, depth) == Pass([c], false)
  {
  }

  /** Every text is a string of characters and well-formed references, and one pass over it is
      the string of their meanings. */
  lemma {:induction false} PassIsTokenwise(text: string, m: Macros, depth: nat)
    ensures AllText(Tokens(text)) == text && AllWf(Tokens(text))
    ensures Expand(text, m, depth) == AllMeaning(Tokens(text), m, depth)
    decreases |text|
  {
    hide Token, TokMeaning, TokText, ReferenceAhead, TokenLength, WfReference;
    if text != "" {
      var n := TokenLength(text);
      FirstToken(text, m, depth);
      PassIsTokenwise(text[n..], m, depth);
      assert text == text[..n] + text[n..];
      assert Tokens(text)[1..] == Tokens(text[n..]);
    }
  }

  // ---------------------------------------------------------------------------------------
  // Convergence
  // ---------------------------------------------------------------------------------------

  function Dollars(s: string): nat {
    if s == "" then 0 else (if s[0] == '$' then 1 else 0) + Dollars(s[1..])
  }

  predicate ValuesWithoutDollar(m: Macros) {
    forall k :: k in m ==> '$' !in m[k]
  }

  lemma {:induction false} DollarsAdd(a: string, b: string)
    ensures Dollars(a + b) == Dollars(a) + Dollars(b)
  {
    if a == "" {
      assert a + b == b;
    } else {
      assert (a + b)[1..] == a[1..] + b;
      DollarsAdd(a[1..], b);
    }
  }

  lemma {:induction false} NoDollars(s: string)
    ensures Dollars(s) == 0 <==> '$' !in s
  {
    if s != "" {
      NoDollars(s[1..]);
      assert s == [s[0]] + s[1..];
    }
  }

  lemma LookupDrops(token: string, name: string, rest: string, m: Macros)
    requires ValuesWithoutDollar(m) && Dollars(rest) < Dollars(token)
    requires Lookup(token, name, rest, m).changed
    ensures Dollars(Lookup(token, name, rest, m).text) < Dollars(token)
  {
    hide FirstTop;
    if name in m {
      NoDollars(m[name]);
    } else {
      var d := Default(rest).value;
      assert rest == "=" + d + rest[1 + |d|..];
      DollarsAdd("=", d);
      DollarsAdd("=" + d, rest[1 + |d|..]);
    }
  }

  lemma TokenParts(token: string)
    requires |token| >= 3
    ensures token == token[..2] + (token[2..|token| - 1] + token[|token| - 1..])
  {
  }

  lemma RestHasFewer(token: string)
    requires |token| >= 3 && token[0] == '$'
    ensures Dollars(Split(token[2..|token| - 1]).1) < Dollars(token)
  {
    var body, last := token[2..|token| - 1], token[|token| - 1..];
    var (name, rest) := Split(body);
    assert Dollars(token[..2]) >= 1;
    hide Dollars, FirstTop, Split;
    TokenParts(token);
    DollarsAdd(token[..2], body + last);
    DollarsAdd(body, last);
    SplitAdds(body);
  }

  lemma SplitAdds(body: string)
    ensures Dollars(body) == Dollars(Split(body).0) + Dollars(Split(body).1)
  {
    hide FirstTop;
    DollarsAdd(Split(body).0, Split(body).1);
  }

  lemma TokenKind(text: string)
    requires text != ""
    ensures TokenLength(text) == 1 || text[0] == '$'
  {
  }

  lemma TokenDrops(token: string, m: Macros, depth: nat)
    requires ValuesWithoutDollar(m) && (|token| == 1 || (|token| >= 3 && token[0] == '$'))
    requires Token(token, m, depth).changed
    ensures Dollars(Token(token, m, depth).text) < Dollars(token)
  {
    var (name, rest) := Split(token[2..|token| - 1]);
    RestHasFewer(token);
    if HasMacroRef(name) {
      LookupDrops(token, Repeat(name, m, depth - 1, MAX_NAME_EXPANSION_DEPTH), rest, m);
    } else {
      LookupDrops(token, name, rest, m);
    }
  }

  /** With `$`-free macro values a pass never adds a `$`, and a changing pass removes one. */
  lemma {:induction false} PassDropsDollars(text: string, m: Macros, depth: nat)
    requires ValuesWithoutDollar(m)
    ensures Dollars(Expand(text, m, depth).text) <= Dollars(text)
    ensures Expand(text, m, depth).changed ==> Dollars(Expand(text, m, depth).text) < Dollars(text)
    decreases |text|
  {
    hide Token, TokenLength, Dollars;
    if text != "" {
      var n := TokenLength(text);
      TokenKind(text);
      PassDropsDollars(text[n..], m, depth);
      assert text == text[..n] + text[n..];
      DollarsAdd(text[..n], text[n..]);
      DollarsAdd(Token(text[..n], m, depth).text, Expand(text[n..], m, depth).text);
      if Token(text[..n], m, depth).changed {
        TokenDrops(text[..n], m, depth);
      } else {
        UnchangedToken(text[..n], m, depth);
      }
    }
  }

  lemma {:induction false} NoDollarSettled(text: string, m: Macros, depth: nat)
    requires Dollars(text) == 0
    ensures Expand(text, m, depth) == Pass(text, false)
    decreases |text|
  {
    if text != "" {
      assert text == text[..1] + text[1..];
      NoDollarSettled(text[1..], m, depth);
    }
  }

  /** The driver reaches a fixpoint whenever the text has at most `rounds` dollars. */
  lemma {:induction false} Converges(text: string, m: Macros, depth: nat, rounds: nat)
    requires ValuesWithoutDollar(m) && Dollars(text) <= rounds
    ensures !Expand(Repeat(text, m, depth, rounds), m, depth).changed
    decreases rounds
  {
    if Dollars(text) == 0 {
      NoDollarSettled(text, m, depth);
      SettledStays(text, m, depth, rounds);
    } else if !Expand(text, m, depth).changed {
      SettledStays(text, m, depth, rounds);
    } else {
      PassDropsDollars(text, m, depth);
      Converges(Expand(text, m, depth).text, m, depth, rounds - 1);
    }
  }

  /** `$(X=$(X=...x))`, n references deep. */
  function Onion(n: nat): Items {
    if n == 0 then Chr('x', End) else Nest('(', Chr('X', Chr('=', Onion(n - 1))), End)
  }

  function OnionLayer(n: nat): Reference {
    Reference('(', Chr('X', End), Some(Onion(n)), None)
  }

  lemma OnionText(n: nat)
    ensures Text(Onion(n + 1)) == "$(X=" + Text(Onion(n)) + ")"
    ensures PrintReference(OnionLayer(n), "") == Text(Onion(n + 1))
  {
    OnionLayerText(n);
    hide Print, Onion, OnionLayer;
    TextThen(Onion(n), ")");
    LayerJoins(Text(Onion(n)));
  }

  lemma LayerJoins(inner: string)
    ensures ['$', '('] + (['X'] + (['='] + (inner + ")"))) == "$(X=" + inner + ")"
  {
  }

  lemma OnionLayerText(n: nat)
    ensures Text(Onion(n + 1)) == ['$', '('] + (['X'] + (['='] + Print(Onion(n), ")")))
    ensures PrintReference(OnionLayer(n), "") == ['$', '('] + (['X'] + (['='] + Print(Onion(n), ")")))
  {
    var core := Print(Onion(n), ")");
    assert [')'] + "" == ")";
    var r := OnionLayer(n);
    assert PrintRest(r, ")") == ['='] + core;
    assert Print(r.name, ['='] + core) == ['X'] + (['='] + core);
    assert PrintBody(r, ")") == ['X'] + (['='] + core);
    assert Print(Chr('X', Chr('=', Onion(n))), ")") == ['X'] + (['='] + core);
  }

  lemma {:induction false} OnionFacts(n: nat)
    ensures Wf(Onion(n), Some(')')) && NoTop(Onion(n), ",")
    ensures Dollars(Text(Onion(n))) == n
  {
    if n == 0 {
      assert Text(Onion(0)) == "x";
      NoDollars("x");
    } else {
      OnionFacts(n - 1);
      OnionText(n - 1);
      OnionDollars(Text(Onion(n - 1)));
    }
  }

  lemma OnionDollars(inner: string)
    ensures Dollars("$(X=" + inner + ")") == Dollars(inner) + 1
  {
    DollarsAdd("$(X=" + inner, ")");
    DollarsAdd("$(X=", inner);
    NoDollars(")");
    NoDollars("(X=");
    assert "$(X="[1..] == "(X=";
  }

  lemma OnionPeels(n: nat, depth: nat)
    ensures Expand(Text(Onion(n + 1)), map[], depth) == Pass(Text(Onion(n)), true)
  {
    OnionFacts(n);
    OnionText(n);
    ReferenceMeans(OnionLayer(n), "", map[], depth);
    assert Text(Onion(n)) + "" == Text(Onion(n));
  }

  /** The bound is exact: for every number of rounds there is a text with one more dollar that
      the driver leaves unfinished. */
  lemma {:induction false} BoundIsTight(n: nat, rounds: nat, depth: nat)
    requires rounds <= n
    ensures Dollars(Text(Onion(n))) == n
    ensures Repeat(Text(Onion(n)), map[], depth, rounds) == Text(Onion(n - rounds))
    ensures rounds < n ==> Expand(Repeat(Text(Onion(n)), map[], depth, rounds), map[], depth).changed
    decreases n
  {
    hide Expand;
    OnionFacts(n);
    if n > 0 {
      var text := Text(Onion(n));
      OnionPeels(n - 1, depth);
      assert Expand(text, map[], depth) == Pass(Text(Onion(n - 1)), true);
      if rounds > 0 {
        BoundIsTight(n - 1, rounds - 1, depth);
      }
    }
  }

  // ---------------------------------------------------------------------------------------
  // Computed names and cycles
  // ---------------------------------------------------------------------------------------

  /** The name of the reference a bracketed body stands for. */
  function NameOf(open: char, body: Items): (name: Items)
    ensures Size(name) <= Size(body)
  {
    CutSize(body, "=,");
    ReferenceOf(open, body).name
  }

  /** A name with every nested reference replaced by the value of its own, equally computed, name. */
  function Value(t: Items, m: Macros): string
    decreases Size(t)
  {
    match t
    case End => ""
    case Chr(c, tail) => [c] + Value(tail, m)
    case Nest(open, body, tail) => ValueAt(Value(NameOf(open, body), m), m) + Value(tail, m)
  }

  function ValueAt(key: string, m: Macros): string {
    if key in m then m[key] else ""
  }

  /** Every nested reference is defined by a value without `$`, and no `$` stands loose. */
  predicate Definite(t: Items, m: Macros)
    decreases Size(t)
  {
    match t
    case End => true
    case Chr(c, tail) => c != '$' && Definite(tail, m)
    case Nest(open, body, tail) =>
      var n := NameOf(open, body);
      && (HasNest(n) ==> Definite(n, m))
      && Value(n, m) in m && '$' !in m[Value(n, m)] && Definite(tail, m)
  }

  /** How deep names stand inside names. */
  function NameLevels(t: Items): nat
    decreases Size(t)
  {
    match t
    case End => 0
    case Chr(_, tail) => NameLevels(tail)
    case Nest(open, body, tail) =>
      var inner, beside := 1 + NameLevels(NameOf(open, body)), NameLevels(tail);
      if inner > beside then inner else beside
  }

  lemma {:induction false} PlainValue(t: Items, m: Macros)
    requires !HasNest(t)
    ensures Value(t, m) == Text(t)
  {
    if t.Chr? {
      PlainValue(t.tail, m);
    }
  }

  lemma {:induction false} DefiniteValue(t: Items, m: Macros)
    requires Definite(t, m)
    ensures '$' !in Value(t, m)
    decreases Size(t)
  {
    match t
    case End =>
    case Chr(_, tail) => DefiniteValue(tail, m);
    case Nest(_, _, tail) => DefiniteValue(tail, m);
  }

  /** A nested reference of a name, as a reference in front of the rest of the text. */
  lemma NestIsReference(open: char, body: Items, tail: Items)
    requires IsOpen(open) && Wf(body, Some(CloserOf(open)))
    ensures WfReference(ReferenceOf(open, body)) && ReferenceOf(open, body).name == NameOf(open, body)
    ensures Text(Nest(open, body, tail)) == PrintReference(ReferenceOf(open, body), Text(tail))
  {
    var rest := [CloserOf(open)] + Text(tail);
    ReferenceOfPrints(open, body, rest);
    OpenOf(open, body);
    hide Print, PrintBody, Cut;
    assert Print(Nest(open, body, tail), "") == ['$', open] + Print(body, rest) by { NestText(open, body, tail, ""); }
  }

  lemma OpenOf(open: char, body: Items)
    ensures ReferenceOf(open, body).open == open
  {
  }

  lemma JoinTexts(a: Pass, b: Pass)
    ensures Join(a, b).text == a.text + b.text
  {
  }

  /** One pass turns such a name into its value. */
  lemma {:induction false} NameExpands(t: Items, closer: Option<char>, m: Macros, depth: nat)
    requires Wf(t, closer) && Definite(t, m) && NameLevels(t) <= depth + 1
    ensures Expand(Text(t), m, depth).text == Value(t, m)
    decreases Size(t), 0
  {
    match t
    case End =>
      ExpandEmpty(m, depth);
    case Chr(c, tail) =>
      NameExpands(tail, closer, m, depth);
      LooseChar(c, Text(tail), m, depth);
    case Nest(open, body, tail) =>
      var r := ReferenceOf(open, body);
      NestIsReference(open, body, tail);
      ReferenceMeans(r, Text(tail), m, depth);
      KeyIsValue(r, m, depth);
      NameExpands(tail, closer, m, depth);
      hide Expand, Print, Key, PrintReference;
      JoinTexts(Meaning(r, m, depth), Expand(Text(tail), m, depth));
  }

  lemma LooseChar(c: char, rest: string, m: Macros, depth: nat)
    requires c != '$'
    ensures Expand([c] + rest, m, depth).text == [c] + Expand(rest, m, depth).text
  {
    hide Close;
    var text := [c] + rest;
    assert text[..1] == [c] && text[1..] == rest;
    PlainToken(c, m, depth);
    hide Token;
    JoinTexts(Pass([c], false), Expand(rest, m, depth));
  }

  lemma {:induction false} KeyIsValue(r: Reference, m: Macros, depth: nat)
    requires WfReference(r) && NameLevels(r.name) <= depth
    requires HasNest(r.name) ==> Definite(r.name, m)
    ensures Key(r, m, depth) == Some(Value(r.name, m))
    decreases Size(r.name), 1
  {
    hide Key, Value, Definite, NameLevels, Expand, Print, HasNest, Wf, NoTop, Size;
    if HasNest(r.name) {
      NestsHaveLevels(r.name);
      NameExpands(r.name, Some(CloserOf(r.open)), m, depth - 1);
      DefiniteValue(r.name, m);
      NestedKey(r, Value(r.name, m), m, depth);
    } else {
      PlainKey(r, m, depth);
      PlainValue(r.name, m);
    }
  }

  lemma PlainKey(r: Reference, m: Macros, depth: nat)
    requires !HasNest(r.name)
    ensures Key(r, m, depth) == Some(Text(r.name))
  {
    hide Repeat, Print, HasMacroRef;
  }

  lemma NoDollarNoReference(v: string)
    requires '$' !in v
    ensures !HasMacroRef(v)
  {
  }

  /** A computed name that one pass turns into a text without `$`. */
  lemma NestedKey(r: Reference, v: string, m: Macros, depth: nat)
    requires HasNest(r.name) && depth > 0
    requires Expand(Text(r.name), m, depth - 1).text == v && '$' !in v
    ensures Key(r, m, depth) == Some(v)
  {
    hide Expand, Print, Repeat, HasMacroRef, Dollars;
    NoDollars(v);
    NoDollarSettled(v, m, depth - 1);
    NoDollarNoReference(v);
    SettlesOn(Text(r.name), v, m, depth - 1, MAX_NAME_EXPANSION_DEPTH);
  }

  lemma {:induction false} NestsHaveLevels(t: Items)
    requires HasNest(t)
    ensures NameLevels(t) >= 1
  {
    if t.Chr? {
      NestsHaveLevels(t.tail);
    }
  }

  lemma SettlesOn(text: string, v: string, m: Macros, depth: nat, rounds: nat)
    requires rounds > 0 && Expand(text, m, depth).text == v && Expand(v, m, depth) == Pass(v, false)
    ensures Repeat(text, m, depth, rounds) == v
  {
    hide Expand;
    SettledStays(v, m, depth, rounds - 1);
  }

  /** A computed name is looked up under the value found, verbatim: whatever `=` or `,` arrives from
      a macro value never acts as a separator. For every name whose nested references, nested to
      any depth within the bound, are all defined by `$`-free values. */
  lemma ComputedNameIsVerbatim(r: Reference, suffix: string, m: Macros, depth: nat)
    requires WfReference(r) && HasNest(r.name) && Definite(r.name, m) && NameLevels(r.name) <= depth
    ensures Key(r, m, depth) == Some(Value(r.name, m))
    ensures Value(r.name, m) in m ==>
              var value := Pass(m[Value(r.name, m)], true);
              Expand(PrintReference(r, suffix), m, depth) == Join(value, Expand(suffix, m, depth))
  {
    KeyIsValue(r, m, depth);
    ReferenceMeans(r, suffix, m, depth);
    hide Expand, Key, Value;
  }

  /** `$(y)` for a plain name tree `y`. */
  function Plain(y: Items): Reference {
    Reference('(', y, None, None)
  }

  /** A macro defined as a reference to itself never settles, and the driver still returns. */
  lemma SelfReferenceSpins(y: Items, m: Macros, depth: nat, rounds: nat)
    requires WfReference(Plain(y)) && !HasNest(y)
    requires Text(y) in m && m[Text(y)] == PrintReference(Plain(y), "")
    ensures Repeat(PrintReference(Plain(y), ""), m, depth, rounds) == PrintReference(Plain(y), "")
    ensures !StopsWithin(PrintReference(Plain(y), ""), m, depth, rounds)
  {
    hide Expand, PrintReference, Repeat, StopsWithin;
    SpinsOnce(y, m, depth);
    Spins(PrintReference(Plain(y), ""), m, depth, rounds);
  }

  lemma {:induction false} Spins(text: string, m: Macros, depth: nat, rounds: nat)
    requires Expand(text, m, depth) == Pass(text, true)
    ensures Repeat(text, m, depth, rounds) == text && !StopsWithin(text, m, depth, rounds)
    decreases rounds
  {
    hide Expand;
    if rounds > 0 {
      Spins(text, m, depth, rounds - 1);
    }
  }

  lemma SpinsOnce(y: Items, m: Macros, depth: nat)
    requires WfReference(Plain(y)) && !HasNest(y)
    requires Text(y) in m && m[Text(y)] == PrintReference(Plain(y), "")
    ensures Expand(PrintReference(Plain(y), ""), m, depth) == Pass(PrintReference(Plain(y), ""), true)
  {
    var whole := PrintReference(Plain(y), "");
    ReferenceMeans(Plain(y), "", m, depth);
    ExpandEmpty(m, depth);
    hide Expand, PrintReference;
    assert whole + "" == whole;
  }

  lemma LooseDollar(rest: string, m: Macros, depth: nat)
    requires !ReferenceAhead("$" + rest)
    ensures Expand("$" + rest, m, depth) == Join(Pass("$", false), Expand(rest, m, depth))
  {
    var text := "$" + rest;
    assert text[..1] == "$" && text[1..] == rest;
  }

  /** Why composition needs a sealed left part: cutting `$(A)` behind its `$`, or inside it. */
  lemma UnsealedCutsDiffer(depth: nat)
    ensures var m := map["A" := "v"];
            && Expand("$(A)", m, depth) == Pass("v", true)
            && Join(Expand("$", m, depth), Expand("(A)", m, depth)) == Pass("$(A)", false)
            && Join(Expand("$(", m, depth), Expand("A)", m, depth)) == Pass("$(A)", false)
  {
    hide Expand, Token;
    var m := map["A" := "v"];
    PlainA(m, depth);
    ExpandEmpty(m, depth);
    NoDollarSettled("(A)", m, depth);
    NoDollarSettled("A)", m, depth);
    NoDollarSettled("(", m, depth);
    LooseDollar("", m, depth);
    LooseDollar("(", m, depth);
    assert "$" + "" == "$" && "$" + "(" == "$(";
  }

  lemma PlainA(m: Macros, depth: nat)
    requires "A" in m
    ensures Expand("$(A)", m, depth) == Pass(m["A"], true)
  {
    hide Expand, Token;
    var r := Plain(Chr('A', End));
    assert [')'] + "" == ")" && Print(r.name, ")") == ['A'] + ")";
    assert PrintReference(r, "") == ['$', '('] + (['A'] + ")");
    assert "$(A)" == ['$', '('] + (['A'] + ")");
    ReferenceMeans(r, "", m, depth);
    ExpandEmpty(m, depth);
    assert Text(r.name) == "A" && m["A"] + "" == m["A"];
  }

  // ---------------------------------------------------------------------------------------
  // Composition needs sealed texts
  // ---------------------------------------------------------------------------------------

  predicate AllClosers(stack: seq<char>) {
    forall i :: 0 <= i < |stack| ==> stack[i] == ')' || stack[i] == '}'
  }

  /** The closers still expected at the end of a text that does not empty its stack. */
  function Pending(s: string, stack: seq<char>): (p: seq<char>)
    requires stack != []
    ensures p != [] && (AllClosers(stack) ==> AllClosers(p))
    decreases |s|
  {
    if s == "" then stack
    else if OpensAt(s, 0) then Pending(s[2..], stack + [CloserOf(s[1])])
    else if s[0] != Top(stack) || |stack| == 1 then Pending(s[1..], stack)
    else Pending(s[1..], Pop(stack))
  }

  /** Behind a text that does not empty the stack, the matcher goes on with what is pending. */
  lemma {:induction false} CloseGoesOn(s: string, x: string, stack: seq<char>)
    requires stack != [] && Close(s, stack) < 0 && SafeAfter(x)
    ensures Close(s + x, stack) == Shift(Close(x, Pending(s, stack)), |s|)
    decreases |s|
  {
    if s == "" {
      assert s + x == x;
    } else {
      StepInFront(s, x);
      CloseStep(s, stack);
      CloseStep(s + x, stack);
      hide Close, SafeAfter;
      if OpensAt(s, 0) {
        CloseGoesOn(s[2..], x, stack + [CloserOf(s[1])]);
      } else if s[0] != Top(stack) {
        CloseGoesOn(s[1..], x, stack);
      } else {
        CloseGoesOn(s[1..], x, Pop(stack));
      }
    }
  }

  lemma StepInFront(s: string, x: string)
    requires s != "" && SafeAfter(x)
    ensures (s + x)[0] == s[0] && (s + x)[1..] == s[1..] + x && (OpensAt(s + x, 0) <==> OpensAt(s, 0))
    ensures OpensAt(s, 0) ==> (s + x)[1] == s[1] && (s + x)[2..] == s[2..] + x
  {
  }

  /** The closers in the order they are due. */
  function Closing(stack: seq<char>): (c: string)
    ensures |c| == |stack| && (AllClosers(stack) ==> '$' !in c)
  {
    if stack == [] then "" else [Top(stack)] + Closing(Pop(stack))
  }

  lemma {:induction false} ClosingCloses(stack: seq<char>)
    requires stack != [] && AllClosers(stack)
    ensures Close(Closing(stack), stack) == |stack| - 1
    decreases |stack|
  {
    var c := Closing(stack);
    assert c[0] == Top(stack) && c[0] != '$' && c[1..] == Closing(Pop(stack));
    CloseStep(c, stack);
    hide Close, Closing;
    if |stack| > 1 {
      ClosingCloses(Pop(stack));
    }
  }

  /** `$(A)`, and the name in it as a tree. */
  const PROBE: string := "$(A)"

  function ProbeReference(): Reference {
    Plain(Chr('A', End))
  }

  lemma ProbePrints(rest: string)
    ensures PrintReference(ProbeReference(), rest) == PROBE + rest
    ensures Print(Nest('(', Chr('A', End), End), rest) == PROBE + rest
  {
    ProbeText(rest);
    var r := ProbeReference();
    assert PrintRest(r, [')'] + rest) == [')'] + rest;
    assert Print(r.name, [')'] + rest) == ['A'] + Print(End, [')'] + rest);
    assert PrintBody(r, [')'] + rest) == ['A'] + ([')'] + rest);
  }

  lemma ProbeText(rest: string)
    ensures ['$', '('] + (['A'] + ([')'] + rest)) == PROBE + rest
  {
  }

  lemma ProbeExpands(rest: string, w: string, depth: nat)
    requires '$' !in rest
    ensures Expand(PROBE + rest, map["A" := w], depth) == Pass(w + rest, true)
  {
    var m := map["A" := w];
    ProbePrints(rest);
    ReferenceMeans(ProbeReference(), rest, m, depth);
    NoDollars(rest);
    NoDollarSettled(rest, m, depth);
    hide Expand;
    assert Text(Chr('A', End)) == "A";
  }

  /** An unclosed text is closed by the probe and what is pending, at the very end. */
  lemma ClosedByPending(u: string)
    requires OpensAt(u, 0) && !ReferenceAhead(u)
    ensures var x := PROBE + Closing(Pending(u[2..], [CloserOf(u[1])]));
            ReferenceAhead(u + x) && TokenLength(u + x) == |u + x|
  {
    var k := CloserOf(u[1]);
    var stack := Pending(u[2..], [k]);
    var x := PROBE + Closing(stack);
    assert (u + x)[2..] == u[2..] + x;
    CloseGoesOn(u[2..], x, [k]);
    ProbeInside(stack);
    hide Close, Pending, Closing;
    assert Close(x, stack) == |x| - 1;
  }

  lemma ProbeInside(stack: seq<char>)
    requires stack != [] && AllClosers(stack)
    ensures Close(PROBE + Closing(stack), stack) == |PROBE + Closing(stack)| - 1
  {
    var c := Closing(stack);
    ClosingCloses(stack);
    ProbePrints(c);
    assert c[0] == Top(stack);
    hide Close, Closing, Print;
    CloseOver(Nest('(', Chr('A', End), End), stack, c);
    assert Size(Nest('(', Chr('A', End), End)) == 4;
  }

  /** A token becomes a macro value, or something no longer than itself. */
  lemma TokenBound(token: string, m: Macros, depth: nat)
    ensures var t := Token(token, m, depth).text;
            |t| <= |token| || exists k :: k in m && t == m[k]
  {
    hide FirstTop, Repeat, HasMacroRef;
  }

  lemma OneToken(text: string, m: Macros, depth: nat)
    requires text != "" && TokenLength(text) == |text|
    ensures Expand(text, m, depth).text == Token(text, m, depth).text
  {
    hide Token, TokenLength;
    assert text[..|text|] == text && text[|text|..] == "";
    ExpandEmpty(m, depth);
  }

  lemma LiteralFirst(u: string, m: Macros, depth: nat)
    requires u != "" && u[0] == '$' && !ReferenceAhead(u)
    ensures |Expand(u, m, depth).text| >= 1
  {
    hide Token, ReferenceAhead;
    PlainToken(u[0], m, depth);
    assert u[..1] == [u[0]];
  }

  /** An unclosed text, or a loose `$`: a value longer than everything else tells the two sides apart. */
  lemma OpenBreaks(u: string, depth: nat) returns (b: string, m: Macros)
    requires u == "$" || (OpensAt(u, 0) && !ReferenceAhead(u))
    ensures Expand(u + b, m, depth).text != Expand(u, m, depth).text + Expand(b, m, depth).text
  {
    if u == "$" {
      b, m := "(A)", map["A" := "12345"];
      LooseBreaks(m, depth);
    } else {
      var stack := Pending(u[2..], [CloserOf(u[1])]);
      b := PROBE + Closing(stack);
      var w := seq(|u + b| + 1, _ => 'w');
      m := map["A" := w];
      ClosedByPending(u);
      ProbeExpands(Closing(stack), w, depth);
      hide Expand, Token, ReferenceAhead, TokenLength, Pending, Closing;
      OneToken(u + b, m, depth);
      TokenBound(u + b, m, depth);
      LiteralFirst(u, m, depth);
    }
  }

  lemma LooseBreaks(m: Macros, depth: nat)
    requires m == map["A" := "12345"]
    ensures Expand("$" + "(A)", m, depth).text != Expand("$", m, depth).text + Expand("(A)", m, depth).text
  {
    hide Expand;
    ProbeExpands("", "12345", depth);
    assert "$" + "(A)" == PROBE + "" && "12345" + "" == "12345";
    LooseDollar("", m, depth);
    ExpandEmpty(m, depth);
    NoDollars("(A)");
    NoDollarSettled("(A)", m, depth);
    assert "$" + "" == "$";
  }

  lemma {:induction false} UnsealedBreaks(a: string, depth: nat) returns (b: string, m: Macros)
    requires !Sealed(a)
    ensures Expand(a + b, m, depth).text != Expand(a, m, depth).text + Expand(b, m, depth).text
    decreases |a|
  {
    if a == "$" || (OpensAt(a, 0) && !ReferenceAhead(a)) {
      b, m := OpenBreaks(a, depth);
    } else {
      b, m := UnsealedBreaks(a[TokenLength(a)..], depth);
      BreaksBehind(a, b, m, depth);
    }
  }

  /** What breaks behind the first token breaks the whole. */
  lemma BreaksBehind(a: string, b: string, m: Macros, depth: nat)
    requires a != "" && a != "$" && (OpensAt(a, 0) ==> ReferenceAhead(a))
    requires var rest := a[TokenLength(a)..];
             Expand(rest + b, m, depth).text != Expand(rest, m, depth).text + Expand(b, m, depth).text
    ensures Expand(a + b, m, depth).text != Expand(a, m, depth).text + Expand(b, m, depth).text
  {
    hide Expand, Token, TokenLength, ReferenceAhead;
    var n := TokenLength(a);
    SameToken(a, b);
    FirstOff(a, m, depth);
    FirstOff(a + b, m, depth);
    assert (a + b)[..n] == a[..n] && (a + b)[n..] == a[n..] + b;
    SameStart(Token(a[..n], m, depth).text, Expand(a[n..] + b, m, depth).text,
              Expand(a[n..], m, depth).text, Expand(b, m, depth).text);
  }

  lemma FirstOff(text: string, m: Macros, depth: nat)
    requires text != ""
    ensures var n := TokenLength(text);
            Expand(text, m, depth).text == Token(text[..n], m, depth).text + Expand(text[n..], m, depth).text
  {
    hide Token, TokenLength;
  }

  lemma SameStart(t: string, x: string, y: string, z: string)
    ensures t + x == (t + y) + z ==> x == y + z
  {
    assert (t + x)[|t|..] == x;
    assert ((t + y) + z)[|t|..] == y + z;
  }

  /** A text composes with every continuation under all macros exactly if it is sealed. */
  lemma SealedIff(a: string, depth: nat)
    ensures Sealed(a)
       <==> forall b, m :: Expand(a + b, m, depth) == Join(Expand(a, m, depth), Expand(b, m, depth))
  {
    hide Expand, Sealed;
    if Sealed(a) {
      forall b, m
        ensures Expand(a + b, m, depth) == Join(Expand(a, m, depth), Expand(b, m, depth))
      {
        PassComposes(a, b, m, depth);
      }
    } else {
      var b, m := UnsealedBreaks(a, depth);
      assert Expand(a + b, m, depth) != Join(Expand(a, m, depth), Expand(b, m, depth));
    }
  }

  // ---------------------------------------------------------------------------------------
  // References letter by letter
  // ---------------------------------------------------------------------------------------

  /** A text without references, as a tree. */
  function Plainly(s: string): Items {
    if s == "" then End else Chr(s[0], Plainly(s[1..]))
  }

  lemma {:induction false} PlainlyPrints(s: string, rest: string)
    ensures Print(Plainly(s), rest) == s + rest && !HasNest(Plainly(s))
  {
    if s == "" {
      assert s + rest == rest;
    } else {
      PlainlyPrints(s[1..], rest);
      assert s == [s[0]] + s[1..];
      Assoc([s[0]], s[1..], rest);
    }
  }

  lemma Assoc(a: string, b: string, c: string)
    ensures (a + b) + c == a + (b + c)
  {
  }

  lemma {:induction false} PlainlyIsWf(s: string, closer: char, seps: string)
    requires '$' !in s && closer !in s && forall c :: c in seps ==> c !in s
    ensures Wf(Plainly(s), Some(closer)) && NoTop(Plainly(s), seps)
  {
    if s != "" {
      assert s == [s[0]] + s[1..];
      PlainlyIsWf(s[1..], closer, seps);
    }
  }

  /** A name of ordinary characters, for either kind of bracket. */
  predicate PlainName(name: string, closer: char) {
    '$' !in name && '=' !in name && ',' !in name && closer !in name
  }

  lemma NamedPrints(open: char, name: string, rest: string)
    requires open == '(' || open == '{'
    ensures var r := Reference(open, Plainly(name), None, None);
            PrintReference(r, rest) == ['$', open] + (name + ((if open == '(' then ")" else "}") + rest))
  {
    PlainlyPrints(name, [CloserOf(open)] + rest);
  }

  /** A defined name in round brackets. */
  lemma RoundReference(name: string, rest: string, m: Macros, depth: nat)
    requires PlainName(name, ')') && name in m
    ensures Expand("$(" + name + ")" + rest, m, depth) == Join(Pass(m[name], true), Expand(rest, m, depth))
  {
    NamedReference('(', name, rest, m, depth);
    Spelled("$(", name, ")", rest);
    assert ['$', '('] == "$(";
  }

  /** And in braces. */
  lemma BracedReference(name: string, rest: string, m: Macros, depth: nat)
    requires PlainName(name, '}') && name in m
    ensures Expand("${" + name + "}" + rest, m, depth) == Join(Pass(m[name], true), Expand(rest, m, depth))
  {
    NamedReference('{', name, rest, m, depth);
    Spelled("${", name, "}", rest);
    assert ['$', '{'] == "${";
  }

  lemma Spelled(open: string, name: string, close: string, rest: string)
    ensures open + name + close + rest == open + (name + (close + rest))
  {
  }

  lemma NamedReference(open: char, name: string, rest: string, m: Macros, depth: nat)
    requires open == '(' || open == '{'
    requires PlainName(name, if open == '(' then ')' else '}') && name in m
    ensures Expand(['$', open] + (name + ((if open == '(' then ")" else "}") + rest)), m, depth)
         == Join(Pass(m[name], true), Expand(rest, m, depth))
  {
    var r := Reference(open, Plainly(name), None, None);
    PlainlyIsWf(name, CloserOf(open), "=,");
    NamedPrints(open, name, rest);
    PlainlyPrints(name, "");
    ReferenceMeans(r, rest, m, depth);
    hide Expand, PrintReference, Print;
    assert name + "" == name;
  }

  lemma DefaultedPrints(open: char, name: string, d: string, rest: string)
    requires open == '(' || open == '{'
    ensures var r, close := Reference(open, Plainly(name), Some(Plainly(d)), None), if open == '(' then ")" else "}";
            PrintReference(r, rest) == ['$', open] + (name + ("=" + (d + (close + rest))))
  {
    var r := Reference(open, Plainly(name), Some(Plainly(d)), None);
    var close := [CloserOf(open)] + rest;
    PlainlyPrints(d, close);
    PlainlyPrints(name, ['='] + (d + close));
    assert PrintRest(r, close) == ['='] + (d + close);
  }

  /** An undefined name falls back on its default, in either kind of bracket. */
  lemma DefaultedReference(open: char, name: string, d: string, rest: string, m: Macros, depth: nat)
    requires open == '(' || open == '{'
    requires var close := if open == '(' then ')' else '}';
             PlainName(name, close) && PlainName(d, close) && name !in m
    ensures var close := if open == '(' then ")" else "}";
            Expand(['$', open] + (name + ("=" + (d + (close + rest)))), m, depth)
              == Join(Pass(d, true), Expand(rest, m, depth))
  {
    var r := Reference(open, Plainly(name), Some(Plainly(d)), None);
    PlainlyIsWf(name, CloserOf(open), "=,");
    PlainlyIsWf(d, CloserOf(open), ",");
    DefaultedPrints(open, name, d, rest);
    PlainlyPrints(name, "");
    PlainlyPrints(d, "");
    ReferenceMeans(r, rest, m, depth);
    hide Expand, PrintReference, Print;
    assert name + "" == name && d + "" == d;
  }

  lemma {:induction false} NoDollarSealed(s: string)
    requires '$' !in s
    ensures Sealed(s)
    decreases |s|
  {
    if s != "" {
      assert s[0] != '$' && TokenLength(s) == 1;
      NoDollarSealed(s[1..]);
    }
  }

  /** The wrong closing bracket closes nothing: `$(NAME}` without a `)` behind it, and `${NAME)`
      without a `}` behind it, stay as they are. */
  lemma WrongBracketStays(open: char, name: string, rest: string, m: Macros, depth: nat)
    requires open == '(' || open == '{'
    requires '$' !in name
    requires if open == '(' then ')' !in name && ')' !in rest else '}' !in name && '}' !in rest
    ensures var text := ['$', open] + name + (if open == '(' then "}" else ")");
            Expand(text + rest, m, depth) == Join(Pass(text, false), Expand(rest, m, depth))
  {
    var inner := [open] + name + (if open == '(' then "}" else ")");
    var text := ['$', open] + name + (if open == '(' then "}" else ")");
    assert text == "$" + inner && text + rest == "$" + (inner + rest);
    NeverCloses("$" + (inner + rest));
    LooseDollar(inner + rest, m, depth);
    NoDollarSealed(inner);
    PassComposes(inner, rest, m, depth);
    NoDollars(inner);
    NoDollarSettled(inner, m, depth);
    JoinAssoc(Pass("$", false), Pass(inner, false), Expand(rest, m, depth));
    hide Expand;
  }

  lemma NeverCloses(text: string)
    requires OpensAt(text, 0) && (if text[1] == '(' then ')' else '}') !in text[2..]
    ensures !ReferenceAhead(text)
  {
    var k := CloserOf(text[1]);
    if Close(text[2..], [k]) >= 0 {
      CloserFound(text[2..], [k]);
    }
  }

  // ---------------------------------------------------------------------------------------
  // The bound on name levels
  // ---------------------------------------------------------------------------------------

  /** `A`, `$(A)`, `$($(A))` and so on: a name inside `n` others. */
  function Tower(n: nat): Items {
    if n == 0 then Chr('A', End) else Nest('(', Tower(n - 1), End)
  }

  lemma {:induction false} TowerWf(n: nat, closer: char)
    requires closer == ')' || closer == '}'
    ensures Wf(Tower(n), Some(closer)) && NoTop(Tower(n), "=,") && (HasNest(Tower(n)) <==> n > 0)
    ensures n > 0 ==> Text(Tower(n)) == PrintReference(Plain(Tower(n - 1)), "")
  {
    if n > 0 {
      TowerWf(n - 1, ')');
    }
  }

  /** With `A` defined as itself, a tower is looked up exactly if it is no higher than the levels
      left. */
  lemma {:induction false} TowerIff(n: nat, depth: nat)
    ensures Key(Plain(Tower(n)), map["A" := "A"], depth) == if n <= depth then Some("A") else None
    decreases n
  {
    var m := map["A" := "A"];
    TowerWf(n, ')');
    if n == 0 {
      assert Text(Tower(0)) == "A";
    } else if depth > 0 {
      TowerIff(n - 1, depth - 1);
      TowerWf(n - 1, ')');
      TowerStep(n, depth);
    }
  }

  lemma PassOfReference(r: Reference, m: Macros, depth: nat)
    requires WfReference(r)
    ensures Expand(PrintReference(r, ""), m, depth) == Meaning(r, m, depth)
  {
    ReferenceMeans(r, "", m, depth);
    ExpandEmpty(m, depth);
    hide Expand, PrintReference, Meaning;
    var p := Meaning(r, m, depth);
    assert p.text + "" == p.text;
  }

  lemma TowerStep(n: nat, depth: nat)
    requires n > 0 && depth > 0
    requires WfReference(Plain(Tower(n - 1))) && HasNest(Tower(n)) && Wf(Tower(n), Some(')'))
    requires Text(Tower(n)) == PrintReference(Plain(Tower(n - 1)), "")
    requires Key(Plain(Tower(n - 1)), map["A" := "A"], depth - 1) == if n - 1 <= depth - 1 then Some("A") else None
    ensures Key(Plain(Tower(n)), map["A" := "A"], depth) == if n <= depth then Some("A") else None
  {
    hide Expand, Print, PrintReference, HasMacroRef, Tower, HasNest, Wf, Key, WfReference;
    var m := map["A" := "A"];
    var inner := Plain(Tower(n - 1));
    PassOfReference(inner, m, depth - 1);
    NestShows(Tower(n), Some(')'));
    if n <= depth {
      assert Meaning(inner, m, depth - 1) == Pass("A", true);
      NestedKey(Plain(Tower(n)), "A", m, depth);
    } else {
      assert Meaning(inner, m, depth - 1) == Pass(PrintReference(inner, ""), false);
      SettledStays(Text(Tower(n)), m, depth - 1, MAX_NAME_EXPANSION_DEPTH);
      StuckKey(Plain(Tower(n)), m, depth);
    }
  }

  /** A name that the passes leave as it is, with its references. */
  lemma StuckKey(r: Reference, m: Macros, depth: nat)
    requires HasNest(r.name) && depth > 0 && HasMacroRef(Text(r.name))
    requires Repeat(Text(r.name), m, depth - 1, MAX_NAME_EXPANSION_DEPTH) == Text(r.name)
    ensures Key(r, m, depth) == None
  {
    hide Repeat, HasMacroRef, Print;
  }

  /** In a whole pass: exactly the towers of at most 32 levels are replaced. */
  lemma NameBoundIsTight(n: nat)
    ensures Meaning(Plain(Tower(n)), map["A" := "A"], Left(0)).changed <==> n <= 32
  {
    hide PrintReference, Key;
    TowerIff(n, Left(0));
  }
}
