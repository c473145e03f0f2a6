/**
  The grammar the scanners read, written as trees and a printer, and the proof that scanning
  is exactly the inverse of printing: every printed reference scans back to its parts, and
  every stretch the scanner accepts is the print of one reference.
 */
module MacroTree {
  import opened Prelude
  import opened MacroScan

  /** Text as a list of plain characters and bracketed references. */
  datatype Items =
    | End
    | Chr(c: char, tail: Items)
    | Nest(open: char, body: Items, tail: Items)

  function Size(t: Items): nat {
    match t
    case End => 0
    case Chr(_, tail) => 1 + Size(tail)
    case Nest(_, body, tail) => 3 + Size(body) + Size(tail)
  }

  /** The text of `t` followed by `rest`. */
  function Print(t: Items, rest: string): (s: string)
    ensures |s| == Size(t) + |rest|
  {
    match t
    case End => rest
    case Chr(c, tail) => [c] + Print(tail, rest)
    case Nest(open, body, tail) => ['$', open] + Print(body, [CloserOf(open)] + Print(tail, rest))
  }

  function Text(t: Items): string {
    Print(t, "")
  }

  predicate IsOpen(c: char) {
    c == '(' || c == '{'
  }

  /** Plain characters avoid the closer of their own level, and no plain `$` touches a bracket. */
  predicate Wf(t: Items, closer: Option<char>) {
    match t
    case End => true
    case Chr(c, tail) =>
      && closer != Some(c)
      && !(c == '$' && tail.Chr? && IsOpen(tail.c))
      && Wf(tail, closer)
    case Nest(open, body, tail) =>
      IsOpen(open) && Wf(body, Some(CloserOf(open))) && Wf(tail, closer)
  }

  /** No character of `seps` outside the nested references. */
  predicate NoTop(t: Items, seps: string) {
    match t
    case End => true
    case Chr(c, tail) => c !in seps && NoTop(tail, seps)
    case Nest(_, _, tail) => NoTop(tail, seps)
  }

  predicate HasNest(t: Items) {
    match t
    case End => false
    case Chr(_, tail) => HasNest(tail)
    case Nest(_, _, _) => true
  }

  /** `$(NAME)`, `$(NAME=default)`, `$(NAME,scope)` and `$(NAME=default,scope)`, either bracket. */
  datatype Reference = Reference(open: char, name: Items, default: Option<Items>, scoped: Option<Items>)

  predicate WfReference(r: Reference) {
    var k := Some(CloserOf(r.open));
    && IsOpen(r.open)
    && Wf(r.name, k) && NoTop(r.name, "=,")
    && (r.default.Some? ==> Wf(r.default.value, k) && NoTop(r.default.value, ","))
    && (r.scoped.Some? ==> Wf(r.scoped.value, k))
  }

  function PrintScoped(r: Reference, rest: string): string {
    if r.scoped.Some? then [','] + Print(r.scoped.value, rest) else rest
  }

  function PrintRest(r: Reference, rest: string): string {
    if r.default.Some? then ['='] + Print(r.default.value, PrintScoped(r, rest)) else PrintScoped(r, rest)
  }

  function PrintBody(r: Reference, rest: string): string {
    Print(r.name, PrintRest(r, rest))
  }

  /** The text of the whole reference followed by `rest`. */
  function PrintReference(r: Reference, rest: string): string {
    ['$', r.open] + PrintBody(r, [CloserOf(r.open)] + rest)
  }

  lemma ConsAppend(c: char, x: string, y: string)
    ensures [c] + (x + y) == ([c] + x) + y
  {
  }

  lemma OpenAppend(open: char, x: string, y: string)
    ensures ['$', open] + (x + y) == (['$', open] + x) + y
  {
  }

  lemma {:induction false} PrintAppend(t: Items, x: string, y: string)
    ensures Print(t, x + y) == Print(t, x) + y
  {
    match t
    case End =>
    case Chr(c, tail) =>
      PrintAppend(tail, x, y);
      ConsAppend(c, Print(tail, x), y);
    case Nest(open, body, tail) =>
      var k := CloserOf(open);
      PrintAppend(tail, x, y);
      ConsAppend(k, Print(tail, x), y);
      PrintAppend(body, [k] + Print(tail, x), y);
      OpenAppend(open, Print(body, [k] + Print(tail, x)), y);
  }

  lemma TextThen(t: Items, rest: string)
    ensures Print(t, rest) == Text(t) + rest
    ensures Print(t, rest)[..|Text(t)|] == Text(t) && Print(t, rest)[|Text(t)|..] == rest
  {
    PrintAppend(t, "", rest);
    assert "" + rest == rest;
  }

  lemma RestAppend(r: Reference, x: string, y: string)
    ensures PrintRest(r, x + y) == PrintRest(r, x) + y
  {
    if r.scoped.Some? {
      PrintAppend(r.scoped.value, x, y);
      ConsAppend(',', Print(r.scoped.value, x), y);
    }
    if r.default.Some? {
      PrintAppend(r.default.value, PrintScoped(r, x), y);
      ConsAppend('=', Print(r.default.value, PrintScoped(r, x)), y);
    }
  }

  lemma BodyAppend(r: Reference, x: string, y: string)
    ensures PrintBody(r, x + y) == PrintBody(r, x) + y
  {
    RestAppend(r, x, y);
    PrintAppend(r.name, PrintRest(r, x), y);
  }

  lemma ReferenceAppend(r: Reference, rest: string)
    ensures PrintReference(r, rest) == PrintReference(r, "") + rest
  {
    var k := [CloserOf(r.open)];
    assert k + "" == k;
    BodyAppend(r, k, rest);
    OpenAppend(r.open, PrintBody(r, k), rest);
  }

  // ---------------------------------------------------------------------------------------
  // Printed text scans back
  // ---------------------------------------------------------------------------------------

  /** What may follow a printed tree: anything that cannot turn its last `$` into an opener. */
  predicate SafeAfter(rest: string) {
    rest == "" || !IsOpen(rest[0])
  }

  lemma CloseOpener(open: char, s: string, stack: seq<char>)
    requires IsOpen(open) && stack != []
    ensures Close(['$', open] + s, stack) == Shift(Close(s, stack + [CloserOf(open)]), 2)
  {
    assert (['$', open] + s)[2..] == s;
  }

  lemma CloseCloser(s: string, stack: seq<char>, k: char)
    requires stack != [] && k != '$'
    ensures Close([k] + s, stack + [k]) == Shift(Close(s, stack), 1)
  {
    assert ([k] + s)[1..] == s && Pop(stack + [k]) == stack;
  }

  lemma ClosePlain(c: char, s: string, stack: seq<char>)
    requires stack != [] && c != Top(stack) && !OpensAt([c] + s, 0)
    ensures Close([c] + s, stack) == Shift(Close(s, stack), 1)
  {
    assert ([c] + s)[1..] == s;
  }

  /** A printed plain character cannot open a reference, and is not the closer of its level. */
  lemma PlainAhead(c: char, tail: Items, closer: Option<char>, rest: string)
    requires Wf(Chr(c, tail), closer) && SafeAfter(rest)
    ensures Print(Chr(c, tail), rest) == [c] + Print(tail, rest) && Size(Chr(c, tail)) == 1 + Size(tail)
    ensures !OpensAt([c] + Print(tail, rest), 0) && closer != Some(c) && Wf(tail, closer)
  {
    hide SafeAfter;
    FirstOf(tail, rest);
  }

  /** What a printed tree starts with. */
  lemma FirstOf(t: Items, rest: string)
    requires SafeAfter(rest)
    ensures !t.Chr? || !IsOpen(t.c) ==> Print(t, rest) == "" || !IsOpen(Print(t, rest)[0])
  {
  }

  lemma NestAhead(open: char, body: Items, tail: Items, closer: Option<char>, rest: string)
    requires Wf(Nest(open, body, tail), closer)
    ensures Print(Nest(open, body, tail), rest) == ['$', open] + Print(body, [CloserOf(open)] + Print(tail, rest))
    ensures Size(Nest(open, body, tail)) == 3 + Size(body) + Size(tail)
    ensures IsOpen(open) && Wf(body, Some(CloserOf(open))) && Wf(tail, closer)
    ensures SafeAfter([CloserOf(open)] + Print(tail, rest)) && CloserOf(open) != '$'
  {
  }

  /** The bracket matcher walks over a printed tree without touching its stack. */
  lemma {:induction false} CloseOver(t: Items, stack: seq<char>, rest: string)
    requires stack != [] && Wf(t, Some(Top(stack))) && SafeAfter(rest)
    ensures Close(Print(t, rest), stack) == Shift(Close(rest, stack), Size(t))
  {
    match t
    case End =>
    case Chr(c, tail) =>
      hide Print, Close, Size, Wf, SafeAfter;
      PlainAhead(c, tail, Some(Top(stack)), rest);
      ClosePlain(c, Print(tail, rest), stack);
      CloseOver(tail, stack, rest);
    case Nest(open, body, tail) =>
      hide Print, Close, Size, Wf, SafeAfter;
      var k := CloserOf(open);
      var after := Print(tail, rest);
      NestAhead(open, body, tail, Some(Top(stack)), rest);
      CloseOpener(open, Print(body, [k] + after), stack);
      CloseOver(body, stack + [k], [k] + after);
      CloseCloser(after, stack, k);
      CloseOver(tail, stack, rest);
  }

  lemma TopOpener(open: char, s: string, stack: seq<char>, seps: string)
    requires IsOpen(open)
    ensures FirstTop(['$', open] + s, stack, seps) == 2 + FirstTop(s, stack + [CloserOf(open)], seps)
  {
    assert (['$', open] + s)[2..] == s;
  }

  lemma TopCloser(s: string, stack: seq<char>, k: char, seps: string)
    requires k != '$'
    ensures FirstTop([k] + s, stack + [k], seps) == 1 + FirstTop(s, stack, seps)
  {
    assert ([k] + s)[1..] == s && Pop(stack + [k]) == stack;
  }

  lemma TopPlain(c: char, s: string, stack: seq<char>, seps: string)
    requires !OpensAt([c] + s, 0)
    requires if stack == [] then c !in seps else c != Top(stack)
    ensures FirstTop([c] + s, stack, seps) == 1 + FirstTop(s, stack, seps)
  {
    assert ([c] + s)[1..] == s;
  }

  /** The splitter and the default extractor walk over a tree inside a nested reference. */
  lemma {:induction false} TopOverNested(t: Items, stack: seq<char>, rest: string, seps: string)
    requires stack != [] && Wf(t, Some(Top(stack))) && SafeAfter(rest)
    ensures FirstTop(Print(t, rest), stack, seps) == Size(t) + FirstTop(rest, stack, seps)
  {
    match t
    case End =>
    case Chr(c, tail) =>
      hide Print, FirstTop, Size, Wf, SafeAfter;
      PlainAhead(c, tail, Some(Top(stack)), rest);
      TopPlain(c, Print(tail, rest), stack, seps);
      TopOverNested(tail, stack, rest, seps);
    case Nest(open, body, tail) =>
      hide Print, FirstTop, Size, Wf, SafeAfter;
      var k := CloserOf(open);
      var after := Print(tail, rest);
      NestAhead(open, body, tail, Some(Top(stack)), rest);
      TopOpener(open, Print(body, [k] + after), stack, seps);
      TopOverNested(body, stack + [k], [k] + after, seps);
      TopCloser(after, stack, k, seps);
      TopOverNested(tail, stack, rest, seps);
  }

  /** Nothing to skip: the text is at its end or at a separator. */
  lemma TopStops(rest: string, seps: string)
    requires rest == "" || (rest[0] in seps && rest[0] != '$')
    ensures FirstTop(rest, [], seps) == 0
  {
  }

  /** Over one nested reference, its body and its closer. */
  lemma TopOverNest(open: char, body: Items, after: string, seps: string)
    requires IsOpen(open) && Wf(body, Some(CloserOf(open)))
    ensures FirstTop(['$', open] + Print(body, [CloserOf(open)] + after), [], seps)
         == 3 + Size(body) + FirstTop(after, [], seps)
  {
    hide Print, FirstTop, Size, Wf;
    var k := CloserOf(open);
    var closed := [k] + after;
    TopOpener(open, Print(body, closed), [], seps);
    TopOverNested(body, [k], closed, seps);
    TopCloser(after, [], k, seps);
    assert [] + [k] == [k];
  }

  /** At the top level they stop exactly at the first separator after the tree. */
  lemma {:induction false} TopOver(t: Items, closer: Option<char>, rest: string, seps: string)
    requires Wf(t, closer) && NoTop(t, seps) && SafeAfter(rest)
    requires rest == "" || (rest[0] in seps && rest[0] != '$')
    ensures FirstTop(Print(t, rest), [], seps) == Size(t)
  {
    match t
    case End =>
      TopStops(rest, seps);
    case Chr(c, tail) =>
      hide Print, FirstTop, Size, Wf, SafeAfter;
      PlainAhead(c, tail, closer, rest);
      TopPlain(c, Print(tail, rest), [], seps);
      TopOver(tail, closer, rest, seps);
    case Nest(open, body, tail) =>
      hide Print, FirstTop, Size, Wf, SafeAfter;
      NestAhead(open, body, tail, closer, rest);
      TopOverNest(open, body, Print(tail, rest), seps);
      TopOver(tail, closer, rest, seps);
  }

  /** Scanning a printed reference returns its closing index, its name, its default and its rest. */
  lemma ScanPrinted(r: Reference, suffix: string)
    requires WfReference(r)
    ensures OpensAt(PrintReference(r, suffix), 0)
    ensures Close(PrintReference(r, suffix)[2..], [CloserOf(r.open)]) == |PrintReference(r, "")| - 3
    ensures Split(PrintBody(r, "")) == (Text(r.name), PrintRest(r, ""))
    ensures Default(PrintRest(r, "")) == if r.default.Some? then Some(Text(r.default.value)) else None
  {
    var k := CloserOf(r.open);
    assert PrintReference(r, suffix)[2..] == PrintBody(r, [k] + suffix);
    CloseOver(r.name, [k], PrintRest(r, [k] + suffix));
    CloseRest(r, [k] + suffix);
    SplitPrinted(r);
    if r.default.Some? {
      DefaultPrinted(r);
    }
  }

  lemma SplitPrinted(r: Reference)
    requires WfReference(r)
    ensures Split(PrintBody(r, "")) == (Text(r.name), PrintRest(r, ""))
  {
    TopOver(r.name, Some(CloserOf(r.open)), PrintRest(r, ""), "=,");
    TextThen(r.name, PrintRest(r, ""));
  }

  lemma DefaultPrinted(r: Reference)
    requires WfReference(r) && r.default.Some?
    ensures Default(PrintRest(r, "")) == Some(Text(r.default.value))
  {
    var d, scoped := r.default.value, PrintScoped(r, "");
    assert scoped == "" || scoped[0] == ',';
    DefaultOf(Print(d, scoped));
    hide Print, PrintScoped, FirstTop, Default, Wf;
    TopOver(d, Some(CloserOf(r.open)), scoped, ",");
    TextThen(d, scoped);
  }

  lemma DefaultOf(x: string)
    ensures Default(['='] + x) == Some(x[..FirstTop(x, [], ",")])
  {
    assert (['='] + x)[1..] == x;
  }

  lemma CloseRest(r: Reference, tail: string)
    requires WfReference(r) && tail != "" && tail[0] == CloserOf(r.open)
    ensures Close(PrintRest(r, tail), [CloserOf(r.open)]) == |PrintRest(r, tail)| - |tail|
  {
    var k := CloserOf(r.open);
    assert Close(tail, [k]) == 0;
    if r.scoped.Some? {
      ClosePlain(',', Print(r.scoped.value, tail), [k]);
      CloseOver(r.scoped.value, [k], tail);
    }
    if r.default.Some? {
      ClosePlain('=', Print(r.default.value, PrintScoped(r, tail)), [k]);
      CloseOver(r.default.value, [k], PrintScoped(r, tail));
    }
  }

  // ---------------------------------------------------------------------------------------
  // Scanned text was printed
  // ---------------------------------------------------------------------------------------

  /** The offset just past the reference opened at 0, given that its bracket closes. */
  lemma CloseNested(s: string, closer: char)
    requires OpensAt(s, 0) && Close(s, [closer]) >= 0
    ensures var k := CloserOf(s[1]);
            var e := Close(s[2..], [k]);
            && e >= 0
            && Close(s[e + 3..], [closer]) >= 0
            && Close(s, [closer]) == Close(s[e + 3..], [closer]) + e + 3
  {
    var k := CloserOf(s[1]);
    CloseInTwo(s[2..], [closer], [k]);
    assert [closer] + [k] == [closer, k];
    var e := Close(s[2..], [k]);
    assert s[2..][e + 1..] == s[e + 3..];
  }

  /** The tree in front of the closer the scanner finds. */
  function Build(s: string, closer: char): Items
    requires Close(s, [closer]) >= 0
    decreases |s|
  {
    if OpensAt(s, 0) then
      CloseNested(s, closer);
      var k := CloserOf(s[1]);
      Nest(s[1], Build(s[2..], k), Build(s[Close(s[2..], [k]) + 3..], closer))
    else if s[0] == closer then End
    else Chr(s[0], Build(s[1..], closer))
  }

  lemma {:induction false} BuildWf(s: string, closer: char)
    requires Close(s, [closer]) >= 0
    ensures Wf(Build(s, closer), Some(closer))
    decreases |s|
  {
    if OpensAt(s, 0) {
      CloseNested(s, closer);
      var k := CloserOf(s[1]);
      BuildWf(s[2..], k);
      BuildWf(s[Close(s[2..], [k]) + 3..], closer);
    } else if s[0] != closer {
      BuildWf(s[1..], closer);
    }
  }

  /** Printing the tree in front of the closer gives back the scanned text. */
  lemma {:induction false} PrintBuild(s: string, closer: char)
    requires Close(s, [closer]) >= 0
    ensures Print(Build(s, closer), s[Close(s, [closer])..]) == s
    decreases |s|
  {
    if OpensAt(s, 0) {
      CloseNested(s, closer);
      var k := CloserOf(s[1]);
      var e := Close(s[2..], [k]);
      PrintBuild(s[2..], k);
      PrintBuild(s[e + 3..], closer);
      PrintBuildNest(s, closer, e);
    } else if s[0] != closer {
      PrintBuild(s[1..], closer);
      assert s[1..][Close(s[1..], [closer])..] == s[Close(s, [closer])..];
    }
  }

  lemma PrintBuildNest(s: string, closer: char, e: nat)
    requires OpensAt(s, 0) && Close(s, [closer]) >= 0 && Close(s[2..], [CloserOf(s[1])]) == e
    requires e + 3 <= |s| && Close(s[e + 3..], [closer]) >= 0
    requires Print(Build(s[2..], CloserOf(s[1])), s[2..][e..]) == s[2..]
    requires Print(Build(s[e + 3..], closer), s[e + 3..][Close(s[e + 3..], [closer])..]) == s[e + 3..]
    ensures Print(Build(s, closer), s[Close(s, [closer])..]) == s
  {
    hide Close, Build, Print;
    CloseNested(s, closer);
    BuildNest(s, closer, e);
    SliceAfterNested(s, e, CloserOf(s[1]), closer);
    PrintNest(s[1], Build(s[2..], CloserOf(s[1])), Build(s[e + 3..], closer), s[Close(s, [closer])..], s[e + 3..],
              s[2..]);
  }

  lemma PrintNest(open: char, body: Items, tail: Items, rest: string, afterTail: string, afterBody: string)
    requires Print(tail, rest) == afterTail
    requires Print(body, [CloserOf(open)] + afterTail) == afterBody
    ensures Print(Nest(open, body, tail), rest) == ['$', open] + afterBody
  {
  }

  lemma SliceAfterNested(s: string, e: nat, k: char, closer: char)
    requires OpensAt(s, 0) && k == CloserOf(s[1]) && e == Close(s[2..], [k])
    requires Close(s[e + 3..], [closer]) >= 0
    ensures s[e + 3..][Close(s[e + 3..], [closer])..] == s[Close(s[e + 3..], [closer]) + e + 3..]
    ensures s[2..][e..] == [k] + s[e + 3..]
    ensures ['$', s[1]] + s[2..] == s
  {
    CloserFound(s[2..], [k]);
  }

  /** A tree is recovered from its print: two different trees never print alike. */
  lemma {:induction false} BuildPrint(t: Items, closer: char, rest: string)
    requires closer == ')' || closer == '}'
    requires Wf(t, Some(closer)) && rest != "" && rest[0] == closer
    ensures Close(Print(t, rest), [closer]) == Size(t)
    ensures Build(Print(t, rest), closer) == t
  {
    assert Close(rest, [closer]) == 0;
    CloseOver(t, [closer], rest);
    match t
    case End =>
    case Chr(c, tail) =>
      BuildPrint(tail, closer, rest);
      hide Print, Close, Wf;
      PlainAhead(c, tail, Some(closer), rest);
      assert ([c] + Print(tail, rest))[1..] == Print(tail, rest);
    case Nest(open, body, tail) =>
      hide Print, Close, Wf, Build;
      NestAhead(open, body, tail, Some(closer), rest);
      BuildPrint(body, CloserOf(open), [CloserOf(open)] + Print(tail, rest));
      BuildPrint(tail, closer, rest);
      BuildPrintNest(open, body, tail, closer, rest);
  }

  lemma BuildPrintNest(open: char, body: Items, tail: Items, closer: char, rest: string)
    requires IsOpen(open)
    requires var s := Print(body, [CloserOf(open)] + Print(tail, rest));
             Close(s, [CloserOf(open)]) == Size(body) && Build(s, CloserOf(open)) == body
    requires Close(Print(tail, rest), [closer]) >= 0 && Build(Print(tail, rest), closer) == tail
    requires Close(Print(Nest(open, body, tail), rest), [closer]) >= 0
    ensures Build(Print(Nest(open, body, tail), rest), closer) == Nest(open, body, tail)
  {
    hide Print, Close, Build, Size;
    PrintedNest(open, body, tail, rest);
    BuildNest(Print(Nest(open, body, tail), rest), closer, Size(body));
  }

  lemma BuildNest(s: string, closer: char, e: nat)
    requires OpensAt(s, 0) && Close(s, [closer]) >= 0 && Close(s[2..], [CloserOf(s[1])]) == e
    ensures e + 3 <= |s| && Close(s[e + 3..], [closer]) >= 0
    ensures Build(s, closer) == Nest(s[1], Build(s[2..], CloserOf(s[1])), Build(s[e + 3..], closer))
  {
    CloseNested(s, closer);
  }

  /** Where the parts of a bracketed text begin. */
  lemma NestSlices(open: char, body: string, k: char, after: string)
    ensures var s := ['$', open] + (body + ([k] + after));
            && |s| >= 3 && s[0] == '$' && s[1] == open && s[2..] == body + ([k] + after)
            && |body| + 3 <= |s| && s[|body| + 3..] == after
  {
  }

  lemma PrintedNest(open: char, body: Items, tail: Items, rest: string)
    requires IsOpen(open)
    ensures var s := Print(Nest(open, body, tail), rest);
            && OpensAt(s, 0) && s[1] == open
            && s[2..] == Print(body, [CloserOf(open)] + Print(tail, rest))
            && s[Size(body) + 3..] == Print(tail, rest)
  {
    var after := Print(tail, rest);
    NestText(open, body, tail, rest);
    TextThen(body, [CloserOf(open)] + after);
    hide Print;
    NestSlices(open, Text(body), CloserOf(open), after);
  }

  lemma NestText(open: char, body: Items, tail: Items, rest: string)
    ensures Print(Nest(open, body, tail), rest) == ['$', open] + Print(body, [CloserOf(open)] + Print(tail, rest))
    ensures |Text(body)| == Size(body)
  {
  }

  /** The items before the first top-level separator, and the items from it on. */
  function Cut(t: Items, seps: string): (Items, Items) {
    match t
    case End => (End, End)
    case Chr(c, tail) =>
      if c in seps then (End, t) else (Chr(c, Cut(tail, seps).0), Cut(tail, seps).1)
    case Nest(open, body, tail) => (Nest(open, body, Cut(tail, seps).0), Cut(tail, seps).1)
  }

  lemma {:induction false} CutParts(t: Items, seps: string, closer: Option<char>, rest: string)
    requires Wf(t, closer)
    ensures Print(Cut(t, seps).0, Print(Cut(t, seps).1, rest)) == Print(t, rest)
    ensures Wf(Cut(t, seps).0, closer) && NoTop(Cut(t, seps).0, seps)
    ensures Wf(Cut(t, seps).1, closer)
    ensures Cut(t, seps).1.End? || (Cut(t, seps).1.Chr? && Cut(t, seps).1.c in seps)
  {
    match t
    case End =>
    case Chr(c, tail) =>
      CutParts(tail, seps, closer, rest);
    case Nest(_, _, tail) =>
      CutParts(tail, seps, closer, rest);
  }

  lemma {:induction false} CutSize(t: Items, seps: string)
    ensures Size(Cut(t, seps).0) <= Size(t)
  {
    match t
    case End =>
    case Chr(_, tail) => CutSize(tail, seps);
    case Nest(_, _, tail) => CutSize(tail, seps);
  }

  /** The reference a successful bracket match delimits. */
  function ReferenceOf(open: char, body: Items): Reference {
    var (name, rest) := Cut(body, "=,");
    if !rest.Chr? then Reference(open, name, None, None)
    else if rest.c == ',' then Reference(open, name, None, Some(rest.tail))
    else
      var (default, scoped) := Cut(rest.tail, ",");
      Reference(open, name, Some(default), if scoped.Chr? then Some(scoped.tail) else None)
  }

  lemma ReferenceOfPrints(open: char, body: Items, rest: string)
    requires IsOpen(open) && Wf(body, Some(CloserOf(open)))
    ensures WfReference(ReferenceOf(open, body))
    ensures PrintBody(ReferenceOf(open, body), rest) == Print(body, rest)
  {
    hide Cut;
    var k := Some(CloserOf(open));
    CutParts(body, "=,", k, rest);
    var after := Cut(body, "=,").1;
    if after.Chr? && after.c != ',' {
      CutParts(after.tail, ",", k, rest);
      DefaultedPrints(open, body, rest);
    }
  }

  /** The case with a default. */
  lemma DefaultedPrints(open: char, body: Items, rest: string)
    requires var after := Cut(body, "=,").1;
             && after.Chr? && after.c == '='
             && Print(Cut(body, "=,").0, Print(after, rest)) == Print(body, rest)
             && Print(Cut(after.tail, ",").0, Print(Cut(after.tail, ",").1, rest)) == Print(after.tail, rest)
             && (Cut(after.tail, ",").1.End? || (Cut(after.tail, ",").1.Chr? && Cut(after.tail, ",").1.c == ','))
    ensures PrintBody(ReferenceOf(open, body), rest) == Print(body, rest)
  {
    hide Cut;
    var after := Cut(body, "=,").1;
    var r := ReferenceOf(open, body);
    assert PrintScoped(r, rest) == Print(Cut(after.tail, ",").1, rest);
    assert PrintRest(r, rest) == Print(after, rest);
  }

  /** Every stretch the scanner accepts is the print of a well-formed reference. */
  lemma AcceptedIsPrinted(text: string)
    requires OpensAt(text, 0) && Close(text[2..], [CloserOf(text[1])]) >= 0
    ensures var k := CloserOf(text[1]);
            var r := ReferenceOf(text[1], Build(text[2..], k));
            && WfReference(r)
            && PrintReference(r, text[Close(text[2..], [k]) + 3..]) == text
            && PrintReference(r, "") == text[..Close(text[2..], [k]) + 3]
  {
    hide Close, Build, Print, Cut, Wf;
    var k := CloserOf(text[1]);
    var e := Close(text[2..], [k]);
    var body := Build(text[2..], k);
    var after := text[e + 3..];
    BuildWf(text[2..], k);
    PrintBuild(text[2..], k);
    AfterCloser(text, e, k);
    var r := ReferenceOf(text[1], body);
    ReferenceOfPrints(text[1], body, [k] + after);
    ReferenceAppend(r, after);
    assert PrintReference(r, after) == ['$', text[1]] + text[2..];
    PrefixOf(PrintReference(r, ""), text, e + 3);
  }

  lemma AfterCloser(text: string, e: nat, k: char)
    requires OpensAt(text, 0) && k == CloserOf(text[1]) && e == Close(text[2..], [k])
    ensures text[2..][e..] == [k] + text[e + 3..]
    ensures ['$', text[1]] + text[2..] == text
  {
    CloserFound(text[2..], [k]);
  }

  lemma PrefixOf(x: string, text: string, n: nat)
    requires n <= |text| && x + text[n..] == text
    ensures x == text[..n]
  {
    assert |x| == n;
    assert (x + text[n..])[..n] == x;
  }

  lemma TextInjective(a: Items, b: Items, closer: char)
    requires closer == ')' || closer == '}'
    requires Wf(a, Some(closer)) && Wf(b, Some(closer)) && Text(a) == Text(b)
    ensures a == b
  {
    TextThen(a, [closer]);
    TextThen(b, [closer]);
    BuildPrint(a, closer, [closer]);
    BuildPrint(b, closer, [closer]);
  }

  /** The grammar is unambiguous: two well-formed references with the same text are the same. */
  lemma PrintInjective(a: Reference, b: Reference)
    requires WfReference(a) && WfReference(b)
    requires PrintReference(a, "") == PrintReference(b, "")
    ensures a == b
  {
    hide PrintBody, Split, Default, FirstTop, Close;
    assert PrintReference(a, "")[1] == a.open && PrintReference(b, "")[1] == b.open;
    ReferenceBody(a);
    ReferenceBody(b);
    ScanPrinted(a, "");
    ScanPrinted(b, "");
    TextInjective(a.name, b.name, CloserOf(a.open));
    SameRest(a, b);
  }

  lemma ReferenceBody(r: Reference)
    ensures var text := PrintReference(r, "");
            |text| >= 3 && text[2..|text| - 1] == PrintBody(r, "")
  {
    var k := CloserOf(r.open);
    assert "" + [k] == [k] && [k] + "" == [k];
    BodyAppend(r, "", [k]);
  }

  lemma SameRest(a: Reference, b: Reference)
    requires WfReference(a) && WfReference(b) && a.open == b.open
    requires PrintRest(a, "") == PrintRest(b, "")
    requires Default(PrintRest(a, "")) == if a.default.Some? then Some(Text(a.default.value)) else None
    requires Default(PrintRest(b, "")) == if b.default.Some? then Some(Text(b.default.value)) else None
    ensures a.default == b.default && a.scoped == b.scoped
  {
    var k := CloserOf(a.open);
    if a.default.Some? {
      TextInjective(a.default.value, b.default.value, k);
      TextThen(a.default.value, PrintScoped(a, ""));
      TextThen(b.default.value, PrintScoped(b, ""));
      assert PrintRest(a, "")[1..] == Print(a.default.value, PrintScoped(a, ""));
      assert PrintRest(b, "")[1..] == Print(b.default.value, PrintScoped(b, ""));
    }
    assert PrintScoped(a, "") == PrintScoped(b, "");
    if a.scoped.Some? {
      assert PrintScoped(a, "")[1..] == Text(a.scoped.value);
      assert PrintScoped(b, "")[1..] == Text(b.scoped.value);
      TextInjective(a.scoped.value, b.scoped.value, k);
    }
  }

  /** A tree carries a nested reference exactly when its text carries a macro opener. */
  lemma {:induction false} NestShows(t: Items, closer: Option<char>)
    requires Wf(t, closer)
    ensures HasMacroRef(Text(t)) <==> HasNest(t)
  {
    match t
    case End =>
    case Chr(c, tail) =>
      NestShows(tail, closer);
      OpenersAfterFirst(Text(t));
      assert Text(t)[1..] == Text(tail);
    case Nest(open, body, tail) =>
      assert OpensAt(Text(t), 0);
  }

  lemma OpenersAfterFirst(s: string)
    requires s != ""
    ensures HasMacroRef(s) <==> OpensAt(s, 0) || HasMacroRef(s[1..])
  {
    if HasMacroRef(s) && !OpensAt(s, 0) {
      var i :| 0 <= i < |s| && OpensAt(s, i);
      assert OpensAt(s[1..], i - 1);
    }
    if HasMacroRef(s[1..]) {
      var i :| 0 <= i < |s[1..]| && OpensAt(s[1..], i);
      assert OpensAt(s, i + 1);
    }
  }
}
