/**
  The three scanners of a macro reference: the bracket matcher, the body splitter and the
  default extractor. Each is a loop over an index and a stack of expected closers; each is
  proved to compute a recursive function of the remaining text.
 */
module MacroScan {
  import opened Prelude

  /** A `$` directly followed by `(` or `{` opens a reference; a bare bracket does not. */
  predicate OpensAt(text: string, i: int) {
    0 <= i && i + 1 < |text| && text[i] == '$' && (text[i + 1] == '(' || text[i + 1] == '{')
  }

  function CloserOf(open: char): char {
    if open == '(' then ')' else '}'
  }

  predicate HasMacroRef(text: string) {
    exists i :: 0 <= i < |text| && OpensAt(text, i)
  }

  function Top(stack: seq<char>): char
    requires stack != []
  {
    stack[|stack| - 1]
  }

  function Pop(stack: seq<char>): seq<char>
    requires stack != []
  {
    stack[..|stack| - 1]
  }

  /** An offset found further right, or -1 for "not found". */
  function Shift(offset: int, delta: nat): int {
    if offset < 0 then -1 else offset + delta
  }

  /** Offset in `s` of the bracket that empties `stack`, or -1. */
  function Close(s: string, stack: seq<char>): (e: int)
    requires stack != []
    ensures -1 <= e < |s|
    decreases |s|
  {
    if s == "" then -1
    else if OpensAt(s, 0) then Shift(Close(s[2..], stack + [CloserOf(s[1])]), 2)
    else if s[0] != Top(stack) then Shift(Close(s[1..], stack), 1)
    else if |stack| == 1 then 0
    else Shift(Close(s[1..], Pop(stack)), 1)
  }

  /** Offset in `s` of the first character of `seps` outside every nested reference, or |s|. */
  function FirstTop(s: string, stack: seq<char>, seps: string): (k: nat)
    ensures k <= |s|
    ensures k < |s| ==> s[k] in seps
    decreases |s|
  {
    if s == "" then 0
    else if OpensAt(s, 0) then 2 + FirstTop(s[2..], stack + [CloserOf(s[1])], seps)
    else if stack != [] && s[0] == Top(stack) then 1 + FirstTop(s[1..], Pop(stack), seps)
    else if stack == [] && s[0] in seps then 0
    else 1 + FirstTop(s[1..], stack, seps)
  }

  /** What the splitter returns: the name, and the raw rest with its leading separator. */
  function Split(body: string): (parts: (string, string))
    ensures parts.0 + parts.1 == body
    ensures parts.1 != "" ==> parts.1[0] == '=' || parts.1[0] == ','
  {
    var k := FirstTop(body, [], "=,");
    (body[..k], body[k..])
  }

  /** What the default extractor returns. */
  function Default(rest: string): (d: Option<string>)
    ensures d.Some? <==> rest != "" && rest[0] == '='
    ensures d.Some? ==> StartsWith(rest, "=" + d.value)
    ensures d.Some? && 1 + |d.value| < |rest| ==> rest[1 + |d.value|] == ','
  {
    if rest == "" || rest[0] != '=' then None
    else Some(rest[1..][..FirstTop(rest[1..], [], ",")])
  }

  /** One step of the bracket matcher, at an index into the whole text. */
  lemma CloseAt(text: string, index: nat, stack: seq<char>)
    requires index < |text| && stack != []
    ensures Close(text[index..], stack)
         == if OpensAt(text, index) then Shift(Close(text[index + 2..], stack + [CloserOf(text[index + 1])]), 2)
            else if text[index] != Top(stack) then Shift(Close(text[index + 1..], stack), 1)
            else if |stack| == 1 then 0
            else Shift(Close(text[index + 1..], Pop(stack)), 1)
  {
    var s := text[index..];
    assert s[1..] == text[index + 1..];
    if OpensAt(text, index) {
      assert s[2..] == text[index + 2..];
    }
  }

  /** One step of the top-level scan, at an index into the whole text. */
  lemma TopAt(text: string, index: nat, stack: seq<char>, seps: string)
    requires index < |text|
    ensures FirstTop(text[index..], stack, seps)
         == if OpensAt(text, index) then 2 + FirstTop(text[index + 2..], stack + [CloserOf(text[index + 1])], seps)
            else if stack != [] && text[index] == Top(stack) then 1 + FirstTop(text[index + 1..], Pop(stack), seps)
            else if stack == [] && text[index] in seps then 0
            else 1 + FirstTop(text[index + 1..], stack, seps)
  {
    var s := text[index..];
    assert s[1..] == text[index + 1..];
    if OpensAt(text, index) {
      assert s[2..] == text[index + 2..];
    }
  }

  /** What is found is the closer at the bottom of the stack. */
  lemma {:induction false} CloserFound(s: string, stack: seq<char>)
    requires stack != [] && Close(s, stack) >= 0
    ensures s[Close(s, stack)] == stack[0]
    decreases |s|
  {
    if OpensAt(s, 0) {
      CloserFound(s[2..], stack + [CloserOf(s[1])]);
    } else if s[0] != Top(stack) {
      CloserFound(s[1..], stack);
    } else if |stack| > 1 {
      CloserFound(s[1..], Pop(stack));
    }
  }

  /** A reference closes with the bracket of its own kind: `)` for `(`, else `}`. */
  predicate ClosesInKind(text: string, start: nat, end: int)
    requires start + 1 < |text|
  {
    end >= 0 ==> start + 2 <= end < |text| && text[end] == if text[start + 1] == '(' then ')' else '}'
  }

  lemma FoundInKind(text: string, start: nat)
    requires start + 1 < |text|
    ensures ClosesInKind(text, start, Shift(Close(text[start + 2..], [CloserOf(text[start + 1])]), start + 2))
  {
    if Close(text[start + 2..], [CloserOf(text[start + 1])]) >= 0 {
      CloserFound(text[start + 2..], [CloserOf(text[start + 1])]);
    }
  }

  method FindClosingBracket(text: string, start: nat) returns (end: int)
    requires start + 1 < |text|
    ensures end == Shift(Close(text[start + 2..], [CloserOf(text[start + 1])]), start + 2)
    ensures ClosesInKind(text, start, end)
  {
    hide Close;
    var expected := [CloserOf(text[start + 1])];
    var index := start + 2;
    while index < |text|
      invariant start + 2 <= index <= |text|
      invariant expected != []
      invariant Shift(Close(text[start + 2..], [CloserOf(text[start + 1])]), start + 2)
             == Shift(Close(text[index..], expected), index)
    {
      CloseAt(text, index, expected);
      if OpensAt(text, index) {
        expected := expected + [CloserOf(text[index + 1])];
        index := index + 2;
        continue;
      }
      if text[index] == expected[|expected| - 1] {
        expected := expected[..|expected| - 1];
        if expected == [] {
          FoundInKind(text, start);
          return index;
        }
      }
      index := index + 1;
    }
    end := -1;
  }

  method SplitBody(body: string) returns (name: string, rest: string)
    ensures (name, rest) == Split(body)
  {
    hide FirstTop;
    var expected: seq<char> := [];
    var index := 0;
    assert body[0..] == body;
    while index < |body|
      invariant index <= |body|
      invariant FirstTop(body, [], "=,") == index + FirstTop(body[index..], expected, "=,")
    {
      TopAt(body, index, expected, "=,");
      if OpensAt(body, index) {
        expected := expected + [CloserOf(body[index + 1])];
        index := index + 2;
        continue;
      }
      var ch := body[index];
      if expected != [] && ch == expected[|expected| - 1] {
        expected := expected[..|expected| - 1];
      } else if expected == [] && ch in "=," {
        return body[..index], body[index..];
      }
      index := index + 1;
    }
    assert body[..|body|] == body;
    return body, "";
  }

  lemma SliceMore(s: string, i: nat, j: nat)
    requires i <= j < |s|
    ensures s[i..j] + [s[j]] == s[i..j + 1]
  {
  }

  method DefaultFromRest(rest: string) returns (default: Option<string>)
    ensures default == Default(rest)
  {
    hide FirstTop;
    if rest == "" || rest[0] != '=' {
      return None;
    }
    var collected := "";
    var expected: seq<char> := [];
    var index := 1;
    while index < |rest|
      invariant 1 <= index <= |rest|
      invariant collected == rest[1..index]
      invariant FirstTop(rest[1..], [], ",") == index - 1 + FirstTop(rest[index..], expected, ",")
    {
      TopAt(rest, index, expected, ",");
      SliceMore(rest, 1, index);
      if OpensAt(rest, index) {
        SliceMore(rest, 1, index + 1);
        expected := expected + [CloserOf(rest[index + 1])];
        collected := collected + [rest[index]] + [rest[index + 1]];
        index := index + 2;
        continue;
      }
      var ch := rest[index];
      if expected != [] && ch == expected[|expected| - 1] {
        expected := expected[..|expected| - 1];
      } else if expected == [] && ch in "," {
        break;
      }
      collected := collected + [ch];
      index := index + 1;
    }
    FirstTopStops(rest, index, expected, ",");
    SliceOfSlice(rest, index);
    return Some(collected);
  }

  /** Where the loop has stopped there is nothing more to skip. */
  lemma FirstTopStops(s: string, index: nat, stack: seq<char>, seps: string)
    requires index <= |s|
    requires index == |s| || (stack == [] && s[index] in seps && !OpensAt(s, index))
    ensures FirstTop(s[index..], stack, seps) == 0
  {
    if index < |s| {
      TopAt(s, index, stack, seps);
    }
  }

  lemma SliceOfSlice(s: string, index: nat)
    requires 1 <= index <= |s|
    ensures s[1..index] == s[1..][..index - 1]
  {
  }

  /** A closing bracket found in `s` is found at the same place whatever text follows. */
  lemma {:induction false} CloseIgnoresSuffix(s: string, x: string, stack: seq<char>)
    requires stack != [] && '$' !in stack && Close(s, stack) >= 0
    ensures Close(s + x, stack) == Close(s, stack)
    decreases |s|
  {
    var t := s + x;
    assert t[1..] == s[1..] + x;
    if OpensAt(s, 0) {
      assert t[2..] == s[2..] + x;
      CloseIgnoresSuffix(s[2..], x, stack + [CloserOf(s[1])]);
    } else {
      if s[0] != Top(stack) {
        CloseIgnoresSuffix(s[1..], x, stack);
      } else if |stack| > 1 {
        CloseIgnoresSuffix(s[1..], x, Pop(stack));
      }
    }
  }

  /** One step of the bracket matcher. */
  lemma CloseStep(s: string, stack: seq<char>)
    requires s != "" && stack != []
    ensures Close(s, stack)
         == if OpensAt(s, 0) then Shift(Close(s[2..], stack + [CloserOf(s[1])]), 2)
            else if s[0] != Top(stack) then Shift(Close(s[1..], stack), 1)
            else if |stack| == 1 then 0
            else Shift(Close(s[1..], Pop(stack)), 1)
  {
  }

  lemma DropDrop(s: string, i: nat, j: nat)
    requires i + j <= |s|
    ensures s[i..][j..] == s[i + j..]
  {
  }

  lemma TopOfUpper(base: seq<char>, upper: seq<char>)
    requires upper != []
    ensures Top(base + upper) == Top(upper) && Pop(base + upper) == base + Pop(upper)
    ensures |upper| == 1 ==> Pop(base + upper) == base
  {
  }

  /** A deeper stack closes by closing its upper part first and then its base. */
  lemma {:induction false} CloseInTwo(s: string, base: seq<char>, upper: seq<char>)
    requires base != [] && upper != []
    ensures Close(s, base + upper)
         == if Close(s, upper) < 0 then -1
            else Shift(Close(s[Close(s, upper) + 1..], base), Close(s, upper) + 1)
    decreases |s|, 0
  {
    if s != "" {
      hide Close;
      CloseStep(s, base + upper);
      CloseStep(s, upper);
      TopOfUpper(base, upper);
      if OpensAt(s, 0) {
        var k := CloserOf(s[1]);
        assert base + upper + [k] == base + (upper + [k]);
        CloseDeeper(s, base, upper + [k], 2);
      } else if s[0] != Top(upper) {
        CloseDeeper(s, base, upper, 1);
      } else if |upper| > 1 {
        CloseDeeper(s, base, Pop(upper), 1);
      }
    }
  }

  /** The claim for the text behind the first `n` characters, as an offset into the whole. */
  lemma {:induction false} CloseDeeper(s: string, base: seq<char>, upper: seq<char>, n: nat)
    requires 0 < n <= |s| && base != [] && upper != []
    ensures var e := Close(s[n..], upper);
            && (e < 0 ==> Close(s[n..], base + upper) == -1)
            && (e >= 0 ==> Close(s[n..], base + upper) == Shift(Close(s[e + 1 + n..], base), e + 1))
    decreases |s| - n, 1
  {
    CloseInTwo(s[n..], base, upper);
    hide Close;
    var e := Close(s[n..], upper);
    if e >= 0 {
      DropDrop(s, n, e + 1);
    }
  }
}
