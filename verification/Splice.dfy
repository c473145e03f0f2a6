/**
  Replacing a span of bytes addressed by line and column, with every line ending kept as it is.
 */
module Splice {

  newtype byte = x: int | 0 <= x < 256

  type Bytes = seq<byte>

  const LF: byte := 10
  const CR: byte := 13

  predicate IsBreak(b: byte) {
    b == LF || b == CR
  }

  predicate NoBreak(d: Bytes) {
    forall i :: 0 <= i < |d| ==> !IsBreak(d[i])
  }

  /** Length of the first line, its ending (LF, CR or CRLF) included. */
  function LineLength(d: Bytes): (n: nat)
    requires d != []
    ensures 1 <= n <= |d|
  {
    if d[0] == LF then 1
    else if d[0] == CR then (if |d| > 1 && d[1] == LF then 2 else 1)
    else if |d| == 1 then 1
    else 1 + LineLength(d[1..])
  }

  /** `splitlines(keepends=True)` on bytes. */
  function SplitLines(d: Bytes): seq<Bytes> {
    if d == [] then []
    else
      var n := LineLength(d);
      [d[..n]] + SplitLines(d[n..])
  }

  function Concat(lines: seq<Bytes>): Bytes {
    if lines == [] then [] else lines[0] + Concat(lines[1..])
  }

  /** A span: lines counted from 1, columns in bytes from 0. */
  datatype Target = Target(lineno: nat, col: nat, endLineno: nat, endCol: nat)

  predicate LinesExist(lines: seq<Bytes>, t: Target) {
    1 <= t.lineno <= t.endLineno <= |lines|
  }

  /** A slice bound past the end is the end. */
  function Clamp(col: nat, line: Bytes): nat {
    if col <= |line| then col else |line|
  }

  /** The visible part of the first line before the span, and of the last line behind it. */
  function Head(lines: seq<Bytes>, t: Target): Bytes
    requires LinesExist(lines, t)
  {
    lines[t.lineno - 1][..Clamp(t.col, lines[t.lineno - 1])]
  }

  function TailOf(lines: seq<Bytes>, t: Target): Bytes
    requires LinesExist(lines, t)
  {
    lines[t.endLineno - 1][Clamp(t.endCol, lines[t.endLineno - 1])..]
  }

  function SpliceLines(lines: seq<Bytes>, t: Target, replacement: Bytes): Bytes
    requires LinesExist(lines, t)
  {
    Concat(lines[..t.lineno - 1] + [Head(lines, t) + replacement + TailOf(lines, t)] + lines[t.endLineno..])
  }

  function SpliceBytes(data: Bytes, t: Target, replacement: Bytes): Bytes
    requires LinesExist(SplitLines(data), t)
  {
    SpliceLines(SplitLines(data), t, replacement)
  }

  /** Byte offset of a line and column. */
  function Offset(lines: seq<Bytes>, lineno: nat, col: nat): nat
    requires 1 <= lineno <= |lines|
  {
    |Concat(lines[..lineno - 1])| + Clamp(col, lines[lineno - 1])
  }

  lemma {:induction false} ConcatAppend(a: seq<Bytes>, b: seq<Bytes>)
    ensures Concat(a + b) == Concat(a) + Concat(b)
  {
    if a == [] {
      assert a + b == b;
    } else {
      assert (a + b)[1..] == a[1..] + b;
      ConcatAppend(a[1..], b);
    }
  }

  lemma {:induction false} ConcatSplit(d: Bytes)
    ensures Concat(SplitLines(d)) == d
  {
    if d != [] {
      ConcatSplit(d[LineLength(d)..]);
    }
  }

  /** The text around line `k`, in bytes. */
  lemma AroundLine(lines: seq<Bytes>, k: nat)
    requires k < |lines|
    ensures Concat(lines) == Concat(lines[..k]) + (lines[k] + Concat(lines[k + 1..]))
  {
    assert lines == lines[..k] + lines[k..];
    ConcatAppend(lines[..k], lines[k..]);
    assert lines[k..][0] == lines[k] && lines[k..][1..] == lines[k + 1..];
  }

  lemma CutAt(whole: Bytes, before: Bytes, line: Bytes, after: Bytes, c: nat)
    requires whole == before + (line + after) && c <= |line|
    ensures |before| + c <= |whole|
    ensures whole[..|before| + c] == before + line[..c]
    ensures whole[|before| + c..] == line[c..] + after
  {
  }

  /** Cutting the text at a line and column. */
  lemma CutAtOffset(lines: seq<Bytes>, lineno: nat, col: nat)
    requires 1 <= lineno <= |lines|
    ensures var o, line := Offset(lines, lineno, col), lines[lineno - 1];
            && o <= |Concat(lines)|
            && Concat(lines)[..o] == Concat(lines[..lineno - 1]) + line[..Clamp(col, line)]
            && Concat(lines)[o..] == line[Clamp(col, line)..] + Concat(lines[lineno..])
  {
    hide Concat;
    AroundLine(lines, lineno - 1);
    var line := lines[lineno - 1];
    CutAt(Concat(lines), Concat(lines[..lineno - 1]), line, Concat(lines[lineno..]), Clamp(col, line));
  }

  lemma SplicedText(lines: seq<Bytes>, t: Target, r: Bytes)
    requires LinesExist(lines, t)
    ensures SpliceLines(lines, t, r)
         == Concat(lines[..t.lineno - 1]) + (Head(lines, t) + r + TailOf(lines, t)) + Concat(lines[t.endLineno..])
  {
    hide Concat, Clamp;
    JoinedLines(lines[..t.lineno - 1], Head(lines, t) + r + TailOf(lines, t), lines[t.endLineno..]);
  }

  lemma SpliceLinesExact(lines: seq<Bytes>, t: Target, r: Bytes)
    requires LinesExist(lines, t)
    ensures var start, end := Offset(lines, t.lineno, t.col), Offset(lines, t.endLineno, t.endCol);
            && start <= |Concat(lines)| && end <= |Concat(lines)|
            && SpliceLines(lines, t, r) == Concat(lines)[..start] + r + Concat(lines)[end..]
  {
    hide Concat, Offset, Clamp, SpliceLines;
    var start, end := Offset(lines, t.lineno, t.col), Offset(lines, t.endLineno, t.endCol);
    CutAtOffset(lines, t.lineno, t.col);
    CutAtOffset(lines, t.endLineno, t.endCol);
    SplicedText(lines, t, r);
    Assemble(Concat(lines), start, end, Concat(lines[..t.lineno - 1]), Head(lines, t), r, TailOf(lines, t),
             Concat(lines[t.endLineno..]));
  }

  lemma Assemble(whole: Bytes, start: nat, end: nat, a: Bytes, head: Bytes, r: Bytes, tail: Bytes, b: Bytes)
    requires start <= |whole| && end <= |whole|
    requires whole[..start] == a + head && whole[end..] == tail + b
    ensures a + (head + r + tail) + b == whole[..start] + r + whole[end..]
  {
  }

  /** The result is the bytes before the span, the replacement, and the bytes after the span. */
  lemma SpliceExact(data: Bytes, t: Target, replacement: Bytes)
    requires LinesExist(SplitLines(data), t)
    ensures var lines := SplitLines(data);
            var start, end := Offset(lines, t.lineno, t.col), Offset(lines, t.endLineno, t.endCol);
            && start <= |data| && end <= |data|
            && SpliceBytes(data, t, replacement) == data[..start] + replacement + data[end..]
  {
    hide SplitLines, Concat, Offset, SpliceLines;
    ConcatSplit(data);
    SpliceLinesExact(SplitLines(data), t, replacement);
  }

  lemma JoinedLines(a: seq<Bytes>, m: Bytes, b: seq<Bytes>)
    ensures Concat(a + [m] + b) == Concat(a) + m + Concat(b)
  {
    ConcatAppend(a + [m], b);
    ConcatAppend(a, [m]);
    assert [m][1..] == [] && Concat([m]) == m;
  }

  // ---------------------------------------------------------------------------------------
  // Undoing a splice
  // ---------------------------------------------------------------------------------------

  /** The span lies inside the visible text of its lines, before their endings, in order. */
  predicate InText(lines: seq<Bytes>, t: Target) {
    && LinesExist(lines, t)
    && t.col <= |lines[t.lineno - 1]| && NoBreak(lines[t.lineno - 1][..t.col])
    && t.endCol <= |lines[t.endLineno - 1]|
    && Offset(lines, t.lineno, t.col) <= Offset(lines, t.endLineno, t.endCol)
  }

  /** Where the replacement sits afterwards. */
  function Replaced(t: Target, replacement: Bytes): Target {
    Target(t.lineno, t.col, t.lineno, t.col + |replacement|)
  }

  lemma {:induction false} LongLine(p: Bytes, y: Bytes)
    requires NoBreak(p) && p != []
    ensures LineLength(p + y) >= |p|
  {
    if |p| > 1 {
      LongLine(p[1..], y);
      assert (p + y)[1..] == p[1..] + y;
    }
  }

  /** The first line ends the same way whatever replaces the text two bytes behind its end. */
  lemma {:induction false} SameFirstLine(d: Bytes, m: Bytes)
    requires d != [] && LineLength(d) < |d| && |m| > LineLength(d)
    requires m[..LineLength(d)] == d[..LineLength(d)]
    requires m[LineLength(d)] == LF ==> d[LineLength(d)] == LF
    ensures LineLength(m) == LineLength(d)
  {
    var n := LineLength(d);
    assert forall i :: 0 <= i < n ==> m[i] == m[..n][i] == d[..n][i] == d[i];
    if !IsBreak(d[0]) && |d| > 1 {
      assert d[1..][..n - 1] == d[..n][1..] && m[1..][..n - 1] == m[..n][1..];
      SameFirstLine(d[1..], m[1..]);
    }
  }

  /** Lines wholly before a change are the same lines after it. */
  lemma {:induction false} SameLinesBefore(d: Bytes, m: Bytes, k: nat)
    requires k < |SplitLines(d)|
    requires var before := |Concat(SplitLines(d)[..k])|;
             && before < |d| && before < |m| && m[..before] == d[..before]
             && (m[before] == LF ==> d[before] == LF)
    ensures |SplitLines(m)| > k && SplitLines(m)[..k] == SplitLines(d)[..k]
    ensures SplitLines(m)[k] == m[|Concat(SplitLines(d)[..k])|..][..LineLength(m[|Concat(SplitLines(d)[..k])|..])]
    decreases k
  {
    hide SplitLines, Concat, LineLength;
    if k == 0 {
      FirstLineIs(d, m);
    } else {
      var n := LineLength(d);
      var before := |Concat(SplitLines(d)[..k])|;
      FirstLineOff(d, k);
      PrefixSlices(d, m, n, before);
      SameFirstLine(d, m);
      SameLinesBefore(d[n..], m[n..], k - 1);
      FirstLineOff(m, k);
      assert m[n..][before - n..] == m[before..];
    }
  }

  lemma FirstLineIs(d: Bytes, m: Bytes)
    requires m != []
    ensures |Concat(SplitLines(d)[..0])| == 0 && m[0..] == m
    ensures |SplitLines(m)| > 0 && SplitLines(m)[0] == m[..LineLength(m)] && SplitLines(m)[..0] == SplitLines(d)[..0]
  {
  }

  /** Taking the first line off. */
  lemma FirstLineOff(d: Bytes, k: nat)
    requires d != [] && 0 < k
    ensures var n := LineLength(d);
            && |SplitLines(d)| == 1 + |SplitLines(d[n..])|
            && (k <= |SplitLines(d)| ==>
                  && SplitLines(d)[..k] == [d[..n]] + SplitLines(d[n..])[..k - 1]
                  && |Concat(SplitLines(d)[..k])| == n + |Concat(SplitLines(d[n..])[..k - 1])|)
            && (k < |SplitLines(d)| ==> SplitLines(d)[k] == SplitLines(d[n..])[k - 1])
  {
    var n := LineLength(d);
    if k <= |SplitLines(d)| {
      assert SplitLines(d)[..k] == [d[..n]] + SplitLines(d[n..])[..k - 1];
      assert ([d[..n]] + SplitLines(d[n..])[..k - 1])[1..] == SplitLines(d[n..])[..k - 1];
    }
  }

  lemma PrefixSlices(d: Bytes, m: Bytes, n: nat, before: nat)
    requires n <= before < |d| && before < |m| && m[..before] == d[..before]
    ensures m[..n] == d[..n] && m[n..][..before - n] == d[n..][..before - n]
    ensures m[n..][before - n] == m[before] && d[n..][before - n] == d[before]
    ensures n < before ==> m[n] == d[n]
  {
    assert m[..n] == m[..before][..n] && d[..n] == d[..before][..n];
    assert m[n..][..before - n] == m[..before][n..] && d[n..][..before - n] == d[..before][n..];
    if n < before {
      assert m[n] == m[..before][n] && d[n] == d[..before][n];
    }
  }

  /** Splicing the original span back over the replacement restores the file byte for byte. */
  lemma SpliceBack(data: Bytes, t: Target, replacement: Bytes)
    requires InText(SplitLines(data), t)
    requires replacement != [] && NoBreak(replacement)
    ensures var lines := SplitLines(data);
            var start, end := Offset(lines, t.lineno, t.col), Offset(lines, t.endLineno, t.endCol);
            var mutated := SpliceBytes(data, t, replacement);
            && start <= end <= |data|
            && LinesExist(SplitLines(mutated), Replaced(t, replacement))
            && SpliceBytes(mutated, Replaced(t, replacement), data[start..end]) == data
  {
    hide SplitLines, Concat, Offset, Clamp, SpliceBytes, NoBreak;
    var lines := SplitLines(data);
    var start, end := Offset(lines, t.lineno, t.col), Offset(lines, t.endLineno, t.endCol);
    var mutated := SpliceBytes(data, t, replacement);
    SpliceExact(data, t, replacement);
    MutatedLine(data, t, replacement, mutated);
    hide InText, LinesExist;
    UndoAt(data, mutated, replacement, start, end, Replaced(t, replacement));
  }

  lemma UndoAt(data: Bytes, mutated: Bytes, r: Bytes, start: nat, end: nat, back: Target)
    requires start <= end <= |data| && mutated == data[..start] + r + data[end..]
    requires LinesExist(SplitLines(mutated), back)
    requires Offset(SplitLines(mutated), back.lineno, back.col) == start
    requires Offset(SplitLines(mutated), back.endLineno, back.endCol) == start + |r|
    ensures SpliceBytes(mutated, back, data[start..end]) == data
  {
    hide SplitLines, Offset, SpliceBytes;
    SpliceExact(mutated, back, data[start..end]);
    Undo(data, mutated, r, start, end);
  }

  lemma Undo(data: Bytes, mutated: Bytes, r: Bytes, start: nat, end: nat)
    requires start <= end <= |data| && mutated == data[..start] + r + data[end..]
    ensures mutated[..start] + data[start..end] + mutated[start + |r|..] == data
  {
    assert mutated[..start] == data[..start] && mutated[start + |r|..] == data[end..];
  }

  /** The replacement stays on its line and starts at the same offset. */
  lemma MutatedLine(data: Bytes, t: Target, r: Bytes, mutated: Bytes)
    requires InText(SplitLines(data), t) && r != [] && NoBreak(r)
    requires var start := Offset(SplitLines(data), t.lineno, t.col);
             var end := Offset(SplitLines(data), t.endLineno, t.endCol);
             start <= end <= |data| && mutated == data[..start] + r + data[end..]
    ensures var start := Offset(SplitLines(data), t.lineno, t.col);
            var lines := SplitLines(mutated);
            && LinesExist(lines, Replaced(t, r))
            && Offset(lines, t.lineno, t.col) == start
            && Offset(lines, t.lineno, t.col + |r|) == start + |r|
  {
    hide SplitLines, Concat, Offset, NoBreak, LineLength, Clamp, InText;
    LineStart(data, t);
    var before := |Concat(SplitLines(data)[..t.lineno - 1])|;
    var y := data[Offset(SplitLines(data), t.endLineno, t.endCol)..];
    ReplacedLine(data, mutated, t.lineno, before, t.col, r, y);
  }

  lemma ReplacedLine(data: Bytes, mutated: Bytes, lineno: nat, before: nat, col: nat, r: Bytes, y: Bytes)
    requires 1 <= lineno <= |SplitLines(data)| && before == |Concat(SplitLines(data)[..lineno - 1])|
    requires before + col <= |data| && before < |data| && NoBreak(data[before..before + col]) && r != [] && NoBreak(r)
    requires mutated == data[..before + col] + r + y
    ensures var lines := SplitLines(mutated);
            && lineno <= |lines|
            && Offset(lines, lineno, col) == before + col && Offset(lines, lineno, col + |r|) == before + col + |r|
  {
    hide SplitLines, Concat, Offset, NoBreak, LineLength, Clamp;
    MutatedShape(data, mutated, before, before + col, r, y);
    var p := data[before..before + col] + r;
    assert |p| == col + |r|;
    LineOfMutant(data, mutated, lineno - 1, p, y);
    OffsetsOn(SplitLines(mutated), SplitLines(data), lineno, col, |r|);
  }

  lemma LineOfMutant(data: Bytes, mutated: Bytes, k: nat, p: Bytes, y: Bytes)
    requires k < |SplitLines(data)| && NoBreak(p) && p != []
    requires var before := |Concat(SplitLines(data)[..k])|;
             && before < |data| && before < |mutated| && mutated[..before] == data[..before]
             && mutated[before..] == p + y && mutated[before] != LF
    ensures |SplitLines(mutated)| > k && SplitLines(mutated)[..k] == SplitLines(data)[..k]
    ensures |SplitLines(mutated)[k]| >= |p|
  {
    hide SplitLines, Concat, LineLength;
    SameLinesBefore(data, mutated, k);
    LongLine(p, y);
  }

  lemma OffsetsOn(lines: seq<Bytes>, original: seq<Bytes>, lineno: nat, col: nat, n: nat)
    requires 1 <= lineno <= |lines| && lineno <= |original| && lines[..lineno - 1] == original[..lineno - 1]
    requires col + n <= |lines[lineno - 1]|
    ensures Offset(lines, lineno, col) == |Concat(original[..lineno - 1])| + col
    ensures Offset(lines, lineno, col + n) == |Concat(original[..lineno - 1])| + col + n
  {
    hide Concat;
  }

  /** The start of the span's line, and the visible text before the span. */
  lemma LineStart(data: Bytes, t: Target)
    requires InText(SplitLines(data), t)
    ensures var lines := SplitLines(data);
            var before := |Concat(lines[..t.lineno - 1])|;
            && LinesExist(lines, t)
            && Offset(lines, t.lineno, t.col) == before + t.col <= |data|
            && before < |data| && NoBreak(data[before..before + t.col])
  {
    hide SplitLines, Concat;
    var lines := SplitLines(data);
    var k := t.lineno - 1;
    ConcatSplit(data);
    LinesNonEmpty(data, k);
    CutAtOffset(lines, t.lineno, t.col);
    CutAtOffset(lines, t.lineno, 0);
    AroundLine(lines, k);
    SliceOfLine(data, Concat(lines[..k]), lines[k], Concat(lines[k + 1..]), t.col);
  }

  lemma SliceOfLine(whole: Bytes, before: Bytes, line: Bytes, after: Bytes, c: nat)
    requires whole == before + (line + after) && c <= |line|
    ensures |before| + c <= |whole| && whole[|before|..|before| + c] == line[..c]
  {
  }

  lemma MutatedShape(data: Bytes, mutated: Bytes, before: nat, start: nat, r: Bytes, y: Bytes)
    requires before <= start <= |data| && r != [] && mutated == data[..start] + r + y
    requires NoBreak(data[before..start]) && NoBreak(r)
    ensures before < |mutated| && mutated[..before] == data[..before]
    ensures mutated[before..] == data[before..start] + r + y
    ensures NoBreak(data[before..start] + r) && mutated[before] != LF
  {
    assert mutated[before..] == (data[before..start] + r) + y;
    assert mutated[before] == (data[before..start] + r)[0];
  }

  lemma {:induction false} LinesNonEmpty(d: Bytes, k: nat)
    requires k < |SplitLines(d)|
    ensures SplitLines(d)[k] != []
  {
    if k > 0 {
      LinesNonEmpty(d[LineLength(d)..], k - 1);
    }
  }

  // ---------------------------------------------------------------------------------------
  // Undoing any splice
  // ---------------------------------------------------------------------------------------

  /** A line and column for a byte offset, on the first line that reaches it. */
  function Locate(lines: seq<Bytes>, o: nat): (r: (nat, nat))
    requires lines != []
    ensures 1 <= r.0 <= |lines|
  {
    if o <= |lines[0]| || |lines| == 1 then (1, o)
    else
      var (l, c) := Locate(lines[1..], o - |lines[0]|);
      (l + 1, c)
  }

  lemma {:induction false} LocateIs(lines: seq<Bytes>, o: nat)
    requires lines != [] && o <= |Concat(lines)|
    ensures Offset(lines, Locate(lines, o).0, Locate(lines, o).1) == o
  {
    if o <= |lines[0]| {
      assert lines[..0] == [];
    } else if |lines| > 1 {
      var (l, c) := Locate(lines[1..], o - |lines[0]|);
      LocateIs(lines[1..], o - |lines[0]|);
      assert lines[..l][1..] == lines[1..][..l - 1];
    }
  }

  lemma {:induction false} LocateInOrder(lines: seq<Bytes>, o: nat, o': nat)
    requires lines != [] && o <= o'
    ensures Locate(lines, o).0 <= Locate(lines, o').0
  {
    if o > |lines[0]| && |lines| > 1 {
      LocateInOrder(lines[1..], o - |lines[0]|, o' - |lines[0]|);
    }
  }

  /** Every stretch of a non-empty file can be addressed. */
  lemma Addressable(data: Bytes, start: nat, end: nat) returns (t: Target)
    requires data != [] && start <= end <= |data|
    ensures var lines := SplitLines(data);
            && LinesExist(lines, t)
            && Offset(lines, t.lineno, t.col) == start && Offset(lines, t.endLineno, t.endCol) == end
  {
    hide Offset, Concat;
    var lines := SplitLines(data);
    ConcatSplit(data);
    LocateIs(lines, start);
    LocateIs(lines, end);
    LocateInOrder(lines, start, end);
    t := Target(Locate(lines, start).0, Locate(lines, start).1, Locate(lines, end).0, Locate(lines, end).1);
  }

  /** Splicing `original` over the target makes `data` of `mutated`. */
  predicate Restores(mutated: Bytes, back: Target, original: Bytes, data: Bytes) {
    LinesExist(SplitLines(mutated), back) && SpliceBytes(mutated, back, original) == data
  }

  lemma SomeSpliceBack(data: Bytes, mutated: Bytes, r: Bytes, start: nat, end: nat) returns (back: Target)
    requires start <= end <= |data| && mutated == data[..start] + r + data[end..] && mutated != []
    ensures Restores(mutated, back, data[start..end], data)
  {
    hide SplitLines, Offset, SpliceBytes;
    back := Addressable(mutated, start, start + |r|);
    UndoAt(data, mutated, r, start, end, back);
  }

  /** Whatever the replacement, some splice of the original span restores the file byte for byte,
      exactly unless the replacement left nothing: an empty file has no line to address. */
  lemma SpliceBackIff(data: Bytes, t: Target, replacement: Bytes)
    requires LinesExist(SplitLines(data), t)
    requires Offset(SplitLines(data), t.lineno, t.col) <= Offset(SplitLines(data), t.endLineno, t.endCol) <= |data|
    ensures var start := Offset(SplitLines(data), t.lineno, t.col);
            var end := Offset(SplitLines(data), t.endLineno, t.endCol);
            (exists back :: Restores(SpliceBytes(data, t, replacement), back, data[start..end], data))
              <==> SpliceBytes(data, t, replacement) != []
  {
    var start, end := Offset(SplitLines(data), t.lineno, t.col), Offset(SplitLines(data), t.endLineno, t.endCol);
    var mutated := SpliceBytes(data, t, replacement);
    SpliceExact(data, t, replacement);
    NoLines();
    hide SplitLines, Offset, SpliceBytes, SpliceLines;
    if mutated != [] {
      hide Restores;
      var back := SomeSpliceBack(data, mutated, replacement, start, end);
    }
  }

  lemma NoLines()
    ensures SplitLines([]) == []
  {
  }

  // ---------------------------------------------------------------------------------------
  // Lines, byte by byte
  // ---------------------------------------------------------------------------------------

  /** How many bytes of a line are its ending: 13 10 together, 10 or 13 alone, or none. */
  function EndingLength(line: Bytes): nat {
    var n := |line|;
    if n >= 2 && line[n - 2] == 13 && line[n - 1] == 10 then 2
    else if n >= 1 && (line[n - 1] == 10 || line[n - 1] == 13) then 1
    else 0
  }

  /** One line: no 10 and no 13 before its ending. */
  predicate IsLine(line: Bytes) {
    line != [] && forall i :: 0 <= i < |line| - EndingLength(line) ==> line[i] != 10 && line[i] != 13
  }

  lemma {:induction false} FirstLineIsLine(d: Bytes)
    requires d != []
    ensures var n := LineLength(d);
            && IsLine(d[..n])
            && (n < |d| ==> EndingLength(d[..n]) > 0)
            && (n < |d| && d[n - 1] == 13 ==> d[n] != 10)
  {
    var n := LineLength(d);
    if !IsBreak(d[0]) && |d| > 1 {
      FirstLineIsLine(d[1..]);
      assert d[..n] == [d[0]] + d[1..][..n - 1];
    }
  }

  /** Every line ends in 10, in 13 or in 13 10, only the last may lack an ending, nothing that ends a
      line stands earlier in it, and 13 10 is never torn apart. */
  lemma {:induction false} LinesAre(d: Bytes, k: nat)
    requires k < |SplitLines(d)|
    ensures var lines := SplitLines(d);
            && IsLine(lines[k])
            && (k + 1 < |lines| ==> EndingLength(lines[k]) > 0 && lines[k + 1] != [])
            && (k + 1 < |lines| && lines[k][|lines[k]| - 1] == 13 ==> lines[k + 1][0] != 10)
    decreases k
  {
    hide LineLength, IsLine, EndingLength;
    var n := LineLength(d);
    FirstLineIsLine(d);
    if k > 0 {
      LinesAre(d[n..], k - 1);
      LinesNonEmpty(d, k);
      if k + 1 < |SplitLines(d)| {
        LinesNonEmpty(d, k + 1);
      }
    } else if 1 < |SplitLines(d)| {
      LinesNonEmpty(d, 1);
      LinesNonEmpty(d, 0);
    }
  }

  /** An offset is the length of the lines before plus the column; behind the end of its line it is
      the end of that line. */
  lemma OffsetIs(data: Bytes, k: nat, col: nat)
    requires k < |SplitLines(data)|
    ensures var lines := SplitLines(data);
            && Concat(lines) == data && Offset(lines, 1, 0) == 0
            && (k + 1 < |lines| ==> Offset(lines, k + 2, 0) == Offset(lines, k + 1, 0) + |lines[k]|)
            && (col <= |lines[k]| ==> Offset(lines, k + 1, col) == Offset(lines, k + 1, 0) + col)
            && (col > |lines[k]| ==> Offset(lines, k + 1, col) == Offset(lines, k + 1, 0) + |lines[k]|)
  {
    ConcatSplit(data);
    var lines := SplitLines(data);
    hide SplitLines;
    ConcatAppend(lines[..k], [lines[k]]);
    assert lines[..k + 1] == lines[..k] + [lines[k]];
    assert Concat([lines[k]]) == lines[k] + Concat([]) == lines[k];
  }
}
