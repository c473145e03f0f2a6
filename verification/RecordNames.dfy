/**
  The record-name normaliser: drop the longest run of `.FIELD` segments at the end of a name.
  A pattern anchored with `$` also matches just before one final newline, and so does this.
 */
module RecordNames {
  import opened Prelude

  predicate IsAlpha(c: char) {
    'a' <= c <= 'z' || 'A' <= c <= 'Z'
  }

  predicate IsWord(c: char) {
    IsAlpha(c) || '0' <= c <= '9' || c == '_'
  }

  predicate IsField(s: string) {
    s != "" && IsAlpha(s[0]) && forall i :: 0 <= i < |s| ==> IsWord(s[i])
  }

  predicate FirstSegment(s: string, k: int) {
    2 <= k <= |s| && s[0] == '.' && IsField(s[1..k])
  }

  /** One or more `.FIELD` segments and nothing else. */
  predicate IsRun(s: string)
    decreases |s|
  {
    exists k :: 2 <= k <= |s| && FirstSegment(s, k) && (k == |s| || IsRun(s[k..]))
  }

  /** The leftmost place a run to the end of `s` starts, searched from `i` on; |s| if none. */
  function RunStart(s: string, i: nat): (k: nat)
    requires i <= |s|
    ensures i <= k <= |s|
    ensures k < |s| ==> IsRun(s[k..])
    ensures forall j :: i <= j < k ==> !IsRun(s[j..])
    decreases |s| - i
  {
    if i == |s| || IsRun(s[i..]) then i else RunStart(s, i + 1)
  }

  function StripRun(s: string): string {
    s[..RunStart(s, 0)]
  }

  function RecordName(pv: string): string {
    if EndsWith(pv, "\n") then StripRun(pv[..|pv| - 1]) + "\n" else StripRun(pv)
  }

  /** The name ends in a `.FIELD` segment. */
  predicate FieldAt(s: string, k: int) {
    0 <= k < |s| && s[k] == '.' && IsField(s[k + 1..])
  }

  predicate HasField(s: string) {
    exists k :: 0 <= k < |s| && FieldAt(s, k)
  }

  lemma InField(s: string, k: int, i: int)
    requires FieldAt(s, k) && k < i < |s|
    ensures IsWord(s[i])
  {
    assert s[k + 1..][i - k - 1] == s[i];
  }

  /** The first segment of a longer name ends no later than the shorter name did. */
  lemma SameFirstSegment(x: string, field: string, k: int)
    requires x != "" && IsField(field)
    ensures var s := x + "." + field;
            FirstSegment(s, k) <==> FirstSegment(x, k)
    ensures 0 <= k <= |x| ==> (x + "." + field)[k..] == x[k..] + "." + field
  {
    var s := x + "." + field;
    if 2 <= k <= |x| {
      assert s[1..k] == x[1..k];
    } else if |x| < k <= |s| {
      assert s[1..k][|x| - 1] == '.';
    }
  }

  /** A run is built up from its last segment as well as from its first. */
  lemma {:induction false} RunSnoc(x: string, field: string)
    requires IsField(field)
    ensures IsRun(x + "." + field) <==> x == "" || IsRun(x)
    decreases |x|
  {
    var s := x + "." + field;
    if x == "" {
      assert FirstSegment(s, |s|) by { assert s[1..|s|] == field; }
    } else {
      forall k | FirstSegment(s, k)
        ensures FirstSegment(x, k) && (IsRun(s[k..]) <==> k == |x| || IsRun(x[k..])) && k < |s|
      {
        SameFirstSegment(x, field, k);
        RunSnoc(x[k..], field);
      }
      forall k | FirstSegment(x, k)
        ensures FirstSegment(s, k) && (IsRun(s[k..]) <==> k == |x| || IsRun(x[k..]))
      {
        SameFirstSegment(x, field, k);
        RunSnoc(x[k..], field);
      }
      RunByFirst(s);
      RunByFirst(x);
    }
  }

  lemma RunByFirst(s: string)
    ensures IsRun(s) <==> exists k :: FirstSegment(s, k) && (k == |s| || IsRun(s[k..]))
  {
  }

  lemma {:induction false} RunHasField(s: string)
    requires IsRun(s)
    ensures HasField(s)
    decreases |s|
  {
    var k :| 2 <= k <= |s| && FirstSegment(s, k) && (k == |s| || IsRun(s[k..]));
    if k == |s| {
      assert s[1..k] == s[1..];
      assert FieldAt(s, 0);
    } else {
      RunHasField(s[k..]);
      FieldOfSuffix(s, k);
    }
  }

  /** Appending a field to a name does not change what is stripped down to. */
  lemma StripIgnoresField(r: string, field: string)
    requires IsField(field)
    ensures StripRun(r + "." + field) == StripRun(r)
  {
    var s := r + "." + field;
    var k := RunStart(r, 0);
    forall j | 0 <= j <= |r|
      ensures IsRun(s[j..]) <==> j == |r| || IsRun(r[j..])
    {
      assert s[j..] == r[j..] + "." + field;
      RunSnoc(r[j..], field);
    }
    var n := RunStart(s, 0);
    assert IsRun(s[k..]);
    assert n == k;
    assert s[..k] == r[..k];
  }

  lemma FieldOfSuffix(s: string, k: nat)
    requires k <= |s| && HasField(s[k..])
    ensures HasField(s)
  {
    var j :| 0 <= j < |s[k..]| && FieldAt(s[k..], j);
    assert s[k..][j + 1..] == s[k + j + 1..];
    assert FieldAt(s, k + j);
  }

  lemma NoFieldNoStrip(s: string)
    requires !HasField(s)
    ensures StripRun(s) == s
  {
    hide IsRun, HasField;
    var k := RunStart(s, 0);
    if k < |s| {
      RunHasField(s[k..]);
      FieldOfSuffix(s, k);
    } else {
      assert s[..|s|] == s;
    }
  }

  /** Taking the last segment off, as often as there is one. */
  function Peel(s: string): (p: string)
    ensures !HasField(p)
    decreases |s|
  {
    if k :| 0 <= k < |s| && FieldAt(s, k) then Peel(s[..k]) else s
  }

  /** The leftmost-run reading and segment-by-segment peeling agree on every name. */
  lemma {:induction false} StripIsPeel(s: string)
    ensures StripRun(s) == Peel(s)
    decreases |s|
  {
    if HasField(s) {
      var k :| 0 <= k < |s| && FieldAt(s, k);
      LastSegment(s, k);
      StripIgnoresField(s[..k], s[k + 1..]);
      StripIsPeel(s[..k]);
      PeelStep(s, k);
    } else {
      NoFieldNoStrip(s);
    }
  }

  lemma LastSegment(s: string, k: int)
    requires FieldAt(s, k)
    ensures s == s[..k] + "." + s[k + 1..]
  {
  }

  lemma PeelStep(s: string, k: int)
    requires FieldAt(s, k)
    ensures Peel(s) == Peel(s[..k])
  {
    forall j | FieldAt(s, j)
      ensures j == k
    {
      if j < k {
        InField(s, j, k);
      } else if k < j {
        InField(s, k, j);
      }
    }
  }

  /** What is left carries no further field, and what was cut is empty or one whole run. */
  lemma StripIsMaximal(s: string)
    ensures !HasField(StripRun(s))
    ensures StripRun(s) <= s
    ensures StripRun(s) == s || IsRun(s[|StripRun(s)|..])
  {
    StripIsPeel(s);
    if RunStart(s, 0) == |s| {
      assert s[..|s|] == s;
    }
  }

  predicate NewlineFree(s: string) {
    '\n' !in s
  }

  lemma EndsInNewline(s: string)
    ensures EndsWith(s, "\n") <==> s != "" && s[|s| - 1] == '\n'
  {
    if s != "" {
      assert s[|s| - 1..] == [s[|s| - 1]];
    }
  }

  /** On a newline-free name: the name minus its maximal field run, and never anything else. */
  lemma RecordNameStrips(pv: string)
    requires NewlineFree(pv)
    ensures RecordName(pv) == Peel(pv) && RecordName(pv) <= pv && NewlineFree(RecordName(pv))
    ensures !HasField(RecordName(pv))
    ensures RecordName(pv) == pv || IsRun(pv[|RecordName(pv)|..])
    ensures RecordName(pv) == pv <==> !HasField(pv)
  {
    EndsInNewline(pv);
    StripIsPeel(pv);
    StripIsMaximal(pv);
  }

  lemma {:induction false} RunChars(s: string, i: nat)
    requires IsRun(s) && i < |s|
    ensures s[i] == '.' || IsWord(s[i])
    decreases |s|
  {
    var k :| 2 <= k <= |s| && FirstSegment(s, k) && (k == |s| || IsRun(s[k..]));
    if 0 < i < k {
      assert s[1..k][i - 1] == s[i];
    } else if k <= i {
      RunChars(s[k..], i - k);
      assert s[k..][i - k] == s[i];
    }
  }

  /** A newline at `k` with a whole run behind it: the normaliser cuts right after the newline. */
  predicate CutAfterNewline(pv: string, k: int) {
    0 <= k < |pv| && pv[k] == '\n' && IsRun(pv[k + 1..])
  }

  lemma CutsThere(pv: string, k: nat)
    requires CutAfterNewline(pv, k)
    ensures StripRun(pv) == pv[..k + 1] && !EndsWith(pv, "\n")
  {
    hide IsRun;
    EndsInNewline(pv);
    var n := RunStart(pv, 0);
    if n <= k {
      RunChars(pv[n..], k - n);
    }
    var run := pv[k + 1..];
    assert run != "" by {
      if run == "" {
        RunHasField(run);
      }
    }
    RunChars(run, |run| - 1);
    assert pv[|pv| - 1] == run[|run| - 1];
  }

  /** Normalising is idempotent on every name except one made of a name with a field, a newline
      and a run. */
  lemma IdempotentIff(pv: string)
    ensures RecordName(RecordName(pv)) == RecordName(pv)
       <==> !exists k :: CutAfterNewline(pv, k) && HasField(pv[..k])
  {
    hide HasField, IsRun;
    if EndsWith(pv, "\n") {
      LineIdempotent(pv);
      forall k | CutAfterNewline(pv, k)
        ensures false
      {
        CutsThere(pv, k);
      }
    } else if k :| CutAfterNewline(pv, k) {
      CutsThere(pv, k);
      OnlyCut(pv, k);
      var p := pv[..k + 1];
      EndsInNewline(p);
      assert p[..|p| - 1] == pv[..k];
      NewlineCore(p);
    } else {
      OtherCut(pv);
    }
  }

  /** For instance: the first pass takes `.C`, and uncovers `.B` for a second one. */
  lemma TwiceDiffers()
    ensures RecordName(RecordName("a.B\n.C")) != RecordName("a.B\n.C")
  {
    var pv := "a.B\n.C";
    assert pv[3] == '\n' && pv[4..] == ".C" && pv[..3] == "a.B";
    assert ".C"[1..2] == "C" && FirstSegment(".C", 2);
    assert "a.B"[2..] == "B" && FieldAt("a.B", 1);
    assert CutAfterNewline(pv, 3) && HasField(pv[..3]);
    hide IsRun, HasField, RecordName;
    IdempotentIff(pv);
  }

  lemma OnlyCut(pv: string, k: nat)
    requires CutAfterNewline(pv, k)
    ensures forall j :: CutAfterNewline(pv, j) ==> j == k
  {
    hide IsRun;
    forall j | CutAfterNewline(pv, j)
      ensures j == k
    {
      CutsThere(pv, k);
      CutsThere(pv, j);
    }
  }

  lemma LineIdempotent(pv: string)
    requires EndsWith(pv, "\n")
    ensures RecordName(RecordName(pv)) == RecordName(pv)
  {
    hide HasField, IsRun;
    var core := StripRun(pv[..|pv| - 1]);
    StripIsMaximal(pv[..|pv| - 1]);
    NoFieldNoStrip(core);
    assert (core + "\n")[..|core|] == core && EndsWith(core + "\n", "\n");
  }

  lemma EndsAtCut(pv: string)
    requires !EndsWith(pv, "\n") && EndsWith(StripRun(pv), "\n")
    ensures CutAfterNewline(pv, |StripRun(pv)| - 1)
  {
    hide HasField, IsRun;
    StripIsMaximal(pv);
    EndsInNewline(StripRun(pv));
    EndsInNewline(pv);
  }

  /** Where the cut leaves no final newline, the result is settled. */
  lemma OtherCut(pv: string)
    requires !EndsWith(pv, "\n") && forall k :: !CutAfterNewline(pv, k)
    ensures RecordName(RecordName(pv)) == RecordName(pv)
  {
    hide HasField, IsRun, CutAfterNewline;
    var p := StripRun(pv);
    if EndsWith(p, "\n") {
      EndsAtCut(pv);
    } else {
      StripIsMaximal(pv);
      NoFieldNoStrip(p);
    }
  }

  lemma NewlineCore(p: string)
    requires EndsWith(p, "\n")
    ensures RecordName(p) == p <==> !HasField(p[..|p| - 1])
  {
    var core := p[..|p| - 1];
    assert p == core + "\n";
    StripIsMaximal(core);
    if HasField(core) {
      assert |StripRun(core)| < |core|;
    } else {
      NoFieldNoStrip(core);
    }
  }

  /** `r` and `r.FIELD` normalise alike, unless `r` ends in a newline with a field before it. */
  lemma FieldAlikeIff(r: string, field: string)
    requires IsField(field)
    ensures RecordName(r + "." + field) == RecordName(r)
       <==> !EndsWith(r, "\n") || !HasField(r[..|r| - 1])
  {
    var s := r + "." + field;
    assert s[|s| - 1] == field[|field| - 1] && IsWord(field[|field| - 1]);
    EndsInNewline(s);
    EndsInNewline(r);
    StripIgnoresField(r, field);
    if EndsWith(r, "\n") {
      NewlineCore(r);
      NewlineIsNoField(r);
      NoFieldNoStrip(r);
    }
  }

  lemma NewlineIsNoField(r: string)
    requires r != "" && r[|r| - 1] == '\n'
    ensures !HasField(r)
  {
    forall k | FieldAt(r, k)
      ensures false
    {
      if k < |r| - 1 {
        InField(r, k, |r| - 1);
      }
    }
  }

  // ---------------------------------------------------------------------------------------
  // Fields in plain terms
  // ---------------------------------------------------------------------------------------

  lemma NotInside(r: string, t: string, k: int)
    requires '.' !in t && FieldAt(r + "." + t, k)
    ensures IsField(t)
  {
    var s := r + "." + t;
    assert s[|r|] == '.' && s[|r| + 1..] == t;
    assert forall i :: 0 <= i < |t| ==> s[|r| + 1 + i] == t[i];
    if k < |r| {
      InField(s, k, |r|);
    }
  }

  lemma LastSegmentIs(r: string, t: string)
    requires !HasField(r) && NewlineFree(r) && NewlineFree(t) && '.' !in t
    ensures RecordName(r + "." + t) == if IsField(t) then r else r + "." + t
  {
    var pv := r + "." + t;
    EndsInNewline(pv);
    if IsField(t) {
      StripIgnoresField(r, t);
      NoFieldNoStrip(r);
    } else {
      if k :| 0 <= k < |pv| && FieldAt(pv, k) {
        NotInside(r, t, k);
      }
      NoFieldNoStrip(pv);
    }
  }

  /** A field starts with a letter A to Z or a to z and goes on with letters, digits and `_`. */
  lemma FieldLetters(r: string, c: char)
    requires !HasField(r) && NewlineFree(r) && c != '\n' && c != '.'
    ensures var n, letter := c as int, 65 <= c as int <= 90 || 97 <= c as int <= 122;
            && (RecordName(r + "." + [c]) == r <==> letter)
            && (RecordName(r + ".X" + [c]) == r <==> letter || 48 <= n <= 57 || n == 95)
  {
    LastSegmentIs(r, [c]);
    LastSegmentIs(r, "X" + [c]);
    assert r + ".X" + [c] == r + "." + ("X" + [c]);
    hide RecordName, HasField;
    assert IsField("X" + [c]) <==> IsWord(c) by {
      var s := "X" + [c];
      assert s[0] == 'X' && s[1] == c;
    }
  }
}
