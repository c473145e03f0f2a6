/** Two recognisers of the typography guard: needles in a space-padded line, and path suffixes. */
module Typography {
  import opened Prelude

  const DOUBLED_HYPHEN: string := " -- "

  /** What the scan tests: the needle in the line with one space on each side. */
  predicate PaddedMatch(line: string, needle: string) {
    Contains(" " + line + " ", needle)
  }

  /** The rule spelled out: two hyphens with a space or the line's edge on either side. */
  predicate DashAt(line: string, i: int) {
    && 0 <= i && i + 2 <= |line| && line[i] == '-' && line[i + 1] == '-'
    && (i == 0 || line[i - 1] == ' ')
    && (i + 2 == |line| || line[i + 2] == ' ')
  }

  /** Padding implements the edge-aware rule on lines of every length. */
  lemma PaddedDash(line: string)
    ensures PaddedMatch(line, DOUBLED_HYPHEN) <==> exists i :: 0 <= i < |line| && DashAt(line, i)
  {
    var padded := " " + line + " ";
    forall i | 0 <= i <= |padded|
      ensures OccursAt(padded, DOUBLED_HYPHEN, i) <==> DashAt(line, i)
    {
      PaddedChars(line);
      if OccursAt(padded, DOUBLED_HYPHEN, i) {
        var found := padded[i..i + 4];
        assert found[0] == ' ' && found[1] == '-' && found[2] == '-' && found[3] == ' ';
      }
      if DashAt(line, i) {
        assert padded[i..i + 4] == [' ', '-', '-', ' '];
      }
    }
  }

  lemma PaddedChars(line: string)
    ensures var padded := " " + line + " ";
            && |padded| == |line| + 2 && padded[0] == ' ' && padded[|line| + 1] == ' '
            && forall j :: 1 <= j <= |line| ==> padded[j] == line[j - 1]
  {
  }

  /** For a needle of one visible character the padding is inert. */
  lemma PaddedChar(line: string, c: char)
    requires c != ' '
    ensures PaddedMatch(line, [c]) <==> c in line
  {
    var padded := " " + line + " ";
    PaddedChars(line);
    if PaddedMatch(line, [c]) {
      var i :| 0 <= i <= |padded| && OccursAt(padded, [c], i);
      assert padded[i..i + 1][0] == c;
      assert line[i - 1] == c;
    }
    if c in line {
      var j :| 0 <= j < |line| && line[j] == c;
      assert padded[j + 1..j + 2] == [c];
      assert OccursAt(padded, [c], j + 1);
    }
  }

  // ---------------------------------------------------------------------------------------
  // Path suffixes
  // ---------------------------------------------------------------------------------------

  predicate PathMatches(posix: string, suffix: string) {
    posix == suffix || EndsWith(posix, "/" + suffix)
  }

  /** The parts of a text between its slashes. */
  function Components(s: string): (parts: seq<string>)
    ensures parts != []
  {
    if s == "" then [""]
    else if s[|s| - 1] == '/' then Components(s[..|s| - 1]) + [""]
    else Grow(Components(s[..|s| - 1]), s[|s| - 1])
  }

  /** The last part with one more character. */
  function Grow(parts: seq<string>, c: char): (grown: seq<string>)
    requires parts != []
    ensures |grown| == |parts|
  {
    parts[..|parts| - 1] + [parts[|parts| - 1] + [c]]
  }

  predicate EndsWithParts(parts: seq<string>, tail: seq<string>) {
    |tail| <= |parts| && parts[|parts| - |tail|..] == tail
  }

  function Slashed(parts: seq<string>): string
    requires parts != []
  {
    if |parts| == 1 then parts[0] else Slashed(parts[..|parts| - 1]) + ("/" + parts[|parts| - 1])
  }

  lemma {:induction false} SlashedComponents(s: string)
    ensures Slashed(Components(s)) == s
  {
    if s != "" {
      var front := Components(s[..|s| - 1]);
      SlashedComponents(s[..|s| - 1]);
      assert s == s[..|s| - 1] + [s[|s| - 1]];
      hide Grow;
      if s[|s| - 1] == '/' {
        assert (front + [""])[..|front|] == front;
        assert "/" + "" == "/";
      } else {
        LastGrows(front, s[|s| - 1]);
      }
    }
  }

  lemma LastGrows(parts: seq<string>, c: char)
    requires parts != []
    ensures Slashed(Grow(parts, c)) == Slashed(parts) + [c]
  {
    var grown := Grow(parts, c);
    GrowParts(parts, c);
    hide Grow;
    if |parts| > 1 {
      TextGrows(Slashed(parts[..|parts| - 1]), parts[|parts| - 1], c);
    }
  }

  lemma GrowParts(parts: seq<string>, c: char)
    requires parts != []
    ensures Grow(parts, c)[..|parts| - 1] == parts[..|parts| - 1]
    ensures Grow(parts, c)[|parts| - 1] == parts[|parts| - 1] + [c]
  {
  }

  lemma TextGrows(front: string, last: string, c: char)
    ensures front + ("/" + (last + [c])) == front + ("/" + last) + [c]
  {
  }

  lemma GrowAppend(a: seq<string>, b: seq<string>, c: char)
    requires b != []
    ensures Grow(a + b, c) == a + Grow(b, c)
  {
    assert (a + b)[..|a + b| - 1] == a + b[..|b| - 1];
  }

  /** Joining two texts by a slash joins their components. */
  lemma {:induction false} ComponentsJoin(a: string, b: string)
    ensures Components(a + "/" + b) == Components(a) + Components(b)
    decreases |b|
  {
    hide Grow;
    var s := a + "/" + b;
    if b == "" {
      assert s[..|s| - 1] == a;
    } else {
      assert s[..|s| - 1] == a + "/" + b[..|b| - 1] && s[|s| - 1] == b[|b| - 1];
      ComponentsJoin(a, b[..|b| - 1]);
      if b[|b| - 1] == '/' {
        assert Components(a) + (Components(b[..|b| - 1]) + [""]) == Components(a) + Components(b[..|b| - 1]) + [""];
      } else {
        GrowAppend(Components(a), Components(b[..|b| - 1]), b[|b| - 1]);
      }
    }
  }

  /** A suffix matches exactly when its components are the last components of the path. */
  lemma PathMatchesIff(posix: string, suffix: string)
    ensures PathMatches(posix, suffix) <==> EndsWithParts(Components(posix), Components(suffix))
  {
    hide Components, Slashed;
    var parts, tail := Components(posix), Components(suffix);
    if EndsWith(posix, "/" + suffix) {
      var a := posix[..|posix| - |suffix| - 1];
      assert posix == a + ("/" + suffix) == a + "/" + suffix;
      ComponentsJoin(a, suffix);
      assert parts[|parts| - |tail|..] == tail;
    }
    if EndsWithParts(parts, tail) {
      SlashedComponents(posix);
      SlashedComponents(suffix);
      if |parts| > |tail| {
        var lead := parts[..|parts| - |tail|];
        assert parts == lead + tail;
        SlashedJoin(lead, tail);
        assert posix[|Slashed(lead)|..] == "/" + suffix;
      } else {
        assert parts == tail;
      }
    }
  }

  lemma {:induction false} SlashedJoin(a: seq<string>, b: seq<string>)
    requires a != [] && b != []
    ensures Slashed(a + b) == Slashed(a) + ("/" + Slashed(b))
    decreases |b|
  {
    assert (a + b)[..|a + b| - 1] == a + b[..|b| - 1];
    if |b| == 1 {
      assert a + [] == a;
    } else {
      SlashedJoin(a, b[..|b| - 1]);
    }
  }

  /** The recogniser on texts: the suffix itself, or anything, a slash and the suffix. */
  lemma PathMatchesMeans(posix: string, suffix: string)
    ensures PathMatches(posix, suffix) <==> posix == suffix || exists a: string :: posix == a + "/" + suffix
  {
    if EndsWith(posix, "/" + suffix) {
      var a := posix[..|posix| - |suffix| - 1];
      assert posix == a + ("/" + suffix) == a + "/" + suffix;
    }
    if a: string :| posix == a + "/" + suffix {
      assert posix == a + ("/" + suffix);
      assert posix[|a|..] == "/" + suffix;
    }
  }
}
