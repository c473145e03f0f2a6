/**
  The fixed-width UTC rendering of a moment, against a day count: the text order of two
  renderings is the time order of the moments, to the millisecond.
 */
module IsoTime {
  import opened Prelude

  // ---------------------------------------------------------------------------------------
  // Zero-padded fields
  // ---------------------------------------------------------------------------------------

  function Pow10(w: nat): (p: nat)
    ensures p > 0
  {
    if w == 0 then 1 else 10 * Pow10(w - 1)
  }

  function Digit(d: nat): char
    requires d < 10
  {
    "0123456789"[d]
  }

  /** The last `w` decimal digits of `n`. */
  function Digits(n: nat, w: nat): (s: string)
    ensures |s| == w
  {
    if w == 0 then "" else Digits(n / 10, w - 1) + [Digit(n % 10)]
  }

  function DigitValue(c: char): nat {
    if '0' <= c <= '9' then (c - '0') as nat else 0
  }

  function Value(s: string): nat {
    if s == "" then 0 else 10 * Value(s[..|s| - 1]) + DigitValue(s[|s| - 1])
  }

  lemma {:induction false} ValueOfDigits(n: nat, w: nat)
    requires n < Pow10(w)
    ensures Value(Digits(n, w)) == n
  {
    if w > 0 {
      ValueOfDigits(n / 10, w - 1);
      var s := Digits(n, w);
      assert s[..|s| - 1] == Digits(n / 10, w - 1);
      DigitRoundTrip(n % 10);
    }
  }

  lemma DigitRoundTrip(d: nat)
    requires d < 10
    ensures DigitValue(Digit(d)) == d
  {
  }

  /** Texts of equal length compare by their first parts and then by their second parts. */
  lemma {:induction false} LexAppend(x: string, y: string, u: string, v: string)
    requires |x| == |y|
    ensures LexLess(x + u, y + v) <==> LexLess(x, y) || (x == y && LexLess(u, v))
  {
    if x == "" {
      assert x + u == u && y + v == v;
    } else {
      assert (x + u)[1..] == x[1..] + u && (y + v)[1..] == y[1..] + v;
      LexAppend(x[1..], y[1..], u, v);
      assert x == [x[0]] + x[1..] && y == [y[0]] + y[1..];
    }
  }

  lemma DigitOrder(a: nat, b: nat)
    requires a < 10 && b < 10
    ensures LexLess([Digit(a)], [Digit(b)]) <==> a < b
    ensures Digit(a) == Digit(b) <==> a == b
  {
    DigitRoundTrip(a);
    DigitRoundTrip(b);
  }

  lemma {:induction false} DigitsOrder(a: nat, b: nat, w: nat)
    requires a < Pow10(w) && b < Pow10(w)
    ensures LexLess(Digits(a, w), Digits(b, w)) <==> a < b
    ensures Digits(a, w) == Digits(b, w) <==> a == b
  {
    if w > 0 {
      DigitsOrder(a / 10, b / 10, w - 1);
      LexAppend(Digits(a / 10, w - 1), Digits(b / 10, w - 1), [Digit(a % 10)], [Digit(b % 10)]);
      DigitOrder(a % 10, b % 10);
    }
    ValueOfDigits(a, w);
    ValueOfDigits(b, w);
  }

  /** A field: its value, its width, and the character behind it. */
  datatype Field = Field(value: nat, width: nat, mark: char)

  function Render(fields: seq<Field>): string {
    if fields == [] then ""
    else Digits(fields[0].value, fields[0].width) + ([fields[0].mark] + Render(fields[1..]))
  }

  predicate Fit(fields: seq<Field>) {
    forall i :: 0 <= i < |fields| ==> fields[i].value < Pow10(fields[i].width)
  }

  predicate SameLayout(f: seq<Field>, g: seq<Field>) {
    |f| == |g| && forall i :: 0 <= i < |f| ==> f[i].width == g[i].width && f[i].mark == g[i].mark
  }

  /** The first differing field decides. */
  predicate FieldsLess(f: seq<Field>, g: seq<Field>)
    requires |f| == |g|
  {
    f != [] && (f[0].value < g[0].value || (f[0].value == g[0].value && FieldsLess(f[1..], g[1..])))
  }

  lemma {:induction false} RenderOrder(f: seq<Field>, g: seq<Field>)
    requires SameLayout(f, g) && Fit(f) && Fit(g)
    ensures LexLess(Render(f), Render(g)) <==> FieldsLess(f, g)
    ensures Render(f) == Render(g) <==> f == g
    ensures |Render(f)| == |Render(g)|
  {
    if f != [] {
      var x, y := Digits(f[0].value, f[0].width), Digits(g[0].value, g[0].width);
      var u, v := [f[0].mark] + Render(f[1..]), [g[0].mark] + Render(g[1..]);
      RenderOrder(f[1..], g[1..]);
      DigitsOrder(f[0].value, g[0].value, f[0].width);
      LexAppend(x, y, u, v);
      LexAppend([f[0].mark], [g[0].mark], Render(f[1..]), Render(g[1..]));
      EqualParts(x, y, u, v);
      EqualParts([f[0].mark], [g[0].mark], Render(f[1..]), Render(g[1..]));
      EqualLists(f, g);
    }
  }

  lemma EqualParts(x: string, y: string, u: string, v: string)
    requires |x| == |y|
    ensures x + u == y + v <==> x == y && u == v
  {
    if x + u == y + v {
      assert (x + u)[..|x|] == x && (y + v)[..|y|] == y && (x + u)[|x|..] == u && (y + v)[|y|..] == v;
    }
  }

  lemma EqualLists(f: seq<Field>, g: seq<Field>)
    requires SameLayout(f, g) && f != []
    ensures f == g <==> f[0].value == g[0].value && f[1..] == g[1..]
  {
    if f[0].value == g[0].value && f[1..] == g[1..] {
      assert f == [f[0]] + f[1..] && g == [g[0]] + g[1..];
    }
  }

  // ---------------------------------------------------------------------------------------
  // Moments
  // ---------------------------------------------------------------------------------------

  /** A UTC moment as its calendar fields. */
  datatype Moment = Moment(year: nat, month: nat, day: nat, hour: nat, minute: nat, second: nat, microsecond: nat)

  predicate Leap(y: nat) {
    y % 4 == 0 && (y % 100 != 0 || y % 400 == 0)
  }

  function DaysInMonth(y: nat, m: nat): nat {
    if m == 2 then (if Leap(y) then 29 else 28) else if m == 4 || m == 6 || m == 9 || m == 11 then 30 else 31
  }

  predicate ValidMoment(t: Moment) {
    && 1 <= t.year <= 9999 && 1 <= t.month <= 12 && 1 <= t.day <= DaysInMonth(t.year, t.month)
    && t.hour < 24 && t.minute < 60 && t.second < 60 && t.microsecond < 1000000
  }

  function Fields(t: Moment): seq<Field> {
    [Field(t.year, 4, '-'), Field(t.month, 2, '-'), Field(t.day, 2, 'T'), Field(t.hour, 2, ':'),
     Field(t.minute, 2, ':'), Field(t.second, 2, '.'), Field(t.microsecond / 1000, 3, 'Z')]
  }

  function FormatIsoZ(t: Moment): string {
    Render(Fields(t))
  }

  function DaysBeforeYear(y: nat): nat
    requires y >= 1
  {
    365 * (y - 1) + (y - 1) / 4 - (y - 1) / 100 + (y - 1) / 400
  }

  function DaysBeforeMonth(y: nat, m: nat): nat {
    if m <= 1 then 0 else DaysBeforeMonth(y, m - 1) + DaysInMonth(y, m - 1)
  }

  function DayNumber(t: Moment): nat
    requires t.year >= 1
  {
    DaysBeforeYear(t.year) + DaysBeforeMonth(t.year, t.month) + t.day
  }

  /** Milliseconds on the UTC time line, the fraction of a millisecond cut off. */
  function Millis(t: Moment): nat
    requires t.year >= 1
  {
    ((DayNumber(t) * 24 + t.hour) * 60 + t.minute) * 60000 + t.second * 1000 + t.microsecond / 1000
  }

  lemma NextYear(y: nat)
    requires y >= 1
    ensures DaysBeforeYear(y + 1) == DaysBeforeYear(y) + 365 + (if Leap(y) then 1 else 0)
  {
    Quarter(y);
    Century(y);
    FourCenturies(y);
  }

  lemma Quarter(y: nat)
    requires y >= 1
    ensures y / 4 == (y - 1) / 4 + (if y % 4 == 0 then 1 else 0)
  {
  }

  lemma Century(y: nat)
    requires y >= 1
    ensures y / 100 == (y - 1) / 100 + (if y % 100 == 0 then 1 else 0)
    ensures y % 100 == 0 ==> y % 4 == 0
  {
  }

  lemma FourCenturies(y: nat)
    requires y >= 1
    ensures y / 400 == (y - 1) / 400 + (if y % 400 == 0 then 1 else 0)
    ensures y % 400 == 0 ==> y % 100 == 0
  {
  }

  lemma {:induction false} YearsGrow(y: nat, z: nat)
    requires 1 <= y < z
    ensures DaysBeforeYear(y) + 365 + (if Leap(y) then 1 else 0) <= DaysBeforeYear(z)
    decreases z
  {
    hide DaysBeforeYear;
    NextYear(z - 1);
    if y < z - 1 {
      YearsGrow(y, z - 1);
    }
  }

  lemma {:induction false} MonthsGrow(y: nat, m: nat, n: nat)
    requires 1 <= m < n
    ensures DaysBeforeMonth(y, m) + DaysInMonth(y, m) <= DaysBeforeMonth(y, n)
    decreases n
  {
    if m < n - 1 {
      MonthsGrow(y, m, n - 1);
    }
  }

  lemma YearLength(y: nat)
    ensures DaysBeforeMonth(y, 13) == 365 + (if Leap(y) then 1 else 0)
  {
    hide Leap;
    var d := if Leap(y) then 1 else 0;
    assert DaysBeforeMonth(y, 2) == 31;
    assert DaysBeforeMonth(y, 3) == 59 + d;
    assert DaysBeforeMonth(y, 4) == 90 + d;
    assert DaysBeforeMonth(y, 5) == 120 + d;
    assert DaysBeforeMonth(y, 6) == 151 + d;
    assert DaysBeforeMonth(y, 7) == 181 + d;
    assert DaysBeforeMonth(y, 8) == 212 + d;
    assert DaysBeforeMonth(y, 9) == 243 + d;
    assert DaysBeforeMonth(y, 10) == 273 + d;
    assert DaysBeforeMonth(y, 11) == 304 + d;
    assert DaysBeforeMonth(y, 12) == 334 + d;
  }

  /** An earlier date has a smaller day number. */
  lemma DatesGrow(s: Moment, t: Moment)
    requires ValidMoment(s) && ValidMoment(t)
    requires s.year < t.year || (s.year == t.year && (s.month < t.month || (s.month == t.month && s.day < t.day)))
    ensures DayNumber(s) < DayNumber(t)
  {
    hide DaysBeforeYear, DaysBeforeMonth, DaysInMonth;
    if s.year < t.year {
      YearsGrow(s.year, t.year);
      MonthsGrow(s.year, s.month, 13);
      YearLength(s.year);
    } else if s.month < t.month {
      MonthsGrow(s.year, s.month, t.month);
    }
  }

  lemma SevenLess(s: Moment, t: Moment)
    ensures FieldsLess(Fields(s), Fields(t)) <==>
              s.year < t.year || (s.year == t.year && (s.month < t.month || (s.month == t.month && (s.day < t.day ||
              (s.day == t.day && (s.hour < t.hour || (s.hour == t.hour && (s.minute < t.minute ||
              (s.minute == t.minute && (s.second < t.second || (s.second == t.second &&
              s.microsecond / 1000 < t.microsecond / 1000)))))))))))
  {
    Tails(s, t, 0);
    Tails(s, t, 1);
    Tails(s, t, 2);
    Tails(s, t, 3);
    Tails(s, t, 4);
    Tails(s, t, 5);
    Tails(s, t, 6);
    assert Fields(s)[0..] == Fields(s) && Fields(t)[0..] == Fields(t);
    assert !FieldsLess(Fields(s)[7..], Fields(t)[7..]);
  }

  lemma Tails(s: Moment, t: Moment, k: nat)
    requires k < 7
    ensures FieldsLess(Fields(s)[k..], Fields(t)[k..]) <==>
              Fields(s)[k].value < Fields(t)[k].value
              || (Fields(s)[k].value == Fields(t)[k].value && FieldsLess(Fields(s)[k + 1..], Fields(t)[k + 1..]))
  {
    assert Fields(s)[k..][1..] == Fields(s)[k + 1..] && Fields(t)[k..][1..] == Fields(t)[k + 1..];
  }

  /** A later day, or on the same day a later time of day. */
  lemma LaterInstant(d: int, h: int, m: int, s: int, f: int, d': int, h': int, m': int, s': int, f': int)
    requires 0 <= h < 24 && 0 <= m < 60 && 0 <= s < 60 && 0 <= f < 1000
    requires 0 <= h' < 24 && 0 <= m' < 60 && 0 <= s' < 60 && 0 <= f' < 1000
    requires d < d' || (d == d' && (h < h' || (h == h' && (m < m' || (m == m' && (s < s' || (s == s' && f < f')))))))
    ensures ((d * 24 + h) * 60 + m) * 60000 + s * 1000 + f < ((d' * 24 + h') * 60 + m') * 60000 + s' * 1000 + f'
  {
  }

  lemma EarlierIsLess(s: Moment, t: Moment)
    requires ValidMoment(s) && ValidMoment(t) && FieldsLess(Fields(s), Fields(t))
    ensures Millis(s) < Millis(t)
  {
    SevenLess(s, t);
    hide DayNumber, Fields, FieldsLess;
    if s.year < t.year || (s.year == t.year && (s.month < t.month || (s.month == t.month && s.day < t.day))) {
      DatesGrow(s, t);
    } else {
      SameDate(s, t);
    }
    LaterInstant(DayNumber(s), s.hour, s.minute, s.second, s.microsecond / 1000,
                 DayNumber(t), t.hour, t.minute, t.second, t.microsecond / 1000);
  }

  lemma SameDate(s: Moment, t: Moment)
    requires s.year >= 1 && s.year == t.year && s.month == t.month && s.day == t.day
    ensures DayNumber(s) == DayNumber(t)
  {
  }

  lemma {:induction false} FieldsTotal(f: seq<Field>, g: seq<Field>)
    requires SameLayout(f, g)
    ensures f == g || FieldsLess(f, g) || FieldsLess(g, f)
  {
    if f != [] {
      FieldsTotal(f[1..], g[1..]);
      EqualLists(f, g);
    }
  }

  lemma FieldsFit(t: Moment)
    requires ValidMoment(t)
    ensures Fit(Fields(t))
  {
    assert Pow10(2) == 100 && Pow10(3) == 1000 && Pow10(4) == 10000;
  }

  /** Two renderings of the years 1 to 9999 are equally long; they compare as texts exactly as the
      moments compare in time, and are equal exactly when the moments share a millisecond. */
  lemma TextOrderIsTimeOrder(s: Moment, t: Moment)
    requires ValidMoment(s) && ValidMoment(t)
    ensures |FormatIsoZ(s)| == |FormatIsoZ(t)|
    ensures LexLess(FormatIsoZ(s), FormatIsoZ(t)) <==> Millis(s) < Millis(t)
    ensures FormatIsoZ(s) == FormatIsoZ(t) <==> Millis(s) == Millis(t)
  {
    FieldsFit(s);
    FieldsFit(t);
    RenderOrder(Fields(s), Fields(t));
    FieldsTotal(Fields(s), Fields(t));
    if FieldsLess(Fields(s), Fields(t)) {
      EarlierIsLess(s, t);
    }
    if FieldsLess(Fields(t), Fields(s)) {
      EarlierIsLess(t, s);
    }
    if Fields(s) == Fields(t) {
      SameFields(s, t);
    }
    hide Millis, FieldsLess, Render;
  }

  lemma SameFields(s: Moment, t: Moment)
    requires s.year >= 1 && Fields(s) == Fields(t)
    ensures t.year >= 1 && Millis(s) == Millis(t)
  {
    forall i | 0 <= i < 7
      ensures Fields(s)[i] == Fields(t)[i]
    {
    }
    assert Fields(s)[0].value == s.year && Fields(s)[1].value == s.month && Fields(s)[2].value == s.day;
    assert Fields(s)[3].value == s.hour && Fields(s)[4].value == s.minute && Fields(s)[5].value == s.second;
    assert Fields(s)[6].value == s.microsecond / 1000;
  }

  /** Reading the digits back. */
  function ParseIsoZ(s: string): Moment
    requires |s| == 24
  {
    Moment(Value(s[0..4]), Value(s[5..7]), Value(s[8..10]), Value(s[11..13]), Value(s[14..16]), Value(s[17..19]),
           Value(s[20..23]) * 1000)
  }

  lemma FieldAhead(fields: seq<Field>)
    requires fields != []
    ensures var s, f := Render(fields), fields[0];
            && |s| >= f.width + 1 && s[..f.width] == Digits(f.value, f.width)
            && s[f.width + 1..] == Render(fields[1..])
  {
    Parts(Digits(fields[0].value, fields[0].width), fields[0].mark, Render(fields[1..]));
  }

  lemma Parts(a: string, c: char, b: string)
    ensures var s := a + ([c] + b);
            |s| >= |a| + 1 && s[..|a|] == a && s[|a| + 1..] == b
  {
  }

  lemma ReadField(whole: string, at: nat, fields: seq<Field>)
    requires fields != [] && at <= |whole| && whole[at..] == Render(fields)
    requires fields[0].value < Pow10(fields[0].width)
    ensures at + fields[0].width + 1 <= |whole|
    ensures Value(whole[at..at + fields[0].width]) == fields[0].value
    ensures whole[at + fields[0].width + 1..] == Render(fields[1..])
  {
    FieldAhead(fields);
    var f := fields[0];
    ValueOfDigits(f.value, f.width);
    assert whole[at..][..f.width] == whole[at..at + f.width];
    assert whole[at..][f.width + 1..] == whole[at + f.width + 1..];
  }

  /** Reading back what was rendered gives the moment, truncated to the millisecond. */
  lemma ParseFormat(t: Moment)
    requires ValidMoment(t)
    ensures |FormatIsoZ(t)| == 24
    ensures ParseIsoZ(FormatIsoZ(t)) == t.(microsecond := t.microsecond / 1000 * 1000)
  {
    hide Render, Value, Pow10;
    FieldsFit(t);
    var s, f := FormatIsoZ(t), Fields(t);
    assert s[0..] == s && f[0..] == f;
    ReadField(s, 0, f);
    ReadField(s, 5, f[1..]);
    assert f[1..][1..] == f[2..];
    ReadField(s, 8, f[2..]);
    assert f[2..][1..] == f[3..];
    ReadField(s, 11, f[3..]);
    assert f[3..][1..] == f[4..];
    ReadField(s, 14, f[4..]);
    assert f[4..][1..] == f[5..];
    ReadField(s, 17, f[5..]);
    assert f[5..][1..] == f[6..];
    ReadField(s, 20, f[6..]);
    assert f[6..][1..] == [];
    RenderNothing();
    assert s[24..] == "";
  }

  lemma RenderNothing()
    ensures Render([]) == ""
  {
  }

  /** The mark behind the `k`-th field, and where the next field starts. */
  lemma MarkBehind(whole: string, at: nat, fields: seq<Field>, k: nat)
    requires k < |fields| && at <= |whole| && whole[at..] == Render(fields[k..])
    requires fields[k].value < Pow10(fields[k].width)
    ensures var end := at + fields[k].width;
            end < |whole| && whole[end] == fields[k].mark && whole[end + 1..] == Render(fields[k + 1..])
  {
    var rest, w := fields[k..], fields[k].width;
    assert rest[0] == fields[k] && rest[1..] == fields[k + 1..];
    ReadField(whole, at, rest);
    assert whole[at..][w] == fields[k].mark;
  }

  /** The marks between the digits: `yyyy-MM-ddTHH:mm:ss.SSSZ`. */
  lemma Marks(t: Moment)
    requires ValidMoment(t)
    ensures var s := FormatIsoZ(t);
            && |s| == 24 && s[4] == '-' && s[7] == '-' && s[10] == 'T' && s[13] == ':' && s[16] == ':' && s[19] == '.'
            && s[23] == 'Z'
  {
    ParseFormat(t);
    FieldsFit(t);
    var s, f := FormatIsoZ(t), Fields(t);
    assert s[0..] == s && f[0..] == f;
    FrontMarks(s, f);
    BackMarks(s, f);
  }

  predicate Layout(f: seq<Field>) {
    && |f| == 7 && f[0].width == 4 && f[1].width == f[2].width == f[3].width == f[4].width == f[5].width == 2
    && f[6].width == 3
  }

  lemma FrontMarks(s: string, f: seq<Field>)
    requires Layout(f) && Fit(f) && |s| == 24 && s[0..] == Render(f[0..])
    ensures s[4] == f[0].mark && s[7] == f[1].mark && s[10] == f[2].mark && s[11..] == Render(f[3..])
  {
    hide Render, Pow10;
    MarkBehind(s, 0, f, 0);
    MarkBehind(s, 5, f, 1);
    MarkBehind(s, 8, f, 2);
  }

  lemma BackMarks(s: string, f: seq<Field>)
    requires Layout(f) && Fit(f) && |s| == 24 && s[11..] == Render(f[3..])
    ensures s[13] == f[3].mark && s[16] == f[4].mark && s[19] == f[5].mark && s[23] == f[6].mark
  {
    hide Render, Pow10;
    MarkBehind(s, 11, f, 3);
    MarkBehind(s, 14, f, 4);
    MarkBehind(s, 17, f, 5);
    MarkBehind(s, 20, f, 6);
  }

  /** The first of January of the year 1 is day one. */
  lemma FirstDay(t: Moment)
    requires t.year == 1 && t.month == 1 && t.day == 1
    ensures DayNumber(t) == 1
  {
  }

  /** The days follow one another: behind the last of a month comes the first of the next, behind
      the last of December the next year. */
  lemma NextDay(s: Moment, t: Moment)
    requires s.year >= 1 && 1 <= s.month <= 12 && s.day >= 1
    requires var leap := s.year % 4 == 0 && (s.year % 100 != 0 || s.year % 400 == 0);
             var m := s.month;
             var last := if m == 2 then (if leap then 29 else 28)
                         else if m == 4 || m == 6 || m == 9 || m == 11 then 30 else 31;
             && t.year == s.year + (if s.day == last && m == 12 then 1 else 0)
             && t.month == (if s.day != last then m else if m < 12 then m + 1 else 1)
             && t.day == (if s.day != last then s.day + 1 else 1)
    ensures DayNumber(t) == DayNumber(s) + 1
  {
    NextYear(s.year);
    YearLength(s.year);
    assert DaysBeforeMonth(s.year, s.month + 1) == DaysBeforeMonth(s.year, s.month) + DaysInMonth(s.year, s.month);
    assert DaysBeforeMonth(t.year, 1) == 0;
    hide DaysBeforeMonth, DaysBeforeYear;
  }

  lemma Product(a: nat, b: nat)
    ensures a * b >= 0
  {
  }

  lemma ManyTimes(p: int, k: int)
    requires p > 0 && k != 0
    ensures p * k >= p || p * k <= -p
  {
    if k > 0 {
      Product(p, k - 1);
      assert p * k == p * (k - 1) + p;
    } else {
      Product(p, -k - 1);
      assert p * k == -(p * (-k - 1)) - p;
    }
  }

  /** The quotient is the one number that leaves a remainder in range. */
  lemma QuotientIs(n: nat, p: nat, q: int, r: int)
    requires n == p * q + r && 0 <= r < p
    ensures n / p == q
  {
    var d := n / p;
    assert p * (d - q) == r - n % p;
    if d != q {
      ManyTimes(p, d - q);
    }
  }

  lemma TenThenMore(n: nat, p: nat)
    requires p > 0
    ensures n / 10 / p == n / (10 * p)
  {
    var q, r := n / 10 / p, n / 10 % p;
    assert n / 10 == p * q + r;
    assert n == 10 * (p * q + r) + n % 10;
    assert 10 * (p * q + r) == (10 * p) * q + 10 * r;
    QuotientIs(n, 10 * p, q, 10 * r + n % 10);
  }

  /** The `i`-th character of a field is the character of that decimal digit of its value. */
  lemma {:induction false} DigitAt(n: nat, w: nat, i: nat)
    requires i < w
    ensures Digits(n, w)[i] as int == 48 + n / Pow10(w - 1 - i) % 10
  {
    if i < w - 1 {
      DigitAt(n / 10, w - 1, i);
      TenThenMore(n, Pow10(w - 2 - i));
      assert Pow10(w - 1 - i) == 10 * Pow10(w - 2 - i);
    } else {
      assert Pow10(0) == 1;
      DigitRoundTrip(n % 10);
    }
  }
}
