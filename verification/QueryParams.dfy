/**
  Encoding a channel query into request parameters: a name pattern, property filters (positive
  and negative) and tags, and the proof that no filter overwrites another.
 */
module QueryParams {
  import opened Prelude

  datatype Filter =
    | Has(name: string, value: string)
    | Lacks(name: string)
    | HasNot(name: string, value: string)

  datatype Error = BadName | NotAllowed | Contradictory | BlankValue | SeparatorInValue | TagConflict

  datatype Request = Request(
    pattern: string,
    size: Option<string>,           // the result cap in decimal, when it is sent
    has: seq<(string, string)>,
    lacks: seq<string>,
    hasNot: seq<(string, string)>,
    hasTags: seq<string>,
    lacksTags: seq<string>)

  /** Not blank, no leading `~`, no trailing `!`, once trimmed. */
  predicate ValidName(name: string) {
    var clean := Strip(name);
    clean != "" && clean[0] != '~' && clean[|clean| - 1] != '!'
  }

  predicate HasSeparator(value: string) {
    '|' in value || ',' in value || ';' in value
  }

  predicate FilterOk(f: Filter, allowed: set<string>) {
    && ValidName(f.name) && Strip(f.name) in allowed
    && (!f.Lacks? ==> !IsBlank(f.value))
    && (f.HasNot? ==> !HasSeparator(f.value))
  }

  /** All property filters in the order they are read. */
  function Filters(r: Request): seq<Filter> {
    seq(|r.has|, i requires 0 <= i < |r.has| => Has(r.has[i].0, r.has[i].1))
    + seq(|r.lacks|, i requires 0 <= i < |r.lacks| => Lacks(r.lacks[i]))
    + seq(|r.hasNot|, i requires 0 <= i < |r.hasNot| => HasNot(r.hasNot[i].0, r.hasNot[i].1))
  }

  /** Each property is named at most once over all three kinds. */
  predicate NamesApart(fs: seq<Filter>) {
    forall i, j :: 0 <= i < j < |fs| ==> Strip(fs[i].name) != Strip(fs[j].name)
  }

  predicate FiltersOk(fs: seq<Filter>, allowed: set<string>) {
    NamesApart(fs) && forall i :: 0 <= i < |fs| ==> FilterOk(fs[i], allowed)
  }

  predicate TagsOk(r: Request) {
    && (forall t :: t in r.hasTags ==> ValidName(t)) && (forall t :: t in r.lacksTags ==> ValidName(t))
    && (forall t, u :: t in r.hasTags && u in r.lacksTags ==> Strip(t) != Strip(u))
  }

  /** The key and value a filter is sent as. */
  function KeyOf(f: Filter): string {
    if f.Has? then Strip(f.name) else Strip(f.name) + "!"
  }

  function ValueOf(f: Filter): string {
    if f.Lacks? then "*" else f.value
  }

  function JoinTags(tags: seq<string>): string {
    if tags == [] then ""
    else if |tags| == 1 then Strip(tags[0])
    else Strip(tags[0]) + "|" + JoinTags(tags[1..])
  }

  function BaseParams(r: Request): map<string, string> {
    map["~name" := r.pattern] + (if r.size.Some? then map["~size" := r.size.value] else map[])
  }

  function Keys(fs: seq<Filter>): set<string> {
    set i | 0 <= i < |fs| :: KeyOf(fs[i])
  }

  /** The parameters after the filters `fs`, key by key. */
  ghost predicate Encodes(p: map<string, string>, base: map<string, string>, fs: seq<Filter>) {
    && p.Keys == base.Keys + Keys(fs)
    && (forall k :: k in base ==> p[k] == base[k])
    && (forall i :: 0 <= i < |fs| ==> KeyOf(fs[i]) in p && p[KeyOf(fs[i])] == ValueOf(fs[i]))
    && |p| == |base| + |fs|
  }

  /** Keys the filters never use. */
  predicate Reserved(m: map<string, string>) {
    forall k :: k in m ==> k != "" && k[0] == '~'
  }

  // ---------------------------------------------------------------------------------------
  // The encoder
  // ---------------------------------------------------------------------------------------

  lemma KeysApart(f: Filter, g: Filter)
    requires ValidName(f.name) && ValidName(g.name) && Strip(f.name) != Strip(g.name)
    ensures KeyOf(f) != KeyOf(g)
  {
    var a, b := Strip(f.name), Strip(g.name);
    assert (a + "!")[|a|] == '!' && (b + "!")[|b|] == '!';
    if !f.Has? && !g.Has? {
      assert (a + "!")[..|a|] == a && (b + "!")[..|b|] == b;
    }
  }

  lemma KeyIsPlain(f: Filter)
    requires ValidName(f.name)
    ensures KeyOf(f) != "" && KeyOf(f)[0] != '~'
  {
  }

  lemma KeysSnoc(fs: seq<Filter>, f: Filter)
    ensures Keys(fs + [f]) == Keys(fs) + {KeyOf(f)}
  {
    hide KeyOf;
    var all := fs + [f];
    assert all[|fs|] == f;
    forall i | 0 <= i < |fs|
      ensures KeyOf(fs[i]) in Keys(all)
    {
      assert all[i] == fs[i];
    }
  }

  lemma PutOne(p: map<string, string>, base: map<string, string>, fs: seq<Filter>, f: Filter)
    requires Encodes(p, base, fs) && KeyOf(f) !in p
    ensures Encodes(p[KeyOf(f) := ValueOf(f)], base, fs + [f])
  {
    hide KeyOf, ValueOf, Keys;
    KeysSnoc(fs, f);
    PutKeepsValues(p, fs, f);
    PutFresh(p, base, Keys(fs), |fs|, KeyOf(f), ValueOf(f));
    EncodesBy(p[KeyOf(f) := ValueOf(f)], base, fs + [f]);
  }

  lemma EncodesBy(q: map<string, string>, base: map<string, string>, all: seq<Filter>)
    requires q.Keys == base.Keys + Keys(all) && |q| == |base| + |all|
    requires forall k :: k in base ==> q[k] == base[k]
    requires forall i :: 0 <= i < |all| ==> KeyOf(all[i]) in q && q[KeyOf(all[i])] == ValueOf(all[i])
    ensures Encodes(q, base, all)
  {
  }

  /** Adding a fresh key to a map that extends a base by `n` keys. */
  lemma PutFresh<K, V>(p: map<K, V>, base: map<K, V>, ks: set<K>, n: nat, k: K, v: V)
    requires p.Keys == base.Keys + ks && |p| == |base| + n && k !in p
    requires forall j :: j in base ==> p[j] == base[j]
    ensures var q := p[k := v];
            && q.Keys == base.Keys + (ks + {k}) && |q| == |base| + n + 1
            && forall j :: j in base ==> q[j] == base[j]
  {
    PutSize(p, k, v);
    OneMoreKey(base.Keys, ks, k);
    forall j | j in base
      ensures p[k := v][j] == base[j]
    {
      assert j in p.Keys;
    }
  }

  lemma PutSize<K, V>(p: map<K, V>, k: K, v: V)
    requires k !in p
    ensures p[k := v].Keys == p.Keys + {k} && |p[k := v]| == |p| + 1
  {
    assert p[k := v].Keys == p.Keys + {k};
  }

  lemma OneMoreKey<K>(a: set<K>, b: set<K>, k: K)
    ensures (a + b) + {k} == a + (b + {k})
  {
  }

  lemma PutKeepsValues(p: map<string, string>, fs: seq<Filter>, f: Filter)
    requires KeyOf(f) !in p
    requires forall i :: 0 <= i < |fs| ==> KeyOf(fs[i]) in p && p[KeyOf(fs[i])] == ValueOf(fs[i])
    ensures var q, all := p[KeyOf(f) := ValueOf(f)], fs + [f];
            forall i :: 0 <= i < |all| ==> KeyOf(all[i]) in q && q[KeyOf(all[i])] == ValueOf(all[i])
  {
    hide KeyOf, ValueOf;
    var q, all := p[KeyOf(f) := ValueOf(f)], fs + [f];
    forall i | 0 <= i < |all|
      ensures KeyOf(all[i]) in q && q[KeyOf(all[i])] == ValueOf(all[i])
    {
      if i < |fs| {
        assert all[i] == fs[i];
      }
    }
  }

  lemma FreshKey(fs: seq<Filter>, f: Filter, allowed: set<string>)
    requires FiltersOk(fs + [f], allowed)
    ensures KeyOf(f) !in Keys(fs) && KeyOf(f) != "" && KeyOf(f)[0] != '~'
  {
    hide KeyOf, ValidName;
    var all := fs + [f];
    assert all[|fs|] == f && FilterOk(all[|fs|], allowed);
    KeyIsPlain(f);
    forall i | 0 <= i < |fs|
      ensures KeyOf(fs[i]) != KeyOf(f)
    {
      assert all[i] == fs[i] && FilterOk(all[i], allowed);
      assert Strip(all[i].name) != Strip(all[|fs|].name);
      KeysApart(all[i], f);
    }
  }

  lemma OneMore(p: map<string, string>, base: map<string, string>, fs: seq<Filter>, f: Filter, allowed: set<string>)
    requires Encodes(p, base, fs) && Reserved(base) && FiltersOk(fs + [f], allowed)
    ensures KeyOf(f) !in p && Encodes(p[KeyOf(f) := ValueOf(f)], base, fs + [f])
  {
    hide KeyOf, ValueOf, FiltersOk, Keys;
    FreshKey(fs, f, allowed);
    PutOne(p, base, fs, f);
  }

  /** The property names of some filters. */
  function Names(fs: seq<Filter>): set<string> {
    set i | 0 <= i < |fs| :: Strip(fs[i].name)
  }

  lemma NamesSnoc(fs: seq<Filter>, f: Filter)
    ensures Names(fs + [f]) == Names(fs) + {Strip(f.name)}
  {
    hide Strip;
    var all := fs + [f];
    assert all[|fs|] == f && forall i :: 0 <= i < |fs| ==> all[i] == fs[i];
    forall n | n in Names(fs)
      ensures n in Names(all)
    {
      var i :| 0 <= i < |fs| && n == Strip(fs[i].name);
      assert n == Strip(all[i].name);
    }
  }

  /** Claim a property name and check its value; the claimed names are those of `fs`. */
  method AddFilter(ghost fs: seq<Filter>, ghost base: map<string, string>, f: Filter, allowed: set<string>,
                   claimed: set<string>, params: map<string, string>)
      returns (r: Result<map<string, string>, Error>)
    requires claimed == Names(fs)
    requires FiltersOk(fs, allowed) && Encodes(params, base, fs) && Reserved(base)
    ensures r.Ok? <==> FiltersOk(fs + [f], allowed)
    ensures r.Ok? ==> Encodes(r.value, base, fs + [f])
    ensures r.Err? && r.error.BadName? <==> !ValidName(f.name)
    ensures r.Err? && r.error.NotAllowed? <==> ValidName(f.name) && Strip(f.name) !in allowed
    ensures r.Err? && r.error.Contradictory?
       <==> ValidName(f.name) && Strip(f.name) in allowed && Strip(f.name) in Names(fs)
  {
    hide Encodes, ValidName, KeyOf, ValueOf, Names, Strip;
    ExtendOk(fs, f, allowed);
    if !ValidName(f.name) {
      return Err(BadName);
    }
    var clean := Strip(f.name);
    if clean !in allowed {
      return Err(NotAllowed);
    }
    if clean in claimed {
      return Err(Contradictory);
    }
    if !f.Lacks? && IsBlank(f.value) {
      return Err(BlankValue);
    }
    if f.HasNot? && HasSeparator(f.value) {
      return Err(SeparatorInValue);
    }
    OneMore(params, base, fs, f, allowed);
    return Ok(params[KeyOf(f) := ValueOf(f)]);
  }

  lemma ExtendOk(fs: seq<Filter>, f: Filter, allowed: set<string>)
    requires FiltersOk(fs, allowed)
    ensures FiltersOk(fs + [f], allowed)
       <==> FilterOk(f, allowed) && Strip(f.name) !in Names(fs)
  {
    hide FilterOk, Strip;
    var all := fs + [f];
    assert all[|fs|] == f && forall i :: 0 <= i < |fs| ==> all[i] == fs[i];
  }

  lemma PrefixOk(fs: seq<Filter>, n: nat, allowed: set<string>)
    requires n <= |fs| && FiltersOk(fs, allowed)
    ensures FiltersOk(fs[..n], allowed)
  {
    hide FilterOk;
  }

  /** All property filters, in order; the first bad one stops the encoding. */
  method EncodeFilters(fs: seq<Filter>, base: map<string, string>, allowed: set<string>)
      returns (r: Result<map<string, string>, Error>)
    requires Reserved(base)
    ensures r.Ok? <==> FiltersOk(fs, allowed)
    ensures r.Ok? ==> Encodes(r.value, base, fs)
  {
    hide FiltersOk, Encodes, Names, Strip;
    var params := base;
    var claimed: set<string> := {};
    NothingEncoded(base, allowed);
    for n := 0 to |fs|
      invariant FiltersOk(fs[..n], allowed) && Encodes(params, base, fs[..n])
      invariant claimed == Names(fs[..n])
    {
      assert fs[..n + 1] == fs[..n] + [fs[n]];
      NamesSnoc(fs[..n], fs[n]);
      var added := AddFilter(fs[..n], base, fs[n], allowed, claimed, params);
      if added.Err? {
        BeginningOk(fs, n, allowed);
        return Err(added.error);
      }
      params := added.value;
      claimed := claimed + {Strip(fs[n].name)};
    }
    assert fs[..|fs|] == fs;
    return Ok(params);
  }

  /** A beginning of acceptable filters is acceptable. */
  lemma BeginningOk(fs: seq<Filter>, n: nat, allowed: set<string>)
    requires n < |fs|
    ensures FiltersOk(fs, allowed) ==> FiltersOk(fs[..n] + [fs[n]], allowed)
  {
    hide FiltersOk;
    assert fs[..n + 1] == fs[..n] + [fs[n]];
    if FiltersOk(fs, allowed) {
      PrefixOk(fs, n + 1, allowed);
    }
  }

  lemma NothingEncoded(base: map<string, string>, allowed: set<string>)
    ensures FiltersOk([], allowed) && Encodes(base, base, []) && Names([]) == {}
  {
  }

  /** The tag entries, added last. */
  function WithTags(p: map<string, string>, r: Request): map<string, string> {
    var p1 := if r.hasTags != [] then p["~tag" := JoinTags(r.hasTags)] else p;
    if r.lacksTags != [] then p1["~tag!" := JoinTags(r.lacksTags)] else p1
  }

  /** What an accepted request is sent as. */
  ghost predicate IsEncoding(params: map<string, string>, r: Request) {
    exists p :: Encodes(p, BaseParams(r), Filters(r)) && params == WithTags(p, r)
  }

  method BuildQueryParams(r: Request, allowed: set<string>) returns (result: Result<map<string, string>, Error>)
    ensures result.Ok? <==> FiltersOk(Filters(r), allowed) && TagsOk(r)
    ensures result.Ok? ==> IsEncoding(result.value, r)
  {
    hide FiltersOk, Encodes, ValidName;
    var encoded := EncodeFilters(Filters(r), BaseParams(r), allowed);
    if encoded.Err? {
      return Err(encoded.error);
    }
    if t :| t in r.hasTags && !ValidName(t) {
      return Err(BadName);
    }
    if t :| t in r.lacksTags && !ValidName(t) {
      return Err(BadName);
    }
    if t, u :| t in r.hasTags && u in r.lacksTags && Strip(t) == Strip(u) {
      return Err(TagConflict);
    }
    return Ok(WithTags(encoded.value, r));
  }

  // ---------------------------------------------------------------------------------------
  // Reading it back
  // ---------------------------------------------------------------------------------------

  predicate IsReserved(key: string) {
    key != "" && key[0] == '~'
  }

  predicate IsNegative(key: string) {
    key != "" && key[|key| - 1] == '!'
  }

  /** The property a key names: the key without the mark of negation. */
  function Read(key: string): string {
    if IsNegative(key) then key[..|key| - 1] else key
  }

  /** The positive filters a receiver reads off the parameters. */
  ghost function Positives(params: map<string, string>): set<(string, string)> {
    set k | k in params && !IsReserved(k) && !IsNegative(k) :: (Read(k), params[k])
  }

  /** The negative ones; `p` with value `*` means "lacks p". */
  ghost function Negatives(params: map<string, string>): set<(string, string)> {
    set k | k in params && !IsReserved(k) && IsNegative(k) :: (Read(k), params[k])
  }

  lemma KeyReads(f: Filter)
    requires ValidName(f.name)
    ensures !IsReserved(KeyOf(f)) && (IsNegative(KeyOf(f)) <==> !f.Has?)
    ensures Read(KeyOf(f)) == Strip(f.name)
  {
    KeyIsPlain(f);
  }

  lemma AllKeysRead(fs: seq<Filter>, allowed: set<string>)
    requires FiltersOk(fs, allowed)
    ensures forall k :: k in Keys(fs) ==> !IsReserved(k)
    ensures forall i :: 0 <= i < |fs| ==> (IsNegative(KeyOf(fs[i])) <==> !fs[i].Has?)
    ensures forall i :: 0 <= i < |fs| ==> Read(KeyOf(fs[i])) == Strip(fs[i].name) && Strip(fs[i].name) in allowed
  {
    hide KeyOf, ValidName, IsReserved, IsNegative, Read;
    forall i | 0 <= i < |fs|
      ensures !IsReserved(KeyOf(fs[i])) && (IsNegative(KeyOf(fs[i])) <==> !fs[i].Has?)
      ensures Read(KeyOf(fs[i])) == Strip(fs[i].name) && Strip(fs[i].name) in allowed
    {
      assert FilterOk(fs[i], allowed);
      KeyReads(fs[i]);
    }
  }

  /** The fixed keys: all reserved, and none of them a negated name pattern. */
  lemma FixedKeys(r: Request)
    ensures IsReserved("~name") && IsReserved("~tag") && IsReserved("~tag!") && IsReserved("~name!")
    ensures forall k :: k in BaseParams(r) ==> IsReserved(k)
    ensures "~tag" !in BaseParams(r) && "~tag!" !in BaseParams(r) && "~name!" !in BaseParams(r)
    ensures "~tag" != "~tag!" && "~tag" != "~name" && "~tag!" != "~name" && "~name!" != "~tag" && "~name!" != "~tag!"
    ensures "~name" in BaseParams(r) && BaseParams(r)["~name"] == r.pattern
    ensures |BaseParams(r)| == 1 + (if r.size.Some? then 1 else 0)
  {
    var four, five := "~tag", "~tag!";
    assert |"~tag"| == 4 && |"~tag!"| == 5 && |"~name"| == 5 && |"~name!"| == 6 && |"~size"| == 5;
    assert "~tag!"[1] == 't' && "~name"[1] == 'n' && "~size"[1] == 's';
  }

  /** What the tag entries leave alone, and how many they are. */
  lemma TagsAdd(p: map<string, string>, r: Request)
    requires "~tag" !in p && "~tag!" !in p && "~tag" != "~tag!"
    ensures forall k :: k != "~tag" && k != "~tag!" ==> (k in WithTags(p, r) <==> k in p)
    ensures forall k :: k != "~tag" && k != "~tag!" && k in p ==> WithTags(p, r)[k] == p[k]
    ensures |WithTags(p, r)| == |p| + (if r.hasTags != [] then 1 else 0) + (if r.lacksTags != [] then 1 else 0)
  {
    hide JoinTags;
    var a, b := "~tag", "~tag!";
    TagsAddNamed(p, a, JoinTags(r.hasTags), b, JoinTags(r.lacksTags), r.hasTags != [], r.lacksTags != []);
  }

  lemma TagsAddNamed<K, V>(p: map<K, V>, a: K, x: V, b: K, y: V, first: bool, second: bool)
    requires a !in p && b !in p && a != b
    ensures var p1 := if first then p[a := x] else p;
            var p2 := if second then p1[b := y] else p1;
            && (forall k :: k != a && k != b ==> (k in p2 <==> k in p))
            && (forall k :: k != a && k != b && k in p ==> p2[k] == p[k])
            && |p2| == |p| + (if first then 1 else 0) + (if second then 1 else 0)
  {
  }

  /** An accepted encoding, taken apart: the parameters before the tags. */
  lemma BeforeTags(params: map<string, string>, r: Request) returns (p: map<string, string>)
    requires IsEncoding(params, r)
    ensures Encodes(p, BaseParams(r), Filters(r)) && params == WithTags(p, r)
  {
    hide Encodes, WithTags, Filters, BaseParams;
    p :| Encodes(p, BaseParams(r), Filters(r)) && params == WithTags(p, r);
  }

  /** The keys of the filters are never the fixed ones. */
  lemma FilterKeysUnreserved(fs: seq<Filter>, allowed: set<string>)
    requires FiltersOk(fs, allowed)
    ensures forall k :: k in Keys(fs) ==> !IsReserved(k)
    ensures "~tag" !in Keys(fs) && "~tag!" !in Keys(fs) && "~name!" !in Keys(fs)
  {
    AllKeysRead(fs, allowed);
    hide Keys, FiltersOk;
    assert IsReserved("~tag") && IsReserved("~tag!") && IsReserved("~name!");
  }

  /** Which parameters an encoding has besides the reserved ones: those of its filters. */
  lemma FilterKeys(params: map<string, string>, r: Request, allowed: set<string>)
    requires IsEncoding(params, r) && FiltersOk(Filters(r), allowed)
    ensures forall k :: k in params && !IsReserved(k) <==> k in Keys(Filters(r))
    ensures forall i :: 0 <= i < |Filters(r)| ==>
              KeyOf(Filters(r)[i]) in params && params[KeyOf(Filters(r)[i])] == ValueOf(Filters(r)[i])
    ensures |params| == 1 + (if r.size.Some? then 1 else 0) + |Filters(r)|
                      + (if r.hasTags != [] then 1 else 0) + (if r.lacksTags != [] then 1 else 0)
    ensures "~name!" !in params && "~name" in params && params["~name"] == r.pattern
  {
    hide KeyOf, ValueOf, Keys, Filters, WithTags, BaseParams, IsReserved, FiltersOk, IsEncoding, Strip;
    var fs := Filters(r);
    var p := BeforeTags(params, r);
    FilterKeysUnreserved(fs, allowed);
    FixedKeys(r);
    TagsAdd(p, r);
    KeysWithTags(params, p, BaseParams(r), Keys(fs));
    hide Encodes;
    ValuesWithTags(params, p, BaseParams(r), fs);
  }

  lemma KeysWithTags(params: map<string, string>, p: map<string, string>, base: map<string, string>, keys: set<string>)
    requires p.Keys == base.Keys + keys
    requires forall k :: k in base ==> IsReserved(k)
    requires forall k :: k in keys ==> !IsReserved(k)
    requires IsReserved("~tag") && IsReserved("~tag!")
    requires forall k :: k != "~tag" && k != "~tag!" ==> (k in params <==> k in p)
    ensures forall k :: k in params && !IsReserved(k) <==> k in keys
  {
    hide IsReserved;
    forall k
      ensures k in params && !IsReserved(k) <==> k in keys
    {
      assert k in p <==> k in base.Keys || k in keys;
    }
  }

  lemma ValuesWithTags(params: map<string, string>, p: map<string, string>, base: map<string, string>, fs: seq<Filter>)
    requires Encodes(p, base, fs)
    requires "~tag" !in Keys(fs) && "~tag!" !in Keys(fs)
    requires forall k :: k != "~tag" && k != "~tag!" ==> (k in params <==> k in p)
    requires forall k :: k != "~tag" && k != "~tag!" && k in p ==> params[k] == p[k]
    ensures forall i :: 0 <= i < |fs| ==> KeyOf(fs[i]) in params && params[KeyOf(fs[i])] == ValueOf(fs[i])
  {
    hide KeyOf, ValueOf;
    forall i | 0 <= i < |fs|
      ensures KeyOf(fs[i]) in params && params[KeyOf(fs[i])] == ValueOf(fs[i])
    {
      KeyInKeys(fs, i);
    }
  }

  lemma KeyInKeys(fs: seq<Filter>, i: nat)
    requires i < |fs|
    ensures KeyOf(fs[i]) in Keys(fs)
  {
  }

  /** The encoding loses nothing and mixes nothing up: every accepted filter, and no other, reads
      back with its own name and value, positives as positives and negatives as negatives. */
  lemma ReadsBack(params: map<string, string>, r: Request, allowed: set<string>)
    requires IsEncoding(params, r) && FiltersOk(Filters(r), allowed)
    ensures Positives(params)
         == set i | 0 <= i < |Filters(r)| && Filters(r)[i].Has? :: (Strip(Filters(r)[i].name), ValueOf(Filters(r)[i]))
    ensures Negatives(params)
         == set i | 0 <= i < |Filters(r)| && !Filters(r)[i].Has? :: (Strip(Filters(r)[i].name), ValueOf(Filters(r)[i]))
  {
    FilterKeys(params, r, allowed);
    AllKeysRead(Filters(r), allowed);
    hide KeyOf, ValueOf, FiltersOk, Filters, IsEncoding, IsReserved, IsNegative, Read;
    var fs := Filters(r);
    forall k | k in params && !IsReserved(k)
      ensures exists i :: 0 <= i < |fs| && k == KeyOf(fs[i])
    {
      assert k in Keys(fs);
    }
    forall i | 0 <= i < |fs|
      ensures KeyOf(fs[i]) in params && !IsReserved(KeyOf(fs[i]))
    {
      KeyInKeys(fs, i);
    }
    ReadBackSets(params, fs);
  }

  lemma ReadBackSets(params: map<string, string>, fs: seq<Filter>)
    requires forall k :: k in params && !IsReserved(k) ==> exists i :: 0 <= i < |fs| && k == KeyOf(fs[i])
    requires forall i :: 0 <= i < |fs| ==>
               && KeyOf(fs[i]) in params && !IsReserved(KeyOf(fs[i])) && params[KeyOf(fs[i])] == ValueOf(fs[i])
               && (IsNegative(KeyOf(fs[i])) <==> !fs[i].Has?) && Read(KeyOf(fs[i])) == Strip(fs[i].name)
    ensures Positives(params) == set i | 0 <= i < |fs| && fs[i].Has? :: (Strip(fs[i].name), ValueOf(fs[i]))
    ensures Negatives(params) == set i | 0 <= i < |fs| && !fs[i].Has? :: (Strip(fs[i].name), ValueOf(fs[i]))
  {
    hide KeyOf, ValueOf, IsReserved, IsNegative, Read;
  }

  /** No entry overwrites another: the number of parameters is the number of things asked for. */
  lemma NothingOverwritten(params: map<string, string>, r: Request, allowed: set<string>)
    requires IsEncoding(params, r) && FiltersOk(Filters(r), allowed)
    ensures |params| == 1 + (if r.size.Some? then 1 else 0) + |r.has| + |r.lacks| + |r.hasNot|
                      + (if r.hasTags != [] then 1 else 0) + (if r.lacksTags != [] then 1 else 0)
  {
    FilterKeys(params, r, allowed);
    hide FiltersOk, IsEncoding;
    assert |Filters(r)| == |r.has| + |r.lacks| + |r.hasNot|;
  }

  /** A property key, without its `!`, is on the allowlist; and the name pattern is never negated. */
  lemma OnlyAllowedKeys(params: map<string, string>, r: Request, allowed: set<string>)
    requires IsEncoding(params, r) && FiltersOk(Filters(r), allowed)
    ensures forall k :: k in params && !IsReserved(k) ==> Read(k) in allowed
    ensures "~name!" !in params && "~name" in params && params["~name"] == r.pattern
  {
    FilterKeys(params, r, allowed);
    AllKeysRead(Filters(r), allowed);
    hide KeyOf, FiltersOk, Filters, IsEncoding, IsReserved, Read;
    forall k | k in params && !IsReserved(k)
      ensures Read(k) in allowed
    {
      assert k in Keys(Filters(r));
    }
  }

  // ---------------------------------------------------------------------------------------
  // Tags
  // ---------------------------------------------------------------------------------------

  predicate IsSeparator(c: char) {
    c == '|' || c == ',' || c == ';'
  }

  /** The alternatives a receiver splits a value into. */
  function Pieces(v: string): seq<string>
    ensures |Pieces(v)| > 0
  {
    if v == "" then [""]
    else if IsSeparator(v[0]) then [""] + Pieces(v[1..])
    else [[v[0]] + Pieces(v[1..])[0]] + Pieces(v[1..])[1..]
  }

  function Stripped(tags: seq<string>): seq<string> {
    seq(|tags|, i requires 0 <= i < |tags| => Strip(tags[i]))
  }

  lemma {:induction false} PiecesClean(v: string)
    ensures forall i :: 0 <= i < |Pieces(v)| ==> !HasSeparator(Pieces(v)[i])
  {
    if v != "" {
      PiecesClean(v[1..]);
      var rest := Pieces(v[1..]);
      if !IsSeparator(v[0]) {
        assert !HasSeparator(rest[0]);
        assert Pieces(v)[0] == [v[0]] + rest[0];
      }
    }
  }

  lemma {:induction false} PiecesOfClean(t: string)
    requires !HasSeparator(t)
    ensures Pieces(t) == [t]
  {
    if t != "" {
      assert !HasSeparator(t[1..]);
      PiecesOfClean(t[1..]);
      assert [t[0]] + t[1..] == t;
    }
  }

  lemma {:induction false} PiecesOfJoin(t: string, sep: char, rest: string)
    requires !HasSeparator(t) && IsSeparator(sep)
    ensures Pieces(t + [sep] + rest) == [t] + Pieces(rest)
  {
    var whole := t + [sep] + rest;
    if t == "" {
      assert whole[1..] == rest;
    } else {
      assert !HasSeparator(t[1..]);
      PiecesOfJoin(t[1..], sep, rest);
      assert whole[1..] == t[1..] + [sep] + rest;
      assert [t[0]] + t[1..] == t;
    }
  }

  lemma {:induction false} PiecesOfTags(tags: seq<string>)
    requires tags != [] && forall t :: t in tags ==> !HasSeparator(Strip(t))
    ensures Pieces(JoinTags(tags)) == Stripped(tags)
  {
    hide Strip, Pieces, HasSeparator;
    if |tags| == 1 {
      PiecesOfClean(Strip(tags[0]));
    } else {
      PiecesOfTags(tags[1..]);
      PiecesOfJoin(Strip(tags[0]), '|', JoinTags(tags[1..]));
      assert Stripped(tags) == [Strip(tags[0])] + Stripped(tags[1..]);
    }
  }

  /** A tag list reads back as the tags that were asked for exactly if no tag holds a separator. */
  lemma TagsReadBackIff(tags: seq<string>)
    requires tags != []
    ensures (forall x :: x in Pieces(JoinTags(tags)) <==> x in Stripped(tags))
       <==> (forall t :: t in tags ==> !HasSeparator(t))
  {
    hide Strip, Pieces, JoinTags, HasSeparator;
    forall t
      ensures HasSeparator(Strip(t)) <==> HasSeparator(t)
    {
      StripKeepsSeparators(t);
    }
    if t :| t in tags && HasSeparator(t) {
      PiecesClean(JoinTags(tags));
      var i :| 0 <= i < |tags| && tags[i] == t;
      assert Stripped(tags)[i] == Strip(t);
      assert Strip(t) !in Pieces(JoinTags(tags));
    } else {
      PiecesOfTags(tags);
    }
  }

  lemma {:induction false} StripLeftKeeps(s: string)
    ensures HasSeparator(StripLeft(s)) <==> HasSeparator(s)
  {
    if s != "" && IsSpace(s[0]) {
      StripLeftKeeps(s[1..]);
      assert s == [s[0]] + s[1..];
    }
  }

  lemma {:induction false} StripRightKeeps(s: string)
    ensures HasSeparator(StripRight(s)) <==> HasSeparator(s)
  {
    if s != "" && IsSpace(s[|s| - 1]) {
      StripRightKeeps(s[..|s| - 1]);
      assert s == s[..|s| - 1] + [s[|s| - 1]];
    }
  }

  lemma StripKeepsSeparators(s: string)
    ensures HasSeparator(Strip(s)) <==> HasSeparator(s)
  {
    hide StripLeft, StripRight, HasSeparator;
    StripLeftKeeps(s);
    StripRightKeeps(StripLeft(s));
  }

  /** Without separators the overlap test does what it is for: no alternative is asked for and
      refused at once. */
  lemma TagsStayApart(r: Request)
    requires TagsOk(r) && r.hasTags != [] && r.lacksTags != []
    requires forall t :: t in r.hasTags + r.lacksTags ==> !HasSeparator(t)
    ensures forall x :: x in Pieces(JoinTags(r.hasTags)) ==> x !in Pieces(JoinTags(r.lacksTags))
  {
    hide Strip, Pieces, JoinTags, HasSeparator, ValidName;
    assert forall t :: t in r.hasTags ==> t in r.hasTags + r.lacksTags;
    assert forall t :: t in r.lacksTags ==> t in r.hasTags + r.lacksTags;
    TagsReadBackIff(r.hasTags);
    TagsReadBackIff(r.lacksTags);
  }

  /** A text that could itself be asked for as a tag. */
  predicate Usable(x: string) {
    ValidName(x) && Strip(x) == x
  }

  /** For given wanted tags the overlap test does its work against all separator-free refused ones
      exactly if every alternative of them that is usable as a tag is itself one of them. */
  lemma TagsApartIff(r: Request)
    requires r.hasTags != [] && forall t :: t in r.hasTags ==> ValidName(t)
    ensures (forall lacks, x ::
               TagsOk(r.(lacksTags := lacks)) && lacks != [] && Clean(lacks) && x in Pieces(JoinTags(r.hasTags)) ==>
                 x !in Pieces(JoinTags(lacks)))
       <==> (forall x :: x in Pieces(JoinTags(r.hasTags)) && Usable(x) ==> x in Stripped(r.hasTags))
  {
    hide Strip, Pieces, JoinTags, HasSeparator, ValidName;
    if x :| x in Pieces(JoinTags(r.hasTags)) && Usable(x) && x !in Stripped(r.hasTags) {
      RefusedAlone(r, x);
      assert TagsOk(r.(lacksTags := [x])) && [x] != [] && Clean([x]);
    } else {
      forall lacks, x |
        TagsOk(r.(lacksTags := lacks)) && lacks != [] && Clean(lacks) && x in Pieces(JoinTags(r.hasTags))
        ensures x !in Pieces(JoinTags(lacks))
      {
        RefusedApart(r, lacks, x);
      }
    }
  }

  predicate Clean(tags: seq<string>) {
    forall t :: t in tags ==> !HasSeparator(t)
  }

  lemma InStripped(tags: seq<string>, x: string)
    ensures x in Stripped(tags) <==> exists t :: t in tags && Strip(t) == x
  {
    hide Strip;
    if x in Stripped(tags) {
      var i :| 0 <= i < |tags| && Stripped(tags)[i] == x;
      assert tags[i] in tags;
    }
    if t :| t in tags && Strip(t) == x {
      var i :| 0 <= i < |tags| && tags[i] == t;
      assert Stripped(tags)[i] == x;
    }
  }

  /** A usable alternative that is no tag of its own can be refused, and is then both. */
  lemma RefusedAlone(r: Request, x: string)
    requires forall t :: t in r.hasTags ==> ValidName(t)
    requires x in Pieces(JoinTags(r.hasTags)) && Usable(x) && x !in Stripped(r.hasTags)
    ensures TagsOk(r.(lacksTags := [x])) && Clean([x]) && x in Pieces(JoinTags([x]))
  {
    hide Strip, Pieces, HasSeparator, ValidName;
    InStripped(r.hasTags, x);
    PiecesClean(JoinTags(r.hasTags));
    PiecesOfClean(x);
    assert JoinTags([x]) == x && [x][0] == x;
  }

  lemma RefusedApart(r: Request, lacks: seq<string>, x: string)
    requires TagsOk(r.(lacksTags := lacks)) && lacks != [] && Clean(lacks)
    requires Usable(x) ==> x in Stripped(r.hasTags)
    ensures x !in Pieces(JoinTags(lacks))
  {
    hide Strip, Pieces, JoinTags, HasSeparator, ValidName;
    TagsReadBackIff(lacks);
    InStripped(lacks, x);
    InStripped(r.hasTags, x);
    if u :| u in lacks && Strip(u) == x {
      StrippedIsUsable(u);
    }
  }

  lemma StrippedIsUsable(u: string)
    requires ValidName(u)
    ensures Usable(Strip(u))
  {
    StripNothing(Strip(u));
  }

  /** With one it does not: the tag of `t` and `u` joined by a separator asked for, and `u` refused,
      is accepted, and `u` is both. */
  lemma SeparatorEscapes(r: Request, t: string, sep: char, u: string)
    requires t != "" && t[0] != '~' && u != "" && u[0] != '~' && u[|u| - 1] != '!' && IsSeparator(sep)
    requires !IsSpace(t[0]) && !IsSpace(u[0]) && !IsSpace(u[|u| - 1]) && !HasSeparator(t) && !HasSeparator(u)
    requires r.hasTags == [t + [sep] + u] && r.lacksTags == [u]
    ensures TagsOk(r)
    ensures u in Pieces(JoinTags(r.hasTags)) && u in Pieces(JoinTags(r.lacksTags))
  {
    hide Strip, HasSeparator, ValidName, Pieces, TagsOk;
    var both := t + [sep] + u;
    assert both[0] == t[0] && both[|both| - 1] == u[|u| - 1];
    CleanIsValid(both);
    CleanIsValid(u);
    hide IsSpace;
    assert |both| > |u|;
    OneTagEach(r, both, u);
    PieceOfBoth(t, sep, u);
  }

  lemma CleanIsValid(s: string)
    requires s != "" && !IsSpace(s[0]) && !IsSpace(s[|s| - 1]) && s[0] != '~' && s[|s| - 1] != '!'
    ensures ValidName(s) && Strip(s) == s
  {
    StripNothing(s);
  }

  lemma OneTagEach(r: Request, x: string, y: string)
    requires r.hasTags == [x] && r.lacksTags == [y] && ValidName(x) && ValidName(y)
    requires Strip(x) == x && Strip(y) == y && x != y
    ensures TagsOk(r) && JoinTags(r.hasTags) == x && JoinTags(r.lacksTags) == y
  {
    hide Strip, ValidName;
  }

  lemma PieceOfBoth(t: string, sep: char, u: string)
    requires !HasSeparator(t) && !HasSeparator(u) && IsSeparator(sep)
    ensures u in Pieces(t + [sep] + u) && u in Pieces(u)
  {
    hide Pieces, HasSeparator;
    PiecesOfClean(u);
    PiecesOfJoin(t, sep, u);
    assert ([t] + [u])[1] == u && [u][0] == u;
  }

  lemma StripNothing(s: string)
    requires s != "" && !IsSpace(s[0]) && !IsSpace(s[|s| - 1])
    ensures Strip(s) == s
  {
  }

  /** What an accepted request sends of its tags. */
  lemma TagsSent(params: map<string, string>, r: Request, allowed: set<string>)
    requires IsEncoding(params, r) && FiltersOk(Filters(r), allowed)
    ensures "~tag" in params <==> r.hasTags != []
    ensures "~tag!" in params <==> r.lacksTags != []
    ensures r.hasTags != [] ==> params["~tag"] == JoinTags(r.hasTags)
    ensures r.lacksTags != [] ==> params["~tag!"] == JoinTags(r.lacksTags)
  {
    hide KeyOf, ValueOf, Keys, Filters, BaseParams, IsReserved, FiltersOk, IsEncoding, JoinTags;
    var p := BeforeTags(params, r);
    FilterKeysUnreserved(Filters(r), allowed);
    FixedKeys(r);
    assert "~tag" !in p.Keys && "~tag!" !in p.Keys;
    hide Encodes;
  }

  // ---------------------------------------------------------------------------------------
  // The request in plain terms
  // ---------------------------------------------------------------------------------------

  /** The filters, by the list each comes from. */
  lemma FilterAt(r: Request)
    ensures |Filters(r)| == |r.has| + |r.lacks| + |r.hasNot|
    ensures forall i :: 0 <= i < |r.has| ==> Filters(r)[i] == Has(r.has[i].0, r.has[i].1)
    ensures forall i :: 0 <= i < |r.lacks| ==> Filters(r)[|r.has| + i] == Lacks(r.lacks[i])
    ensures forall i :: 0 <= i < |r.hasNot| ==>
              Filters(r)[|r.has| + |r.lacks| + i] == HasNot(r.hasNot[i].0, r.hasNot[i].1)
  {
  }

  /** No character that would split the value. */
  predicate OneAlternative(value: string) {
    forall i :: 0 <= i < |value| ==> value[i] != '|' && value[i] != ',' && value[i] != ';'
  }

  lemma OneAlternativeIs(value: string)
    ensures OneAlternative(value) <==> !HasSeparator(value)
    ensures OneAlternative(value) ==> Pieces(value) == [value]
  {
    hide Pieces;
    if OneAlternative(value) {
      PiecesOfClean(value);
    }
  }

  /** Which filters may be sent, kind by kind: allowlisted names, each used once; a value that is
      not blank; and for a negated value no character that would split it. */
  lemma AcceptedIff(r: Request, allowed: set<string>)
    ensures FiltersOk(Filters(r), allowed)
       <==> && NamesApart(Filters(r))
            && (forall p :: p in r.has ==> ValidName(p.0) && Strip(p.0) in allowed && Strip(p.1) != "")
            && (forall n :: n in r.lacks ==> ValidName(n) && Strip(n) in allowed)
            && (forall p :: p in r.hasNot ==>
                  ValidName(p.0) && Strip(p.0) in allowed && Strip(p.1) != "" && OneAlternative(p.1))
  {
    FilterAt(r);
    hide Filters, Strip, HasSeparator, OneAlternative, ValidName, NamesApart;
    forall p | p in r.hasNot
      ensures OneAlternative(p.1) <==> !HasSeparator(p.1)
    {
      OneAlternativeIs(p.1);
    }
    AcceptedKinds(r, allowed);
    hide FiltersOk;
  }

  lemma AcceptedKinds(r: Request, allowed: set<string>)
    ensures FiltersOk(Filters(r), allowed)
       <==> && NamesApart(Filters(r)) && (forall p :: p in r.has ==> FilterOk(Has(p.0, p.1), allowed))
            && (forall n :: n in r.lacks ==> FilterOk(Lacks(n), allowed))
            && (forall p :: p in r.hasNot ==> FilterOk(HasNot(p.0, p.1), allowed))
  {
    hide NamesApart, Filters, FilterOk;
    if FiltersOk(Filters(r), allowed) {
      KindsOk(r, allowed);
    }
    if && (forall p :: p in r.has ==> FilterOk(Has(p.0, p.1), allowed))
       && (forall n :: n in r.lacks ==> FilterOk(Lacks(n), allowed))
       && (forall p :: p in r.hasNot ==> FilterOk(HasNot(p.0, p.1), allowed)) {
      AllOk(r, allowed);
    }
  }

  lemma AllOk(r: Request, allowed: set<string>)
    requires forall p :: p in r.has ==> FilterOk(Has(p.0, p.1), allowed)
    requires forall n :: n in r.lacks ==> FilterOk(Lacks(n), allowed)
    requires forall p :: p in r.hasNot ==> FilterOk(HasNot(p.0, p.1), allowed)
    ensures forall i :: 0 <= i < |Filters(r)| ==> FilterOk(Filters(r)[i], allowed)
  {
    FilterAt(r);
    hide Filters, FilterOk;
    forall i | 0 <= i < |Filters(r)|
      ensures FilterOk(Filters(r)[i], allowed)
    {
      if i < |r.has| {
        assert r.has[i] in r.has;
      } else if i < |r.has| + |r.lacks| {
        assert r.lacks[i - |r.has|] in r.lacks;
      } else {
        assert r.hasNot[i - |r.has| - |r.lacks|] in r.hasNot;
      }
    }
  }

  lemma KindsOk(r: Request, allowed: set<string>)
    requires forall i :: 0 <= i < |Filters(r)| ==> FilterOk(Filters(r)[i], allowed)
    ensures forall p :: p in r.has ==> FilterOk(Has(p.0, p.1), allowed)
    ensures forall n :: n in r.lacks ==> FilterOk(Lacks(n), allowed)
    ensures forall p :: p in r.hasNot ==> FilterOk(HasNot(p.0, p.1), allowed)
  {
    FilterAt(r);
    hide Filters, FilterOk, NamesApart;
    var fs := Filters(r);
    forall i | 0 <= i < |r.has|
      ensures FilterOk(Has(r.has[i].0, r.has[i].1), allowed)
    {
      assert FilterOk(fs[i], allowed);
    }
    forall i | 0 <= i < |r.lacks|
      ensures FilterOk(Lacks(r.lacks[i]), allowed)
    {
      assert FilterOk(fs[|r.has| + i], allowed);
    }
    forall i | 0 <= i < |r.hasNot|
      ensures FilterOk(HasNot(r.hasNot[i].0, r.hasNot[i].1), allowed)
    {
      assert FilterOk(fs[|r.has| + |r.lacks| + i], allowed);
    }
  }

  /** What an accepted request sends, key by key: a positive filter under its name, the negative
      ones under the name and `!`, where a negated value stands for itself alone. */
  lemma SentAs(params: map<string, string>, r: Request, allowed: set<string>)
    requires IsEncoding(params, r) && FiltersOk(Filters(r), allowed)
    ensures forall p :: p in r.has ==> Strip(p.0) in params && params[Strip(p.0)] == p.1
    ensures forall n :: n in r.lacks ==> Strip(n) + "!" in params && params[Strip(n) + "!"] == "*"
    ensures forall p :: p in r.hasNot ==>
              Strip(p.0) + "!" in params && params[Strip(p.0) + "!"] == p.1 && Pieces(p.1) == [p.1]
  {
    FilterKeys(params, r, allowed);
    AcceptedIff(r, allowed);
    FilterAt(r);
    hide Filters, Strip, HasSeparator, OneAlternative, FiltersOk, IsEncoding, Keys, Pieces, IsReserved, ValidName,
         NamesApart;
    var fs := Filters(r);
    forall i | 0 <= i < |r.has|
      ensures Strip(r.has[i].0) in params && params[Strip(r.has[i].0)] == r.has[i].1
    {
      assert KeyOf(fs[i]) in params;
    }
    forall i | 0 <= i < |r.lacks|
      ensures Strip(r.lacks[i]) + "!" in params && params[Strip(r.lacks[i]) + "!"] == "*"
    {
      assert KeyOf(fs[|r.has| + i]) in params;
    }
    forall i | 0 <= i < |r.hasNot|
      ensures var k, v := Strip(r.hasNot[i].0) + "!", r.hasNot[i].1;
              k in params && params[k] == v && Pieces(v) == [v]
    {
      assert KeyOf(fs[|r.has| + |r.lacks| + i]) in params;
      assert r.hasNot[i] in r.hasNot;
      OneAlternativeIs(r.hasNot[i].1);
    }
  }

  /** The result cap is sent under its own key exactly when there is one. */
  lemma SizeSent(params: map<string, string>, r: Request, allowed: set<string>)
    requires IsEncoding(params, r) && FiltersOk(Filters(r), allowed)
    ensures "~size" in params <==> r.size.Some?
    ensures r.size.Some? ==> params["~size"] == r.size.value
  {
    var p := BeforeTags(params, r);
    AllKeysRead(Filters(r), allowed);
    SizeIsBase(r);
    FixedKeys(r);
    TagsAdd(p, r);
    hide Filters, WithTags, IsEncoding, FiltersOk, Keys, KeyOf, ValueOf, IsReserved, JoinTags, BaseParams;
    assert "~size" in p.Keys <==> "~size" in BaseParams(r).Keys;
  }

  lemma SizeIsBase(r: Request)
    ensures IsReserved("~size") && "~size" != "~tag" && "~size" != "~tag!"
    ensures "~size" in BaseParams(r) <==> r.size.Some?
    ensures r.size.Some? ==> BaseParams(r)["~size"] == r.size.value
  {
    assert |"~size"| == 5 && |"~tag"| == 4 && "~size"[1] == 's' && "~tag!"[1] == 't' && "~name"[1] == 'n';
  }

  /** Which names are refused: the blank ones, and those that start with `~` or end with `!` once
      the white space around them is gone. */
  lemma RefusedNames(a: string, core: string, b: string)
    requires IsBlank(a) && IsBlank(b) && core != "" && !IsSpace(core[0]) && !IsSpace(core[|core| - 1])
    ensures !ValidName(a)
    ensures ValidName(a + core + b) <==> core[0] != '~' && core[|core| - 1] != '!'
  {
    StripBetween(a, core, b);
  }
}
