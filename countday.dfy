/** The count-day report form: the storage key of a report, CSV field
    escaping, cloud-label canonicalisation and the merge of a derived patch
    into the form without overwriting what the compiler entered. */
module CountDayForm {
  import opened Wrappers
  import opened Text
  import opened Js

  // ---------------------------------------------------------------------
  // Storage key

  /** `replace(/\s+/g, ' ')`: every run of white space becomes one space. */
  function CollapseSpaces(s: string): (r: string)
    ensures |r| <= |s|
    ensures |s| > 0 ==> |r| > 0 && (IsSpace(r[0]) <==> IsSpace(s[0]))
    ensures |s| > 0 ==> (IsSpace(r[|r| - 1]) <==> IsSpace(s[|s| - 1]))
    decreases |s|
  {
    if s == [] then []
    else if IsSpace(s[0]) then
      var t := TrimStart(s[1..]);
      assert t == [] || !IsSpace(t[0]);
      [' '] + CollapseSpaces(t)
    else [s[0]] + CollapseSpaces(s[1..])
  }

  /** Every white-space character is a plain space with no white space after it. */
  predicate SingleSpaced(s: string) {
    forall i :: 0 <= i < |s| && IsSpace(s[i]) ==> s[i] == ' ' && (i + 1 < |s| ==> !IsSpace(s[i + 1]))
  }

  /** The text with all white space removed: the words, run together. */
  function NonSpace(s: string): (r: string)
    ensures forall i :: 0 <= i < |r| ==> !IsSpace(r[i])
  {
    if s == [] then [] else (if IsSpace(s[0]) then [] else [s[0]]) + NonSpace(s[1..])
  }

  lemma {:induction false} NonSpaceOfSpaces(s: string)
    requires forall i :: 0 <= i < |s| ==> IsSpace(s[i])
    ensures NonSpace(s) == []
  {
    if s != [] {
      NonSpaceOfSpaces(s[1..]);
    }
  }

  lemma {:induction false} NonSpaceConcat(a: string, b: string)
    ensures NonSpace(a + b) == NonSpace(a) + NonSpace(b)
  {
    if a != [] {
      assert (a + b)[1..] == a[1..] + b;
      NonSpaceConcat(a[1..], b);
    } else {
      assert a + b == b;
    }
  }

  lemma SingleSpacedCons(c: char, r: string)
    requires SingleSpaced(r)
    requires IsSpace(c) ==> c == ' ' && (r == [] || !IsSpace(r[0]))
    ensures SingleSpaced([c] + r)
  {
    var t := [c] + r;
    forall i | 0 <= i < |t| && IsSpace(t[i]) ensures t[i] == ' ' && (i + 1 < |t| ==> !IsSpace(t[i + 1])) {
      if i > 0 {
        assert t[i] == r[i - 1];
        if i + 1 < |t| { assert t[i + 1] == r[i]; }
      }
    }
  }

  /** Collapsing leaves the text single-spaced. */
  lemma {:induction false} CollapseSpacesSingle(s: string)
    ensures SingleSpaced(CollapseSpaces(s))
    decreases |s|
  {
    if s != [] {
      if IsSpace(s[0]) {
        var t := TrimStart(s[1..]);
        CollapseSpacesSingle(t);
        SingleSpacedCons(' ', CollapseSpaces(t));
      } else {
        CollapseSpacesSingle(s[1..]);
        var r := CollapseSpaces(s[1..]);
        SingleSpacedCons(s[0], r);
      }
    }
  }

  /** Collapsing keeps the words and their order. */
  lemma {:induction false} CollapseSpacesWords(s: string)
    ensures NonSpace(CollapseSpaces(s)) == NonSpace(s)
    decreases |s|
  {
    if s != [] {
      if IsSpace(s[0]) {
        var t := TrimStart(s[1..]);
        CollapseSpacesWords(t);
        NonSpaceTrimStart(s[1..]);
        assert ([' '] + CollapseSpaces(t))[1..] == CollapseSpaces(t);
      } else {
        CollapseSpacesWords(s[1..]);
        assert ([s[0]] + CollapseSpaces(s[1..]))[1..] == CollapseSpaces(s[1..]);
      }
    }
  }

  /** Leading white space holds no word. */
  lemma NonSpaceTrimStart(x: string)
    ensures NonSpace(TrimStart(x)) == NonSpace(x)
  {
    var t := TrimStart(x);
    var run := x[..|x| - |t|];
    assert x == run + t;
    NonSpaceOfSpaces(run);
    NonSpaceConcat(run, t);
  }

  lemma CollapseSpacesLaws(s: string)
    ensures NonSpace(CollapseSpaces(s)) == NonSpace(s)
    ensures SingleSpaced(CollapseSpaces(s))
  {
    CollapseSpacesWords(s);
    CollapseSpacesSingle(s);
  }

  lemma SingleSpacedTail(s: string)
    requires s != [] && SingleSpaced(s)
    ensures SingleSpaced(s[1..])
    ensures IsSpace(s[0]) ==> s[0] == ' ' && TrimStart(s[1..]) == s[1..]
  {
    forall i | 0 <= i < |s| - 1 && IsSpace(s[1..][i])
      ensures s[1..][i] == ' ' && (i + 1 < |s| - 1 ==> !IsSpace(s[1..][i + 1]))
    {
      assert s[1..][i] == s[i + 1];
    }
  }

  /** A single-spaced text is left as it is. */
  lemma {:induction false} CollapseSingleSpaced(s: string)
    requires SingleSpaced(s)
    ensures CollapseSpaces(s) == s
  {
    if s != [] {
      SingleSpacedTail(s);
      CollapseSingleSpaced(s[1..]);
      assert s == [s[0]] + s[1..];
    }
  }

  lemma CollapseSpacesIdempotent(s: string)
    ensures CollapseSpaces(CollapseSpaces(s)) == CollapseSpaces(s)
  {
    CollapseSpacesLaws(s);
    CollapseSingleSpaced(CollapseSpaces(s));
  }

  /** `safeKeyPart`: the text trimmed, single-spaced and cut to 200 characters;
      a missing value is the empty text. */
  function SafeKeyPart(v: Option<string>): (r: string)
    ensures |r| <= 200
    ensures r == [] || !IsSpace(r[0])
    ensures SingleSpaced(r)
    ensures var c := CollapseSpaces(Trim(v.GetOr(""))); |c| <= 200 ==> r == c
    ensures var c := CollapseSpaces(Trim(v.GetOr(""))); |c| > 200 ==> r == c[..200]
  {
    var t := Trim(v.GetOr(""));
    var c := CollapseSpaces(t);
    var n := if |c| < 200 then |c| else 200;
    CollapseSpacesSingle(t);
    SingleSpacedPrefix(c, n);
    assert c == [] || !IsSpace(c[0]);
    c[..n]
  }

  lemma SingleSpacedPrefix(c: string, n: nat)
    requires SingleSpaced(c) && n <= |c|
    ensures SingleSpaced(c[..n])
  {
    forall i | 0 <= i < n && IsSpace(c[..n][i]) ensures c[..n][i] == ' ' && (i + 1 < n ==> !IsSpace(c[..n][i + 1])) {
      assert c[..n][i] == c[i];
      if i + 1 < n { assert c[..n][i + 1] == c[i + 1]; }
    }
  }

  /** A key part that was not cut short is its own key part. */
  lemma SafeKeyPartIdempotent(s: string)
    requires |CollapseSpaces(Trim(s))| <= 200
    ensures SafeKeyPart(Some(SafeKeyPart(Some(s)))) == SafeKeyPart(Some(s))
  {
    var c := CollapseSpaces(Trim(s));
    assert SafeKeyPart(Some(s)) == c;
    TrimOfTrimmed(c);
    CollapseSpacesSingle(Trim(s));
    CollapseSingleSpaced(c);
    assert CollapseSpaces(Trim(c)) == c;
  }

  /** The words of a key part are those of the input (before the cut). */
  lemma SafeKeyPartWords(s: string)
    requires |CollapseSpaces(Trim(s))| <= 200
    ensures NonSpace(SafeKeyPart(Some(s))) == NonSpace(Trim(s))
  {
    CollapseSpacesLaws(Trim(s));
  }

  /** `makeKey`: `countday|name|abbrev|date` over the three key parts. */
  function MakeKey(circleName: Option<string>, abbrev: Option<string>, dateIso: Option<string>): (r: string)
    ensures StartsWith(r, "countday|")
    ensures |r| <= 611
  {
    var rest := SafeKeyPart(circleName) + "|" + SafeKeyPart(abbrev) + "|" + SafeKeyPart(dateIso);
    StartsWithConcat("countday|", rest);
    "countday|" + rest
  }

  predicate NoBar(s: string) {
    forall i :: 0 <= i < |s| ==> s[i] != '|'
  }

  /** The first `|` of `p + "|" + x` is the one after `p`. */
  lemma FirstBar(p: string, x: string)
    requires NoBar(p)
    ensures IndexOf(p + "|" + x, "|") == Some(|p|)
  {
    var t := p + "|" + x;
    assert OccursAt(t, "|", |p|) by { assert t[|p|..|p| + 1] == "|"; }
    forall j | 0 <= j < |p| ensures !OccursAt(t, "|", j) {
      assert t[j..j + 1] == [p[j]];
    }
  }

  lemma SplitAtBar(p: string, x: string, q: string, y: string)
    requires NoBar(p) && NoBar(q)
    requires p + "|" + x == q + "|" + y
    ensures p == q && x == y
  {
    FirstBar(p, x);
    FirstBar(q, y);
    assert p == (p + "|" + x)[..|p|];
    assert q == (q + "|" + y)[..|q|];
    assert x == (p + "|" + x)[|p| + 1..];
    assert y == (q + "|" + y)[|q| + 1..];
  }

  lemma KeyTextInjective(p1: string, a1: string, d1: string, p2: string, a2: string, d2: string)
    requires NoBar(p1) && NoBar(a1) && NoBar(p2) && NoBar(a2)
    requires "countday|" + (p1 + "|" + a1 + "|" + d1) == "countday|" + (p2 + "|" + a2 + "|" + d2)
    ensures p1 == p2 && a1 == a2 && d1 == d2
  {
    var pre := "countday|";
    var t1, t2 := p1 + "|" + a1 + "|" + d1, p2 + "|" + a2 + "|" + d2;
    assert t1 == (pre + t1)[|pre|..] && t2 == (pre + t2)[|pre|..];
    var r1, r2 := a1 + "|" + d1, a2 + "|" + d2;
    assert t1 == p1 + "|" + r1 && t2 == p2 + "|" + r2;
    SplitAtBar(p1, r1, p2, r2);
    SplitAtBar(a1, d1, a2, d2);
  }

  /** Reports whose name and abbreviation parts contain no `|` have distinct
      keys unless the three parts agree. */
  lemma MakeKeyInjective(n1: Option<string>, a1: Option<string>, d1: Option<string>,
                         n2: Option<string>, a2: Option<string>, d2: Option<string>)
    requires NoBar(SafeKeyPart(n1)) && NoBar(SafeKeyPart(a1))
    requires NoBar(SafeKeyPart(n2)) && NoBar(SafeKeyPart(a2))
    requires MakeKey(n1, a1, d1) == MakeKey(n2, a2, d2)
    ensures SafeKeyPart(n1) == SafeKeyPart(n2)
    ensures SafeKeyPart(a1) == SafeKeyPart(a2)
    ensures SafeKeyPart(d1) == SafeKeyPart(d2)
  {
    KeyTextInjective(SafeKeyPart(n1), SafeKeyPart(a1), SafeKeyPart(d1),
                     SafeKeyPart(n2), SafeKeyPart(a2), SafeKeyPart(d2));
  }

  // ---------------------------------------------------------------------
  // CSV fields (section 2 of RFC 4180)

  predicate CsvSpecial(c: char) {
    c == '"' || c == ',' || c == '\n' || c == '\r'
  }

  predicate HasCsvSpecial(s: string) {
    exists i :: 0 <= i < |s| && CsvSpecial(s[i])
  }

  /** `s.replace(/"/g, '""')`. */
  function DoubleQuotes(s: string): (r: string)
    ensures |r| >= |s|
  {
    if s == [] then [] else (if s[0] == '"' then "\"\"" else [s[0]]) + DoubleQuotes(s[1..])
  }

  /** `csvEscape`: a missing value is the empty field; every quotation mark is
      doubled, and the field is enclosed in quotation marks exactly when it
      holds a quotation mark, a comma or a line break. */
  function CsvEscape(value: Option<string>): (r: string)
    ensures value.None? ==> r == ""
    ensures var s := value.GetOr("");
            && (HasCsvSpecial(s) ==> |r| >= 2 && r[0] == '"' && r[|r| - 1] == '"')
            && (!HasCsvSpecial(s) ==> r == s)
  {
    var s := value.GetOr("");
    var escaped := DoubleQuotes(s);
    if !HasCsvSpecial(s) then NoQuoteUnchanged(s); escaped
    else "\"" + escaped + "\""
  }

  lemma {:induction false} NoQuoteUnchanged(s: string)
    requires !HasCsvSpecial(s)
    ensures DoubleQuotes(s) == s
  {
    if s != [] {
      assert !CsvSpecial(s[0]);
      assert !HasCsvSpecial(s[1..]) by {
        forall i | 0 <= i < |s| - 1 ensures !CsvSpecial(s[1..][i]) {
          assert s[1..][i] == s[i + 1];
        }
      }
      NoQuoteUnchanged(s[1..]);
    }
  }

  /** The inside of an RFC 4180 quoted field: `""` stands for one quotation
      mark, and a lone quotation mark is malformed. */
  function UnescapeQuoted(t: string): (r: Option<string>)
  {
    if t == [] then Some([])
    else if t[0] == '"' then
      if |t| >= 2 && t[1] == '"' then
        match UnescapeQuoted(t[2..]) case Some(u) => Some("\"" + u) case None => None
      else None
    else match UnescapeQuoted(t[1..]) case Some(u) => Some([t[0]] + u) case None => None
  }

  /** Reading one RFC 4180 field: an enclosed field is unescaped, a bare field
      may hold none of the special characters. */
  function CsvField(f: string): (r: Option<string>)
  {
    if |f| >= 2 && f[0] == '"' && f[|f| - 1] == '"' then UnescapeQuoted(f[1..|f| - 1])
    else if HasCsvSpecial(f) then None
    else Some(f)
  }

  lemma {:induction false} UnescapeDoubled(s: string)
    ensures UnescapeQuoted(DoubleQuotes(s)) == Some(s)
  {
    if s != [] {
      UnescapeDoubled(s[1..]);
      var d := DoubleQuotes(s);
      if s[0] == '"' {
        assert d[2..] == DoubleQuotes(s[1..]);
      } else {
        assert d[1..] == DoubleQuotes(s[1..]);
      }
      assert s == [s[0]] + s[1..];
    }
  }

  /** Reading back an escaped field gives the original text. */
  lemma CsvRoundTrip(s: string)
    ensures CsvField(CsvEscape(Some(s))) == Some(s)
  {
    var r := CsvEscape(Some(s));
    if HasCsvSpecial(s) {
      UnescapeDoubled(s);
      assert r[1..|r| - 1] == DoubleQuotes(s);
    }
  }

  // ---------------------------------------------------------------------
  // Cloud labels

  /** `CLOUD_COVER`: the form's seven cloud categories. */
  const CloudCover: set<string> :=
    {"Clear", "Cloudy", "Foggy", "Local Fog", "Partly Clear", "Partly Cloudy", "Unknown"}

  /** The case-insensitive comparisons of `normalizeCloudValue`: a lower-cased
      text and the label it gives. No text is compared twice with different
      outcomes ("partly cloudy" is compared twice, for the same label), so the
      order of the tests does not matter. */
  const Aliases: map<string, string> := map[
    "unknown" := "Unknown", "clear" := "Clear", "cavok" := "Clear", "fog" := "Foggy",
    "foggy" := "Foggy", "local fog" := "Local Fog", "bcfg" := "Local Fog",
    "mostly clear" := "Partly Clear", "partly cloudy" := "Partly Cloudy",
    "mostly cloudy" := "Cloudy", "overcast" := "Cloudy", "cloudy" := "Cloudy",
    "partly clear" := "Partly Clear"]

  function AliasLabel(u: string): (r: Option<string>)
    ensures r.Some? ==> r.value in CloudCover
  {
    if u in Aliases then Some(Aliases[u]) else None
  }

  /** Every alias starts with one of eight letters. */
  lemma AliasInitial(u: string)
    requires u in Aliases
    ensures u != [] && u[0] in "bcflmopu"
  {
  }

  /** `normalizeCloudValue` of a text: compared case-insensitively after
      trimming, legacy aliases are folded in and anything else is "Unknown". */
  function NormalizeCloudText(s0: string): (r: string)
    ensures r in CloudCover
    ensures Trim(s0) == "" ==> r == "Unknown"
  {
    var s := Trim(s0);
    if s == "" then "Unknown"
    else match AliasLabel(Lower(s))
      case Some(c) => c
      case None => if s in CloudCover then s else "Unknown"
  }

  /** `normalizeCloudValue(v)`. A value that is not a string is either falsy
      (read as the empty text) or prints as a number or `true`, which matches
      no label; both give "Unknown". */
  function NormalizeCloudValue(v: JsValue): (r: string)
    ensures r in CloudCover
    ensures !v.Str? ==> r == "Unknown"
    ensures v.Str? ==> r == NormalizeCloudText(v.s)
  {
    match v
    case Str(s) => NormalizeCloudText(s)
    case _ => "Unknown"
  }

  /** Each label, lower-cased, is matched and gives itself back. */
  lemma AliasOfLabel(c: string)
    requires c in CloudCover
    ensures AliasLabel(Lower(c)) == Some(c)
  {
    if c in {"Clear", "Cloudy", "Foggy"} { AliasOfShortLabel(c); }
    else { AliasOfLongLabel(c); }
  }

  lemma AliasOfShortLabel(c: string)
    requires c in {"Clear", "Cloudy", "Foggy"}
    ensures AliasLabel(Lower(c)) == Some(c)
  {
    if c == "Clear" { assert Lower("Clear") == "clear"; }
    else if c == "Cloudy" { assert Lower("Cloudy") == "cloudy"; }
    else { assert Lower("Foggy") == "foggy"; }
  }

  lemma AliasOfLongLabel(c: string)
    requires c in {"Local Fog", "Partly Clear", "Partly Cloudy", "Unknown"}
    ensures AliasLabel(Lower(c)) == Some(c)
  {
    if c == "Local Fog" { assert Lower("Local Fog") == "local fog"; }
    else if c == "Partly Clear" { assert Lower("Partly Clear") == "partly clear"; }
    else if c == "Partly Cloudy" { assert Lower("Partly Cloudy") == "partly cloudy"; }
    else { assert Lower("Unknown") == "unknown"; }
  }

  /** Each canonical label is kept as it is. */
  lemma NormalizeCanonical(c: string)
    requires c in CloudCover
    ensures NormalizeCloudText(c) == c
  {
    assert Trim(c) == c by {
      assert c[0] in "CFLPU" && c[|c| - 1] in "rgydn";
      TrimOfTrimmed(c);
    }
    AliasOfLabel(c);
  }

  lemma NormalizeIdempotent(v: JsValue)
    ensures NormalizeCloudValue(Str(NormalizeCloudValue(v))) == NormalizeCloudValue(v)
  {
    NormalizeCanonical(NormalizeCloudValue(v));
  }

  /** The exact-case fallback `CLOUD_COVER.includes(s)` never keeps a label,
      because every label already matched case-insensitively. */
  lemma FallbackIsUnknown(s0: string)
    requires Trim(s0) != "" && AliasLabel(Lower(Trim(s0))).None?
    ensures NormalizeCloudText(s0) == "Unknown"
  {
    if Trim(s0) in CloudCover {
      AliasOfLabel(Trim(s0));
    }
  }

  /** So the outcome depends only on the trimmed text in lower case. */
  lemma NormalizeCaseInsensitive(a: string, b: string)
    requires Lower(Trim(a)) == Lower(Trim(b))
    ensures NormalizeCloudText(a) == NormalizeCloudText(b)
  {
    assert |Trim(a)| == |Trim(b)|;
    if Trim(a) != "" && AliasLabel(Lower(Trim(a))).None? {
      FallbackIsUnknown(a);
      FallbackIsUnknown(b);
    }
  }

  /** Every alias the form accepts for older records and METAR wording
      ("cavok", "bcfg", "overcast", ...) gives its label, in any case and
      with any surrounding white space. */
  lemma NormalizeAliases(s: string, u: string)
    requires Lower(Trim(s)) == u && u in Aliases
    ensures NormalizeCloudText(s) == Aliases[u]
  {
    AliasInitial(u);
    var t := Trim(s);
    assert |t| == |u| > 0;
    assert AliasLabel(Lower(t)) == Some(Aliases[u]);
  }

  // ---------------------------------------------------------------------
  // Merging the derived patch into the form

  const AmKey := "cloudCoverAM"
  const PmKey := "cloudCoverPM"

  /** A current value the patch may replace: "", null, undefined or "Unknown". */
  predicate CanFill(cur: JsValue) {
    cur == Str("") || Nullish(cur) || cur == Str("Unknown")
  }

  /** One patch entry: a present value fills a fillable field. */
  function FillStep(next: map<string, JsValue>, e: (string, JsValue)): map<string, JsValue> {
    if Nullish(e.1) || !CanFill(Lookup(next, e.0)) then next else next[e.0 := e.1]
  }

  function FillAll(current: map<string, JsValue>, es: seq<(string, JsValue)>): map<string, JsValue> {
    if es == [] then current else FillStep(FillAll(current, es[..|es| - 1]), es[|es| - 1])
  }

  /** The object `mergePrefillIntoForm` returns: every entry filled in order,
      then both cloud fields normalised. */
  function Merge(current: map<string, JsValue>, es: seq<(string, JsValue)>): map<string, JsValue> {
    var n := FillAll(current, es);
    n[AmKey := Str(NormalizeCloudValue(Lookup(n, AmKey)))][PmKey := Str(NormalizeCloudValue(Lookup(n, PmKey)))]
  }

  /** `mergePrefillIntoForm(current, prefill)`, with the patch given as its
      entries in `Object.entries` order (a missing patch has none). */
  method MergePrefillIntoForm(current: map<string, JsValue>, prefill: seq<(string, JsValue)>)
    returns (next: map<string, JsValue>)
    ensures next == Merge(current, prefill)
  {
    next := current;
    var i := 0;
    while i < |prefill|
      invariant 0 <= i <= |prefill|
      invariant next == FillAll(current, prefill[..i])
    {
      assert prefill[..i + 1][..i] == prefill[..i];
      var (k, v) := prefill[i];
      if !Nullish(v) {
        var cur := if k in next then next[k] else Undefined;
        var canFill := cur == Str("") || cur == Null || cur == Undefined || cur == Str("Unknown");
        if canFill {
          next := next[k := v];
        }
      }
      i := i + 1;
    }
    assert prefill[..i] == prefill;
    next := next[AmKey := Str(NormalizeCloudValue(if AmKey in next then next[AmKey] else Undefined))];
    next := next[PmKey := Str(NormalizeCloudValue(if PmKey in next then next[PmKey] else Undefined))];
  }

  /** `Object.entries` never lists a key twice. */
  predicate DistinctKeys(es: seq<(string, JsValue)>) {
    forall i, j :: 0 <= i < j < |es| ==> es[i].0 != es[j].0
  }

  /** The patch's value for `k`, if it has an entry for it. */
  function EntryFor(es: seq<(string, JsValue)>, k: string): (r: Option<JsValue>)
    ensures r.None? <==> forall i :: 0 <= i < |es| ==> es[i].0 != k
    ensures r.Some? ==> exists i :: 0 <= i < |es| && es[i] == (k, r.value)
  {
    if es == [] then None
    else if es[|es| - 1].0 == k then Some(es[|es| - 1].1)
    else
      var r := EntryFor(es[..|es| - 1], k);
      assert forall i :: 0 <= i < |es| - 1 ==> es[..|es| - 1][i] == es[i];
      r
  }

  /** The value a single field ends with after the filling pass. */
  function FilledValue(cur: JsValue, e: Option<JsValue>): JsValue {
    match e
    case Some(v) => if !Nullish(v) && CanFill(cur) then v else cur
    case None => cur
  }

  /** With distinct keys the filling pass acts field by field: a field changes
      only when the patch has a present value for it and its current value is
      fillable. */
  lemma {:induction false} FillAllAt(current: map<string, JsValue>, es: seq<(string, JsValue)>, k: string)
    requires DistinctKeys(es)
    ensures Lookup(FillAll(current, es), k) == FilledValue(Lookup(current, k), EntryFor(es, k))
    ensures k in FillAll(current, es) <==> k in current || FilledValue(Lookup(current, k), EntryFor(es, k)) != Lookup(current, k)
  {
    if es != [] {
      var init := es[..|es| - 1];
      assert DistinctKeys(init) by {
        forall i, j | 0 <= i < j < |init| ensures init[i].0 != init[j].0 {
          assert init[i] == es[i] && init[j] == es[j];
        }
      }
      FillAllAt(current, init, k);
      var e := es[|es| - 1];
      if e.0 == k {
        assert EntryFor(init, k).None? by {
          forall i | 0 <= i < |init| ensures init[i].0 != k {
            assert init[i] == es[i];
          }
        }
      }
    }
  }

  /** The fields other than the two cloud fields after a merge. */
  lemma MergeAt(current: map<string, JsValue>, es: seq<(string, JsValue)>, k: string)
    requires DistinctKeys(es)
    requires k != AmKey && k != PmKey
    ensures Lookup(Merge(current, es), k) == FilledValue(Lookup(current, k), EntryFor(es, k))
    ensures k in Merge(current, es) <==> k in FillAll(current, es)
  {
    FillAllAt(current, es, k);
  }

  /** A value that is not fillable is kept, and a field the patch does not
      name keeps its value (and its absence). */
  lemma MergeKeeps(current: map<string, JsValue>, es: seq<(string, JsValue)>, k: string)
    requires DistinctKeys(es)
    requires k != AmKey && k != PmKey
    ensures !CanFill(Lookup(current, k)) ==> Lookup(Merge(current, es), k) == Lookup(current, k)
    ensures EntryFor(es, k).None? ==> (k in Merge(current, es) <==> k in current)
    ensures EntryFor(es, k).None? ==> Lookup(Merge(current, es), k) == Lookup(current, k)
  {
    MergeAt(current, es, k);
    FillAllAt(current, es, k);
  }

  /** Both cloud fields are always present and canonical. */
  lemma MergeClouds(current: map<string, JsValue>, es: seq<(string, JsValue)>)
    requires DistinctKeys(es)
    ensures AmKey in Merge(current, es) && PmKey in Merge(current, es)
    ensures Merge(current, es)[AmKey].Str? && Merge(current, es)[AmKey].s in CloudCover
    ensures Merge(current, es)[PmKey].Str? && Merge(current, es)[PmKey].s in CloudCover
    ensures Merge(current, es)[AmKey].s
            == NormalizeCloudValue(FilledValue(Lookup(current, AmKey), EntryFor(es, AmKey)))
    ensures Merge(current, es)[PmKey].s
            == NormalizeCloudValue(FilledValue(Lookup(current, PmKey), EntryFor(es, PmKey)))
  {
    FillAllAt(current, es, AmKey);
    FillAllAt(current, es, PmKey);
  }

  /** A cloud field that merging twice cannot disturb: canonical, blank or missing. */
  predicate CloudSettled(v: JsValue) {
    Nullish(v) || v == Str("") || (v.Str? && v.s in CloudCover)
  }

  /** Only "Unknown" among the labels can be filled. */
  lemma LabelNotFillable(l: string)
    requires l in CloudCover && l != "Unknown"
    ensures !CanFill(Str(l))
  {
  }

  lemma CloudTwice(cur: JsValue, e: Option<JsValue>)
    requires CloudSettled(cur)
    ensures var r1 := NormalizeCloudValue(FilledValue(cur, e));
            NormalizeCloudValue(FilledValue(Str(r1), e)) == r1
  {
    var x1 := FilledValue(cur, e);
    var r1 := NormalizeCloudValue(x1);
    NormalizeCanonical(r1);
    if e.Some? && !Nullish(e.value) && r1 == "Unknown" {
      if !CanFill(cur) {
        assert cur.Str? && cur.s in CloudCover;
        assert x1 == cur;
        NormalizeCanonical(cur.s);
        assert false;
      }
      assert x1 == e.value;
      assert FilledValue(Str(r1), e) == e.value;
    } else if e.Some? && !Nullish(e.value) {
      LabelNotFillable(r1);
      assert FilledValue(Str(r1), e) == Str(r1);
    } else {
      assert FilledValue(Str(r1), e) == Str(r1);
    }
  }

  /** Merging the same patch a second time changes nothing, provided the
      cloud fields started out canonical, blank or missing. */
  lemma MergeTwice(current: map<string, JsValue>, es: seq<(string, JsValue)>)
    requires DistinctKeys(es)
    requires CloudSettled(Lookup(current, AmKey)) && CloudSettled(Lookup(current, PmKey))
    ensures Merge(Merge(current, es), es) == Merge(current, es)
  {
    var m1 := Merge(current, es);
    var m2 := Merge(m1, es);
    forall k ensures (k in m2 <==> k in m1) && (k in m1 ==> m2[k] == m1[k]) {
      if k == AmKey || k == PmKey {
        MergeClouds(current, es);
        MergeClouds(m1, es);
        CloudTwice(Lookup(current, k), EntryFor(es, k));
      } else {
        MergeAt(current, es, k);
        MergeAt(m1, es, k);
        FillAllAt(current, es, k);
        FillAllAt(m1, es, k);
      }
    }
    assert m2 == m1;
  }

  /** Without that proviso a second merge can differ: an unrecognised cloud
      text becomes "Unknown" on the first merge and is filled on the second.
      Any trimmed text whose first letter starts no alias, such as
      "high cloud", is unrecognised. */
  lemma UnlistedInitial(s: string)
    requires s != [] && Trim(s) == s && LowerChar(s[0]) !in "bcflmopu"
    ensures NormalizeCloudText(s) == "Unknown"
  {
    var u := Lower(s);
    assert u[0] == LowerChar(s[0]);
    if u in Aliases { AliasInitial(u); }
    FallbackIsUnknown(s);
  }

  /** The morning cloud field after a patch with one entry for it. */
  lemma MergeSingleCloud(m: map<string, JsValue>, v: JsValue)
    ensures Merge(m, [(AmKey, v)])[AmKey] == Str(NormalizeCloudValue(FilledValue(Lookup(m, AmKey), Some(v))))
  {
    var es := [(AmKey, v)];
    assert DistinctKeys(es);
    assert EntryFor(es, AmKey) == Some(v);
    MergeClouds(m, es);
  }

  /** A single-entry patch fills a cloud field that reads "Unknown". */
  lemma MergeFillsUnknownCloud(m: map<string, JsValue>, c: string)
    requires Lookup(m, AmKey) == Str("Unknown") && c in CloudCover
    ensures Merge(m, [(AmKey, Str(c))])[AmKey] == Str(c)
  {
    var f := FilledValue(Lookup(m, AmKey), Some(Str(c)));
    assert f == Str(c);
    assert NormalizeCloudValue(f) == c by { NormalizeCanonical(c); }
    MergeSingleCloud(m, Str(c));
  }

  /** A single-entry patch leaves an unrecognised cloud text, which then reads "Unknown". */
  lemma MergeKeepsUnrecognisedCloud(m: map<string, JsValue>, x: string, c: string)
    requires Lookup(m, AmKey) == Str(x)
    requires x != "" && x != "Unknown" && NormalizeCloudText(x) == "Unknown"
    ensures Merge(m, [(AmKey, Str(c))])[AmKey] == Str("Unknown")
  {
    var f := FilledValue(Lookup(m, AmKey), Some(Str(c)));
    assert !CanFill(Str(x));
    assert f == Str(x);
    assert NormalizeCloudValue(f) == "Unknown";
    MergeSingleCloud(m, Str(c));
  }

  lemma MergeTwiceCounterexample(x: string, c: string)
    requires x != "" && x != "Unknown" && NormalizeCloudText(x) == "Unknown"
    requires c in CloudCover && c != "Unknown"
    ensures var current := map[AmKey := Str(x)];
            var es := [(AmKey, Str(c))];
            Merge(current, es)[AmKey] == Str("Unknown") && Merge(Merge(current, es), es)[AmKey] == Str(c)
  {
    var current := map[AmKey := Str(x)];
    var m1 := Merge(current, [(AmKey, Str(c))]);
    assert Lookup(current, AmKey) == Str(x);
    MergeKeepsUnrecognisedCloud(current, x, c);
    assert Lookup(m1, AmKey) == Str("Unknown");
    MergeFillsUnknownCloud(m1, c);
  }
}
