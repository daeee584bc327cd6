/** The helpers of the application shell: the weather-code words of the
    forecast panel, the circle search, saving a place, narrowing the hourly
    forecast to the chosen number of days, and the count date of the
    selected circle. */
module App {
  import opened Wrappers
  import opened Js
  import opened Text
  import opened Sorting
  import opened WeatherCodes
  import MapPane

  // ---------------------------------------------------------------------
  // Weather-code words

  /** The words of each branch of `weathercodeToText`. */
  function AppText(s: Sky): (r: string)
    ensures r != "" && r != "weather"
  {
    match s
    case ClearSky => "clear sky"
    case MainlyClear => "mainly clear"
    case PartlyCloudy => "partly cloudy"
    case BrokenClouds => "broken clouds"
    case Fog => "fog"
    case Drizzle => "drizzle"
    case FreezingDrizzle => "freezing drizzle"
    case LightPrecip => "light precip"
    case ModeratePrecip => "moderate precip"
    case HeavyPrecip => "heavy precip"
    case FreezingPrecip => "freezing precip"
    case Snow => "snow"
    case SnowGrains => "snow grains"
    case Showers => "showers"
    case SnowShowers => "snow showers"
    case Thunderstorm => "thunderstorm"
  }

  /** `weathercodeToText(code)`: "" unless `Number(code)` is finite, the
      words of the code's group, or "weather" for a code in no group. */
  function WeathercodeToText(code: JsValue): (r: string)
    ensures r == "" <==> !ToNumber(code).Finite?
    ensures ToNumber(code).Finite? ==> (r == "weather" <==> Classify(ToNumber(code).r).None?)
    ensures ToNumber(code).Finite? && Classify(ToNumber(code).r).Some?
            ==> r == AppText(Classify(ToNumber(code).r).value)
  {
    match ToNumber(code)
    case Finite(c) =>
      (match Classify(c)
       case Some(s) => AppText(s)
       case None => "weather")
    case _ => ""
  }

  /** Different groups have different words, so the text names the group. */
  lemma AppTextNamesGroup(s: Sky, t: Sky)
    requires AppText(s) == AppText(t)
    ensures s == t
  {
    assert AppText(s)[0] == AppText(t)[0] && |AppText(s)| == |AppText(t)|;
  }

  /** A code of a group is given that group's words. */
  lemma CodeText(c: real, s: Sky)
    requires InGroup(c, s)
    ensures WeathercodeToText(Num(Finite(c))) == AppText(s)
  {
    ClassifyComplete(c, s);
  }

  // ---------------------------------------------------------------------
  // Search normalisation

  predicate AlnumText(t: string) {
    forall i :: 0 <= i < |t| ==> IsAsciiAlnumLower(t[i])
  }

  /** `t.replace(/[^a-z0-9]+/g, '')` */
  function AlnumOnly(t: string): (r: string)
    ensures AlnumText(r) && |r| <= |t|
  {
    if t == [] then []
    else (if IsAsciiAlnumLower(t[0]) then [t[0]] else []) + AlnumOnly(t[1..])
  }

  lemma {:induction false} AlnumOnlyMembers(t: string, c: char)
    ensures c in AlnumOnly(t) <==> c in t && IsAsciiAlnumLower(c)
  {
    if t != [] {
      AlnumOnlyMembers(t[1..], c);
      assert t == [t[0]] + t[1..];
    }
  }

  lemma {:induction false} AlnumOnlyOfAlnum(t: string)
    requires AlnumText(t)
    ensures AlnumOnly(t) == t
  {
    if t != [] {
      AlnumOnlyOfAlnum(t[1..]);
      assert t == [t[0]] + t[1..];
    }
  }

  lemma LowerOfAlnum(t: string)
    requires AlnumText(t)
    ensures Lower(t) == t
  {
    assert forall i :: 0 <= i < |t| ==> Lower(t)[i] == t[i];
  }

  /** `normalizeForSearch(s)`: lower case, then only the letters a-z and the digits. */
  function NormalizeForSearch(s: string): (r: string)
    ensures AlnumText(r)
  {
    AlnumOnly(Lower(s))
  }

  /** Exactly the letters and digits of the lowered text survive. */
  lemma NormalizeMembers(s: string, c: char)
    ensures c in NormalizeForSearch(s) <==> c in Lower(s) && IsAsciiAlnumLower(c)
  {
    AlnumOnlyMembers(Lower(s), c);
  }

  lemma NormalizeIdempotent(s: string)
    ensures NormalizeForSearch(NormalizeForSearch(s)) == NormalizeForSearch(s)
  {
    var r := NormalizeForSearch(s);
    LowerOfAlnum(r);
    AlnumOnlyOfAlnum(r);
  }

  // ---------------------------------------------------------------------
  // Words of a lowered text

  /** `t.split(/[^a-z0-9]+/g).filter(Boolean)`, with `cur` the letters of a
      word begun before `t`. */
  function WordsFrom(t: string, cur: string): (ws: seq<string>)
    requires AlnumText(cur)
    ensures forall i :: 0 <= i < |ws| ==> ws[i] != [] && AlnumText(ws[i])
    decreases |t|
  {
    if t == [] then (if cur == [] then [] else [cur])
    else if IsAsciiAlnumLower(t[0]) then WordsFrom(t[1..], cur + [t[0]])
    else (if cur == [] then [] else [cur]) + WordsFrom(t[1..], [])
  }

  function Words(t: string): seq<string> {
    WordsFrom(t, [])
  }

  lemma JoinCons(x: string, rest: seq<string>, sep: string)
    requires rest != []
    ensures Join([x] + rest, sep) == x + sep + Join(rest, sep)
  {
    assert ([x] + rest)[1..] == rest;
  }

  /** The words, put back together, are the letters and digits of the text. */
  lemma {:induction false} WordsJoin(t: string, cur: string)
    requires AlnumText(cur)
    ensures Join(WordsFrom(t, cur), "") == cur + AlnumOnly(t)
    decreases |t|
  {
    if t == [] {
      assert cur + [] == cur;
    } else if IsAsciiAlnumLower(t[0]) {
      WordsJoin(t[1..], cur + [t[0]]);
      assert cur + [t[0]] + AlnumOnly(t[1..]) == cur + ([t[0]] + AlnumOnly(t[1..]));
    } else {
      var rest := WordsFrom(t[1..], []);
      WordsJoin(t[1..], []);
      assert [] + AlnumOnly(t[1..]) == AlnumOnly(t[1..]);
      if cur == [] {
        assert [] + rest == rest;
      } else if rest == [] {
        assert [cur] + rest == [cur];
      } else {
        JoinCons(cur, rest, "");
        assert cur + "" + Join(rest, "") == cur + AlnumOnly(t[1..]);
      }
    }
  }

  /** Every part occurs in the joined text. */
  lemma {:induction false} JoinHasPart(parts: seq<string>, i: nat, sep: string)
    requires i < |parts|
    ensures Contains(Join(parts, sep), parts[i])
  {
    var j := Join(parts, sep);
    if |parts| == 1 {
      assert j[0..|parts[0]|] == parts[0];
      ContainsAt(j, parts[0], 0);
    } else {
      var rest := parts[1..];
      assert parts == [parts[0]] + rest;
      JoinCons(parts[0], rest, sep);
      if i == 0 {
        assert j[0..|parts[0]|] == parts[0];
        ContainsAt(j, parts[0], 0);
      } else {
        JoinHasPart(rest, i - 1, sep);
        ContainsWithin(j, Join(rest, sep), parts[i]);
        assert (parts[0] + sep) + Join(rest, sep) + "" == j;
      }
    }
  }

  lemma PrefixOccurs(s: string, w: string, p: string, k: nat)
    requires OccursAt(s, w, k) && StartsWith(w, p)
    ensures OccursAt(s, p, k)
  {
    assert s[k..k + |p|] == s[k..k + |w|][..|p|];
  }

  // ---------------------------------------------------------------------
  // Scoring one text against the needle

  datatype Kind = NameKind | AbbrevKind

  /** `kind === 'abbrev' ? 2000 : 0` */
  function Penalty(kind: Kind): int {
    if kind == AbbrevKind then 2000 else 0
  }

  /** The smallest index of a word that starts with `p`. */
  function FirstPrefixWord(ws: seq<string>, p: string): (r: Option<nat>)
    ensures r.Some? ==> r.value < |ws| && StartsWith(ws[r.value], p)
                        && forall j :: 0 <= j < r.value ==> !StartsWith(ws[j], p)
    ensures r.None? ==> forall j :: 0 <= j < |ws| ==> !StartsWith(ws[j], p)
  {
    if ws == [] then None
    else if StartsWith(ws[0], p) then Some(0)
    else match FirstPrefixWord(ws[1..], p)
      case Some(k) => Some(k + 1)
      case None => None
  }

  /** The needle as `searchCbcCircles` prepares it from the query: trimmed
      and lowered, normalised, and split into words. */
  datatype Query = Query(needle: string, norm: string, words: seq<string>)

  function Prepare(q: string): Query {
    var needle := Lower(Trim(q));
    Query(needle, NormalizeForSearch(Trim(q)), Words(needle))
  }

  /** `scoreMatch(hayRaw, kind)` */
  function ScoreMatch(hayRaw: string, p: Query, kind: Kind): (r: Option<int>)
    ensures r.Some? ==> NormalizeForSearch(hayRaw) != ""
  {
    var hayNorm := NormalizeForSearch(hayRaw);
    if hayNorm == "" then None
    else
      var hayWords := Words(Lower(hayRaw));
      var pen := Penalty(kind);
      if StartsWith(hayNorm, p.norm) then Some(pen)
      else match IndexOf(hayNorm, p.norm)
        case Some(idx) => Some(pen + 50 + idx)
        case None =>
          if p.words != [] && hayWords != [] then
            match FirstPrefixWord(hayWords, p.needle)
            case Some(i) => Some(pen + 120 + i)
            case None => None
          else None
  }


  /** A word that starts with the lowered needle makes the needle all letters
      and digits, so it is its own normal form and occurs in the normalised text. */
  lemma WordPrefixOccurs(hayRaw: string, q: string, i: nat)
    requires i < |Words(Lower(hayRaw))| && StartsWith(Words(Lower(hayRaw))[i], Prepare(q).needle)
    ensures Contains(NormalizeForSearch(hayRaw), Prepare(q).norm)
  {
    var ws := Words(Lower(hayRaw));
    var w := ws[i];
    var needle := Prepare(q).needle;
    assert AlnumText(needle) by {
      assert needle == w[..|needle|];
    }
    AlnumOnlyOfAlnum(needle);
    assert Prepare(q).norm == needle;
    WordsJoin(Lower(hayRaw), []);
    assert Join(ws, "") == NormalizeForSearch(hayRaw);
    JoinHasPart(ws, i, "");
    var k := IndexOf(Join(ws, ""), w).value;
    PrefixOccurs(Join(ws, ""), w, needle, k);
    ContainsAt(NormalizeForSearch(hayRaw), needle, k);
  }

  /** A text scores exactly when its normal form contains the normalised
      needle: the word-prefix rule never adds a match, since such a word
      already contains the needle. The score is the penalty plus 0 for a
      prefix and 50 plus the position otherwise. */
  lemma ScoreMatchMeaning(hayRaw: string, q: string, kind: Kind)
    requires Prepare(q).norm != ""
    ensures var r := ScoreMatch(hayRaw, Prepare(q), kind);
            && (r.Some? <==> Contains(NormalizeForSearch(hayRaw), Prepare(q).norm))
            && (r.Some? && StartsWith(NormalizeForSearch(hayRaw), Prepare(q).norm) ==> r.value == Penalty(kind))
            && (r.Some? && !StartsWith(NormalizeForSearch(hayRaw), Prepare(q).norm)
                ==> r.value == Penalty(kind) + 50 + IndexOf(NormalizeForSearch(hayRaw), Prepare(q).norm).value)
  {
    var hn := NormalizeForSearch(hayRaw);
    var nn := Prepare(q).norm;
    if hn != "" && StartsWith(hn, nn) {
      assert hn[0..|nn|] == nn;
      ContainsAt(hn, nn, 0);
    }
    if hn != "" && !StartsWith(hn, nn) && IndexOf(hn, nn).None? {
      var ws := Words(Lower(hayRaw));
      match FirstPrefixWord(ws, Prepare(q).needle)
      case Some(i) => WordPrefixOccurs(hayRaw, q, i);
      case None =>
    }
  }

  // ---------------------------------------------------------------------
  // Circle search

  /** An entry of the circle index, as the search reads it. */
  datatype CbcItem = CbcItem(id: string, name: string, abbrev: string)

  /** A search result: the item tagged with `source: 'cbc'`. */
  datatype Hit = Hit(item: CbcItem, source: string)

  datatype Scored = Scored(score: real, item: CbcItem)

  /** `[a, b].filter(Number.isFinite).sort((x, y) => x - y)[0]` */
  function Best(a: Option<int>, b: Option<int>): (r: Option<int>)
    ensures r.None? <==> a.None? && b.None?
    ensures r.Some? ==> (r == a || r == b)
    ensures r.Some? ==> (a.Some? ==> r.value <= a.value) && (b.Some? ==> r.value <= b.value)
  {
    match (a, b)
    case (Some(x), Some(y)) => Some(if x <= y then x else y)
    case (Some(x), None) => Some(x)
    case (None, _) => b
  }

  function Min(x: real, y: real): real {
    if x <= y then x else y
  }

  /** The score of an item, if its name or code matches: the better of the
      two, plus a tenth of the name's length up to 25. */
  function ItemScore(item: CbcItem, p: Query): Option<real> {
    match Best(ScoreMatch(item.name, p, NameKind), ScoreMatch(item.abbrev, p, AbbrevKind))
    case Some(b) => Some(b as real + Min(25.0, |item.name| as real / 10.0))
    case None => None
  }

  function ScoredOf(item: CbcItem, p: Query): Option<Scored> {
    match ItemScore(item, p)
    case Some(score) => Some(Scored(score, item))
    case None => None
  }

  /** The items that score, with their scores, in index order. */
  function ScoredItems(items: seq<CbcItem>, p: Query): seq<Scored> {
    Somes(seq(|items|, i requires 0 <= i < |items| => ScoredOf(items[i], p)))
  }

  lemma ScoredSnoc(items: seq<CbcItem>, p: Query, n: nat)
    requires n < |items|
    ensures ScoredItems(items[..n + 1], p)
            == ScoredItems(items[..n], p) + (if ScoredOf(items[n], p).Some? then [ScoredOf(items[n], p).value] else [])
  {
    var os := seq(n, i requires 0 <= i < n => ScoredOf(items[..n][i], p));
    assert seq(n + 1, i requires 0 <= i < n + 1 => ScoredOf(items[..n + 1][i], p)) == os + [ScoredOf(items[n], p)];
    SomesSnoc(os, ScoredOf(items[n], p));
  }

  /** A scored entry comes from the index. */
  lemma ScoredMembers(items: seq<CbcItem>, p: Query, x: Scored)
    ensures x in ScoredItems(items, p) <==> x.item in items && ItemScore(x.item, p) == Some(x.score)
  {
    var os := seq(|items|, i requires 0 <= i < |items| => ScoredOf(items[i], p));
    SomesMembers(os, x);
    if x.item in items && ItemScore(x.item, p) == Some(x.score) {
      var i :| 0 <= i < |items| && items[i] == x.item;
      assert os[i] == Some(x);
    }
  }

  /** `(a, b) => a.score - b.score` */
  predicate ByScore(a: Scored, b: Scored) {
    a.score <= b.score
  }

  lemma ByScorePreorder()
    ensures TotalPreorder(ByScore)
  {
  }

  /** The query is searched only when its trimmed, lowered form and its
      normal form both have two characters or more and there is an index. */
  predicate Searchable(q: string, index: Option<seq<CbcItem>>) {
    Prepare(q).needle != "" && |Prepare(q).needle| >= 2 && index.Some? && |Prepare(q).norm| >= 2
  }

  /** `slice(0, 10)` of the sorted items, each tagged 'cbc'. */
  function Top(sorted: seq<Scored>): (r: seq<Hit>)
    ensures |r| == if |sorted| <= 10 then |sorted| else 10
    ensures forall k :: 0 <= k < |r| ==> r[k] == Hit(sorted[k].item, "cbc")
  {
    var n := if |sorted| <= 10 then |sorted| else 10;
    seq(n, k requires 0 <= k < n => Hit(sorted[k].item, "cbc"))
  }

  function SearchResults(q: string, index: Option<seq<CbcItem>>): seq<Hit> {
    if !Searchable(q, index) then []
    else Top(SortBy(ScoredItems(index.value, Prepare(q)), ByScore))
  }

  /** One turn of the scoring loop: `None` where the loop continues
      without pushing. */
  method ScoreItem(item: CbcItem, p: Query) returns (s: Option<Scored>)
    ensures s == ScoredOf(item, p)
  {
    var nameScore := ScoreMatch(item.name, p, NameKind);
    var abbrevScore := ScoreMatch(item.abbrev, p, AbbrevKind);
    var best := Best(nameScore, abbrevScore);
    s := None;
    if best.Some? {
      var score := best.value as real + Min(25.0, |item.name| as real / 10.0);
      s := Some(Scored(score, item));
    }
  }

  /** The scoring loop of `searchCbcCircles`. */
  method ScoreAll(items: seq<CbcItem>, p: Query) returns (scored: seq<Scored>)
    ensures scored == ScoredItems(items, p)
  {
    scored := [];
    for i := 0 to |items|
      invariant scored == ScoredItems(items[..i], p)
    {
      ScoredSnoc(items, p, i);
      var s := ScoreItem(items[i], p);
      if s.Some? {
        scored := scored + [s.value];
      }
    }
    assert items[..|items|] == items;
  }

  /** `searchCbcCircles(q, index)`: no results for a short needle or without
      an index; otherwise the scored items, sorted, at most ten. */
  method SearchCbcCircles(q: string, index: Option<seq<CbcItem>>) returns (hits: seq<Hit>)
    ensures hits == SearchResults(q, index)
  {
    hits := [];
    var rawNeedle := Trim(q);
    var needle := Lower(rawNeedle);
    if needle != "" && |needle| >= 2 && index.Some? {
      var needleNorm := NormalizeForSearch(rawNeedle);
      if needleNorm != "" && |needleNorm| >= 2 {
        var needleWords := Words(needle);
        var scored := ScoreAll(index.value, Query(needle, needleNorm, needleWords));
        scored := SortBy(scored, ByScore);
        hits := Top(scored);
      }
    }
  }

  /** At most ten results, each tagged 'cbc', each an item of the index
      whose name or code contains the normalised needle. */
  lemma SearchHits(q: string, index: Option<seq<CbcItem>>, k: nat)
    requires k < |SearchResults(q, index)|
    ensures |SearchResults(q, index)| <= 10
    ensures Searchable(q, index)
    ensures var h := SearchResults(q, index)[k];
            && h.source == "cbc" && h.item in index.value
            && (Contains(NormalizeForSearch(h.item.name), Prepare(q).norm)
                || Contains(NormalizeForSearch(h.item.abbrev), Prepare(q).norm))
  {
    var sorted := SortBy(ScoredItems(index.value, Prepare(q)), ByScore);
    var x := sorted[k];
    assert x in multiset(ScoredItems(index.value, Prepare(q)));
    ScoredMembers(index.value, Prepare(q), x);
    ScoreMatchMeaning(x.item.name, q, NameKind);
    ScoreMatchMeaning(x.item.abbrev, q, AbbrevKind);
  }

  /** Results come in ascending order of score. */
  lemma SearchSorted(q: string, index: Option<seq<CbcItem>>, i: nat, j: nat)
    requires i < j < |SearchResults(q, index)|
    ensures ItemScore(SearchResults(q, index)[i].item, Prepare(q)).Some?
    ensures ItemScore(SearchResults(q, index)[j].item, Prepare(q)).Some?
    ensures ItemScore(SearchResults(q, index)[i].item, Prepare(q)).value
            <= ItemScore(SearchResults(q, index)[j].item, Prepare(q)).value
  {
    var sorted := SortBy(ScoredItems(index.value, Prepare(q)), ByScore);
    ByScorePreorder();
    SortBySorted(ScoredItems(index.value, Prepare(q)), ByScore);
    assert sorted[i] in multiset(ScoredItems(index.value, Prepare(q)));
    assert sorted[j] in multiset(ScoredItems(index.value, Prepare(q)));
    ScoredMembers(index.value, Prepare(q), sorted[i]);
    ScoredMembers(index.value, Prepare(q), sorted[j]);
  }

  /** A scoring item left out of the results is beaten by ten results that
      score no worse. */
  lemma SearchKeepsBest(q: string, index: Option<seq<CbcItem>>, x: CbcItem)
    requires Searchable(q, index) && x in index.value && ItemScore(x, Prepare(q)).Some?
    requires Hit(x, "cbc") !in SearchResults(q, index)
    ensures |SearchResults(q, index)| == 10
    ensures forall k :: 0 <= k < 10 ==>
              ItemScore(SearchResults(q, index)[k].item, Prepare(q)).Some?
              && ItemScore(SearchResults(q, index)[k].item, Prepare(q)).value <= ItemScore(x, Prepare(q)).value
  {
    var all := ScoredItems(index.value, Prepare(q));
    var sorted := SortBy(all, ByScore);
    var sx := Scored(ItemScore(x, Prepare(q)).value, x);
    ScoredMembers(index.value, Prepare(q), sx);
    assert sx in multiset(sorted);
    var p :| 0 <= p < |sorted| && sorted[p] == sx;
    var r := SearchResults(q, index);
    assert p >= 10;
    ByScorePreorder();
    SortBySorted(all, ByScore);
    forall k | 0 <= k < 10
      ensures ItemScore(r[k].item, Prepare(q)).Some? && ItemScore(r[k].item, Prepare(q)).value <= ItemScore(x, Prepare(q)).value
    {
      assert sorted[k] in multiset(all);
      ScoredMembers(index.value, Prepare(q), sorted[k]);
      assert ByScore(sorted[k], sorted[p]);
    }
  }
  // ---------------------------------------------------------------------
  // Saving the selected place

  /** A saved place, and the coordinates of the selected location. */
  datatype Place = Place(name: string, lat: real, lon: real)
  datatype Spot = Spot(lat: real, lon: real)

  /** The new saved list, or the error message shown instead (the list is
      then left as it was). */
  datatype SaveOutcome = Saved(places: seq<Place>) | Refused(message: string)

  function Abs(x: real): (r: real)
    ensures r >= 0.0 && (r == x || r == -x)
  {
    if x < 0.0 then -x else x
  }

  /** Some saved place has name `n`, compared after lowering both. */
  predicate NameTaken(saved: seq<Place>, n: string) {
    exists k :: 0 <= k < |saved| && Lower(saved[k].name) == Lower(n)
  }

  /** `saved.find(x => x.name.toLowerCase() === n.toLowerCase())`, as the
      position of the first match. */
  function FindByName(saved: seq<Place>, n: string, from: nat): (r: Option<nat>)
    requires from <= |saved|
    ensures r.Some? ==> from <= r.value < |saved| && Lower(saved[r.value].name) == Lower(n)
    ensures r.Some? ==> forall k :: from <= k < r.value ==> Lower(saved[k].name) != Lower(n)
    ensures r.None? ==> forall k :: from <= k < |saved| ==> Lower(saved[k].name) != Lower(n)
    decreases |saved| - from
  {
    if from == |saved| then None
    else if Lower(saved[from].name) == Lower(n) then Some(from)
    else FindByName(saved, n, from + 1)
  }

  /** The same place: both coordinates within 1e-6. */
  predicate SameSpot(p: Place, s: Spot) {
    Abs(p.lat - s.lat) < 0.000001 && Abs(p.lon - s.lon) < 0.000001
  }

  /** The sort order of the saved list; `before(a, b)` stands for
      `a.localeCompare(b) <= 0`. */
  function ByName(before: (string, string) -> bool): (Place, Place) -> bool {
    (a: Place, b: Place) => before(a.name, b.name)
  }

  /** `onSaveSelected(name)` over the saved list and the selection. */
  function SaveSelected(saved: seq<Place>, selected: Option<Spot>, name: string,
                        before: (string, string) -> bool): SaveOutcome
  {
    var n := Trim(name);
    if selected.None? then Refused("Select a location first.")
    else if n == "" then Refused("Enter a name to save.")
    else match FindByName(saved, n, 0)
      case Some(k) =>
        if !SameSpot(saved[k], selected.value) then
          Refused("Name conflict: \"" + n + "\" already exists with different coordinates.")
        else Refused("\"" + n + "\" already saved.")
      case None =>
        Saved(SortBy(saved + [Place(n, selected.value.lat, selected.value.lon)], ByName(before)))
  }

  /** Saving is refused exactly when nothing is selected, the trimmed name is
      blank or the name is taken; a taken name reports a conflict exactly
      when its first holder lies elsewhere. */
  lemma SaveRefusals(saved: seq<Place>, selected: Option<Spot>, name: string,
                     before: (string, string) -> bool)
    ensures SaveSelected(saved, selected, name, before).Refused?
            <==> selected.None? || Trim(name) == "" || NameTaken(saved, Trim(name))
    ensures selected.Some? && Trim(name) != "" && NameTaken(saved, Trim(name)) ==>
              exists k :: 0 <= k < |saved| && Lower(saved[k].name) == Lower(Trim(name))
                && (forall j :: 0 <= j < k ==> Lower(saved[j].name) != Lower(Trim(name)))
                && SaveSelected(saved, selected, name, before).message
                   == (if SameSpot(saved[k], selected.value)
                       then "\"" + Trim(name) + "\" already saved."
                       else "Name conflict: \"" + Trim(name) + "\" already exists with different coordinates.")
  {
    var n := Trim(name);
    if selected.Some? && n != "" && NameTaken(saved, n) {
      var k := FindByName(saved, n, 0).value;
      assert 0 <= k < |saved| && Lower(saved[k].name) == Lower(n);
    }
  }

  /** Names that differ between any two saved places, whatever the case. */
  predicate NamesDistinct(places: seq<Place>) {
    Pairwise(places, (a: Place, b: Place) => Lower(a.name) != Lower(b.name))
  }

  lemma ByNamePreorder(before: (string, string) -> bool)
    requires TotalPreorder(before)
    ensures TotalPreorder(ByName(before))
  {
    var le := ByName(before);
    forall a: Place, b: Place ensures le(a, b) || le(b, a) {
      assert before(a.name, b.name) || before(b.name, a.name);
    }
    forall a: Place, b: Place, c: Place | le(a, b) && le(b, c) ensures le(a, c) {
      assert before(a.name, b.name) && before(b.name, c.name);
    }
  }

  /** A save adds exactly the new place, under the trimmed name and the
      selected coordinates, and keeps the list in name order. */
  lemma SaveAdds(saved: seq<Place>, selected: Option<Spot>, name: string,
                 before: (string, string) -> bool)
    requires SaveSelected(saved, selected, name, before).Saved?
    ensures selected.Some?
    ensures var r := SaveSelected(saved, selected, name, before).places;
            && multiset(r) == multiset(saved) + multiset{Place(Trim(name), selected.value.lat, selected.value.lon)}
            && |r| == |saved| + 1
            && (TotalPreorder(before) ==> SortedBy(r, ByName(before)))
  {
    var x := Place(Trim(name), selected.value.lat, selected.value.lon);
    var all := saved + [x];
    assert multiset(all) == multiset(saved) + multiset{x};
    if TotalPreorder(before) {
      ByNamePreorder(before);
      SortBySorted(all, ByName(before));
    }
  }

  /** Appending a place whose name is not taken keeps names distinct. */
  lemma AppendDistinct(saved: seq<Place>, x: Place)
    requires NamesDistinct(saved) && !NameTaken(saved, x.name)
    ensures NamesDistinct(saved + [x])
  {
    var all := saved + [x];
    forall i, j | 0 <= i < |all| && 0 <= j < |all| && i != j
      ensures Lower(all[i].name) != Lower(all[j].name)
    {
      if i < |saved| && j < |saved| {
        assert all[i] == saved[i] && all[j] == saved[j];
      } else if i < |saved| {
        assert all[i] == saved[i] && all[j] == x;
      } else {
        assert all[j] == saved[j] && all[i] == x;
      }
    }
  }

  /** Saving never gives two places the same name, whatever the case. */
  lemma SaveKeepsNamesDistinct(saved: seq<Place>, selected: Option<Spot>, name: string,
                               before: (string, string) -> bool)
    requires NamesDistinct(saved)
    requires SaveSelected(saved, selected, name, before).Saved?
    ensures NamesDistinct(SaveSelected(saved, selected, name, before).places)
  {
    var x := Place(Trim(name), selected.value.lat, selected.value.lon);
    assert FindByName(saved, Trim(name), 0).None?;
    AppendDistinct(saved, x);
    SortByPairwise(saved + [x], ByName(before), (a: Place, b: Place) => Lower(a.name) != Lower(b.name));
  }

  // ---------------------------------------------------------------------
  // Narrowing the hourly forecast

  /** An hourly series: an array, or `None` for anything that is not one
      (passed through untouched). */
  type Series = Option<seq<JsValue>>

  /** The hourly block: the times and the six series the plot narrows;
      `others` are the remaining hourly members, copied as they are. */
  datatype Hourly = Hourly(time: Option<seq<string>>, temperature: Series, rain: Series,
                           windSpeed: Series, windDirection: Series,
                           precipitationProbability: Series, cloudCover: Series,
                           others: map<string, JsValue>)

  datatype Forecast = Forecast(hourly: Option<Hourly>, others: map<string, JsValue>)

  /** The hour parses (`new Date(t)` is valid) and lies before `end`. */
  predicate Before(t: string, parse: string -> Option<int>, end: int) {
    parse(t).Some? && parse(t).value < end
  }

  /** `keepIdx`: the positions of the hours before `end`, in order. */
  function KeptIndices(time: seq<string>, parse: string -> Option<int>, end: int): (r: seq<nat>)
    ensures forall a, b :: 0 <= a < b < |r| ==> r[a] < r[b]
    ensures forall k :: 0 <= k < |r| ==> r[k] < |time| && Before(time[r[k]], parse, end)
    ensures forall i :: 0 <= i < |time| && Before(time[i], parse, end) ==> i in r
    decreases |time|
  {
    if time == [] then []
    else
      var prev := KeptIndices(time[..|time| - 1], parse, end);
      assert forall i :: 0 <= i < |time| - 1 ==> time[..|time| - 1][i] == time[i];
      if Before(time[|time| - 1], parse, end) then prev + [|time| - 1] else prev
  }

  /** The `keepIdx` loop. */
  method KeepIndices(time: seq<string>, parse: string -> Option<int>, end: int) returns (keep: seq<nat>)
    ensures keep == KeptIndices(time, parse, end)
  {
    keep := [];
    for i := 0 to |time|
      invariant keep == KeptIndices(time[..i], parse, end)
    {
      assert time[..i + 1][..i] == time[..i];
      if Before(time[i], parse, end) {
        keep := keep + [i];
      }
    }
    assert time[..|time|] == time;
  }

  /** `sliceByIdx`: the entries at the kept positions, `undefined` past the
      end of a shorter array. */
  function Slice(arr: Series, keep: seq<nat>): Series {
    match arr
    case None => None
    case Some(a) => Some(seq(|keep|, k requires 0 <= k < |keep| =>
                         if keep[k] < |a| then a[keep[k]] else Undefined))
  }

  function Narrow(h: Hourly, time: seq<string>, keep: seq<nat>): Hourly
    requires forall k :: 0 <= k < |keep| ==> keep[k] < |time|
  {
    h.(time := Some(seq(|keep|, k requires 0 <= k < |keep| => time[keep[k]])),
       temperature := Slice(h.temperature, keep),
       rain := Slice(h.rain, keep),
       windSpeed := Slice(h.windSpeed, keep),
       windDirection := Slice(h.windDirection, keep),
       precipitationProbability := Slice(h.precipitationProbability, keep),
       cloudCover := Slice(h.cloudCover, keep))
  }

  /** The forecast is narrowed only when it has hourly times, fewer or more
      than the 8 days fetched are asked for and the first hour parses. */
  predicate Narrowable(f: Option<Forecast>, days: int, parse: string -> Option<int>) {
    && f.Some? && f.value.hourly.Some? && f.value.hourly.value.time.Some?
    && days != 8
    && f.value.hourly.value.time.value != []
    && parse(f.value.hourly.value.time.value[0]).Some?
  }

  /** The end of the window: `days` whole days after the first hour. */
  function Cutoff(f: Option<Forecast>, days: int, parse: string -> Option<int>): int
    requires Narrowable(f, days, parse)
  {
    parse(f.value.hourly.value.time.value[0]).value + days * 86400000
  }

  /** `plotForecast`: the forecast itself unless it can be narrowed. */
  function Narrowed(f: Option<Forecast>, days: int, parse: string -> Option<int>): (r: Option<Forecast>)
    ensures !Narrowable(f, days, parse) ==> r == f
    ensures r.Some? <==> f.Some?
  {
    if !Narrowable(f, days, parse) then f
    else
      var h := f.value.hourly.value;
      var time := h.time.value;
      var keep := KeptIndices(time, parse, Cutoff(f, days, parse));
      Some(f.value.(hourly := Some(Narrow(h, time, keep))))
  }

  /** `plotForecast`, with its index loop. */
  method PlotForecast(f: Option<Forecast>, days: int, parse: string -> Option<int>) returns (r: Option<Forecast>)
    ensures r == Narrowed(f, days, parse)
  {
    r := f;
    if Narrowable(f, days, parse) {
      var h := f.value.hourly.value;
      var time := h.time.value;
      var end := parse(time[0]).value + days * 86400000;
      var keep := KeepIndices(time, parse, end);
      r := Some(f.value.(hourly := Some(Narrow(h, time, keep))));
    }
  }

  /** Every series has one entry per hour. */
  predicate Aligned(h: Hourly) {
    && h.time.Some?
    && (h.temperature.Some? ==> |h.temperature.value| == |h.time.value|)
    && (h.rain.Some? ==> |h.rain.value| == |h.time.value|)
    && (h.windSpeed.Some? ==> |h.windSpeed.value| == |h.time.value|)
    && (h.windDirection.Some? ==> |h.windDirection.value| == |h.time.value|)
    && (h.precipitationProbability.Some? ==> |h.precipitationProbability.value| == |h.time.value|)
    && (h.cloudCover.Some? ==> |h.cloudCover.value| == |h.time.value|)
  }

  /** Entry `k` of series `b` is entry `i` of series `a`. */
  predicate SameEntry(a: Series, b: Series, i: nat, k: nat) {
    a.Some? == b.Some?
    && (a.Some? ==> i < |a.value| && k < |b.value| && b.value[k] == a.value[i])
  }

  /** The narrowed forecast keeps exactly the hours before the cutoff (their
      order is stated by `NarrowedInStep`), and restricts every series to the same hours: entry `k`
      of each narrowed series belongs to the hour at `k` of the narrowed
      times. Everything else is copied. */
  lemma NarrowedHours(f: Option<Forecast>, days: int, parse: string -> Option<int>)
    requires Narrowable(f, days, parse) && Aligned(f.value.hourly.value)
    ensures var h := f.value.hourly.value;
            var n := Narrowed(f, days, parse).value;
            var end := Cutoff(f, days, parse);
            && n.others == f.value.others && n.hourly.Some?
            && n.hourly.value.others == h.others
            && Aligned(n.hourly.value)
            && (forall k :: 0 <= k < |n.hourly.value.time.value| ==>
                  Before(n.hourly.value.time.value[k], parse, end))
            && (forall i :: 0 <= i < |h.time.value| && Before(h.time.value[i], parse, end) ==>
                  h.time.value[i] in n.hourly.value.time.value)
  {
    var h := f.value.hourly.value;
    var time := h.time.value;
    var end := Cutoff(f, days, parse);
    var keep := KeptIndices(time, parse, end);
    var t := Narrow(h, time, keep).time.value;
    forall i | 0 <= i < |time| && Before(time[i], parse, end)
      ensures time[i] in t
    {
      var k :| 0 <= k < |keep| && keep[k] == i;
      assert t[k] == time[i];
    }
  }

  /** The series stay in step and in order: the `k`-th kept hour is the
      original position `KeptIndices(..)[k]` (those positions increase with
      `k`), and the narrowed block carries its time and series entries. */
  lemma NarrowedInStep(f: Option<Forecast>, days: int, parse: string -> Option<int>, k: nat)
    requires Narrowable(f, days, parse) && Aligned(f.value.hourly.value)
    requires k < |Narrowed(f, days, parse).value.hourly.value.time.value|
    ensures var h := f.value.hourly.value;
            var n := Narrowed(f, days, parse).value.hourly.value;
            var keep := KeptIndices(h.time.value, parse, Cutoff(f, days, parse));
            k < |keep| &&
            var i := keep[k];
            i < |h.time.value| && n.time.value[k] == h.time.value[i]
              && SameEntry(h.temperature, n.temperature, i, k)
              && SameEntry(h.rain, n.rain, i, k)
              && SameEntry(h.windSpeed, n.windSpeed, i, k)
              && SameEntry(h.windDirection, n.windDirection, i, k)
              && SameEntry(h.precipitationProbability, n.precipitationProbability, i, k)
              && SameEntry(h.cloudCover, n.cloudCover, i, k)
  {
    var h := f.value.hourly.value;
    var keep := KeptIndices(h.time.value, parse, Cutoff(f, days, parse));
    var i := keep[k];
    assert SameEntry(h.temperature, Slice(h.temperature, keep), i, k);
  }

  // ---------------------------------------------------------------------
  // The count date of the selection

  /** The selected location: its `source` tag and the properties of its
      circle (`None` when there is no circle or no properties). */
  datatype Selection = Selection(source: Option<string>, properties: Option<map<string, JsValue>>)

  /** `p?.Count_Date ?? p?.date_label ?? p?.date` */
  function RawCountDate(p: Option<map<string, JsValue>>): JsValue {
    match p
    case None => Undefined
    case Some(m) => Coalesce(Coalesce(Lookup(m, "Count_Date"), Lookup(m, "date_label")), Lookup(m, "date"))
  }

  /** `countDateISO`: the ISO count date of a selected circle, else "". */
  function CountDateIso(sel: Option<Selection>): (r: string)
    ensures r != "" ==> sel.Some? && sel.value.source == Some("cbc-circle") && MapPane.DashDate(r)
  {
    if sel.None? || sel.value.source != Some("cbc-circle") then ""
    else MapPane.NormalizeDateToIso(RawCountDate(sel.value.properties))
  }

  /** The first of the three fields that is not null or undefined decides,
      even when it is blank and a later one holds a date. */
  lemma CountDateFirstPresent(sel: Selection, m: map<string, JsValue>)
    requires sel.source == Some("cbc-circle") && sel.properties == Some(m)
    ensures "Count_Date" in m && !Nullish(m["Count_Date"]) ==>
              CountDateIso(Some(sel)) == MapPane.NormalizeDateToIso(m["Count_Date"])
    ensures Nullish(Lookup(m, "Count_Date")) && "date_label" in m && !Nullish(m["date_label"]) ==>
              CountDateIso(Some(sel)) == MapPane.NormalizeDateToIso(m["date_label"])
    ensures Nullish(Lookup(m, "Count_Date")) && Nullish(Lookup(m, "date_label")) ==>
              CountDateIso(Some(sel)) == MapPane.NormalizeDateToIso(Lookup(m, "date"))
  {
  }

  /** A blank `Count_Date` gives no date, whatever `date_label` holds. */
  lemma CountDateBlankNotSkipped(sel: Selection, m: map<string, JsValue>)
    requires sel.source == Some("cbc-circle") && sel.properties == Some(m)
    requires "Count_Date" in m && m["Count_Date"] == Str("")
    ensures CountDateIso(Some(sel)) == ""
  {
    CountDateFirstPresent(sel, m);
  }
}
