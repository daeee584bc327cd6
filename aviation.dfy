/** The METAR side of the count-day prefill: request parameters, the local
    day window, present-weather and cloud classification, and the fold of a
    batch of observations into a report patch. */
module AviationWeather {
  import opened Wrappers
  import opened Text
  import opened Js
  import opened Civil
  import opened Sorting

  // ---------------------------------------------------------------------
  // Request query parameters

  /** `URLSearchParams.set(k, v)`: the first entry named `k` takes the value
      and later ones are dropped; without one, the entry is appended. */
  function SetParam(q: seq<(string, string)>, k: string, v: string): (r: seq<(string, string)>)
  {
    SetFrom(q, k, v, false)
  }

  function SetFrom(q: seq<(string, string)>, k: string, v: string, seen: bool): (r: seq<(string, string)>)
    decreases |q|
  {
    if q == [] then (if seen then [] else [(k, v)])
    else if q[0].0 == k then
      (if seen then SetFrom(q[1..], k, v, true) else [(k, v)] + SetFrom(q[1..], k, v, true))
    else [q[0]] + SetFrom(q[1..], k, v, seen)
  }

  predicate HasKey(q: seq<(string, string)>, k: string) {
    exists i :: 0 <= i < |q| && q[i].0 == k
  }

  lemma {:induction false} SetFromFresh(q: seq<(string, string)>, k: string, v: string)
    requires !HasKey(q, k)
    ensures SetFrom(q, k, v, false) == q + [(k, v)]
  {
    if q != [] {
      assert !HasKey(q[1..], k) by {
        forall i | 0 <= i < |q[1..]| ensures q[1..][i].0 != k {
          assert q[1..][i] == q[i + 1];
        }
      }
      SetFromFresh(q[1..], k, v);
      assert q[0].0 != k;
    }
  }

  function ParamKeys(params: seq<(string, Option<string>)>): set<string> {
    set j | 0 <= j < |params| :: params[j].0
  }

  /** The parameters that reach the query: null and undefined values and values
      blank after trimming are skipped; the rest are trimmed. */
  function QueryOf(params: seq<(string, Option<string>)>): (r: seq<(string, string)>)
    ensures |r| <= |params|
    ensures forall i :: 0 <= i < |r| ==> Trim(r[i].1) != "" && r[i].0 in ParamKeys(params)
  {
    if params == [] then []
    else
      var init := params[..|params| - 1];
      var last := params[|params| - 1];
      var q := QueryOf(init);
      assert ParamKeys(init) <= ParamKeys(params) by {
        forall k | k in ParamKeys(init) ensures k in ParamKeys(params) {
          var j :| 0 <= j < |init| && init[j].0 == k;
          assert params[j].0 == k;
        }
      }
      assert last.0 in ParamKeys(params);
      if last.1.Some? && Trim(last.1.value) != "" then
        TrimIdempotent(last.1.value);
        q + [(last.0, Trim(last.1.value))]
      else q
  }

  predicate DistinctKeys(params: seq<(string, Option<string>)>) {
    forall i, j :: 0 <= i < j < |params| ==> params[i].0 != params[j].0
  }

  /** The search-parameter loop of `buildUrl`. A JavaScript object's entries
      have distinct keys, so each `set` appends. */
  method BuildQuery(params: seq<(string, Option<string>)>) returns (q: seq<(string, string)>)
    requires DistinctKeys(params)
    ensures q == QueryOf(params)
  {
    q := [];
    var i := 0;
    while i < |params|
      invariant 0 <= i <= |params|
      invariant q == QueryOf(params[..i])
    {
      var (k, v) := params[i];
      QueryPrefix(params, i);
      if v.Some? {
        var s := Trim(v.value);
        if s != "" {
          FreshKey(params, i);
          SetFromFresh(q, k, s);
          q := SetParam(q, k, s);
        }
      }
      i := i + 1;
    }
    assert params[..i] == params;
  }

  lemma QueryPrefix(params: seq<(string, Option<string>)>, i: nat)
    requires i < |params|
    ensures QueryOf(params[..i + 1])
            == if params[i].1.Some? && Trim(params[i].1.value) != ""
               then QueryOf(params[..i]) + [(params[i].0, Trim(params[i].1.value))]
               else QueryOf(params[..i])
  {
    assert params[..i + 1][..i] == params[..i];
  }

  /** A parameter whose value is present and not blank once trimmed puts
      its key and the trimmed value in the query. */
  predicate Contributes(p: (string, Option<string>), k: string, s: string) {
    p.0 == k && p.1.Some? && Trim(p.1.value) == s && s != ""
  }

  /** The last parameter is the only one the query of all parameters may
      add to the query of the ones before it. */
  lemma QueryMembersLast(params: seq<(string, Option<string>)>, k: string, s: string)
    requires params != []
    ensures (k, s) in QueryOf(params)
            <==> (k, s) in QueryOf(params[..|params| - 1]) || Contributes(params[|params| - 1], k, s)
  {
    var last := params[|params| - 1];
    var tail: seq<(string, string)> := if last.1.Some? && Trim(last.1.value) != ""
                                        then [(last.0, Trim(last.1.value))] else [];
    assert QueryOf(params) == QueryOf(params[..|params| - 1]) + tail;
    assert (k, s) in tail <==> Contributes(last, k, s);
  }

  /** A parameter reaches the query, trimmed, exactly when its value is
      present and not blank once trimmed. */
  lemma {:induction false} QueryMembers(params: seq<(string, Option<string>)>, k: string, s: string)
    ensures (k, s) in QueryOf(params) <==> exists j :: 0 <= j < |params| && Contributes(params[j], k, s)
  {
    if params != [] {
      var init, last := params[..|params| - 1], params[|params| - 1];
      assert params == init + [last];
      QueryMembers(init, k, s);
      QueryMembersLast(params, k, s);
      var P := (p: (string, Option<string>)) => Contributes(p, k, s);
      ExistsLast(init, last, P);
      assert (exists j :: 0 <= j < |params| && Contributes(params[j], k, s))
             <==> exists j :: 0 <= j < |params| && P(params[j]);
      assert (exists j :: 0 <= j < |init| && Contributes(init[j], k, s))
             <==> exists j :: 0 <= j < |init| && P(init[j]);
    }
  }

  /** Some element of `init + [x]` satisfies `P` exactly when some element
      of `init` does or `x` does. */
  lemma ExistsLast<T>(init: seq<T>, x: T, P: T -> bool)
    ensures (exists j :: 0 <= j < |init + [x]| && P((init + [x])[j]))
            <==> (exists j :: 0 <= j < |init| && P(init[j])) || P(x)
  {
    var xs := init + [x];
    if exists j :: 0 <= j < |init| && P(init[j]) {
      var j :| 0 <= j < |init| && P(init[j]);
      assert xs[j] == init[j];
    }
    assert xs[|init|] == x;
  }

  /** What one parameter adds to the query. */
  function QueryOfOne(p: (string, Option<string>)): seq<(string, string)> {
    if p.1.Some? && Trim(p.1.value) != "" then [(p.0, Trim(p.1.value))] else []
  }

  lemma QuerySnoc(ps: seq<(string, Option<string>)>, p: (string, Option<string>))
    ensures QueryOf(ps + [p]) == QueryOf(ps) + QueryOfOne(p)
  {
    assert (ps + [p])[..|ps|] == ps;
  }

  lemma {:induction false} QueryAppend(a: seq<(string, Option<string>)>, b: seq<(string, Option<string>)>)
    ensures QueryOf(a + b) == QueryOf(a) + QueryOf(b)
    decreases |b|
  {
    if b == [] {
      assert a + b == a;
    } else {
      var b' := b[..|b| - 1];
      var p := b[|b| - 1];
      assert b == b' + [p];
      assert a + b == (a + b') + [p];
      calc {
        QueryOf(a + b);
        { QuerySnoc(a + b', p); }
        QueryOf(a + b') + QueryOfOne(p);
        { QueryAppend(a, b'); }
        (QueryOf(a) + QueryOf(b')) + QueryOfOne(p);
        QueryOf(a) + (QueryOf(b') + QueryOfOne(p));
        { QuerySnoc(b', p); }
        QueryOf(a) + QueryOf(b);
      }
    }
  }

  /** No earlier parameter has put the key of the next one in the query. */
  lemma FreshKey(params: seq<(string, Option<string>)>, i: nat)
    requires DistinctKeys(params) && i < |params|
    ensures !HasKey(QueryOf(params[..i]), params[i].0)
  {
    var q := QueryOf(params[..i]);
    forall n | 0 <= n < |q| ensures q[n].0 != params[i].0 {
      var j :| 0 <= j < i && params[..i][j].0 == q[n].0;
      assert params[j].0 == q[n].0;
    }
  }

  // ---------------------------------------------------------------------
  // Offset and unit conversions

  /** A whole-hour UTC offset from longitude, 15 degrees per hour; 0 when the
      longitude is not a finite number. */
  function ApproxUtcOffsetHoursFromLon(lon: JsValue): (r: int)
    ensures ToNumber(lon).Finite? ==> r as real - 0.5 <= ToNumber(lon).r / 15.0 < r as real + 0.5
    ensures !ToNumber(lon).Finite? ==> r == 0
  {
    match FiniteNumber(lon)
    case Some(x) => Round(x / 15.0)
    case None => 0
  }

  /** Longitudes on a zone's central meridian give that zone's offset, and
      the half-way meridian belongs to the zone to the east. */
  lemma OffsetOfMeridian(k: int)
    ensures ApproxUtcOffsetHoursFromLon(Num(Finite(15.0 * k as real))) == k
    ensures ApproxUtcOffsetHoursFromLon(Num(Finite(15.0 * k as real + 7.5))) == k + 1
    ensures ApproxUtcOffsetHoursFromLon(Null) == 0
  {
    RoundUnique(15.0 * k as real / 15.0, k);
    RoundUnique((15.0 * k as real + 7.5) / 15.0, k + 1);
  }

  /** `cToF`: Fahrenheit from a Celsius reading that is a finite number. */
  function CToF(c: JsValue): (r: Option<real>)
    ensures r.Some? <==> ToNumber(c).Finite?
    ensures r.Some? ==> (r.value - 32.0) * 5.0 / 9.0 == ToNumber(c).r
  {
    match FiniteNumber(c)
    case Some(n) => Some(n * 9.0 / 5.0 + 32.0)
    case None => None
  }

  /** `ktToMph`: statute miles per hour from knots. */
  function KtToMph(kt: JsValue): (r: Option<real>)
    ensures r.Some? <==> ToNumber(kt).Finite?
    ensures r.Some? ==> (ToNumber(kt).r >= 0.0 <==> r.value >= 0.0)
    ensures r.Some? ==> r.value / 1.15078 == ToNumber(kt).r
  {
    match FiniteNumber(kt)
    case Some(n) => Some(n * 1.15078)
    case None => None
  }

  // ---------------------------------------------------------------------
  // Local day window

  /** The text `^\d{4}-\d{2}-\d{2}$` accepts (ASCII digits, no trailing text). */
  predicate IsoDateShape(s: string) {
    && |s| == 10 && s[4] == '-' && s[7] == '-'
    && AllDigits(s[..4]) && AllDigits(s[5..7]) && AllDigits(s[8..])
  }

  /** The year, month and day numbers `split('-').map(Number)` reads. */
  function IsoYear(s: string): nat requires IsoDateShape(s) { DigitsValue(s[..4]) }
  function IsoMonth(s: string): nat requires IsoDateShape(s) { DigitsValue(s[5..7]) }
  function IsoDay(s: string): nat requires IsoDateShape(s) { DigitsValue(s[8..]) }

  /** `Date.UTC(y, m - 1, d, 0, 0, 0)` for the count date. */
  function DayStartMs(s: string): int
    requires IsoDateShape(s)
  {
    DateUtc(IsoYear(s), IsoMonth(s) - 1, IsoDay(s), 0, 0, 0)
  }

  /** `String(v || '')` passes the date test; a non-string value never does,
      since the text of a number, a boolean or null has no such shape. */
  predicate IsCountDate(v: JsValue) {
    v.Str? && IsoDateShape(v.s)
  }

  /** Milliseconds from local midnight of the count date to the observation. */
  function LocalDayMs(obsSec: real, date: string, off: int): real
    requires IsoDateShape(date)
  {
    obsSec * 1000.0 + (off * MS_PER_HOUR) as real - DayStartMs(date) as real
  }

  /** `clampToDayLocal`: the local hour of an observation on the count day,
      or none when the time is not a finite number, the date is malformed or
      the observation falls outside that local day. */
  function ClampToDayLocal(obsTime: JsValue, countDate: JsValue, off: int): (r: Option<int>)
    ensures r.Some? <==> (obsTime.Num? && obsTime.n.Finite? && IsCountDate(countDate)
                          && 0.0 <= LocalDayMs(obsTime.n.r, countDate.s, off) < 86400000.0)
    ensures r.Some? ==> 0 <= r.value < 24
    ensures r.Some? ==> var ms := LocalDayMs(obsTime.n.r, countDate.s, off);
                        (r.value * MS_PER_HOUR) as real <= ms < ((r.value + 1) * MS_PER_HOUR) as real
  {
    if !(obsTime.Num? && obsTime.n.Finite?) then None
    else if !IsCountDate(countDate) then None
    else
      var ms := LocalDayMs(obsTime.n.r, countDate.s, off);
      if ms < 0.0 || ms >= 86400000.0 then None
      else
        var h := (ms / 3600000.0).Floor;
        assert h < 24;
        Some(h)
  }

  /** Local midnight is hour 0, the last second of the day is hour 23, and
      the next midnight is outside the day. */
  lemma ClampDayEdges(date: string, off: int, x: real)
    requires IsoDateShape(date)
    requires x * 1000.0 + (off * MS_PER_HOUR) as real == DayStartMs(date) as real
    ensures ClampToDayLocal(Num(Finite(x)), Str(date), off) == Some(0)
    ensures ClampToDayLocal(Num(Finite(x + 86399.0)), Str(date), off) == Some(23)
    ensures ClampToDayLocal(Num(Finite(x + 86400.0)), Str(date), off) == None
    ensures ClampToDayLocal(Num(Finite(x - 1.0)), Str(date), off) == None
  {
    assert LocalDayMs(x, date, off) == 0.0;
    ClampHourAt(x, date, off, 0);
    assert LocalDayMs(x + 86399.0, date, off) == 86399000.0;
    ClampHourAt(x + 86399.0, date, off, 23);
    assert LocalDayMs(x + 86400.0, date, off) == 86400000.0;
    assert LocalDayMs(x - 1.0, date, off) == -1000.0;
  }

  /** An observation whose local time falls in hour `h` of the count day
      clamps to `h`. */
  lemma ClampHourAt(x: real, date: string, off: int, h: int)
    requires IsoDateShape(date) && 0 <= h < 24
    requires (h * MS_PER_HOUR) as real <= LocalDayMs(x, date, off) < ((h + 1) * MS_PER_HOUR) as real
    ensures ClampToDayLocal(Num(Finite(x)), Str(date), off) == Some(h)
  {
    var r := ClampToDayLocal(Num(Finite(x)), Str(date), off);
    assert r.Some?;
    var ms := LocalDayMs(x, date, off);
    assert (r.value * MS_PER_HOUR) as real <= ms < ((r.value + 1) * MS_PER_HOUR) as real;
  }

  /** The half-day split at hour 12 is the split at 12:00 local time. */
  lemma ClampMorning(obsTime: JsValue, countDate: JsValue, off: int)
    requires ClampToDayLocal(obsTime, countDate, off).Some?
    ensures ClampToDayLocal(obsTime, countDate, off).value < 12
            <==> LocalDayMs(obsTime.n.r, countDate.s, off) < 43200000.0
  {
  }

  /** For a real calendar date the window starts at that date's midnight UTC,
      and reading the calendar fields back gives the date. */
  lemma DayStartIsCalendarMidnight(s: string)
    requires IsoDateShape(s) && IsoYear(s) >= 100
    requires 1 <= IsoMonth(s) <= 12 && 1 <= IsoDay(s) <= DaysInMonth(IsoYear(s), IsoMonth(s) - 1)
    ensures FieldsOf(DayStartMs(s)) == Fields(IsoYear(s), IsoMonth(s), IsoDay(s), 0, 0, 0, 0)
  {
    FieldsOfMakeDay(IsoYear(s), IsoMonth(s) - 1, IsoDay(s), 0, 0, 0);
  }

  // ---------------------------------------------------------------------
  // Present weather intensity

  /** `String(wxString || '').toUpperCase()` for a string or a missing value. */
  function WxText(wx: Option<string>): string {
    Upper(wx.GetOr(""))
  }

  predicate HasRainCode(w: string) {
    Contains(w, "RA") || Contains(w, "DZ") || Contains(w, "SHRA") || Contains(w, "TSRA") || Contains(w, "FZRA")
  }

  predicate HasSnowCode(w: string) {
    Contains(w, "SN") || Contains(w, "SG") || Contains(w, "SHSN")
  }

  /** `intensityFromWx`. */
  function IntensityFromWx(wx: Option<string>, code: string): (r: string)
    ensures r in {"None", "Light", "Heavy", "Unknown"}
    ensures WxText(wx) == "" ==> r == "None"
    ensures r == "Unknown" <==> (WxText(wx) != "" && code != "rain" && code != "snow")
    ensures r == "Heavy" ==> Contains(WxText(wx), "+")
  {
    var w := WxText(wx);
    if w == "" then "None"
    else if code == "rain" then
      (if HasRainCode(w) then (if Contains(w, "+") then "Heavy" else "Light") else "None")
    else if code == "snow" then
      (if HasSnowCode(w) then (if Contains(w, "+") then "Heavy" else "Light") else "None")
    else "Unknown"
  }

  lemma ContainsTrans(s: string, p: string, q: string)
    requires Contains(s, p) && Contains(p, q)
    ensures Contains(s, q)
  {
    var i := IndexOf(s, p).value;
    var j := IndexOf(p, q).value;
    assert s[i..i + |p|] == p && p[j..j + |q|] == q;
    forall k | 0 <= k < |q| ensures s[i + j + k] == q[k] {
      assert q[k] == p[j + k] == s[i..i + |p|][j + k];
    }
    assert s[i + j..i + j + |q|] == q;
    ContainsAt(s, q, i + j);
  }

  /** The longer rain and snow codes contain the short ones, so the test
      reduces to RA or DZ for rain and SN or SG for snow. */
  lemma CodeListsReduce(w: string)
    ensures HasRainCode(w) <==> Contains(w, "RA") || Contains(w, "DZ")
    ensures HasSnowCode(w) <==> Contains(w, "SN") || Contains(w, "SG")
  {
    assert OccursAt("SHRA", "RA", 2) && OccursAt("TSRA", "RA", 2) && OccursAt("FZRA", "RA", 2);
    assert OccursAt("SHSN", "SN", 2);
    if Contains(w, "SHRA") { ContainsAt("SHRA", "RA", 2); ContainsTrans(w, "SHRA", "RA"); }
    if Contains(w, "TSRA") { ContainsAt("TSRA", "RA", 2); ContainsTrans(w, "TSRA", "RA"); }
    if Contains(w, "FZRA") { ContainsAt("FZRA", "RA", 2); ContainsTrans(w, "FZRA", "RA"); }
    if Contains(w, "SHSN") { ContainsAt("SHSN", "SN", 2); ContainsTrans(w, "SHSN", "SN"); }
  }

  /** The two short codes a kind's code list reduces to: RA and DZ for rain,
      SN and SG for snow. */
  function ShortCodes(kind: string): (string, string)
    requires kind == "rain" || kind == "snow"
  {
    if kind == "rain" then ("RA", "DZ") else ("SN", "SG")
  }

  /** Rain and snow intensity as the source promises them: Heavy when one of
      the kind's codes is present and a "+" appears anywhere in the text,
      Light when one is present without "+", None otherwise. */
  lemma KindIntensity(wx: Option<string>, kind: string)
    requires kind == "rain" || kind == "snow"
    ensures var w := WxText(wx);
            var (a, b) := ShortCodes(kind);
            && (IntensityFromWx(wx, kind) == "Heavy" <==> (Contains(w, a) || Contains(w, b)) && Contains(w, "+"))
            && (IntensityFromWx(wx, kind) == "Light" <==> (Contains(w, a) || Contains(w, b)) && !Contains(w, "+"))
            && (IntensityFromWx(wx, kind) == "None" <==> !(Contains(w, a) || Contains(w, b)))
  {
    CodeListsReduce(WxText(wx));
    if WxText(wx) == "" {
      assert !Contains("", "RA") && !Contains("", "DZ");
      assert !Contains("", "SN") && !Contains("", "SG");
    }
  }

  /** The "+" test looks at the whole text: light snow with heavy rain makes
      the snow Heavy too. */
  lemma PlusAppliesToWholeText()
    ensures IntensityFromWx(Some("-SN +RA"), "snow") == "Heavy"
  {
    assert Upper("-SN +RA") == "-SN +RA";
    assert OccursAt("-SN +RA", "SN", 1);
    assert OccursAt("-SN +RA", "+", 4);
  }

  // ---------------------------------------------------------------------
  // Cloud category

  /** The rank of a cloud cover code: overcast worst, clear best, anything
      unrecognised lowest. */
  function CoverRank(c: string): (r: nat)
    ensures r <= 5
  {
    if c == "OVC" || c == "OVX" then 5
    else if c == "BKN" then 4
    else if c == "SCT" then 3
    else if c == "FEW" then 2
    else if c == "CLR" || c == "CAVOK" then 1
    else 0
  }

  /** The comparator `(a, b) => rank(b) - rank(a)`: higher ranks first. */
  function RankDesc(a: string, b: string): bool {
    CoverRank(a) >= CoverRank(b)
  }

  lemma RankDescPreorder()
    ensures TotalPreorder(RankDesc)
  {
  }

  /** The non-empty upper-cased covers of the cloud layers, in layer order. */
  function CoversOf(clouds: seq<Option<string>>): (r: seq<string>)
    ensures |r| <= |clouds|
    ensures forall i :: 0 <= i < |r| ==> r[i] != ""
  {
    if clouds == [] then []
    else
      var c := Upper(clouds[0].GetOr(""));
      (if c != "" then [c] else []) + CoversOf(clouds[1..])
  }

  /** The position a stable descending sort moves to the front: the first
      cover of the highest rank. */
  function FirstWorst(cs: seq<string>): (i: nat)
    requires |cs| > 0
    ensures i < |cs|
    ensures forall j :: 0 <= j < |cs| ==> CoverRank(cs[j]) <= CoverRank(cs[i])
    ensures forall j :: 0 <= j < i ==> CoverRank(cs[j]) < CoverRank(cs[i])
  {
    if |cs| == 1 then 0
    else
      var k := 1 + FirstWorst(cs[1..]);
      assert forall j :: 1 <= j < |cs| ==> cs[j] == cs[1..][j - 1];
      if CoverRank(cs[0]) >= CoverRank(cs[k]) then 0 else k
  }

  /** `covers.sort(cmp)[0]` is the first cover of the highest rank. */
  lemma {:induction false} SortHeadIsFirstWorst(cs: seq<string>)
    requires |cs| > 0
    ensures SortBy(cs, RankDesc)[0] == cs[FirstWorst(cs)]
  {
    RankDescPreorder();
    if |cs| > 1 {
      SortHeadIsFirstWorst(cs[1..]);
      SortBySorted(cs[1..], RankDesc);
      InsertSorted(cs[0], SortBy(cs[1..], RankDesc), RankDesc);
    }
  }

  /** The cloud label of a cover rank. */
  function CategoryOfRank(rank: nat): string {
    if rank == 1 then "Clear"
    else if rank == 2 then "Partly Clear"
    else if rank == 3 then "Partly Cloudy"
    else if rank >= 4 then "Cloudy"
    else "Unknown"
  }

  /** `cloudCategoryFromMetar`. */
  function CloudCategoryFromMetar(wx: Option<string>, clouds: seq<Option<string>>): (r: string)
    ensures r in CloudLabels
  {
    var w := WxText(wx);
    if Contains(w, "BCFG") then "Local Fog"
    else if Contains(w, "FG") then "Foggy"
    else
      var covers := CoversOf(clouds);
      if covers == [] then "Clear" else CategoryOfCover(SortBy(covers, RankDesc)[0])
  }

  /** The label of the worst cover, by the code's own name. */
  function CategoryOfCover(maxCover: string): string {
    if maxCover == "" then "Clear"
    else if maxCover == "CLR" || maxCover == "CAVOK" then "Clear"
    else if maxCover == "FEW" then "Partly Clear"
    else if maxCover == "SCT" then "Partly Cloudy"
    else if maxCover == "BKN" || maxCover == "OVC" || maxCover == "OVX" then "Cloudy"
    else "Unknown"
  }

  /** Naming the cover and ranking it agree. */
  lemma CategoryOfCoverByRank(c: string)
    requires c != ""
    ensures CategoryOfCover(c) == CategoryOfRank(CoverRank(c))
  {
  }

  /** Fog codes decide first (BCFG before FG, though it contains FG); then
      no cover means Clear, and otherwise the highest-ranked cover decides. */
  lemma CloudCategoryByRank(wx: Option<string>, clouds: seq<Option<string>>)
    ensures var w := WxText(wx);
            var covers := CoversOf(clouds);
            CloudCategoryFromMetar(wx, clouds)
              == if Contains(w, "BCFG") then "Local Fog"
                 else if Contains(w, "FG") then "Foggy"
                 else if covers == [] then "Clear"
                 else CategoryOfRank(CoverRank(covers[FirstWorst(covers)]))
  {
    var covers := CoversOf(clouds);
    if covers != [] {
      SortHeadIsFirstWorst(covers);
      CategoryOfCoverByRank(covers[FirstWorst(covers)]);
    }
  }

  /** A broken-fog report is Local Fog even though its text also contains FG. */
  lemma LocalFogDespiteFg(wx: Option<string>, clouds: seq<Option<string>>)
    requires Contains(WxText(wx), "BCFG")
    ensures Contains(WxText(wx), "FG")
    ensures CloudCategoryFromMetar(wx, clouds) == "Local Fog"
  {
    ContainsAt("BCFG", "FG", 2);
    ContainsTrans(WxText(wx), "BCFG", "FG");
  }

  /** Layers the ranking does not know (vertical visibility, say) make the
      category Unknown, while no layer at all makes it Clear. */
  lemma UnrankedCoversAreUnknown(wx: Option<string>, clouds: seq<Option<string>>)
    requires !Contains(WxText(wx), "FG")
    requires forall i :: 0 <= i < |CoversOf(clouds)| ==> CoverRank(CoversOf(clouds)[i]) == 0
    ensures CloudCategoryFromMetar(wx, clouds) == if CoversOf(clouds) == [] then "Clear" else "Unknown"
  {
    if Contains(WxText(wx), "BCFG") {
      LocalFogDespiteFg(wx, clouds);
    }
    CloudCategoryByRank(wx, clouds);
  }

  const CloudLabels: set<string> :=
    {"Clear", "Partly Clear", "Partly Cloudy", "Cloudy", "Local Fog", "Foggy", "Unknown"}

  /** The severity rank `worstCloud` gives a cloud label: fog worst, Foggy
      above Local Fog; anything else counts like Unknown. */
  function CloudRank(c: string): (r: nat)
    ensures r <= 6
    ensures c !in CloudLabels ==> r == 0
  {
    if c == "Clear" then 1
    else if c == "Partly Clear" then 2
    else if c == "Partly Cloudy" then 3
    else if c == "Cloudy" then 4
    else if c == "Local Fog" then 5
    else if c == "Foggy" then 6
    else 0
  }

  lemma CloudRankInjective(a: string, b: string)
    requires a in CloudLabels && b in CloudLabels && CloudRank(a) == CloudRank(b)
    ensures a == b
  {
  }

  /** `worstCloud(a, b)`: the more severe of two labels, `a` on a tie. */
  function WorstCloud(a: string, b: string): (r: string)
    ensures r == a || r == b
    ensures CloudRank(r) == if CloudRank(a) >= CloudRank(b) then CloudRank(a) else CloudRank(b)
    ensures CloudRank(a) == CloudRank(b) ==> r == a
  {
    if CloudRank(a) >= CloudRank(b) then a else b
  }

  lemma WorstCloudLaws(a: string, b: string, c: string)
    ensures CloudRank(WorstCloud(a, WorstCloud(b, c))) == CloudRank(WorstCloud(WorstCloud(a, b), c))
    ensures a in CloudLabels && b in CloudLabels ==> WorstCloud(a, b) == WorstCloud(b, a)
    ensures WorstCloud(a, a) == a
    ensures WorstCloud(a, "Unknown") == a
  {
    if a in CloudLabels && b in CloudLabels && CloudRank(a) == CloudRank(b) {
      CloudRankInjective(a, b);
    }
  }

  // ---------------------------------------------------------------------
  // The fold over one batch of observations

  /** The fields of one METAR record the fold reads. */
  datatype Metar = Metar(
    obsTime: JsValue, temp: JsValue, wspd: JsValue, wdir: JsValue, snow: JsValue,
    wxString: Option<string>, clouds: seq<Option<string>>)

  /** An observation inside the count day, with its local hour. */
  datatype Accepted = Accepted(m: Metar, hour: int)

  /** What the half-day fold reads from one accepted observation: its local
      hour, its cloud category and its rain and snow intensities. */
  datatype Reading = Reading(hour: int, cloud: string, rain: string, snow: string)

  const Levels: set<string> := {"None", "Light", "Heavy"}

  function ReadingOf(a: Accepted): (r: Reading)
    ensures r.hour == a.hour && r.cloud in CloudLabels && r.rain in Levels && r.snow in Levels
  {
    Reading(a.hour, CloudCategoryFromMetar(a.m.wxString, a.m.clouds),
            IntensityFromWx(a.m.wxString, "rain"), IntensityFromWx(a.m.wxString, "snow"))
  }

  /** A wind direction as collected: the string "VRB" in any case, or a number. */
  datatype WindDir = Vrb | Deg(deg: real)

  /** One half-day's running cloud, rain and snow labels. */
  datatype Half = Half(cloud: string, rain: string, snow: string)

  const StartHalf := Half("Unknown", "None", "None")

  /** `rankI`: None and Unknown 0, Light 1, Heavy 2. */
  function IntensityRank(s: string): (r: nat)
    ensures r <= 2
  {
    if s == "Light" then 1 else if s == "Heavy" then 2 else 0
  }

  /** The update rule on one intensity: a strictly higher rank replaces it. */
  function KeepMax(cur: string, next: string): string {
    if IntensityRank(next) > IntensityRank(cur) then next else cur
  }

  /** One observation's update of its half-day. */
  function StepHalf(h: Half, r: Reading): Half {
    Half(WorstCloud(h.cloud, r.cloud), KeepMax(h.rain, r.rain), KeepMax(h.snow, r.snow))
  }

  /** The observations `clampToDayLocal` keeps, in input order. */
  function AcceptedOf(ms: seq<Metar>, date: JsValue, off: int): (r: seq<Accepted>)
    ensures |r| <= |ms|
  {
    if ms == [] then []
    else
      var init := AcceptedOf(ms[..|ms| - 1], date, off);
      var m := ms[|ms| - 1];
      match ClampToDayLocal(m.obsTime, date, off)
      case Some(h) => init + [Accepted(m, h)]
      case None => init
  }

  lemma AcceptedSnoc(ms: seq<Metar>, m: Metar, date: JsValue, off: int)
    ensures AcceptedOf(ms + [m], date, off)
            == match ClampToDayLocal(m.obsTime, date, off)
               case Some(h) => AcceptedOf(ms, date, off) + [Accepted(m, h)]
               case None => AcceptedOf(ms, date, off)
  {
    assert (ms + [m])[..|ms|] == ms;
  }

  /** The number of observations `clampToDayLocal` keeps. */
  function CountAccepted(ms: seq<Metar>, date: JsValue, off: int): nat {
    if ms == [] then 0
    else CountAccepted(ms[..|ms| - 1], date, off)
         + (if ClampToDayLocal(ms[|ms| - 1].obsTime, date, off).Some? then 1 else 0)
  }

  function ReadingsOf(acc: seq<Accepted>): (r: seq<Reading>)
    ensures |r| == |acc|
  {
    if acc == [] then [] else ReadingsOf(acc[..|acc| - 1]) + [ReadingOf(acc[|acc| - 1])]
  }

  /** The fold of one half-day over the readings. */
  function HalfOf(rs: seq<Reading>, morning: bool): Half {
    if rs == [] then StartHalf
    else
      var h := HalfOf(rs[..|rs| - 1], morning);
      var r := rs[|rs| - 1];
      if (r.hour < 12) == morning then StepHalf(h, r) else h
  }

  function TempsOf(acc: seq<Accepted>): seq<real> {
    if acc == [] then []
    else TempsOf(acc[..|acc| - 1]) + match CToF(acc[|acc| - 1].m.temp) case Some(t) => [t] case None => []
  }

  function WindsOf(acc: seq<Accepted>): seq<real> {
    if acc == [] then []
    else WindsOf(acc[..|acc| - 1]) + match KtToMph(acc[|acc| - 1].m.wspd) case Some(w) => [w] case None => []
  }

  function SnowsOf(acc: seq<Accepted>): seq<real> {
    if acc == [] then []
    else SnowsOf(acc[..|acc| - 1]) + match FiniteNumber(acc[|acc| - 1].m.snow) case Some(x) => [x] case None => []
  }

  /** The direction one observation contributes, if any. */
  function DirOf(wdir: JsValue): Option<WindDir> {
    if wdir.Str? && Upper(wdir.s) == "VRB" then Some(Vrb)
    else match FiniteNumber(wdir)
      case Some(d) => Some(Deg(d))
      case None => None
  }

  function DirsOf(acc: seq<Accepted>): seq<WindDir> {
    if acc == [] then []
    else DirsOf(acc[..|acc| - 1]) + match DirOf(acc[|acc| - 1].m.wdir) case Some(d) => [d] case None => []
  }

  function Degrees(ds: seq<WindDir>): (r: seq<real>)
    ensures |r| <= |ds|
  {
    if ds == [] then []
    else Degrees(ds[..|ds| - 1]) + match ds[|ds| - 1] case Deg(d) => [d] case Vrb => []
  }

  function MinOf(xs: seq<real>): (r: real)
    requires |xs| > 0
    ensures r in xs && forall i :: 0 <= i < |xs| ==> r <= xs[i]
  {
    if |xs| == 1 then xs[0]
    else
      var m := MinOf(xs[..|xs| - 1]);
      assert forall i :: 0 <= i < |xs| - 1 ==> xs[..|xs| - 1][i] == xs[i];
      if xs[|xs| - 1] < m then xs[|xs| - 1] else m
  }

  function MaxOf(xs: seq<real>): (r: real)
    requires |xs| > 0
    ensures r in xs && forall i :: 0 <= i < |xs| ==> xs[i] <= r
  {
    if |xs| == 1 then xs[0]
    else
      var m := MaxOf(xs[..|xs| - 1]);
      assert forall i :: 0 <= i < |xs| - 1 ==> xs[..|xs| - 1][i] == xs[i];
      if xs[|xs| - 1] > m then xs[|xs| - 1] else m
  }

  /** `Math.round(x * 10) / 10`. */
  function RoundTenth(x: real): (r: real)
    ensures x - 0.05 < r <= x + 0.05
  {
    var k := Round(x * 10.0) as real;
    assert k - 0.5 <= x * 10.0 < k + 0.5;
    k / 10.0
  }

  lemma RoundTenthMonotone(x: real, y: real)
    requires x <= y
    ensures RoundTenth(x) <= RoundTenth(y)
  {
    assert (x * 10.0 + 0.5).Floor <= (y * 10.0 + 0.5).Floor;
  }

  /** A reported minimum and maximum, each rounded to a tenth. */
  datatype Range = Range(lo: real, hi: real)

  /** The pair of `Math.round(Math.min(...xs) * 10) / 10` and the same with
      `Math.max`: the low end is the rounded value of an element no element
      undercuts, the high end that of an element no element exceeds. */
  function RangeOf(xs: seq<real>): (r: Option<Range>)
    ensures r.Some? <==> |xs| > 0
    ensures r.Some? ==> r.value.lo <= r.value.hi
    ensures r.Some? ==> exists i :: 0 <= i < |xs| && r.value.lo == RoundTenth(xs[i])
                                    && forall j :: 0 <= j < |xs| ==> xs[i] <= xs[j]
    ensures r.Some? ==> exists i :: 0 <= i < |xs| && r.value.hi == RoundTenth(xs[i])
                                    && forall j :: 0 <= j < |xs| ==> xs[j] <= xs[i]
  {
    if xs == [] then None
    else
      RoundTenthMonotone(MinOf(xs), MaxOf(xs));
      Some(Range(RoundTenth(MinOf(xs)), RoundTenth(MaxOf(xs))))
  }

  /** The report patch: the numeric pairs rounded to a tenth, the direction as
      "Variable" or as degrees, and the six half-day labels. */
  datatype Patch = Patch(
    temp: Option<Range>, wind: Option<Range>, snow: Option<Range>,
    windDir: Option<string>, windDirDegrees: Option<real>,
    cloudCoverAM: string, cloudCoverPM: string,
    amRain: string, pmRain: string, amSnow: string, pmSnow: string)

  /** The circular mean that `atan2` gives lies in [-180, 180]. */
  ghost predicate MeanInRange(meanDeg: seq<real> -> real) {
    forall xs :: -180.0 <= meanDeg(xs) <= 180.0
  }

  /** `(mean + 360) % 360`, the direction of the circular mean in [0, 360). */
  function DirectionOfMean(mean: real): (r: real)
    requires -180.0 <= mean <= 180.0
    ensures 0.0 <= r < 360.0
    ensures mean >= 0.0 ==> r == mean
    ensures mean < 0.0 ==> r == mean + 360.0
  {
    var x := mean + 360.0;
    assert Trunc(x / 360.0) == (if mean >= 0.0 then 1 else 0);
    Rem360(x)
  }

  /** The patch built from the collected lists and the two half-days. */
  function PatchOf(temps: seq<real>, winds: seq<real>, snows: seq<real>, dirs: seq<WindDir>,
                   am: Half, pm: Half, meanDeg: seq<real> -> real): Patch
    requires MeanInRange(meanDeg)
  {
    var nums := Degrees(dirs);
    Patch(RangeOf(temps), RangeOf(winds), RangeOf(snows),
          if Vrb in dirs then Some("Variable") else None,
          if Vrb !in dirs && nums != [] then Some(DirectionOfMean(meanDeg(nums))) else None,
          am.cloud, pm.cloud, am.rain, pm.rain, am.snow, pm.snow)
  }

  /** What `deriveCountDayPrefillFromMetars` returns for a batch. */
  function Derive(ms: seq<Metar>, stationLon: JsValue, date: JsValue, meanDeg: seq<real> -> real)
    : (r: (Option<Patch>, nat))
    requires MeanInRange(meanDeg)
  {
    var off := ApproxUtcOffsetHoursFromLon(stationLon);
    var acc := AcceptedOf(ms, date, off);
    var rs := ReadingsOf(acc);
    if acc == [] then (None, 0)
    else (Some(PatchOf(TempsOf(acc), WindsOf(acc), SnowsOf(acc), DirsOf(acc),
                       HalfOf(rs, true), HalfOf(rs, false), meanDeg)), |acc|)
  }

  /** How each collected list grows by one accepted observation. */
  lemma AccumulateOne(acc: seq<Accepted>, a: Accepted)
    ensures var acc' := acc + [a];
            && TempsOf(acc') == TempsOf(acc) + (match CToF(a.m.temp) case Some(t) => [t] case None => [])
            && WindsOf(acc') == WindsOf(acc) + (match KtToMph(a.m.wspd) case Some(w) => [w] case None => [])
            && SnowsOf(acc') == SnowsOf(acc) + (match FiniteNumber(a.m.snow) case Some(x) => [x] case None => [])
            && DirsOf(acc') == DirsOf(acc) + (match DirOf(a.m.wdir) case Some(d) => [d] case None => [])
            && ReadingsOf(acc') == ReadingsOf(acc) + [ReadingOf(a)]
  {
    assert (acc + [a])[..|acc|] == acc;
  }

  lemma HalfOne(rs: seq<Reading>, r: Reading, morning: bool)
    ensures HalfOf(rs + [r], morning) == if (r.hour < 12) == morning then StepHalf(HalfOf(rs, morning), r) else HalfOf(rs, morning)
  {
    assert (rs + [r])[..|rs|] == rs;
  }

  /** The in-place update of the half-day object `part` by one observation:
      the worse sky, and each intensity replaced only by a strictly higher one. */
  method UpdateHalf(part: Half, m: Metar, hour: int) returns (next: Half)
    ensures next == StepHalf(part, ReadingOf(Accepted(m, hour)))
  {
    var cloud := WorstCloud(part.cloud, CloudCategoryFromMetar(m.wxString, m.clouds));
    var rain := part.rain;
    var rRain := IntensityFromWx(m.wxString, "rain");
    if IntensityRank(rRain) > IntensityRank(rain) { rain := rRain; }
    var snow := part.snow;
    var rSnow := IntensityFromWx(m.wxString, "snow");
    if IntensityRank(rSnow) > IntensityRank(snow) { snow := rSnow; }
    next := Half(cloud, rain, snow);
  }

  /** The lists and half-days collected so far. */
  datatype Collected = Collected(
    tempsF: seq<real>, windMph: seq<real>, windDirs: seq<WindDir>, snowIn: seq<real>, am: Half, pm: Half)

  ghost function CollectedOf(acc: seq<Accepted>): Collected {
    var rs := ReadingsOf(acc);
    Collected(TempsOf(acc), WindsOf(acc), DirsOf(acc), SnowsOf(acc), HalfOf(rs, true), HalfOf(rs, false))
  }

  /** Pushes the converted temperature, snow depth, wind speed and direction
      of an accepted observation where they are present. */
  method PushValues(c: Collected, m: Metar, hour: int, ghost acc: seq<Accepted>) returns (c': Collected)
    requires c.tempsF == TempsOf(acc) && c.windMph == WindsOf(acc)
    requires c.windDirs == DirsOf(acc) && c.snowIn == SnowsOf(acc)
    ensures c'.am == c.am && c'.pm == c.pm
    ensures var acc' := acc + [Accepted(m, hour)];
            && c'.tempsF == TempsOf(acc') && c'.windMph == WindsOf(acc')
            && c'.windDirs == DirsOf(acc') && c'.snowIn == SnowsOf(acc')
  {
    AccumulateOne(acc, Accepted(m, hour));
    var tempsF, windMph, windDirs, snowIn := c.tempsF, c.windMph, c.windDirs, c.snowIn;
    var tf := CToF(m.temp);
    if tf.Some? { tempsF := tempsF + [tf.value]; }
    var snow := FiniteNumber(m.snow);
    if snow.Some? { snowIn := snowIn + [snow.value]; }
    var mph := KtToMph(m.wspd);
    if mph.Some? { windMph := windMph + [mph.value]; }
    var wdir := m.wdir;
    if wdir.Str? && Upper(wdir.s) == "VRB" {
      windDirs := windDirs + [Vrb];
    } else if FiniteNumber(wdir).Some? {
      windDirs := windDirs + [Deg(FiniteNumber(wdir).value)];
    }
    c' := Collected(tempsF, windMph, windDirs, snowIn, c.am, c.pm);
  }

  /** The body of the loop for an observation inside the local day: push its
      values, then update the morning or the afternoon object. */
  method Collect(c: Collected, m: Metar, hour: int, ghost acc: seq<Accepted>) returns (c': Collected)
    requires c == CollectedOf(acc)
    ensures c' == CollectedOf(acc + [Accepted(m, hour)])
  {
    ghost var a := Accepted(m, hour);
    c' := PushValues(c, m, hour, acc);
    ghost var rs := ReadingsOf(acc);
    assert ReadingsOf(acc + [a]) == rs + [ReadingOf(a)] by { AccumulateOne(acc, a); }
    HalfOne(rs, ReadingOf(a), true);
    HalfOne(rs, ReadingOf(a), false);
    if hour < 12 {
      var am := UpdateHalf(c'.am, m, hour);
      c' := c'.(am := am);
    } else {
      var pm := UpdateHalf(c'.pm, m, hour);
      c' := c'.(pm := pm);
    }
  }

  lemma AcceptedPrefix(ms: seq<Metar>, i: nat, date: JsValue, off: int)
    requires i < |ms|
    ensures AcceptedOf(ms[..i + 1], date, off)
            == match ClampToDayLocal(ms[i].obsTime, date, off)
               case Some(h) => AcceptedOf(ms[..i], date, off) + [Accepted(ms[i], h)]
               case None => AcceptedOf(ms[..i], date, off)
  {
    assert ms[..i + 1] == ms[..i] + [ms[i]];
    AcceptedSnoc(ms[..i], ms[i], date, off);
  }

  /** One turn of the loop over the observations: an observation inside the
      local day is counted and collected, any other one is skipped. */
  method Visit(metars: seq<Metar>, i: nat, countDate: JsValue, off: int,
               c: Collected, used: nat, ghost acc: seq<Accepted>)
    returns (c': Collected, used': nat, ghost acc': seq<Accepted>)
    requires i < |metars|
    requires acc == AcceptedOf(metars[..i], countDate, off)
    requires used == |acc| && c == CollectedOf(acc)
    ensures acc' == AcceptedOf(metars[..i + 1], countDate, off)
    ensures used' == |acc'| && c' == CollectedOf(acc')
  {
    var m := metars[i];
    var t := ClampToDayLocal(m.obsTime, countDate, off);
    AcceptedPrefix(metars, i, countDate, off);
    if t.Some? {
      c' := Collect(c, m, t.value, acc);
      used' := used + 1;
      acc' := acc + [Accepted(m, t.value)];
    } else {
      c', used', acc' := c, used, acc;
    }
  }

  /** The loop of `deriveCountDayPrefillFromMetars` over the whole batch. */
  method CollectAll(metars: seq<Metar>, countDate: JsValue, off: int)
    returns (c: Collected, used: nat, ghost acc: seq<Accepted>)
    ensures acc == AcceptedOf(metars, countDate, off)
    ensures used == |acc| && c == CollectedOf(acc)
  {
    c := Collected([], [], [], [], StartHalf, StartHalf);
    used := 0;
    acc := [];
    var i := 0;
    while i < |metars|
      invariant 0 <= i <= |metars|
      invariant acc == AcceptedOf(metars[..i], countDate, off)
      invariant used == |acc| && c == CollectedOf(acc)
    {
      c, used, acc := Visit(metars, i, countDate, off, c, used, acc);
      i := i + 1;
    }
    assert metars[..i] == metars;
  }

  /** The collected lists of the whole batch give the patch `Derive` describes. */
  lemma DeriveOfCollected(ms: seq<Metar>, stationLon: JsValue, date: JsValue,
                          meanDeg: seq<real> -> real, c: Collected, acc: seq<Accepted>)
    requires MeanInRange(meanDeg)
    requires acc == AcceptedOf(ms, date, ApproxUtcOffsetHoursFromLon(stationLon))
    requires c == CollectedOf(acc)
    ensures acc == [] ==> Derive(ms, stationLon, date, meanDeg) == (None, 0)
    ensures acc != [] ==>
              Derive(ms, stationLon, date, meanDeg) == (Some(PatchOf(c.tempsF, c.windMph, c.snowIn, c.windDirs, c.am, c.pm, meanDeg)), |acc|)
  {
  }

  /** `deriveCountDayPrefillFromMetars`: one pass over the observations that
      counts the accepted ones, pushes into the four lists and updates the
      half-day objects in place. */
  method DeriveCountDayPrefillFromMetars(metars: seq<Metar>, stationLon: JsValue, countDate: JsValue,
                                         meanDeg: seq<real> -> real)
    returns (patch: Option<Patch>, used: nat)
    requires MeanInRange(meanDeg)
    ensures (patch, used) == Derive(metars, stationLon, countDate, meanDeg)
  {
    if |metars| == 0 {
      return None, 0;
    }
    var off := ApproxUtcOffsetHoursFromLon(stationLon);
    var c;
    ghost var acc;
    c, used, acc := CollectAll(metars, countDate, off);
    DeriveOfCollected(metars, stationLon, countDate, meanDeg, c, acc);
    if used == 0 {
      return None, 0;
    }
    patch := Some(PatchOf(c.tempsF, c.windMph, c.snowIn, c.windDirs, c.am, c.pm, meanDeg));
  }

  // ---------------------------------------------------------------------
  // Properties of the fold

  lemma {:induction false} CountIsAccepted(ms: seq<Metar>, date: JsValue, off: int)
    ensures |AcceptedOf(ms, date, off)| == CountAccepted(ms, date, off)
  {
    if ms != [] {
      CountIsAccepted(ms[..|ms| - 1], date, off);
    }
  }

  /** The value a collected list takes from one accepted observation:
      Fahrenheit, miles per hour or snow depth. */
  datatype Series = TempF | WindMph | SnowIn

  function ValueOf(a: Accepted, series: Series): Option<real> {
    match series
    case TempF => CToF(a.m.temp)
    case WindMph => KtToMph(a.m.wspd)
    case SnowIn => FiniteNumber(a.m.snow)
  }

  function SeriesOf(acc: seq<Accepted>, series: Series): seq<real> {
    match series
    case TempF => TempsOf(acc)
    case WindMph => WindsOf(acc)
    case SnowIn => SnowsOf(acc)
  }

  lemma ValueSnoc(acc: seq<Accepted>, a: Accepted, series: Series, x: real)
    ensures (exists k :: 0 <= k < |acc + [a]| && ValueOf((acc + [a])[k], series) == Some(x))
            <==> (exists k :: 0 <= k < |acc| && ValueOf(acc[k], series) == Some(x)) || ValueOf(a, series) == Some(x)
  {
    var ps := acc + [a];
    if exists k :: 0 <= k < |ps| && ValueOf(ps[k], series) == Some(x) {
      var k :| 0 <= k < |ps| && ValueOf(ps[k], series) == Some(x);
      if k < |acc| { assert ps[k] == acc[k]; }
    }
    if exists k :: 0 <= k < |acc| && ValueOf(acc[k], series) == Some(x) {
      var k :| 0 <= k < |acc| && ValueOf(acc[k], series) == Some(x);
      assert ps[k] == acc[k];
    }
    if ValueOf(a, series) == Some(x) {
      assert ps[|acc|] == a;
    }
  }

  /** A collected list holds exactly the values its accepted observations
      give: the temperatures that convert, the wind speeds that convert, the
      snow depths that are finite numbers. */
  lemma {:induction false} SeriesMembers(acc: seq<Accepted>, series: Series, x: real)
    ensures x in SeriesOf(acc, series) <==> exists k :: 0 <= k < |acc| && ValueOf(acc[k], series) == Some(x)
  {
    if acc != [] {
      var init := acc[..|acc| - 1];
      var a := acc[|acc| - 1];
      SeriesMembers(init, series, x);
      AccumulateOne(init, a);
      assert init + [a] == acc;
      ValueSnoc(init, a, series, x);
      var tail: seq<real> := match ValueOf(a, series) case Some(y) => [y] case None => [];
      assert SeriesOf(acc, series) == SeriesOf(init, series) + tail;
      assert x in tail <==> ValueOf(a, series) == Some(x);
    }
  }

  /** Observation `k` gives a value of the series that no observation undercuts. */
  ghost predicate LeastValue(acc: seq<Accepted>, series: Series, k: int) {
    && 0 <= k < |acc| && ValueOf(acc[k], series).Some?
    && forall j :: 0 <= j < |acc| && ValueOf(acc[j], series).Some?
                   ==> ValueOf(acc[k], series).value <= ValueOf(acc[j], series).value
  }

  /** Observation `k` gives a value of the series that no observation exceeds. */
  ghost predicate GreatestValue(acc: seq<Accepted>, series: Series, k: int) {
    && 0 <= k < |acc| && ValueOf(acc[k], series).Some?
    && forall j :: 0 <= j < |acc| && ValueOf(acc[j], series).Some?
                   ==> ValueOf(acc[j], series).value <= ValueOf(acc[k], series).value
  }

  /** A pair is reported exactly when some observation gives a value, and its
      ends are the rounded least and greatest of those values. */
  ghost predicate ReportsRange(r: Option<Range>, acc: seq<Accepted>, series: Series) {
    && (r.Some? <==> exists k :: 0 <= k < |acc| && ValueOf(acc[k], series).Some?)
    && (r.Some? ==> exists k :: LeastValue(acc, series, k) && r.value.lo == RoundTenth(ValueOf(acc[k], series).value))
    && (r.Some? ==> exists k :: GreatestValue(acc, series, k) && r.value.hi == RoundTenth(ValueOf(acc[k], series).value))
  }

  /** Every value an observation gives is in the collected list. */
  lemma ValuesInSeries(acc: seq<Accepted>, series: Series)
    ensures forall j :: 0 <= j < |acc| && ValueOf(acc[j], series).Some?
                        ==> ValueOf(acc[j], series).value in SeriesOf(acc, series)
  {
    forall j | 0 <= j < |acc| && ValueOf(acc[j], series).Some?
      ensures ValueOf(acc[j], series).value in SeriesOf(acc, series)
    {
      SeriesMembers(acc, series, ValueOf(acc[j], series).value);
    }
  }

  /** The least element of the collected list is the value of an observation
      that no observation undercuts. */
  lemma LeastOfSeries(acc: seq<Accepted>, series: Series, x: real)
    requires x in SeriesOf(acc, series) && forall y :: y in SeriesOf(acc, series) ==> x <= y
    ensures exists k :: LeastValue(acc, series, k) && ValueOf(acc[k], series).value == x
  {
    SeriesMembers(acc, series, x);
    ValuesInSeries(acc, series);
    var k :| 0 <= k < |acc| && ValueOf(acc[k], series) == Some(x);
    assert LeastValue(acc, series, k);
  }

  /** The greatest element likewise. */
  lemma GreatestOfSeries(acc: seq<Accepted>, series: Series, x: real)
    requires x in SeriesOf(acc, series) && forall y :: y in SeriesOf(acc, series) ==> y <= x
    ensures exists k :: GreatestValue(acc, series, k) && ValueOf(acc[k], series).value == x
  {
    SeriesMembers(acc, series, x);
    ValuesInSeries(acc, series);
    var k :| 0 <= k < |acc| && ValueOf(acc[k], series) == Some(x);
    assert GreatestValue(acc, series, k);
  }

  /** A collected list is non-empty exactly when some observation gives a value. */
  lemma SeriesPresent(acc: seq<Accepted>, series: Series)
    ensures |SeriesOf(acc, series)| > 0 <==> exists k :: 0 <= k < |acc| && ValueOf(acc[k], series).Some?
  {
    if exists k :: 0 <= k < |acc| && ValueOf(acc[k], series).Some? {
      var k :| 0 <= k < |acc| && ValueOf(acc[k], series).Some?;
      SeriesMembers(acc, series, ValueOf(acc[k], series).value);
    }
    if |SeriesOf(acc, series)| > 0 {
      SeriesMembers(acc, series, SeriesOf(acc, series)[0]);
    }
  }

  lemma RangeOfSeries(acc: seq<Accepted>, series: Series)
    ensures ReportsRange(RangeOf(SeriesOf(acc, series)), acc, series)
  {
    var xs := SeriesOf(acc, series);
    var r := RangeOf(xs);
    SeriesPresent(acc, series);
    if r.Some? {
      var lo :| 0 <= lo < |xs| && r.value.lo == RoundTenth(xs[lo]) && forall j :: 0 <= j < |xs| ==> xs[lo] <= xs[j];
      LeastOfSeries(acc, series, xs[lo]);
      var hi :| 0 <= hi < |xs| && r.value.hi == RoundTenth(xs[hi]) && forall j :: 0 <= j < |xs| ==> xs[j] <= xs[hi];
      GreatestOfSeries(acc, series, xs[hi]);
    }
  }

  /** The patch's pair of one series. */
  function PairOf(p: Patch, series: Series): Option<Range> {
    match series
    case TempF => p.temp
    case WindMph => p.wind
    case SnowIn => p.snow
  }

  /** A patch's pairs are the ranges of the collected lists. */
  lemma DerivePairs(ms: seq<Metar>, lon: JsValue, date: JsValue, meanDeg: seq<real> -> real, series: Series)
    requires MeanInRange(meanDeg)
    requires Derive(ms, lon, date, meanDeg).0.Some?
    ensures var acc := AcceptedOf(ms, date, ApproxUtcOffsetHoursFromLon(lon));
            PairOf(Derive(ms, lon, date, meanDeg).0.value, series) == RangeOf(SeriesOf(acc, series))
  {
  }

  /** The patch's three pairs (`tempMinF`/`tempMaxF`, `windMinMph`/`windMaxMph`,
      `snowMinIn`/`snowMaxIn`) are the rounded extremes of the values the
      observations of the count day give. */
  lemma DeriveRanges(ms: seq<Metar>, lon: JsValue, date: JsValue, meanDeg: seq<real> -> real, series: Series)
    requires MeanInRange(meanDeg)
    requires Derive(ms, lon, date, meanDeg).0.Some?
    ensures ReportsRange(PairOf(Derive(ms, lon, date, meanDeg).0.value, series),
                         AcceptedOf(ms, date, ApproxUtcOffsetHoursFromLon(lon)), series)
  {
    DerivePairs(ms, lon, date, meanDeg, series);
    RangeOfSeries(AcceptedOf(ms, date, ApproxUtcOffsetHoursFromLon(lon)), series);
  }

  /** No patch and a zero count exactly when no observation falls inside the
      local count day (an empty batch included); otherwise `used` is the
      number that do. */
  lemma DeriveUsed(ms: seq<Metar>, lon: JsValue, date: JsValue, meanDeg: seq<real> -> real)
    requires MeanInRange(meanDeg)
    ensures var off := ApproxUtcOffsetHoursFromLon(lon);
            && Derive(ms, lon, date, meanDeg).1 == CountAccepted(ms, date, off)
            && (Derive(ms, lon, date, meanDeg).0.None? <==> CountAccepted(ms, date, off) == 0)
  {
    CountIsAccepted(ms, date, ApproxUtcOffsetHoursFromLon(lon));
  }

  /** The readings of the morning (or the afternoon). */
  function HalfObs(rs: seq<Reading>, morning: bool): (r: seq<Reading>)
    ensures |r| <= |rs|
  {
    if rs == [] then []
    else
      var x := rs[|rs| - 1];
      HalfObs(rs[..|rs| - 1], morning) + (if (x.hour < 12) == morning then [x] else [])
  }

  lemma HalfObsOne(rs: seq<Reading>, x: Reading, morning: bool)
    ensures HalfObs(rs + [x], morning) == HalfObs(rs, morning) + (if (x.hour < 12) == morning then [x] else [])
  {
    assert (rs + [x])[..|rs|] == rs;
  }

  predicate SomeRain(rs: seq<Reading>, lv: string) {
    exists i :: 0 <= i < |rs| && rs[i].rain == lv
  }

  predicate SomeSnow(rs: seq<Reading>, lv: string) {
    exists i :: 0 <= i < |rs| && rs[i].snow == lv
  }

  function MaxCloudRank(rs: seq<Reading>): (r: nat)
    ensures forall i :: 0 <= i < |rs| ==> CloudRank(rs[i].cloud) <= r
    ensures rs == [] ==> r == 0
  {
    if rs == [] then 0
    else
      var k := CloudRank(rs[|rs| - 1].cloud);
      var m := MaxCloudRank(rs[..|rs| - 1]);
      assert forall i :: 0 <= i < |rs| - 1 ==> rs[..|rs| - 1][i] == rs[i];
      if k > m then k else m
  }

  /** The highest rank is attained: some reading of a non-empty half-day has
      exactly that rank. */
  lemma {:induction false} MaxCloudRankAttained(rs: seq<Reading>)
    requires rs != []
    ensures exists i :: 0 <= i < |rs| && CloudRank(rs[i].cloud) == MaxCloudRank(rs)
  {
    var init := rs[..|rs| - 1];
    if init == [] {
      assert CloudRank(rs[0].cloud) == MaxCloudRank(rs);
    } else if CloudRank(rs[|rs| - 1].cloud) <= MaxCloudRank(init) {
      MaxCloudRankAttained(init);
      var i :| 0 <= i < |init| && CloudRank(init[i].cloud) == MaxCloudRank(init);
      assert rs[i] == init[i];
    }
  }

  predicate WellFormed(rs: seq<Reading>) {
    forall i :: 0 <= i < |rs| ==> rs[i].cloud in CloudLabels && rs[i].rain in Levels && rs[i].snow in Levels
  }

  lemma {:induction false} ReadingsWellFormed(acc: seq<Accepted>)
    ensures WellFormed(ReadingsOf(acc))
  {
    if acc != [] {
      ReadingsWellFormed(acc[..|acc| - 1]);
      var rs := ReadingsOf(acc);
      assert forall i :: 0 <= i < |rs| - 1 ==> rs[i] == ReadingsOf(acc[..|acc| - 1])[i];
    }
  }

  lemma SomeLevelSnoc(rs: seq<Reading>, x: Reading, lv: string)
    ensures SomeRain(rs + [x], lv) <==> SomeRain(rs, lv) || x.rain == lv
    ensures SomeSnow(rs + [x], lv) <==> SomeSnow(rs, lv) || x.snow == lv
  {
    var t := rs + [x];
    assert forall i :: 0 <= i < |rs| ==> t[i] == rs[i];
    assert t[|rs|] == x;
  }

  /** Keeping the strictly higher of None, Light and Heavy ends on the
      strongest level seen. */
  predicate IsMaxLevel(v: string, heavy: bool, light: bool) {
    && (v == "Heavy" <==> heavy)
    && (v == "Light" <==> light && !heavy)
    && (v == "None" <==> !light && !heavy)
  }

  lemma KeepMaxStep(cur: string, next: string, heavy: bool, light: bool)
    requires IsMaxLevel(cur, heavy, light)
    requires next in Levels
    ensures IsMaxLevel(KeepMax(cur, next), heavy || next == "Heavy", light || next == "Light")
  {
  }

  lemma WellFormedInit(rs: seq<Reading>)
    requires WellFormed(rs) && rs != []
    ensures WellFormed(rs[..|rs| - 1]) && rs[|rs| - 1] in rs
    ensures var x := rs[|rs| - 1]; x.cloud in CloudLabels && x.rain in Levels && x.snow in Levels
  {
    assert forall i :: 0 <= i < |rs| - 1 ==> rs[..|rs| - 1][i] == rs[i];
  }

  lemma {:induction false} HalfLevels(rs: seq<Reading>, morning: bool)
    requires WellFormed(rs)
    ensures var obs := HalfObs(rs, morning);
            && IsMaxLevel(HalfOf(rs, morning).rain, SomeRain(obs, "Heavy"), SomeRain(obs, "Light"))
            && IsMaxLevel(HalfOf(rs, morning).snow, SomeSnow(obs, "Heavy"), SomeSnow(obs, "Light"))
  {
    if rs != [] {
      var init, x := rs[..|rs| - 1], rs[|rs| - 1];
      WellFormedInit(rs);
      HalfLevels(init, morning);
      var obs0 := HalfObs(init, morning);
      assert rs == init + [x];
      HalfOne(init, x, morning);
      HalfObsOne(init, x, morning);
      if (x.hour < 12) == morning {
        SomeLevelSnoc(obs0, x, "Heavy");
        SomeLevelSnoc(obs0, x, "Light");
        KeepMaxStep(HalfOf(init, morning).rain, x.rain, SomeRain(obs0, "Heavy"), SomeRain(obs0, "Light"));
        KeepMaxStep(HalfOf(init, morning).snow, x.snow, SomeSnow(obs0, "Heavy"), SomeSnow(obs0, "Light"));
        assert HalfOf(rs, morning).rain == KeepMax(HalfOf(init, morning).rain, x.rain);
        assert HalfObs(rs, morning) == obs0 + [x];
        assert IsMaxLevel(HalfOf(rs, morning).rain, SomeRain(obs0 + [x], "Heavy"), SomeRain(obs0 + [x], "Light"));
      } else {
        assert HalfObs(rs, morning) == obs0;
        assert HalfOf(rs, morning) == HalfOf(init, morning);
      }
    }
  }

  lemma {:induction false} HalfCloudLabel(rs: seq<Reading>, morning: bool)
    requires WellFormed(rs)
    ensures HalfOf(rs, morning).cloud in CloudLabels
  {
    if rs != [] {
      var init, x := rs[..|rs| - 1], rs[|rs| - 1];
      WellFormedInit(rs);
      HalfCloudLabel(init, morning);
      assert rs == init + [x];
      HalfOne(init, x, morning);
    }
  }

  lemma MaxCloudRankSnoc(obs: seq<Reading>, x: Reading)
    ensures MaxCloudRank(obs + [x])
            == if CloudRank(x.cloud) > MaxCloudRank(obs) then CloudRank(x.cloud) else MaxCloudRank(obs)
  {
    assert (obs + [x])[..|obs|] == obs;
  }

  lemma {:induction false} HalfCloud(rs: seq<Reading>, morning: bool)
    ensures CloudRank(HalfOf(rs, morning).cloud) == MaxCloudRank(HalfObs(rs, morning))
  {
    if rs != [] {
      var init, x := rs[..|rs| - 1], rs[|rs| - 1];
      HalfCloud(init, morning);
      assert rs == init + [x];
      HalfOne(init, x, morning);
      HalfObsOne(init, x, morning);
      var h0 := HalfOf(init, morning);
      if (x.hour < 12) == morning {
        MaxCloudRankSnoc(HalfObs(init, morning), x);
        assert HalfOf(rs, morning).cloud == WorstCloud(h0.cloud, x.cloud);
      } else {
        assert HalfOf(rs, morning) == h0;
        var o := HalfObs(init, morning);
        assert o + [] == o;
        assert HalfObs(rs, morning) == o;
        assert CloudRank(h0.cloud) == MaxCloudRank(o);
      }
    }
  }

  /** Each half-day keeps the worst sky and the strongest rain and snow of its
      own observations: Heavy if any is Heavy, Light if any is Light and none
      Heavy, None otherwise; the sky label is the one of highest rank, and
      Unknown when the half has no observation. */
  lemma HalfIsWorst(acc: seq<Accepted>, morning: bool)
    ensures var rs := ReadingsOf(acc);
            var h := HalfOf(rs, morning);
            var obs := HalfObs(rs, morning);
            && CloudRank(h.cloud) == MaxCloudRank(obs) && h.cloud in CloudLabels
            && IsMaxLevel(h.rain, SomeRain(obs, "Heavy"), SomeRain(obs, "Light"))
            && IsMaxLevel(h.snow, SomeSnow(obs, "Heavy"), SomeSnow(obs, "Light"))
  {
    ReadingsWellFormed(acc);
    HalfCloud(ReadingsOf(acc), morning);
    HalfCloudLabel(ReadingsOf(acc), morning);
    HalfLevels(ReadingsOf(acc), morning);
  }

  /** Observations of the other half leave a half-day untouched. */
  lemma HalfIgnoresOtherHalf(rs: seq<Reading>, extra: Reading, morning: bool)
    requires (extra.hour < 12) != morning
    ensures HalfOf(rs + [extra], morning) == HalfOf(rs, morning)
  {
    HalfOne(rs, extra, morning);
  }

  lemma {:induction false} DegreesEmpty(ds: seq<WindDir>)
    ensures Degrees(ds) == [] <==> forall i :: 0 <= i < |ds| ==> ds[i].Vrb?
  {
    if ds != [] {
      DegreesEmpty(ds[..|ds| - 1]);
      assert forall i :: 0 <= i < |ds| - 1 ==> ds[..|ds| - 1][i] == ds[i];
    }
  }

  /** "Variable" wins over any number of numeric directions, and degrees are
      reported, within [0, 360), only when no VRB was seen and some numeric
      direction was. */
  lemma DeriveWindDirection(ms: seq<Metar>, lon: JsValue, date: JsValue, meanDeg: seq<real> -> real)
    requires MeanInRange(meanDeg)
    requires Derive(ms, lon, date, meanDeg).0.Some?
    ensures var p := Derive(ms, lon, date, meanDeg).0.value;
            var dirs := DirsOf(AcceptedOf(ms, date, ApproxUtcOffsetHoursFromLon(lon)));
            && (p.windDir == Some("Variable") <==> Vrb in dirs)
            && (p.windDir.Some? ==> p.windDirDegrees.None?)
            && (p.windDirDegrees.Some? <==> Vrb !in dirs && exists i :: 0 <= i < |dirs| && dirs[i].Deg?)
            && (p.windDirDegrees.Some? ==> 0.0 <= p.windDirDegrees.value < 360.0)
  {
    var dirs := DirsOf(AcceptedOf(ms, date, ApproxUtcOffsetHoursFromLon(lon)));
    DegreesEmpty(dirs);
  }

  /** A missing (null) temperature is read as 0 degrees Celsius and a null
      direction as 0 degrees, since `Number(null)` is 0; an absent one is
      skipped; "vrb" in any case is Variable. */
  lemma NullReadsAsZero()
    ensures CToF(Null) == Some(32.0)
    ensures CToF(Undefined) == None
    ensures DirOf(Null) == Some(Deg(0.0))
    ensures DirOf(Str("vrb")) == Some(Vrb)
  {
    assert Upper("vrb") == "VRB";
  }
}
