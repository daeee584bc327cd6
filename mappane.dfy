/** The map pane's helpers: the count date in ISO and M/D/Y form, the first
    usable property among aliases, circle tooltips, the weather stations
    around a circle with the reporting station chosen among them, the circle
    nearest the user, and the METAR request for the count day. */
module MapPane {
  import opened Wrappers
  import opened Js
  import opened Text
  import opened Civil
  import opened Sorting
  import opened AviationWeather
  import opened Geo

  // ---------------------------------------------------------------------
  // Count-date text

  /** The text before the first `c` and the text after it. */
  function SplitFirst(s: string, c: char): (r: Option<(string, string)>)
    ensures r.Some? ==> s == r.value.0 + [c] + r.value.1 && c !in r.value.0
    ensures r.None? ==> c !in s
  {
    if s == [] then None
    else if s[0] == c then Some(([], s[1..]))
    else match SplitFirst(s[1..], c)
      case Some((a, b)) => Some(([s[0]] + a, b))
      case None => None
  }

  lemma {:induction false} SplitFirstOf(a: string, c: char, b: string)
    requires c !in a
    ensures SplitFirst(a + [c] + b, c) == Some((a, b))
  {
    if a != [] {
      assert (a + [c] + b)[1..] == a[1..] + [c] + b;
      SplitFirstOf(a[1..], c, b);
      assert [a[0]] + a[1..] == a;
    } else {
      assert a + [c] + b == [c] + b;
    }
  }

  /** The text before the first `c`, between it and the second, and after,
      when `c` occurs at least twice. */
  function Groups3(s: string, c: char): (r: Option<(string, string, string)>)
    ensures r.Some? ==> s == r.value.0 + [c] + r.value.1 + [c] + r.value.2
  {
    match SplitFirst(s, c)
    case None => None
    case Some((a, rest)) =>
      match SplitFirst(rest, c)
      case None => None
      case Some((b, t)) => Some((a, b, t))
  }

  /** The pieces of three texts joined by a separator character. */
  lemma Joined3(a: string, b: string, t: string, c: char)
    ensures var s := a + [c] + b + [c] + t;
            && s[..|a|] == a && s[|a|] == c && s[|a| + 1..|a| + 1 + |b|] == b
            && s[|a| + 1 + |b|] == c && s[|a| + |b| + 2..] == t
  {
  }

  /** A text cut at two positions and joined again. */
  lemma Rejoined3(s: string, i: nat, j: nat)
    requires i < j < |s|
    ensures s == s[..i] + [s[i]] + s[i + 1..j] + [s[j]] + s[j + 1..]
  {
  }

  lemma IsoSplit(s: string)
    requires IsoDateShape(s)
    ensures s == s[..4] + "-" + s[5..7] + "-" + s[8..]
  {
    Rejoined3(s, 4, 7);
  }

  /** Three digit runs joined by a non-digit separator are split back apart. */
  lemma Groups3Of(a: string, b: string, t: string, c: char)
    requires AllDigits(a) && AllDigits(b) && !IsDigit(c)
    ensures Groups3(a + [c] + b + [c] + t, c) == Some((a, b, t))
  {
    assert c !in a && c !in b;
    assert a + [c] + b + [c] + t == a + [c] + (b + [c] + t);
    SplitFirstOf(a, c, b + [c] + t);
    SplitFirstOf(b, c, t);
  }

  /** The groups of `^(\d{1,2})\/(\d{1,2})\/(\d{2,4})$`. */
  predicate MdyGroups(m: string, d: string, y: string) {
    && 1 <= |m| <= 2 && 1 <= |d| <= 2 && 2 <= |y| <= 4
    && AllDigits(m) && AllDigits(d) && AllDigits(y)
  }

  /** A match of that pattern, as month, day and year groups. */
  function MdyParts(s: string): (r: Option<(string, string, string)>)
    ensures r.Some? ==> MdyGroups(r.value.0, r.value.1, r.value.2)
                        && s == r.value.0 + "/" + r.value.1 + "/" + r.value.2
  {
    match Groups3(s, '/')
    case Some((m, d, y)) => if MdyGroups(m, d, y) then Some((m, d, y)) else None
    case None => None
  }

  lemma MdyPartsOf(m: string, d: string, y: string)
    requires MdyGroups(m, d, y)
    ensures MdyParts(m + "/" + d + "/" + y) == Some((m, d, y))
  {
    Groups3Of(m, d, y, '/');
  }

  /** Year groups below 100 are read as years 2000 to 2099. */
  function FullYear(y: nat): nat {
    if y < 100 then 2000 + y else y
  }

  /** `${yy}-${pad2(mm)}-${pad2(dd)}` */
  function IsoText(y: nat, m: nat, d: nat): string {
    NatToString(y) + "-" + Pad2(m) + "-" + Pad2(d)
  }

  /** Three '-'-separated runs of decimal digits. */
  predicate DashDate(s: string) {
    match Groups3(s, '-')
    case Some((y, m, d)) => y != "" && m != "" && d != "" && AllDigits(y) && AllDigits(m) && AllDigits(d)
    case None => false
  }

  lemma IsoIsDashDate(s: string)
    requires IsoDateShape(s)
    ensures Groups3(s, '-') == Some((s[..4], s[5..7], s[8..]))
    ensures DashDate(s)
  {
    IsoSplit(s);
    Groups3Of(s[..4], s[5..7], s[8..], '-');
  }

  /** The count date `normalizeDateToIso` reads from trimmed text: ISO text
      as it is, `M/D/Y` rewritten, anything else "". Digit groups always read
      as finite numbers, so the finiteness test never fails; month and day
      ranges are not checked. */
  function NormalizeDateText(s0: string): (r: string)
    ensures Trim(s0) == "" ==> r == ""
    ensures IsoDateShape(Trim(s0)) ==> r == Trim(s0)
    ensures r != "" ==> DashDate(r)
    ensures r != "" <==> IsoDateShape(Trim(s0)) || MdyParts(Trim(s0)).Some?
  {
    var s := Trim(s0);
    if s == "" then ""
    else if IsoDateShape(s) then
      IsoIsDashDate(s);
      s
    else match MdyParts(s)
      case Some((m, d, y)) =>
        var r := IsoText(FullYear(DigitsValue(y)), DigitsValue(m), DigitsValue(d));
        Groups3Of(NatToString(FullYear(DigitsValue(y))), Pad2(DigitsValue(m)), Pad2(DigitsValue(d)), '-');
        r
      case None => ""
  }

  /** `normalizeDateToIso(raw)`: `String(raw || '')` of anything but a
      string is "" or the text of a number or `true`, which has neither
      date shape, so only strings give a date. */
  function NormalizeDateToIso(raw: JsValue): (r: string)
    ensures !raw.Str? ==> r == ""
    ensures raw.Str? ==> r == NormalizeDateText(raw.s)
    ensures r != "" ==> DashDate(r)
  {
    match raw
    case Str(s) => NormalizeDateText(s)
    case _ => ""
  }

  lemma IsoTrimmed(s: string)
    requires IsoDateShape(s)
    ensures Trim(s) == s
  {
    assert IsDigit(s[0]) && IsDigit(s[9]);
    TrimOfTrimmed(s);
  }

  lemma MdyTrimmed(m: string, d: string, y: string)
    requires MdyGroups(m, d, y)
    ensures Trim(m + "/" + d + "/" + y) == m + "/" + d + "/" + y
    ensures !IsoDateShape(m + "/" + d + "/" + y)
  {
    var s := m + "/" + d + "/" + y;
    assert s[0] == m[0] && IsDigit(s[0]);
    assert s[|s| - 1] == y[|y| - 1] && IsDigit(s[|s| - 1]);
    TrimOfTrimmed(s);
    assert s[|m|] == '/';
    if |s| == 10 {
      assert !IsDigit(s[..4][|m|]);
    }
  }

  /** `M/D/Y` text is rewritten with the year widened and month and day
      padded to two digits. */
  lemma NormalizeMdy(m: string, d: string, y: string)
    requires MdyGroups(m, d, y)
    ensures NormalizeDateText(m + "/" + d + "/" + y)
            == IsoText(FullYear(DigitsValue(y)), DigitsValue(m), DigitsValue(d))
  {
    MdyTrimmed(m, d, y);
    MdyPartsOf(m, d, y);
  }

  /** With a full year of four digits the rewritten text is an ISO date of
      that year, month and day. */
  lemma IsoTextShape(y: nat, m: nat, d: nat)
    requires 1000 <= y <= 9999 && m < 100 && d < 100
    ensures var r := IsoText(y, m, d);
            IsoDateShape(r) && IsoYear(r) == y && IsoMonth(r) == m && IsoDay(r) == d
  {
    NatToStringLength(y, 3);
    NatToStringValue(y);
    var r := IsoText(y, m, d);
    assert r[..4] == NatToString(y);
    assert r[5..7] == Pad2(m);
    assert r[8..] == Pad2(d);
  }

  /** Every `M/D/Y` year group except three-digit years 100 to 999 gives ISO text. */
  lemma MdyGivesIso(m: string, d: string, y: string)
    requires MdyGroups(m, d, y) && !(100 <= DigitsValue(y) < 1000)
    ensures var r := NormalizeDateText(m + "/" + d + "/" + y);
            IsoDateShape(r) && IsoYear(r) == FullYear(DigitsValue(y))
            && IsoMonth(r) == DigitsValue(m) && IsoDay(r) == DigitsValue(d)
  {
    NormalizeMdy(m, d, y);
    Pow10Monotone(|y|, 4);
    Pow10Monotone(|m|, 2);
    Pow10Monotone(|d|, 2);
    assert Pow10(4) == 10000 && Pow10(2) == 100;
    IsoTextShape(FullYear(DigitsValue(y)), DigitsValue(m), DigitsValue(d));
  }

  /** A three-digit year 100 to 999 is kept as it is, and the text is one
      character short of an ISO date. */
  lemma ThreeDigitYear(m: string, d: string, y: string)
    requires MdyGroups(m, d, y) && 100 <= DigitsValue(y) < 1000
    ensures !IsoDateShape(NormalizeDateText(m + "/" + d + "/" + y))
  {
    NormalizeMdy(m, d, y);
    NatToStringLength(DigitsValue(y), 2);
  }

  /** `formatIsoToMdy(iso)`: ISO text, trimmed, rewritten as `MM/DD/YYYY`;
      anything else "". */
  function FormatIsoToMdy(iso: JsValue): (r: string)
    ensures r != "" <==> iso.Str? && IsoDateShape(Trim(iso.s))
    ensures r != "" ==> var s := Trim(iso.s); MdyParts(r) == Some((s[5..7], s[8..], s[..4]))
  {
    match iso
    case Str(s0) =>
      var s := Trim(s0);
      if IsoDateShape(s) then
        MdyPartsOf(s[5..7], s[8..], s[..4]);
        s[5..7] + "/" + s[8..] + "/" + s[..4]
      else ""
    case _ => ""
  }

  /** A four-digit year group from 1000 is the text of its own value. */
  lemma YearTextOf(y: string)
    requires |y| == 4 && AllDigits(y) && DigitsValue(y) >= 1000
    ensures NatToString(DigitsValue(y)) == y
  {
    if y[0] == '0' {
      LeadingZeroValue(y);
    }
    NatToStringOfDigits(y);
  }

  /** Groups already in ISO width are written back as they came. */
  lemma IsoTextOfGroups(y: string, m: string, d: string)
    requires |y| == 4 && |m| == 2 && |d| == 2 && AllDigits(y) && AllDigits(m) && AllDigits(d)
    requires DigitsValue(y) >= 1000
    ensures IsoText(FullYear(DigitsValue(y)), DigitsValue(m), DigitsValue(d)) == y + "-" + m + "-" + d
  {
    YearTextOf(y);
    Pad2OfDigits(m);
    Pad2OfDigits(d);
  }

  /** The M/D/Y text of an ISO date, and what reading it back gives. */
  lemma IsoToMdyAndBack(s: string)
    requires IsoDateShape(s)
    ensures FormatIsoToMdy(Str(s)) == s[5..7] + "/" + s[8..] + "/" + s[..4]
    ensures NormalizeDateToIso(Str(FormatIsoToMdy(Str(s))))
            == IsoText(FullYear(IsoYear(s)), IsoMonth(s), IsoDay(s))
  {
    IsoTrimmed(s);
    assert MdyGroups(s[5..7], s[8..], s[..4]);
    NormalizeMdy(s[5..7], s[8..], s[..4]);
  }

  /** Years below 1000 do not come back: below 100 they read as 2000 to 2099,
      from 100 the leading zero is lost. */
  lemma SmallYearChanges(s: string)
    requires IsoDateShape(s) && IsoYear(s) < 1000
    ensures IsoText(FullYear(IsoYear(s)), IsoMonth(s), IsoDay(s)) != s
  {
    var r := IsoText(FullYear(IsoYear(s)), IsoMonth(s), IsoDay(s));
    if IsoYear(s) < 100 {
      var t := NatToString(2000 + IsoYear(s));
      NatToStringLength(2000 + IsoYear(s), 3);
      NatToStringValue(2000 + IsoYear(s));
      assert r[..4] == t;
      assert DigitsValue(r[..4]) != DigitsValue(s[..4]);
    } else {
      NatToStringLength(IsoYear(s), 2);
      assert |r| == 9;
    }
  }

  /** An ISO date survives the trip to `MM/DD/YYYY` and back exactly when its
      year is at least 1000. */
  lemma IsoRoundTrip(s: string)
    requires IsoDateShape(s)
    ensures NormalizeDateToIso(Str(FormatIsoToMdy(Str(s)))) == s <==> IsoYear(s) >= 1000
  {
    IsoToMdyAndBack(s);
    if IsoYear(s) >= 1000 {
      IsoTextOfGroups(s[..4], s[5..7], s[8..]);
      IsoSplit(s);
    } else {
      SmallYearChanges(s);
    }
  }

  /** Two-digit month and day with a four-digit year from 1000 survive the
      trip to ISO and back. */
  lemma MdyRoundTrip(m: string, d: string, y: string)
    requires |m| == 2 && |d| == 2 && |y| == 4 && AllDigits(m) && AllDigits(d) && AllDigits(y)
    requires DigitsValue(y) >= 1000
    ensures FormatIsoToMdy(Str(NormalizeDateToIso(Str(m + "/" + d + "/" + y)))) == m + "/" + d + "/" + y
  {
    assert MdyGroups(m, d, y);
    NormalizeMdy(m, d, y);
    IsoTextOfGroups(y, m, d);
    var r := y + "-" + m + "-" + d;
    assert NormalizeDateToIso(Str(m + "/" + d + "/" + y)) == r;
    Joined3(y, m, d, '-');
    assert IsoDateShape(r);
    IsoTrimmed(r);
  }

  // ---------------------------------------------------------------------
  // First usable alias

  /** A value `pick` accepts: neither null nor undefined, and not blank once
      printed (the text of a number or a boolean is never blank). */
  predicate Usable(v: JsValue) {
    !Nullish(v) && (v.Str? ==> Trim(v.s) != "")
  }

  /** `pick(props, keys)`: the value of the first key whose value is usable,
      else null. A missing `props` object behaves as an empty one. */
  method Pick(props: map<string, JsValue>, keys: seq<string>) returns (r: JsValue)
    ensures r == Null <==> forall i :: 0 <= i < |keys| ==> !Usable(Lookup(props, keys[i]))
    ensures r != Null ==> exists i :: 0 <= i < |keys| && r == Lookup(props, keys[i]) && Usable(r)
                                      && forall j :: 0 <= j < i ==> !Usable(Lookup(props, keys[j]))
  {
    for i := 0 to |keys|
      invariant forall j :: 0 <= j < i ==> !Usable(Lookup(props, keys[j]))
    {
      var v := Lookup(props, keys[i]);
      if Usable(v) {
        return v;
      }
    }
    return Null;
  }

  // ---------------------------------------------------------------------
  // Circle tooltip

  /** The properties the tooltip reads; "" stands for a property that is
      missing, null or empty, which the code treats alike. */
  datatype CircleProps = CircleProps(name: string, abbrev: string, countDate: string,
                                     dateLabel: string, date: string)

  /** `props.Name || props.Abbrev || 'CBC Circle'` */
  function TooltipName(p: CircleProps): (r: string)
    ensures r != ""
  {
    if p.name != "" then p.name else if p.abbrev != "" then p.abbrev else "CBC Circle"
  }

  /** The first non-empty of `Count_Date`, `date_label` and `date`, else "". */
  function TooltipCount(p: CircleProps): string {
    if p.countDate != "" then p.countDate else if p.dateLabel != "" then p.dateLabel else p.date
  }

  predicate ShowsAbbrev(p: CircleProps) {
    p.abbrev != "" && p.abbrev != TooltipName(p)
  }

  const Bullet := "\U{2022} "

  /** `formatCbcTooltip(props)`: the name, then `(abbrev)` when the code is
      present and not the name itself, then `• count` when there is a count
      date, joined by spaces. */
  function FormatCbcTooltip(p: CircleProps): (r: string)
    ensures r == TooltipName(p) + TooltipSuffix(p)
    ensures StartsWith(r, TooltipName(p))
    ensures ShowsAbbrev(p) <==> StartsWith(r[|TooltipName(p)|..], " (")
    ensures r == TooltipName(p) <==> !ShowsAbbrev(p) && TooltipCount(p) == ""
  {
    var name := TooltipName(p);
    var count := TooltipCount(p);
    var ab := if ShowsAbbrev(p) then ["(" + p.abbrev + ")"] else [];
    var ct := if count != "" then [Bullet + count] else [];
    JoinTooltip(name, p.abbrev, count, ShowsAbbrev(p));
    var r := Join([name] + ab + ct, " ");
    StartsWithConcat(name, TooltipSuffix(p));
    assert r[|name|..] == TooltipSuffix(p);
    r
  }

  /** Joining the name, the optional `(abbrev)` and the optional `• count`
      with spaces puts one space before each part that is present. */
  lemma JoinTooltip(name: string, abbrev: string, count: string, show: bool)
    ensures Join([name] + (if show then ["(" + abbrev + ")"] else [])
                 + (if count != "" then [Bullet + count] else []), " ")
            == name + ((if show then " (" + abbrev + ")" else "")
                       + (if count != "" then " " + Bullet + count else ""))
  {
    var ab := if show then ["(" + abbrev + ")"] else [];
    var ct := if count != "" then [Bullet + count] else [];
    var x := if show then " (" + abbrev + ")" else "";
    var y := if count != "" then " " + Bullet + count else "";
    if show {
      assert " " + ab[0] == x;
    }
    if count != "" {
      assert " " + ct[0] == y;
    }
    JoinOptionalParts(name, ab, ct, x, y);
  }

  /** The text after the name: ` (abbrev)` first, then ` • count`; it starts
      with " (" exactly when the code is shown. */
  function TooltipSuffix(p: CircleProps): (r: string)
    ensures ShowsAbbrev(p) <==> StartsWith(r, " (")
    ensures r == "" <==> !ShowsAbbrev(p) && TooltipCount(p) == ""
  {
    var r := (if ShowsAbbrev(p) then " (" + p.abbrev + ")" else "")
             + (if TooltipCount(p) != "" then " " + Bullet + TooltipCount(p) else "");
    assert ShowsAbbrev(p) ==> r[..2] == " (";
    assert !ShowsAbbrev(p) && TooltipCount(p) != "" ==> r[1] == Bullet[0];
    r
  }

  // ---------------------------------------------------------------------
  // Stations around the selected circle

  const StationRadiusMiles := 15.0
  /** `km * 0.621371` */
  function KmToMiles(km: real): real {
    km * 0.621371
  }

  /** A feature of the station-information query as the loop reads it:
      `icaoId` and `site` are the texts of string properties ("" when
      absent), `siteType` the site-type array ([] when it is not an array)
      and `point` the coordinate array of a Point geometry, whose entries
      are JSON numbers. */
  datatype StationFeature = StationFeature(icaoId: string, site: string, siteType: seq<string>,
                                           point: Option<seq<JsNumber>>)

  /** An entry of the station list, with its distance in miles. */
  datatype Station = Station(icaoId: string, site: string, siteType: seq<string>,
                             lat: real, lon: real, miles: real)

  /** `Number(coords[i])` when it is a finite number; a missing entry is
      `undefined`, which converts to NaN. */
  function Coordinate(coords: seq<JsNumber>, i: nat): Option<real> {
    if i < |coords| && coords[i].Finite? then Some(coords[i].r) else None
  }

  /** The station a feature contributes, if any. `kmTo(lat, lon)` is the
      great-circle distance from the circle centre in kilometres, None when
      it is not a finite number. */
  function StationOf(f: StationFeature, kmTo: (real, real) -> Option<real>): (r: Option<Station>)
    ensures r.Some? ==> r.value.icaoId == Trim(f.icaoId) && r.value.icaoId != ""
    ensures r.Some? ==> r.value.miles <= StationRadiusMiles
    ensures r.Some? ==> f.point.Some? && Coordinate(f.point.value, 1) == Some(r.value.lat)
                        && Coordinate(f.point.value, 0) == Some(r.value.lon)
                        && kmTo(r.value.lat, r.value.lon).Some?
                        && r.value.miles == KmToMiles(kmTo(r.value.lat, r.value.lon).value)
  {
    var icao := Trim(f.icaoId);
    if icao == "" || f.point.None? then None
    else
      var lat, lon := Coordinate(f.point.value, 1), Coordinate(f.point.value, 0);
      if lat.None? || lon.None? then None
      else match kmTo(lat.value, lon.value)
        case None => None
        case Some(km) =>
          var miles := KmToMiles(km);
          if miles > StationRadiusMiles then None
          else Some(Station(icao, Trim(f.site), f.siteType, lat.value, lon.value, miles))
  }

  /** Conversely, a feature with an id, finite coordinates and a finite
      distance within 15 miles contributes its station. */
  lemma StationOfQualifying(f: StationFeature, kmTo: (real, real) -> Option<real>, lat: real, lon: real, km: real)
    requires Trim(f.icaoId) != "" && f.point.Some?
    requires Coordinate(f.point.value, 1) == Some(lat) && Coordinate(f.point.value, 0) == Some(lon)
    requires kmTo(lat, lon) == Some(km) && KmToMiles(km) <= StationRadiusMiles
    ensures StationOf(f, kmTo) == Some(Station(Trim(f.icaoId), Trim(f.site), f.siteType, lat, lon, KmToMiles(km)))
  {
  }

  /** What each feature contributes. */
  function Outcomes(fs: seq<StationFeature>, kmTo: (real, real) -> Option<real>): (r: seq<Option<Station>>)
    ensures |r| == |fs| && forall i :: 0 <= i < |fs| ==> r[i] == StationOf(fs[i], kmTo)
  {
    seq(|fs|, i requires 0 <= i < |fs| => StationOf(fs[i], kmTo))
  }

  /** The stations the features contribute, in feature order. */
  function KeptStations(fs: seq<StationFeature>, kmTo: (real, real) -> Option<real>): (r: seq<Station>)
    ensures |r| <= |fs|
    ensures forall i :: 0 <= i < |r| ==> r[i].icaoId != "" && r[i].miles <= StationRadiusMiles
  {
    var os := Outcomes(fs, kmTo);
    var r := Somes(os);
    forall i | 0 <= i < |r| ensures r[i].icaoId != "" && r[i].miles <= StationRadiusMiles {
      SomesMembers(os, r[i]);
    }
    r
  }

  /** One more feature adds its station, if any, at the end. */
  lemma KeptSnoc(fs: seq<StationFeature>, kmTo: (real, real) -> Option<real>, n: nat)
    requires n < |fs|
    ensures KeptStations(fs[..n + 1], kmTo)
            == KeptStations(fs[..n], kmTo) + (if StationOf(fs[n], kmTo).Some? then [StationOf(fs[n], kmTo).value] else [])
  {
    assert Outcomes(fs[..n + 1], kmTo) == Outcomes(fs[..n], kmTo) + [StationOf(fs[n], kmTo)];
    SomesSnoc(Outcomes(fs[..n], kmTo), StationOf(fs[n], kmTo));
  }

  /** A station is kept exactly when some feature contributes it. */
  lemma KeptStationsMembers(fs: seq<StationFeature>, kmTo: (real, real) -> Option<real>, st: Station)
    ensures st in KeptStations(fs, kmTo) <==> exists i :: 0 <= i < |fs| && StationOf(fs[i], kmTo) == Some(st)
  {
    var os := Outcomes(fs, kmTo);
    SomesMembers(os, st);
    if Some(st) in os {
      var i :| 0 <= i < |os| && os[i] == Some(st);
      assert StationOf(fs[i], kmTo) == Some(st);
    }
  }

  /** The checks of one turn of the station loop: `None` where the loop
      continues without pushing. */
  method CheckFeature(f: StationFeature, kmTo: (real, real) -> Option<real>) returns (o: Option<Station>)
    ensures o == StationOf(f, kmTo)
  {
    var icaoId := Trim(f.icaoId);
    var site := Trim(f.site);
    o := None;
    if icaoId != "" && f.point.Some? {
      var lon := Coordinate(f.point.value, 0);
      var lat := Coordinate(f.point.value, 1);
      if lat.Some? && lon.Some? {
        var km := kmTo(lat.value, lon.value);
        if km.Some? && KmToMiles(km.value) <= StationRadiusMiles {
          StationOfQualifying(f, kmTo, lat.value, lon.value, km.value);
          o := Some(Station(icaoId, site, f.siteType, lat.value, lon.value, KmToMiles(km.value)));
        }
      }
    }
  }

  /** The station loop: features without an id, without finite coordinates
      or farther than 15 miles are skipped, the rest pushed in order. */
  method CollectStations(features: seq<StationFeature>, kmTo: (real, real) -> Option<real>)
    returns (items: seq<Station>)
    ensures items == KeptStations(features, kmTo)
  {
    items := [];
    for i := 0 to |features|
      invariant items == KeptStations(features[..i], kmTo)
    {
      KeptSnoc(features, kmTo, i);
      var o := CheckFeature(features[i], kmTo);
      if o.Some? {
        items := items + [o.value];
      }
    }
    assert features[..|features|] == features;
  }

  /** `(a, b) => a.miles - b.miles` */
  predicate ByMiles(a: Station, b: Station) {
    a.miles <= b.miles
  }

  lemma ByMilesPreorder()
    ensures TotalPreorder(ByMiles)
  {
  }

  /** `String(t || '').toLowerCase().includes('metar')` for some site type. */
  predicate HasMetar(st: Station) {
    exists i :: 0 <= i < |st.siteType| && Contains(Lower(st.siteType[i]), "metar")
  }

  /** `items.find(stationHasMetar)` as an index. */
  function FirstMetar(xs: seq<Station>): (r: Option<nat>)
    ensures r.Some? ==> r.value < |xs| && HasMetar(xs[r.value])
                        && forall j :: 0 <= j < r.value ==> !HasMetar(xs[j])
    ensures r.None? ==> forall j :: 0 <= j < |xs| ==> !HasMetar(xs[j])
  {
    if xs == [] then None
    else if HasMetar(xs[0]) then Some(0)
    else match FirstMetar(xs[1..])
      case Some(k) => Some(k + 1)
      case None => None
  }

  /** `items.find(stationHasMetar) || items[0] || null` */
  function NearestStation(xs: seq<Station>): (r: Option<Station>)
    ensures r.None? <==> xs == []
    ensures r.Some? ==> r.value in xs
    ensures r.Some? && !HasMetar(r.value) ==> r.value == xs[0] && forall j :: 0 <= j < |xs| ==> !HasMetar(xs[j])
    ensures r.Some? && HasMetar(r.value) ==>
              exists k :: 0 <= k < |xs| && xs[k] == r.value && forall j :: 0 <= j < k ==> !HasMetar(xs[j])
  {
    match FirstMetar(xs)
    case Some(k) => Some(xs[k])
    case None => if xs == [] then None else Some(xs[0])
  }

  /** The station list the pane shows: the kept stations, nearest first. */
  function StationList(fs: seq<StationFeature>, kmTo: (real, real) -> Option<real>): seq<Station> {
    SortBy(KeptStations(fs, kmTo), ByMiles)
  }

  /** The loop, the sort and the choice of the reporting station. */
  method SelectStations(features: seq<StationFeature>, kmTo: (real, real) -> Option<real>)
    returns (stations: seq<Station>, nearest: Option<Station>)
    ensures stations == StationList(features, kmTo)
    ensures SortedBy(stations, ByMiles)
    ensures multiset(stations) == multiset(KeptStations(features, kmTo))
    ensures nearest == NearestStation(stations)
  {
    var items := CollectStations(features, kmTo);
    ByMilesPreorder();
    SortBySorted(items, ByMiles);
    stations := SortBy(items, ByMiles);
    nearest := NearestStation(stations);
  }

  /** In a list sorted by distance the reporting station is a METAR
      station no farther than any other METAR station; without one it is
      the nearest station of all. */
  lemma SortedNearest(xs: seq<Station>)
    requires SortedBy(xs, ByMiles)
    ensures var r := NearestStation(xs);
            && (r.Some? && HasMetar(r.value) ==> forall j :: 0 <= j < |xs| && HasMetar(xs[j]) ==> r.value.miles <= xs[j].miles)
            && (r.Some? && !HasMetar(r.value) ==> forall j :: 0 <= j < |xs| ==> !HasMetar(xs[j]) && r.value.miles <= xs[j].miles)
  {
    var r := NearestStation(xs);
    if r.Some? && HasMetar(r.value) {
      var k := FirstMetar(xs).value;
      forall j | 0 <= j < |xs| && HasMetar(xs[j]) ensures r.value.miles <= xs[j].miles {
        if j != k {
          assert ByMiles(xs[k], xs[j]);
        }
      }
    }
    if r.Some? && !HasMetar(r.value) {
      forall j | 0 <= j < |xs| ensures r.value.miles <= xs[j].miles {
        if j > 0 {
          assert ByMiles(xs[0], xs[j]);
        }
      }
    }
  }

  /** So over the pane's list: the reporting station is the nearest METAR
      station, or the nearest station when none reports METARs, and there is
      none only when no station was kept. */
  lemma NearestIsClosest(fs: seq<StationFeature>, kmTo: (real, real) -> Option<real>)
    ensures var xs := StationList(fs, kmTo);
            var r := NearestStation(xs);
            && (r.None? <==> KeptStations(fs, kmTo) == [])
            && (r.Some? && HasMetar(r.value) ==> forall j :: 0 <= j < |xs| && HasMetar(xs[j]) ==> r.value.miles <= xs[j].miles)
            && (r.Some? && !HasMetar(r.value) ==> forall j :: 0 <= j < |xs| ==> !HasMetar(xs[j]) && r.value.miles <= xs[j].miles)
  {
    ByMilesPreorder();
    SortBySorted(KeptStations(fs, kmTo), ByMiles);
    SortedNearest(StationList(fs, kmTo));
  }

  // ---------------------------------------------------------------------
  // The circle nearest the user

  /** An entry of the circle-centre list: its id and coordinates as stored. */
  datatype Centre = Centre(id: string, lat: JsValue, lon: JsValue)

  /** `typeof n === 'number' && Number.isFinite(n)` */
  predicate IsFiniteNumber(v: JsValue) {
    v.Num? && v.n.Finite?
  }

  /** A centre the loop compares: finite coordinates and a distance that is
      a number. `kmFrom(lat, lon)` is the distance from the user, None when
      it is NaN, which compares false with everything. */
  predicate Ranked(c: Centre, kmFrom: (real, real) -> Option<real>) {
    IsFiniteNumber(c.lat) && IsFiniteNumber(c.lon) && kmFrom(c.lat.n.r, c.lon.n.r).Some?
  }

  function DistOf(c: Centre, kmFrom: (real, real) -> Option<real>): real
    requires Ranked(c, kmFrom)
  {
    kmFrom(c.lat.n.r, c.lon.n.r).value
  }

  /** Centre `k` is at least as near as every ranked centre and strictly
      nearer than every ranked centre before it. */
  predicate FirstNearest(items: seq<Centre>, kmFrom: (real, real) -> Option<real>, k: int) {
    && 0 <= k < |items| && Ranked(items[k], kmFrom)
    && (forall j :: 0 <= j < |items| && Ranked(items[j], kmFrom) ==> DistOf(items[k], kmFrom) <= DistOf(items[j], kmFrom))
    && (forall j :: 0 <= j < k && Ranked(items[j], kmFrom) ==> DistOf(items[k], kmFrom) < DistOf(items[j], kmFrom))
  }

  /** The auto-locate loop: a centre at least as near as every other, and
      strictly nearer than every centre before it, so the first of several
      equally near centres wins; none when no centre can be ranked. */
  method NearestCircle(items: seq<Centre>, kmFrom: (real, real) -> Option<real>) returns (best: Option<Centre>)
    ensures best.None? <==> forall j :: 0 <= j < |items| ==> !Ranked(items[j], kmFrom)
    ensures best.Some? ==>
              exists k :: FirstNearest(items, kmFrom, k) && items[k] == best.value
  {
    best := None;
    var bestDist: Option<real> := None;  // None stands for the initial Infinity
    ghost var k := 0;
    for i := 0 to |items|
      invariant best.None? <==> bestDist.None?
      invariant best.None? ==> forall j :: 0 <= j < i ==> !Ranked(items[j], kmFrom)
      invariant best.Some? ==> 0 <= k < i && items[k] == best.value && Ranked(items[k], kmFrom)
                               && bestDist == Some(DistOf(items[k], kmFrom))
      invariant best.Some? ==> forall j :: 0 <= j < i && Ranked(items[j], kmFrom) ==> bestDist.value <= DistOf(items[j], kmFrom)
      invariant best.Some? ==> forall j :: 0 <= j < k && Ranked(items[j], kmFrom) ==> bestDist.value < DistOf(items[j], kmFrom)
    {
      var c := items[i];
      if !IsFiniteNumber(c.lat) || !IsFiniteNumber(c.lon) {
        continue;
      }
      var d := kmFrom(c.lat.n.r, c.lon.n.r);
      if d.Some? && (bestDist.None? || d.value < bestDist.value) {
        bestDist := d;
        best := Some(c);
        k := i;
      }
    }
  }

  // ---------------------------------------------------------------------
  // METAR request for the count day

  const MetarLookbackHours := 30

  /** The year, month and day numbers `split('-').map(Number)` reads from a
      normalised count date. */
  function DashNumbers(s: string): (r: (nat, nat, nat))
    requires DashDate(s)
    ensures IsoDateShape(s) ==> r == (IsoYear(s), IsoMonth(s), IsoDay(s))
  {
    assert IsoDateShape(s) ==> Groups3(s, '-') == Some((s[..4], s[5..7], s[8..])) by {
      if IsoDateShape(s) { IsoIsDashDate(s); }
    }
    var (y, m, d) := Groups3(s, '-').value;
    (DigitsValue(y), DigitsValue(m), DigitsValue(d))
  }

  /** `Date.UTC(yy, mm - 1, dd, 23, 59, 59) - offsetHours * 3600 * 1000`:
      23:59:59 local time on the count date. */
  function WindowEndMs(date: string, off: int): int
    requires DashDate(date)
  {
    var t := DashNumbers(date);
    DateUtc(t.0, t.1 - 1, t.2, 23, 59, 59) - off * MS_PER_HOUR
  }

  /** For a `YYYY-MM-DD` date the window ends 86399 seconds after the UTC
      midnight the prefill clamps against, shifted by the same offset. */
  lemma WindowEndOfIso(date: string, off: int)
    requires IsoDateShape(date)
    ensures DashDate(date) && WindowEndMs(date, off) == DayStartMs(date) + 86399000 - off * MS_PER_HOUR
  {
    IsoIsDashDate(date);
    assert DashNumbers(date) == (IsoYear(date), IsoMonth(date), IsoDay(date));
    EndOfDay(IsoYear(date), IsoMonth(date) - 1, IsoDay(date));
  }

  lemma EndOfDay(y: int, m: int, d: int)
    ensures DateUtc(y, m, d, 23, 59, 59) == DateUtc(y, m, d, 0, 0, 0) + 86399000
  {
  }

  /** The query of `fetchMetarsJSON`: station ids, hours to look back, end time. */
  datatype MetarRequest = MetarRequest(ids: string, hours: int, date: string)

  /** The request the pane makes once the count date has passed: none
      without a station id or a count date. The count date is "" or a
      normalised date, as `normalizeDateToIso` returns it. */
  function MetarRequestFor(st: Option<Station>, passed: bool, countDateIso: string): (r: Option<MetarRequest>)
    requires countDateIso == "" || DashDate(countDateIso)
    ensures r.Some? <==> st.Some? && st.value.icaoId != "" && passed && countDateIso != ""
    ensures r.Some? ==> r.value.ids == st.value.icaoId && r.value.hours == MetarLookbackHours
    ensures r.Some? ==> r.value.date
                        == ToIsoString(WindowEndMs(countDateIso, ApproxUtcOffsetHoursFromLon(Num(Finite(st.value.lon)))))
  {
    if st.None? || st.value.icaoId == "" || !passed || countDateIso == "" then None
    else
      var off := ApproxUtcOffsetHoursFromLon(Num(Finite(st.value.lon)));
      Some(MetarRequest(st.value.icaoId, MetarLookbackHours, ToIsoString(WindowEndMs(countDateIso, off))))
  }

  /** Every observation of the local count day up to 23:59:59 falls inside
      the 30 hours before the window end, with the offset the prefill uses. */
  lemma WindowCoversCountDay(date: string, off: int, x: real)
    requires IsoDateShape(date)
    requires ClampToDayLocal(Num(Finite(x)), Str(date), off).Some?
    requires LocalDayMs(x, date, off) <= 86399000.0
    ensures DashDate(date)
            && var end := WindowEndMs(date, off);
               (end - MetarLookbackHours * MS_PER_HOUR) as real <= x * 1000.0 <= end as real
  {
    WindowEndOfIso(date, off);
    assert 0.0 <= LocalDayMs(x, date, off);
  }

  // ---------------------------------------------------------------------
  // Wind direction in the station prefill

  /** A numeric wind direction in the patch is replaced by its compass
      point; `|| 'Unknown'` never applies, since a finite direction always
      has a label. Every other field is kept. */
  function CompassPatch(p: Patch): (r: Patch)
    ensures p.windDirDegrees.None? ==> r == p
    ensures p.windDirDegrees.Some? ==> r == p.(windDir := Some(Dir16(Num(Finite(p.windDirDegrees.value)))),
                                               windDirDegrees := None)
    ensures p.windDirDegrees.Some? ==> r.windDir.value in Labels16
  {
    match p.windDirDegrees
    case Some(deg) =>
      var l := Dir16(Num(Finite(deg)));
      Dir16Label(Num(Finite(deg)));
      p.(windDir := Some(if l == "" then "Unknown" else l), windDirDegrees := None)
    case None => p
  }
}
