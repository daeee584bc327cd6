/** The build script of the circle dataset: local overrides merged into each
    circle record, private fields dropped, records without usable coordinates
    skipped, the count date labelled, and the layer read page by page. */
module DownloadCbc {
  import opened Wrappers
  import opened Js
  import opened Text
  import opened AviationWeather
  import MapPane

  /** The record fields that never reach the dataset. */
  const DropFieldNames: set<string> := {
    "FirstName", "LastName", "EmailAddress", "Phone", "PhoneNumber", "IsPrimary",
    "ParticipantEnrollmentStatus", "Circle_id", "Circle_id_1", "Circle_code",
    "Description", "Comments"
  }

  type Attrs = map<string, JsValue>

  // ---------------------------------------------------------------------
  // Dates

  /** `toMdy(iso)`: `MM/DD/YYYY` for an ISO date, "Unknown" otherwise. */
  function ToMdy(iso: string): (r: string)
    ensures r == "Unknown" <==> !IsoDateShape(Trim(iso))
    ensures r != "Unknown" ==> r == MapPane.FormatIsoToMdy(Str(iso))
  {
    var s := Trim(iso);
    if !IsoDateShape(s) then "Unknown"
    else
      assert |s[5..7] + "/" + s[8..] + "/" + s[..4]| == 10;
      s[5..7] + "/" + s[8..] + "/" + s[..4]
  }

  /** The label reads back as the same date in the application for years
      from 1000 on. */
  lemma ToMdyRoundTrip(s: string)
    requires IsoDateShape(s) && IsoYear(s) >= 1000
    ensures MapPane.NormalizeDateToIso(Str(ToMdy(s))) == s
  {
    MapPane.IsoRoundTrip(s);
  }

  /** The trimmed `Cnt_dt` when it is an ISO date. A value that is not a
      string is never one: the text of a number or a boolean has no such
      shape. */
  function IsoOf(v: JsValue): (r: Option<string>)
    ensures r.Some? <==> v.Str? && IsoDateShape(Trim(v.s))
    ensures r.Some? ==> r.value == Trim(v.s)
  {
    if v.Str? && IsoDateShape(Trim(v.s)) then Some(Trim(v.s)) else None
  }

  // ---------------------------------------------------------------------
  // Overrides and dropped fields

  /** `applyOverrides(attrs, overrides)`: the override of the circle's
      trimmed code, when there is one, wins key by key over the record. */
  function ApplyOverrides(attrs: Attrs, overrides: map<string, Attrs>): (r: Attrs)
    ensures var a := Lookup(attrs, "Abbrev");
            !(a.Str? && Trim(a.s) != "" && Trim(a.s) in overrides) ==> r == attrs
    ensures var a := Lookup(attrs, "Abbrev");
            a.Str? && Trim(a.s) != "" && Trim(a.s) in overrides ==>
              && r.Keys == attrs.Keys + overrides[Trim(a.s)].Keys
              && (forall k :: k in r ==>
                    r[k] == if k in overrides[Trim(a.s)] then overrides[Trim(a.s)][k] else attrs[k])
  {
    var a := Lookup(attrs, "Abbrev");
    if a.Str? && Trim(a.s) != "" && Trim(a.s) in overrides then attrs + overrides[Trim(a.s)]
    else attrs
  }

  /** The record without the dropped fields. */
  function Dropped(attrs: Attrs): Attrs {
    map k | k in attrs && k !in DropFieldNames :: attrs[k]
  }

  /** `dropFields(attrs)`, entry by entry. */
  method DropFields(attrs: Attrs) returns (out: Attrs)
    ensures out.Keys == attrs.Keys - DropFieldNames
    ensures forall k :: k in out ==> out[k] == attrs[k]
    ensures out == Dropped(attrs)
  {
    out := map[];
    var rest := attrs.Keys;
    while rest != {}
      invariant rest <= attrs.Keys
      invariant out.Keys == (attrs.Keys - rest) - DropFieldNames
      invariant forall k :: k in out ==> out[k] == attrs[k]
      decreases |rest|
    {
      var k :| k in rest;
      if k !in DropFieldNames {
        out := out[k := attrs[k]];
      }
      rest := rest - {k};
    }
  }

  // ---------------------------------------------------------------------
  // One feature

  /** A dataset feature: its properties and its point. */
  datatype Feature = Feature(properties: Attrs, lon: real, lat: real)

  /** The feature built from one record (`f?.attributes || {}`), or `None`
      when its latitude or longitude is not a finite number. */
  function FeatureOf(attributes: Option<Attrs>, overrides: map<string, Attrs>): Option<Feature> {
    FeatureFrom(Dropped(ApplyOverrides(attributes.GetOr(map[]), overrides)))
  }

  /** The feature of a record whose fields are already merged and dropped. */
  function FeatureFrom(attrs: Attrs): Option<Feature> {
    var lat := ToNumber(Lookup(attrs, "Latitude"));
    var lon := ToNumber(Lookup(attrs, "Longitude"));
    if !lat.Finite? || !lon.Finite? then None
    else Some(Feature(Dated(attrs), lon.r, lat.r))
  }

  /** `{ ...attrs, date, date_label }` */
  function Dated(attrs: Attrs): Attrs {
    var iso := IsoOf(Lookup(attrs, "Cnt_dt"));
    var date := if iso.Some? then Str(iso.value) else Null;
    var dateLabel := if iso.Some? then Str(ToMdy(iso.value)) else Str("Unknown");
    attrs["date" := date]["date_label" := dateLabel]
  }

  /** The fields left after dropping: the record's others, unchanged. */
  lemma DroppedMeaning(attrs: Attrs)
    ensures Dropped(attrs).Keys == attrs.Keys - DropFieldNames
    ensures forall k :: k in Dropped(attrs) ==> Dropped(attrs)[k] == attrs[k]
  {
  }

  /** A record is kept exactly when its coordinates are finite numbers,
      and the feature then sits at them. */
  lemma FeatureFromMeaning(attrs: Attrs)
    ensures var lat := ToNumber(Lookup(attrs, "Latitude"));
            var lon := ToNumber(Lookup(attrs, "Longitude"));
            var r := FeatureFrom(attrs);
            && (r.Some? <==> lat.Finite? && lon.Finite?)
            && (r.Some? ==> r.value.lat == lat.r && r.value.lon == lon.r && r.value.properties == Dated(attrs))
  {
  }

  /** The properties keep every field and add `date` and `date_label`. */
  lemma DatedKeys(attrs: Attrs)
    ensures Dated(attrs).Keys == attrs.Keys + {"date", "date_label"}
    ensures forall k :: k in Dated(attrs) && k != "date" && k != "date_label" ==> Dated(attrs)[k] == attrs[k]
  {
  }

  /** `date` is the ISO count date or null, and `date_label` its M/D/Y text
      or "Unknown". */
  lemma DatedDates(attrs: Attrs)
    ensures "date" in Dated(attrs) && "date_label" in Dated(attrs)
    ensures var p := Dated(attrs);
            var iso := IsoOf(Lookup(attrs, "Cnt_dt"));
            && p["date"] == (if iso.Some? then Str(iso.value) else Null)
            && (p["date_label"] == Str("Unknown") <==> iso.None?)
            && (iso.Some? ==> p["date_label"] == Str(ToMdy(iso.value)))
  {
    var iso := IsoOf(Lookup(attrs, "Cnt_dt"));
    if iso.Some? {
      assert ToMdy(iso.value) != "Unknown";
    }
  }

  /** The names the dataset adds are not dropped ones. */
  lemma AddedNotDropped()
    ensures "date" !in DropFieldNames && "date_label" !in DropFieldNames
  {
    assert "date"[0] == 'd' && "date_label"[0] == 'd';
    assert |"date"| == 4 && |"date_label"| == 10;
  }

  /** No dropped field survives into a feature, even one an override sets. */
  lemma NoDroppedField(attributes: Option<Attrs>, overrides: map<string, Attrs>, k: string)
    requires k in DropFieldNames && FeatureOf(attributes, overrides).Some?
    ensures k !in FeatureOf(attributes, overrides).value.properties
  {
    var attrs := Dropped(ApplyOverrides(attributes.GetOr(map[]), overrides));
    DroppedMeaning(ApplyOverrides(attributes.GetOr(map[]), overrides));
    DatedKeys(attrs);
    AddedNotDropped();
  }

  /** The records of all pages turned into features, skipped ones left out. */
  function Features(records: seq<Option<Attrs>>, overrides: map<string, Attrs>): seq<Feature> {
    Somes(seq(|records|, i requires 0 <= i < |records| => FeatureOf(records[i], overrides)))
  }

  lemma FeaturesSnoc(records: seq<Option<Attrs>>, overrides: map<string, Attrs>, n: nat)
    requires n < |records|
    ensures Features(records[..n + 1], overrides)
            == Features(records[..n], overrides)
               + (if FeatureOf(records[n], overrides).Some? then [FeatureOf(records[n], overrides).value] else [])
  {
    var os := seq(n, i requires 0 <= i < n => FeatureOf(records[..n][i], overrides));
    assert seq(n + 1, i requires 0 <= i < n + 1 => FeatureOf(records[..n + 1][i], overrides))
           == os + [FeatureOf(records[n], overrides)];
    SomesSnoc(os, FeatureOf(records[n], overrides));
  }

  /** The body of the inner loop of `main` for one record. */
  method BuildFeature(attributes: Option<Attrs>, overrides: map<string, Attrs>) returns (o: Option<Feature>)
    ensures o == FeatureOf(attributes, overrides)
  {
    var attrs0 := ApplyOverrides(attributes.GetOr(map[]), overrides);
    var attrs := DropFields(attrs0);
    var lat := ToNumber(Lookup(attrs, "Latitude"));
    var lon := ToNumber(Lookup(attrs, "Longitude"));
    o := None;
    if lat.Finite? && lon.Finite? {
      o := Some(Feature(Dated(attrs), lon.r, lat.r));
    }
  }

  /** The inner loop of `main`: one push per kept record. */
  method CollectFeatures(records: seq<Option<Attrs>>, overrides: map<string, Attrs>)
    returns (features: seq<Feature>)
    ensures features == Features(records, overrides)
  {
    features := [];
    for i := 0 to |records|
      invariant features == Features(records[..i], overrides)
    {
      FeaturesSnoc(records, overrides, i);
      var o := BuildFeature(records[i], overrides);
      if o.Some? {
        features := features + [o.value];
      }
    }
    assert records[..|records|] == records;
  }

  /** Each feature of the dataset comes from a kept record. */
  lemma FeaturesFromRecords(records: seq<Option<Attrs>>, overrides: map<string, Attrs>, f: Feature)
    ensures f in Features(records, overrides)
            <==> exists i :: 0 <= i < |records| && FeatureOf(records[i], overrides) == Some(f)
  {
    var os := seq(|records|, i requires 0 <= i < |records| => FeatureOf(records[i], overrides));
    SomesMembers(os, f);
    if exists i :: 0 <= i < |records| && FeatureOf(records[i], overrides) == Some(f) {
      var i :| 0 <= i < |records| && FeatureOf(records[i], overrides) == Some(f);
      assert os[i] == Some(f);
    }
  }

  // ---------------------------------------------------------------------
  // Pages

  /** `Math.min(Number(maxRecordCount) || 2000, 2000)`: NaN and 0 are falsy
      and give way to 2000; anything else is capped at 2000, and −Infinity,
      which is truthy, survives both steps. */
  function PageSize(maxRecordCount: JsValue): (r: JsNumber)
    ensures !r.NaN? && !r.PosInf?
    ensures r.Finite? ==> r.r <= 2000.0
    ensures r == NegInf <==> ToNumber(maxRecordCount) == NegInf
    ensures ToNumber(maxRecordCount) in {NaN, Finite(0.0), PosInf} ==> r == Finite(2000.0)
    ensures (ToNumber(maxRecordCount).Finite? && ToNumber(maxRecordCount).r != 0.0
             && ToNumber(maxRecordCount).r <= 2000.0) ==> r == ToNumber(maxRecordCount)
    ensures ToNumber(maxRecordCount).Finite? && ToNumber(maxRecordCount).r > 2000.0
            ==> r == Finite(2000.0)
  {
    match ToNumber(maxRecordCount)
    case NaN => Finite(2000.0)
    case PosInf => Finite(2000.0)
    case NegInf => NegInf
    case Finite(x) => if x == 0.0 || x > 2000.0 then Finite(2000.0) else Finite(x)
  }

  /** The page size keeps the loop moving forward exactly when the layer's
      `maxRecordCount` is not negative: NaN, 0, a positive count and
      +Infinity all give a size in (0, 2000]. */
  lemma PageSizePositive(maxRecordCount: JsValue)
    ensures var n := ToNumber(maxRecordCount);
            (PageSize(maxRecordCount).Finite? && PageSize(maxRecordCount).r > 0.0)
            <==> !(n == NegInf || (n.Finite? && n.r < 0.0))
  {
  }

  /** Applying the rule to its own result changes nothing. */
  lemma PageSizeIdempotent(maxRecordCount: JsValue)
    ensures PageSize(Num(PageSize(maxRecordCount))) == PageSize(maxRecordCount)
  {
  }

  /** `Number(count) || 0`: the record total, 0 in place of NaN; infinities
      and negative counts pass through. */
  function RecordTotal(count: JsValue): (t: JsNumber)
    ensures !t.NaN?
    ensures ToNumber(count).NaN? ==> t == Finite(0.0)
    ensures !ToNumber(count).NaN? ==> t == ToNumber(count)
  {
    match ToNumber(count)
    case NaN => Finite(0.0)
    case Finite(x) => if x == 0.0 then Finite(0.0) else Finite(x)
    case PosInf => PosInf
    case NegInf => NegInf
  }

  /** The offsets `main` requests, for a whole page size: 0, size, 2·size, …
      while below the total. */
  method PageOffsets(pageSize: int, total: real) returns (offsets: seq<int>)
    requires pageSize > 0
    ensures forall k :: 0 <= k < |offsets| ==> offsets[k] == k * pageSize
    ensures forall k :: 0 <= k < |offsets| ==> (offsets[k] as real) < total
    ensures (|offsets| * pageSize) as real >= total
  {
    offsets := [];
    var offset := 0;
    while (offset as real) < total
      invariant offset == |offsets| * pageSize
      invariant forall k :: 0 <= k < |offsets| ==> offsets[k] == k * pageSize
      invariant forall k :: 0 <= k < |offsets| ==> (offsets[k] as real) < total
      decreases total.Floor + 1 - offset
    {
      offsets := offsets + [offset];
      offset := offset + pageSize;
    }
  }

  lemma {:induction false} MulMono(a: int, b: int, size: int)
    requires a <= b && size >= 0
    ensures a * size <= b * size
    decreases b - a
  {
    if a < b {
      MulMono(a, b - 1, size);
      assert b * size == (b - 1) * size + size;
    }
  }

  /** The page at offset `k·size` holds the records from `k·size` up to
      before `(k + 1)·size`. */
  predicate InPage(offsets: seq<int>, size: int, k: int, r: int) {
    0 <= k < |offsets| && offsets[k] <= r < offsets[k] + size
  }

  /** Two pages of the same size starting at multiples of it that both
      hold `r` are the same page. */
  lemma PageUnique(k: int, q: int, size: int, r: int)
    requires size > 0
    requires k * size <= r < k * size + size && q * size <= r < q * size + size
    ensures k == q
  {
    if k < q {
      MulMono(k + 1, q, size);
    } else if q < k {
      MulMono(q + 1, k, size);
    }
  }

  /** The pages cover every record once: record `r` below the total lies in
      the page at offset `k·size` for exactly one `k`, namely `r / size`. */
  lemma PagesCover(size: int, total: real, offsets: seq<int>, r: int)
    requires size > 0 && 0 <= r && (r as real) < total
    requires forall k :: 0 <= k < |offsets| ==> offsets[k] == k * size
    requires (|offsets| * size) as real >= total
    ensures InPage(offsets, size, r / size, r)
    ensures forall k :: InPage(offsets, size, k, r) ==> k == r / size
  {
    var q := r / size;
    assert q * size <= r < q * size + size;
    if q >= |offsets| {
      MulMono(|offsets|, q, size);
    }
    assert offsets[q] == q * size;
    forall k | InPage(offsets, size, k, r)
      ensures k == q
    {
      assert offsets[k] == k * size;
      PageUnique(k, q, size, r);
    }
  }
}
