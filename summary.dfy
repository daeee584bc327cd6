/** The daily summary strip: temperatures turned back to Celsius, the
    weather-code words and icons of each day, the number of days shown and
    the highlighted count day. */
module SummaryTable {
  import opened Wrappers
  import opened Js
  import opened WeatherCodes
  import AviationWeather

  // ---------------------------------------------------------------------
  // Temperatures

  /** `fToC(f)` for a number `f`. */
  function FToC(f: real): real {
    (f - 32.0) * (5.0 / 9.0)
  }

  /** Celsius undoes the Fahrenheit conversion of the observations and is
      undone by it. */
  lemma FToCInverse(c: real, f: real)
    ensures FToC(c * 9.0 / 5.0 + 32.0) == c
    ensures FToC(f) * 9.0 / 5.0 + 32.0 == f
  {
  }

  /** A day's minimum or maximum in Celsius: only an actual finite number is
      converted (`Number.isFinite` does not coerce). */
  function DayCelsius(v: JsValue): (r: Option<real>)
    ensures r.Some? <==> v.Num? && v.n.Finite?
    ensures r.Some? ==> r.value * 9.0 / 5.0 + 32.0 == v.n.r
  {
    if v.Num? && v.n.Finite? then Some(FToC(v.n.r)) else None
  }

  /** The reading converted by the observation report comes back unchanged. */
  lemma CelsiusRoundTrip(c: real)
    ensures AviationWeather.CToF(Num(Finite(c))).Some?
    ensures DayCelsius(Num(Finite(AviationWeather.CToF(Num(Finite(c))).value))) == Some(c)
  {
    var f := AviationWeather.CToF(Num(Finite(c))).value;
    assert (f - 32.0) * 5.0 / 9.0 == c;
    assert FToC(f) == (f - 32.0) * 5.0 / 9.0;
  }

  // ---------------------------------------------------------------------
  // Weather codes

  /** The words of each branch of the summary's `weathercodeToText`. */
  function SummaryWords(s: Sky): string {
    match s
    case ClearSky => "clear sky"
    case MainlyClear => "mainly clear"
    case PartlyCloudy => "partly cloudy"
    case BrokenClouds => "broken clouds"
    case Fog => "fog"
    case Drizzle => "drizzle"
    case FreezingDrizzle => "freezing drizzle"
    case LightPrecip => "light rain"
    case ModeratePrecip => "moderate rain"
    case HeavyPrecip => "heavy intensity rain"
    case FreezingPrecip => "freezing rain"
    case Snow => "snow"
    case SnowGrains => "snow grains"
    case Showers => "rain showers"
    case SnowShowers => "snow showers"
    case Thunderstorm => "thunderstorm"
  }

  /** `weathercodeToText(code)`: "" unless the code is a finite number,
      "weather" for an unlisted one. */
  function SummaryText(code: JsValue): (r: string)
    ensures r == "" <==> !ToNumber(code).Finite?
    ensures ToNumber(code).Finite? ==> (r == "weather" <==> Classify(ToNumber(code).r).None?)
    ensures ToNumber(code).Finite? && Classify(ToNumber(code).r).Some?
            ==> r == SummaryWords(Classify(ToNumber(code).r).value)
  {
    match ToNumber(code)
    case Finite(c) =>
      (match Classify(c)
       case Some(s) => SummaryWordsNamed(s); SummaryWords(s)
       case None => "weather")
    case _ => ""
  }

  /** No group's words are empty or the bare "weather". */
  lemma SummaryWordsNamed(s: Sky)
    ensures SummaryWords(s) != "" && SummaryWords(s) != "weather"
  {
  }

  /** The three rain intensities. */
  lemma RainWords()
    ensures SummaryText(Num(Finite(61.0))) == "light rain"
    ensures SummaryText(Num(Finite(63.0))) == "moderate rain"
    ensures SummaryText(Num(Finite(65.0))) == "heavy intensity rain"
  {
    ClassifyComplete(61.0, LightPrecip);
    ClassifyComplete(63.0, ModeratePrecip);
    ClassifyComplete(65.0, HeavyPrecip);
  }

  /** `weathercodeToOpenWeatherIcon(code)`, test by test. */
  function Icon(code: JsValue): string {
    match ToNumber(code)
    case Finite(c) => IconOfNumber(c)
    case _ => "01d"
  }

  /** The tests of `weathercodeToOpenWeatherIcon` on a finite code. */
  function IconOfNumber(c: real): string {
    if c == 0.0 then "01d"
    else if c == 1.0 then "02d"
    else if c == 2.0 then "03d"
    else if c == 3.0 then "04d"
    else if c == 45.0 || c == 48.0 then "50d"
    else if c == 51.0 || c == 53.0 || c == 55.0 || c == 56.0 || c == 57.0 then "09d"
    else if c == 61.0 || c == 63.0 || c == 65.0 || c == 66.0 || c == 67.0 then "10d"
    else if c == 71.0 || c == 73.0 || c == 75.0 || c == 77.0 || c == 85.0 || c == 86.0 then "13d"
    else if c == 80.0 || c == 81.0 || c == 82.0 then "09d"
    else if c == 95.0 || c == 96.0 || c == 99.0 then "11d"
    else "01d"
  }

  /** The icon of each group of the code table. */
  function SkyIcon(s: Sky): string {
    match s
    case ClearSky => "01d"
    case MainlyClear => "02d"
    case PartlyCloudy => "03d"
    case BrokenClouds => "04d"
    case Fog => "50d"
    case Drizzle | FreezingDrizzle | Showers => "09d"
    case LightPrecip | ModeratePrecip | HeavyPrecip | FreezingPrecip => "10d"
    case Snow | SnowGrains | SnowShowers => "13d"
    case Thunderstorm => "11d"
  }

  /** The icon table groups the same codes as the word table: every code of
      a group gets the group's icon, and non-finite or unlisted codes get
      the clear-sky icon. */
  lemma IconBySky(code: JsValue)
    ensures Icon(code) == match ToNumber(code)
                          case Finite(c) => (match Classify(c) case Some(s) => SkyIcon(s) case None => "01d")
                          case _ => "01d"
  {
    if ToNumber(code).Finite? {
      var c := ToNumber(code).r;
      if Classify(c).Some? {
        IconOfGroup(c, Classify(c).value);
      } else {
        IconUnlisted(c);
      }
    }
  }

  lemma IconUnlisted(c: real)
    requires Classify(c).None?
    ensures IconOfNumber(c) == "01d"
  {
  }

  lemma IconOfGroup(c: real, s: Sky)
    requires InGroup(c, s)
    ensures IconOfNumber(c) == SkyIcon(s)
  {
    match s
    case ClearSky =>
    case MainlyClear =>
    case PartlyCloudy =>
    case BrokenClouds =>
    case Fog =>
    case Drizzle =>
    case FreezingDrizzle =>
    case LightPrecip =>
    case ModeratePrecip =>
    case HeavyPrecip =>
    case FreezingPrecip =>
    case Snow =>
    case SnowGrains =>
    case Showers =>
    case SnowShowers =>
    case Thunderstorm =>
  }

  // ---------------------------------------------------------------------
  // The days shown

  /** `Math.max(1, Math.min(10, Number(daysToShow) || 10))`, with
      `daysToShow` defaulting to 8 when it is not given. */
  function DayCount(daysToShow: JsValue): (n: real)
    ensures 1.0 <= n <= 10.0
    ensures daysToShow.Undefined? ==> n == 8.0
    ensures !daysToShow.Undefined? && (ToNumber(daysToShow) == Finite(0.0) || ToNumber(daysToShow).NaN?)
            ==> n == 10.0
    ensures ToNumber(daysToShow).Finite? && 1.0 <= ToNumber(daysToShow).r <= 10.0 ==> n == ToNumber(daysToShow).r
  {
    var v := if daysToShow.Undefined? then Num(Finite(8.0)) else daysToShow;
    match ToNumber(v)
    case NaN => 10.0
    case PosInf => 10.0
    case NegInf => 1.0
    case Finite(x) =>
      if x == 0.0 then 10.0
      else if x > 10.0 then 10.0
      else if x < 1.0 then 1.0
      else x
  }

  /** `time.slice(0, n)`, or no days when `time` is not an array. */
  function ShownDays(time: Option<seq<string>>, daysToShow: JsValue): (r: seq<string>)
    ensures time.None? ==> r == []
    ensures time.Some? ==> |r| == (if |time.value| < DayCount(daysToShow).Floor
                                   then |time.value| else DayCount(daysToShow).Floor)
    ensures time.Some? ==> r == time.value[..|r|]
  {
    match time
    case None => []
    case Some(t) =>
      var end := DayCount(daysToShow).Floor;
      if |t| < end then t else t[..end]
  }

  /** One day at least when there are days, ten at most: `n` lies in [1, 10],
      so its whole part does too. */
  lemma ShownDaysBounds(time: seq<string>, daysToShow: JsValue)
    ensures |ShownDays(Some(time), daysToShow)| <= 10
    ensures time != [] ==> |ShownDays(Some(time), daysToShow)| >= 1
  {
    var n := DayCount(daysToShow);
    assert 1 <= n.Floor <= 10;
  }

  // ---------------------------------------------------------------------
  // The highlighted day

  /** `highlightDateISO && t === highlightDateISO` */
  predicate Highlighted(highlight: string, t: string) {
    highlight != "" && t == highlight
  }

  /** Among distinct days at most one is highlighted, and none when there is
      nothing to highlight. */
  lemma HighlightOnce(highlight: string, days: seq<string>)
    requires forall a, b :: 0 <= a < b < |days| ==> days[a] != days[b]
    ensures forall i, j ::
              (0 <= i < |days| && 0 <= j < |days| && Highlighted(highlight, days[i])
               && Highlighted(highlight, days[j])) ==> i == j
    ensures highlight == "" ==> forall i :: 0 <= i < |days| ==> !Highlighted(highlight, days[i])
  {
  }
}
