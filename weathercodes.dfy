/** The WMO weather codes of the forecast, grouped as the code tables of the
    application and of the summary table group them. Both tables test the
    same codes in the same order; only the words (and the icons) differ. */
module WeatherCodes {
  import opened Wrappers

  /** One branch of the code tables. */
  datatype Sky =
    | ClearSky | MainlyClear | PartlyCloudy | BrokenClouds | Fog
    | Drizzle | FreezingDrizzle | LightPrecip | ModeratePrecip | HeavyPrecip
    | FreezingPrecip | Snow | SnowGrains | Showers | SnowShowers | Thunderstorm

  /** The codes a branch tests with `c === …`. */
  predicate InGroup(c: real, s: Sky) {
    match s
    case ClearSky => c == 0.0
    case MainlyClear => c == 1.0
    case PartlyCloudy => c == 2.0
    case BrokenClouds => c == 3.0
    case Fog => c == 45.0 || c == 48.0
    case Drizzle => c == 51.0 || c == 53.0 || c == 55.0
    case FreezingDrizzle => c == 56.0 || c == 57.0
    case LightPrecip => c == 61.0
    case ModeratePrecip => c == 63.0
    case HeavyPrecip => c == 65.0
    case FreezingPrecip => c == 66.0 || c == 67.0
    case Snow => c == 71.0 || c == 73.0 || c == 75.0
    case SnowGrains => c == 77.0
    case Showers => c == 80.0 || c == 81.0 || c == 82.0
    case SnowShowers => c == 85.0 || c == 86.0
    case Thunderstorm => c == 95.0 || c == 96.0 || c == 99.0
  }

  /** The branch a finite code takes, `None` past the last one. The groups
      are disjoint, so the branch is the one group the code belongs to. */
  function Classify(c: real): (r: Option<Sky>)
    ensures r.Some? ==> InGroup(c, r.value)
  {
    if c == 0.0 then Some(ClearSky)
    else if c == 1.0 then Some(MainlyClear)
    else if c == 2.0 then Some(PartlyCloudy)
    else if c == 3.0 then Some(BrokenClouds)
    else if c == 45.0 || c == 48.0 then Some(Fog)
    else if c == 51.0 || c == 53.0 || c == 55.0 then Some(Drizzle)
    else if c == 56.0 || c == 57.0 then Some(FreezingDrizzle)
    else if c == 61.0 then Some(LightPrecip)
    else if c == 63.0 then Some(ModeratePrecip)
    else if c == 65.0 then Some(HeavyPrecip)
    else if c == 66.0 || c == 67.0 then Some(FreezingPrecip)
    else if c == 71.0 || c == 73.0 || c == 75.0 then Some(Snow)
    else if c == 77.0 then Some(SnowGrains)
    else if c == 80.0 || c == 81.0 || c == 82.0 then Some(Showers)
    else if c == 85.0 || c == 86.0 then Some(SnowShowers)
    else if c == 95.0 || c == 96.0 || c == 99.0 then Some(Thunderstorm)
    else None
  }

  /** A code in a group takes that group's branch: no earlier group holds it. */
  lemma ClassifyComplete(c: real, s: Sky)
    requires InGroup(c, s)
    ensures Classify(c) == Some(s)
  {
  }
}
