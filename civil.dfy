/** Calendar arithmetic of ECMA-262 (section 21.4.1, "Time Values and Time
    Range"): the proleptic Gregorian calendar on days since 1970-01-01, used by
    `Date.UTC` and `Date.prototype.toISOString`. */
module Civil {
  import opened Text

  const MS_PER_SECOND := 1000
  const MS_PER_MINUTE := 60000
  const MS_PER_HOUR := 3600000
  const MS_PER_DAY := 86400000

  predicate IsLeap(y: int) {
    y % 4 == 0 && (y % 100 != 0 || y % 400 == 0)
  }

  function DaysInYear(y: int): int {
    if IsLeap(y) then 366 else 365
  }

  /** DayFromYear: the day number of January 1 of year `y`. */
  function DayFromYear(y: int): int {
    365 * (y - 1970) + (y - 1969) / 4 - (y - 1901) / 100 + (y - 1601) / 400
  }

  lemma Step4(y: int)
    ensures (y - 1968) / 4 - (y - 1969) / 4 == if y % 4 == 0 then 1 else 0
  {
    var q, r := (y - 1969) / 4, (y - 1969) % 4;
    assert y == 4 * (q + 492) + r + 1;
    if r == 3 {
      assert y == 4 * (q + 493);
      assert y - 1968 == 4 * (q + 1);
    } else {
      assert y - 1968 == 4 * q + (r + 1);
    }
  }

  lemma Step100(y: int)
    ensures (y - 1900) / 100 - (y - 1901) / 100 == if y % 100 == 0 then 1 else 0
  {
    var q, r := (y - 1901) / 100, (y - 1901) % 100;
    assert y == 100 * (q + 19) + r + 1;
    if r == 99 {
      assert y == 100 * (q + 20);
      assert y - 1900 == 100 * (q + 1);
    } else {
      assert y - 1900 == 100 * q + (r + 1);
    }
  }

  lemma Step400(y: int)
    ensures (y - 1600) / 400 - (y - 1601) / 400 == if y % 400 == 0 then 1 else 0
  {
    var q, r := (y - 1601) / 400, (y - 1601) % 400;
    assert y == 400 * (q + 4) + r + 1;
    if r == 399 {
      assert y == 400 * (q + 5);
      assert y - 1600 == 400 * (q + 1);
    } else {
      assert y - 1600 == 400 * q + (r + 1);
    }
  }

  /** Consecutive January firsts are a year length apart. */
  lemma YearLength(y: int)
    ensures DayFromYear(y + 1) - DayFromYear(y) == DaysInYear(y)
  {
    var d4 := (y - 1968) / 4 - (y - 1969) / 4;
    var d100 := (y - 1900) / 100 - (y - 1901) / 100;
    var d400 := (y - 1600) / 400 - (y - 1601) / 400;
    assert DayFromYear(y + 1) - DayFromYear(y) == 365 + d4 - d100 + d400;
    Step4(y);
    Step100(y);
    Step400(y);
    if y % 400 == 0 { Multiple400(y); }
    if y % 100 == 0 { Multiple100(y); }
  }

  lemma Multiple400(y: int)
    requires y % 400 == 0
    ensures y % 100 == 0
  {
    DivModUnique(y, 100, 4 * (y / 400), 0);
  }

  lemma Multiple100(y: int)
    requires y % 100 == 0
    ensures y % 4 == 0
  {
    DivModUnique(y, 4, 25 * (y / 100), 0);
  }

  lemma DayFromYearMonotone(a: int, b: int)
    requires a <= b
    ensures DayFromYear(a) + 365 * (b - a) <= DayFromYear(b) <= DayFromYear(a) + 366 * (b - a)
    decreases b - a
  {
    if a < b {
      YearLength(a);
      DayFromYearMonotone(a + 1, b);
    }
  }

  /** DaysInMonth for a month index 0 (January) to 11 (December). */
  function DaysInMonth(y: int, mn: int): int
    requires 0 <= mn < 12
  {
    if mn == 1 then (if IsLeap(y) then 29 else 28)
    else if mn == 3 || mn == 5 || mn == 8 || mn == 10 then 30
    else 31
  }

  /** The number of days of the year before month index `mn` starts. */
  function MonthStart(y: int, mn: int): int
    requires 0 <= mn <= 12
  {
    var leap := if IsLeap(y) then 1 else 0;
    if mn == 0 then 0
    else if mn == 1 then 31
    else if mn == 2 then 59 + leap
    else if mn == 3 then 90 + leap
    else if mn == 4 then 120 + leap
    else if mn == 5 then 151 + leap
    else if mn == 6 then 181 + leap
    else if mn == 7 then 212 + leap
    else if mn == 8 then 243 + leap
    else if mn == 9 then 273 + leap
    else if mn == 10 then 304 + leap
    else if mn == 11 then 334 + leap
    else 365 + leap
  }

  lemma MonthStartStep(y: int, mn: int)
    requires 0 <= mn < 12
    ensures MonthStart(y, mn + 1) - MonthStart(y, mn) == DaysInMonth(y, mn)
    ensures MonthStart(y, 12) == DaysInYear(y)
  {
  }

  /** MakeDay(year, month, date): the day number of `date` in month index
      `month` of `year`; months outside 0..11 carry into the year and days
      outside the month carry into neighbouring months. */
  function MakeDay(year: int, month: int, date: int): int {
    var ym := year + month / 12;
    var mn := month % 12;
    DayFromYear(ym) + MonthStart(ym, mn) + date - 1
  }

  /** MakeTime combined with MakeDate. */
  function MakeDateMs(day: int, h: int, mi: int, s: int, ms: int): int {
    day * MS_PER_DAY + h * MS_PER_HOUR + mi * MS_PER_MINUTE + s * MS_PER_SECOND + ms
  }

  /** `Date.UTC(year, month, date, h, mi, s)` on integer arguments: years 0 to
      99 mean 1900 to 1999. */
  function DateUtc(year: int, month: int, date: int, h: int, mi: int, s: int): (t: int)
    ensures 0 <= year <= 99 ==> t == MakeDateMs(MakeDay(1900 + year, month, date), h, mi, s, 0)
    ensures !(0 <= year <= 99) ==> t == MakeDateMs(MakeDay(year, month, date), h, mi, s, 0)
  {
    var yr := if 0 <= year <= 99 then 1900 + year else year;
    MakeDateMs(MakeDay(yr, month, date), h, mi, s, 0)
  }

  lemma EpochIsDayZero()
    ensures MakeDay(1970, 0, 1) == 0
    ensures DateUtc(2024, 11, 21, 0, 0, 0) == 1734739200000
  {
    assert DayFromYear(1970) == 0;
    assert DayFromYear(2024) == 19723;
    assert IsLeap(2024);
    assert MonthStart(2024, 11) == 335;
    assert MakeDay(2024, 11, 21) == 20078;
    assert MakeDateMs(20078, 0, 0, 0, 0) == 20078 * MS_PER_DAY == 1734739200000;
  }

  /** YearFromTime on day numbers: the year whose January first is the latest
      one not after day `z`. */
  function YearFromDay(z: int): (y: int)
    ensures DayFromYear(y) <= z < DayFromYear(y + 1)
  {
    YearSearch(z, 1970)
  }

  function YearSearch(z: int, y: int): (r: int)
    ensures DayFromYear(r) <= z < DayFromYear(r + 1)
    decreases if z < DayFromYear(y) then DayFromYear(y) - z + 1 else 0, z - DayFromYear(y)
  {
    if z < DayFromYear(y) then
      YearGrows(y - 1);
      YearSearch(z, y - 1)
    else if z >= DayFromYear(y + 1) then
      YearGrows(y);
      YearSearch(z, y + 1)
    else y
  }

  lemma YearGrows(y: int)
    ensures DayFromYear(y) + 365 <= DayFromYear(y + 1) <= DayFromYear(y) + 366
  {
    YearLength(y);
  }

  /** MonthFromTime within a year: the month index whose start is the latest
      one not after day `doy` of the year. */
  function MonthSearch(y: int, doy: int, mn: int): (r: int)
    requires 0 <= mn < 12 && MonthStart(y, mn) <= doy < MonthStart(y, 12)
    ensures mn <= r < 12 && MonthStart(y, r) <= doy < MonthStart(y, r + 1)
    decreases 12 - mn
  {
    if doy < MonthStart(y, mn + 1) then mn else MonthSearch(y, doy, mn + 1)
  }

  lemma MulAtLeast(a: int, k: int)
    requires a >= 1 && k > 0
    ensures a * k >= k
  {
  }

  /** Quotient and remainder are the only ones with `n == q * k + r`, `0 <= r < k`. */
  lemma DivModUnique(n: int, k: int, q: int, r: int)
    requires k > 0 && n == q * k + r && 0 <= r < k
    ensures n / k == q && n % k == r
  {
    var q', r' := n / k, n % k;
    assert n == q' * k + r';
    if q' > q {
      assert (q' - q) * k == q' * k - q * k;
      MulAtLeast(q' - q, k);
    } else if q' < q {
      assert (q - q') * k == q * k - q' * k;
      MulAtLeast(q - q', k);
    }
  }

  /** The calendar fields of a time value, as `getUTC*` read them. */
  datatype Fields = Fields(year: int, month: int, day: int, hour: int, minute: int, second: int, milli: int)

  predicate FieldsInRange(f: Fields) {
    && 1 <= f.month <= 12 && 1 <= f.day <= DaysInMonth(f.year, f.month - 1)
    && 0 <= f.hour < 24 && 0 <= f.minute < 60 && 0 <= f.second < 60 && 0 <= f.milli < 1000
  }

  /** The day number of time value `t` and its clock fields (Day, HourFromTime,
      MinFromTime, SecFromTime, msFromTime). */
  function DayOf(t: int): int {
    t / 1000 / 60 / 60 / 24
  }

  function ClockOf(t: int): (c: (int, int, int, int))
    ensures 0 <= c.0 < 24 && 0 <= c.1 < 60 && 0 <= c.2 < 60 && 0 <= c.3 < 1000
    ensures t == MakeDateMs(DayOf(t), c.0, c.1, c.2, c.3)
  {
    var secs := t / 1000;
    var mins := secs / 60;
    var hours := mins / 60;
    (hours % 24, mins % 60, secs % 60, t % 1000)
  }

  /** The year, month index and day of the month of day number `z`. */
  function DateOfDay(z: int): (r: (int, int, int))
    ensures 0 <= r.1 < 12 && 1 <= r.2 <= DaysInMonth(r.0, r.1)
    ensures MakeDay(r.0, r.1, r.2) == z
  {
    var y := YearFromDay(z);
    YearOfMonths(y);
    var doy := z - DayFromYear(y);
    var mn := MonthSearch(y, doy, 0);
    DayInMonth(y, mn, doy);
    MakeDayInYear(y, mn, doy - MonthStart(y, mn) + 1);
    (y, mn, doy - MonthStart(y, mn) + 1)
  }

  lemma YearOfMonths(y: int)
    ensures MonthStart(y, 0) == 0 && MonthStart(y, 12) == DayFromYear(y + 1) - DayFromYear(y)
  {
    YearLength(y);
    MonthStartStep(y, 0);
  }

  lemma MakeDayInYear(y: int, mn: int, d: int)
    requires 0 <= mn < 12
    ensures MakeDay(y, mn, d) == DayFromYear(y) + MonthStart(y, mn) + d - 1
  {
    assert mn / 12 == 0 && mn % 12 == mn;
  }

  lemma DayInMonth(y: int, mn: int, doy: int)
    requires 0 <= mn < 12 && MonthStart(y, mn) <= doy < MonthStart(y, mn + 1)
    ensures 1 <= doy - MonthStart(y, mn) + 1 <= DaysInMonth(y, mn)
  {
    MonthStartStep(y, mn);
  }

  function FieldsOf(t: int): (f: Fields)
    ensures FieldsInRange(f)
    ensures MakeDateMs(MakeDay(f.year, f.month - 1, f.day), f.hour, f.minute, f.second, f.milli) == t
  {
    var c := ClockOf(t);
    var (y, mn, d) := DateOfDay(DayOf(t));
    Fields(y, mn + 1, d, c.0, c.1, c.2, c.3)
  }

  /** A calendar date given in range is read back unchanged. */
  lemma {:induction false} FieldsOfMakeDay(y: int, mn: int, d: int, h: int, mi: int, s: int)
    requires 0 <= mn < 12 && 1 <= d <= DaysInMonth(y, mn)
    requires 0 <= h < 24 && 0 <= mi < 60 && 0 <= s < 60
    ensures FieldsOf(MakeDateMs(MakeDay(y, mn, d), h, mi, s, 0)) == Fields(y, mn + 1, d, h, mi, s, 0)
  {
    var z := MakeDay(y, mn, d);
    var doy := MonthStart(y, mn) + d - 1;
    MakeDayInYear(y, mn, d);
    ClockOfMake(z, h, mi, s);
    DateOfMakeDay(z, y, mn, doy);
  }

  lemma DateOfMakeDay(z: int, y: int, mn: int, doy: int)
    requires 0 <= mn < 12 && MonthStart(y, mn) <= doy < MonthStart(y, mn + 1)
    requires z == DayFromYear(y) + doy
    ensures DateOfDay(z) == (y, mn, doy - MonthStart(y, mn) + 1)
  {
    MonthStartMonotone(y, mn + 1, 12);
    YearLength(y);
    YearFromDayUnique(z, y);
    MonthSearchUnique(y, doy, 0, mn);
  }

  lemma ClockOfMake(z: int, h: int, mi: int, s: int)
    requires 0 <= h < 24 && 0 <= mi < 60 && 0 <= s < 60
    ensures DayOf(MakeDateMs(z, h, mi, s, 0)) == z
    ensures ClockOf(MakeDateMs(z, h, mi, s, 0)) == (h, mi, s, 0)
  {
    var t := MakeDateMs(z, h, mi, s, 0);
    var secs, mins, hours := ((z * 24 + h) * 60 + mi) * 60 + s, (z * 24 + h) * 60 + mi, z * 24 + h;
    assert t == secs * 1000;
    DivModUnique(t, 1000, secs, 0);
    DivModUnique(secs, 60, mins, s);
    DivModUnique(mins, 60, hours, mi);
    DivModUnique(hours, 24, z, h);
  }

  lemma YearFromDayUnique(z: int, y: int)
    requires DayFromYear(y) <= z < DayFromYear(y + 1)
    ensures YearFromDay(z) == y
  {
    var r := YearFromDay(z);
    if r < y {
      DayFromYearMonotone(r + 1, y);
    } else if r > y {
      DayFromYearMonotone(y + 1, r);
    }
  }

  lemma MonthSearchUnique(y: int, doy: int, from: int, mn: int)
    requires 0 <= from <= mn < 12 && MonthStart(y, from) <= doy < MonthStart(y, 12)
    requires MonthStart(y, mn) <= doy < MonthStart(y, mn + 1)
    ensures MonthSearch(y, doy, from) == mn
    decreases 12 - from
  {
    if from < mn {
      MonthStartMonotone(y, from + 1, mn);
      MonthSearchUnique(y, doy, from + 1, mn);
    }
  }

  lemma MonthStartMonotone(y: int, a: int, b: int)
    requires 0 <= a <= b <= 12
    ensures MonthStart(y, a) <= MonthStart(y, b)
  {
  }

  /** Zero-padded decimal text of at least `width` digits. */
  function PadNat(n: nat, width: nat): (r: string)
    ensures |r| >= width && AllDigits(r)
    decreases width
  {
    var t := NatToString(n);
    if |t| >= width then t else "0" + PadNat(n, width - 1)
  }

  /** `Date.prototype.toISOString`: "YYYY-MM-DDTHH:mm:ss.sssZ", with the
      six-digit signed year form outside years 0 to 9999. */
  function ToIsoString(t: int): string {
    var f := FieldsOf(t);
    var year := if 0 <= f.year <= 9999 then PadNat(f.year, 4)
                else if f.year < 0 then "-" + PadNat(-f.year, 6)
                else "+" + PadNat(f.year, 6);
    year + "-" + PadNat(f.month, 2) + "-" + PadNat(f.day, 2) + "T"
      + PadNat(f.hour, 2) + ":" + PadNat(f.minute, 2) + ":" + PadNat(f.second, 2)
      + "." + PadNat(f.milli, 3) + "Z"
  }
}
