/** Coordinate entry and compass names: the `lat, lon` parser of the search
    box and the 16-point compass sector of a wind direction. */
module Geo {
  import opened Wrappers
  import opened Text
  import opened Js

  // ---------------------------------------------------------------------
  // parseLatLon

  function DigitRun(t: string): nat
    ensures DigitRun(t) <= |t|
    ensures forall i :: 0 <= i < DigitRun(t) ==> IsDigit(t[i])
    ensures DigitRun(t) < |t| ==> !IsDigit(t[DigitRun(t)])
  {
    if t != [] && IsDigit(t[0]) then 1 + DigitRun(t[1..]) else 0
  }

  /** `\d+(?:\.\d+)?`: digits, then optionally a point and more digits. */
  predicate IsUnsignedToken(t: string) {
    |t| > 0 && IsDigit(t[0]) &&
    match IndexOf(t, ".")
    case None => AllDigits(t)
    case Some(k) => AllDigits(t[..k]) && |t[k + 1..]| > 0 && AllDigits(t[k + 1..])
  }

  /** `-?\d+(?:\.\d+)?`: one coordinate as the search box accepts it. */
  predicate IsNumberToken(t: string) {
    if |t| > 0 && t[0] == '-' then IsUnsignedToken(t[1..]) else IsUnsignedToken(t)
  }

  /** The value of an unsigned token. */
  function UnsignedValue(u: string): real
    requires IsUnsignedToken(u)
  {
    match IndexOf(u, ".")
    case None => DigitsValue(u) as real
    case Some(k) => DecimalValue(u[..k], u[k + 1..])
  }

  /** The value of a coordinate token. */
  function TokenValue(t: string): real
    requires IsNumberToken(t)
  {
    if |t| > 0 && t[0] == '-' then -UnsignedValue(t[1..]) else UnsignedValue(t)
  }

  /** A character that may stand between the two coordinates. */
  predicate IsSepChar(c: char) {
    IsSpace(c) || c == ','
  }

  function CountChar(s: string, c: char): nat {
    if s == [] then 0 else (if s[0] == c then 1 else 0) + CountChar(s[1..], c)
  }

  /** `\s*[ ,]\s*`: white space around one comma, or white space holding at
      least one plain space. */
  predicate IsSeparator(w: string) {
    (forall i :: 0 <= i < |w| ==> IsSepChar(w[i]))
    && ((CountChar(w, ',') == 1) || (CountChar(w, ',') == 0 && CountChar(w, ' ') > 0))
  }

  /** The length of the longest prefix of `s` without separator characters. */
  function TokenEnd(s: string): (n: nat)
    ensures n <= |s|
    ensures forall i :: 0 <= i < n ==> !IsSepChar(s[i])
    ensures n < |s| ==> IsSepChar(s[n])
  {
    if s == [] || IsSepChar(s[0]) then 0 else 1 + TokenEnd(s[1..])
  }

  /** The length of the longest prefix of `s` made of separator characters. */
  function SepEnd(s: string): (n: nat)
    ensures n <= |s|
    ensures forall i :: 0 <= i < n ==> IsSepChar(s[i])
    ensures n < |s| ==> !IsSepChar(s[n])
  {
    if s != [] && IsSepChar(s[0]) then 1 + SepEnd(s[1..]) else 0
  }

  /** The only way the pattern can divide a text: the first token ends at the
      first separator character, and the second starts after the run of them. */
  function SplitCoordinates(s: string): (r: (string, string, string))
    ensures r.0 + r.1 + r.2 == s
  {
    var i := TokenEnd(s);
    var j := i + SepEnd(s[i..]);
    assert s == s[..i] + s[i..j] + s[j..];
    (s[..i], s[i..j], s[j..])
  }

  /** `parseLatLon`: two coordinates of the accepted form, as numbers when the
      latitude is within [-90, 90] and the longitude within [-180, 180]. */
  function ParseLatLon(input: Option<string>): (r: Option<(real, real)>)
    ensures r.Some? ==> -90.0 <= r.value.0 <= 90.0 && -180.0 <= r.value.1 <= 180.0
    ensures Trim(input.GetOr("")) == "" ==> r.None?
  {
    ParseTrimmed(Trim(input.GetOr("")))
  }

  /** `parseLatLon` once the input has been trimmed. */
  function ParseTrimmed(s: string): (r: Option<(real, real)>)
    ensures r.Some? ==> -90.0 <= r.value.0 <= 90.0 && -180.0 <= r.value.1 <= 180.0
    ensures s == "" ==> r.None?
  {
    if s == "" then None
    else
      var (a, w, b) := SplitCoordinates(s);
      if !(IsNumberToken(a) && IsSeparator(w) && IsNumberToken(b)) then None
      else match (FiniteNumber(Str(a)), FiniteNumber(Str(b)))
        case (Some(lat), Some(lon)) =>
          if lat < -90.0 || lat > 90.0 || lon < -180.0 || lon > 180.0 then None
          else Some((lat, lon))
        case _ => None
  }

  /** Any number token is read by `Number` as its value. */
  lemma TokenNumber(t: string)
    requires IsNumberToken(t)
    ensures FiniteNumber(Str(t)) == Some(TokenValue(t))
  {
    TokenTrimmed(t);
    var neg := t[0] == '-';
    var u := if neg then t[1..] else t;
    assert u != "Infinity" by { assert IsDigit(u[0]); }
    UnsignedTokenValue(u);
  }

  /** A number token has no white space around it. */
  lemma TokenTrimmed(t: string)
    requires IsNumberToken(t)
    ensures t != [] && !IsSpace(t[0]) && !IsSpace(t[|t| - 1])
    ensures Trim(t) == t
  {
    if t[0] == '-' { assert t[1..][|t| - 2] == t[|t| - 1]; }
    TokenLastDigit(t);
    TrimOfTrimmed(t);
  }

  lemma TokenLastDigit(t: string)
    requires IsNumberToken(t)
    ensures IsDigit(t[|t| - 1])
  {
    var u := if t[0] == '-' then t[1..] else t;
    assert u[|u| - 1] == t[|t| - 1];
    match IndexOf(u, ".")
    case None =>
    case Some(k) =>
      assert u[k + 1..][|u| - k - 2] == u[|u| - 1];
  }

  lemma UnsignedTokenValue(u: string)
    requires IsUnsignedToken(u)
    ensures UnsignedDecimal(u) == Some(UnsignedValue(u))
  {
  }

  /** No number token holds a separator character. */
  lemma TokenHasNoSep(t: string)
    requires IsNumberToken(t)
    ensures forall i :: 0 <= i < |t| ==> !IsSepChar(t[i])
  {
    var u := if |t| > 0 && t[0] == '-' then t[1..] else t;
    forall i | 0 <= i < |u| ensures !IsSepChar(u[i]) {
      match IndexOf(u, ".")
      case None =>
      case Some(k) =>
        if i < k { assert u[..k][i] == u[i]; }
        else if i > k { assert u[k + 1..][i - k - 1] == u[i]; }
    }
    forall i | 0 <= i < |t| ensures !IsSepChar(t[i]) {
      if t[0] == '-' && i > 0 { assert t[i] == u[i - 1]; }
    }
  }

  lemma {:induction false} TokenEndOf(a: string, rest: string)
    requires forall i :: 0 <= i < |a| ==> !IsSepChar(a[i])
    requires rest == [] || IsSepChar(rest[0])
    ensures TokenEnd(a + rest) == |a|
  {
    if a == [] {
      assert a + rest == rest;
    } else {
      assert (a + rest)[0] == a[0];
      assert (a + rest)[1..] == a[1..] + rest;
      TokenEndOf(a[1..], rest);
    }
  }

  lemma {:induction false} SepEndOf(w: string, rest: string)
    requires forall i :: 0 <= i < |w| ==> IsSepChar(w[i])
    requires rest == [] || !IsSepChar(rest[0])
    ensures SepEnd(w + rest) == |w|
  {
    if w == [] {
      assert w + rest == rest;
    } else {
      assert (w + rest)[0] == w[0];
      assert (w + rest)[1..] == w[1..] + rest;
      SepEndOf(w[1..], rest);
    }
  }

  /** A text made of two tokens around a separator divides exactly there:
      the pattern then matches, with the two tokens as its groups. */
  lemma SplitOfTokens(a: string, w: string, b: string)
    requires IsNumberToken(a) && IsSeparator(w) && IsNumberToken(b)
    ensures SplitCoordinates(a + w + b) == (a, w, b)
  {
    TokenHasNoSep(a);
    assert b[0] == '-' || IsDigit(b[0]);
    assert w != [] by { assert CountChar(w, ',') > 0 || CountChar(w, ' ') > 0; }
    SplitAtRuns(a, w, b);
  }

  /** A text divides after its first run of non-separators and the run of
      separators that follows. */
  lemma SplitAtRuns(a: string, w: string, b: string)
    requires forall i :: 0 <= i < |a| ==> !IsSepChar(a[i])
    requires w != [] && forall i :: 0 <= i < |w| ==> IsSepChar(w[i])
    requires b == [] || !IsSepChar(b[0])
    ensures SplitCoordinates(a + w + b) == (a, w, b)
  {
    var s := a + w + b;
    assert s == a + (w + b);
    TokenEndOf(a, w + b);
    assert w + b == s[|a|..];
    SepEndOf(w, b);
    assert s[|a|..][..|w|] == w;
  }

  /** The coordinates `lat` and `lon` written as tokens `a` and `b` around
      any separator are read back within range, and refused outside it. */
  lemma ParseOfTokens(a: string, w: string, b: string)
    requires IsNumberToken(a) && IsSeparator(w) && IsNumberToken(b)
    ensures var lat, lon := TokenValue(a), TokenValue(b);
            ParseLatLon(Some(a + w + b))
            == if -90.0 <= lat <= 90.0 && -180.0 <= lon <= 180.0 then Some((lat, lon)) else None
  {
    TrimOfTokens(a, w, b);
    SplitOfTokens(a, w, b);
    TokenNumber(a);
    TokenNumber(b);
    ParseOfParts(a + w + b, a, w, b);
  }

  lemma ParseOfParts(s: string, a: string, w: string, b: string)
    requires s != [] && SplitCoordinates(s) == (a, w, b)
    requires IsNumberToken(a) && IsSeparator(w) && IsNumberToken(b)
    requires FiniteNumber(Str(a)) == Some(TokenValue(a)) && FiniteNumber(Str(b)) == Some(TokenValue(b))
    ensures var lat, lon := TokenValue(a), TokenValue(b);
            ParseTrimmed(s)
            == if -90.0 <= lat <= 90.0 && -180.0 <= lon <= 180.0 then Some((lat, lon)) else None
  {
  }

  /** Two tokens with anything between them have no white space around them. */
  lemma TrimOfTokens(a: string, w: string, b: string)
    requires IsNumberToken(a) && IsNumberToken(b)
    ensures a + w + b != [] && Trim(a + w + b) == a + w + b
  {
    var s := a + w + b;
    TokenTrimmed(a);
    TokenTrimmed(b);
    assert s[0] == a[0] && s[|s| - 1] == b[|b| - 1];
    TrimOfTrimmed(s);
  }

  /** Whatever is accepted is two tokens around a separator, read as numbers. */
  lemma ParseSound(input: Option<string>)
    requires ParseLatLon(input).Some?
    ensures var (a, w, b) := SplitCoordinates(Trim(input.GetOr("")));
            && IsNumberToken(a) && IsSeparator(w) && IsNumberToken(b)
            && Trim(input.GetOr("")) == a + w + b
            && ParseLatLon(input).value == (TokenValue(a), TokenValue(b))
  {
    var (a, w, b) := SplitCoordinates(Trim(input.GetOr("")));
    TokenNumber(a);
    TokenNumber(b);
  }

  // ---------------------------------------------------------------------
  // dir16

  const Labels16: seq<string> :=
    ["N", "NNE", "NE", "ENE", "E", "ESE", "SE", "SSE", "S", "SSW", "SW", "WSW", "W", "WNW", "NW", "NNW"]

  /** The sector index `dir16` computes for a finite direction:
      `(Math.round((d % 360) / 22.5) + 16) % 16`. */
  function SectorOf(d: real): (k: int)
    ensures 0 <= k < 16
  {
    var x := Rem360(d) / 22.5;
    assert -16.0 < x < 16.0;
    (Round(x) + 16) % 16
  }

  /** `dir16(deg)`: the nearest of the 16 compass points, "" when the
      direction is not a finite number. */
  function Dir16(deg: JsValue): (r: string)
    ensures r == "" <==> !ToNumber(deg).Finite?
  {
    match ToNumber(deg)
    case Finite(d) =>
      var k := SectorOf(d);
      LabelNonEmpty(k);
      Labels16[k]
    case _ => ""
  }

  lemma LabelNonEmpty(k: int)
    requires 0 <= k < 16
    ensures |Labels16[k]| > 0
  {
  }

  /** Every finite direction is named by one of the 16 points. */
  lemma Dir16Label(deg: JsValue)
    requires ToNumber(deg).Finite?
    ensures Dir16(deg) in Labels16
  {
  }

  /** The remainder of the next turn is the same, or one turn more. */
  lemma Rem360Step(d: real)
    ensures Rem360(d + 360.0) == Rem360(d) || Rem360(d + 360.0) == Rem360(d) + 360.0
  {
    var x := d / 360.0;
    assert (d + 360.0) / 360.0 == x + 1.0;
    if d >= 0.0 {
      assert (x + 1.0).Floor == x.Floor + 1;
    } else if d > -360.0 {
      assert Trunc(x) == 0 && Trunc(x + 1.0) == 0;
    } else {
      assert (-x - 1.0).Floor == (-x).Floor - 1;
      assert Trunc(x + 1.0) == Trunc(x) + 1;
    }
  }

  /** `dir16` repeats every full turn. */
  lemma Dir16Periodic(d: real)
    ensures Dir16(Num(Finite(d + 360.0))) == Dir16(Num(Finite(d)))
  {
    SectorPeriodic(d);
  }

  lemma SectorPeriodic(d: real)
    ensures SectorOf(d + 360.0) == SectorOf(d)
  {
    Rem360Step(d);
    if Rem360(d + 360.0) != Rem360(d) {
      var x := Rem360(d) / 22.5;
      assert Rem360(d + 360.0) / 22.5 == x + 16 as real;
      RoundShift(x, 16);
      var m := Round(x) + 16;
      assert (m + 16) % 16 == m % 16;
    }
  }

  /** Within one turn either way, a direction no more than half a sector
      below the k-th point and less than half a sector above it is named by
      that point; a direction exactly half-way rounds to the next one. */
  lemma Dir16Nearest(d: real, k: int)
    requires -360.0 < d < 360.0
    requires k as real * 22.5 - 11.25 <= d < k as real * 22.5 + 11.25
    ensures SectorOf(d) == (k + 16) % 16
    ensures Dir16(Num(Finite(d))) == Labels16[(k + 16) % 16]
  {
    assert Trunc(d / 360.0) == 0;
    assert Rem360(d) == d;
    RoundUnique(d / 22.5, k);
  }

  /** Each of the 16 points is named by its own label, and the direction
      half a sector past it already by the next one (so 11.25 degrees is
      NNE and 348.75 is N again). */
  lemma Dir16Points(k: int)
    requires 0 <= k < 16
    ensures Dir16(Num(Finite(k as real * 22.5))) == Labels16[k]
    ensures Dir16(Num(Finite(k as real * 22.5 + 11.25))) == Labels16[(k + 1) % 16]
  {
    var d := k as real * 22.5;
    Dir16Nearest(d, k);
    Dir16Nearest(d + 11.25, k + 1);
    assert SectorOf(d) == k;
    assert SectorOf(d + 11.25) == (k + 1) % 16;
  }
}
