/** The dynamically typed values the source handles, and the JavaScript
    conversions it applies to them (`Number(v)`, truthiness, `??`). */
module Js {
  import opened Wrappers
  import opened Text

  /** An IEEE-754 double seen as an exact real, or one of its non-finite values. */
  datatype JsNumber = Finite(r: real) | NaN | PosInf | NegInf

  /** A JSON-like value as it appears in fetched records and form state;
      `Undefined` also stands for a property that is absent. */
  datatype JsValue = Undefined | Null | Bool(b: bool) | Num(n: JsNumber) | Str(s: string)

  predicate Nullish(v: JsValue) {
    v.Undefined? || v.Null?
  }

  predicate Truthy(v: JsValue) {
    match v
    case Undefined => false
    case Null => false
    case Bool(b) => b
    case Num(n) => !(n.NaN? || n == Finite(0.0))
    case Str(s) => s != ""
  }

  /** A property of an object; an absent one reads as `undefined`. */
  function Lookup(m: map<string, JsValue>, k: string): (r: JsValue)
    ensures k !in m ==> r == Undefined
  {
    if k in m then m[k] else Undefined
  }

  /** `a ?? b` */
  function Coalesce(a: JsValue, b: JsValue): (r: JsValue)
    ensures !Nullish(a) ==> r == a
    ensures Nullish(a) ==> r == b
  {
    if Nullish(a) then b else a
  }

  /** `a || b` */
  function OrElse(a: JsValue, b: JsValue): (r: JsValue)
    ensures Truthy(a) ==> r == a
    ensures !Truthy(a) ==> r == b
  {
    if Truthy(a) then a else b
  }

  /** An unsigned decimal literal "d+", "d+.d*" or ".d+" and its value. */
  function UnsignedDecimal(t: string): (r: Option<real>)
    ensures r.Some? ==> r.value >= 0.0
  {
    match IndexOf(t, ".")
    case None =>
      if |t| > 0 && AllDigits(t) then Some(DigitsValue(t) as real) else None
    case Some(k) =>
      var whole, frac := t[..k], t[k + 1..];
      if AllDigits(whole) && AllDigits(frac) && (|whole| > 0 || |frac| > 0)
      then Some(DecimalValue(whole, frac)) else None
  }

  /** `Number(s)` for a string: white space is trimmed, the empty string is 0,
      an optionally signed decimal or "Infinity" is read; anything else is NaN. */
  function StringToNumber(s: string): (r: JsNumber)
    ensures Trim(s) == "" ==> r == Finite(0.0)
  {
    var t := Trim(s);
    if t == "" then Finite(0.0)
    else
      var neg := t[0] == '-';
      var body := if t[0] == '-' || t[0] == '+' then t[1..] else t;
      if body == "Infinity" then (if neg then NegInf else PosInf)
      else match UnsignedDecimal(body)
        case Some(x) => Finite(if neg then -x else x)
        case None => NaN
  }

  /** `Number(v)`. */
  function ToNumber(v: JsValue): (r: JsNumber)
    ensures v.Null? ==> r == Finite(0.0)
    ensures v.Undefined? ==> r == NaN
    ensures v.Num? ==> r == v.n
  {
    match v
    case Undefined => NaN
    case Null => Finite(0.0)
    case Bool(b) => Finite(if b then 1.0 else 0.0)
    case Num(n) => n
    case Str(s) => StringToNumber(s)
  }

  /** `Number.isFinite(Number(v))` together with the number it gives. */
  function FiniteNumber(v: JsValue): (r: Option<real>)
    ensures r.Some? <==> ToNumber(v).Finite?
    ensures r.Some? ==> r.value == ToNumber(v).r
  {
    match ToNumber(v)
    case Finite(x) => Some(x)
    case _ => None
  }

  lemma NumberOfNullIsZero()
    ensures FiniteNumber(Null) == Some(0.0)
    ensures FiniteNumber(Str("")) == Some(0.0)
    ensures FiniteNumber(Undefined) == None
  {
  }

  /** `Math.round`: the nearest integer, halves going towards +infinity. */
  function Round(x: real): (r: int)
    ensures r as real - 0.5 <= x < r as real + 0.5
  {
    (x + 0.5).Floor
  }

  lemma RoundUnique(x: real, k: int)
    requires k as real - 0.5 <= x < k as real + 0.5
    ensures Round(x) == k
  {
  }

  lemma RoundShift(x: real, k: int)
    ensures Round(x + k as real) == Round(x) + k
  {
    RoundUnique(x + k as real, Round(x) + k);
  }

  /** Truncation towards zero, as JavaScript's `%` and `slice` use it. */
  function Trunc(x: real): (r: int)
    ensures x >= 0.0 ==> r as real <= x < r as real + 1.0
    ensures x < 0.0 ==> r as real - 1.0 < x <= r as real
  {
    if x >= 0.0 then x.Floor else -((-x).Floor)
  }

  /** JavaScript's `x % 360` on a finite number: the remainder of truncating
      division, with the sign of the dividend. */
  function Rem360(x: real): (r: real)
    ensures x >= 0.0 ==> 0.0 <= r < 360.0
    ensures x < 0.0 ==> -360.0 < r <= 0.0
    ensures x - r == Trunc(x / 360.0) as real * 360.0
  {
    var k := Trunc(x / 360.0) as real;
    assert x >= 0.0 ==> k <= x / 360.0 < k + 1.0;
    x - k * 360.0
  }
}
