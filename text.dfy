/** String helpers shared by the model: JavaScript whitespace and `trim`,
    ASCII case mapping, substring search and decimal digits. */
module Text {
  import opened Wrappers

  /** The characters JavaScript's `trim` and the regular-expression class `\s`
      treat as white space (WhiteSpace and LineTerminator of ECMA-262). */
  predicate IsSpace(c: char) {
    || c == ' ' || c == '\t' || c == '\n' || c == '\r' || c == '\U{000B}' || c == '\U{000C}'
    || c == '\U{00A0}' || c == '\U{1680}' || ('\U{2000}' <= c <= '\U{200A}')
    || c == '\U{2028}' || c == '\U{2029}' || c == '\U{202F}' || c == '\U{205F}'
    || c == '\U{3000}' || c == '\U{FEFF}'
  }

  function TrimStart(s: string): (r: string)
    ensures |r| <= |s| && r == s[|s| - |r|..]
    ensures r == [] || !IsSpace(r[0])
    ensures forall i :: 0 <= i < |s| - |r| ==> IsSpace(s[i])
  {
    if |s| > 0 && IsSpace(s[0]) then TrimStart(s[1..]) else s
  }

  function TrimEnd(s: string): (r: string)
    ensures |r| <= |s| && r == s[..|r|]
    ensures r == [] || !IsSpace(r[|r| - 1])
    ensures forall i :: |r| <= i < |s| ==> IsSpace(s[i])
  {
    if |s| > 0 && IsSpace(s[|s| - 1]) then TrimEnd(s[..|s| - 1]) else s
  }

  /** `String.prototype.trim`. */
  function Trim(s: string): (r: string)
    ensures |r| <= |s|
    ensures r == [] || (!IsSpace(r[0]) && !IsSpace(r[|r| - 1]))
  {
    TrimEnd(TrimStart(s))
  }

  lemma TrimOfTrimmed(s: string)
    requires s == [] || (!IsSpace(s[0]) && !IsSpace(s[|s| - 1]))
    ensures Trim(s) == s
  {
  }

  lemma TrimIdempotent(s: string)
    ensures Trim(Trim(s)) == Trim(s)
  {
    TrimOfTrimmed(Trim(s));
  }

  lemma TrimEmptyIffAllSpace(s: string)
    ensures Trim(s) == [] <==> forall i :: 0 <= i < |s| ==> IsSpace(s[i])
  {
    var t := TrimStart(s);
    if t != [] {
      assert !IsSpace(s[|s| - |t|]);
    }
  }

  /** ASCII upper-case letters to lower case; every other character is kept. */
  function LowerChar(c: char): (r: char)
    ensures 'A' <= c <= 'Z' ==> 'a' <= r <= 'z'
  {
    if 'A' <= c <= 'Z' then (c as int + 32) as char else c
  }

  function UpperChar(c: char): (r: char)
    ensures 'a' <= c <= 'z' ==> 'A' <= r <= 'Z'
  {
    if 'a' <= c <= 'z' then (c as int - 32) as char else c
  }

  /** `toLowerCase`, restricted to the ASCII letters. */
  function Lower(s: string): (r: string)
    ensures |r| == |s|
  {
    seq(|s|, i requires 0 <= i < |s| => LowerChar(s[i]))
  }

  /** `toUpperCase`, restricted to the ASCII letters. */
  function Upper(s: string): (r: string)
    ensures |r| == |s|
  {
    seq(|s|, i requires 0 <= i < |s| => UpperChar(s[i]))
  }

  predicate StartsWith(s: string, p: string) {
    |p| <= |s| && s[..|p|] == p
  }

  lemma StartsWithConcat(p: string, x: string)
    ensures StartsWith(p + x, p)
  {
    assert (p + x)[..|p|] == p;
  }

  predicate EndsWith(s: string, p: string) {
    |p| <= |s| && s[|s| - |p|..] == p
  }

  /** `Array.prototype.join(sep)` on strings. */
  function Join(parts: seq<string>, sep: string): string {
    if parts == [] then "" else if |parts| == 1 then parts[0] else parts[0] + sep + Join(parts[1..], sep)
  }

  /** `[x, ...ab, ...ct].join(sep)` for at most one element in each of `ab` and `ct`. */
  lemma JoinUpToThree(x: string, ab: seq<string>, ct: seq<string>, sep: string)
    requires |ab| <= 1 && |ct| <= 1
    ensures Join([x] + ab + ct, sep)
            == x + (if ab != [] then sep + ab[0] else "") + (if ct != [] then sep + ct[0] else "")
  {
    if ab == [] {
      JoinUpToTwo(x, ct, sep);
    } else if ct == [] {
      JoinUpToTwo(x, ab, sep);
    } else {
      JoinAllThree(x, ab, ct, sep);
    }
  }

  /** The same join, with the text each optional part contributes named. */
  lemma JoinOptionalParts(x: string, ab: seq<string>, ct: seq<string>, abText: string, ctText: string)
    requires |ab| <= 1 && |ct| <= 1
    requires abText == (if ab != [] then " " + ab[0] else "")
    requires ctText == (if ct != [] then " " + ct[0] else "")
    ensures Join([x] + ab + ct, " ") == x + (abText + ctText)
  {
    JoinUpToThree(x, ab, ct, " ");
    assert x + abText + ctText == x + (abText + ctText);
  }

  lemma JoinUpToTwo(x: string, ab: seq<string>, sep: string)
    requires |ab| <= 1
    ensures Join([x] + ab + [], sep) == x + (if ab != [] then sep + ab[0] else "") + ""
    ensures Join([x] + [] + ab, sep) == x + "" + (if ab != [] then sep + ab[0] else "")
  {
    var parts := [x] + ab;
    assert [x] + ab + [] == parts && [x] + [] + ab == parts;
    assert parts[0] == x;
    if ab == [] {
      assert x + "" + "" == x;
    } else {
      assert parts[1] == ab[0];
      JoinTwo(parts, sep);
      assert x + "" + (sep + ab[0]) == x + (sep + ab[0]) + "" == x + (sep + ab[0]);
    }
  }

  lemma JoinAllThree(x: string, ab: seq<string>, ct: seq<string>, sep: string)
    requires |ab| == 1 && |ct| == 1
    ensures Join([x] + ab + ct, sep)
            == x + (if ab != [] then sep + ab[0] else "") + (if ct != [] then sep + ct[0] else "")
  {
    var parts := [x] + ab + ct;
    assert parts[0] == x && parts[1] == ab[0] && parts[2] == ct[0];
    JoinThree(parts, sep);
  }

  lemma JoinTwo(parts: seq<string>, sep: string)
    requires |parts| == 2
    ensures Join(parts, sep) == parts[0] + (sep + parts[1])
  {
    var rest := parts[1..];
    assert |rest| == 1 && rest[0] == parts[1];
    assert parts[0] + sep + parts[1] == parts[0] + (sep + parts[1]);
  }

  lemma JoinThree(parts: seq<string>, sep: string)
    requires |parts| == 3
    ensures Join(parts, sep) == parts[0] + (sep + parts[1]) + (sep + parts[2])
  {
    var rest := parts[1..];
    assert |rest| == 2 && rest[0] == parts[1] && rest[1] == parts[2];
    JoinTwo(rest, sep);
    assert parts[0] + sep + (parts[1] + (sep + parts[2]))
           == parts[0] + (sep + parts[1]) + (sep + parts[2]);
  }

  predicate OccursAt(s: string, p: string, i: int) {
    0 <= i && i + |p| <= |s| && s[i..i + |p|] == p
  }

  function IndexFrom(s: string, p: string, i: nat): (r: Option<nat>)
    decreases |s| - i
    ensures r.Some? ==> (i <= r.value && OccursAt(s, p, r.value)
                         && forall j :: i <= j < r.value ==> !OccursAt(s, p, j))
    ensures r.None? ==> forall j :: i <= j ==> !OccursAt(s, p, j)
  {
    if i + |p| > |s| then None
    else if s[i..i + |p|] == p then Some(i)
    else IndexFrom(s, p, i + 1)
  }

  /** `String.prototype.indexOf`: the first position of `p` in `s`, if any. */
  function IndexOf(s: string, p: string): (r: Option<nat>)
    ensures r.Some? ==> OccursAt(s, p, r.value) && forall j :: 0 <= j < r.value ==> !OccursAt(s, p, j)
    ensures r.None? <==> forall j :: !OccursAt(s, p, j)
  {
    IndexFrom(s, p, 0)
  }

  /** `String.prototype.includes`. */
  predicate Contains(s: string, p: string) {
    IndexOf(s, p).Some?
  }

  lemma ContainsAt(s: string, p: string, i: int)
    requires OccursAt(s, p, i)
    ensures Contains(s, p)
  {
  }

  lemma ContainsWithin(s: string, p: string, q: string)
    requires Contains(p, q)
    ensures forall a, b :: Contains(a + p + b, q)
  {
    var i := IndexOf(p, q).value;
    forall a, b ensures Contains(a + p + b, q) {
      var t := a + p + b;
      assert t[|a| + i..|a| + i + |q|] == p[i..i + |q|];
      ContainsAt(t, q, |a| + i);
    }
  }

  predicate IsDigit(c: char) {
    '0' <= c <= '9'
  }

  predicate AllDigits(s: string) {
    forall i :: 0 <= i < |s| ==> IsDigit(s[i])
  }

  predicate IsAsciiAlnumLower(c: char) {
    ('a' <= c <= 'z') || IsDigit(c)
  }

  function DigitVal(c: char): (r: nat)
    requires IsDigit(c)
    ensures r < 10
  {
    c as int - '0' as int
  }

  function DigitChar(n: nat): (c: char)
    requires n < 10
    ensures IsDigit(c) && DigitVal(c) == n
  {
    ('0' as int + n) as char
  }

  function Pow10(k: nat): (r: nat)
    ensures r >= 1
  {
    if k == 0 then 1 else 10 * Pow10(k - 1)
  }

  lemma {:induction false} Pow10Monotone(a: nat, b: nat)
    requires a <= b
    ensures Pow10(a) <= Pow10(b)
  {
    if a < b {
      Pow10Monotone(a, b - 1);
    }
  }

  /** The value of a string of decimal digits, as `Number` reads it. */
  function DigitsValue(s: string): (r: nat)
    requires AllDigits(s)
    ensures r < Pow10(|s|)
  {
    if s == [] then 0 else 10 * DigitsValue(s[..|s| - 1]) + DigitVal(s[|s| - 1])
  }

  /** A leading zero keeps the value below the next shorter power of ten. */
  lemma {:induction false} LeadingZeroValue(s: string)
    requires |s| >= 1 && AllDigits(s) && s[0] == '0'
    ensures DigitsValue(s) < Pow10(|s| - 1)
  {
    if |s| > 1 {
      var p := s[..|s| - 1];
      assert p[0] == '0';
      LeadingZeroValue(p);
    }
  }

  /** The shortest decimal text of a natural number, as `String(n)` writes it. */
  function NatToString(n: nat): (r: string)
    ensures |r| >= 1 && AllDigits(r)
    ensures (r[0] == '0') == (n == 0)
  {
    if n < 10 then [DigitChar(n)] else NatToString(n / 10) + [DigitChar(n % 10)]
  }

  lemma {:induction false} NatToStringValue(n: nat)
    ensures DigitsValue(NatToString(n)) == n
  {
    if n >= 10 {
      var r := NatToString(n);
      assert r[..|r| - 1] == NatToString(n / 10);
      NatToStringValue(n / 10);
    }
  }

  lemma {:induction false} NatToStringLength(n: nat, k: nat)
    requires Pow10(k) <= n < Pow10(k + 1)
    ensures |NatToString(n)| == k + 1
  {
    if k > 0 {
      NatToStringLength(n / 10, k - 1);
    }
  }

  /** A digit string without a leading zero is the text `String` gives for its value. */
  lemma {:induction false} NatToStringOfDigits(s: string)
    requires |s| >= 1 && AllDigits(s) && (s[0] != '0' || |s| == 1)
    ensures NatToString(DigitsValue(s)) == s
  {
    if |s| > 1 {
      var p := s[..|s| - 1];
      assert p[0] == s[0];
      NatToStringOfDigits(p);
      var v := DigitsValue(p);
      assert v >= 1;
      assert DigitsValue(s) / 10 == v && DigitsValue(s) % 10 == DigitVal(s[|s| - 1]);
    } else {
      assert DigitChar(DigitVal(s[0])) == s[0];
    }
  }

  /** `String(n).padStart(2, '0')`. */
  function Pad2(n: nat): (r: string)
    ensures AllDigits(r) && |r| >= 2 && DigitsValue(r) == n
    ensures n < 100 ==> |r| == 2
  {
    NatToStringValue(n);
    var t := NatToString(n);
    if |t| < 2 then
      assert DigitsValue("0" + t) == DigitsValue(t) by {
        assert ("0" + t)[..1] == "0";
      }
      "0" + t
    else
      assert n < 100 ==> |t| == 2 by {
        if n < 100 && n >= 10 { NatToStringLength(n, 1); }
      }
      t
  }

  lemma Pad2OfDigits(s: string)
    requires |s| == 2 && AllDigits(s)
    ensures Pad2(DigitsValue(s)) == s
  {
    if s[0] == '0' {
      assert DigitsValue(s) == DigitVal(s[1]) by { assert s[..1] == "0"; }
      assert DigitChar(DigitVal(s[1])) == s[1];
    } else {
      NatToStringOfDigits(s);
    }
  }

  /** The value of `int "." frac` for digit strings, as `Number` reads a decimal. */
  function DecimalValue(whole: string, frac: string): (r: real)
    requires AllDigits(whole) && AllDigits(frac)
    ensures r >= 0.0
  {
    DigitsValue(whole) as real + DigitsValue(frac) as real / Pow10(|frac|) as real
  }
}
