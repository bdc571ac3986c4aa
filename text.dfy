/** The Rust string and number primitives the replay decoder is built on:
    `str::split` and `str::split_once` on a one-character pattern, `str::find`,
    `char::is_alphabetic`, and `str::parse` for `i64` and `f64`.
    Floating-point values are modelled as exact reals (no IEEE rounding). */
module Text {

  datatype Option<T> = None | Some(value: T)

  predicate IsDigit(c: char) { '0' <= c <= '9' }

  /** Letters as `char::is_alphabetic` sees them, restricted to ASCII. */
  predicate IsAlphabetic(c: char) { 'a' <= c <= 'z' || 'A' <= c <= 'Z' }

  /** Position of the first `c` in `s` (`s.find(c).unwrap()`). */
  function FirstIndex(s: string, c: char): (i: nat)
    requires c in s
    ensures i < |s| && s[i] == c && c !in s[..i]
  {
    if s[0] == c then 0
    else
      var i := FirstIndex(s[1..], c) + 1;
      assert s[..i] == [s[0]] + s[1..][..i - 1];
      i
  }

  /** Position of the first letter of `s`, or `|s|` when there is none. */
  function FirstAlphabetic(s: string): (i: nat)
    ensures i <= |s|
    ensures forall k :: 0 <= k < i ==> !IsAlphabetic(s[k])
    ensures i < |s| ==> IsAlphabetic(s[i])
  {
    if s == [] || IsAlphabetic(s[0]) then 0 else FirstAlphabetic(s[1..]) + 1
  }

  /** Number of occurrences of `c` in `s`. */
  function Count(s: string, c: char): nat
  {
    if s == [] then 0 else (if s[0] == c then 1 else 0) + Count(s[1..], c)
  }

  lemma {:induction false} CountConcat(a: string, b: string, c: char)
    ensures Count(a + b, c) == Count(a, c) + Count(b, c)
  {
    if a == [] {
      assert a + b == b;
    } else {
      assert (a + b)[1..] == a[1..] + b;
      CountConcat(a[1..], b, c);
    }
  }

  lemma {:induction false} CountAbsent(s: string, c: char)
    requires c !in s
    ensures Count(s, c) == 0
  {
    if s != [] {
      CountAbsent(s[1..], c);
    }
  }

  /** `s.split(sep)`: the pieces between separators, at least one. */
  function Split(s: string, sep: char): (parts: seq<string>)
    ensures |parts| >= 1
    ensures forall k :: 0 <= k < |parts| ==> sep !in parts[k]
    decreases |s|
  {
    if sep !in s then [s]
    else
      var i := FirstIndex(s, sep);
      [s[..i]] + Split(s[i + 1..], sep)
  }

  /** `Split` cuts at the first separator. */
  lemma SplitAt(s: string, sep: char, i: nat)
    requires i < |s| && s[i] == sep && sep !in s[..i]
    ensures Split(s, sep) == [s[..i]] + Split(s[i + 1..], sep)
  {
  }

  /** Glues pieces back together with the separator between them. */
  function Join(parts: seq<string>, sep: char): string
    requires |parts| >= 1
  {
    if |parts| == 1 then parts[0] else parts[0] + [sep] + Join(parts[1..], sep)
  }

  /** Splitting loses nothing: joining the pieces gives back the input. */
  lemma {:induction false} SplitJoin(s: string, sep: char)
    ensures Join(Split(s, sep), sep) == s
    decreases |s|
  {
    if sep in s {
      var i := FirstIndex(s, sep);
      var parts := Split(s, sep);
      var rest := Split(s[i + 1..], sep);
      assert parts == [s[..i]] + rest;
      assert parts[0] == s[..i] && parts[1..] == rest;
      SplitJoin(s[i + 1..], sep);
      assert Join(parts, sep) == s[..i] + [sep] + Join(rest, sep);
      assert s == s[..i] + [sep] + s[i + 1..];
    }
  }

  /** There is one piece more than there are separators. */
  lemma {:induction false} SplitCount(s: string, sep: char)
    ensures |Split(s, sep)| == Count(s, sep) + 1
    decreases |s|
  {
    if sep !in s {
      CountAbsent(s, sep);
    } else {
      var i := FirstIndex(s, sep);
      SplitCount(s[i + 1..], sep);
      assert s == s[..i] + ([sep] + s[i + 1..]);
      CountConcat(s[..i], [sep] + s[i + 1..], sep);
      CountConcat([sep], s[i + 1..], sep);
      CountAbsent(s[..i], sep);
    }
  }

  /** `s.split_once(sep)`: the text before and after the first separator. */
  function SplitOnce(s: string, sep: char): (r: Option<(string, string)>)
    ensures r.Some? <==> sep in s
    ensures r.Some? ==> s == r.value.0 + [sep] + r.value.1 && sep !in r.value.0
  {
    if sep in s then
      var i := FirstIndex(s, sep);
      assert s == s[..i] + [sep] + s[i + 1..];
      Some((s[..i], s[i + 1..]))
    else None
  }

  const I64Min: int := -0x8000_0000_0000_0000
  const I64Max: int := 0x7FFF_FFFF_FFFF_FFFF

  predicate AllDigits(s: string)
  {
    forall k :: 0 <= k < |s| ==> IsDigit(s[k])
  }

  /** The value of a string of decimal digits. */
  function DigitsValue(s: string): nat
    requires AllDigits(s)
    decreases |s|
  {
    if s == [] then 0 else DigitsValue(s[..|s| - 1]) * 10 + (s[|s| - 1] as int - '0' as int)
  }

  function Pow10(n: nat): (p: nat)
    ensures p > 0
  {
    if n == 0 then 1 else 10 * Pow10(n - 1)
  }

  /** An optional leading `+` or `-`: whether it was `-`, and what follows it. */
  function StripSign(s: string): (bool, string)
  {
    if |s| > 0 && (s[0] == '+' || s[0] == '-') then (s[0] == '-', s[1..]) else (false, s)
  }

  /** `s.parse::<i64>()`: an optional sign, then at least one digit, in the
      range of a signed 64-bit integer. */
  function ParseI64(s: string): (r: Option<int>)
    ensures r.Some? ==> I64Min <= r.value <= I64Max
  {
    var sign := StripSign(s);
    if |sign.1| == 0 || !AllDigits(sign.1) then None
    else
      var magnitude: int := DigitsValue(sign.1);
      var n := if sign.0 then -magnitude else magnitude;
      if I64Min <= n <= I64Max then Some(n) else None
  }

  /** Position of the first exponent mark `e` or `E`, or `|s|`. */
  function ExponentMark(s: string): (i: nat)
    ensures i <= |s|
  {
    if s == [] || s[0] == 'e' || s[0] == 'E' then 0 else ExponentMark(s[1..]) + 1
  }

  /** The digits before the exponent: `12`, `12.`, `.5` or `12.5`. */
  function ParseMantissa(m: string): Option<real>
  {
    if '.' in m then
      var p := FirstIndex(m, '.');
      var whole := m[..p];
      var fraction := m[p + 1..];
      if |whole| + |fraction| == 0 || !AllDigits(whole) || !AllDigits(fraction) then None
      else
        var scale := Pow10(|fraction|);
        Some((DigitsValue(whole) * scale + DigitsValue(fraction)) as real / scale as real)
    else if |m| == 0 || !AllDigits(m) then None
    else Some(DigitsValue(m) as real)
  }

  /** The exponent after `e`: an optional sign and at least one digit. */
  function ParseExponent(x: string): Option<int>
  {
    var sign := StripSign(x);
    if |sign.1| == 0 || !AllDigits(sign.1) then None
    else
      var magnitude: int := DigitsValue(sign.1);
      Some(if sign.0 then -magnitude else magnitude)
  }

  /** `s.parse::<f64>()` on the decimal forms: an optional sign, a mantissa and
      an optional exponent. */
  function ParseF64(s: string): Option<real>
  {
    var sign := StripSign(s);
    var body := sign.1;
    var e := ExponentMark(body);
    var mantissa := ParseMantissa(body[..e]);
    var exponent := if e < |body| then ParseExponent(body[e + 1..]) else Some(0);
    if mantissa.None? || exponent.None? then None
    else
      var magnitude :=
        if exponent.value >= 0 then mantissa.value * Pow10(exponent.value) as real
        else mantissa.value / Pow10(-exponent.value) as real;
      Some(if sign.0 then -magnitude else magnitude)
  }

  /** A string of digits holds no exponent mark. */
  lemma {:induction false} DigitsNoMark(s: string)
    requires AllDigits(s)
    ensures ExponentMark(s) == |s|
  {
    if s != [] {
      assert AllDigits(s[1..]) by {
        forall k | 0 <= k < |s[1..]| ensures IsDigit(s[1..][k]) {
          assert s[1..][k] == s[k + 1];
        }
      }
      DigitsNoMark(s[1..]);
    }
  }

  /** Every text `i64` parsing accepts, `f64` parsing accepts too, with the
      same value. */
  lemma ParseF64OfInteger(s: string)
    requires ParseI64(s).Some?
    ensures ParseF64(s) == Some(ParseI64(s).value as real)
  {
    var body := StripSign(s).1;
    DigitsNoMark(body);
    assert body[..ExponentMark(body)] == body;
    assert '.' !in body by {
      forall k | 0 <= k < |body| ensures body[k] != '.' {
        assert IsDigit(body[k]);
      }
    }
  }
}
