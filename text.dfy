/**
 * Character and string helpers with Rust's standard-library meaning:
 * `str::trim`, `str::len` (bytes of UTF-8), ASCII lower-casing,
 * `i32`/`u32` parsing and integer formatting.
 */
module Text {
  import opened Wrappers

  /** Rust's `char::is_whitespace`: the Unicode White_Space property. */
  predicate IsWhitespace(c: char) {
    var n := c as int;
    (0x09 <= n <= 0x0D) || n == 0x20 || n == 0x85 || n == 0xA0 || n == 0x1680
    || (0x2000 <= n <= 0x200A) || n == 0x2028 || n == 0x2029 || n == 0x202F
    || n == 0x205F || n == 0x3000
  }

  /** `str::trim`: leading and trailing whitespace removed. */
  function Trim(s: string): (r: string)
    ensures |r| <= |s|
    ensures r != [] ==> !IsWhitespace(r[0]) && !IsWhitespace(r[|r| - 1])
  {
    if s != [] && IsWhitespace(s[0]) then Trim(s[1..])
    else if s != [] && IsWhitespace(s[|s| - 1]) then Trim(s[..|s| - 1])
    else s
  }

  /** Where the trimmed text starts and ends in `s`. */
  function TrimBounds(s: string): (b: (nat, nat))
    ensures b.0 <= b.1 <= |s|
    decreases |s|
  {
    if s != [] && IsWhitespace(s[0]) then
      var inner := TrimBounds(s[1..]);
      (inner.0 + 1, inner.1 + 1)
    else if s != [] && IsWhitespace(s[|s| - 1]) then TrimBounds(s[..|s| - 1])
    else (0, |s|)
  }

  /** `s[i..j]` with whitespace before `i` and from `j` on. */
  predicate MiddleSlice(s: string, i: nat, j: nat, r: string) {
    && i <= j <= |s| && r == s[i..j]
    && (forall k :: 0 <= k < i ==> IsWhitespace(s[k]))
    && (forall k :: j <= k < |s| ==> IsWhitespace(s[k]))
  }

  lemma MiddleSliceFront(s: string, i: nat, j: nat, r: string)
    requires s != [] && IsWhitespace(s[0]) && MiddleSlice(s[1..], i, j, r)
    ensures MiddleSlice(s, i + 1, j + 1, r)
  {
    var t := s[1..];
    assert t[i..j] == s[i + 1..j + 1];
    forall k | 0 <= k < i + 1 ensures IsWhitespace(s[k]) {
      if k > 0 { assert s[k] == t[k - 1]; }
    }
    forall k | j + 1 <= k < |s| ensures IsWhitespace(s[k]) {
      assert s[k] == t[k - 1];
    }
  }

  lemma MiddleSliceBack(s: string, i: nat, j: nat, r: string)
    requires s != [] && IsWhitespace(s[|s| - 1]) && MiddleSlice(s[..|s| - 1], i, j, r)
    ensures MiddleSlice(s, i, j, r)
  {
    var t := s[..|s| - 1];
    assert t[i..j] == s[i..j];
    forall k | 0 <= k < i ensures IsWhitespace(s[k]) {
      assert s[k] == t[k];
    }
    forall k | j <= k < |s| ensures IsWhitespace(s[k]) {
      if k < |s| - 1 { assert s[k] == t[k]; }
    }
  }

  /** What `Trim` keeps is the middle slice of `s` between a whitespace prefix and a whitespace suffix. */
  lemma {:induction false} TrimIsMiddleSlice(s: string)
    ensures MiddleSlice(s, TrimBounds(s).0, TrimBounds(s).1, Trim(s))
    decreases |s|
  {
    if s != [] && IsWhitespace(s[0]) {
      TrimIsMiddleSlice(s[1..]);
      MiddleSliceFront(s, TrimBounds(s[1..]).0, TrimBounds(s[1..]).1, Trim(s));
    } else if s != [] && IsWhitespace(s[|s| - 1]) {
      TrimIsMiddleSlice(s[..|s| - 1]);
      MiddleSliceBack(s, TrimBounds(s[..|s| - 1]).0, TrimBounds(s[..|s| - 1]).1, Trim(s));
    } else {
      assert s[0..|s|] == s;
    }
  }

  /** A string with no whitespace at either end is its own trim. */
  lemma TrimUntouched(s: string)
    requires s != [] ==> !IsWhitespace(s[0]) && !IsWhitespace(s[|s| - 1])
    ensures Trim(s) == s
  {
  }

  /** Number of bytes `c` takes in UTF-8. */
  function Utf8Width(c: char): (w: nat)
    ensures 1 <= w <= 4
    ensures w == 1 <==> c as int < 0x80
  {
    var n := c as int;
    if n < 0x80 then 1 else if n < 0x800 then 2 else if n < 0x10000 then 3 else 4
  }

  /** `str::len`: the length of `s` in UTF-8 bytes. */
  function Utf8Len(s: string): (n: nat)
    ensures n >= |s|
    ensures n == |s| <==> forall k :: 0 <= k < |s| ==> s[k] as int < 0x80
  {
    if s == [] then 0 else Utf8Width(s[0]) + Utf8Len(s[1..])
  }

  predicate IsAsciiDigit(c: char) {
    '0' <= c <= '9'
  }

  predicate AllDigits(s: string) {
    forall k :: 0 <= k < |s| ==> IsAsciiDigit(s[k])
  }

  /** Value of a string of decimal digits, most significant first. */
  function DigitsValue(s: string): (v: nat)
    requires AllDigits(s)
  {
    if s == [] then 0 else DigitsValue(s[..|s| - 1]) * 10 + (s[|s| - 1] as int - '0' as int)
  }

  function DigitValue(c: char): int {
    c as int - '0' as int
  }

  lemma DigitsValueTwo(t: string)
    requires |t| == 2 && AllDigits(t)
    ensures DigitsValue(t) == 10 * DigitValue(t[0]) + DigitValue(t[1])
  {
    var a := t[..1];
    assert a[..0] == [] && a[0] == t[0];
    assert DigitsValue(a) == DigitValue(t[0]);
  }

  lemma DigitsValueFour(t: string)
    requires |t| == 4 && AllDigits(t)
    ensures DigitsValue(t) == 1000 * DigitValue(t[0]) + 100 * DigitValue(t[1]) + 10 * DigitValue(t[2]) + DigitValue(t[3])
  {
    DigitsValueTwo(t[..2]);
    assert t[..3][..2] == t[..2];
    assert t[..2][0] == t[0] && t[..2][1] == t[1];
  }

  /** A string of one to four ASCII digits parses as the `i32` it spells. */
  lemma ParseDigits(t: string)
    requires 1 <= |t| <= 4 && AllDigits(t)
    ensures ParseI32(t) == Some(DigitsValue(t))
  {
    DigitsValueBound(t);
  }

  lemma {:induction false} DigitsValueBound(t: string)
    requires |t| <= 4 && AllDigits(t)
    ensures DigitsValue(t) < 10000
    ensures |t| <= 3 ==> DigitsValue(t) < 1000
    ensures |t| <= 2 ==> DigitsValue(t) < 100
    ensures |t| <= 1 ==> DigitsValue(t) < 10
  {
    if t != [] {
      var init := t[..|t| - 1];
      assert AllDigits(init) by {
        forall k | 0 <= k < |init| ensures IsAsciiDigit(init[k]) { assert init[k] == t[k]; }
      }
      DigitsValueBound(init);
      assert IsAsciiDigit(t[|t| - 1]);
      assert DigitsValue(t) == DigitsValue(init) * 10 + (t[|t| - 1] as int - '0' as int);
    }
  }

  function DigitChar(d: nat): (c: char)
    requires d < 10
    ensures IsAsciiDigit(c) && c as int - '0' as int == d
  {
    ('0' as int + d) as char
  }

  /** Decimal digits of `n`, without leading zeros (`7` gives "7", not "07"). */
  function NatToString(n: nat): (s: string)
    ensures s != [] && AllDigits(s)
    ensures |s| > 1 ==> s[0] != '0'
  {
    if n < 10 then [DigitChar(n)] else NatToString(n / 10) + [DigitChar(n % 10)]
  }

  /** `i32::to_string` / `u32::to_string`: a minus sign for negatives, then the digits. */
  function IntToString(n: int): (s: string)
    ensures s != []
  {
    if n < 0 then "-" + NatToString(-n) else NatToString(n)
  }

  /** The signs `from_str` takes before the digits: none, `+`, or `-` for a signed type. */
  predicate SignPrefix(p: string, signed: bool) {
    p == "" || p == "+" || (signed && p == "-")
  }

  /** The number that the digits `d` stand for under the sign `p`. */
  function SignedValue(p: string, d: string): int
    requires AllDigits(d)
  {
    var v: int := DigitsValue(d);
    if p == "-" then -v else v
  }

  /** Rust's integer `from_str` for a type whose range is [lo, hi]: an optional `+`
   *  (or `-` when the type is signed) then one or more ASCII digits, in range. */
  function ParseInteger(s: string, signed: bool, lo: int, hi: int): (r: Option<int>)
    ensures r.Some? ==> lo <= r.value <= hi
    ensures r.Some? ==> s != [] && forall k :: 0 <= k < |s| ==> s[k] as int < 0x80
    ensures r.Some? ==>
              var n := if s[0] == '+' || s[0] == '-' then 1 else 0;
              && n < |s| && SignPrefix(s[..n], signed) && AllDigits(s[n..])
              && r.value == SignedValue(s[..n], s[n..])
  {
    if s == [] || (|s| == 1 && (s[0] == '+' || s[0] == '-')) then None
    else
      var negative := signed && s[0] == '-';
      var digits := if s[0] == '+' || negative then s[1..] else s;
      if !AllDigits(digits) then None
      else
        var magnitude: int := DigitsValue(digits);
        var v := if negative then 0 - magnitude else magnitude;
        if lo <= v <= hi then Some(v) else None
  }

  /** Conversely, every sign followed by one or more digits parses, to its value when that
   *  lies in the range and to nothing otherwise. */
  lemma ParseSignedDigits(p: string, d: string, signed: bool, lo: int, hi: int)
    requires SignPrefix(p, signed) && d != [] && AllDigits(d)
    ensures ParseInteger(p + d, signed, lo, hi) == if lo <= SignedValue(p, d) <= hi then Some(SignedValue(p, d)) else None
  {
    var s := p + d;
    if p == "" {
      assert s == d && IsAsciiDigit(s[0]);
    } else {
      assert s[0] == p[0] && s[1..] == d;
    }
  }

  const I32Min: int := -0x8000_0000
  const I32Max: int := 0x7FFF_FFFF
  const U32Max: int := 0xFFFF_FFFF

  /** `str::parse::<i32>`. */
  function ParseI32(s: string): Option<int> {
    ParseInteger(s, true, I32Min, I32Max)
  }

  /** `str::parse::<u32>`. */
  function ParseU32(s: string): Option<int> {
    ParseInteger(s, false, 0, U32Max)
  }

  lemma {:induction false} NatToStringValue(n: nat)
    ensures DigitsValue(NatToString(n)) == n
  {
    if n >= 10 {
      var s := NatToString(n);
      assert s[..|s| - 1] == NatToString(n / 10);
      NatToStringValue(n / 10);
    }
  }

  /** Formatting an `i32` and parsing it back gives the same number. */
  lemma IntToStringRoundTrip(n: int)
    requires I32Min <= n <= I32Max
    ensures ParseI32(IntToString(n)) == Some(n)
  {
    var s := IntToString(n);
    if n < 0 {
      assert s[1..] == NatToString(-n);
      NatToStringValue(-n);
    } else {
      NatToStringValue(n);
    }
  }

  /** Distinct numbers are formatted differently. */
  lemma IntToStringInjective(m: int, n: int)
    requires I32Min <= m <= I32Max && I32Min <= n <= I32Max
    requires IntToString(m) == IntToString(n)
    ensures m == n
  {
    IntToStringRoundTrip(m);
    IntToStringRoundTrip(n);
  }

  function LowerAscii(c: char): (r: char)
    ensures 'A' <= c <= 'Z' ==> r as int == c as int + 32
    ensures !('A' <= c <= 'Z') ==> r == c
  {
    if 'A' <= c <= 'Z' then (c as int + 32) as char else c
  }

  /** `str::to_lowercase` restricted to ASCII letters; every other character is kept. */
  function ToLowerAscii(s: string): (r: string)
    ensures |r| == |s| && forall k :: 0 <= k < |s| ==> r[k] == LowerAscii(s[k])
  {
    if s == [] then [] else [LowerAscii(s[0])] + ToLowerAscii(s[1..])
  }
}
