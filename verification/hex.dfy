/**
  Radix-16 rendering and parsing of natural numbers: the part of the big-integer
  library the key codec relies on. `ToHexLower` is `BigUint::to_str_radix(16)`
  (lower-case digits, no prefix, no leading zeros, "0" for zero); `ParseHex` is
  `BigUint::from_str_radix(_, 16)` restricted to its strict language (a non-empty
  string of ASCII hex digits of either case, leading zeros allowed).
 */
module Hex {
  import opened Wrappers

  predicate IsHexDigit(c: char) {
    ('0' <= c <= '9') || ('a' <= c <= 'f') || ('A' <= c <= 'F')
  }

  predicate IsLowerHexDigit(c: char) {
    ('0' <= c <= '9') || ('a' <= c <= 'f')
  }

  predicate AllHexDigits(s: seq<char>) {
    forall i :: 0 <= i < |s| ==> IsHexDigit(s[i])
  }

  /** The strict language accepted by `ParseHex`. */
  predicate IsHexString(s: seq<char>) {
    |s| > 0 && AllHexDigits(s)
  }

  /** The canonical rendering: lower-case digits and no leading zero, except "0" itself. */
  predicate IsCanonicalHex(s: seq<char>) {
    && |s| > 0
    && (forall i :: 0 <= i < |s| ==> IsLowerHexDigit(s[i]))
    && (s[0] == '0' ==> |s| == 1)
  }

  function DigitVal(c: char): (d: nat)
    requires IsHexDigit(c)
    ensures d < 16
    ensures d == 0 <==> c == '0'
  {
    if '0' <= c <= '9' then c as int - '0' as int
    else if 'a' <= c <= 'f' then c as int - 'a' as int + 10
    else c as int - 'A' as int + 10
  }

  function LowerDigit(d: nat): (c: char)
    requires d < 16
    ensures IsLowerHexDigit(c)
    ensures DigitVal(c) == d
  {
    if d < 10 then ('0' as int + d) as char else ('a' as int + d - 10) as char
  }

  /** The value of a string of hex digits, most significant digit first; "" has value 0. */
  function HexVal(s: seq<char>): nat
    requires AllHexDigits(s)
  {
    if |s| == 0 then 0 else HexVal(s[..|s| - 1]) * 16 + DigitVal(s[|s| - 1])
  }

  /** `to_str_radix(16)`: the canonical lower-case rendering, whose value is `n`. */
  function ToHexLower(n: nat): (r: seq<char>)
    ensures IsCanonicalHex(r)
    ensures AllHexDigits(r) && HexVal(r) == n
    decreases n
  {
    if n < 16 then [LowerDigit(n)]
    else
      var p := ToHexLower(n / 16);
      var r := p + [LowerDigit(n % 16)];
      assert r[..|r| - 1] == p;
      r
  }

  /** `from_str_radix(_, 16).ok()` on the strict language. */
  function ParseHex(s: seq<char>): (r: Option<nat>)
    ensures r.Some? ==> 0 < |s| && r.value < Pow16(|s|)
  {
    if IsHexString(s) then
      HexValBound(s);
      Some(HexVal(s))
    else None
  }

  function Pow16(k: nat): (p: nat)
    ensures p > 0
  {
    if k == 0 then 1 else 16 * Pow16(k - 1)
  }

  /** A string of k hex digits has a value below 16^k. */
  lemma {:induction false} HexValBound(s: seq<char>)
    requires AllHexDigits(s)
    ensures HexVal(s) < Pow16(|s|)
  {
    if |s| > 0 {
      HexValBound(s[..|s| - 1]);
    }
  }

  /** ASCII lower-casing of one character; every other character is left alone. */
  function LowerChar(c: char): char {
    if 'A' <= c <= 'Z' then (c as int - 'A' as int + 'a' as int) as char else c
  }

  function AsciiLower(s: seq<char>): (r: seq<char>)
    ensures |r| == |s|
    ensures forall i :: 0 <= i < |s| ==> r[i] == LowerChar(s[i])
  {
    seq(|s|, i requires 0 <= i < |s| => LowerChar(s[i]))
  }

  /** Drops leading '0' digits, keeping at least one character. */
  function StripLeadingZeros(s: seq<char>): (r: seq<char>)
    ensures |r| <= |s| && r == s[|s| - |r|..]
    ensures |s| > 0 ==> |r| > 0
    ensures |r| > 1 ==> r[0] != '0'
    ensures forall i :: 0 <= i < |s| - |r| ==> s[i] == '0'
  {
    if |s| > 1 && s[0] == '0' then StripLeadingZeros(s[1..]) else s
  }

  // ---------------------------------------------------------------------------
  // Properties of the rendering and the parser
  // ---------------------------------------------------------------------------

  lemma DivMod16(q: nat, d: nat)
    requires d < 16
    ensures (q * 16 + d) / 16 == q && (q * 16 + d) % 16 == d
  {
  }

  /** A hex string that does not start with '0' has a positive value. */
  lemma {:induction false} HexValPositive(s: seq<char>)
    requires AllHexDigits(s) && |s| > 0 && s[0] != '0'
    ensures HexVal(s) > 0
  {
    if |s| > 1 {
      HexValPositive(s[..|s| - 1]);
    }
  }

  /** Canonical strings are exactly the renderings: `ToHexLower` inverts `HexVal` on them. */
  lemma {:induction false} CanonicalHexRoundTrip(s: seq<char>)
    requires IsCanonicalHex(s)
    ensures AllHexDigits(s)
    ensures ToHexLower(HexVal(s)) == s
  {
    var p, c := s[..|s| - 1], s[|s| - 1];
    LowerDigitOfDigitVal(c);
    if |s| > 1 {
      assert IsCanonicalHex(p);
      HexValPositive(p);
      CanonicalHexRoundTrip(p);
      ToHexLowerStep(HexVal(p), DigitVal(c));
      assert s == p + [c];
    }
  }

  lemma LowerDigitOfDigitVal(c: char)
    requires IsLowerHexDigit(c)
    ensures LowerDigit(DigitVal(c)) == c
  {
  }

  /** Rendering a number of two or more digits appends its last digit to the rendering of the rest. */
  lemma ToHexLowerStep(q: nat, d: nat)
    requires 0 < q && d < 16
    ensures ToHexLower(q * 16 + d) == ToHexLower(q) + [LowerDigit(d)]
  {
    DivMod16(q, d);
  }

  /** Prefixing a '0' digit does not change the value. */
  lemma {:induction false} HexValLeadingZero(s: seq<char>)
    requires AllHexDigits(s)
    ensures AllHexDigits(['0'] + s)
    ensures HexVal(['0'] + s) == HexVal(s)
  {
    var z := ['0'] + s;
    if |s| > 0 {
      assert z[..|z| - 1] == ['0'] + s[..|s| - 1];
      HexValLeadingZero(s[..|s| - 1]);
    }
  }

  /** Leading zeros never change the parsed value. */
  lemma {:induction false} ParseHexLeadingZeros(s: seq<char>)
    ensures ParseHex(StripLeadingZeros(s)) == ParseHex(s)
  {
    if |s| > 1 && s[0] == '0' {
      ParseHexLeadingZeros(s[1..]);
      if IsHexString(s) {
        HexValLeadingZero(s[1..]);
        assert s == ['0'] + s[1..];
      }
    }
  }

  /** Upper- and lower-case digits are accepted alike and have the same value. */
  lemma {:induction false} ParseHexIgnoresCase(s: seq<char>)
    ensures ParseHex(AsciiLower(s)) == ParseHex(s)
  {
    var t := AsciiLower(s);
    assert IsHexString(t) <==> IsHexString(s) by {
      forall i | 0 <= i < |s|
        ensures IsHexDigit(t[i]) <==> IsHexDigit(s[i])
      {
      }
    }
    if IsHexString(s) {
      HexValIgnoresCase(s);
    }
  }

  lemma {:induction false} HexValIgnoresCase(s: seq<char>)
    requires AllHexDigits(s)
    ensures AllHexDigits(AsciiLower(s))
    ensures HexVal(AsciiLower(s)) == HexVal(s)
  {
    var t := AsciiLower(s);
    if |s| > 0 {
      assert t[..|t| - 1] == AsciiLower(s[..|s| - 1]);
      HexValIgnoresCase(s[..|s| - 1]);
    }
  }

  /**
    What a successful parse means, independently of `HexVal`: the parsed value's
    canonical rendering is the input lower-cased with its leading zeros removed.
   */
  lemma ParseHexCanonical(s: seq<char>)
    requires ParseHex(s).Some?
    ensures ToHexLower(ParseHex(s).value) == StripLeadingZeros(AsciiLower(s))
  {
    var t := AsciiLower(s);
    ParseHexIgnoresCase(s);
    ParseHexLeadingZeros(t);
    var u := StripLeadingZeros(t);
    LowerHexSuffix(s, t, u);
    CanonicalHexRoundTrip(u);
  }

  lemma LowerHexSuffix(s: seq<char>, t: seq<char>, u: seq<char>)
    requires IsHexString(s) && t == AsciiLower(s) && u == StripLeadingZeros(t)
    ensures IsCanonicalHex(u)
  {
    LowerOfHexDigits(s);
    var k := |t| - |u|;
    assert u == t[k..];
    LowerHexDigitsSuffix(t, k);
  }

  lemma LowerHexDigitsSuffix(t: seq<char>, k: nat)
    requires k <= |t|
    requires forall j :: 0 <= j < |t| ==> IsLowerHexDigit(t[j])
    ensures forall i :: 0 <= i < |t| - k ==> IsLowerHexDigit(t[k..][i])
  {
    forall i | 0 <= i < |t| - k
      ensures IsLowerHexDigit(t[k..][i])
    {
      assert t[k..][i] == t[k + i];
    }
  }

  lemma LowerOfHexDigits(s: seq<char>)
    requires AllHexDigits(s)
    ensures forall i :: 0 <= i < |s| ==> IsLowerHexDigit(AsciiLower(s)[i])
  {
    forall i | 0 <= i < |s|
      ensures IsLowerHexDigit(AsciiLower(s)[i])
    {
      assert IsHexDigit(s[i]);
    }
  }

  /** Rendering then parsing gives the value back. */
  lemma ParseHexToHexLower(n: nat)
    ensures ParseHex(ToHexLower(n)) == Some(n)
  {
  }
}
