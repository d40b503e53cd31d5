/**
  The transport codec for an RSA public key shared by host and guest. The host
  renders (n, e) as "<n_hex>,<e_hex>"; the guest's `parse_public_key` trims the
  input, splits it on ',', demands exactly two parts and parses each as hex,
  answering `None` on any failure.
 */
module KeyCodec {
  import opened Wrappers
  import opened Hex
  import opened Text

  /** The public half of an RSA key: modulus and exponent, unbounded naturals. */
  datatype PublicKey = PublicKey(n: nat, e: nat)

  const Separator: char := ','

  /** Host side: `format!("{},{}", n.to_str_radix(16), e.to_str_radix(16))`. */
  function EncodePublicKey(k: PublicKey): (s: seq<char>)
    ensures Count(s, Separator) == 1
  {
    var a, b := ToHexLower(k.n), ToHexLower(k.e);
    NoSeparatorInHex(a);
    NoSeparatorInHex(b);
    var s := a + [Separator] + b;
    assert multiset(s) == multiset(a) + multiset{Separator} + multiset(b);
    s
  }

  /** Guest side: `parse_public_key`. */
  function ParsePublicKey(encoded: seq<char>): (r: Option<PublicKey>)
    ensures r.Some? ==> Count(Trim(encoded), Separator) == 1
  {
    var parts := Split(Trim(encoded), Separator);
    SplitCount(Trim(encoded), Separator);
    if |parts| != 2 then None
    else
      var n :- ParseHex(parts[0]);
      var e :- ParseHex(parts[1]);
      Some(PublicKey(n, e))
  }

  lemma NoSeparatorInHex(s: seq<char>)
    requires AllHexDigits(s)
    ensures Separator !in s && Count(s, Separator) == 0
  {
    assert forall i :: 0 <= i < |s| ==> s[i] != Separator;
  }

  lemma JoinTwo(a: seq<char>, b: seq<char>)
    ensures Join([a, b], Separator) == a + [Separator] + b
  {
    assert [a, b][1..] == [b];
  }

  // ---------------------------------------------------------------------------
  // Decoding: acceptance and rejection
  // ---------------------------------------------------------------------------

  /** Two hex fields around a single comma are accepted, with their values. */
  lemma ParseAccepts(s: seq<char>, a: seq<char>, b: seq<char>)
    requires Trim(s) == a + [Separator] + b
    requires IsHexString(a) && IsHexString(b)
    ensures ParsePublicKey(s) == Some(PublicKey(HexVal(a), HexVal(b)))
  {
    NoSeparatorInHex(a);
    NoSeparatorInHex(b);
    SplitJoin([a, b], Separator);
    JoinTwo(a, b);
  }

  /** Every accepted input has that shape, and the result is the fields' values. */
  lemma ParseSound(s: seq<char>)
    requires ParsePublicKey(s).Some?
    ensures exists a, b ::
      && Trim(s) == a + [Separator] + b
      && IsHexString(a) && IsHexString(b)
      && ParsePublicKey(s).value == PublicKey(HexVal(a), HexVal(b))
  {
    var parts := Split(Trim(s), Separator);
    SplitJoinBack(Trim(s), Separator);
    var a, b := parts[0], parts[1];
    assert parts == [a, b];
    JoinTwo(a, b);
  }

  /** No comma, or two or more commas, after trimming: rejected. */
  lemma ParseRejectsSeparatorCount(s: seq<char>)
    requires Count(Trim(s), Separator) != 1
    ensures ParsePublicKey(s) == None
  {
    SplitCount(Trim(s), Separator);
  }

  /** A single comma with an empty or non-hex field on either side: rejected. */
  lemma ParseRejectsBadField(s: seq<char>, a: seq<char>, b: seq<char>)
    requires Trim(s) == a + [Separator] + b
    requires !IsHexString(a) || !IsHexString(b)
    ensures ParsePublicKey(s) == None
  {
    var t := Trim(s);
    assert multiset(t) == multiset(a) + multiset{Separator} + multiset(b);
    if Count(a, Separator) == 0 && Count(b, Separator) == 0 {
      SplitJoin([a, b], Separator);
      JoinTwo(a, b);
    } else {
      ParseRejectsSeparatorCount(s);
    }
  }

  /**
    White space is trimmed only at the ends of the whole input: a blank next to
    the comma makes that field non-hex, so the input is rejected.
   */
  lemma ParseRejectsBlankAtSeparator(s: seq<char>, a: seq<char>, b: seq<char>)
    requires Trim(s) == a + [Separator] + b
    requires (|a| > 0 && IsWhitespace(a[|a| - 1])) || (|b| > 0 && IsWhitespace(b[0]))
    ensures ParsePublicKey(s) == None
  {
    if |a| > 0 && IsWhitespace(a[|a| - 1]) {
      assert !IsHexDigit(a[|a| - 1]);
    } else {
      assert !IsHexDigit(b[0]);
    }
    ParseRejectsBadField(s, a, b);
  }

  /** The concrete case: "ab, cd" is rejected. */
  lemma ParseRejectsSpaceAfterComma()
    ensures ParsePublicKey("ab, cd") == None
  {
    var s := "ab, cd";
    assert IsTrimmed(s);
    TrimOfTrimmed(s);
    assert s == "ab" + [Separator] + " cd";
    ParseRejectsBlankAtSeparator(s, "ab", " cd");
  }

  /** White space around the whole input is ignored. */
  lemma ParseIgnoresSurroundingWhitespace(w1: seq<char>, s: seq<char>, w2: seq<char>)
    requires AllWhitespace(w1) && AllWhitespace(w2)
    ensures ParsePublicKey(w1 + s + w2) == ParsePublicKey(s)
  {
    TrimIgnoresPadding(w1, s, w2);
  }

  /** Digit case and leading zeros in either field do not change the decoded key. */
  lemma ParseFieldsCanonical(s: seq<char>)
    requires ParsePublicKey(s).Some?
    ensures exists a, b ::
      && Trim(s) == a + [Separator] + b
      && ToHexLower(ParsePublicKey(s).value.n) == StripLeadingZeros(AsciiLower(a))
      && ToHexLower(ParsePublicKey(s).value.e) == StripLeadingZeros(AsciiLower(b))
  {
    var parts := Split(Trim(s), Separator);
    SplitJoinBack(Trim(s), Separator);
    var a, b := parts[0], parts[1];
    assert parts == [a, b];
    JoinTwo(a, b);
    ParseHexCanonical(a);
    ParseHexCanonical(b);
  }

  // ---------------------------------------------------------------------------
  // Encoding and the round trip
  // ---------------------------------------------------------------------------

  /**
    The encoding is the canonical rendering of n, one comma, and the canonical
    rendering of e: each field is non-empty lower-case hex without prefix or
    leading zero ("0" for zero) and has the key component as its value.
   */
  lemma EncodeFields(k: PublicKey)
    ensures var s, i := EncodePublicKey(k), |ToHexLower(k.n)|;
      && 0 < i < |s| - 1
      && s[i] == Separator
      && IsCanonicalHex(s[..i]) && AllHexDigits(s[..i]) && HexVal(s[..i]) == k.n
      && IsCanonicalHex(s[i + 1..]) && AllHexDigits(s[i + 1..]) && HexVal(s[i + 1..]) == k.e
  {
    var a, b := ToHexLower(k.n), ToHexLower(k.e);
    var s := EncodePublicKey(k);
    assert s[..|a|] == a && s[|a| + 1..] == b;
  }

  /** The encoding holds exactly one comma and no white space at all. */
  lemma EncodeShape(k: PublicKey)
    ensures Count(EncodePublicKey(k), Separator) == 1
    ensures forall j :: 0 <= j < |EncodePublicKey(k)| ==> !IsWhitespace(EncodePublicKey(k)[j])
  {
    var a, b := ToHexLower(k.n), ToHexLower(k.e);
    var s := EncodePublicKey(k);
    NoSeparatorInHex(a);
    NoSeparatorInHex(b);
    assert multiset(s) == multiset(a) + multiset{Separator} + multiset(b);
    HexFieldsHaveNoBlank(a, b);
  }

  lemma HexFieldsHaveNoBlank(a: seq<char>, b: seq<char>)
    requires AllHexDigits(a) && AllHexDigits(b)
    ensures forall j :: 0 <= j < |a + [Separator] + b| ==> !IsWhitespace((a + [Separator] + b)[j])
  {
    var s := a + [Separator] + b;
    forall j | 0 <= j < |s|
      ensures !IsWhitespace(s[j])
    {
      if j < |a| {
        assert s[j] == a[j];
        assert IsHexDigit(a[j]);
      } else if j > |a| {
        assert s[j] == b[j - |a| - 1];
        assert IsHexDigit(b[j - |a| - 1]);
      }
    }
  }

  /** The encoding has no white space at its ends, so the guest's trim leaves it alone. */
  lemma EncodeSurvivesTrim(k: PublicKey)
    ensures Trim(EncodePublicKey(k)) == EncodePublicKey(k)
  {
    EncodeShape(k);
    TrimOfTrimmed(EncodePublicKey(k));
  }

  /** Decoding the host's encoding recovers the key. */
  lemma RoundTrip(k: PublicKey)
    ensures ParsePublicKey(EncodePublicKey(k)) == Some(k)
  {
    var s := EncodePublicKey(k);
    var a, b := ToHexLower(k.n), ToHexLower(k.e);
    assert s == a + [Separator] + b;
    EncodeSurvivesTrim(k);
    ParseAccepts(s, a, b);
  }

  /** Distinct keys have distinct encodings. */
  lemma EncodeInjective(k1: PublicKey, k2: PublicKey)
    requires EncodePublicKey(k1) == EncodePublicKey(k2)
    ensures k1 == k2
  {
    RoundTrip(k1);
    RoundTrip(k2);
  }

  /**
    The encoding is the only canonical one: any pair of canonical fields joined
    by a comma is the host's encoding of the key they denote.
   */
  lemma EncodeUniqueCanonical(a: seq<char>, b: seq<char>)
    requires IsCanonicalHex(a) && IsCanonicalHex(b)
    ensures AllHexDigits(a) && AllHexDigits(b)
    ensures EncodePublicKey(PublicKey(HexVal(a), HexVal(b))) == a + [Separator] + b
  {
    CanonicalHexRoundTrip(a);
    CanonicalHexRoundTrip(b);
    var k := PublicKey(HexVal(a), HexVal(b));
    var s := EncodePublicKey(k);
    assert s == ToHexLower(k.n) + [Separator] + ToHexLower(k.e);
  }
}
