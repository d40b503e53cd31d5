/**
  The two `str` operations the key decoder uses: `trim`, which removes Unicode
  white space from both ends, and `split` on a single character, which always
  yields at least one (possibly empty) part.
 */
module Text {

  /** `char::is_whitespace`: the Unicode White_Space property. */
  predicate IsWhitespace(c: char) {
    || ('\U{0009}' <= c <= '\U{000D}')
    || c == '\U{0020}'
    || c == '\U{0085}'
    || c == '\U{00A0}'
    || c == '\U{1680}'
    || ('\U{2000}' <= c <= '\U{200A}')
    || c == '\U{2028}'
    || c == '\U{2029}'
    || c == '\U{202F}'
    || c == '\U{205F}'
    || c == '\U{3000}'
  }

  predicate AllWhitespace(s: seq<char>) {
    forall i :: 0 <= i < |s| ==> IsWhitespace(s[i])
  }

  /** True when `s` neither starts nor ends with white space. */
  predicate IsTrimmed(s: seq<char>) {
    |s| > 0 ==> !IsWhitespace(s[0]) && !IsWhitespace(s[|s| - 1])
  }

  /** `trim_start`: drops the leading white space. */
  function TrimStart(s: seq<char>): seq<char> {
    if |s| > 0 && IsWhitespace(s[0]) then TrimStart(s[1..]) else s
  }

  /** `trim_end`: drops the trailing white space. */
  function TrimEnd(s: seq<char>): seq<char> {
    if |s| > 0 && IsWhitespace(s[|s| - 1]) then TrimEnd(s[..|s| - 1]) else s
  }

  /** `trim`: drops the white space at both ends. */
  function Trim(s: seq<char>): (r: seq<char>)
    ensures |r| <= |s| && IsTrimmed(r)
  {
    var t := TrimStart(s);
    TrimStartSpec(s);
    TrimEndSpec(t);
    var r := TrimEnd(t);
    assert |r| > 0 ==> r[0] == t[0];
    r
  }

  /** Number of occurrences of `c` in `s`. */
  function Count(s: seq<char>, c: char): nat {
    multiset(s)[c]
  }

  /** Inverse of `Split`: the parts with one separator between neighbours. */
  function Join(parts: seq<seq<char>>, sep: char): seq<char>
    requires |parts| > 0
  {
    if |parts| == 1 then parts[0] else parts[0] + [sep] + Join(parts[1..], sep)
  }

  /**
    `split(sep)`: the maximal separator-free pieces of `s`, in order. There is
    always one more part than there are separators, so "" splits into [""].
   */
  function Split(s: seq<char>, sep: char): (parts: seq<seq<char>>)
    ensures |parts| > 0
  {
    if |s| == 0 then [[]]
    else
      var rest := Split(s[1..], sep);
      if s[0] == sep then [[]] + rest
      else [[s[0]] + rest[0]] + rest[1..]
  }

  // ---------------------------------------------------------------------------
  // Properties
  // ---------------------------------------------------------------------------

  /** `TrimStart` leaves the suffix after a maximal run of leading white space. */
  lemma {:induction false} TrimStartSpec(s: seq<char>)
    ensures var r := TrimStart(s);
      && |r| <= |s| && r == s[|s| - |r|..]
      && AllWhitespace(s[..|s| - |r|])
      && (|r| > 0 ==> !IsWhitespace(r[0]))
  {
    if |s| > 0 && IsWhitespace(s[0]) {
      TrimStartSpec(s[1..]);
      var r := TrimStart(s[1..]);
      assert s[..|s| - |r|] == [s[0]] + s[1..][..|s| - 1 - |r|];
    }
  }

  /** `TrimEnd` leaves the prefix before a maximal run of trailing white space. */
  lemma {:induction false} TrimEndSpec(s: seq<char>)
    ensures var r := TrimEnd(s);
      && |r| <= |s| && r == s[..|r|]
      && AllWhitespace(s[|r|..])
      && (|r| > 0 ==> !IsWhitespace(r[|r| - 1]))
  {
    if |s| > 0 && IsWhitespace(s[|s| - 1]) {
      var p := s[..|s| - 1];
      TrimEndSpec(p);
      var r := TrimEnd(p);
      assert s[|r|..] == p[|r|..] + [s[|s| - 1]];
    }
  }

  /**
    `Trim` leaves an infix of the input with no white space at its own ends and
    only white space around it.
   */
  lemma TrimSpec(s: seq<char>)
    ensures var r, k := Trim(s), |s| - |TrimStart(s)|;
      && IsTrimmed(r)
      && 0 <= k && k + |r| <= |s|
      && r == s[k..k + |r|]
      && AllWhitespace(s[..k])
      && AllWhitespace(s[k + |r|..])
  {
    TrimStartSpec(s);
    TrimIsInfix(s);
    TrimTrailingBlank(s);
    TrimEnds(s);
  }

  lemma TrimIsInfix(s: seq<char>)
    ensures var r, k := Trim(s), |s| - |TrimStart(s)|;
      0 <= k && k + |r| <= |s| && r == s[k..k + |r|]
  {
    var t := TrimStart(s);
    TrimStartSpec(s);
    TrimEndSpec(t);
    var k, r := |s| - |t|, TrimEnd(t);
    assert t == s[k..];
    assert r == t[..|r|];
  }

  lemma TrimTrailingBlank(s: seq<char>)
    ensures var r, k := Trim(s), |s| - |TrimStart(s)|;
      0 <= k && k + |r| <= |s| && AllWhitespace(s[k + |r|..])
  {
    var t := TrimStart(s);
    TrimStartSpec(s);
    TrimEndSpec(t);
    var k, r := |s| - |t|, TrimEnd(t);
    assert t == s[k..];
    assert s[k + |r|..] == t[|r|..];
  }

  lemma TrimEnds(s: seq<char>)
    ensures IsTrimmed(Trim(s))
  {
    var t := TrimStart(s);
    TrimStartSpec(s);
    TrimEndSpec(t);
    var r := TrimEnd(t);
    if |r| > 0 {
      assert r[0] == t[0];
    }
  }

  /**
    Splitting yields one more part than there are separators, no part holds the
    separator, and joining the parts with it gives the input back.
   */
  lemma SplitSpec(s: seq<char>, sep: char)
    ensures var parts := Split(s, sep);
      && |parts| == Count(s, sep) + 1
      && (forall i :: 0 <= i < |parts| ==> sep !in parts[i])
      && Join(parts, sep) == s
  {
    SplitCount(s, sep);
    SplitPartsFree(s, sep);
    SplitJoinBack(s, sep);
  }

  lemma {:induction false} SplitCount(s: seq<char>, sep: char)
    ensures |Split(s, sep)| == Count(s, sep) + 1
  {
    if |s| > 0 {
      SplitCount(s[1..], sep);
      assert s == [s[0]] + s[1..];
      assert multiset(s) == multiset{s[0]} + multiset(s[1..]);
    }
  }

  lemma {:induction false} SplitPartsFree(s: seq<char>, sep: char)
    ensures forall i :: 0 <= i < |Split(s, sep)| ==> sep !in Split(s, sep)[i]
  {
    if |s| > 0 {
      SplitPartsFree(s[1..], sep);
      var rest, parts := Split(s[1..], sep), Split(s, sep);
      if s[0] == sep {
        assert forall i :: 1 <= i < |parts| ==> parts[i] == rest[i - 1];
      } else {
        assert forall i :: 1 <= i < |parts| ==> parts[i] == rest[i];
        assert parts[0] == [s[0]] + rest[0];
      }
    }
  }

  lemma {:induction false} SplitJoinBack(s: seq<char>, sep: char)
    ensures Join(Split(s, sep), sep) == s
  {
    if |s| > 0 {
      SplitJoinBack(s[1..], sep);
      var rest, parts := Split(s[1..], sep), Split(s, sep);
      if s[0] == sep {
        assert parts[1..] == rest;
        assert Join(parts, sep) == [] + [sep] + Join(rest, sep);
      } else {
        assert parts[1..] == rest[1..];
        if |rest| > 1 {
          assert Join(rest, sep) == rest[0] + [sep] + Join(rest[1..], sep);
          assert Join(parts, sep) == ([s[0]] + rest[0]) + [sep] + Join(rest[1..], sep);
        }
      }
      assert s == [s[0]] + s[1..];
    }
  }

  /** White space padding on either side does not change the trimmed string. */
  lemma {:induction false} TrimIgnoresPadding(w1: seq<char>, s: seq<char>, w2: seq<char>)
    requires AllWhitespace(w1) && AllWhitespace(w2)
    ensures Trim(w1 + s + w2) == Trim(s)
  {
    assert w1 + s + w2 == w1 + (s + w2);
    TrimStartPadded(w1, s + w2);
    var t := TrimStart(s);
    if |t| == 0 {
      TrimStartSpec(s);
      assert s[..|s|] == s;
      assert AllWhitespace(s + w2);
      TrimStartAllWhitespace(s + w2);
    } else {
      TrimStartAppend(s, w2);
      TrimEndPadded(t, w2);
    }
  }

  lemma {:induction false} TrimStartPadded(w: seq<char>, s: seq<char>)
    requires AllWhitespace(w)
    ensures TrimStart(w + s) == TrimStart(s)
  {
    if |w| > 0 {
      assert IsWhitespace((w + s)[0]);
      assert (w + s)[1..] == w[1..] + s;
      TrimStartPadded(w[1..], s);
    } else {
      assert w + s == s;
    }
  }

  lemma {:induction false} TrimStartAllWhitespace(w: seq<char>)
    requires AllWhitespace(w)
    ensures TrimStart(w) == []
  {
    if |w| > 0 {
      TrimStartAllWhitespace(w[1..]);
    }
  }

  lemma {:induction false} TrimStartAppend(s: seq<char>, w: seq<char>)
    requires |TrimStart(s)| > 0
    ensures TrimStart(s + w) == TrimStart(s) + w
  {
    if IsWhitespace(s[0]) {
      assert (s + w)[1..] == s[1..] + w;
      TrimStartAppend(s[1..], w);
    }
  }

  lemma {:induction false} TrimEndPadded(s: seq<char>, w: seq<char>)
    requires AllWhitespace(w)
    ensures TrimEnd(s + w) == TrimEnd(s)
  {
    if |w| > 0 {
      var sw := s + w;
      assert sw[..|sw| - 1] == s + w[..|w| - 1];
      TrimEndPadded(s, w[..|w| - 1]);
    } else {
      assert s + w == s;
    }
  }

  /** A string with no white space at either end is its own trim. */
  lemma TrimOfTrimmed(s: seq<char>)
    requires IsTrimmed(s)
    ensures Trim(s) == s
  {
  }

  /** Splitting a joined sequence of separator-free parts gives the parts back. */
  lemma {:induction false} SplitJoin(parts: seq<seq<char>>, sep: char)
    requires |parts| > 0
    requires forall i :: 0 <= i < |parts| ==> sep !in parts[i]
    ensures Split(Join(parts, sep), sep) == parts
  {
    if |parts| == 1 {
      SplitFree(parts[0], sep);
    } else {
      SplitJoin(parts[1..], sep);
      SplitCons(parts[0], Join(parts[1..], sep), sep);
    }
  }

  lemma {:induction false} SplitFree(a: seq<char>, sep: char)
    requires sep !in a
    ensures Split(a, sep) == [a]
  {
    if |a| > 0 {
      assert sep !in a[1..] && a[0] != sep;
      SplitFree(a[1..], sep);
      assert [a[0]] + a[1..] == a;
    }
  }

  lemma {:induction false} SplitCons(a: seq<char>, b: seq<char>, sep: char)
    requires sep !in a
    ensures Split(a + [sep] + b, sep) == [a] + Split(b, sep)
  {
    var s := a + [sep] + b;
    if |a| > 0 {
      assert s[1..] == a[1..] + [sep] + b;
      SplitCons(a[1..], b, sep);
      assert [a[0]] + a[1..] == a;
    } else {
      assert s[1..] == b;
    }
  }
}
