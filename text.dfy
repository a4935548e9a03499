/**
 * The string operations of Python's `str` that the core uses: `strip`, `split`,
 * `splitlines`, `join` and `replace(old, "")`, over `seq<char>`.
 */
module Text {

  /** Python's `str.isspace` set: the characters `str.strip()` removes. */
  predicate IsSpace(c: char) {
    || ('\t' <= c <= '\r')
    || ('\U{1C}' <= c <= ' ')
    || c == '\U{85}' || c == '\U{A0}' || c == '\U{1680}'
    || ('\U{2000}' <= c <= '\U{200A}')
    || c == '\U{2028}' || c == '\U{2029}' || c == '\U{202F}' || c == '\U{205F}' || c == '\U{3000}'
  }

  /** The characters at which Python's `str.splitlines` breaks a line. */
  predicate IsLineBreak(c: char) {
    || ('\n' <= c <= '\r')
    || ('\U{1C}' <= c <= '\U{1E}')
    || c == '\U{85}' || c == '\U{2028}' || c == '\U{2029}'
  }

  predicate StartsWith(s: string, p: string) {
    |p| <= |s| && s[..|p|] == p
  }

  /** `p in s` for strings. */
  predicate Contains(s: string, p: string) {
    exists k :: 0 <= k <= |s| && StartsWith(s[k..], p)
  }

  predicate HasLineBreak(s: string) {
    exists i :: 0 <= i < |s| && IsLineBreak(s[i])
  }

  // ---------------------------------------------------------------- strip

  function LeadingSpaces(s: string): (n: nat)
    ensures n <= |s|
    ensures forall i :: 0 <= i < n ==> IsSpace(s[i])
    ensures n < |s| ==> !IsSpace(s[n])
  {
    if s != [] && IsSpace(s[0]) then 1 + LeadingSpaces(s[1..]) else 0
  }

  function TrailingSpaces(s: string): (n: nat)
    ensures n <= |s|
    ensures forall i :: |s| - n <= i < |s| ==> IsSpace(s[i])
    ensures n < |s| ==> !IsSpace(s[|s| - 1 - n])
  {
    if s != [] && IsSpace(s[|s| - 1]) then 1 + TrailingSpaces(s[..|s| - 1]) else 0
  }

  /** Python's `s.strip()`: the slice of `s` between its leading and trailing whitespace. */
  function Strip(s: string): (r: string)
    ensures r == "" || (!IsSpace(r[0]) && !IsSpace(r[|r| - 1]))
    ensures exists i, j :: 0 <= i <= j <= |s| && r == s[i..j]
    ensures r == "" <==> forall i :: 0 <= i < |s| ==> IsSpace(s[i])
  {
    var u := s[LeadingSpaces(s)..];
    var r := u[..|u| - TrailingSpaces(u)];
    assert r == s[LeadingSpaces(s)..LeadingSpaces(s) + |r|];
    r
  }

  lemma StripIdempotent(s: string)
    ensures Strip(Strip(s)) == Strip(s)
  {
    var r := Strip(s);
    if r != "" {
      assert LeadingSpaces(r) == 0;
      assert TrailingSpaces(r) == 0;
    }
  }

  lemma SliceContains(s: string, i: nat, j: nat, p: string)
    requires i <= j <= |s|
    requires Contains(s[i..j], p)
    ensures Contains(s, p)
  {
    var k :| 0 <= k <= |s[i..j]| && StartsWith(s[i..j][k..], p);
    assert |p| <= j - (i + k);
    forall m | 0 <= m < |p| ensures s[i + k..][m] == p[m] {
      assert s[i..j][k..][m] == p[m];
      assert s[i..j][k..][m] == s[i + k + m];
    }
    assert s[i + k..][..|p|] == p;
    assert StartsWith(s[i + k..], p);
  }

  lemma SliceNoLineBreak(s: string, i: nat, j: nat)
    requires i <= j <= |s|
    requires !HasLineBreak(s)
    ensures !HasLineBreak(s[i..j])
  {
    forall k | 0 <= k < j - i
      ensures !IsLineBreak(s[i..j][k])
    {
      assert s[i..j][k] == s[i + k];
    }
  }

  /**
   * `s.strip()` is the slice `s[i..j]` between a whitespace prefix and a whitespace
   * suffix, when the slice is empty or neither begins nor ends with whitespace.
   */
  lemma StripSlice(s: string, i: nat, j: nat)
    requires i <= j <= |s|
    requires forall k :: 0 <= k < i ==> IsSpace(s[k])
    requires forall k :: j <= k < |s| ==> IsSpace(s[k])
    requires i < j ==> !IsSpace(s[i]) && !IsSpace(s[j - 1])
    ensures Strip(s) == s[i..j]
  {
    if i == j {
      assert forall k :: 0 <= k < |s| ==> IsSpace(s[k]) by {
        forall k | 0 <= k < |s| ensures IsSpace(s[k]) {
          if k >= j {
            assert IsSpace(s[k]);
          }
        }
      }
    } else {
      assert LeadingSpaces(s) == i;
      var u := s[i..];
      var t := TrailingSpaces(u);
      assert u[j - i - 1] == s[j - 1];
      assert t == |s| - j;
      assert u[..|u| - t] == s[i..j];
    }
  }

  /** The bounds of the slice `s.strip()` takes. */
  lemma StripBounds(x: string) returns (i: nat, j: nat)
    ensures i <= j <= |x| && Strip(x) == x[i..j]
    ensures forall k :: 0 <= k < i ==> IsSpace(x[k])
    ensures forall k :: j <= k < |x| ==> IsSpace(x[k])
    ensures i < j ==> !IsSpace(x[i]) && !IsSpace(x[j - 1])
  {
    i := LeadingSpaces(x);
    var u := x[i..];
    var t := TrailingSpaces(u);
    j := |x| - t;
    assert u[..|u| - t] == x[i..j];
    assert forall k :: j <= k < |x| ==> x[k] == u[k - i];
    if i < j {
      assert x[j - 1] == u[|u| - 1 - t];
    }
  }

  /** Whitespace on both sides of a string does not change its strip. */
  lemma StripPadded(c: char, x: string, d: char)
    requires IsSpace(c) && IsSpace(d)
    ensures Strip([c] + x + [d]) == Strip(x)
  {
    var i, j := StripBounds(x);
    var s := [c] + x + [d];
    assert forall k :: 1 <= k <= |x| ==> s[k] == x[k - 1];
    assert forall k :: 0 <= k < i + 1 ==> IsSpace(s[k]) by {
      forall k | 0 <= k < i + 1 ensures IsSpace(s[k]) {
        if k > 0 {
          assert s[k] == x[k - 1];
        }
      }
    }
    assert forall k :: j + 1 <= k < |s| ==> IsSpace(s[k]) by {
      forall k | j + 1 <= k < |s| ensures IsSpace(s[k]) {
        if k < |s| - 1 {
          assert s[k] == x[k - 1];
        }
      }
    }
    if i < j {
      assert s[i + 1] == x[i] && s[j] == x[j - 1];
    }
    StripSlice(s, i + 1, j + 1);
    PaddedSlice(c, x, d, i, j);
  }

  lemma PaddedSlice(c: char, x: string, d: char, i: nat, j: nat)
    requires i <= j <= |x|
    ensures ([c] + x + [d])[i + 1..j + 1] == x[i..j]
  {
    var s := [c] + x + [d];
    forall k | 0 <= k < j - i
      ensures s[i + 1..j + 1][k] == x[i..j][k]
    {
      assert s[i + 1 + k] == x[i + k];
    }
  }

  // ----------------------------------------------------------- split/join

  /**
   * Splitting at every character `sep` accepts: Python's `s.split("/")` when `sep`
   * accepts exactly '/'. The result always has one more piece than `s` has separators.
   */
  function SplitWhere(s: string, sep: char -> bool): (r: seq<string>)
    ensures |r| >= 1
    decreases |s|
  {
    if s == [] then [""]
    else if sep(s[0]) then [""] + SplitWhere(s[1..], sep)
    else
      var rest := SplitWhere(s[1..], sep);
      [[s[0]] + rest[0]] + rest[1..]
  }

  /** Python's `sep.join(parts)`. */
  function Join(sep: string, parts: seq<string>): (r: string)
  {
    if parts == [] then ""
    else if |parts| == 1 then parts[0]
    else parts[0] + sep + Join(sep, parts[1..])
  }

  predicate NoSep(s: string, sep: char -> bool) {
    forall i :: 0 <= i < |s| ==> !sep(s[i])
  }

  /** A separator-free prefix stays glued to the first piece of what follows it. */
  lemma {:induction false} SplitPrefix(a: string, b: string, sep: char -> bool)
    requires NoSep(a, sep)
    ensures SplitWhere(a + b, sep)
         == [a + SplitWhere(b, sep)[0]] + SplitWhere(b, sep)[1..]
    decreases |a|
  {
    if a != [] {
      assert (a + b)[1..] == a[1..] + b;
      assert (a + b)[0] == a[0];
      SplitPrefix(a[1..], b, sep);
      assert [a[0]] + (a[1..] + SplitWhere(b, sep)[0]) == a + SplitWhere(b, sep)[0];
    } else {
      var r := SplitWhere(b, sep);
      assert a + b == b;
      assert a + r[0] == r[0];
      assert [r[0]] + r[1..] == r;
    }
  }

  /** Splitting undoes joining, when the separator is one character `sep` accepts and no part has one. */
  lemma {:induction false} SplitJoin(c: char, parts: seq<string>, sep: char -> bool)
    requires sep(c)
    requires parts != []
    requires forall i :: 0 <= i < |parts| ==> NoSep(parts[i], sep)
    ensures SplitWhere(Join([c], parts), sep) == parts
    decreases |parts|
  {
    if |parts| == 1 {
      SplitPrefix(parts[0], "", sep);
      assert parts[0] + "" == parts[0];
      assert SplitWhere("", sep) == [""];
      assert Join([c], parts) == parts[0];
    } else {
      var tail := Join([c], parts[1..]);
      SplitJoin(c, parts[1..], sep);
      assert Join([c], parts) == parts[0] + ([c] + tail);
      SplitPrefix(parts[0], [c] + tail, sep);
      assert ([c] + tail)[1..] == tail;
      assert SplitWhere([c] + tail, sep) == [""] + parts[1..];
      assert parts[0] + "" == parts[0];
    }
  }

  /** No piece of a split contains a separator. */
  lemma {:induction false} SplitPiecesHaveNoSep(s: string, sep: char -> bool)
    ensures forall i :: 0 <= i < |SplitWhere(s, sep)| ==> NoSep(SplitWhere(s, sep)[i], sep)
    decreases |s|
  {
    if s != [] {
      SplitPiecesHaveNoSep(s[1..], sep);
    }
  }

  /** Joining by `sep` is associative over concatenated part lists. */
  lemma {:induction false} JoinAppend(sep: string, a: seq<string>, b: seq<string>)
    requires a != [] && b != []
    ensures Join(sep, a + b) == Join(sep, a) + sep + Join(sep, b)
    decreases |a|
  {
    if |a| == 1 {
      assert (a + b)[1..] == b;
    } else {
      assert (a + b)[1..] == a[1..] + b;
      JoinAppend(sep, a[1..], b);
    }
  }

  // -------------------------------------------------------------- replace

  /** Python's `s.replace(pat, "")`: non-overlapping occurrences, left to right, the result not rescanned. */
  function RemoveAll(s: string, pat: string): (r: string)
    requires pat != ""
    ensures |r| <= |s|
    decreases |s|
  {
    if |s| < |pat| then s
    else if s[..|pat|] == pat then RemoveAll(s[|pat|..], pat)
    else [s[0]] + RemoveAll(s[1..], pat)
  }

  /** A stretch without the pattern's first character is kept, and the deletion goes on after it. */
  lemma {:induction false} RemoveAllKeep(a: string, rest: string, pat: string)
    requires pat != ""
    requires forall i :: 0 <= i < |a| ==> a[i] != pat[0]
    ensures RemoveAll(a + rest, pat) == a + RemoveAll(rest, pat)
    decreases |a|
  {
    var s := a + rest;
    if a == [] {
      assert s == rest;
    } else if |s| >= |pat| {
      assert s[..|pat|][0] == a[0];
      assert s[1..] == a[1..] + rest;
      RemoveAllKeep(a[1..], rest, pat);
      assert [a[0]] + (a[1..] + RemoveAll(rest, pat)) == a + RemoveAll(rest, pat);
    }
  }

  /** An occurrence at the front is deleted. */
  lemma RemoveAllFront(pat: string, rest: string)
    requires pat != ""
    ensures RemoveAll(pat + rest, pat) == RemoveAll(rest, pat)
  {
    assert (pat + rest)[..|pat|] == pat;
    assert (pat + rest)[|pat|..] == rest;
  }

  /** Every character of `p` is the same one, as in "```". */
  predicate Uniform(p: string) {
    forall i :: 0 <= i < |p| ==> p[i] == p[0]
  }

  lemma StartsWithCons(c: char, r: string, p: string)
    requires p != ""
    ensures StartsWith([c] + r, p) <==> c == p[0] && StartsWith(r, p[1..])
  {
    if c == p[0] && StartsWith(r, p[1..]) {
      assert ([c] + r)[..|p|] == [c] + r[..|p| - 1];
      assert p == [p[0]] + p[1..];
    }
    if StartsWith([c] + r, p) {
      assert ([c] + r)[..|p|] == [c] + r[..|p| - 1];
      assert p[1..] == ([c] + r)[..|p|][1..];
    }
  }

  lemma ContainsCons(c: char, r: string, p: string)
    ensures Contains([c] + r, p) ==> StartsWith([c] + r, p) || Contains(r, p)
  {
    if Contains([c] + r, p) {
      var k :| 0 <= k <= |[c] + r| && StartsWith(([c] + r)[k..], p);
      if k > 0 {
        assert ([c] + r)[k..] == r[k - 1..];
      }
    }
  }

  /** Splitting at a separator splits the two sides independently. */
  lemma {:induction false} SplitConcat(a: string, c: char, b: string, sep: char -> bool)
    requires sep(c)
    ensures SplitWhere(a + [c] + b, sep) == SplitWhere(a, sep) + SplitWhere(b, sep)
    decreases |a|
  {
    if a == [] {
      assert a + [c] + b == [c] + b;
      assert ([c] + b)[1..] == b;
    } else {
      assert (a + [c] + b)[1..] == a[1..] + [c] + b;
      assert (a + [c] + b)[0] == a[0];
      SplitConcat(a[1..], c, b, sep);
    }
  }

  /** A string splits into more than one piece exactly when it holds a separator. */
  lemma {:induction false} SplitSingle(s: string, sep: char -> bool)
    ensures NoSep(s, sep) ==> SplitWhere(s, sep) == [s]
    ensures !NoSep(s, sep) ==> |SplitWhere(s, sep)| >= 2
    decreases |s|
  {
    if s != [] {
      SplitSingle(s[1..], sep);
      assert s == [s[0]] + s[1..];
      if !sep(s[0]) && !NoSep(s, sep) {
        assert !NoSep(s[1..], sep) by {
          var i :| 0 <= i < |s| && sep(s[i]);
          assert i > 0 && s[1..][i - 1] == s[i];
        }
      }
    }
  }

  /**
   * Deleting every occurrence of a uniform pattern leaves none behind, and whatever
   * proper suffix of the pattern the result starts with, the input started with too.
   */
  lemma {:induction false} RemoveAllUniform(s: string, pat: string)
    requires pat != "" && Uniform(pat)
    ensures !Contains(RemoveAll(s, pat), pat)
    ensures forall j :: 1 <= j < |pat| && StartsWith(RemoveAll(s, pat), pat[j..]) ==> StartsWith(s, pat[j..])
    decreases |s|
  {
    var r := RemoveAll(s, pat);
    if |s| < |pat| {
      assert r == s;
    } else if s[..|pat|] == pat {
      var s' := s[|pat|..];
      RemoveAllUniform(s', pat);
      forall j | 1 <= j < |pat| && StartsWith(r, pat[j..])
        ensures StartsWith(s, pat[j..])
      {
        assert s[..|pat| - j] == pat[j..] by {
          forall i | 0 <= i < |pat| - j
            ensures s[..|pat| - j][i] == pat[j..][i]
          {
            assert s[i] == s[..|pat|][i] == pat[i] == pat[0] == pat[j + i];
          }
        }
      }
    } else {
      var s1 := s[1..];
      RemoveAllUniform(s1, pat);
      var r1 := RemoveAll(s1, pat);
      assert r == [s[0]] + r1;
      assert s == [s[0]] + s1;
      if Contains(r, pat) {
        ContainsCons(s[0], r1, pat);
        StartsWithCons(s[0], r1, pat);
        if |pat| > 1 {
          StartsWithCons(s[0], s1, pat);
        }
        assert false;
      }
      forall j | 1 <= j < |pat| && StartsWith(r, pat[j..])
        ensures StartsWith(s, pat[j..])
      {
        StartsWithCons(s[0], r1, pat[j..]);
        StartsWithCons(s[0], s1, pat[j..]);
        assert pat[j..][1..] == pat[j + 1..];
        if j + 1 < |pat| {
          assert StartsWith(s1, pat[j + 1..]);
        }
      }
    }
  }
}
