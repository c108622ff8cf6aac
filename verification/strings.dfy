/** The few pieces of Python's `str` the address parser relies on:
    `sep.join`, `s.split(sep)` with an explicit one-character separator,
    and `s.strip()` with no argument. */
module Strings {

  /** Python's `sep.join(pieces)` for a one-character separator. */
  function Join(pieces: seq<string>, sep: char): string
  {
    if |pieces| == 0 then ""
    else if |pieces| == 1 then pieces[0]
    else pieces[0] + [sep] + Join(pieces[1..], sep)
  }

  /** Python's `s.split(sep)` with an explicit separator: empty pieces are
      kept, and even the empty string yields one (empty) piece. */
  function Split(s: string, sep: char): (pieces: seq<string>)
    ensures |pieces| >= 1
    ensures forall k :: 0 <= k < |pieces| ==> sep !in pieces[k]
  {
    if |s| == 0 then [""]
    else
      var rest := Split(s[1..], sep);
      if s[0] == sep then [""] + rest
      else [[s[0]] + rest[0]] + rest[1..]
  }

  /** Joining the pieces of a split gives back the original string. */
  lemma {:induction false} JoinSplit(s: string, sep: char)
    ensures Join(Split(s, sep), sep) == s
  {
    if |s| > 0 {
      var rest := Split(s[1..], sep);
      JoinSplit(s[1..], sep);
      assert s == [s[0]] + s[1..];
      if s[0] == sep {
        assert ([""] + rest)[1..] == rest;
      } else {
        var pieces := [[s[0]] + rest[0]] + rest[1..];
        assert pieces[1..] == rest[1..];
        if |rest| > 1 {
          assert Join(rest, sep) == rest[0] + [sep] + Join(rest[1..], sep);
        }
      }
    }
  }

  /** A string without the separator is a single piece. */
  lemma {:induction false} SplitNoSep(a: string, sep: char)
    requires sep !in a
    ensures Split(a, sep) == [a]
  {
    if |a| > 0 {
      SplitNoSep(a[1..], sep);
      assert a == [a[0]] + a[1..];
    }
  }

  /** A separator-free prefix followed by the separator becomes the first piece. */
  lemma {:induction false} SplitFirstPiece(a: string, t: string, sep: char)
    requires sep !in a
    ensures Split(a + [sep] + t, sep) == [a] + Split(t, sep)
  {
    if |a| == 0 {
      assert a + [sep] + t == [sep] + t;
      assert ([sep] + t)[1..] == t;
    } else {
      var s := a + [sep] + t;
      assert s[1..] == a[1..] + [sep] + t;
      SplitFirstPiece(a[1..], t, sep);
      assert [a[0]] + a[1..] == a;
    }
  }

  /** Splitting a join gives back the pieces, provided none of them holds
      the separator: together with `JoinSplit`, `Split` and `Join` are
      inverse to each other. */
  lemma {:induction false} SplitJoin(pieces: seq<string>, sep: char)
    requires |pieces| >= 1
    requires forall k :: 0 <= k < |pieces| ==> sep !in pieces[k]
    ensures Split(Join(pieces, sep), sep) == pieces
  {
    if |pieces| == 1 {
      SplitNoSep(pieces[0], sep);
    } else {
      SplitJoin(pieces[1..], sep);
      SplitFirstPiece(pieces[0], Join(pieces[1..], sep), sep);
      assert [pieces[0]] + pieces[1..] == pieces;
    }
  }

  /** There is exactly one piece more than there are separators. */
  lemma {:induction false} SplitCount(s: string, sep: char)
    ensures |Split(s, sep)| == multiset(s)[sep] + 1
  {
    if |s| > 0 {
      SplitCount(s[1..], sep);
      assert s == [s[0]] + s[1..];
      assert multiset(s) == multiset([s[0]]) + multiset(s[1..]);
    }
  }

  /** A join of two or more pieces ends with the separator and the last piece. */
  lemma {:induction false} JoinLast(pieces: seq<string>, sep: char)
    requires |pieces| >= 2
    ensures Join(pieces, sep) == Join(pieces[..|pieces| - 1], sep) + [sep] + pieces[|pieces| - 1]
  {
    var n := |pieces|;
    if n > 2 {
      JoinLast(pieces[1..], sep);
      assert pieces[1..][..n - 2] == pieces[..n - 1][1..];
      assert pieces[..n - 1][0] == pieces[0];
    }
  }

  /** The characters of `a + [sep] + b`, position by position. */
  lemma CharAt(a: string, sep: char, b: string, i: int)
    ensures 0 <= i < |a| ==> (a + [sep] + b)[i] == a[i]
    ensures i == |a| ==> (a + [sep] + b)[i] == sep
    ensures |a| < i < |a| + 1 + |b| ==> (a + [sep] + b)[i] == b[i - |a| - 1]
  {
  }

  /** Cutting a string at a separator that is followed by no other one
      determines both halves. */
  lemma CutAtLastUnique(a: string, b: string, a2: string, b2: string, sep: char)
    requires a + [sep] + b == a2 + [sep] + b2
    requires sep !in b && sep !in b2
    ensures a == a2 && b == b2
  {
    var s := a + [sep] + b;
    CharAt(a, sep, b, |a|);
    if |b| < |b2| {
      CharAt(a2, sep, b2, |s| - |b| - 1);
      assert false;
    } else if |b2| < |b| {
      CharAt(a, sep, b, |s| - |b2| - 1);
      CharAt(a2, sep, b2, |a2|);
      assert false;
    }
    assert b == s[|s| - |b|..] == b2;
    assert a == s[..|a|] == a2;
  }

  /** Cutting a string at a separator that is preceded by no other one
      determines both halves. */
  lemma CutAtFirstUnique(a: string, b: string, a2: string, b2: string, sep: char)
    requires a + [sep] + b == a2 + [sep] + b2
    requires sep !in a && sep !in a2
    ensures a == a2 && b == b2
  {
    var s := a + [sep] + b;
    CharAt(a, sep, b, |a|);
    if |a| < |a2| {
      CharAt(a2, sep, b2, |a|);
      assert false;
    } else if |a2| < |a| {
      CharAt(a, sep, b, |a2|);
      CharAt(a2, sep, b2, |a2|);
      assert false;
    }
    assert a == s[..|a|] == a2;
    assert b == s[|a| + 1..] == b2;
  }

  /** Python's `str.isspace` for a single character: the ASCII controls
      TAB through CR, the separators 0x1C-0x1F, SPACE, and the Unicode
      space characters. */
  predicate IsSpace(c: char)
  {
    var n := c as int;
    || 9 <= n <= 13
    || 28 <= n <= 32
    || n == 0x85 || n == 0xA0 || n == 0x1680
    || 0x2000 <= n <= 0x200A
    || n == 0x2028 || n == 0x2029 || n == 0x202F || n == 0x205F || n == 0x3000
  }

  predicate AllSpace(s: string)
  {
    forall k :: 0 <= k < |s| ==> IsSpace(s[k])
  }

  /** A white-space character in front of a white-space prefix. */
  lemma AllSpaceCons(s: string, n: nat)
    requires 0 < n <= |s| && IsSpace(s[0]) && AllSpace(s[1..][..n - 1])
    ensures AllSpace(s[..n])
  {
    forall k | 0 < k < n
      ensures IsSpace(s[..n][k])
    {
      assert s[..n][k] == s[1..][..n - 1][k - 1];
    }
  }

  /** A white-space character after a white-space suffix. */
  lemma AllSpaceSnoc(s: string, m: nat)
    requires 0 < |s| && m <= |s| - 1 && IsSpace(s[|s| - 1]) && AllSpace(s[..|s| - 1][m..])
    ensures AllSpace(s[m..])
  {
    forall k | 0 <= k < |s| - 1 - m
      ensures IsSpace(s[m..][k])
    {
      assert s[m..][k] == s[..|s| - 1][m..][k];
    }
  }

  /** The number of white-space characters `s` starts with. */
  function LeadingSpaces(s: string): (n: nat)
    ensures n <= |s| && AllSpace(s[..n])
    ensures n == |s| || !IsSpace(s[n])
  {
    if |s| > 0 && IsSpace(s[0]) then
      var n := 1 + LeadingSpaces(s[1..]);
      AllSpaceCons(s, n);
      n
    else 0
  }

  /** The number of white-space characters `s` ends with. */
  function TrailingSpaces(s: string): (n: nat)
    ensures n <= |s| && AllSpace(s[|s| - n..])
    ensures n == |s| || !IsSpace(s[|s| - n - 1])
  {
    if |s| > 0 && IsSpace(s[|s| - 1]) then
      var n := 1 + TrailingSpaces(s[..|s| - 1]);
      AllSpaceSnoc(s, |s| - n);
      n
    else 0
  }

  /** `s` with its leading white space removed. */
  function TrimStart(s: string): (r: string)
    ensures |r| <= |s| && r == s[|s| - |r|..]
    ensures AllSpace(s[..|s| - |r|])
    ensures r == "" || !IsSpace(r[0])
  {
    s[LeadingSpaces(s)..]
  }

  /** `s` with its trailing white space removed. */
  function TrimEnd(s: string): (r: string)
    ensures |r| <= |s| && r == s[..|r|]
    ensures AllSpace(s[|r|..])
    ensures r == "" || !IsSpace(r[|r| - 1])
  {
    s[..|s| - TrailingSpaces(s)]
  }

  /** `r` is what is left of `s` between `lo` and `lo + |r|`, and only
      white space was cut off on either side. */
  predicate StrippedAt(s: string, r: string, lo: int)
  {
    && 0 <= lo <= lo + |r| <= |s|
    && s[lo..lo + |r|] == r
    && AllSpace(s[..lo])
    && AllSpace(s[lo + |r|..])
  }

  /** Python's `s.strip()`: white space removed from both ends. */
  function Strip(s: string): (r: string)
    ensures r == "" || (!IsSpace(r[0]) && !IsSpace(r[|r| - 1]))
    ensures StrippedAt(s, r, |s| - |TrimStart(s)|)
    ensures r == "" <==> AllSpace(s)
  {
    var t := TrimStart(s);
    StripFacts(s, t, TrimEnd(t));
    TrimEnd(t)
  }

  lemma StripFacts(s: string, t: string, r: string)
    requires |t| <= |s| && t == s[|s| - |t|..] && AllSpace(s[..|s| - |t|])
    requires t == "" || !IsSpace(t[0])
    requires |r| <= |t| && r == t[..|r|] && AllSpace(t[|r|..])
    ensures StrippedAt(s, r, |s| - |t|)
    ensures r == "" <==> AllSpace(s)
  {
    var lo := |s| - |t|;
    assert s[lo..lo + |r|] == t[..|r|] == r;
    assert s[lo + |r|..] == t[|r|..];
    assert StrippedAt(s, r, lo);
    if r == "" {
      AllSpaceConcat(s[..lo], t);
      assert s == s[..lo] + t;
    } else {
      assert s[lo] == r[0];
    }
  }

  lemma AllSpaceConcat(a: string, b: string)
    requires AllSpace(a) && AllSpace(b)
    ensures AllSpace(a + b)
  {
    forall k | 0 <= k < |a + b|
      ensures IsSpace((a + b)[k])
    {
      if k >= |a| {
        assert (a + b)[k] == b[k - |a|];
      }
    }
  }
}
