/** ASCII models of the pieces of Go's `strings` package that the validator uses,
    `TrimSpace` and `SplitN` on a one-character separator, with `IndexOf`, `Count` and
    `Join` as helpers for reasoning about them. Strings are sequences of ASCII characters. */
module Strings {
  import opened Wrappers

  /** A decimal digit, '0'..'9'. */
  predicate IsDigit(c: char) {
    '0' <= c <= '9'
  }

  predicate AllDigits(s: string) {
    forall i :: 0 <= i < |s| ==> IsDigit(s[i])
  }

  /** Go's ASCII white space: tab, line feed, vertical tab, form feed, carriage return, space. */
  predicate IsSpace(c: char) {
    c == '\t' || c == '\n' || c == '\U{0B}' || c == '\U{0C}' || c == '\r' || c == ' '
  }

  predicate AllSpace(s: string) {
    forall i :: 0 <= i < |s| ==> IsSpace(s[i])
  }

  /** strings.TrimSpace: white space is peeled off the front, then off the back, until
      the string neither starts nor ends with it. */
  function TrimSpace(s: string): (r: string)
    ensures |r| <= |s|
    ensures r == [] || (!IsSpace(r[0]) && !IsSpace(r[|r| - 1]))
    decreases |s|
  {
    if |s| > 0 && IsSpace(s[0]) then TrimSpace(s[1..])
    else if |s| > 0 && IsSpace(s[|s| - 1]) then TrimSpace(s[..|s| - 1])
    else s
  }

  /** What trimming removed: a front and a back of white space around the result. */
  lemma {:induction false} TrimSpacePads(s: string) returns (front: string, back: string)
    ensures AllSpace(front) && AllSpace(back)
    ensures s == front + TrimSpace(s) + back
    decreases |s|
  {
    if |s| > 0 && IsSpace(s[0]) {
      var f, b := TrimSpacePads(s[1..]);
      front, back := [s[0]] + f, b;
      assert TrimSpace(s) == TrimSpace(s[1..]);
      assert s == [s[0]] + s[1..];
      SpaceCons(s[0], f);
    } else if |s| > 0 && IsSpace(s[|s| - 1]) {
      var f, b := TrimSpacePads(s[..|s| - 1]);
      front, back := f, b + [s[|s| - 1]];
      assert TrimSpace(s) == TrimSpace(s[..|s| - 1]);
      assert s == s[..|s| - 1] + [s[|s| - 1]];
      SpaceSnoc(b, s[|s| - 1]);
    } else {
      front, back := [], [];
    }
  }

  lemma SpaceCons(c: char, s: string)
    requires IsSpace(c) && AllSpace(s)
    ensures AllSpace([c] + s)
  {
    assert forall i :: 0 < i <= |s| ==> ([c] + s)[i] == s[i - 1];
  }

  lemma SpaceSnoc(s: string, c: char)
    requires AllSpace(s) && IsSpace(c)
    ensures AllSpace(s + [c])
  {
    assert forall i :: 0 <= i < |s| ==> (s + [c])[i] == s[i];
  }

  /** A string that neither starts nor ends with white space is its own trimming. */
  lemma TrimSpaceOfUnpadded(s: string)
    requires s == [] || (!IsSpace(s[0]) && !IsSpace(s[|s| - 1]))
    ensures TrimSpace(s) == s
  {
  }

  /** Trimming twice trims nothing more. */
  lemma TrimSpaceIdempotent(s: string)
    ensures TrimSpace(TrimSpace(s)) == TrimSpace(s)
  {
    TrimSpaceOfUnpadded(TrimSpace(s));
  }

  /** A string of white space trims to nothing. */
  lemma {:induction false} TrimSpaceOfSpace(s: string)
    requires AllSpace(s)
    ensures TrimSpace(s) == []
    decreases |s|
  {
    if |s| > 0 {
      TrimSpaceOfSpace(s[1..]);
    }
  }

  /** White space in front of a string never survives trimming. */
  lemma {:induction false} TrimSpaceSkipsLeadingSpace(p: string, x: string)
    requires AllSpace(p)
    ensures TrimSpace(p + x) == TrimSpace(x)
    decreases |p|
  {
    if p != [] {
      assert (p + x)[0] == p[0];
      assert (p + x)[1..] == p[1..] + x;
      TrimSpaceSkipsLeadingSpace(p[1..], x);
    } else {
      assert p + x == x;
    }
  }

  /** White space after a string never survives trimming. */
  lemma {:induction false} TrimSpaceSkipsTrailingSpace(x: string, p: string)
    requires AllSpace(p)
    ensures TrimSpace(x + p) == TrimSpace(x)
    decreases |x| + |p|
  {
    var s := x + p;
    if x == [] {
      assert s == p;
      TrimSpaceOfSpace(p);
    } else if IsSpace(x[0]) {
      assert s[0] == x[0];
      assert s[1..] == x[1..] + p;
      TrimSpaceSkipsTrailingSpace(x[1..], p);
    } else if p == [] {
      assert s == x;
    } else {
      assert s[0] == x[0] && s[|s| - 1] == p[|p| - 1];
      assert s[..|s| - 1] == x + p[..|p| - 1];
      TrimSpaceSkipsTrailingSpace(x, p[..|p| - 1]);
    }
  }

  /** Trimming pads of white space off a string that neither starts nor ends with white
      space gives that string back. */
  lemma TrimSpaceOfPadded(front: string, r: string, back: string)
    requires AllSpace(front) && AllSpace(back)
    requires r == [] || (!IsSpace(r[0]) && !IsSpace(r[|r| - 1]))
    ensures TrimSpace(front + r + back) == r
  {
    assert front + r + back == front + (r + back);
    TrimSpaceSkipsLeadingSpace(front, r + back);
    TrimSpaceSkipsTrailingSpace(r, back);
    TrimSpaceOfUnpadded(r);
  }

  /** The position of the first occurrence of `c` in `s` (strings.IndexByte), or None. */
  function IndexOf(s: string, c: char): (r: Option<nat>)
    ensures r.None? <==> c !in s
    ensures r.Some? ==> r.value < |s| && s[r.value] == c && c !in s[..r.value]
  {
    if |s| == 0 then None
    else if s[0] == c then Some(0)
    else match IndexOf(s[1..], c)
      case None => None
      case Some(i) => assert s[..i + 1] == [s[0]] + s[1..][..i]; Some(i + 1)
  }

  /** The number of occurrences of `c` in `s` (strings.Count with a one-character separator). */
  function Count(s: string, c: char): (n: nat)
    ensures n <= |s|
  {
    if |s| == 0 then 0 else (if s[0] == c then 1 else 0) + Count(s[1..], c)
  }

  lemma {:induction false} CountAppend(a: string, b: string, c: char)
    ensures Count(a + b, c) == Count(a, c) + Count(b, c)
  {
    if a == [] {
      assert a + b == b;
    } else {
      assert (a + b)[1..] == a[1..] + b;
      CountAppend(a[1..], b, c);
    }
  }

  /** No occurrence at all exactly when the count is zero. */
  lemma {:induction false} CountZero(s: string, c: char)
    ensures Count(s, c) == 0 <==> c !in s
  {
    if |s| > 0 {
      CountZero(s[1..], c);
      assert s == [s[0]] + s[1..];
    }
  }

  /** Padding that holds no `c` adds nothing to the count of `c`. */
  lemma CountOfPadded(front: string, r: string, back: string, c: char)
    requires Count(front, c) == 0 && Count(back, c) == 0
    ensures Count(front + r + back, c) == Count(r, c)
  {
    CountAppend(front + r, back, c);
    CountAppend(front, r, c);
  }

  /** Trimming removes only white space, so it keeps every other character's count. */
  lemma TrimSpaceKeepsCount(s: string, c: char)
    requires !IsSpace(c)
    ensures Count(TrimSpace(s), c) == Count(s, c)
  {
    var front, back := TrimSpacePads(s);
    NoSpaceCharInSpace(front, c);
    NoSpaceCharInSpace(back, c);
    CountOfPadded(front, TrimSpace(s), back, c);
  }

  lemma NoSpaceCharInSpace(s: string, c: char)
    requires AllSpace(s) && !IsSpace(c)
    ensures Count(s, c) == 0
  {
    CountZero(s, c);
  }

  /** strings.SplitN with a one-character separator: at most `n` pieces, cut at the first
      `n - 1` separators; the last piece keeps the rest of the string unsplit. */
  function SplitN(s: string, sep: char, n: nat): (parts: seq<string>)
    ensures |parts| <= n
    ensures n > 0 ==> |parts| >= 1
    decreases n
  {
    if n == 0 then []
    else if n == 1 then [s]
    else match IndexOf(s, sep)
      case None => [s]
      case Some(m) => [s[..m]] + SplitN(s[m + 1..], sep, n - 1)
  }

  /** Cutting at the first separator: the count drops by exactly one. */
  lemma CountAfterFirst(s: string, sep: char, m: nat)
    requires IndexOf(s, sep) == Some(m)
    ensures Count(s, sep) == 1 + Count(s[m + 1..], sep)
  {
    assert s == s[..m] + [sep] + s[m + 1..];
    CountAppend(s[..m] + [sep], s[m + 1..], sep);
    CountAppend(s[..m], [sep], sep);
    CountZero(s[..m], sep);
  }

  /** As many pieces as there are separators plus one, capped at `n`. */
  lemma {:induction false} SplitNLength(s: string, sep: char, n: nat)
    requires n > 0
    ensures |SplitN(s, sep, n)| == if Count(s, sep) + 1 < n then Count(s, sep) + 1 else n
    decreases n
  {
    if n >= 2 && IndexOf(s, sep).Some? {
      var m := IndexOf(s, sep).value;
      SplitNLength(s[m + 1..], sep, n - 1);
      CountAfterFirst(s, sep, m);
    } else {
      CountZero(s, sep);
    }
  }

  /** No separator in any piece but the last. */
  lemma {:induction false} SplitNPiecesHaveNoSep(s: string, sep: char, n: nat)
    ensures forall i :: 0 <= i < |SplitN(s, sep, n)| - 1 ==> sep !in SplitN(s, sep, n)[i]
    decreases n
  {
    if n >= 2 && IndexOf(s, sep).Some? {
      var m := IndexOf(s, sep).value;
      SplitNPiecesHaveNoSep(s[m + 1..], sep, n - 1);
      var parts, rest := SplitN(s, sep, n), SplitN(s[m + 1..], sep, n - 1);
      assert parts == [s[..m]] + rest;
      forall i | 0 <= i < |parts| - 1
        ensures sep !in parts[i]
      {
        if i > 0 {
          assert parts[i] == rest[i - 1];
        }
      }
    }
  }

  /** The last piece of a capped split keeps every separator not used for cutting. */
  lemma {:induction false} SplitNLastPiece(s: string, sep: char, n: nat)
    requires n > 0 && |SplitN(s, sep, n)| == n
    ensures Count(SplitN(s, sep, n)[n - 1], sep) == Count(s, sep) - (n - 1)
    decreases n
  {
    if n >= 2 {
      var m := IndexOf(s, sep).value;
      var parts, rest := SplitN(s, sep, n), SplitN(s[m + 1..], sep, n - 1);
      assert parts[n - 1] == rest[n - 2];
      SplitNLastPiece(s[m + 1..], sep, n - 1);
      CountAfterFirst(s, sep, m);
    }
  }

  /** strings.Join with a one-character separator: the inverse of SplitN. */
  function Join(parts: seq<string>, sep: char): string
  {
    if |parts| == 0 then ""
    else if |parts| == 1 then parts[0]
    else parts[0] + [sep] + Join(parts[1..], sep)
  }

  /** Splitting loses nothing: joining the pieces back gives the original string. */
  lemma {:induction false} JoinSplitN(s: string, sep: char, n: nat)
    requires n > 0
    ensures Join(SplitN(s, sep, n), sep) == s
    decreases n
  {
    if n > 1 && IndexOf(s, sep).Some? {
      var m := IndexOf(s, sep).value;
      var rest := SplitN(s[m + 1..], sep, n - 1);
      JoinSplitN(s[m + 1..], sep, n - 1);
      JoinCons(s[..m], rest, sep);
      assert s == s[..m] + [sep] + s[m + 1..];
    }
  }

  lemma JoinCons(x: string, rest: seq<string>, sep: char)
    requires |rest| >= 1
    ensures Join([x] + rest, sep) == x + [sep] + Join(rest, sep)
  {
    assert ([x] + rest)[1..] == rest;
  }

  /** The first occurrence is unique: any position holding `c` with no `c` before it is
      the one IndexOf reports. */
  lemma IndexOfIsFirst(s: string, c: char, j: nat)
    requires j < |s| && s[j] == c
    requires forall i :: 0 <= i < j ==> s[i] != c
    ensures IndexOf(s, c) == Some(j)
  {
  }

  /** With i and j the first two separators of s, splitting into three gives the text
      before i, the text between them and everything after j. */
  lemma SplitNThreeAt(s: string, sep: char, i: nat, j: nat)
    requires i < j < |s| && s[i] == sep && s[j] == sep
    requires forall k :: 0 <= k < j && k != i ==> s[k] != sep
    ensures SplitN(s, sep, 3) == [s[..i], s[i + 1..j], s[j + 1..]]
  {
    IndexOfIsFirst(s, sep, i);
    IndexOfAfter(s, sep, i, j);
    SplitNAtFirst(s, sep, 3, i);
    SplitNAtFirst(s[i + 1..], sep, 2, j - i - 1);
    SuffixSlices(s, i + 1, j);
  }

  /** The first separator after position i. */
  lemma IndexOfAfter(s: string, sep: char, i: nat, j: nat)
    requires i < j < |s| && s[j] == sep
    requires forall k :: i < k < j ==> s[k] != sep
    ensures IndexOf(s[i + 1..], sep) == Some(j - i - 1)
  {
    var rest := s[i + 1..];
    forall k | 0 <= k < j - i - 1
      ensures rest[k] != sep
    {
      assert rest[k] == s[i + 1 + k];
    }
    IndexOfIsFirst(rest, sep, j - i - 1);
  }

  /** Cutting a suffix s[lo..] at position hi of s. */
  lemma SuffixSlices<T>(s: seq<T>, lo: nat, hi: nat)
    requires lo <= hi < |s|
    ensures s[lo..][..hi - lo] == s[lo..hi]
    ensures s[lo..][hi - lo + 1..] == s[hi + 1..]
  {
  }

  /** One step of a split: the piece before the first separator, then the split of the
      rest with one piece fewer. */
  lemma SplitNAtFirst(s: string, sep: char, n: nat, m: nat)
    requires n >= 2 && IndexOf(s, sep) == Some(m)
    ensures SplitN(s, sep, n) == [s[..m]] + SplitN(s[m + 1..], sep, n - 1)
  {
  }

  /** The text up to i trims the same with or without its front of white space. */
  lemma TrimSpaceOfFirstField(s: string, a: nat, i: nat)
    requires a <= i <= |s| && AllSpace(s[..a])
    ensures TrimSpace(s[..i]) == TrimSpace(s[a..i])
  {
    CutSlices(s, a, i);
    TrimSpaceSkipsLeadingSpace(s[..a], s[a..i]);
  }

  /** The text after j trims the same with or without its back of white space. */
  lemma TrimSpaceOfLastField(s: string, j: nat, e: nat)
    requires j < e <= |s| && AllSpace(s[e..])
    ensures TrimSpace(s[j + 1..]) == TrimSpace(s[j + 1..e])
  {
    CutSlices(s, j + 1, e);
    TrimSpaceSkipsTrailingSpace(s[j + 1..e], s[e..]);
  }

  /** The pieces of x, y and z joined by two separators c, read back by position. */
  lemma ThreePieces<T>(x: seq<T>, y: seq<T>, z: seq<T>, c: T)
    ensures var s, i, j := x + [c] + y + [c] + z, |x|, |x| + 1 + |y|;
      && s[i] == c && s[j] == c
      && s[..i] == x && s[i + 1..j] == y && s[j + 1..] == z
  {
  }

  /** When x and y hold no c, the two separators joining x, y and z are the first two
      occurrences of c. */
  lemma ThreePiecesFirstSeparators<T>(x: seq<T>, y: seq<T>, z: seq<T>, c: T)
    requires forall k :: 0 <= k < |x| ==> x[k] != c
    requires forall k :: 0 <= k < |y| ==> y[k] != c
    ensures var s := x + [c] + y + [c] + z;
      forall k :: 0 <= k < |x| + 1 + |y| && k != |x| ==> s[k] != c
  {
    var s := x + [c] + y + [c] + z;
    forall k | 0 <= k < |x| + 1 + |y| && k != |x|
      ensures s[k] != c
    {
      if k > |x| {
        assert s[k] == y[k - |x| - 1];
      }
    }
  }

  /** Cutting a prefix or a suffix in two. */
  lemma CutSlices<T>(s: seq<T>, lo: nat, hi: nat)
    requires lo <= hi <= |s|
    ensures s[..hi] == s[..lo] + s[lo..hi]
    ensures s[lo..] == s[lo..hi] + s[hi..]
  {
  }

  /** The three parts of a stretch t == s[a..e], cut at i and j, as stretches of s. */
  lemma SlicesOfStretch<T>(s: seq<T>, t: seq<T>, a: nat, i: nat, j: nat)
    requires a <= i < j < a + |t| <= |s| && t == s[a..a + |t|]
    ensures t[..i - a] == s[a..i]
    ensures t[i - a + 1..j - a] == s[i + 1..j]
    ensures t[j - a + 1..] == s[j + 1..a + |t|]
  {
    forall k | a <= k < a + |t|
      ensures t[k - a] == s[k]
    {
    }
    assert t[..i - a] == s[a..i];
    assert t[i - a + 1..j - a] == s[i + 1..j];
    assert t[j - a + 1..] == s[j + 1..a + |t|];
  }

  /** The same split, on a string t that is the stretch of s starting at a. */
  lemma SplitNThreeOfSlice(s: string, t: string, sep: char, a: nat, i: nat, j: nat)
    requires a <= i < j < a + |t| <= |s| && t == s[a..a + |t|]
    requires s[i] == sep && s[j] == sep
    requires forall k :: 0 <= k < j && k != i ==> s[k] != sep
    ensures SplitN(t, sep, 3) == [s[a..i], s[i + 1..j], s[j + 1..a + |t|]]
  {
    forall k | 0 <= k < j - a && k != i - a
      ensures t[k] != sep
    {
      assert t[k] == s[a + k];
    }
    SplitNThreeAt(t, sep, i - a, j - a);
    SlicesOfStretch(s, t, a, i, j);
  }

  /** A character that is not white space survives trimming. */
  lemma TrimSpaceKeepsNonSpace(s: string, front: string, back: string, k: nat)
    requires AllSpace(front) && AllSpace(back) && s == front + TrimSpace(s) + back
    requires k < |s| && !IsSpace(s[k])
    ensures |front| <= k < |front| + |TrimSpace(s)|
  {
    assert forall m :: 0 <= m < |front| ==> s[m] == front[m];
    assert forall m :: |front| + |TrimSpace(s)| <= m < |s| ==> s[m] == back[m - |front| - |TrimSpace(s)|];
  }

  /** The three parts of a concatenation, read back as slices. */
  lemma ConcatSlices<T>(f: seq<T>, m: seq<T>, b: seq<T>)
    ensures (f + m + b)[..|f|] == f
    ensures (f + m + b)[|f|..|f| + |m|] == m
    ensures (f + m + b)[|f| + |m|..] == b
  {
  }
}
