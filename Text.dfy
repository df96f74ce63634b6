/** The string operations the catalog scripts use, on the ASCII range: Python's
    `str.lower`, `str.strip`, `str.replace(pat, "")`, the substring test `k in t`
    and the regular-expression search for a word between two `\b` boundaries. */
module Text {

  // ---------------------------------------------------------------------------
  // Character classes
  // ---------------------------------------------------------------------------

  /** Python's `str.isspace` on the ASCII range: tab, line feed, vertical tab,
      form feed, carriage return, the separators 0x1C-0x1F, and space. */
  predicate IsSpace(c: char)
  {
    (9 <= c as int <= 13) || (28 <= c as int <= 32)
  }

  predicate AllSpace(s: string)
  {
    forall i :: 0 <= i < |s| ==> IsSpace(s[i])
  }

  /** A regular-expression word character (`\w`) on the ASCII range. */
  predicate IsWordChar(c: char)
  {
    ('a' <= c <= 'z') || ('A' <= c <= 'Z') || ('0' <= c <= '9') || c == '_'
  }

  predicate AllWordChars(s: string)
  {
    forall i :: 0 <= i < |s| ==> IsWordChar(s[i])
  }

  // ---------------------------------------------------------------------------
  // str.lower()
  // ---------------------------------------------------------------------------

  function LowerChar(c: char): char
  {
    if 'A' <= c <= 'Z' then (c as int + 32) as char else c
  }

  /** `s.lower()`: every ASCII capital replaced by its small letter. */
  function Lower(s: string): (r: string)
    ensures |r| == |s|
  {
    seq(|s|, i requires 0 <= i < |s| => LowerChar(s[i]))
  }

  /** Lower-casing twice is lower-casing once. */
  lemma LowerIdempotent(s: string)
    ensures Lower(Lower(s)) == Lower(s)
  {
  }

  /** Lower-casing works character by character, so it distributes over
      concatenation. */
  lemma LowerConcat(a: string, b: string)
    ensures Lower(a + b) == Lower(a) + Lower(b)
  {
    assert forall i :: 0 <= i < |a| ==> (a + b)[i] == a[i];
    assert forall i :: |a| <= i < |a| + |b| ==> (a + b)[i] == b[i - |a|];
  }

  // ---------------------------------------------------------------------------
  // str.strip()
  // ---------------------------------------------------------------------------

  /** `s.lstrip()`: the suffix of `s` left once its leading whitespace is gone. */
  function StripLeft(s: string): (r: string)
    ensures |r| <= |s| && r == s[|s| - |r|..]
    ensures AllSpace(s[..|s| - |r|])
    ensures r == [] || !IsSpace(r[0])
  {
    if |s| > 0 && IsSpace(s[0]) then
      var r := StripLeft(s[1..]);
      assert s[..|s| - |r|] == [s[0]] + s[1..][..|s| - 1 - |r|];
      r
    else
      s
  }

  /** `s.rstrip()`: the prefix of `s` left once its trailing whitespace is gone. */
  function StripRight(s: string): (r: string)
    ensures |r| <= |s| && r == s[..|r|]
    ensures AllSpace(s[|r|..])
    ensures r == [] || !IsSpace(r[|r| - 1])
  {
    if |s| > 0 && IsSpace(s[|s| - 1]) then
      var r := StripRight(s[..|s| - 1]);
      assert s[|r|..] == s[..|s| - 1][|r|..] + [s[|s| - 1]];
      r
    else
      s
  }

  /** `s.strip()`: whitespace removed from both ends. */
  function Strip(s: string): (r: string)
    ensures r == [] || (!IsSpace(r[0]) && !IsSpace(r[|r| - 1]))
  {
    StripRight(StripLeft(s))
  }

  lemma {:induction false} StripLeftPadded(pre: string, y: string)
    requires AllSpace(pre)
    requires y == [] || !IsSpace(y[0])
    ensures StripLeft(pre + y) == y
  {
    if pre == [] {
      assert pre + y == y;
    } else {
      assert (pre + y)[1..] == pre[1..] + y;
      StripLeftPadded(pre[1..], y);
    }
  }

  lemma {:induction false} StripRightPadded(y: string, post: string)
    requires AllSpace(post)
    requires y == [] || !IsSpace(y[|y| - 1])
    ensures StripRight(y + post) == y
  {
    if post == [] {
      assert y + post == y;
    } else {
      var n := |post| - 1;
      assert (y + post)[..|y + post| - 1] == y + post[..n];
      StripRightPadded(y, post[..n]);
    }
  }

  /** `strip` gives back exactly the text between whitespace padding: text
      that neither starts nor ends with whitespace survives padding and
      stripping unchanged. */
  lemma StripPadded(pre: string, x: string, post: string)
    requires AllSpace(pre) && AllSpace(post)
    requires x == [] || (!IsSpace(x[0]) && !IsSpace(x[|x| - 1]))
    ensures Strip(pre + x + post) == x
  {
    if x == [] {
      assert pre + x + post == pre + post;
      assert AllSpace(pre + post);
      var l := StripLeft(pre + post);
      assert l == [];
    } else {
      assert pre + x + post == pre + (x + post);
      StripLeftPadded(pre, x + post);
      StripRightPadded(x, post);
    }
  }

  // ---------------------------------------------------------------------------
  // str.replace(pat, "")
  // ---------------------------------------------------------------------------

  /** `s.replace(pat, "")`: the occurrences of `pat` found by a left-to-right
      scan that does not overlap matches are deleted; the result is not
      scanned again. */
  function RemoveAll(s: string, pat: string): (r: string)
    requires |pat| > 0
    ensures |r| <= |s|
    decreases |s|
  {
    if |s| == 0 then []
    else if |pat| <= |s| && s[..|pat|] == pat then RemoveAll(s[|pat|..], pat)
    else [s[0]] + RemoveAll(s[1..], pat)
  }

  /** Text in which the first character of `pat` never appears is untouched. */
  lemma {:induction false} RemoveAllAbsent(s: string, pat: string)
    requires |pat| > 0
    requires forall i :: 0 <= i < |s| ==> s[i] != pat[0]
    ensures RemoveAll(s, pat) == s
  {
    if |s| > 0 {
      assert s[0] != pat[0];
      RemoveAllAbsent(s[1..], pat);
      assert [s[0]] + s[1..] == s;
    }
  }

  /** A prefix free of the first character of `pat` is kept as it is. */
  lemma {:induction false} RemoveAllKeepsPrefix(a: string, b: string, pat: string)
    requires |pat| > 0
    requires forall i :: 0 <= i < |a| ==> a[i] != pat[0]
    ensures RemoveAll(a + b, pat) == a + RemoveAll(b, pat)
  {
    if a != [] {
      assert (a + b)[0] == a[0] != pat[0];
      assert (a + b)[1..] == a[1..] + b;
      RemoveAllKeepsPrefix(a[1..], b, pat);
      assert a == [a[0]] + a[1..];
    } else {
      assert a + b == b;
    }
  }

  /** Removing a single character distributes over concatenation. */
  lemma {:induction false} RemoveCharConcat(a: string, b: string, c: char)
    ensures RemoveAll(a + b, [c]) == RemoveAll(a, [c]) + RemoveAll(b, [c])
  {
    if a == [] {
      assert a + b == b;
    } else {
      assert (a + b)[0] == a[0];
      assert (a + b)[1..] == a[1..] + b;
      RemoveCharConcat(a[1..], b, c);
      if a[0] == c {
        assert (a + b)[..1] == [c];
        assert a[..1] == [c];
      } else {
        assert (a + b)[..1] != [c];
        assert a[..1] != [c];
      }
    }
  }

  /** After removing a single character, none of it is left. */
  lemma {:induction false} RemoveCharGone(s: string, c: char)
    ensures c !in RemoveAll(s, [c])
  {
    if s != [] {
      RemoveCharGone(s[1..], c);
      if s[0] == c {
        assert s[..1] == [c];
      }
    }
  }

  // ---------------------------------------------------------------------------
  // Substring test `k in t`
  // ---------------------------------------------------------------------------

  predicate InfixAt(t: string, k: string, i: int)
  {
    0 <= i && i + |k| <= |t| && t[i..i + |k|] == k
  }

  /** Python's `k in t` for strings. */
  ghost predicate Contains(t: string, k: string)
  {
    exists i :: InfixAt(t, k, i)
  }

  /** A left-to-right scan for `k` starting at position `from`. */
  function ContainsFrom(t: string, k: string, from: nat): (b: bool)
    requires from <= |t|
    ensures b <==> exists i :: from <= i && InfixAt(t, k, i)
    decreases |t| - from
  {
    if from + |k| > |t| then false
    else if t[from..from + |k|] == k then assert InfixAt(t, k, from); true
    else
      ContainsFrom(t, k, from + 1)
  }

  // ---------------------------------------------------------------------------
  // re.search(r"\b" + w + r"\b", t), for a word w without metacharacters
  // ---------------------------------------------------------------------------

  /** Regular-expression `\b` at position `p`: a word character on exactly one side. */
  predicate BoundaryAt(t: string, p: int)
    requires 0 <= p <= |t|
  {
    (p > 0 && IsWordChar(t[p - 1])) != (p < |t| && IsWordChar(t[p]))
  }

  /** `w` occurs at `i` with a word boundary on both sides. */
  predicate WholeWordAt(t: string, w: string, i: int)
  {
    InfixAt(t, w, i) && BoundaryAt(t, i) && BoundaryAt(t, i + |w|)
  }

  /** `re.search(rf"\b{w}\b", t)` finds a match. */
  ghost predicate OccursAsWord(t: string, w: string)
  {
    exists i :: WholeWordAt(t, w, i)
  }

  /** A left-to-right scan for a whole-word match of `w` starting at `from`. */
  function FindWholeWordFrom(t: string, w: string, from: nat): (b: bool)
    requires from <= |t|
    ensures b <==> exists i :: from <= i && WholeWordAt(t, w, i)
    decreases |t| - from
  {
    if from + |w| > |t| then false
    else if t[from..from + |w|] == w && BoundaryAt(t, from) && BoundaryAt(t, from + |w|) then
      assert WholeWordAt(t, w, from); true
    else if from == |t| then false
    else FindWholeWordFrom(t, w, from + 1)
  }

  /** For a keyword made of word characters, the two boundaries say that the
      neighbouring characters (if any) are not word characters. */
  lemma KeywordBoundaries(t: string, w: string, i: int)
    requires |w| > 0 && AllWordChars(w)
    requires InfixAt(t, w, i)
    ensures WholeWordAt(t, w, i) <==>
              (i == 0 || !IsWordChar(t[i - 1])) &&
              (i + |w| == |t| || !IsWordChar(t[i + |w|]))
  {
    assert t[i] == w[0];
    assert t[i + |w| - 1] == w[|w| - 1];
  }

  /** A keyword followed by a further word character is not a whole-word match
      there (the "bad" inside "badly", the "return" inside "returned"). */
  lemma EmbeddedKeywordNoMatch(t: string, w: string, i: int)
    requires |w| > 0 && AllWordChars(w)
    requires InfixAt(t, w, i) && i + |w| < |t| && IsWordChar(t[i + |w|])
    ensures !WholeWordAt(t, w, i)
  {
    KeywordBoundaries(t, w, i);
  }

  /** In text made only of word characters, the only whole-word match of a
      non-empty word is the whole text. */
  lemma SingleToken(t: string, w: string)
    requires AllWordChars(t) && |w| > 0
    ensures OccursAsWord(t, w) <==> w == t
  {
    if OccursAsWord(t, w) {
      var i :| WholeWordAt(t, w, i);
      assert i == 0 && i + |w| == |t|;
    }
    if w == t {
      assert t[0..|w|] == w;
      assert WholeWordAt(t, w, 0);
    }
  }

  lemma BoundaryInPrefix(a: string, sep: char, b: string, p: int)
    requires !IsWordChar(sep)
    requires 0 <= p <= |a|
    ensures BoundaryAt(a + [sep] + b, p) == BoundaryAt(a, p)
  {
    var t := a + [sep] + b;
    assert t[|a|] == sep;
    if p < |a| { assert t[p] == a[p]; }
    if p > 0 { assert t[p - 1] == a[p - 1]; }
  }

  lemma BoundaryInSuffix(a: string, sep: char, b: string, q: int)
    requires !IsWordChar(sep)
    requires 0 <= q <= |b|
    ensures BoundaryAt(a + [sep] + b, |a| + 1 + q) == BoundaryAt(b, q)
  {
    var t := a + [sep] + b;
    assert t[|a|] == sep;
    if q < |b| { assert t[|a| + 1 + q] == b[q]; }
    if q > 0 { assert t[|a| + q] == b[q - 1]; }
  }

  lemma InfixChar(t: string, k: string, i: int, j: int)
    requires InfixAt(t, k, i) && i <= j < i + |k|
    ensures t[j] == k[j - i]
  {
    assert t[i..i + |k|][j - i] == t[j];
  }

  /** A match in the joined text lies wholly on one side of the separator. */
  lemma SplitMatchSide(a: string, sep: char, b: string, w: string, i: int)
    requires !IsWordChar(sep)
    requires |w| > 0 && AllWordChars(w)
    requires WholeWordAt(a + [sep] + b, w, i)
    ensures OccursAsWord(a, w) || OccursAsWord(b, w)
  {
    var t := a + [sep] + b;
    var n := |a|;
    if i <= n {
      if i + |w| > n {
        InfixChar(t, w, i, n);
        assert false;
      }
      assert a[i..i + |w|] == t[i..i + |w|];
      BoundaryInPrefix(a, sep, b, i);
      BoundaryInPrefix(a, sep, b, i + |w|);
      assert WholeWordAt(a, w, i);
    } else {
      var q := i - n - 1;
      assert b[q..q + |w|] == t[i..i + |w|];
      BoundaryInSuffix(a, sep, b, q);
      BoundaryInSuffix(a, sep, b, q + |w|);
      assert WholeWordAt(b, w, q);
    }
  }

  /** A non-word character splits the search: a keyword made of word
      characters occurs as a whole word in `a + [sep] + b` exactly when it
      occurs as a whole word in `a` or in `b`. */
  lemma SplitAtSeparator(a: string, sep: char, b: string, w: string)
    requires !IsWordChar(sep)
    requires |w| > 0 && AllWordChars(w)
    ensures OccursAsWord(a + [sep] + b, w) <==> OccursAsWord(a, w) || OccursAsWord(b, w)
  {
    var t := a + [sep] + b;
    var n := |a|;
    if OccursAsWord(t, w) {
      var i :| WholeWordAt(t, w, i);
      SplitMatchSide(a, sep, b, w, i);
    }
    if OccursAsWord(a, w) {
      var i :| WholeWordAt(a, w, i);
      assert t[i..i + |w|] == a[i..i + |w|];
      BoundaryInPrefix(a, sep, b, i);
      BoundaryInPrefix(a, sep, b, i + |w|);
      assert WholeWordAt(t, w, i);
    }
    if OccursAsWord(b, w) {
      var q :| WholeWordAt(b, w, q);
      assert t[n + 1 + q..n + 1 + q + |w|] == b[q..q + |w|];
      BoundaryInSuffix(a, sep, b, q);
      BoundaryInSuffix(a, sep, b, q + |w|);
      assert WholeWordAt(t, w, n + 1 + q);
    }
  }
}
