/** The QString operations the launch-command builder relies on: substring
    search (`contains`), replace-all (`replace`), `lastIndexOf` on a
    character, and the `\s` whitespace test of a QRegularExpression.
    Strings are sequences of characters; no encoding is involved. */
module QtString {

  /** `s.startsWith(pat)`, compared character by character. */
  predicate StartsWith(s: string, pat: string)
    ensures StartsWith(s, pat) <==> |pat| <= |s| && s[..|pat|] == pat
    decreases |pat|
  {
    pat == [] || (s != [] && s[0] == pat[0] && StartsWith(s[1..], pat[1..]))
  }

  /** `s.contains(pat)`: `pat` occurs somewhere in `s`. */
  predicate Contains(s: string, pat: string)
    ensures Contains(s, pat) ==> |pat| <= |s|
    decreases |s|
  {
    StartsWith(s, pat) || (s != [] && Contains(s[1..], pat))
  }

  /** `pat` occurs in `s` at index `i`. */
  predicate OccursAt(s: string, pat: string, i: int)
  {
    0 <= i <= |s| - |pat| && s[i..i + |pat|] == pat
  }

  /** Independent characterisation of `Contains` by the index of an occurrence. */
  lemma {:induction false} ContainsIffOccurrence(s: string, pat: string)
    ensures Contains(s, pat) <==> exists i :: OccursAt(s, pat, i)
    decreases |s|
  {
    if StartsWith(s, pat) {
      assert OccursAt(s, pat, 0);
    } else if s == [] {
    } else {
      ContainsIffOccurrence(s[1..], pat);
      if Contains(s[1..], pat) {
        var i :| OccursAt(s[1..], pat, i);
        TailSlice(s, i, |pat|);
        assert OccursAt(s, pat, i + 1);
      }
      if exists i :: OccursAt(s, pat, i) {
        var i :| OccursAt(s, pat, i);
        assert i != 0;
        TailSlice(s, i - 1, |pat|);
        assert OccursAt(s[1..], pat, i - 1);
      }
    }
  }

  /** A slice of the tail is the slice of the string one further on. */
  lemma TailSlice(s: string, i: int, n: int)
    requires s != [] && 0 <= i && 0 <= n && i + n <= |s| - 1
    ensures s[1..][i..i + n] == s[i + 1..i + 1 + n]
  {
    var a, c := s[1..][i..i + n], s[i + 1..i + 1 + n];
    forall k | 0 <= k < n
      ensures a[k] == c[k]
    {
    }
    assert a == c;
  }

  /** A string containing `x + y + z` contains `y`. */
  lemma ContainsPart(s: string, x: string, y: string, z: string)
    requires Contains(s, x + y + z)
    ensures Contains(s, y)
  {
    var pat := x + y + z;
    ContainsIffOccurrence(s, pat);
    var i :| OccursAt(s, pat, i);
    forall k | 0 <= k < |y| ensures s[i + |x| + k] == y[k] {
      assert s[i + |x| + k] == s[i..i + |pat|][|x| + k];
      assert pat[|x| + k] == y[k];
    }
    assert s[i + |x|..i + |x| + |y|] == y;
    assert OccursAt(s, y, i + |x|);
    ContainsIffOccurrence(s, y);
  }

  /** Every character of a pattern found in `s` is a character of `s`. */
  lemma {:induction false} ContainedCharsOccur(s: string, pat: string, c: char)
    requires Contains(s, pat) && c in pat
    ensures c in s
    decreases |s|
  {
    if StartsWith(s, pat) {
      assert s == s[..|pat|] + s[|pat|..];
    } else {
      ContainedCharsOccur(s[1..], pat, c);
      assert s == [s[0]] + s[1..];
    }
  }

  /** A pattern holding a character that `s` lacks does not occur in `s`. */
  lemma MissingCharRulesOut(s: string, pat: string, c: char)
    requires c in pat && c !in s
    ensures !Contains(s, pat)
  {
    if Contains(s, pat) {
      ContainedCharsOccur(s, pat, c);
    }
  }

  /** `s.replace(pat, rep)`: scans `s` from the left and replaces every
      non-overlapping occurrence of `pat` by `rep`; the text inserted is
      never searched again. Every call in the launcher uses a non-empty
      constant pattern. */
  function ReplaceAll(s: string, pat: string, rep: string): (r: string)
    requires pat != []
    ensures !Contains(s, pat) ==> r == s
    ensures s != [] && s[0] != pat[0] ==> r != [] && r[0] == s[0]
    decreases |s|
  {
    if s == [] then []
    else if StartsWith(s, pat) then rep + ReplaceAll(s[|pat|..], pat, rep)
    else [s[0]] + ReplaceAll(s[1..], pat, rep)
  }

  /** A string that is exactly the pattern becomes the replacement. */
  lemma ReplaceAllWhole(pat: string, rep: string)
    requires pat != []
    ensures ReplaceAll(pat, pat, rep) == rep
  {
    assert pat[|pat|..] == [];
  }

  /** No occurrence starts within a prefix shorter than the pattern when
      the rest starts with a character that the pattern does not contain. */
  lemma NoStraddle(a: string, b: string, pat: string)
    requires b != [] && b[0] !in pat && |a| < |pat|
    ensures !StartsWith(a + b, pat)
  {
    if |pat| <= |a + b| {
      assert (a + b)[..|pat|][|a|] == b[0];
    }
  }

  /** Replacing in a concatenation replaces in each part on its own when no
      occurrence can straddle the boundary: the second part starts with a
      character that the pattern does not contain. */
  lemma {:induction false} ReplaceAllConcat(a: string, b: string, pat: string, rep: string)
    requires pat != [] && b != [] && b[0] !in pat
    ensures ReplaceAll(a + b, pat, rep) == ReplaceAll(a, pat, rep) + ReplaceAll(b, pat, rep)
    decreases |a|
  {
    if a == [] {
      assert a + b == b;
    } else if StartsWith(a, pat) {
      assert (a + b)[..|pat|] == a[..|pat|];
      assert (a + b)[|pat|..] == a[|pat|..] + b;
      ReplaceAllConcat(a[|pat|..], b, pat, rep);
    } else {
      if |a| < |pat| {
        NoStraddle(a, b, pat);
      } else {
        assert (a + b)[..|pat|] == a[..|pat|];
      }
      assert (a + b)[1..] == a[1..] + b;
      ReplaceAllConcat(a[1..], b, pat, rep);
    }
  }

  /** A prefix holding no character that can start the pattern is copied
      through unchanged; the replacing goes on in the rest. */
  lemma {:induction false} ReplaceAllPlainPrefix(w: string, b: string, pat: string, rep: string)
    requires pat != [] && pat[0] !in w
    ensures ReplaceAll(w + b, pat, rep) == w + ReplaceAll(b, pat, rep)
    decreases |w|
  {
    var s := w + b;
    if w == [] {
      assert s == b;
    } else {
      assert s[0] == w[0] != pat[0];
      assert s[1..] == w[1..] + b;
      assert ReplaceAll(s, pat, rep) == [w[0]] + ReplaceAll(w[1..] + b, pat, rep);
      ReplaceAllPlainPrefix(w[1..], b, pat, rep);
      assert w == [w[0]] + w[1..];
    }
  }

  /** Replacing introduces no character that is neither in the input nor in
      the replacement. */
  lemma {:induction false} ReplaceAllChars(s: string, pat: string, rep: string, c: char)
    requires pat != []
    requires c in ReplaceAll(s, pat, rep)
    ensures c in s || c in rep
    decreases |s|
  {
    if s == [] {
    } else if StartsWith(s, pat) {
      if c !in rep {
        ReplaceAllChars(s[|pat|..], pat, rep, c);
        assert s == s[..|pat|] + s[|pat|..];
      }
    } else if c != s[0] {
      ReplaceAllChars(s[1..], pat, rep, c);
      assert s == [s[0]] + s[1..];
    }
  }

  /** `s.lastIndexOf(c)`: the index of the last `c` in `s`, or -1. */
  function LastIndexOf(s: string, c: char): (r: int)
    ensures -1 <= r < |s|
    ensures r >= 0 ==> s[r] == c
    decreases |s|
  {
    if s == [] then -1
    else if s[|s| - 1] == c then |s| - 1
    else LastIndexOf(s[..|s| - 1], c)
  }

  /** No `c` follows the index `LastIndexOf` reports. */
  lemma {:induction false} LastIndexOfIsLast(s: string, c: char)
    ensures forall j :: LastIndexOf(s, c) < j < |s| ==> s[j] != c
    decreases |s|
  {
    if s != [] && s[|s| - 1] != c {
      LastIndexOfIsLast(s[..|s| - 1], c);
    }
  }

  /** The last occurrence is determined by its position: an index holding
      `c` with no `c` after it is the one `LastIndexOf` finds. */
  lemma {:induction false} LastIndexOfIs(s: string, c: char, k: int)
    requires 0 <= k < |s| && s[k] == c
    requires forall j :: k < j < |s| ==> s[j] != c
    ensures LastIndexOf(s, c) == k
    decreases |s|
  {
    if k < |s| - 1 {
      LastIndexOfIs(s[..|s| - 1], c, k);
    }
  }

  /** `LastIndexOf` reports -1 exactly when the character is absent. */
  lemma LastIndexOfAbsent(s: string, c: char)
    ensures LastIndexOf(s, c) == -1 <==> c !in s
  {
    LastIndexOfIsLast(s, c);
  }

  /** The characters `\s` matches when Unicode properties are off: space,
      horizontal tab, line feed, vertical tab, form feed, carriage return
      (the last five are the consecutive code points 9 to 13). */
  predicate IsWhitespace(c: char)
  {
    c == ' ' || '\t' <= c <= '\r'
  }

  /** `s.contains(QRegularExpression("\\s"))`: some character of `s` is
      whitespace. */
  predicate ContainsWhitespace(s: string)
    decreases |s|
  {
    s != [] && (IsWhitespace(s[0]) || ContainsWhitespace(s[1..]))
  }

  /** The whitespace search in terms of positions. */
  lemma {:induction false} ContainsWhitespaceIffAt(s: string)
    ensures ContainsWhitespace(s) <==> exists i :: 0 <= i < |s| && IsWhitespace(s[i])
    decreases |s|
  {
    if s != [] {
      ContainsWhitespaceIffAt(s[1..]);
      if exists i :: 0 <= i < |s| && IsWhitespace(s[i]) {
        var i :| 0 <= i < |s| && IsWhitespace(s[i]);
        if i > 0 {
          assert s[1..][i - 1] == s[i];
        }
      }
    }
  }

  /** A concatenation contains whitespace when one of its parts does. */
  lemma {:induction false} ContainsWhitespaceConcat(a: string, b: string)
    ensures ContainsWhitespace(a + b) <==> ContainsWhitespace(a) || ContainsWhitespace(b)
    decreases |a|
  {
    if a == [] {
      assert a + b == b;
    } else {
      assert (a + b)[1..] == a[1..] + b;
      ContainsWhitespaceConcat(a[1..], b);
    }
  }
}
