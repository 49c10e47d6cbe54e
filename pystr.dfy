/**
  The Python 2 unicode-string builtins the extractors rely on: the substring
  test `sub in s`, `s.replace(pat, repl)` and `s.strip()`.
 */
module PyStr {

  // ---------------------------------------------------------------------------
  // `sub in s`
  // ---------------------------------------------------------------------------

  /** Python's `sub in s`: `sub` occurs somewhere in `s` (the empty string occurs everywhere). */
  predicate Contains(s: string, sub: string)
    decreases |s|
  {
    sub <= s || (|s| > 0 && Contains(s[1..], sub))
  }

  /** `Contains` agrees with the positional definition of an occurrence. */
  lemma {:induction false} ContainsIff(s: string, sub: string)
    ensures Contains(s, sub) <==> exists i :: 0 <= i <= |s| && sub <= s[i..]
    decreases |s|
  {
    if sub <= s {
      assert s[0..] == s;
    } else if |s| == 0 {
      forall i | 0 <= i <= |s| ensures !(sub <= s[i..]) {
        assert s[i..] == s;
      }
    } else {
      ContainsIff(s[1..], sub);
      if Contains(s[1..], sub) {
        var i :| 0 <= i <= |s[1..]| && sub <= s[1..][i..];
        assert s[1..][i..] == s[i + 1..];
      } else {
        forall i | 0 <= i <= |s| ensures !(sub <= s[i..]) {
          if i > 0 {
            assert s[1..][i - 1..] == s[i..];
          } else {
            assert s[i..] == s;
          }
        }
      }
    }
  }

  // ---------------------------------------------------------------------------
  // `s.replace(pat, repl)`
  // ---------------------------------------------------------------------------

  /**
    Python's `s.replace(pat, repl)`: one left-to-right pass that replaces each
    non-overlapping occurrence of `pat`; the text it produces is not scanned
    again. An empty `pat` matches before every character and at the end, so
    `"ab".replace("", "x") == "xaxbx"`.
   */
  function Replace(s: string, pat: string, repl: string): string
    decreases |s|
  {
    if pat == [] then
      if s == [] then repl else repl + [s[0]] + Replace(s[1..], pat, repl)
    else if pat <= s then repl + Replace(s[|pat|..], pat, repl)
    else if s == [] then []
    else [s[0]] + Replace(s[1..], pat, repl)
  }

  /** How many occurrences of a non-empty `pat` one `Replace` pass substitutes. */
  function Matches(s: string, pat: string): nat
    requires pat != []
    decreases |s|
  {
    if pat <= s then 1 + Matches(s[|pat|..], pat)
    else if s == [] then 0
    else Matches(s[1..], pat)
  }

  /** The pass substitutes something exactly when `pat` occurs at all. */
  lemma {:induction false} MatchesPositiveIff(s: string, pat: string)
    requires pat != []
    ensures Matches(s, pat) > 0 <==> Contains(s, pat)
    decreases |s|
  {
    if !(pat <= s) && s != [] {
      MatchesPositiveIff(s[1..], pat);
    }
  }

  /** Every substitution changes the length by `|repl| - |pat|` and nothing else does. */
  lemma {:induction false} ReplaceLength(s: string, pat: string, repl: string)
    requires pat != []
    ensures |Replace(s, pat, repl)| == |s| + Matches(s, pat) * (|repl| - |pat|)
    decreases |s|
  {
    var d := |repl| - |pat|;
    if pat <= s {
      var rest := s[|pat|..];
      var m := Matches(rest, pat);
      ReplaceLength(rest, pat, repl);
      assert Replace(s, pat, repl) == repl + Replace(rest, pat, repl);
      assert Matches(s, pat) == 1 + m;
      Distribute(m, d);
    } else if s != [] {
      ReplaceLength(s[1..], pat, repl);
      assert Replace(s, pat, repl) == [s[0]] + Replace(s[1..], pat, repl);
      assert Matches(s, pat) == Matches(s[1..], pat);
    }
  }

  /** `(1 + m) * d` split into `m * d + d`, kept apart from the string reasoning. */
  lemma Distribute(m: int, d: int)
    ensures (1 + m) * d == m * d + d
  {
  }

  /** Where a non-empty `pat` does not occur, `Replace` returns its input. */
  lemma {:induction false} ReplaceAbsent(s: string, pat: string, repl: string)
    requires pat != [] && !Contains(s, pat)
    ensures Replace(s, pat, repl) == s
    decreases |s|
  {
    if s != [] {
      ReplaceAbsent(s[1..], pat, repl);
      assert [s[0]] + s[1..] == s;
    }
  }

  /** Replacing the empty string by the empty string changes nothing. */
  lemma {:induction false} ReplaceEmptyByEmpty(s: string)
    ensures Replace(s, "", "") == s
    decreases |s|
  {
    if s != [] {
      ReplaceEmptyByEmpty(s[1..]);
      assert [s[0]] + s[1..] == s;
    }
  }

  /** A text that starts with `pat` loses that occurrence and the rest is processed on its own. */
  lemma ReplaceLeading(pat: string, t: string, repl: string)
    requires pat != []
    ensures Replace(pat + t, pat, repl) == repl + Replace(t, pat, repl)
  {
    assert pat <= pat + t;
    assert (pat + t)[|pat|..] == t;
  }

  /**
    Replacing one character by one character rewrites the text position by
    position: same length, every `a` becomes `b`, every other character stays.
   */
  lemma {:induction false} ReplaceCharAt(s: string, a: char, b: char)
    ensures |Replace(s, [a], [b])| == |s|
    ensures forall k :: 0 <= k < |s| ==> Replace(s, [a], [b])[k] == if s[k] == a then b else s[k]
    decreases |s|
  {
    if s != [] {
      ReplaceCharAt(s[1..], a, b);
      var rest := Replace(s[1..], [a], [b]);
      if [a] <= s {
        assert s[|[a]|..] == s[1..];
        assert Replace(s, [a], [b]) == [b] + rest;
      } else {
        assert Replace(s, [a], [b]) == [s[0]] + rest;
      }
    }
  }

  /** After replacing `a` by a different character, no `a` is left. */
  lemma CharReplacedEverywhere(s: string, a: char, b: char)
    requires a != b
    ensures a !in Replace(s, [a], [b])
  {
    ReplaceCharAt(s, a, b);
  }

  // ---------------------------------------------------------------------------
  // `s.strip()`
  // ---------------------------------------------------------------------------

  /**
    The characters Python 2.7's `unicode.isspace()` accepts and `strip()`
    therefore removes: the C0 separators and controls, the space, NEL, NBSP,
    OGHAM SPACE MARK, MONGOLIAN VOWEL SEPARATOR, the U+2000 block of spaces,
    the line and paragraph separators and the remaining Zs spaces.
   */
  predicate IsSpace(c: char)
  {
    ('\t' <= c <= '\r') || ('\U{1C}' <= c <= '\U{1F}') || c == ' '
    || c == '\U{85}' || c == '\U{A0}' || c == '\U{1680}' || c == '\U{180E}'
    || ('\U{2000}' <= c <= '\U{200A}') || c == '\U{2028}' || c == '\U{2029}'
    || c == '\U{202F}' || c == '\U{205F}' || c == '\U{3000}'
  }

  /** Neither the first nor the last character of `t` is whitespace. */
  predicate Trimmed(t: string)
  {
    t == [] || (!IsSpace(t[0]) && !IsSpace(t[|t| - 1]))
  }

  /** Python's `lstrip()`: the longest suffix of `s` that does not start with whitespace. */
  function TrimLeft(s: string): (r: string)
    ensures |r| <= |s| && r == s[|s| - |r|..]
    ensures forall k :: 0 <= k < |s| - |r| ==> IsSpace(s[k])
    ensures r == [] || !IsSpace(r[0])
    decreases |s|
  {
    if s != [] && IsSpace(s[0]) then
      var r := TrimLeft(s[1..]);
      assert s[1..][|s[1..]| - |r|..] == s[|s| - |r|..];
      assert forall k :: 1 <= k < |s| - |r| ==> s[k] == s[1..][k - 1];
      r
    else s
  }

  /** Python's `rstrip()`: the longest prefix of `s` that does not end with whitespace. */
  function TrimRight(s: string): (r: string)
    ensures |r| <= |s| && r == s[..|r|]
    ensures forall k :: |r| <= k < |s| ==> IsSpace(s[k])
    ensures r == [] || !IsSpace(r[|r| - 1])
    decreases |s|
  {
    if s != [] && IsSpace(s[|s| - 1]) then
      var r := TrimRight(s[..|s| - 1]);
      assert s[..|s| - 1][..|r|] == s[..|r|];
      assert forall k :: |r| <= k < |s| - 1 ==> s[k] == s[..|s| - 1][k];
      r
    else s
  }

  /**
    Python's `strip()`: what remains of `s` once the whitespace at both ends is
    removed; it neither starts nor ends with whitespace.
   */
  function Strip(s: string): (r: string)
    ensures Trimmed(r)
  {
    var l := TrimLeft(s);
    var r := TrimRight(l);
    assert r != [] ==> r[0] == l[0];
    r
  }

  /**
    What `strip()` keeps is one contiguous piece of its input, starting where
    the leading whitespace ends.
   */
  lemma StripSlice(s: string)
    ensures Strip(s) <= s[|s| - |TrimLeft(s)|..]
  {
    var l := TrimLeft(s);
    assert Strip(s) == TrimRight(l);
    assert l == s[|s| - |l|..];
  }

  /** Everything `strip()` cuts away, before and after the piece it keeps, is whitespace. */
  lemma StripCutsWhitespace(s: string)
    ensures var i := |s| - |TrimLeft(s)|;
      && (forall k :: 0 <= k < i ==> IsSpace(s[k]))
      && (forall k :: i + |Strip(s)| <= k < |s| ==> IsSpace(s[k]))
  {
    var l := TrimLeft(s);
    var r := TrimRight(l);
    var i := |s| - |l|;
    assert Strip(s) == r;
    forall k | i + |r| <= k < |s| ensures IsSpace(s[k]) {
      assert s[k] == l[k - i];
    }
  }

  /** `strip()` keeps only characters of its input. */
  lemma StripKeepsCharacters(s: string)
    ensures forall c :: c in Strip(s) ==> c in s
  {
    var r := Strip(s);
    var i := |s| - |TrimLeft(s)|;
    StripSlice(s);
    forall c | c in r ensures c in s {
      var k :| 0 <= k < |r| && r[k] == c;
      assert s[i..][k] == r[k];
    }
  }

  /** A text already free of surrounding whitespace is returned unchanged. */
  lemma StripTrimmed(s: string)
    requires Trimmed(s)
    ensures Strip(s) == s
  {
  }

  /** `strip()` is idempotent. */
  lemma StripIdempotent(s: string)
    ensures Strip(Strip(s)) == Strip(s)
  {
    StripTrimmed(Strip(s));
  }
}
