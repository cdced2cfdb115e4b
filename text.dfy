/** The three string operations the dashboard applies to cell values:
    `str.strip()` on a new care-line name, `str.lower()` on a status, and
    pandas' `str.contains` (a substring test for a pattern without regular
    expression metacharacters). */
module Text {

  /** Python's `str.isspace()` for one character: the ASCII separators, the
      information separators 0x1C-0x1F, NEL, NO-BREAK SPACE and the Unicode
      space separators. */
  predicate IsSpace(c: char)
  {
    c == ' ' || ('\t' <= c <= '\r') || ('\U{1C}' <= c <= '\U{1F}') ||
    c == '\U{85}' || c == '\U{A0}' || c == '\U{1680}' || ('\U{2000}' <= c <= '\U{200A}') ||
    c == '\U{2028}' || c == '\U{2029}' || c == '\U{202F}' || c == '\U{205F}' || c == '\U{3000}'
  }

  predicate AllSpace(s: string)
  {
    forall i :: 0 <= i < |s| ==> IsSpace(s[i])
  }

  /** `s.lstrip()`: the suffix of `s` that starts at its first non-space character. */
  function StripLeft(s: string): (r: string)
    ensures |r| <= |s| && r == s[|s| - |r|..]
    ensures AllSpace(s[..|s| - |r|])
    ensures r == [] || !IsSpace(r[0])
  {
    if s == [] || !IsSpace(s[0]) then s
    else
      var r := StripLeft(s[1..]);
      SpaceThenSuffix(s, r);
      r
  }

  /** A space followed by a suffix cut off at whitespace only is a suffix of
      the whole, cut off at whitespace only. */
  lemma SpaceThenSuffix(s: string, r: string)
    requires s != [] && IsSpace(s[0])
    requires |r| <= |s| - 1 && r == s[1..][|s| - 1 - |r|..] && AllSpace(s[1..][..|s| - 1 - |r|])
    ensures r == s[|s| - |r|..] && AllSpace(s[..|s| - |r|])
  {
    var p := s[1..];
    assert p[|p| - |r|..] == s[|s| - |r|..];
    assert s[..|s| - |r|] == [s[0]] + p[..|p| - |r|];
    AllSpaceConcat([s[0]], p[..|p| - |r|]);
  }

  /** Whitespace on both sides of a join. */
  lemma AllSpaceConcat(a: string, b: string)
    requires AllSpace(a) && AllSpace(b)
    ensures AllSpace(a + b)
  {
    forall k | 0 <= k < |a + b| ensures IsSpace((a + b)[k]) {
      if k < |a| { assert (a + b)[k] == a[k]; } else { assert (a + b)[k] == b[k - |a|]; }
    }
  }

  /** `s.rstrip()`: the prefix of `s` that ends at its last non-space character. */
  function StripRight(s: string): (r: string)
    ensures |r| <= |s| && r == s[..|r|]
    ensures AllSpace(s[|r|..])
    ensures r == [] || !IsSpace(r[|r| - 1])
  {
    if s == [] || !IsSpace(s[|s| - 1]) then s
    else
      var r := StripRight(s[..|s| - 1]);
      PrefixThenSpace(s, r);
      r
  }

  /** A prefix cut off at whitespace only, followed by a space, is a prefix of
      the whole, cut off at whitespace only. */
  lemma PrefixThenSpace(s: string, r: string)
    requires s != [] && IsSpace(s[|s| - 1])
    requires |r| <= |s| - 1 && r == s[..|s| - 1][..|r|] && AllSpace(s[..|s| - 1][|r|..])
    ensures r == s[..|r|] && AllSpace(s[|r|..])
  {
    var p := s[..|s| - 1];
    assert p[..|r|] == s[..|r|];
    assert s[|r|..] == p[|r|..] + [s[|s| - 1]];
    AllSpaceConcat(p[|r|..], [s[|s| - 1]]);
  }

  /** `r` is `s[i..j]` and what lies outside `i..j` is whitespace. */
  predicate TrimmedTo(s: string, r: string, i: int, j: int)
  {
    0 <= i <= j <= |s| && r == s[i..j] && AllSpace(s[..i]) && AllSpace(s[j..])
  }

  /** A prefix of a suffix of `s`, each cut off at whitespace only, is a
      trimmed slice of `s`. */
  lemma TrimmedTwice(s: string, l: string, r: string)
    requires |l| <= |s| && l == s[|s| - |l|..] && AllSpace(s[..|s| - |l|])
    requires |r| <= |l| && r == l[..|r|] && AllSpace(l[|r|..])
    ensures TrimmedTo(s, r, |s| - |l|, |s| - |l| + |r|)
  {
    var i := |s| - |l|;
    var j := i + |r|;
    forall k | 0 <= k < |r| ensures r[k] == s[i..j][k] {
      assert r[k] == l[k] == s[i + k];
    }
    forall k | 0 <= k < |s| - j ensures IsSpace(s[j..][k]) {
      assert s[j + k] == l[|r| + k] == l[|r|..][k];
    }
  }

  /** `s.strip()`: `s` without its leading and trailing whitespace. The result
      is a slice of `s`, what is cut off is whitespace, and the result neither
      starts nor ends with whitespace. */
  function Strip(s: string): (r: string)
    ensures exists i, j :: TrimmedTo(s, r, i, j)
    ensures r == [] || (!IsSpace(r[0]) && !IsSpace(r[|r| - 1]))
  {
    var l := StripLeft(s);
    var r := StripRight(l);
    TrimmedTwice(s, l, r);
    assert r == [] || (!IsSpace(r[0]) && !IsSpace(r[|r| - 1])) by {
      if r != [] {
        assert r[0] == l[0];
      }
    }
    r
  }

  /** The name the dashboard refuses: `nova_linha.strip() != ""` is false exactly
      when every character of the input is whitespace. */
  lemma {:induction false} StripEmptyIffAllSpace(s: string)
    ensures Strip(s) == [] <==> AllSpace(s)
  {
    var r := Strip(s);
    var i, j :| TrimmedTo(s, r, i, j);
    if r == [] {
      assert i == j;
      forall k | 0 <= k < |s| ensures IsSpace(s[k]) {
        if k < i { assert s[k] == s[..i][k]; } else { assert s[k] == s[j..][k - j]; }
      }
    }
  }

  /** `strip()` is idempotent: stripping a stripped string changes nothing. */
  lemma {:induction false} StripIdempotent(s: string)
    ensures Strip(Strip(s)) == Strip(s)
  {
    var r := Strip(s);
    var q := Strip(r);
    var i, j :| TrimmedTo(r, q, i, j);
  }

  /** The capitals `str.lower()` changes in the model: ASCII A-Z and the
      Latin-1 capitals U+00C0-U+00DE except the multiplication sign U+00D7. */
  predicate IsCapital(c: char)
  {
    'A' <= c <= 'Z' || ('\U{C0}' <= c <= '\U{DE}' && c != '\U{D7}')
  }

  /** `str.lower()` on one character: a capital becomes the small letter 32
      code points above it, every other character is kept. */
  function LowerChar(c: char): (d: char)
    ensures !IsCapital(d)
    ensures !IsCapital(c) ==> d == c
    ensures IsCapital(c) ==> d as int == c as int + 32
  {
    if IsCapital(c) then (c as int + 32) as char else c
  }

  /** `s.lower()`: no capital is left, every other character is kept, and each
      capital becomes its small letter in place. */
  function Lower(s: string): (r: string)
    ensures |r| == |s|
    ensures forall i :: 0 <= i < |s| ==> r[i] == LowerChar(s[i])
    ensures forall i :: 0 <= i < |r| ==> !IsCapital(r[i])
    ensures forall i :: 0 <= i < |s| && !IsCapital(s[i]) ==> r[i] == s[i]
  {
    seq(|s|, i requires 0 <= i < |s| => LowerChar(s[i]))
  }

  /** A string with no capital is its own lower case. */
  lemma LowerKeepsSmall(s: string)
    requires forall i :: 0 <= i < |s| ==> !IsCapital(s[i])
    ensures Lower(s) == s
  {
    var r := Lower(s);
    forall i | 0 <= i < |s| ensures r[i] == s[i] {
      assert !IsCapital(s[i]);
    }
  }

  /** Lower-casing twice is lower-casing once. */
  lemma LowerIdempotent(s: string)
    ensures Lower(Lower(s)) == Lower(s)
  {
    LowerKeepsSmall(Lower(s));
  }

  /** `sub` occurs in `s` starting at position `i`. */
  predicate OccursAt(s: string, sub: string, i: int)
  {
    0 <= i <= |s| - |sub| && s[i..i + |sub|] == sub
  }

  /** `sub` occurs in `s` as a contiguous piece. */
  predicate Contains(s: string, sub: string)
  {
    exists i :: 0 <= i <= |s| && OccursAt(s, sub, i)
  }
}
