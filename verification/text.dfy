/** The string operations of Python's `str` that the programs use. */
module Text {

  /** `c.isspace()`: the characters `str.strip()` removes. These are the
      characters of Unicode category Zs and those of bidirectional class
      WS, B or S. */
  predicate IsSpace(c: char) {
    || c == ' '
    || ('\t' <= c <= '\r')
    || ('\U{1C}' <= c <= '\U{1F}')
    || c == '\U{85}' || c == '\U{A0}' || c == '\U{1680}'
    || ('\U{2000}' <= c <= '\U{200A}')
    || c == '\U{2028}' || c == '\U{2029}' || c == '\U{202F}' || c == '\U{205F}'
    || c == '\U{3000}'
  }

  predicate AllSpace(s: string) {
    forall k :: 0 <= k < |s| ==> IsSpace(s[k])
  }

  /** Leading whitespace removed. */
  function StripLeft(s: string): (r: string)
    ensures |r| <= |s|
  {
    if s != [] && IsSpace(s[0]) then StripLeft(s[1..]) else s
  }

  /** `StripLeft` removes a prefix that is all whitespace, and stops at
      the first character that is not. */
  lemma {:induction false} StripLeftSpec(s: string)
    ensures var r := StripLeft(s);
            && r == s[|s| - |r|..]
            && AllSpace(s[..|s| - |r|])
            && (r == [] || !IsSpace(r[0]))
  {
    if s != [] && IsSpace(s[0]) {
      var t := s[1..];
      StripLeftSpec(t);
      var r := StripLeft(t);
      assert t[|t| - |r|..] == s[|s| - |r|..];
      var pre := s[..|s| - |r|];
      forall k | 0 <= k < |pre|
        ensures IsSpace(pre[k])
      {
        if k > 0 {
          assert pre[k] == t[..|t| - |r|][k - 1];
        }
      }
    } else {
      assert s[..0] == [];
    }
  }

  /** Trailing whitespace removed. */
  function StripRight(s: string): (r: string)
    ensures |r| <= |s|
  {
    if s != [] && IsSpace(s[|s| - 1]) then StripRight(s[..|s| - 1]) else s
  }

  /** `StripRight` removes a suffix that is all whitespace, and stops at
      the last character that is not. */
  lemma {:induction false} StripRightSpec(s: string)
    ensures var r := StripRight(s);
            && r == s[..|r|]
            && AllSpace(s[|r|..])
            && (r == [] || !IsSpace(r[|r| - 1]))
  {
    if s != [] && IsSpace(s[|s| - 1]) {
      var p := s[..|s| - 1];
      StripRightSpec(p);
      var r := StripRight(p);
      assert p[..|r|] == s[..|r|];
      var post := s[|r|..];
      forall k | 0 <= k < |post|
        ensures IsSpace(post[k])
      {
        if k < |post| - 1 {
          assert post[k] == p[|r|..][k];
        }
      }
    } else {
      assert s[|s|..] == [];
    }
  }

  /** `s.strip()`. */
  function Strip(s: string): (r: string)
    ensures |r| <= |s|
  {
    StripRight(StripLeft(s))
  }

  /** `r` is the slice of `s` at `i`, with only whitespace around it. */
  predicate SliceAmidSpace(s: string, r: string, i: int) {
    0 <= i <= |s| - |r| && r == s[i..i + |r|] && AllSpace(s[..i]) && AllSpace(s[i + |r|..])
  }

  /** `s.strip()` is a slice of `s` that leaves only whitespace outside
      it. */
  lemma StripSlice(s: string)
    ensures exists i :: SliceAmidSpace(s, Strip(s), i)
  {
    var l := StripLeft(s);
    var r := StripRight(l);
    var i := |s| - |l|;
    StripLeftSpec(s);
    StripRightSpec(l);
    SliceAmidSpaceOfSuffix(s, l, r, i);
    assert Strip(s) == r;
  }

  /** A prefix `r` of the suffix `l` of `s` at `i` is the slice at `i`. */
  lemma SliceAmidSpaceOfSuffix(s: string, l: string, r: string, i: nat)
    requires i <= |s| && l == s[i..] && |r| <= |l| && r == l[..|r|]
    requires AllSpace(s[..i]) && AllSpace(l[|r|..])
    ensures SliceAmidSpace(s, r, i)
  {
    assert l[|r|..] == s[i + |r|..];
  }

  /** `s.strip()` neither starts nor ends with whitespace. */
  lemma StripEnds(s: string)
    ensures Strip(s) == [] || (!IsSpace(Strip(s)[0]) && !IsSpace(Strip(s)[|Strip(s)| - 1]))
  {
    var l := StripLeft(s);
    var r := StripRight(l);
    StripLeftSpec(s);
    StripRightSpec(l);
    if r != [] {
      assert r[0] == l[0];
    }
  }

  /** `s.strip()` is empty exactly when `s` is all whitespace. */
  lemma StripEmpty(s: string)
    ensures Strip(s) == [] <==> AllSpace(s)
  {
    var l := StripLeft(s);
    var r := StripRight(l);
    var i := |s| - |l|;
    StripLeftSpec(s);
    StripRightSpec(l);
    if r == [] {
      assert l[|r|..] == l;
      assert s[..i] == s;
    } else {
      assert l == s[i..];
      assert s[i] == l[0] == r[0];
    }
  }

  /** Stripping is idempotent. */
  lemma StripIdempotent(s: string)
    ensures Strip(Strip(s)) == Strip(s)
  {
    var r := Strip(s);
    StripEnds(s);
    assert StripLeft(r) == r;
    assert StripRight(r) == r;
  }

  /** ASCII case folding. On the image extensions it agrees with
      Python's `str.lower()`: the only non-ASCII character whose lower
      case is an ASCII letter is KELVIN SIGN, which folds to `k`, a letter
      no extension contains. */
  function LowerChar(c: char): char {
    if 'A' <= c <= 'Z' then (c as int + 32) as char else c
  }

  function Lower(s: string): (r: string)
    ensures |r| == |s|
  {
    seq(|s|, k requires 0 <= k < |s| => LowerChar(s[k]))
  }

  /** `part in s` for strings: `part` occurs as a contiguous slice of `s`.
      The empty string occurs in every string. */
  predicate Contains(s: string, part: string) {
    exists i | 0 <= i <= |s| - |part| :: OccursAt(s, part, i)
  }

  predicate OccursAt(s: string, part: string, i: nat) {
    i + |part| <= |s| && s[i..i + |part|] == part
  }

  /** `s.startswith(prefix)`. */
  predicate StartsWith(s: string, prefix: string) {
    |prefix| <= |s| && s[..|prefix|] == prefix
  }
}
