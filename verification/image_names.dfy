/** Recognising image files by extension (`ALLOWED_EXTENSIONS`,
    `is_image` and Python's `os.path.splitext`). */
module ImageNames {
  import opened Text

  const ImageExtensions: set<string> := {".png", ".jpg", ".jpeg", ".gif", ".webp"}

  /** The index of the last `c` among the first `n` characters of `s`, or
      -1 when there is none. */
  function LastIndexBefore(s: string, c: char, n: nat): (i: int)
    requires n <= |s|
    ensures -1 <= i < n
  {
    if n == 0 then -1
    else if s[n - 1] == c then n - 1
    else LastIndexBefore(s, c, n - 1)
  }

  /** The index of the last `c` in `s`, or -1 when there is none
      (`str.rfind`). */
  function LastIndex(s: string, c: char): (i: int)
    ensures -1 <= i < |s|
  {
    LastIndexBefore(s, c, |s|)
  }

  /** Some character of `s` is not a dot. */
  predicate NotAllDots(s: string) {
    s != [] && (s[0] != '.' || NotAllDots(s[1..]))
  }

  lemma {:induction false} NotAllDotsAt(s: string)
    ensures NotAllDots(s) <==> exists k :: 0 <= k < |s| && s[k] != '.'
  {
    if s != [] {
      NotAllDotsAt(s[1..]);
      if s[0] == '.' {
        assert (exists k :: 0 <= k < |s[1..]| && s[1..][k] != '.')
           <==> (exists k :: 0 <= k < |s| && s[k] != '.') by {
          if exists k :: 0 <= k < |s| && s[k] != '.' {
            var k :| 0 <= k < |s| && s[k] != '.';
            assert s[1..][k - 1] != '.';
          }
        }
      }
    }
  }

  /** `LastIndex` finds the last occurrence. */
  lemma {:induction false} LastIndexBeforeSpec(s: string, c: char, n: nat)
    requires n <= |s|
    ensures LastIndexBefore(s, c, n) >= 0 ==> s[LastIndexBefore(s, c, n)] == c
    ensures forall k :: LastIndexBefore(s, c, n) < k < n ==> s[k] != c
  {
    if n > 0 && s[n - 1] != c {
      LastIndexBeforeSpec(s, c, n - 1);
    }
  }

  lemma LastIndexSpec(s: string, c: char)
    ensures LastIndex(s, c) >= 0 ==> s[LastIndex(s, c)] == c
    ensures forall k :: LastIndex(s, c) < k < |s| ==> s[k] != c
  {
    LastIndexBeforeSpec(s, c, |s|);
  }

  /** `os.path.splitext(name)[1]` on a POSIX host: from the last dot to the
      end, provided that dot comes after the last `/` and the file name
      part before it is not made of dots only; otherwise empty. */
  function Extension(name: string): string
  {
    var sep := LastIndex(name, '/');
    var dot := LastIndex(name, '.');
    if dot > sep && NotAllDots(name[sep + 1..dot]) then name[dot..] else ""
  }

  /** `is_image(filename)`. */
  predicate IsImage(name: string) {
    Lower(Extension(name)) in ImageExtensions
  }

  /** The file name part of a path: what follows its last `/`. */
  function BaseName(p: string): string {
    p[LastIndex(p, '/') + 1..]
  }

  /** An independent description of `is_image`: the name ends, ignoring
      ASCII case, with one of the allowed extensions, and the file name
      part of what precedes that extension is not all dots. */
  predicate EndsWithImageExtension(name: string) {
    exists ext | ext in ImageExtensions ::
      |ext| <= |name|
      && Lower(name[|name| - |ext|..]) == ext
      && NotAllDots(BaseName(name[..|name| - |ext|]))
  }

  /** Every allowed extension is a dot followed by characters that are
      neither dots nor slashes. */
  lemma ExtensionShape(ext: string)
    requires ext in ImageExtensions
    ensures |ext| >= 2 && ext[0] == '.'
    ensures forall k :: 1 <= k < |ext| ==> ext[k] != '.' && ext[k] != '/'
  {
  }

  lemma {:induction false} LastIndexBeforeUnique(s: string, c: char, n: nat, i: int)
    requires n <= |s| && -1 <= i < n
    requires i >= 0 ==> s[i] == c
    requires forall k :: i < k < n ==> s[k] != c
    ensures LastIndexBefore(s, c, n) == i
  {
    if n > 0 && i < n - 1 {
      LastIndexBeforeUnique(s, c, n - 1, i);
    }
  }

  lemma LastIndexUnique(s: string, c: char, i: int)
    requires -1 <= i < |s|
    requires i >= 0 ==> s[i] == c
    requires forall k :: i < k < |s| ==> s[k] != c
    ensures LastIndex(s, c) == i
  {
    LastIndexBeforeUnique(s, c, |s|, i);
  }

  lemma LastIndexPrefix(s: string, c: char, n: nat)
    requires LastIndex(s, c) < n <= |s|
    ensures LastIndex(s[..n], c) == LastIndex(s, c)
  {
    var i := LastIndex(s, c);
    LastIndexSpec(s, c);
    var p := s[..n];
    assert forall k :: i < k < n ==> p[k] != c;
    LastIndexBeforeUnique(p, c, |p|, i);
  }

  /** The extension starts at a dot `d` exactly when no dot or slash
      follows it and the file name part before it is not all dots. */
  lemma ExtensionAt(name: string, d: nat)
    requires d < |name| && name[d] == '.'
    requires forall k :: d < k < |name| ==> name[k] != '.' && name[k] != '/'
    requires NotAllDots(BaseName(name[..d]))
    ensures Extension(name) == name[d..]
  {
    LastIndexUnique(name, '.', d);
    var sep := LastIndex(name, '/');
    LastIndexSpec(name, '/');
    assert sep < d by {
      if sep >= 0 {
        assert name[sep] == '/';
      }
    }
    LastIndexPrefix(name, '/', d);
    assert LastIndex(name[..d], '/') == sep;
    BaseNameOfPrefix(name, d, sep);
    assert NotAllDots(name[sep + 1..d]);
  }

  /** The file name part of the first `n` characters, given where their
      last slash is. */
  lemma BaseNameOfPrefix(s: string, n: nat, sep: int)
    requires n <= |s| && -1 <= sep < n
    requires LastIndex(s[..n], '/') == sep
    ensures BaseName(s[..n]) == s[sep + 1..n]
  {
  }

  /** A non-empty extension is a suffix that follows a file name part
      that is not all dots. */
  lemma ExtensionSuffix(name: string)
    requires Extension(name) != ""
    ensures |Extension(name)| <= |name|
    ensures name[|name| - |Extension(name)|..] == Extension(name)
    ensures NotAllDots(BaseName(name[..|name| - |Extension(name)|]))
  {
    var sep := LastIndex(name, '/');
    var dot := LastIndex(name, '.');
    assert Extension(name) == name[dot..];
    LastIndexPrefix(name, '/', dot);
    assert BaseName(name[..dot]) == name[sep + 1..dot];
  }

  /** A non-empty extension starts with a dot and contains no further dot
      and no `/`. */
  lemma ExtensionDotFirst(name: string)
    requires Extension(name) != ""
    ensures Extension(name)[0] == '.'
    ensures forall k :: 0 < k < |Extension(name)| ==> Extension(name)[k] != '.' && Extension(name)[k] != '/'
  {
    var dot := LastIndex(name, '.');
    var e := Extension(name);
    assert e == name[dot..];
    LastIndexSpec(name, '.');
    LastIndexSpec(name, '/');
    forall k | 0 < k < |e|
      ensures e[k] != '.' && e[k] != '/'
    {
      assert e[k] == name[dot + k];
    }
  }

  /** `splitext` cuts at the dot at position `d` exactly when no dot or
      `/` follows it and the file name part before it is not all dots. */
  lemma ExtensionStartsAt(name: string, d: nat)
    requires d < |name|
    ensures (Extension(name) != "" && |name| - |Extension(name)| == d)
            <==> (&& name[d] == '.'
                  && (forall k :: d < k < |name| ==> name[k] != '.' && name[k] != '/')
                  && NotAllDots(BaseName(name[..d])))
  {
    if name[d] == '.' && (forall k :: d < k < |name| ==> name[k] != '.' && name[k] != '/')
       && NotAllDots(BaseName(name[..d])) {
      ExtensionAt(name, d);
    }
    if Extension(name) != "" && |name| - |Extension(name)| == d {
      ExtensionSuffix(name);
      ExtensionDotFirst(name);
      var e := Extension(name);
      forall k | d < k < |name|
        ensures name[k] != '.' && name[k] != '/'
      {
        assert name[k] == e[k - d];
      }
      assert name[d] == e[0];
    }
  }

  /** Case folding maps no other character to a dot or a slash. */
  lemma LowerCharKeeps(c: char)
    ensures LowerChar(c) == '.' <==> c == '.'
    ensures LowerChar(c) == '/' <==> c == '/'
  {
  }

  lemma ImageToSuffix(name: string)
    requires IsImage(name)
    ensures EndsWithImageExtension(name)
  {
    var e := Extension(name);
    assert Lower("") == "";
    ExtensionSuffix(name);
    var ext := Lower(e);
    assert |ext| <= |name| && Lower(name[|name| - |ext|..]) == ext
           && NotAllDots(BaseName(name[..|name| - |ext|]));
  }

  lemma SuffixToImage(name: string, ext: string)
    requires ext in ImageExtensions
    requires |ext| <= |name|
    requires Lower(name[|name| - |ext|..]) == ext
    requires NotAllDots(BaseName(name[..|name| - |ext|]))
    ensures IsImage(name)
  {
    ExtensionShape(ext);
    var d := |name| - |ext|;
    var tail := name[d..];
    forall k | d <= k < |name|
      ensures (name[k] == '.') == (k == d)
      ensures name[k] != '/'
    {
      assert tail[k - d] == name[k];
      LowerCharKeeps(name[k]);
      assert LowerChar(tail[k - d]) == ext[k - d];
    }
    ExtensionAt(name, d);
  }

  /** `is_image` holds exactly of the names that end in an allowed
      extension, in any ASCII case, after a file name part that is not all
      dots: `a.PNG` is an image, `.png` and `...png` are not. */
  lemma IsImageByExtension(name: string)
    ensures IsImage(name) <==> EndsWithImageExtension(name)
  {
    if IsImage(name) {
      ImageToSuffix(name);
    }
    if EndsWithImageExtension(name) {
      var ext :| ext in ImageExtensions
        && |ext| <= |name|
        && Lower(name[|name| - |ext|..]) == ext
        && NotAllDots(BaseName(name[..|name| - |ext|]));
      SuffixToImage(name, ext);
    }
  }
}
