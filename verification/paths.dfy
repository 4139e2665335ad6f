/** Relative paths as the scanner builds them: `os.path.join` on a POSIX
    host, followed by `.replace("\\", "/")`. */
module Paths {

  /** `posixpath.join(a, b)`: an absolute `b` replaces `a`; otherwise a
      separator is inserted unless `a` is empty or already ends in one. */
  function Join2(a: string, b: string): string {
    if |b| > 0 && b[0] == '/' then b
    else if a == [] || a[|a| - 1] == '/' then a + b
    else a + "/" + b
  }

  /** `os.path.join(segs[0], segs[1], ...)`, folding from the left. */
  function Join(segs: seq<string>): string
    requires |segs| > 0
  {
    if |segs| == 1 then segs[0] else Join2(Join(segs[..|segs| - 1]), segs[|segs| - 1])
  }

  /** `s.replace("\\", "/")`. */
  function ForwardSlashes(s: string): (r: string)
    ensures |r| == |s|
  {
    if s == [] then [] else [if s[0] == '\\' then '/' else s[0]] + ForwardSlashes(s[1..])
  }

  /** Each backslash becomes a slash; every other character stays. */
  lemma {:induction false} ForwardSlashesAt(s: string)
    ensures forall k :: 0 <= k < |s| ==> ForwardSlashes(s)[k] == if s[k] == '\\' then '/' else s[k]
  {
    if s != [] {
      ForwardSlashesAt(s[1..]);
      assert forall k :: 1 <= k < |s| ==> ForwardSlashes(s)[k] == ForwardSlashes(s[1..])[k - 1];
    }
  }

  /** The path the scanner reports for the segments `segs`. */
  function UrlPath(segs: seq<string>): string
    requires |segs| > 0
  {
    ForwardSlashes(Join(segs))
  }

  /** A non-empty name without `/` and without a backslash. A POSIX
      listing can also return names holding a backslash; the reported path
      rewrites those, so they are not plain. */
  predicate PlainName(n: string) {
    n != [] && '/' !in n && '\\' !in n
  }

  /** `s.split("/")`. */
  function Split(s: string): (r: seq<string>)
    ensures |r| > 0
    decreases |s|
  {
    if '/' !in s then [s]
    else
      var i := SlashIndex(s);
      [s[..i]] + Split(s[i + 1..])
  }

  /** The index of the first `/` in `s`. */
  function SlashIndex(s: string): (i: nat)
    requires '/' in s
    ensures i < |s| && s[i] == '/'
    ensures forall k :: 0 <= k < i ==> s[k] != '/'
  {
    if s[0] == '/' then 0
    else
      var i := SlashIndex(s[1..]);
      i + 1
  }

  /** The segments with a `/` between consecutive ones. */
  function Intercalate(segs: seq<string>): string
    requires |segs| > 0
  {
    if |segs| == 1 then segs[0] else segs[0] + "/" + Intercalate(segs[1..])
  }

  lemma SplitCons(x: string, t: string)
    requires '/' !in x
    ensures Split(x + "/" + t) == [x] + Split(t)
  {
    var s := x + "/" + t;
    assert s[|x|] == '/';
    var i := SlashIndex(s);
    assert forall k :: 0 <= k < |x| ==> s[k] == x[k];
    assert i == |x|;
    assert s[..i] == x;
    assert s[i + 1..] == t;
  }

  lemma {:induction false} SplitIntercalate(segs: seq<string>)
    requires |segs| > 0
    requires forall k :: 0 <= k < |segs| ==> '/' !in segs[k]
    ensures Split(Intercalate(segs)) == segs
    decreases |segs|
  {
    if |segs| > 1 {
      SplitCons(segs[0], Intercalate(segs[1..]));
      SplitIntercalate(segs[1..]);
      assert segs == [segs[0]] + segs[1..];
    }
  }

  lemma {:induction false} IntercalateSnoc(segs: seq<string>)
    requires |segs| > 1
    ensures Intercalate(segs) == Intercalate(segs[..|segs| - 1]) + "/" + segs[|segs| - 1]
    decreases |segs|
  {
    if |segs| > 2 {
      IntercalateSnoc(segs[1..]);
      assert segs[1..][..|segs| - 2] == segs[..|segs| - 1][1..];
    }
  }

  /** On plain names (no `/`, no backslash), `os.path.join` puts exactly one
      `/` between consecutive names. */
  lemma {:induction false} JoinPlain(segs: seq<string>)
    requires |segs| > 0
    requires forall k :: 0 <= k < |segs| ==> PlainName(segs[k])
    ensures Join(segs) == Intercalate(segs)
    ensures '\\' !in Join(segs)
    decreases |segs|
  {
    if |segs| > 1 {
      var init := segs[..|segs| - 1];
      JoinPlain(init);
      IntercalateSnoc(segs);
      var j := Join(init);
      assert j != [] && j[|j| - 1] != '/' by {
        assert Intercalate(init) == j;
        LastOfIntercalate(init);
      }
    }
  }

  lemma {:induction false} LastOfIntercalate(segs: seq<string>)
    requires |segs| > 0
    requires forall k :: 0 <= k < |segs| ==> PlainName(segs[k])
    ensures Intercalate(segs) != []
    ensures Intercalate(segs)[|Intercalate(segs)| - 1] != '/'
    decreases |segs|
  {
    if |segs| == 1 {
      assert segs[0][|segs[0]| - 1] in segs[0];
    } else {
      LastOfIntercalate(segs[1..]);
    }
  }

  /** Round trip: for plain names, splitting the reported path at `/`
      gives back exactly the segments it was built from. */
  lemma SplitUrlPath(segs: seq<string>)
    requires |segs| > 0
    requires forall k :: 0 <= k < |segs| ==> PlainName(segs[k])
    ensures Split(UrlPath(segs)) == segs
  {
    JoinPlain(segs);
    ForwardSlashesAt(Join(segs));
    assert ForwardSlashes(Join(segs)) == Join(segs);
    SplitIntercalate(segs);
  }
}
