/** The `.gitkeep` filler of `util/fix_empty_folders.py`. Git does not
    track empty directories, so `create_gitkeeps` walks the image tree
    top-down and puts an empty `.gitkeep` file into every directory that
    has no visible file, unless one is already there. */
module FixEmptyFolders {
  import opened FileTree
  import opened Text

  const GitKeep := ".gitkeep"

  /** The empty file `open(path, 'w')` leaves behind: empty text is not
      JSON. */
  const KeepFile := File(GitKeep, OtherText)

  /** A file is visible unless its name starts with a dot, like
      `.DS_Store`. */
  predicate Visible(name: string) {
    !StartsWith(name, ".")
  }

  /** `visible_files`: the names of the files (not directories) of a
      listing that are visible, in listing order. */
  function VisibleFiles(children: seq<Node>): seq<string>
    decreases |children|
  {
    if children == [] then []
    else (if children[0].File? && Visible(children[0].name) then [children[0].name] else [])
         + VisibleFiles(children[1..])
  }

  /** `visible_files` is empty exactly when every file of the listing is
      hidden. */
  lemma {:induction false} VisibleFilesEmpty(children: seq<Node>)
    ensures VisibleFiles(children) == []
            <==> forall i :: 0 <= i < |children| && children[i].File? ==> !Visible(children[i].name)
    decreases |children|
  {
    if children != [] {
      VisibleFilesEmpty(children[1..]);
      assert forall i :: 1 <= i < |children| ==> children[i] == children[1..][i - 1];
    }
  }

  /** A directory gets a `.gitkeep` when it has no visible file and no
      entry of that name exists (`os.path.exists` also sees a directory
      called `.gitkeep`). */
  predicate NeedsKeep(children: seq<Node>) {
    VisibleFiles(children) == [] && Child(children, GitKeep).None?
  }

  /** The tree after the walk and the number of `.gitkeep` files
      created. */
  datatype Walk = Walk(tree: Node, created: nat)

  /** The same for the entries of one directory. */
  datatype WalkAll = WalkAll(nodes: seq<Node>, created: nat)

  /** `create_gitkeeps(start_path)`. `os.walk` yields nothing for a file
      (or a missing path), so the count is 0 there. Every directory is
      walked, hidden ones included; each is listed before anything is
      created in it, and a `.gitkeep` created in a directory never shows
      up in another one's listing, so the order of the walk does not
      matter. */
  function CreateGitkeeps(n: Node): (r: Walk)
    ensures r.tree.name == n.name && r.tree.Dir? == n.Dir?
    ensures n.File? ==> r == Walk(n, 0)
    decreases n
  {
    match n
    case File(_, _) => Walk(n, 0)
    case Dir(name, children) =>
      var w := WalkChildren(children);
      if NeedsKeep(children) then Walk(Dir(name, w.nodes + [KeepFile]), w.created + 1)
      else Walk(Dir(name, w.nodes), w.created)
  }

  /** The walk continued into every entry of a directory. */
  function WalkChildren(children: seq<Node>): (r: WalkAll)
    ensures |r.nodes| == |children|
    decreases children
  {
    if children == [] then WalkAll([], 0)
    else
      var h := CreateGitkeeps(children[0]);
      var t := WalkChildren(children[1..]);
      WalkAll([h.tree] + t.nodes, h.created + t.created)
  }

  /** Seen from the parent, the entries look as before the walk: the same
      visible files and the same names. */
  lemma {:induction false} WalkChildrenFace(children: seq<Node>, name: string)
    ensures VisibleFiles(WalkChildren(children).nodes) == VisibleFiles(children)
    ensures Child(WalkChildren(children).nodes, name).Some? <==> Child(children, name).Some?
    decreases |children|
  {
    if children != [] {
      WalkChildrenFace(children[1..], name);
      var ns := WalkChildren(children).nodes;
      assert ns[0] == CreateGitkeeps(children[0]).tree;
      assert ns[1..] == WalkChildren(children[1..]).nodes;
    }
  }

  // ---------------------------------------------------------------------
  // Every directory is covered afterwards

  /** Every directory of the tree has a visible file or a `.gitkeep`
      entry. */
  predicate Covered(n: Node)
    decreases n
  {
    n.File? || ((VisibleFiles(n.children) != [] || Child(n.children, GitKeep).Some?) && AllCovered(n.children))
  }

  predicate AllCovered(children: seq<Node>)
    decreases children
  {
    children == [] || (Covered(children[0]) && AllCovered(children[1..]))
  }

  /** A directory is covered exactly when it does not need a `.gitkeep`
      and its entries are covered. */
  lemma CoveredDir(n: Node)
    requires n.Dir?
    ensures Covered(n) <==> !NeedsKeep(n.children) && AllCovered(n.children)
  {
  }

  lemma {:induction false} AllCoveredAppend(children: seq<Node>, n: Node)
    requires AllCovered(children) && Covered(n)
    ensures AllCovered(children + [n])
    decreases |children|
  {
    if children == [] {
      assert AllCovered([n][1..]);
    } else {
      AllCoveredAppend(children[1..], n);
      assert (children + [n])[1..] == children[1..] + [n];
    }
  }

  /** After the walk every directory in the tree, the start directory
      included, has a visible file or a `.gitkeep`. */
  lemma {:induction false} CreateGitkeepsCovers(n: Node)
    ensures Covered(CreateGitkeeps(n).tree)
    decreases n
  {
    if n.Dir? {
      var w := WalkChildren(n.children);
      WalkChildrenCover(n.children);
      WalkChildrenFace(n.children, GitKeep);
      if NeedsKeep(n.children) {
        ChildAppend(w.nodes, KeepFile, GitKeep);
        VisibleFilesEmpty([KeepFile]);
        AllCoveredAppend(w.nodes, KeepFile);
      }
    }
  }

  lemma {:induction false} WalkChildrenCover(children: seq<Node>)
    ensures AllCovered(WalkChildren(children).nodes)
    decreases children
  {
    if children != [] {
      CreateGitkeepsCovers(children[0]);
      WalkChildrenCover(children[1..]);
      var ns := WalkChildren(children).nodes;
      assert ns[1..] == WalkChildren(children[1..]).nodes;
    }
  }

  /** Nothing is created exactly when the tree is already covered. */
  lemma {:induction false} NoneCreatedIffCovered(n: Node)
    ensures CreateGitkeeps(n).created == 0 <==> Covered(n)
    decreases n
  {
    if n.Dir? {
      NoneCreatedIffAllCovered(n.children);
      CoveredDir(n);
    }
  }

  lemma {:induction false} NoneCreatedIffAllCovered(children: seq<Node>)
    ensures WalkChildren(children).created == 0 <==> AllCovered(children)
    decreases children
  {
    if children != [] {
      NoneCreatedIffCovered(children[0]);
      NoneCreatedIffAllCovered(children[1..]);
    }
  }

  /** A covered tree is left exactly as it is. */
  lemma {:induction false} CoveredUnchanged(n: Node)
    requires Covered(n)
    ensures CreateGitkeeps(n) == Walk(n, 0)
    decreases n
  {
    if n.Dir? {
      AllCoveredUnchanged(n.children);
      CoveredDir(n);
    }
  }

  lemma {:induction false} AllCoveredUnchanged(children: seq<Node>)
    requires AllCovered(children)
    ensures WalkChildren(children) == WalkAll(children, 0)
    decreases children
  {
    if children != [] {
      CoveredUnchanged(children[0]);
      AllCoveredUnchanged(children[1..]);
      assert children == [children[0]] + children[1..];
    }
  }

  /** A second run creates nothing and changes nothing. */
  lemma CreateGitkeepsIdempotent(n: Node)
    ensures var t := CreateGitkeeps(n).tree;
            CreateGitkeeps(t) == Walk(t, 0)
  {
    CreateGitkeepsCovers(n);
    CoveredUnchanged(CreateGitkeeps(n).tree);
  }

  // ---------------------------------------------------------------------
  // Nothing is removed or overwritten

  /** `b` is `a` with, at most, entries added to its directories: the
      same names and kinds, files byte for byte, and every directory's
      entries kept in their places. */
  predicate Embeds(a: Node, b: Node)
    decreases a
  {
    && a.name == b.name
    && a.Dir? == b.Dir?
    && (a.File? ==> b == a)
    && (a.Dir? ==> |a.children| <= |b.children| && AllEmbed(a.children, b.children[..|a.children|]))
  }

  predicate AllEmbed(xs: seq<Node>, ys: seq<Node>)
    decreases xs
  {
    |xs| == |ys| && (xs == [] || (Embeds(xs[0], ys[0]) && AllEmbed(xs[1..], ys[1..])))
  }

  /** The walk keeps every entry in place, and what it adds to a
      directory is one `.gitkeep`, added exactly when the directory needs
      it. In particular a directory with a visible file gains nothing. */
  lemma {:induction false} CreateGitkeepsKeeps(n: Node)
    ensures Embeds(n, CreateGitkeeps(n).tree)
    ensures n.Dir? ==>
              var added := CreateGitkeeps(n).tree.children[|n.children|..];
              && (added == [KeepFile] <==> NeedsKeep(n.children))
              && (added == [] <==> !NeedsKeep(n.children))
    decreases n
  {
    if n.Dir? {
      var w := WalkChildren(n.children);
      WalkChildrenKeep(n.children);
      var c := CreateGitkeeps(n).tree.children;
      assert c[..|n.children|] == w.nodes;
      if NeedsKeep(n.children) {
        assert c[|n.children|..] == [KeepFile];
      } else {
        assert c[|n.children|..] == [];
      }
    }
  }

  lemma {:induction false} WalkChildrenKeep(children: seq<Node>)
    ensures AllEmbed(children, WalkChildren(children).nodes)
    decreases children
  {
    if children != [] {
      CreateGitkeepsKeeps(children[0]);
      WalkChildrenKeep(children[1..]);
      var ns := WalkChildren(children).nodes;
      assert ns[1..] == WalkChildren(children[1..]).nodes;
    }
  }

  // ---------------------------------------------------------------------
  // The count

  /** The number of entries of a tree, the root included. */
  function Size(n: Node): nat
    decreases n
  {
    if n.File? then 1 else 1 + SizeAll(n.children)
  }

  function SizeAll(children: seq<Node>): nat
    decreases children
  {
    if children == [] then 0 else Size(children[0]) + SizeAll(children[1..])
  }

  lemma {:induction false} SizeAllAppend(children: seq<Node>, n: Node)
    ensures SizeAll(children + [n]) == SizeAll(children) + Size(n)
    decreases |children|
  {
    if children == [] {
      assert [n][1..] == [];
    } else {
      SizeAllAppend(children[1..], n);
      assert (children + [n])[1..] == children[1..] + [n];
    }
  }

  /** The count is the number of files the walk created: the tree grew by
      exactly that many entries. */
  lemma {:induction false} CreatedIsGrowth(n: Node)
    ensures Size(CreateGitkeeps(n).tree) == Size(n) + CreateGitkeeps(n).created
    decreases n
  {
    if n.Dir? {
      var w := WalkChildren(n.children);
      WalkChildrenGrowth(n.children);
      if NeedsKeep(n.children) {
        SizeAllAppend(w.nodes, KeepFile);
      }
    }
  }

  lemma {:induction false} WalkChildrenGrowth(children: seq<Node>)
    ensures SizeAll(WalkChildren(children).nodes) == SizeAll(children) + WalkChildren(children).created
    decreases children
  {
    if children != [] {
      CreatedIsGrowth(children[0]);
      WalkChildrenGrowth(children[1..]);
      var ns := WalkChildren(children).nodes;
      assert ns[1..] == WalkChildren(children[1..]).nodes;
    }
  }
}
