/** The part of a file system the programs look at: named files and
    directories, with each directory's entries in listing order, and JSON
    values as `json.load` returns them. */
module FileTree {
  import opened Wrappers
  import opened Dicts

  /** A value returned by `json.load`. Objects are Python dicts, so they
      keep their key order. Numbers are kept opaque. */
  datatype Json =
    | JNull
    | JBool(b: bool)
    | JNum(n: int)
    | JStr(s: string)
    | JArr(items: seq<Json>)
    | JObj(fields: Dict<Json>)

  /** What reading a file as UTF-8 JSON yields: a JSON value; UTF-8 text
      that is not JSON (`json.JSONDecodeError`, also for an empty file);
      or bytes that are not UTF-8 (`UnicodeDecodeError`). */
  datatype Body = JsonText(value: Json) | OtherText | Binary

  /** A directory entry. A directory's `children` are its entries in the
      order `os.listdir` returns them. */
  datatype Node = File(name: string, body: Body) | Dir(name: string, children: seq<Node>)

  const DetailsFile := "details.json"

  /** The entry reached by joining `name` to a directory's path: the first
      entry carrying that name (a real directory has at most one). */
  function Child(children: seq<Node>, name: string): (r: Option<Node>)
    ensures r.Some? ==> r.value.name == name
  {
    if children == [] then None
    else if children[0].name == name then Some(children[0])
    else Child(children[1..], name)
  }

  /** What `Child` finds is an entry of the directory. */
  lemma {:induction false} ChildIn(children: seq<Node>, name: string)
    ensures Child(children, name).Some? ==> Child(children, name).value in children
  {
    if children != [] && children[0].name != name {
      ChildIn(children[1..], name);
    }
  }

  /** `Child` finds the first entry with the name, and finds nothing only
      when no entry has it. */
  lemma {:induction false} ChildSpec(children: seq<Node>, name: string)
    ensures Child(children, name).Some? ==>
              exists i :: 0 <= i < |children| && children[i] == Child(children, name).value
                          && forall j :: 0 <= j < i ==> children[j].name != name
    ensures Child(children, name).None? ==> forall i :: 0 <= i < |children| ==> children[i].name != name
  {
    if children != [] && children[0].name != name {
      ChildSpec(children[1..], name);
      if Child(children, name).Some? {
        var i :| 0 <= i < |children[1..]| && children[1..][i] == Child(children, name).value
                 && forall j :: 0 <= j < i ==> children[1..][j].name != name;
        assert children[i + 1] == children[1..][i];
        assert forall j :: 1 <= j < i + 1 ==> children[j] == children[1..][j - 1];
      }
    } else if children != [] {
      assert children[0] == Child(children, name).value;
    }
  }

  /** The entries of a directory; a file has none. */
  function Entries(n: Node): seq<Node> {
    if n.Dir? then n.children else []
  }

  /** The entries that are directories, in listing order
      (`[d for d in os.listdir(dir) if os.path.isdir(...)]`). */
  function Subdirs(children: seq<Node>): (r: seq<Node>)
    ensures forall k :: 0 <= k < |r| ==> r[k].Dir?
  {
    if children == [] then []
    else (if children[0].Dir? then [children[0]] else []) + Subdirs(children[1..])
  }

  /** `Subdirs` keeps exactly the directories. */
  lemma {:induction false} SubdirsSpec(children: seq<Node>)
    ensures forall n :: n in Subdirs(children) <==> n in children && n.Dir?
  {
    if children != [] {
      SubdirsSpec(children[1..]);
      assert children == [children[0]] + children[1..];
    }
  }

  /** The names in a listing, from position `from` on, that `keep`
      accepts, in listing order. Entries are filtered by name only,
      whatever their kind. */
  function NamesWhere(keep: string -> bool, children: seq<Node>, from: nat): seq<string>
    requires from <= |children|
    decreases |children| - from
  {
    if from == |children| then []
    else (if keep(children[from].name) then [children[from].name] else [])
         + NamesWhere(keep, children, from + 1)
  }

  /** Some entry of the listing at or after `from` is called `name`. */
  predicate ListedFrom(children: seq<Node>, from: nat, name: string) {
    exists i :: from <= i < |children| && children[i].name == name
  }

  /** The filter keeps only accepted names. */
  lemma {:induction false} NamesWhereKept(keep: string -> bool, children: seq<Node>, from: nat)
    requires from <= |children|
    ensures forall k :: 0 <= k < |NamesWhere(keep, children, from)| ==> keep(NamesWhere(keep, children, from)[k])
    decreases |children| - from
  {
    if from < |children| {
      NamesWhereKept(keep, children, from + 1);
      var rest := NamesWhere(keep, children, from + 1);
      var r := NamesWhere(keep, children, from);
      var head := keep(children[from].name);
      forall k | 0 <= k < |r|
        ensures keep(r[k])
      {
        if head && k == 0 {
          assert r[k] == children[from].name;
        } else {
          var j := if head then k - 1 else k;
          assert r[k] == rest[j];
        }
      }
    }
  }

  /** The filter keeps every accepted name. */
  lemma {:induction false} NamesWhereComplete(keep: string -> bool, children: seq<Node>, from: nat)
    requires from <= |children|
    ensures forall i :: from <= i < |children| && keep(children[i].name)
                        ==> children[i].name in NamesWhere(keep, children, from)
    decreases |children| - from
  {
    if from < |children| {
      NamesWhereComplete(keep, children, from + 1);
    }
  }

  /** The filter invents no name: each comes from the listing. */
  lemma {:induction false} NamesWhereListed(keep: string -> bool, children: seq<Node>, from: nat)
    requires from <= |children|
    ensures forall k :: 0 <= k < |NamesWhere(keep, children, from)|
                        ==> ListedFrom(children, from, NamesWhere(keep, children, from)[k])
    decreases |children| - from
  {
    if from < |children| {
      NamesWhereListed(keep, children, from + 1);
      var rest := NamesWhere(keep, children, from + 1);
      var r := NamesWhere(keep, children, from);
      var head := keep(children[from].name);
      forall k | 0 <= k < |r|
        ensures ListedFrom(children, from, r[k])
      {
        if head && k == 0 {
          assert children[from].name == r[k];
        } else {
          var j := if head then k - 1 else k;
          assert r[k] == rest[j];
          assert ListedFrom(children, from + 1, rest[j]);
          var i :| from + 1 <= i < |children| && children[i].name == rest[j];
          assert children[i].name == r[k];
        }
      }
    }
  }

  /** The index of the first entry at or after `from` whose name `keep`
      accepts. */
  function FirstWhere(keep: string -> bool, children: seq<Node>, from: nat): (r: Option<nat>)
    requires from <= |children|
    ensures r.Some? ==> from <= r.value < |children| && keep(children[r.value].name)
    ensures r.Some? ==> forall j :: from <= j < r.value ==> !keep(children[j].name)
    ensures r.None? ==> forall j :: from <= j < |children| ==> !keep(children[j].name)
    decreases |children| - from
  {
    if from == |children| then None
    else if keep(children[from].name) then Some(from)
    else FirstWhere(keep, children, from + 1)
  }

  /** The listing with its first entry named `name` replaced by `n` (the
      entry rewritten in place); unchanged when no entry has the name. */
  function ReplaceChild(children: seq<Node>, name: string, n: Node): (r: seq<Node>)
    ensures |r| == |children|
  {
    if children == [] then []
    else if children[0].name == name then [n] + children[1..]
    else [children[0]] + ReplaceChild(children[1..], name, n)
  }

  /** After the replacement, the name leads to the new entry, and every
      other name to what it led to before. */
  lemma {:induction false} ReplaceChildLookup(children: seq<Node>, name: string, n: Node, other: string)
    requires Child(children, name).Some? && n.name == name
    ensures Child(ReplaceChild(children, name, n), name) == Some(n)
    ensures other != name ==> Child(ReplaceChild(children, name, n), other) == Child(children, other)
  {
    if children[0].name != name {
      ReplaceChildLookup(children[1..], name, n, other);
      assert ReplaceChild(children, name, n)[1..] == ReplaceChild(children[1..], name, n);
    }
  }

  /** Replacing an entry by itself changes nothing. */
  lemma {:induction false} ReplaceChildSame(children: seq<Node>, name: string, n: Node)
    requires Child(children, name) == Some(n)
    ensures ReplaceChild(children, name, n) == children
  {
    if children[0].name != name {
      ReplaceChildSame(children[1..], name, n);
    }
  }

  /** Looking a name up in a listing with one entry added at the end. */
  lemma {:induction false} ChildAppend(children: seq<Node>, n: Node, name: string)
    ensures Child(children + [n], name)
            == if Child(children, name).Some? then Child(children, name)
               else if n.name == name then Some(n) else None
  {
    if children != [] {
      ChildAppend(children[1..], n, name);
      assert (children + [n])[1..] == children[1..] + [n];
    }
  }

  /** A coin folder: a directory three levels below the image folder,
      `listing[i] / year j / coin k`. */
  predicate CoinFolderAt(listing: seq<Node>, i: int, j: int, k: int) {
    && 0 <= i < |listing| && listing[i].Dir?
    && 0 <= j < |listing[i].children| && listing[i].children[j].Dir?
    && 0 <= k < |listing[i].children[j].children| && listing[i].children[j].children[k].Dir?
  }
}
