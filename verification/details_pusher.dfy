/** The bulk details merger of `util/details_pusher.py`: for every folder
    of a listing whose name contains one of the given parts and that holds
    the named subfolder, it overlays fixed data onto that subfolder's
    `details.json`. */
module DetailsPusher {
  import opened Wrappers
  import opened Dicts
  import opened FileTree
  import opened Text

  /** `any(part in f2 for part in folder2_name_part)`: some part occurs in
      the folder name. With no parts at all nothing matches; the empty
      part matches every name. */
  predicate NameMatches(name: string, parts: seq<string>) {
    exists p | p in parts :: Contains(name, p)
  }

  /** The directory `os.path.join(f2, f3)`, when it is one. An empty `f3`
      names `f2` itself, since the joined path only gains a trailing
      separator. */
  function Target(f2: Node, f3: string): (r: Option<Node>)
    ensures r.Some? <==> f2.Dir? && (f3 == "" || (Child(f2.children, f3).Some? && Child(f2.children, f3).value.Dir?))
    ensures r.Some? ==> r.value.Dir?
    ensures r.Some? && f3 == "" ==> r.value == f2
    ensures r.Some? && f3 != "" ==> r.value in f2.children && r.value.name == f3
  {
    if !f2.Dir? then None
    else if f3 == "" then Some(f2)
    else
      match Child(f2.children, f3)
      case Some(Dir(n, cs)) => ChildIn(f2.children, f3); Some(Dir(n, cs))
      case _ => None
  }

  /** The three tests of the loop: `f2` is a directory, its name contains
      one of the parts, and it holds the directory `f3`. */
  predicate Selected(f2: Node, parts: seq<string>, f3: string) {
    f2.Dir? && NameMatches(f2.name, parts) && Target(f2, f3).Some?
  }

  /** The object the loop starts from: the loaded `details.json` when it
      is a JSON object, an empty one when the file is missing, is not
      JSON (`JSONDecodeError`) or holds another JSON value. `None` when
      reading raises an exception the source does not catch: the entry is
      a directory, or the bytes are not UTF-8. */
  function Existing(children: seq<Node>): Option<Dict<Json>> {
    match Child(children, DetailsFile)
    case None => Some([])
    case Some(Dir(_, _)) => None
    case Some(File(_, Binary)) => None
    case Some(File(_, OtherText)) => Some([])
    case Some(File(_, JsonText(j))) => if j.JObj? then Some(j.fields) else Some([])
  }

  /** The `details.json` file that `json.dump` writes for `fields`. */
  function DetailsNode(fields: Dict<Json>): Node {
    File(DetailsFile, JsonText(JObj(fields)))
  }

  /** Writes `details.json` into a listing: an existing entry is
      overwritten in place, a missing one is added at the end. */
  function PutDetails(children: seq<Node>, fields: Dict<Json>): seq<Node> {
    if Child(children, DetailsFile).Some? then ReplaceChild(children, DetailsFile, DetailsNode(fields))
    else children + [DetailsNode(fields)]
  }

  /** The written file is the one found afterwards, and every other entry
      is found as before. */
  lemma PutDetailsLookup(children: seq<Node>, fields: Dict<Json>, other: string)
    ensures Child(PutDetails(children, fields), DetailsFile) == Some(DetailsNode(fields))
    ensures other != DetailsFile ==> Child(PutDetails(children, fields), other) == Child(children, other)
  {
    if Child(children, DetailsFile).Some? {
      ReplaceChildLookup(children, DetailsFile, DetailsNode(fields), other);
    } else {
      ChildAppend(children, DetailsNode(fields), DetailsFile);
      ChildAppend(children, DetailsNode(fields), other);
    }
  }

  /** The subfolder after the merge, or `None` when reading its
      `details.json` raises: the loaded object updated with `data`
      (`existing.update(data)`) and written back. */
  function Merge(dir: Node, data: Dict<Json>): (r: Option<Node>)
    requires dir.Dir?
    ensures r.Some? <==> Existing(dir.children).Some?
  {
    match Existing(dir.children)
    case None => None
    case Some(m) => Some(Dir(dir.name, PutDetails(dir.children, Update(m, data))))
  }

  /** The selected folder after its subfolder was merged, or `None` when
      the merge raises. */
  function Pushed(f2: Node, f3: string, data: Dict<Json>): (r: Option<Node>)
    requires Target(f2, f3).Some?
  {
    var t := Target(f2, f3).value;
    match Merge(t, data)
    case None => None
    case Some(t2) => if f3 == "" then Some(t2) else Some(Dir(f2.name, ReplaceChild(f2.children, f3, t2)))
  }

  /** The folders after the run, the number the source counts, and
      whether an exception ended the run. A raised run keeps the files
      written before the failing folder. */
  datatype PushResult = PushResult(folders: seq<Node>, count: nat, raised: bool)

  /** The loop of `add_json_data` over the listing of `folder1_name`, from
      position `from` on. */
  function AddFrom(data: Dict<Json>, folders: seq<Node>, parts: seq<string>, f3: string, from: nat): (r: PushResult)
    requires from <= |folders|
    ensures |r.folders| == |folders|
    ensures forall i :: 0 <= i < from ==> r.folders[i] == folders[i]
    decreases |folders| - from
  {
    if from == |folders| then PushResult(folders, 0, false)
    else if !Selected(folders[from], parts, f3) then AddFrom(data, folders, parts, f3, from + 1)
    else
      match Pushed(folders[from], f3, data)
      case None => PushResult(folders, 0, true)
      case Some(n) =>
        var r := AddFrom(data, folders[from := n], parts, f3, from + 1);
        PushResult(r.folders, r.count + 1, r.raised)
  }

  /** `add_json_data(data, folder1_name, folder2_name_part,
      folder3_name_part)` on the listing of `folder1_name`. */
  function AddJsonData(data: Dict<Json>, folders: seq<Node>, parts: seq<string>, f3: string): (r: PushResult)
    ensures |r.folders| == |folders|
  {
    AddFrom(data, folders, parts, f3, 0)
  }

  /** `noop_add_json_data`: a stand-in with the same parameters that
      touches nothing. */
  function NoopAddJsonData(data: Dict<Json>, folders: seq<Node>, parts: seq<string>, f3: string): (r: PushResult) {
    PushResult(folders, 0, false)
  }

  /** The positions at or after `from` that the loop selects. */
  function SelectedSet(folders: seq<Node>, parts: seq<string>, f3: string, from: nat): set<nat> {
    set i: nat | from <= i < |folders| && Selected(folders[i], parts, f3)
  }

  /** Some selected folder at or after `from` has a `details.json` that
      cannot be read. */
  predicate SomeUnreadable(folders: seq<Node>, parts: seq<string>, f3: string, from: nat) {
    exists i :: from <= i < |folders| && Selected(folders[i], parts, f3)
                && Existing(Target(folders[i], f3).value.children).None?
  }

  // ---------------------------------------------------------------------
  // Properties of one folder

  /** The merged subfolder's `details.json` is the loaded object overlaid
      by `data`: a key of `data` takes its value from `data`, any other key
      keeps its loaded value, and the file stays a dict. Nothing else in
      the subfolder changes. */
  lemma MergeOverlay(dir: Node, data: Dict<Json>, k: string, other: string)
    requires dir.Dir? && Existing(dir.children).Some?
    requires UniqueKeys(Existing(dir.children).value) && UniqueKeys(data)
    ensures var t := Merge(dir, data).value;
            var m := Existing(dir.children).value;
            && t.Dir? && t.name == dir.name
            && Existing(t.children) == Some(Update(m, data))
            && UniqueKeys(Update(m, data))
            && Lookup(Update(m, data), k) == (if HasKey(data, k) then Lookup(data, k) else Lookup(m, k))
            && (other != DetailsFile ==> Child(t.children, other) == Child(dir.children, other))
  {
    var m := Existing(dir.children).value;
    PutDetailsLookup(dir.children, Update(m, data), other);
    UpdateLookup(m, data, k);
    UpdateKeys(m, data);
  }

  /** A missing, undecodable or non-object `details.json` counts as an
      empty object, so the merged file holds exactly `data`. */
  lemma MergeFromNothing(dir: Node, data: Dict<Json>)
    requires dir.Dir? && UniqueKeys(data)
    requires match Child(dir.children, DetailsFile)
             case None => true
             case Some(File(_, OtherText)) => true
             case Some(File(_, JsonText(j))) => !j.JObj?
             case _ => false
    ensures Merge(dir, data).Some?
    ensures Existing(Merge(dir, data).value.children) == Some(data)
  {
    assert Existing(dir.children) == Some([]);
    UpdateFresh([], data);
    assert Update([], data) == data;
    PutDetailsLookup(dir.children, data, DetailsFile);
  }

  /** Merging the same data again changes nothing. */
  lemma MergeIdempotent(dir: Node, data: Dict<Json>)
    requires dir.Dir? && Existing(dir.children).Some? && UniqueKeys(data)
    ensures Merge(Merge(dir, data).value, data) == Merge(dir, data)
  {
    var m := Existing(dir.children).value;
    var u := Update(m, data);
    var t := Merge(dir, data).value;
    PutDetailsLookup(dir.children, u, DetailsFile);
    assert Existing(t.children) == Some(u);
    UpdateIdempotent(m, data);
    ReplaceChildSame(t.children, DetailsFile, DetailsNode(u));
  }

  /** A pushed folder is still selected, and pushing it again changes
      nothing. */
  lemma PushedIdempotent(f2: Node, parts: seq<string>, f3: string, data: Dict<Json>)
    requires Selected(f2, parts, f3) && UniqueKeys(data)
    requires Pushed(f2, f3, data).Some?
    ensures Selected(Pushed(f2, f3, data).value, parts, f3)
    ensures Pushed(Pushed(f2, f3, data).value, f3, data) == Pushed(f2, f3, data)
  {
    var t := Target(f2, f3).value;
    var t2 := Merge(t, data).value;
    MergeIdempotent(t, data);
    if f3 != "" {
      var cs := ReplaceChild(f2.children, f3, t2);
      ReplaceChildLookup(f2.children, f3, t2, f3);
      assert Target(Dir(f2.name, cs), f3) == Some(t2);
      ReplaceChildSame(cs, f3, t2);
    }
  }

  // ---------------------------------------------------------------------
  // Properties of the run

  /** Folders the loop does not select are never touched, whether or not
      the run raises. */
  lemma {:induction false} UnselectedUnchanged(data: Dict<Json>, folders: seq<Node>, parts: seq<string>, f3: string,
                                               from: nat, i: nat)
    requires from <= |folders| && i < |folders| && !Selected(folders[i], parts, f3)
    ensures AddFrom(data, folders, parts, f3, from).folders[i] == folders[i]
    decreases |folders| - from
  {
    if from < |folders| && Selected(folders[from], parts, f3) && Pushed(folders[from], f3, data).Some? {
      var n := Pushed(folders[from], f3, data).value;
      UnselectedUnchanged(data, folders[from := n], parts, f3, from + 1, i);
    } else if from < |folders| && !Selected(folders[from], parts, f3) {
      UnselectedUnchanged(data, folders, parts, f3, from + 1, i);
    }
  }

  /** A run that does not raise has pushed every selected folder. */
  lemma {:induction false} SelectedPushed(data: Dict<Json>, folders: seq<Node>, parts: seq<string>, f3: string,
                                          from: nat, i: nat)
    requires from <= i < |folders| && Selected(folders[i], parts, f3)
    requires !AddFrom(data, folders, parts, f3, from).raised
    ensures Pushed(folders[i], f3, data).Some?
    ensures AddFrom(data, folders, parts, f3, from).folders[i] == Pushed(folders[i], f3, data).value
    decreases |folders| - from
  {
    if !Selected(folders[from], parts, f3) {
      SelectedPushed(data, folders, parts, f3, from + 1, i);
    } else {
      var n := Pushed(folders[from], f3, data).value;
      if i > from {
        SelectedPushed(data, folders[from := n], parts, f3, from + 1, i);
      }
    }
  }

  /** The run raises exactly when some selected folder has a
      `details.json` that cannot be read. */
  lemma {:induction false} RaisedWhenUnreadable(data: Dict<Json>, folders: seq<Node>, parts: seq<string>, f3: string,
                                                from: nat)
    requires from <= |folders|
    ensures AddFrom(data, folders, parts, f3, from).raised <==> SomeUnreadable(folders, parts, f3, from)
    decreases |folders| - from
  {
    if from < |folders| {
      var f := folders[from];
      if Selected(f, parts, f3) && Pushed(f, f3, data).Some? {
        var n := Pushed(f, f3, data).value;
        var fs := folders[from := n];
        RaisedWhenUnreadable(data, fs, parts, f3, from + 1);
        assert SomeUnreadable(fs, parts, f3, from + 1) <==> SomeUnreadable(folders, parts, f3, from + 1) by {
          assert forall j :: from + 1 <= j < |folders| ==> fs[j] == folders[j];
        }
      } else if !Selected(f, parts, f3) {
        RaisedWhenUnreadable(data, folders, parts, f3, from + 1);
      } else {
        assert Existing(Target(f, f3).value.children).None?;
      }
    }
  }

  /** A run that does not raise counts exactly the selected folders. */
  lemma {:induction false} CountSelected(data: Dict<Json>, folders: seq<Node>, parts: seq<string>, f3: string,
                                         from: nat)
    requires from <= |folders|
    requires !AddFrom(data, folders, parts, f3, from).raised
    ensures AddFrom(data, folders, parts, f3, from).count == |SelectedSet(folders, parts, f3, from)|
    decreases |folders| - from
  {
    if from < |folders| {
      var f := folders[from];
      var rest := SelectedSet(folders, parts, f3, from + 1);
      if Selected(f, parts, f3) {
        var n := Pushed(f, f3, data).value;
        var fs := folders[from := n];
        CountSelected(data, fs, parts, f3, from + 1);
        assert SelectedSet(fs, parts, f3, from + 1) == rest;
        assert SelectedSet(folders, parts, f3, from) == {from} + rest;
      } else {
        CountSelected(data, folders, parts, f3, from + 1);
        assert SelectedSet(folders, parts, f3, from) == rest;
      }
    }
  }

  /** `add_json_data` updates a folder exactly when the loop selects it,
      and counts the updated folders; it raises exactly when a selected
      folder's `details.json` is a directory or not UTF-8. */
  lemma AddJsonDataSpec(data: Dict<Json>, folders: seq<Node>, parts: seq<string>, f3: string)
    ensures var r := AddJsonData(data, folders, parts, f3);
            && (r.raised <==> SomeUnreadable(folders, parts, f3, 0))
            && (!r.raised ==> r.count == |SelectedSet(folders, parts, f3, 0)|)
            && (forall i :: 0 <= i < |folders| && !Selected(folders[i], parts, f3) ==> r.folders[i] == folders[i])
            && (!r.raised ==> forall i :: 0 <= i < |folders| && Selected(folders[i], parts, f3)
                                ==> Pushed(folders[i], f3, data) == Some(r.folders[i]))
  {
    RaisedWhenUnreadable(data, folders, parts, f3, 0);
    var r := AddJsonData(data, folders, parts, f3);
    if !r.raised {
      CountSelected(data, folders, parts, f3, 0);
    }
    forall i | 0 <= i < |folders|
      ensures !Selected(folders[i], parts, f3) ==> r.folders[i] == folders[i]
      ensures !r.raised && Selected(folders[i], parts, f3) ==> Pushed(folders[i], f3, data) == Some(r.folders[i])
    {
      if !Selected(folders[i], parts, f3) {
        UnselectedUnchanged(data, folders, parts, f3, 0, i);
      } else if !r.raised {
        SelectedPushed(data, folders, parts, f3, 0, i);
      }
    }
  }

  /** With no name parts no folder is selected: nothing is written and
      the count is 0. */
  lemma NoPartsNoUpdate(data: Dict<Json>, folders: seq<Node>, f3: string)
    ensures AddJsonData(data, folders, [], f3) == PushResult(folders, 0, false)
  {
    AddJsonDataSpec(data, folders, [], f3);
    var r := AddJsonData(data, folders, [], f3);
    assert SelectedSet(folders, [], f3, 0) == {};
    assert r.folders == folders;
  }

  /** `noop_add_json_data` behaves like `add_json_data` with no name
      parts. */
  lemma NoopIsEmptySelection(data: Dict<Json>, folders: seq<Node>, parts: seq<string>, f3: string)
    ensures NoopAddJsonData(data, folders, parts, f3) == AddJsonData(data, folders, [], f3)
  {
    NoPartsNoUpdate(data, folders, f3);
  }

  /** Running the loop again over the folders it left gives the same
      result: already pushed folders are pushed to the same contents,
      the same folder raises, and the count is the same. */
  lemma {:induction false} AddFromIdempotent(data: Dict<Json>, folders: seq<Node>, parts: seq<string>, f3: string,
                                             from: nat)
    requires from <= |folders| && UniqueKeys(data)
    ensures var r := AddFrom(data, folders, parts, f3, from);
            AddFrom(data, r.folders, parts, f3, from) == r
    decreases |folders| - from
  {
    if from < |folders| {
      var f := folders[from];
      if !Selected(f, parts, f3) {
        AddFromIdempotent(data, folders, parts, f3, from + 1);
      } else if Pushed(f, f3, data).Some? {
        var n := Pushed(f, f3, data).value;
        var fs := folders[from := n];
        AddFromIdempotent(data, fs, parts, f3, from + 1);
        var r1 := AddFrom(data, fs, parts, f3, from + 1);
        assert r1.folders[from] == n;
        PushedIdempotent(f, parts, f3, data);
        assert r1.folders[from := n] == r1.folders;
      }
    }
  }

  /** Running the merger twice with the same data gives the same folders,
      the same count and the same outcome as running it once, whether or
      not the first run raised. */
  lemma AddJsonDataIdempotent(data: Dict<Json>, folders: seq<Node>, parts: seq<string>, f3: string)
    requires UniqueKeys(data)
    ensures var r := AddJsonData(data, folders, parts, f3);
            AddJsonData(data, r.folders, parts, f3) == r
  {
    AddFromIdempotent(data, folders, parts, f3, 0);
  }
}
