/** The collection scanner of `app.py`: `get_json_data` and
    `scan_collection`, which walks series, year and coin folders and
    turns every coin folder into one or more collection entries. */
module Scanner {
  import opened Wrappers
  import opened Dicts
  import opened FileTree
  import opened Sorting
  import opened Paths
  import opened ImageNames

  /** The subtype label of loose images in a coin folder that also has
      subtype folders ("untagged"). */
  const Untagged := "ללא תיוג"

  /** One element of the collection list. `seriesImg` and `subtype` are
      `None` where the source stores Python's `None`. */
  datatype CoinEntry = CoinEntry(
    series: string,
    seriesImg: Option<string>,
    year: string,
    name: string,
    subtype: Option<string>,
    images: seq<string>,
    hasImage: bool,
    stats: Json)

  /** The `TypeError` that `{**coin_stats, **subtype_stats}` raises when a
      loaded `details.json` is not a JSON object, with the folder where it
      happened. */
  datatype ScanError = NotAMapping(series: string, year: string, coin: string, subtype: string)

  type Scan = Result<seq<CoinEntry>, ScanError>

  // ---------------------------------------------------------------------
  // get_json_data

  /** The file `name` in the directory exists, is valid UTF-8 and parses
      as the JSON value `v`. */
  predicate Loads(children: seq<Node>, name: string, v: Json) {
    Child(children, name) == Some(File(name, JsonText(v)))
  }

  /** `get_json_data(os.path.join(dir, name))`: the parsed contents, or an
      empty object when the file is missing, is a directory, or cannot be
      decoded or parsed. It never fails. */
  function GetJsonData(children: seq<Node>, name: string): Json {
    match Child(children, name)
    case Some(File(_, JsonText(v))) => v
    case _ => JObj([])
  }

  /** `get_json_data` is fail-open: it yields the parsed value when the
      file parses, and an empty object in every other case. */
  lemma GetJsonDataFailOpen(children: seq<Node>, name: string)
    ensures forall v :: Loads(children, name, v) ==> GetJsonData(children, name) == v
    ensures (forall v :: !Loads(children, name, v)) ==> GetJsonData(children, name) == JObj([])
  {
    match Child(children, name)
    case Some(File(_, JsonText(v))) =>
      assert Loads(children, name, v);
    case _ =>
  }

  // ---------------------------------------------------------------------
  // Per-folder helpers

  /** `[f for f in os.listdir(dir) if is_image(f)]`. Directories are not
      excluded: the source filters names only. */
  function ImageNamesIn(children: seq<Node>): seq<string> {
    NamesWhere(IsImage, children, 0)
  }

  /** The image list holds only image names. */
  lemma ImageNamesAreImages(children: seq<Node>)
    ensures forall k :: 0 <= k < |ImageNamesIn(children)| ==> IsImage(ImageNamesIn(children)[k])
  {
    NamesWhereKept(IsImage, children, 0);
  }

  /** The image list holds every image name of the listing. */
  lemma ImageNamesComplete(children: seq<Node>)
    ensures forall i :: 0 <= i < |children| && IsImage(children[i].name)
                        ==> children[i].name in ImageNamesIn(children)
  {
    NamesWhereComplete(IsImage, children, 0);
  }

  /** Every name in the image list is the name of an entry. */
  lemma ImageNamesListed(children: seq<Node>)
    ensures forall k :: 0 <= k < |ImageNamesIn(children)| ==> ListedFrom(children, 0, ImageNamesIn(children)[k])
  {
    NamesWhereListed(IsImage, children, 0);
  }

  /** The series hero image: the first name in listing order that
      `is_image` accepts, joined to the series name; `None` when there is
      no such name. */
  function SeriesImage(series: string, children: seq<Node>): (r: Option<string>)
    ensures r.None? <==> forall i :: 0 <= i < |children| ==> !IsImage(children[i].name)
    ensures r.Some? ==> exists i :: (0 <= i < |children| && IsImage(children[i].name)
              && (forall j :: 0 <= j < i ==> !IsImage(children[j].name))
              && r.value == UrlPath([series, children[i].name]))
  {
    match FirstWhere(IsImage, children, 0)
    case None => None
    case Some(i) => Some(UrlPath([series, children[i].name]))
  }

  /** The reported paths of the images `names` inside the folder reached
      by `prefix`. */
  function ImagePaths(prefix: seq<string>, names: seq<string>): (r: seq<string>)
    ensures |r| == |names|
  {
    seq(|names|, k requires 0 <= k < |names| => UrlPath(prefix + [names[k]]))
  }

  /** `{**a, **b}`: a copy of `a` overlaid by `b`; a `TypeError` (None here)
      unless both are objects. */
  function Overlay(a: Json, b: Json): (r: Option<Json>)
    ensures r.Some? <==> a.JObj? && b.JObj?
  {
    if a.JObj? && b.JObj? then Some(JObj(Update(Update([], a.fields), b.fields))) else None
  }

  /** Overlaying is shallow and right-biased: a key of `b` takes its value
      from `b`, any other key keeps its value in `a`, and the result has
      exactly the keys of the two. */
  lemma OverlayLookup(a: Dict<Json>, b: Dict<Json>, k: string)
    requires UniqueKeys(a) && UniqueKeys(b)
    ensures Overlay(JObj(a), JObj(b)).Some?
    ensures Lookup(Overlay(JObj(a), JObj(b)).value.fields, k)
              == if HasKey(b, k) then Lookup(b, k) else Lookup(a, k)
  {
    UpdateLookup(Update([], a), b, k);
    UpdateLookup([], a, k);
  }

  /** The overlay lists the keys of `a` first, in their order, then the
      new keys of `b`. */
  lemma OverlayKeyOrder(a: Dict<Json>, b: Dict<Json>)
    requires UniqueKeys(a) && UniqueKeys(b)
    ensures |Overlay(JObj(a), JObj(b)).value.fields| >= |a|
    ensures Keys(Overlay(JObj(a), JObj(b)).value.fields)[..|a|] == Keys(a)
  {
    UpdateFresh([], a);
    assert Update([], a) == a;
    UpdateKeys(a, b);
  }

  // ---------------------------------------------------------------------
  // Coin folders

  /** The sorted image names directly inside a folder. */
  function SortedImages(children: seq<Node>): seq<string> {
    Sort(ImageNamesIn(children))
  }

  /** The Part B entry of the subtype folder `sub`, or the `TypeError` of
      building its stats. */
  function SubtypeEntry(series: string, seriesImg: Option<string>, year: string, coin: string,
                        coinStats: Json, sub: Node): (r: Result<CoinEntry, ScanError>)
    ensures r.Success? <==> Overlay(coinStats, GetJsonData(Entries(sub), DetailsFile)).Some?
    ensures r.Failure? ==> r.error == NotAMapping(series, year, coin, sub.name)
  {
    match Overlay(coinStats, GetJsonData(Entries(sub), DetailsFile))
    case None => Failure(NotAMapping(series, year, coin, sub.name))
    case Some(stats) =>
      var imgs := SortedImages(Entries(sub));
      Success(CoinEntry(series, seriesImg, year, coin, Some(sub.name),
                        ImagePaths([series, year, coin, sub.name], imgs), imgs != [], stats))
  }

  /** `SubtypeEntry` as a function of the subtype folder, for the walk
      over Part B. */
  function SubtypeBuilder(series: string, seriesImg: Option<string>, year: string, coin: string,
                          coinStats: Json): Node -> Result<CoinEntry, ScanError>
  {
    (sub: Node) => SubtypeEntry(series, seriesImg, year, coin, coinStats, sub)
  }

  /** Part B: one entry per subtype folder, in listing order; the first
      subtype folder whose stats cannot be built aborts the scan. */
  function SubtypeEntries(series: string, seriesImg: Option<string>, year: string, coin: string,
                          coinStats: Json, subdirs: seq<Node>): Scan
  {
    MapWithResult(SubtypeBuilder(series, seriesImg, year, coin, coinStats), subdirs)
  }

  /** Part B has one entry per subtype folder. */
  lemma SubtypeEntriesLength(series: string, seriesImg: Option<string>, year: string, coin: string,
                             coinStats: Json, subdirs: seq<Node>)
    requires SubtypeEntries(series, seriesImg, year, coin, coinStats, subdirs).Success?
    ensures |SubtypeEntries(series, seriesImg, year, coin, coinStats, subdirs).value| == |subdirs|
  {
    MapWithResultLength(SubtypeBuilder(series, seriesImg, year, coin, coinStats), subdirs);
  }

  /** The i-th entry of Part B is the i-th subtype folder's. */
  lemma SubtypeEntriesAt(series: string, seriesImg: Option<string>, year: string, coin: string,
                         coinStats: Json, subdirs: seq<Node>, i: nat)
    requires i < |subdirs|
    requires SubtypeEntries(series, seriesImg, year, coin, coinStats, subdirs).Success?
    ensures var r := SubtypeEntries(series, seriesImg, year, coin, coinStats, subdirs);
            && i < |r.value|
            && SubtypeEntry(series, seriesImg, year, coin, coinStats, subdirs[i]) == Success(r.value[i])
  {
    var f := SubtypeBuilder(series, seriesImg, year, coin, coinStats);
    MapWithResultAt(f, subdirs, i);
  }

  /** Building one subtype entry raises exactly when the stats clash. */
  lemma SubtypeEntryFails(series: string, seriesImg: Option<string>, year: string, coin: string,
                          coinStats: Json, sub: Node)
    ensures SubtypeEntry(series, seriesImg, year, coin, coinStats, sub).Failure? <==> StatsClash(coinStats, sub)
  {
  }

  /** Part B fails exactly when some subtype folder's stats clash. */
  lemma SubtypeEntriesFailure(series: string, seriesImg: Option<string>, year: string, coin: string,
                              coinStats: Json, subdirs: seq<Node>)
    ensures SubtypeEntries(series, seriesImg, year, coin, coinStats, subdirs).Failure?
            <==> SomeStatsClash(coinStats, subdirs)
  {
    var f := SubtypeBuilder(series, seriesImg, year, coin, coinStats);
    MapWithResultFails(f, subdirs);
    forall i | 0 <= i < |subdirs|
      ensures f(subdirs[i]).Failure? <==> StatsClash(coinStats, subdirs[i])
    {
      SubtypeEntryFails(series, seriesImg, year, coin, coinStats, subdirs[i]);
    }
  }

  /** The number of entries a coin folder yields: one for its loose
      images if it has any, one per subtype folder, and one placeholder if
      it has neither. */
  function ExpectedEntryCount(children: seq<Node>): nat {
    var loose := ImageNamesIn(children) != [];
    var subtypes := |Subdirs(children)|;
    (if loose then 1 else 0) + subtypes + (if !loose && subtypes == 0 then 1 else 0)
  }

  /** Building a subtype entry raises exactly when the coin's or the
      subtype's loaded `details.json` is not an object. */
  predicate StatsClash(coinStats: Json, sub: Node) {
    !coinStats.JObj? || !GetJsonData(Entries(sub), DetailsFile).JObj?
  }

  /** Some subtype folder's stats clash with the coin's. */
  predicate SomeStatsClash(coinStats: Json, subdirs: seq<Node>) {
    exists i :: 0 <= i < |subdirs| && StatsClash(coinStats, subdirs[i])
  }

  /** The entries of one coin folder, in the order the source appends
      them: Part A (loose images), Part B (one per subtype folder), Part C
      (a placeholder when the folder has neither). */
  function CoinEntries(series: string, seriesImg: Option<string>, year: string, coin: Node): (r: Scan)
    requires coin.Dir?
  {
    var coinStats := GetJsonData(coin.children, DetailsFile);
    match SubtypeEntries(series, seriesImg, year, coin.name, coinStats, Subdirs(coin.children))
    case Failure(e) => Failure(e)
    case Success(partB) =>
      Success(LoosePart(series, seriesImg, year, coin) + partB + PlaceholderPart(series, seriesImg, year, coin))
  }

  /** Part A: the entry of the loose images of a coin folder, labelled
      "untagged" when the folder also has subtype folders; none when it
      has no loose image. */
  function LoosePart(series: string, seriesImg: Option<string>, year: string, coin: Node): seq<CoinEntry>
    requires coin.Dir?
  {
    var rootImgs := SortedImages(coin.children);
    if rootImgs != [] then
      [CoinEntry(series, seriesImg, year, coin.name,
                 if Subdirs(coin.children) != [] then Some(Untagged) else None,
                 ImagePaths([series, year, coin.name], rootImgs), true,
                 GetJsonData(coin.children, DetailsFile))]
    else []
  }

  /** Part C: the placeholder entry of a coin folder with neither loose
      images nor subtype folders. */
  function PlaceholderPart(series: string, seriesImg: Option<string>, year: string, coin: Node): seq<CoinEntry>
    requires coin.Dir?
  {
    if SortedImages(coin.children) == [] && Subdirs(coin.children) == [] then
      [CoinEntry(series, seriesImg, year, coin.name, None, [], false, GetJsonData(coin.children, DetailsFile))]
    else []
  }

  /** The scan of a coin folder raises exactly when the folder has a
      subtype folder and the coin's or that subtype's loaded
      `details.json` is not an object. */
  lemma CoinEntriesFailure(series: string, seriesImg: Option<string>, year: string, coin: Node)
    requires coin.Dir?
    ensures CoinEntries(series, seriesImg, year, coin).Failure?
            <==> SomeStatsClash(GetJsonData(coin.children, DetailsFile), Subdirs(coin.children))
  {
    var subdirs := Subdirs(coin.children);
    var coinStats := GetJsonData(coin.children, DetailsFile);
    var partB := SubtypeEntries(series, seriesImg, year, coin.name, coinStats, subdirs);
    assert CoinEntries(series, seriesImg, year, coin).Failure? <==> partB.Failure?;
    SubtypeEntriesFailure(series, seriesImg, year, coin.name, coinStats, subdirs);
  }

  /** Sorting keeps a list empty exactly when it was empty. */
  lemma SortedImagesEmpty(children: seq<Node>)
    ensures SortedImages(children) == [] <==> ImageNamesIn(children) == []
  {
    SortSorted(ImageNamesIn(children));
    assert |multiset(SortedImages(children))| == |multiset(ImageNamesIn(children))|;
  }

  /** Every coin folder yields at least one entry, and exactly one for its
      loose images (if any), one per subtype folder, and a placeholder
      when it has neither. */
  lemma CoinEntryCount(series: string, seriesImg: Option<string>, year: string, coin: Node)
    requires coin.Dir?
    requires CoinEntries(series, seriesImg, year, coin).Success?
    ensures |CoinEntries(series, seriesImg, year, coin).value| == ExpectedEntryCount(coin.children) >= 1
  {
    SortedImagesEmpty(coin.children);
    var coinStats := GetJsonData(coin.children, DetailsFile);
    SubtypeEntriesLength(series, seriesImg, year, coin.name, coinStats, Subdirs(coin.children));
  }

  /** Every entry of a coin folder names that folder, its year and series,
      and has an image exactly when its image list is non-empty. */
  lemma CoinEntryFields(series: string, seriesImg: Option<string>, year: string, coin: Node, e: CoinEntry)
    requires coin.Dir?
    requires CoinEntries(series, seriesImg, year, coin).Success?
    requires e in CoinEntries(series, seriesImg, year, coin).value
    ensures e.series == series && e.seriesImg == seriesImg && e.year == year && e.name == coin.name
    ensures e.hasImage <==> e.images != []
  {
    var cs := coin.children;
    var subdirs := Subdirs(cs);
    var coinStats := GetJsonData(cs, DetailsFile);
    var partB := SubtypeEntries(series, seriesImg, year, coin.name, coinStats, subdirs).value;
    if e in partB {
      SubtypeEntriesLength(series, seriesImg, year, coin.name, coinStats, subdirs);
      var i :| 0 <= i < |partB| && partB[i] == e;
      SubtypeEntriesAt(series, seriesImg, year, coin.name, coinStats, subdirs, i);
      assert SubtypeEntry(series, seriesImg, year, coin.name, coinStats, subdirs[i])
             == Success(e);
    }
  }

  // ---------------------------------------------------------------------
  // The walk: series, year and coin folders

  /** Python's sequencing of two steps that extend the collection: the
      first exception ends the scan. */
  function Then(a: Scan, b: Scan): (r: Scan)
    ensures r.Success? <==> a.Success? && b.Success?
    ensures r.Success? ==> r.value == a.value + b.value
  {
    if a.Failure? then a else if b.Failure? then b else Success(a.value + b.value)
  }

  /** `for coin_name in os.listdir(year_path)`, skipping non-directories. */
  function ScanCoins(series: string, seriesImg: Option<string>, year: string, coins: seq<Node>): (r: Scan)
  {
    if coins == [] then Success([])
    else
      var here := if coins[0].Dir? then CoinEntries(series, seriesImg, year, coins[0]) else Success([]);
      Then(here, ScanCoins(series, seriesImg, year, coins[1..]))
  }

  /** `for year in os.listdir(series_path)`, skipping non-directories. */
  function ScanYears(series: string, seriesImg: Option<string>, years: seq<Node>): (r: Scan)
  {
    if years == [] then Success([])
    else
      var here := if years[0].Dir? then ScanCoins(series, seriesImg, years[0].name, years[0].children) else Success([]);
      Then(here, ScanYears(series, seriesImg, years[1..]))
  }

  /** `scan_collection()` on the listing of the image folder (empty when
      the folder did not exist and was just created). Non-directories are
      skipped; each series computes its hero image once. */
  function ScanCollection(listing: seq<Node>): (r: Scan)
  {
    if listing == [] then Success([])
    else
      var s := listing[0];
      var here := if s.Dir? then ScanYears(s.name, SeriesImage(s.name, s.children), s.children) else Success([]);
      Then(here, ScanCollection(listing[1..]))
  }

  // ---------------------------------------------------------------------
  // Properties of the entries of one coin folder

  /** `images` lists the images directly inside the folder reached by
      `prefix`, sorted by file name, each joined to `prefix`. */
  ghost predicate ListsImagesOf(images: seq<string>, prefix: seq<string>, children: seq<Node>) {
    exists names :: Sorted(names) && multiset(names) == multiset(ImageNamesIn(children))
                    && images == ImagePaths(prefix, names)
  }

  lemma SortedImagesListed(prefix: seq<string>, children: seq<Node>)
    ensures ListsImagesOf(ImagePaths(prefix, SortedImages(children)), prefix, children)
  {
    var names := SortedImages(children);
    SortSorted(ImageNamesIn(children));
    assert Sorted(names) && multiset(names) == multiset(ImageNamesIn(children));
  }

  /** A JSON value as `json.load` builds it: an object has no repeated
      key. */
  predicate IsDict(j: Json) {
    j.JObj? ==> UniqueKeys(j.fields)
  }

  /** Part A: a coin folder with loose images reports them first, in one
      entry of their own, labelled "untagged" exactly when the folder also
      has subtype folders, with the coin's stats unchanged. */
  lemma LooseImagesEntry(series: string, seriesImg: Option<string>, year: string, coin: Node)
    requires coin.Dir?
    requires CoinEntries(series, seriesImg, year, coin).Success?
    requires ImageNamesIn(coin.children) != []
    ensures var e := CoinEntries(series, seriesImg, year, coin).value[0];
            && e.subtype == (if Subdirs(coin.children) != [] then Some(Untagged) else None)
            && e.hasImage
            && ListsImagesOf(e.images, [series, year, coin.name], coin.children)
            && e.stats == GetJsonData(coin.children, DetailsFile)
  {
    SortedImagesEmpty(coin.children);
    SortedImagesListed([series, year, coin.name], coin.children);
  }

  /** Part C: a coin folder with neither loose images nor subtype folders
      still yields exactly one entry, with no subtype, no images and the
      coin's stats. */
  lemma EmptyCoinEntry(series: string, seriesImg: Option<string>, year: string, coin: Node)
    requires coin.Dir?
    requires ImageNamesIn(coin.children) == [] && Subdirs(coin.children) == []
    ensures CoinEntries(series, seriesImg, year, coin)
            == Success([CoinEntry(series, seriesImg, year, coin.name, None, [], false,
                                  GetJsonData(coin.children, DetailsFile))])
  {
    SortedImagesEmpty(coin.children);
    var coinStats := GetJsonData(coin.children, DetailsFile);
    assert SubtypeEntries(series, seriesImg, year, coin.name, coinStats, []) == Success([]);
    assert LoosePart(series, seriesImg, year, coin) == [];
    var e := CoinEntry(series, seriesImg, year, coin.name, None, [], false, coinStats);
    assert PlaceholderPart(series, seriesImg, year, coin) == [e];
    assert SubtypeEntries(series, seriesImg, year, coin.name, coinStats, Subdirs(coin.children)) == Success([]);
    assert [] + [] + [e] == [e];
  }

  /** The position of the i-th subtype folder's entry: right after the
      loose-images entry, if there is one. */
  function SubtypeOffset(children: seq<Node>, i: nat): nat {
    (if ImageNamesIn(children) != [] then 1 else 0) + i
  }

  /** A successful coin scan is Part A, then Part B, then Part C. */
  lemma CoinEntriesParts(series: string, seriesImg: Option<string>, year: string, coin: Node)
    requires coin.Dir?
    requires CoinEntries(series, seriesImg, year, coin).Success?
    ensures var partB := SubtypeEntries(series, seriesImg, year, coin.name,
                                        GetJsonData(coin.children, DetailsFile), Subdirs(coin.children));
            && partB.Success?
            && CoinEntries(series, seriesImg, year, coin).value
               == LoosePart(series, seriesImg, year, coin) + partB.value + PlaceholderPart(series, seriesImg, year, coin)
  {
  }

  /** Part A has one entry exactly when the folder has loose images. */
  lemma LoosePartLength(series: string, seriesImg: Option<string>, year: string, coin: Node)
    requires coin.Dir?
    ensures |LoosePart(series, seriesImg, year, coin)| == SubtypeOffset(coin.children, 0)
  {
    SortedImagesEmpty(coin.children);
  }

  /** The i-th subtype folder's entry sits at `SubtypeOffset`. */
  lemma SubtypeEntryAt(series: string, seriesImg: Option<string>, year: string, coin: Node, i: nat)
    requires coin.Dir?
    requires CoinEntries(series, seriesImg, year, coin).Success?
    requires i < |Subdirs(coin.children)|
    ensures var es := CoinEntries(series, seriesImg, year, coin).value;
            var coinStats := GetJsonData(coin.children, DetailsFile);
            var partB := SubtypeEntries(series, seriesImg, year, coin.name, coinStats, Subdirs(coin.children));
            && partB.Success? && i < |partB.value|
            && SubtypeOffset(coin.children, i) < |es|
            && es[SubtypeOffset(coin.children, i)] == partB.value[i]
  {
    var coinStats := GetJsonData(coin.children, DetailsFile);
    CoinEntriesParts(series, seriesImg, year, coin);
    var partB := SubtypeEntries(series, seriesImg, year, coin.name, coinStats, Subdirs(coin.children)).value;
    SubtypeEntriesLength(series, seriesImg, year, coin.name, coinStats, Subdirs(coin.children));
    LoosePartLength(series, seriesImg, year, coin);
    ConcatAt(LoosePart(series, seriesImg, year, coin), partB, PlaceholderPart(series, seriesImg, year, coin), i);
  }

  lemma ConcatAt<T>(a: seq<T>, b: seq<T>, c: seq<T>, i: nat)
    requires i < |b|
    ensures |a| + i < |a + b + c| && (a + b + c)[|a| + i] == b[i]
  {
  }

  /** Part B: after the loose-images entry (if any), the i-th subtype
      folder has its own entry, labelled with the folder's name and
      listing only that folder's images, sorted; a folder without images
      still has its entry, with an empty list. */
  lemma SubtypeEntryImages(series: string, seriesImg: Option<string>, year: string, coin: Node, i: nat)
    requires coin.Dir?
    requires CoinEntries(series, seriesImg, year, coin).Success?
    requires i < |Subdirs(coin.children)|
    ensures var es := CoinEntries(series, seriesImg, year, coin).value;
            var n := SubtypeOffset(coin.children, i);
            var sub := Subdirs(coin.children)[i];
            && n < |es|
            && es[n].subtype == Some(sub.name)
            && ListsImagesOf(es[n].images, [series, year, coin.name, sub.name], sub.children)
            && (es[n].hasImage <==> ImageNamesIn(sub.children) != [])
  {
    SubtypeEntryAt(series, seriesImg, year, coin, i);
    var coinStats := GetJsonData(coin.children, DetailsFile);
    SubtypeEntriesAt(series, seriesImg, year, coin.name, coinStats, Subdirs(coin.children), i);
    var sub := Subdirs(coin.children)[i];
    SortedImagesEmpty(sub.children);
    SortedImagesListed([series, year, coin.name, sub.name], sub.children);
  }

  /** Part B stats: the coin's stats overlaid by the subtype's, shallowly.
      A key of the subtype's `details.json` takes the subtype's value; any
      other key keeps the coin's value. */
  lemma SubtypeEntryStats(series: string, seriesImg: Option<string>, year: string, coin: Node, i: nat, k: string)
    requires coin.Dir?
    requires CoinEntries(series, seriesImg, year, coin).Success?
    requires i < |Subdirs(coin.children)|
    requires IsDict(GetJsonData(coin.children, DetailsFile))
    requires IsDict(GetJsonData(Subdirs(coin.children)[i].children, DetailsFile))
    ensures var es := CoinEntries(series, seriesImg, year, coin).value;
            var n := SubtypeOffset(coin.children, i);
            var coinStats := GetJsonData(coin.children, DetailsFile);
            var subStats := GetJsonData(Subdirs(coin.children)[i].children, DetailsFile);
            && n < |es|
            && coinStats.JObj? && subStats.JObj? && es[n].stats.JObj?
            && Lookup(es[n].stats.fields, k)
               == if HasKey(subStats.fields, k) then Lookup(subStats.fields, k) else Lookup(coinStats.fields, k)
  {
    SubtypeEntryAt(series, seriesImg, year, coin, i);
    var coinStats := GetJsonData(coin.children, DetailsFile);
    SubtypeEntriesAt(series, seriesImg, year, coin.name, coinStats, Subdirs(coin.children), i);
    var subStats := GetJsonData(Subdirs(coin.children)[i].children, DetailsFile);
    OverlayLookup(coinStats.fields, subStats.fields, k);
  }

  /** On plain names (non-empty, no `/`, no backslash), an image path
      splits at `/` back into the folder names and the file name. */
  lemma ImagePathSegments(prefix: seq<string>, names: seq<string>, k: nat)
    requires k < |names|
    requires forall j :: 0 <= j < |prefix| ==> PlainName(prefix[j])
    requires PlainName(names[k])
    ensures Split(ImagePaths(prefix, names)[k]) == prefix + [names[k]]
  {
    SplitUrlPath(prefix + [names[k]]);
  }

  // ---------------------------------------------------------------------
  // Properties of the walk

  lemma {:induction false} ScanCoinsIncludes(series: string, seriesImg: Option<string>, year: string,
                                             coins: seq<Node>, k: nat)
    requires k < |coins| && coins[k].Dir?
    requires ScanCoins(series, seriesImg, year, coins).Success?
    ensures CoinEntries(series, seriesImg, year, coins[k]).Success?
    ensures forall e :: e in CoinEntries(series, seriesImg, year, coins[k]).value
                        ==> e in ScanCoins(series, seriesImg, year, coins).value
    decreases |coins|
  {
    var here := if coins[0].Dir? then CoinEntries(series, seriesImg, year, coins[0]) else Success([]);
    var rest := ScanCoins(series, seriesImg, year, coins[1..]);
    assert ScanCoins(series, seriesImg, year, coins) == Then(here, rest);
    if k > 0 {
      assert coins[1..][k - 1] == coins[k];
      ScanCoinsIncludes(series, seriesImg, year, coins[1..], k - 1);
    }
  }

  lemma {:induction false} ScanYearsIncludes(series: string, seriesImg: Option<string>, years: seq<Node>,
                                             j: nat, k: nat)
    requires j < |years| && years[j].Dir?
    requires k < |years[j].children| && years[j].children[k].Dir?
    requires ScanYears(series, seriesImg, years).Success?
    ensures CoinEntries(series, seriesImg, years[j].name, years[j].children[k]).Success?
    ensures forall e :: e in CoinEntries(series, seriesImg, years[j].name, years[j].children[k]).value
                        ==> e in ScanYears(series, seriesImg, years).value
    decreases |years|
  {
    if j > 0 {
      ScanYearsIncludes(series, seriesImg, years[1..], j - 1, k);
    } else {
      ScanCoinsIncludes(series, seriesImg, years[0].name, years[0].children, k);
    }
  }

  /** A successful scan contains every entry of every coin folder: for the
      coin folder at `listing[i] / year j / coin k`, all of its entries. */
  lemma {:induction false} ScanIncludes(listing: seq<Node>, i: nat, j: nat, k: nat)
    requires i < |listing| && listing[i].Dir?
    requires j < |listing[i].children| && listing[i].children[j].Dir?
    requires k < |listing[i].children[j].children| && listing[i].children[j].children[k].Dir?
    requires ScanCollection(listing).Success?
    ensures var s := listing[i];
            var y := s.children[j];
            var cs := CoinEntries(s.name, SeriesImage(s.name, s.children), y.name, y.children[k]);
            && cs.Success?
            && forall e :: e in cs.value ==> e in ScanCollection(listing).value
    decreases |listing|
  {
    if i > 0 {
      ScanIncludes(listing[1..], i - 1, j, k);
    } else {
      var s := listing[0];
      ScanYearsIncludes(s.name, SeriesImage(s.name, s.children), s.children, j, k);
    }
  }

  /** No folder is silently dropped: a successful scan has an entry for
      every coin folder, carrying its series, year and coin name and the
      series' hero image. */
  lemma EveryCoinFolderListed(listing: seq<Node>, i: nat, j: nat, k: nat)
    requires i < |listing| && listing[i].Dir?
    requires j < |listing[i].children| && listing[i].children[j].Dir?
    requires k < |listing[i].children[j].children| && listing[i].children[j].children[k].Dir?
    requires ScanCollection(listing).Success?
    ensures exists e :: e in ScanCollection(listing).value
              && e.series == listing[i].name
              && e.seriesImg == SeriesImage(listing[i].name, listing[i].children)
              && e.year == listing[i].children[j].name
              && e.name == listing[i].children[j].children[k].name
  {
    var s := listing[i];
    var y := s.children[j];
    var c := y.children[k];
    var img := SeriesImage(s.name, s.children);
    ScanIncludes(listing, i, j, k);
    CoinEntryCount(s.name, img, y.name, c);
    var e := CoinEntries(s.name, img, y.name, c).value[0];
    CoinEntryFields(s.name, img, y.name, c, e);
  }

  lemma {:induction false} ScanCoinsOrigin(series: string, seriesImg: Option<string>, year: string,
                                           coins: seq<Node>, e: CoinEntry)
    requires ScanCoins(series, seriesImg, year, coins).Success?
    requires e in ScanCoins(series, seriesImg, year, coins).value
    ensures e.series == series && e.seriesImg == seriesImg && e.year == year
    ensures exists k :: 0 <= k < |coins| && coins[k].Dir? && e.name == coins[k].name
    decreases |coins|
  {
    var here := if coins[0].Dir? then CoinEntries(series, seriesImg, year, coins[0]) else Success([]);
    if e in here.value {
      CoinEntryFields(series, seriesImg, year, coins[0], e);
    } else {
      ScanCoinsOrigin(series, seriesImg, year, coins[1..], e);
      var k :| 0 <= k < |coins[1..]| && coins[1..][k].Dir? && e.name == coins[1..][k].name;
      assert coins[k + 1] == coins[1..][k];
    }
  }

  lemma {:induction false} ScanYearsOrigin(series: string, seriesImg: Option<string>, years: seq<Node>,
                                           e: CoinEntry)
    requires ScanYears(series, seriesImg, years).Success?
    requires e in ScanYears(series, seriesImg, years).value
    ensures e.series == series && e.seriesImg == seriesImg
    ensures exists j, k :: 0 <= j < |years| && years[j].Dir? && e.year == years[j].name
              && 0 <= k < |years[j].children| && years[j].children[k].Dir?
              && e.name == years[j].children[k].name
    decreases |years|
  {
    var y := years[0];
    var here := if y.Dir? then ScanCoins(series, seriesImg, y.name, y.children) else Success([]);
    if e in here.value {
      ScanCoinsOrigin(series, seriesImg, y.name, y.children, e);
      var k :| 0 <= k < |y.children| && y.children[k].Dir? && e.name == y.children[k].name;
      assert years[0] == y;
    } else {
      ScanYearsOrigin(series, seriesImg, years[1..], e);
      var j, k :| 0 <= j < |years[1..]| && years[1..][j].Dir? && e.year == years[1..][j].name
              && 0 <= k < |years[1..][j].children| && years[1..][j].children[k].Dir?
              && e.name == years[1..][j].children[k].name;
      assert years[j + 1] == years[1..][j];
    }
  }

  /** Nothing is invented: every entry of a successful scan comes from a
      coin folder, whose series, year and coin names it carries, and it
      carries that series' hero image. */
  lemma {:induction false} EntriesComeFromCoinFolders(listing: seq<Node>, e: CoinEntry)
    requires ScanCollection(listing).Success?
    requires e in ScanCollection(listing).value
    ensures exists i, j, k :: CoinFolderAt(listing, i, j, k)
              && e.series == listing[i].name
              && e.seriesImg == SeriesImage(listing[i].name, listing[i].children)
              && e.year == listing[i].children[j].name
              && e.name == listing[i].children[j].children[k].name
    decreases |listing|
  {
    var s := listing[0];
    var here := if s.Dir? then ScanYears(s.name, SeriesImage(s.name, s.children), s.children) else Success([]);
    if s.Dir? && e in here.value {
      var img := SeriesImage(s.name, s.children);
      ScanYearsOrigin(s.name, img, s.children, e);
      var j, k :| 0 <= j < |s.children| && s.children[j].Dir? && e.year == s.children[j].name
              && 0 <= k < |s.children[j].children| && s.children[j].children[k].Dir?
              && e.name == s.children[j].children[k].name;
      assert CoinFolderAt(listing, 0, j, k);
    } else {
      EntriesComeFromCoinFolders(listing[1..], e);
      var i, j, k :| CoinFolderAt(listing[1..], i, j, k)
              && e.series == listing[1..][i].name
              && e.seriesImg == SeriesImage(listing[1..][i].name, listing[1..][i].children)
              && e.year == listing[1..][i].children[j].name
              && e.name == listing[1..][i].children[j].children[k].name;
      assert listing[i + 1] == listing[1..][i];
      assert CoinFolderAt(listing, i + 1, j, k);
    }
  }

  // ---------------------------------------------------------------------
  // When the scan raises

  /** The entry `coins[k]` is a coin folder whose scan raises. */
  predicate CoinFails(series: string, seriesImg: Option<string>, year: string, coins: seq<Node>, k: int) {
    0 <= k < |coins| && coins[k].Dir? && CoinEntries(series, seriesImg, year, coins[k]).Failure?
  }

  /** The entry `years[j] / coin k` is a coin folder whose scan raises. */
  predicate YearCoinFails(series: string, seriesImg: Option<string>, years: seq<Node>, j: int, k: int) {
    0 <= j < |years| && years[j].Dir? && CoinFails(series, seriesImg, years[j].name, years[j].children, k)
  }

  /** The coin folder `listing[i] / year j / coin k` exists and its scan
      raises. */
  predicate CoinFolderFails(listing: seq<Node>, i: int, j: int, k: int) {
    && 0 <= i < |listing| && listing[i].Dir?
    && YearCoinFails(listing[i].name, SeriesImage(listing[i].name, listing[i].children), listing[i].children, j, k)
  }

  /** The scan of the coin folder `listing[i] / year j / coin k`. */
  function CoinScanAt(listing: seq<Node>, i: int, j: int, k: int): Scan
    requires CoinFolderAt(listing, i, j, k)
  {
    var s := listing[i];
    var y := s.children[j];
    CoinEntries(s.name, SeriesImage(s.name, s.children), y.name, y.children[k])
  }

  /** The walk reaches folder `(i, j, k)` no later than folder
      `(i2, j2, k2)`. */
  predicate NoLater(i: int, j: int, k: int, i2: int, j2: int, k2: int) {
    i < i2 || (i == i2 && (j < j2 || (j == j2 && k <= k2)))
  }

  /** The first step of a year scan: the first coin folder, or nothing for
      a file. */
  lemma ScanCoinsStep(series: string, seriesImg: Option<string>, year: string, coins: seq<Node>)
    requires coins != []
    ensures var here := if coins[0].Dir? then CoinEntries(series, seriesImg, year, coins[0]) else Success([]);
            && ScanCoins(series, seriesImg, year, coins) == Then(here, ScanCoins(series, seriesImg, year, coins[1..]))
            && (here.Failure? <==> CoinFails(series, seriesImg, year, coins, 0))
    ensures forall k2 :: 0 < k2 < |coins| ==>
              (CoinFails(series, seriesImg, year, coins, k2) <==> CoinFails(series, seriesImg, year, coins[1..], k2 - 1))
  {
    forall k2 | 0 < k2 < |coins|
      ensures CoinFails(series, seriesImg, year, coins, k2) <==> CoinFails(series, seriesImg, year, coins[1..], k2 - 1)
    {
      assert coins[1..][k2 - 1] == coins[k2];
    }
  }

  /** A year scan raises exactly when one of its coin folders does, and
      then with the error of the first such folder. */
  lemma {:induction false} ScanCoinsFailure(series: string, seriesImg: Option<string>, year: string, coins: seq<Node>)
    ensures ScanCoins(series, seriesImg, year, coins).Failure?
            <==> exists k :: CoinFails(series, seriesImg, year, coins, k)
    ensures ScanCoins(series, seriesImg, year, coins).Failure? ==>
              exists k :: CoinFails(series, seriesImg, year, coins, k)
                          && ScanCoins(series, seriesImg, year, coins) == CoinEntries(series, seriesImg, year, coins[k])
                          && forall k2 :: CoinFails(series, seriesImg, year, coins, k2) ==> k <= k2
    decreases |coins|
  {
    if coins != [] {
      var here := if coins[0].Dir? then CoinEntries(series, seriesImg, year, coins[0]) else Success([]);
      var rest := ScanCoins(series, seriesImg, year, coins[1..]);
      ScanCoinsStep(series, seriesImg, year, coins);
      ScanCoinsFailure(series, seriesImg, year, coins[1..]);
      if here.Failure? {
        assert CoinFails(series, seriesImg, year, coins, 0);
      } else if rest.Failure? {
        var k :| CoinFails(series, seriesImg, year, coins[1..], k)
                 && rest == CoinEntries(series, seriesImg, year, coins[1..][k])
                 && forall k2 :: CoinFails(series, seriesImg, year, coins[1..], k2) ==> k <= k2;
        assert coins[1..][k] == coins[k + 1];
        assert CoinFails(series, seriesImg, year, coins, k + 1);
        forall k2 | CoinFails(series, seriesImg, year, coins, k2)
          ensures k + 1 <= k2
        {
          assert k2 > 0 && CoinFails(series, seriesImg, year, coins[1..], k2 - 1);
        }
      } else {
        forall k2 | 0 <= k2 < |coins|
          ensures !CoinFails(series, seriesImg, year, coins, k2)
        {
        }
      }
    }
  }

  /** The first step of a series scan: the first year's coins, or nothing
      for a file. */
  lemma ScanYearsStep(series: string, seriesImg: Option<string>, years: seq<Node>)
    requires years != []
    ensures var y := years[0];
            var here := if y.Dir? then ScanCoins(series, seriesImg, y.name, y.children) else Success([]);
            && ScanYears(series, seriesImg, years) == Then(here, ScanYears(series, seriesImg, years[1..]))
            && (here.Failure? <==> exists k :: YearCoinFails(series, seriesImg, years, 0, k))
            && (here.Failure? ==>
                  exists k :: YearCoinFails(series, seriesImg, years, 0, k)
                              && here == CoinEntries(series, seriesImg, y.name, y.children[k])
                              && forall k2 :: YearCoinFails(series, seriesImg, years, 0, k2) ==> k <= k2)
    ensures forall j2, k2 :: 0 < j2 < |years| ==>
              (YearCoinFails(series, seriesImg, years, j2, k2) <==> YearCoinFails(series, seriesImg, years[1..], j2 - 1, k2))
  {
    var y := years[0];
    if y.Dir? {
      ScanCoinsFailure(series, seriesImg, y.name, y.children);
      if ScanCoins(series, seriesImg, y.name, y.children).Failure? {
        var k :| CoinFails(series, seriesImg, y.name, y.children, k);
        assert YearCoinFails(series, seriesImg, years, 0, k);
      }
    }
    forall j2, k2 | 0 < j2 < |years|
      ensures YearCoinFails(series, seriesImg, years, j2, k2) <==> YearCoinFails(series, seriesImg, years[1..], j2 - 1, k2)
    {
      assert years[1..][j2 - 1] == years[j2];
    }
  }

  /** A series scan raises exactly when a coin folder of one of its years
      does, and then with the error of the first such folder in walk
      order. */
  lemma {:induction false} ScanYearsFailure(series: string, seriesImg: Option<string>, years: seq<Node>)
    ensures ScanYears(series, seriesImg, years).Failure?
            <==> exists j, k :: YearCoinFails(series, seriesImg, years, j, k)
    ensures ScanYears(series, seriesImg, years).Failure? ==>
              exists j, k :: YearCoinFails(series, seriesImg, years, j, k)
                             && ScanYears(series, seriesImg, years)
                                == CoinEntries(series, seriesImg, years[j].name, years[j].children[k])
                             && forall j2, k2 :: YearCoinFails(series, seriesImg, years, j2, k2)
                                                 ==> NoLater(0, j, k, 0, j2, k2)
    decreases |years|
  {
    if years != [] {
      var y := years[0];
      var here := if y.Dir? then ScanCoins(series, seriesImg, y.name, y.children) else Success([]);
      var rest := ScanYears(series, seriesImg, years[1..]);
      ScanYearsStep(series, seriesImg, years);
      ScanYearsFailure(series, seriesImg, years[1..]);
      if here.Failure? {
        var k :| YearCoinFails(series, seriesImg, years, 0, k)
                 && here == CoinEntries(series, seriesImg, y.name, y.children[k])
                 && forall k2 :: YearCoinFails(series, seriesImg, years, 0, k2) ==> k <= k2;
        forall j2, k2 | YearCoinFails(series, seriesImg, years, j2, k2)
          ensures NoLater(0, 0, k, 0, j2, k2)
        {
        }
      } else if rest.Failure? {
        var j, k :| YearCoinFails(series, seriesImg, years[1..], j, k)
                    && rest == CoinEntries(series, seriesImg, years[1..][j].name, years[1..][j].children[k])
                    && forall j2, k2 :: YearCoinFails(series, seriesImg, years[1..], j2, k2) ==> NoLater(0, j, k, 0, j2, k2);
        assert years[1..][j] == years[j + 1];
        assert YearCoinFails(series, seriesImg, years, j + 1, k);
        forall j2, k2 | YearCoinFails(series, seriesImg, years, j2, k2)
          ensures NoLater(0, j + 1, k, 0, j2, k2)
        {
          assert j2 > 0 && YearCoinFails(series, seriesImg, years[1..], j2 - 1, k2);
        }
      } else {
        forall j2, k2 | 0 <= j2 < |years|
          ensures !YearCoinFails(series, seriesImg, years, j2, k2)
        {
        }
      }
    }
  }

  /** The first series of the listing raises exactly when one of its coin
      folders does, and then with the error of the first such folder. */
  lemma SeriesFailure(listing: seq<Node>)
    requires listing != [] && listing[0].Dir?
    ensures var s := listing[0];
            var here := ScanYears(s.name, SeriesImage(s.name, s.children), s.children);
            && (here.Failure? <==> exists j, k :: CoinFolderFails(listing, 0, j, k))
            && (here.Failure? ==>
                  exists j, k :: CoinFolderFails(listing, 0, j, k) && here == CoinScanAt(listing, 0, j, k)
                                 && forall j2, k2 :: CoinFolderFails(listing, 0, j2, k2) ==> NoLater(0, j, k, 0, j2, k2))
  {
    var s := listing[0];
    var img := SeriesImage(s.name, s.children);
    ScanYearsFailure(s.name, img, s.children);
    var here := ScanYears(s.name, img, s.children);
    if here.Failure? {
      var j, k :| YearCoinFails(s.name, img, s.children, j, k)
                  && here == CoinEntries(s.name, img, s.children[j].name, s.children[j].children[k])
                  && forall j2, k2 :: YearCoinFails(s.name, img, s.children, j2, k2) ==> NoLater(0, j, k, 0, j2, k2);
      assert CoinFolderFails(listing, 0, j, k);
    }
    forall j2, k2 | CoinFolderFails(listing, 0, j2, k2)
      ensures YearCoinFails(s.name, img, s.children, j2, k2)
    {
    }
  }

  /** The walk's first step: the first series' scan, or nothing for a
      file. */
  lemma ScanCollectionStep(listing: seq<Node>)
    requires listing != []
    ensures var s := listing[0];
            var here := if s.Dir? then ScanYears(s.name, SeriesImage(s.name, s.children), s.children) else Success([]);
            && ScanCollection(listing) == Then(here, ScanCollection(listing[1..]))
            && (here.Failure? <==> exists j, k :: CoinFolderFails(listing, 0, j, k))
            && (here.Failure? ==>
                  exists j, k :: CoinFolderFails(listing, 0, j, k) && here == CoinScanAt(listing, 0, j, k)
                                 && forall j2, k2 :: CoinFolderFails(listing, 0, j2, k2) ==> NoLater(0, j, k, 0, j2, k2))
    ensures forall i2, j2, k2 :: 0 < i2 < |listing| ==>
              (CoinFolderFails(listing, i2, j2, k2) <==> CoinFolderFails(listing[1..], i2 - 1, j2, k2))
  {
    if listing[0].Dir? {
      SeriesFailure(listing);
    }
    forall i2, j2, k2 | 0 < i2 < |listing|
      ensures CoinFolderFails(listing, i2, j2, k2) <==> CoinFolderFails(listing[1..], i2 - 1, j2, k2)
    {
      assert listing[1..][i2 - 1] == listing[i2];
    }
  }

  /** `scan_collection` raises exactly when some coin folder's scan raises
      (a `details.json` that is not an object next to a subtype folder),
      and the error is that of the first such folder the walk reaches. */
  lemma {:induction false} ScanCollectionFailure(listing: seq<Node>)
    ensures ScanCollection(listing).Failure? <==> exists i, j, k :: CoinFolderFails(listing, i, j, k)
    ensures ScanCollection(listing).Failure? ==>
              exists i, j, k :: CoinFolderFails(listing, i, j, k)
                                && ScanCollection(listing) == CoinScanAt(listing, i, j, k)
                                && forall i2, j2, k2 :: CoinFolderFails(listing, i2, j2, k2)
                                                        ==> NoLater(i, j, k, i2, j2, k2)
    decreases |listing|
  {
    if listing != [] {
      var s := listing[0];
      var here := if s.Dir? then ScanYears(s.name, SeriesImage(s.name, s.children), s.children) else Success([]);
      var rest := ScanCollection(listing[1..]);
      ScanCollectionStep(listing);
      ScanCollectionFailure(listing[1..]);
      if here.Failure? {
        var j, k :| CoinFolderFails(listing, 0, j, k) && here == CoinScanAt(listing, 0, j, k)
                    && forall j2, k2 :: CoinFolderFails(listing, 0, j2, k2) ==> NoLater(0, j, k, 0, j2, k2);
        forall i2, j2, k2 | CoinFolderFails(listing, i2, j2, k2)
          ensures NoLater(0, j, k, i2, j2, k2)
        {
        }
      } else if rest.Failure? {
        var i, j, k :| CoinFolderFails(listing[1..], i, j, k)
                       && rest == CoinScanAt(listing[1..], i, j, k)
                       && forall i2, j2, k2 :: CoinFolderFails(listing[1..], i2, j2, k2) ==> NoLater(i, j, k, i2, j2, k2);
        assert listing[1..][i] == listing[i + 1];
        assert CoinFolderFails(listing, i + 1, j, k);
        forall i2, j2, k2 | CoinFolderFails(listing, i2, j2, k2)
          ensures NoLater(i + 1, j, k, i2, j2, k2)
        {
          assert i2 > 0 && CoinFolderFails(listing[1..], i2 - 1, j2, k2);
        }
      } else {
        forall i2, j2, k2 | 0 <= i2 < |listing|
          ensures !CoinFolderFails(listing, i2, j2, k2)
        {
        }
      }
    }
  }
}
