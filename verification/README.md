# Israeli coin archive — a Dafny model of the collection scanner and its folder tools

The archive is a small Flask site that shows a coin collection stored as
a folder tree `images/<series>/<year>/<coin>[/<subtype>]/`. Each folder
holds image files and, optionally, a `details.json` with the coin's
statistics. This project models in Dafny the logic that turns that tree
into the list of coins the page shows, and the three maintenance scripts
that work on the tree, and it proves what they promise:

- **`scan_collection`** (`app.py`). It walks series, years and coin
  folders, skipping non-directories, and emits coin entries:
  - Part A: one entry for a coin folder's loose images.
  - Part B: one entry per subtype folder.
  - Part C: a placeholder for an empty coin folder.

  Each entry carries sorted, `/`-joined image paths and statistics loaded
  from `details.json`. A subtype's statistics are the coin's overlaid by
  the subtype's. `is_image` is modelled through `os.path.splitext`, and
  `get_json_data` is fail-open.
- **`add_json_data` / `noop_add_json_data`** (`util/details_pusher.py`).
  The first merges a dict into the `details.json` of `<f2>/<f3>` for
  every folder `f2` of a listing whose name contains one of the given
  parts. The second does nothing.
- **`ask_translation` / `scan_all`** (`util/translate_helper.py`). They
  collect the interface strings, the folder names and the `details.json`
  terms. The user is asked for an English translation of every term the
  folder map does not have yet.
- **`create_gitkeeps`** (`util/fix_empty_folders.py`). It puts an empty
  `.gitkeep` into every directory that has no visible file.

The file system is an immutable tree: `FileTree.Node` is a file (its
content as JSON, non-JSON text or non-UTF-8 bytes) or a directory (its
entries in listing order). Python dicts are ordered association lists
(`Dicts.Dict`) because the scripts iterate over them and write them back
in insertion order. An exception that escapes an operation is a
`Failure`, a `None` or a `raised` flag, with the effects that happened
before it kept.

Modules, one per file:
- `wrappers.dfy`: `Option`, `Result`, a failing map.
- `dicts.dfy`: `dict` get, set and `update`.
- `file_tree.dfy`: JSON values and the directory tree.
- `text.dfy`: `strip`, `lower`, `in`, `startswith`.
- `sorting.dfy`: Python's string order and sorting.
- `paths.dfy`: `os.path.join`, `replace`, `split`.
- `image_names.dfy`: `splitext` and `is_image`.
- `scanner.dfy`: `app.py`.
- `details_pusher.dfy`, `translate_helper.dfy`, `fix_empty_folders.dfy`: the three scripts.

Several behaviours of the code are modelled as written:
- **Overlay `TypeError` aborts `/api/data`.** `get_json_data` returns any
  JSON value that parses, not only objects. If a coin or subtype folder's
  `details.json` holds, say, a list, `{**coin_stats, **subtype_stats}`
  raises `TypeError` and the whole scan fails. This only happens when the
  coin has a subtype folder (`Scanner.CoinEntriesFailure`), and the error
  is that of the first such folder (`Scanner.ScanCollectionFailure`).
- **The two filters of `scan_collection` are independent.** A directory
  named `x.png` is both an image and a subtype folder.
- **`add_json_data` catches only `JSONDecodeError`.** A `details.json` that
  is a directory or not UTF-8 ends the run. The files written before it
  stay written.
- **`scan_all` raises on a non-object `details.json`.** It asks about each
  term as it finds it, so the answers given before `data.items()` raises
  are kept (`TranslateHelper.FolderTermsRaised`,
  `TranslateHelper.ScanAllKnowsFolderTerm`).

## Model

| member | source | states |
|---|---|---|
| ImageNames.LastIndexSpec | app.py:11 | the dot `splitext` searches for is the last one: the position found holds the character and no later position does |
| ImageNames.ExtensionAt | app.py:11 | `splitext` cuts at a dot when no dot or `/` follows it and the file name before it is not made only of dots |
| ImageNames.ExtensionSuffix | app.py:11 | a non-empty extension is a suffix of the name, preceded by a file name that is not all dots |
| ImageNames.ExtensionDotFirst | app.py:11 | a non-empty extension starts with a dot and holds no further dot and no `/` |
| ImageNames.ExtensionStartsAt | app.py:11 | `splitext` cuts at the dot at a given position exactly when no dot or `/` follows it and the file name before it is not made only of dots |
| ImageNames.IsImageByExtension | app.py:8-11 | `is_image` holds exactly when the name ends, ignoring ASCII case, in `.png`, `.jpg`, `.jpeg`, `.gif` or `.webp` after a file name that is not all dots; `.png` and `...png` are not images |
| Sorting.LeqTotal | app.py:52 | any two strings are comparable in Python's string order |
| Sorting.LeqTransitive | app.py:52 | Python's string order is transitive |
| Sorting.LeqAntisymmetric | app.py:52 | strings each at most the other are equal |
| Sorting.InsertSorted | app.py:52 | inserting into a sorted list keeps it sorted and adds exactly one occurrence of the element |
| Sorting.SortSorted | app.py:52 | the sort yields a sorted permutation of its input |
| Sorting.SortedUnique | app.py:52 | two sorted permutations of the same list are equal, so the sort is the order `list.sort()` produces |
| Paths.ForwardSlashesAt | app.py:36 | `replace("\\", "/")` turns each backslash into `/` and keeps every other character in place |
| Paths.SplitIntercalate | app.py:59 | names without `/` joined by `/` split back into the same names |
| Paths.JoinPlain | app.py:59 | on non-empty names without `/` or `\`, `os.path.join` puts exactly one `/` between consecutive names and leaves no backslash |
| Paths.SplitUrlPath | app.py:76 | for non-empty names without `/` or `\`, a reported path split at `/` gives back exactly the folder and file names it was built from |
| Dicts.Lookup | util/translate_helper.py:44 | a lookup finds a value exactly when the key is in the dict |
| Dicts.Store | util/translate_helper.py:55 | after `d[k] = v`, `k` maps to `v`; an existing key keeps its position, a new one is appended |
| Dicts.StoreOther | util/translate_helper.py:55 | storing under one key leaves every other key's value unchanged |
| Dicts.StoreFresh | util/translate_helper.py:55 | storing a new key appends exactly that item |
| Dicts.UpdateLookup | util/details_pusher.py:43 | after `d.update(e)`, every key of `e` has its value from `e` and every other key keeps its value in `d` |
| Dicts.UpdateKeys | util/details_pusher.py:43 | `update` keeps `d`'s keys first and in order, never repeats a key, and the result has exactly the keys of both |
| Dicts.UpdateIdempotent | util/details_pusher.py:43 | updating twice with the same items gives what updating once gives |
| Dicts.UpdateFresh | util/details_pusher.py:36-43 | updating with items whose keys are all new appends them in order, so updating `{}` with a dict copies it |
| FileTree.ChildSpec | app.py:54 | joining a name to a directory reaches its first entry of that name, and reaches nothing only when no entry has that name |
| FileTree.SubdirsSpec | app.py:50 | the subfolder list holds exactly the entries that are directories |
| FileTree.ReplaceChildLookup | util/details_pusher.py:46-47 | writing over an entry makes its name find the new entry and leaves every other name's entry as it was |
| Scanner.GetJsonDataFailOpen | app.py:13-20 | `get_json_data` yields the parsed value when the file parses, and `{}` when it is missing, a directory, not UTF-8 or not JSON; it never fails |
| Scanner.ImageNamesAreImages | app.py:51 | the image list of a folder holds only names `is_image` accepts |
| Scanner.ImageNamesComplete | app.py:51 | every entry whose name `is_image` accepts is in the image list, files and directories alike |
| Scanner.ImageNamesListed | app.py:51 | every name in the image list is the name of an entry of the folder |
| Scanner.SeriesImage | app.py:33-37 | the series image is absent exactly when no entry is an image; otherwise it is `series/name` of the first image entry in listing order |
| Scanner.Overlay | app.py:73 | `{**a, **b}` succeeds exactly when both are objects (`TypeError` otherwise) |
| Scanner.OverlayLookup | app.py:73 | in `{**a, **b}` a key of `b` has `b`'s value and any other key has `a`'s |
| Scanner.OverlayKeyOrder | app.py:73 | `{**a, **b}` lists `a`'s keys first, in their order |
| Scanner.SubtypeEntry | app.py:68-87 | a subtype entry is built exactly when the overlay of the statistics succeeds; the error names the subtype folder |
| Scanner.SubtypeEntriesLength | app.py:68 | Part B has one entry per subtype folder |
| Scanner.SubtypeEntriesAt | app.py:68-87 | the i-th entry of Part B is the one built from the i-th subtype folder |
| Scanner.SubtypeEntryFails | app.py:72-73 | building a subtype entry raises exactly when the coin's or the subtype's loaded statistics are not an object |
| Scanner.SubtypeEntriesFailure | app.py:68-73 | Part B raises exactly when some subtype folder's statistics clash |
| Scanner.CoinEntriesFailure | app.py:50-73 | a coin folder's scan raises exactly when it has a subtype folder and that folder's or the coin's `details.json` is not an object |
| Scanner.SortedImagesEmpty | app.py:51-57 | the sorted image list is empty exactly when the folder has no image |
| Scanner.CoinEntryCount | app.py:57-95 | a coin folder yields (1 if it has loose images) + (its number of subtype folders) + (1 if it has neither) entries, at least one |
| Scanner.CoinEntryFields | app.py:61-94 | every entry of a coin folder carries its series, series image, year and coin name, and `has_image` holds exactly when its image list is non-empty |
| Scanner.SortedImagesListed | app.py:51-59 | the reported image list is the folder's image names, sorted, each joined to the folder's path |
| Scanner.LooseImagesEntry | app.py:57-65 | a coin folder with loose images reports them first, in one entry labelled "ללא תיוג" exactly when it also has subtype folders, with the coin's statistics unchanged |
| Scanner.EmptyCoinEntry | app.py:90-95 | a coin folder with neither loose images nor subtype folders yields exactly one entry, with no subtype, no images and the coin's statistics |
| Scanner.LoosePartLength | app.py:57-65 | Part A has one entry exactly when the folder has loose images |
| Scanner.SubtypeEntryAt | app.py:57-87 | the i-th subtype folder's entry comes right after the loose-images entry, if any, and the entries before it |
| Scanner.SubtypeEntryImages | app.py:68-87 | the i-th subtype entry is labelled with the folder's name and lists only that folder's images, sorted; a folder without images still has its entry, with `has_image` false |
| Scanner.SubtypeEntryStats | app.py:72-81 | a subtype entry's statistics give every key of the subtype's `details.json` its value there, and every other key its value in the coin's |
| Scanner.ImagePathSegments | app.py:76 | for non-empty names without `/` or `\`, an image path splits at `/` into series, year, coin, subtype and file name |
| Scanner.ScanCoinsIncludes | app.py:44-47 | a successful year scan contains every entry of each of its coin folders |
| Scanner.ScanYearsIncludes | app.py:39-47 | a successful series scan contains every entry of each coin folder of each year |
| Scanner.ScanIncludes | app.py:28-95 | a successful scan contains every entry of every coin folder in the tree |
| Scanner.EveryCoinFolderListed | app.py:28-95 | a successful scan has an entry for every coin folder, with its series, year, name and series image |
| Scanner.ScanCoinsOrigin | app.py:44-95 | every entry of a year scan comes from one of its coin folders and carries the year and series |
| Scanner.ScanYearsOrigin | app.py:39-95 | every entry of a series scan comes from a coin folder of one of its years |
| Scanner.EntriesComeFromCoinFolders | app.py:22-97 | every entry of a successful scan comes from a coin folder three levels down, whose series, year and name it carries, with that series' image |
| Scanner.ScanCoinsFailure | app.py:44-95 | a year's scan raises exactly when one of its coin folders' scans raises, and the error is that of the first such coin folder in listing order |
| Scanner.ScanYearsFailure | app.py:39-95 | a series' scan raises exactly when a coin folder of one of its years raises, with the error of the first such folder in walk order |
| Scanner.SeriesFailure | app.py:28-95 | the first series raises exactly when one of its coin folders does, with the error of the first such folder |
| Scanner.ScanCollectionFailure | app.py:22-97 | `scan_collection` raises exactly when some coin folder three levels down raises (its or a subtype's `details.json` is not an object next to a subtype folder), and the error is that of the first such folder the walk reaches |
| Text.StripLeftSpec | util/translate_helper.py:40 | left stripping removes a prefix made only of whitespace and stops at the first other character |
| Text.StripRightSpec | util/translate_helper.py:40 | right stripping removes a suffix made only of whitespace and stops at the last other character |
| Text.StripSlice | util/translate_helper.py:40 | `strip()` returns a slice of the text with only whitespace outside it |
| Text.StripEnds | util/translate_helper.py:40 | a stripped text neither starts nor ends with whitespace |
| Text.StripEmpty | util/translate_helper.py:41 | a text strips to nothing exactly when it is all whitespace |
| Text.StripIdempotent | util/translate_helper.py:40 | stripping twice is stripping once |
| TranslateHelper.Prompt | util/translate_helper.py:39-45 | a prompt only ever asks about a non-empty term the folder map does not have |
| TranslateHelper.AskSkips | util/translate_helper.py:39-45 | a non-string, a text that strips to nothing, or a term the map already has prompts for nothing and leaves the map unchanged |
| TranslateHelper.AskAdds | util/translate_helper.py:40-56 | any other text adds exactly one entry at the end: the stripped text mapped to the stripped answer, or to itself when the answer is blank |
| TranslateHelper.TranslationStripped | util/translate_helper.py:50-53 | a stored translation is never blank and carries no surrounding whitespace |
| TranslateHelper.Asked | util/translate_helper.py:39-45 | one question prompts for at most one term, which is new to the map |
| TranslateHelper.StepsAppend | util/translate_helper.py:63-98 | running questions about `a` and then about `b` is running them about `a + b` |
| TranslateHelper.AskAllAppend | util/translate_helper.py:63-98 | asking about `a` then `b` is asking about `a + b`; the prompts for `a` come first |
| TranslateHelper.AskStep | util/translate_helper.py:44-55 | one question appends the prompted term, if any, to the keys, maps it to its translation, and keeps every existing value |
| TranslateHelper.AskAllGrows | util/translate_helper.py:44-56 | over a run the map only grows: its keys become the old keys followed by the prompted terms, and no existing value changes |
| TranslateHelper.FreshPromptsCons | util/translate_helper.py:44-55 | a first question's fresh prompt followed by prompts fresh for the map it left are together fresh for the original map |
| TranslateHelper.AskAllPromptsDistinct | util/translate_helper.py:44-55 | no term is prompted twice in a run, and none the map already had |
| TranslateHelper.AskAllStores | util/translate_helper.py:50-56 | every prompted term ends up mapped to its translation |
| TranslateHelper.AskAllKnows | util/translate_helper.py:40-55 | after a run, every string term that strips to something is a key of the map |
| TranslateHelper.DetailTermsComplete | util/translate_helper.py:88-93 | every key of `details.json` is asked about, every string value, and the `'he'` entry of every object value that has one |
| TranslateHelper.DetailTermsSound | util/translate_helper.py:88-93 | nothing else from `details.json` is asked about: every term comes from a key, a string value or an `'he'` entry |
| TranslateHelper.CoinDetailsSpec | util/translate_helper.py:22-30 | walking a coin's details raises exactly when its `details.json` holds a non-object JSON value; an object gives exactly its pairs; no file, a directory, non-JSON text or non-UTF-8 bytes give no pairs |
| TranslateHelper.SubdirNamesComplete | util/translate_helper.py:96-98 | every subdirectory of a coin folder is asked about by name |
| TranslateHelper.CoinsTermsRaised | util/translate_helper.py:78-93 | the coin loop of a year raises exactly when one of its coin folders has a non-object `details.json` |
| TranslateHelper.YearsTermsRaised | util/translate_helper.py:74-93 | the year loop of a series raises exactly when a coin folder of one of its years has a non-object `details.json` |
| TranslateHelper.FolderTermsRaised | util/translate_helper.py:66-98 | the folder walk of `scan_all` raises exactly when some coin folder three levels down has a `details.json` holding a non-object JSON value |
| TranslateHelper.CoinsTermsComplete | util/translate_helper.py:78-98 | a coin loop that does not raise asks about every term of each of its coin folders |
| TranslateHelper.YearsTermsComplete | util/translate_helper.py:74-98 | a year loop that does not raise asks about every term of each coin folder of each year |
| TranslateHelper.FolderTermsSeries | util/translate_helper.py:69-72 | a walk that does not raise asks about every series directory's name |
| TranslateHelper.FolderTermsComplete | util/translate_helper.py:69-98 | a walk that does not raise asks, for every coin folder, about its name, every term of its `details.json` object and every subtype folder's name |
| TranslateHelper.UiTermsFirst | util/translate_helper.py:63-98 | `scan_all` asks about every interface term first, and only then about the folder terms |
| TranslateHelper.UiTermsNotBlank | util/translate_helper.py:9-20 | no interface term is blank |
| TranslateHelper.ScanAllSpec | util/translate_helper.py:58-98 | after `scan_all` every interface term is a key; the map gained exactly the prompted terms, each once and each mapped to its translation; no earlier entry changed |
| TranslateHelper.ScanAllKnowsFolderTerm | util/translate_helper.py:58-98 | every folder term found before `scan_all` ends, raised or not, is a key afterwards when it strips to something |
| TranslateHelper.ScanAllKnowsFolders | util/translate_helper.py:66-98 | after a `scan_all` that does not raise, every non-blank series, coin and subtype name and every non-blank `details.json` term of every coin folder is a key of the folder map |
| DetailsPusher.Target | util/details_pusher.py:15-25 | a folder is found exactly when `f2` is a directory and `f3` is empty or names a directory entry of `f2`; it is that entry of `f2`, or `f2` itself when `f3` is empty |
| DetailsPusher.PutDetailsLookup | util/details_pusher.py:46-47 | after the write, `details.json` holds the merged object and every other entry of the folder is unchanged |
| DetailsPusher.Merge | util/details_pusher.py:30-47 | merging into a folder raises exactly when its `details.json` is a directory or not UTF-8 |
| DetailsPusher.AddFrom | util/details_pusher.py:13-48 | the loop keeps the listing's length and never goes back to a folder it has passed |
| DetailsPusher.MergeOverlay | util/details_pusher.py:42-47 | the new `details.json` is the loaded object overlaid by `data`: keys of `data` take `data`'s values, other keys keep theirs, and no key repeats; nothing else in the folder changes |
| DetailsPusher.MergeFromNothing | util/details_pusher.py:31-43 | a missing, non-JSON or non-object `details.json` counts as `{}`, so the written file holds exactly `data` |
| DetailsPusher.MergeIdempotent | util/details_pusher.py:43-47 | merging the same `data` into a folder again changes nothing |
| DetailsPusher.PushedIdempotent | util/details_pusher.py:13-47 | a folder that was written is still selected, and writing it again changes nothing |
| DetailsPusher.UnselectedUnchanged | util/details_pusher.py:13-25 | a folder that is not a directory, has no matching name part or lacks the `f3` directory is never touched |
| DetailsPusher.SelectedPushed | util/details_pusher.py:13-48 | a run that does not raise has written every selected folder |
| DetailsPusher.RaisedWhenUnreadable | util/details_pusher.py:31-38 | the run raises exactly when some selected folder's `details.json` is a directory or not UTF-8 |
| DetailsPusher.CountSelected | util/details_pusher.py:12-48 | a run that does not raise counts exactly the selected folders |
| DetailsPusher.AddJsonDataSpec | util/details_pusher.py:6-49 | a folder is updated exactly when it is selected (directory, name part, `f3` directory); unselected folders are untouched; the count is the number of selected folders; the run raises exactly on an unreadable `details.json` |
| DetailsPusher.NoPartsNoUpdate | util/details_pusher.py:19 | with no name parts nothing is selected, nothing is written and the count is 0 |
| DetailsPusher.NoopIsEmptySelection | util/details_pusher.py:3-4 | `noop_add_json_data` leaves every folder unchanged and counts 0, like `add_json_data` with no name parts |
| DetailsPusher.AddFromIdempotent | util/details_pusher.py:13-48 | running the loop again over the folders it left gives the same folders, count and outcome |
| DetailsPusher.AddJsonDataIdempotent | util/details_pusher.py:12-48 | a second run with the same data leaves the folders as the first left them, gives the same count, and raises exactly when the first did |
| FixEmptyFolders.VisibleFilesEmpty | util/fix_empty_folders.py:8-11 | a directory has no visible file exactly when every file in it has a name starting with `.` |
| FixEmptyFolders.CreateGitkeeps | util/fix_empty_folders.py:3-6 | the walk renames nothing, turns no file into a directory or back, and yields nothing for a file |
| FixEmptyFolders.WalkChildrenFace | util/fix_empty_folders.py:6-14 | walking into subdirectories changes neither the parent's visible files nor which names it has |
| FixEmptyFolders.CreateGitkeepsCovers | util/fix_empty_folders.py:6-18 | afterwards every directory, the start directory included, has a visible file or a `.gitkeep` |
| FixEmptyFolders.NoneCreatedIffCovered | util/fix_empty_folders.py:11-23 | the count is 0 exactly when every directory already has a visible file or a `.gitkeep` |
| FixEmptyFolders.CoveredUnchanged | util/fix_empty_folders.py:11-14 | a tree whose directories all have a visible file or a `.gitkeep` is left exactly as it is |
| FixEmptyFolders.CreateGitkeepsIdempotent | util/fix_empty_folders.py:6-18 | a second run creates nothing and changes nothing |
| FixEmptyFolders.CreateGitkeepsKeeps | util/fix_empty_folders.py:11-16 | nothing is deleted or overwritten; a directory gains one `.gitkeep` exactly when it has no visible file and no `.gitkeep`, and gains nothing otherwise |
| FixEmptyFolders.CreatedIsGrowth | util/fix_empty_folders.py:4-18 | the count equals the number of entries the walk added to the tree |

## Left out

- Flask routing, templates, static file serving and the `/about` page are HTTP plumbing. `/api/data` only pairs `scan_collection()` with `get_json_data` of `images/order.json`, which `Scanner.GetJsonDataFailOpen` covers.
- `thumbnailsGenerater.py` is not part of this model. It decodes and resizes images with PIL.
- Real file system access is a parameter. The listing of `images` is a given tree, and its order is whatever `os.listdir` returned. A missing `images` folder, which `scan_collection` creates and `scan_all` skips, is the empty listing. Symlinks, permission errors and files changing during a run are not modelled.
- JSON text parsing is not modelled. A file's content is the value `json.load` would return, or the fact that decoding fails. JSON numbers are kept opaque, and a JSON object is assumed to have no repeated key (`IsDict`, the `UniqueKeys` requirements).
- `print`, `input()` and `save_json` are not modelled. The user's answer is a function of the prompted term, which is exact because no term is prompted twice in a run (`TranslateHelper.AskAllPromptsDistinct`). What `save_json` persists is the returned map.
- Only a folder map that is a JSON object is modelled. `translate_helper` loads `folder_map.json` once at import time; a file holding another JSON value is left out.
- The hard-coded Hebrew data passed to `noop_add_json_data` at module level is not modelled. It is inert configuration.
- `os.path.join` is modelled on POSIX only. A Windows host's backslashes only matter through `replace("\\", "/")`, which is modelled.
- `f3` is modelled as a plain folder name or the empty string. A `folder3_name_part` containing `/`, or equal to `.` or `..`, is left out.
- The listing position of a newly written `details.json` or `.gitkeep` is not modelled. The model appends it; `os.listdir` order is arbitrary anyway.
- Text.Lower: folds ASCII letters only, where Python's `str.lower()` folds all of Unicode. On the five image extensions the two agree.
- `create_gitkeeps` walks hidden directories too, as `os.walk` does. It does not follow symlinked directories, and `os.walk`'s silently ignored listing errors are not modelled.
- Paths.SplitUrlPath: on POSIX a listed name may contain a backslash, such as `a\b.png`. `replace("\\", "/")` turns it into a `/`, so the reported path splits into different segments and names a file that does not exist. The round-trip lemmas require names without `/` or `\`.
- Names that are not valid Unicode cannot be represented. `os.listdir` returns them with surrogate escapes, and strings here are sequences of characters.
- `add_json_data` raises `FileNotFoundError` when `folder1_name` does not exist. The model takes the listing of `folder1_name` as given, so that error is not modelled.
