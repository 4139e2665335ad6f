/** The translation helper of `util/translate_helper.py`: it collects the
    Hebrew terms the site shows (interface strings, folder names, and the
    keys and values of `details.json` files) and asks the user for an
    English translation of every term the folder map does not know yet. */
module TranslateHelper {
  import opened Wrappers
  import opened Dicts
  import opened FileTree
  import opened Text

  /** `UI_TERMS`: the interface strings of the web page, in the order they
      are asked about. */
  const UiTerms: seq<string> := [
    "ארכיון המטבעות הישראלי",
    "לפי שנה",
    "לפי סוג",
    "אודות ותודות",
    "הצהרת נגישות",
    "חפש שנה, שם או סדרה...",
    "אין נתונים נוספים",
    "ללא תיוג",
    "שנה",
    "סדרה"
  ]

  // ---------------------------------------------------------------------
  // ask_translation

  /** The term `ask_translation(text)` prompts for: the stripped text, when
      `text` is a string, strips to something, and is not yet a key of the
      folder map. */
  function Prompt(m: Dict<Json>, text: Json): (r: Option<string>)
    ensures r.Some? ==> r.value != [] && !HasKey(m, r.value)
  {
    if !text.JStr? then None
    else
      var t := Strip(text.s);
      if t == [] || HasKey(m, t) then None else Some(t)
  }

  /** What is stored for a prompted term: the user's answer stripped, or
      the term itself when the answer strips to nothing. The user is a
      function of the term: each term is prompted at most once per run
      (`AskAllPromptsDistinct`), so nothing is lost. */
  function Translation(t: string, user: string -> string): string {
    var e := Strip(user(t));
    if e == [] then t else e
  }

  /** `ask_translation(text)` on the folder map `m`. */
  function AskTranslation(m: Dict<Json>, text: Json, user: string -> string): (r: Dict<Json>) {
    match Prompt(m, text)
    case None => m
    case Some(t) => Store(m, t, JStr(Translation(t, user)))
  }

  /** A non-string, a text that strips to nothing, or a term the map
      already knows prompts for nothing and leaves the map as it is. */
  lemma AskSkips(m: Dict<Json>, text: Json, user: string -> string)
    requires !text.JStr? || AllSpace(text.s) || HasKey(m, Strip(text.s))
    ensures Asked(m, text) == []
    ensures AskTranslation(m, text, user) == m
  {
    if text.JStr? {
      StripEmpty(text.s);
    }
  }

  /** Any other text adds exactly one entry at the end: the stripped text
      mapped to the stripped answer, or to itself when the answer is
      blank. */
  lemma AskAdds(m: Dict<Json>, text: Json, user: string -> string)
    requires text.JStr? && !AllSpace(text.s) && !HasKey(m, Strip(text.s))
    ensures var t := Strip(text.s);
            var e := Strip(user(t));
            AskTranslation(m, text, user) == m + [(t, JStr(if AllSpace(user(t)) then t else e))]
  {
    var t := Strip(text.s);
    StripEmpty(text.s);
    StripEmpty(user(t));
    StoreFresh(m, t, JStr(Translation(t, user)));
  }

  /** The stored translation is never blank and carries no surrounding
      whitespace. */
  lemma TranslationStripped(t: string, user: string -> string)
    requires t != [] && Strip(t) == t
    ensures Translation(t, user) != []
    ensures Strip(Translation(t, user)) == Translation(t, user)
  {
    StripIdempotent(user(t));
  }

  // ---------------------------------------------------------------------
  // A sequence of questions

  /** The folder map after a run, and the terms prompted for, in order. */
  datatype Run = Run(folderMap: Dict<Json>, prompts: seq<string>)

  /** The prompt of one question as a list: the term, or nothing. */
  function Asked(m: Dict<Json>, text: Json): (r: seq<string>)
    ensures |r| <= 1
    ensures FreshPrompts(m, r)
  {
    match Prompt(m, text)
    case None => []
    case Some(t) => [t]
  }

  /** Questions asked one after another: each `step` sees the map the
      previous ones left. */
  function Steps(step: (Dict<Json>, Json) -> Run, m: Dict<Json>, terms: seq<Json>): Run
    decreases |terms|
  {
    if terms == [] then Run(m, [])
    else
      var s := step(m, terms[0]);
      var r := Steps(step, s.folderMap, terms[1..]);
      Run(r.folderMap, s.prompts + r.prompts)
  }

  /** Running `a` and then `b` is running `a + b`. */
  lemma {:induction false} StepsAppend(step: (Dict<Json>, Json) -> Run, m: Dict<Json>, a: seq<Json>, b: seq<Json>)
    ensures var ra := Steps(step, m, a);
            var rb := Steps(step, ra.folderMap, b);
            Steps(step, m, a + b) == Run(rb.folderMap, ra.prompts + rb.prompts)
    decreases |a|
  {
    if a == [] {
      assert a + b == b;
    } else {
      var s := step(m, a[0]);
      assert (a + b)[0] == a[0];
      assert (a + b)[1..] == a[1..] + b;
      StepsAppend(step, s.folderMap, a[1..], b);
      var ra1 := Steps(step, s.folderMap, a[1..]);
      var rb := Steps(step, ra1.folderMap, b);
      assert s.prompts + (ra1.prompts + rb.prompts) == (s.prompts + ra1.prompts) + rb.prompts;
    }
  }

  /** One `ask_translation`: the map after it and what it prompted. */
  function Ask(user: string -> string): (Dict<Json>, Json) -> Run {
    (m: Dict<Json>, text: Json) => Run(AskTranslation(m, text, user), Asked(m, text))
  }

  /** `ask_translation` applied to each of `terms` in turn. */
  function AskAll(m: Dict<Json>, terms: seq<Json>, user: string -> string): Run {
    Steps(Ask(user), m, terms)
  }

  /** Asking about `a` and then `b` is asking about `a + b`: the prompts
      for `a` all come before those for `b`. */
  lemma AskAllAppend(m: Dict<Json>, a: seq<Json>, b: seq<Json>, user: string -> string)
    ensures var ra := AskAll(m, a, user);
            var rb := AskAll(ra.folderMap, b, user);
            AskAll(m, a + b, user) == Run(rb.folderMap, ra.prompts + rb.prompts)
  {
    StepsAppend(Ask(user), m, a, b);
  }

  /** The first question of a run, and the rest. */
  lemma AskAllCons(m: Dict<Json>, terms: seq<Json>, user: string -> string)
    requires terms != []
    ensures var r := AskAll(AskTranslation(m, terms[0], user), terms[1..], user);
            AskAll(m, terms, user) == Run(r.folderMap, Asked(m, terms[0]) + r.prompts)
  {
  }

  /** One question adds the prompted term, if any, at the end of the
      keys, maps it to its translation, and keeps every other entry. */
  lemma AskStep(m: Dict<Json>, text: Json, user: string -> string, k: string)
    ensures Keys(AskTranslation(m, text, user)) == Keys(m) + Asked(m, text)
    ensures HasKey(m, k) ==> Lookup(AskTranslation(m, text, user), k) == Lookup(m, k)
    ensures Prompt(m, text).Some?
            ==> Lookup(AskTranslation(m, text, user), Prompt(m, text).value)
                == Some(JStr(Translation(Prompt(m, text).value, user)))
  {
    match Prompt(m, text)
    case None =>
    case Some(t) =>
      var v := JStr(Translation(t, user));
      StoreFresh(m, t, v);
      KeysAppend(m, [(t, v)]);
      if HasKey(m, k) {
        StoreOther(m, t, v, k);
      }
  }

  /** The map only grows: its keys become the old keys followed by the
      prompted terms, and every key it had keeps its value. */
  lemma {:induction false} AskAllGrows(m: Dict<Json>, terms: seq<Json>, user: string -> string, k: string)
    ensures Keys(AskAll(m, terms, user).folderMap) == Keys(m) + AskAll(m, terms, user).prompts
    ensures HasKey(m, k) ==> Lookup(AskAll(m, terms, user).folderMap, k) == Lookup(m, k)
    decreases |terms|
  {
    if terms != [] {
      var m1 := AskTranslation(m, terms[0], user);
      AskAllCons(m, terms, user);
      AskStep(m, terms[0], user, k);
      AskAllGrows(m1, terms[1..], user, k);
    }
  }

  /** The terms `ps` are pairwise distinct and none is a key of `m`. */
  predicate FreshPrompts(m: Dict<Json>, ps: seq<string>) {
    && (forall i, j :: 0 <= i < j < |ps| ==> ps[i] != ps[j])
    && (forall i :: 0 <= i < |ps| ==> !HasKey(m, ps[i]))
  }

  /** Terms fresh for the map a first question left behind, after that
      question's own fresh prompt, are fresh for the map before it. */
  lemma FreshPromptsCons(m: Dict<Json>, m1: Dict<Json>, head: seq<string>, rest: seq<string>)
    requires Keys(m1) == Keys(m) + head
    requires FreshPrompts(m, head) && FreshPrompts(m1, rest)
    ensures FreshPrompts(m, head + rest)
  {
    var ps := head + rest;
    forall i | 0 <= i < |rest|
      ensures !HasKey(m, rest[i]) && rest[i] !in head
    {
      assert !HasKey(m1, rest[i]);
    }
    forall i, j | 0 <= i < j < |ps|
      ensures ps[i] != ps[j]
    {
      if i >= |head| {
        assert ps[i] == rest[i - |head|] && ps[j] == rest[j - |head|];
      } else if j >= |head| {
        assert ps[j] == rest[j - |head|];
      }
    }
    forall i | 0 <= i < |ps|
      ensures !HasKey(m, ps[i])
    {
      if i >= |head| {
        assert ps[i] == rest[i - |head|];
      }
    }
  }

  /** No term is prompted twice, and none the map knew beforehand. */
  lemma {:induction false} AskAllPromptsDistinct(m: Dict<Json>, terms: seq<Json>, user: string -> string)
    ensures FreshPrompts(m, AskAll(m, terms, user).prompts)
    decreases |terms|
  {
    if terms != [] {
      var m1 := AskTranslation(m, terms[0], user);
      AskAllPromptsDistinct(m1, terms[1..], user);
      AskAllCons(m, terms, user);
      AskStep(m, terms[0], user, "");
      FreshPromptsCons(m, m1, Asked(m, terms[0]), AskAll(m1, terms[1..], user).prompts);
    }
  }

  /** Every prompted term is mapped to its translation at the end. */
  lemma {:induction false} AskAllStores(m: Dict<Json>, terms: seq<Json>, user: string -> string, i: nat)
    requires i < |AskAll(m, terms, user).prompts|
    ensures var r := AskAll(m, terms, user);
            Lookup(r.folderMap, r.prompts[i]) == Some(JStr(Translation(r.prompts[i], user)))
    decreases |terms|
  {
    var m1 := AskTranslation(m, terms[0], user);
    AskAllCons(m, terms, user);
    var head := Asked(m, terms[0]);
    var rest := AskAll(m1, terms[1..], user).prompts;
    if i < |head| {
      var t := Prompt(m, terms[0]).value;
      AskStep(m, terms[0], user, t);
      assert HasKey(m1, t);
      AskAllGrows(m1, terms[1..], user, t);
    } else {
      AskAllStores(m1, terms[1..], user, i - |head|);
    }
  }

  /** After the run, every string term that strips to something is a key
      of the map. */
  lemma {:induction false} AskAllKnows(m: Dict<Json>, terms: seq<Json>, user: string -> string, i: nat)
    requires i < |terms| && terms[i].JStr? && !AllSpace(terms[i].s)
    ensures HasKey(AskAll(m, terms, user).folderMap, Strip(terms[i].s))
    decreases |terms|
  {
    var m1 := AskTranslation(m, terms[0], user);
    AskAllCons(m, terms, user);
    if i > 0 {
      AskAllKnows(m1, terms[1..], user, i - 1);
    } else {
      var t := Strip(terms[0].s);
      StripEmpty(terms[0].s);
      assert HasKey(m1, t);
      AskAllGrows(m1, terms[1..], user, t);
    }
  }

  // ---------------------------------------------------------------------
  // scan_all: the terms, in the order they are asked about

  /** The terms collected so far, and whether collecting raised. */
  datatype TermScan = TermScan(terms: seq<Json>, raised: bool)

  /** Python's sequencing of two collecting steps: an exception in the
      first ends the scan. */
  function Then(a: TermScan, b: TermScan): (r: TermScan)
    ensures a.raised ==> r == a
    ensures !a.raised ==> r.terms == a.terms + b.terms && r.raised == b.raised
  {
    if a.raised then a else TermScan(a.terms + b.terms, b.raised)
  }

  /** The terms of one `details.json` pair: the key always; the value when
      it is a string; its `'he'` entry when it is an object that has one. */
  function ItemTerms(k: string, v: Json): seq<Json> {
    [JStr(k)] + (if v.JStr? then [v]
                 else if v.JObj? && HasKey(v.fields, "he") then [Lookup(v.fields, "he").value]
                 else [])
  }

  /** The terms of the pairs of a `details.json` object, in their order. */
  function DetailTerms(items: Dict<Json>): seq<Json>
    decreases |items|
  {
    if items == [] then [] else ItemTerms(items[0].0, items[0].1) + DetailTerms(items[1..])
  }

  /** The term `t` is asked about because of the pair `(k, v)`. */
  predicate FromItem(t: Json, k: string, v: Json) {
    t == JStr(k) || (v.JStr? && t == v) || (v.JObj? && HasKey(v.fields, "he") && t == Lookup(v.fields, "he").value)
  }

  /** Every key is asked about, every string value, and the `'he'` entry
      of every object value that has one. */
  lemma {:induction false} DetailTermsComplete(items: Dict<Json>, i: nat)
    requires i < |items|
    ensures JStr(items[i].0) in DetailTerms(items)
    ensures items[i].1.JStr? ==> items[i].1 in DetailTerms(items)
    ensures items[i].1.JObj? && HasKey(items[i].1.fields, "he")
            ==> Lookup(items[i].1.fields, "he").value in DetailTerms(items)
    decreases |items|
  {
    var head := ItemTerms(items[0].0, items[0].1);
    assert DetailTerms(items) == head + DetailTerms(items[1..]);
    if i > 0 {
      DetailTermsComplete(items[1..], i - 1);
      assert items[1..][i - 1] == items[i];
    }
  }

  /** Nothing else is asked about: every term comes from some pair. */
  lemma {:induction false} DetailTermsSound(items: Dict<Json>, t: Json)
    requires t in DetailTerms(items)
    ensures exists i :: 0 <= i < |items| && FromItem(t, items[i].0, items[i].1)
    decreases |items|
  {
    var head := ItemTerms(items[0].0, items[0].1);
    assert DetailTerms(items) == head + DetailTerms(items[1..]);
    if t in head {
      assert FromItem(t, items[0].0, items[0].1);
    } else {
      DetailTermsSound(items[1..], t);
      var j :| 0 <= j < |items[1..]| && FromItem(t, items[1..][j].0, items[1..][j].1);
      assert items[1..][j] == items[j + 1];
    }
  }

  /** The names of the entries that are directories, in listing order. */
  function SubdirNames(children: seq<Node>): seq<Json>
    decreases |children|
  {
    if children == [] then []
    else (if children[0].Dir? then [JStr(children[0].name)] else []) + SubdirNames(children[1..])
  }

  /** The pairs `scan_all` walks for a coin folder, or `None` when
      `data.items()` raises: `load_json` turns a missing, unreadable or
      unparsable file into `{}`, but a file holding another JSON value
      than an object has no `items`. */
  function CoinDetails(children: seq<Node>): Option<Dict<Json>> {
    match Child(children, DetailsFile)
    case Some(File(_, JsonText(j))) => if j.JObj? then Some(j.fields) else None
    case _ => Some([])
  }

  /** The terms of a coin folder: its name, the terms of its details, and
      the names of its subtype folders. */
  function CoinTerms(coin: Node): TermScan
    requires coin.Dir?
  {
    match CoinDetails(coin.children)
    case None => TermScan([JStr(coin.name)], true)
    case Some(items) => TermScan([JStr(coin.name)] + DetailTerms(items) + SubdirNames(coin.children), false)
  }

  /** `for coin in os.listdir(y_path)`, skipping non-directories. */
  function CoinsTerms(coins: seq<Node>): TermScan
    decreases |coins|
  {
    if coins == [] then TermScan([], false)
    else Then(if coins[0].Dir? then CoinTerms(coins[0]) else TermScan([], false), CoinsTerms(coins[1..]))
  }

  /** `for year in os.listdir(path)`, skipping non-directories. */
  function YearsTerms(years: seq<Node>): TermScan
    decreases |years|
  {
    if years == [] then TermScan([], false)
    else Then(if years[0].Dir? then CoinsTerms(years[0].children) else TermScan([], false), YearsTerms(years[1..]))
  }

  /** `for series in os.listdir(IMAGE_FOLDER)`, skipping non-directories:
      the series name, then the terms of its years. */
  function FolderTerms(listing: seq<Node>): TermScan
    decreases |listing|
  {
    if listing == [] then TermScan([], false)
    else
      var s := listing[0];
      var here := if s.Dir? then Then(TermScan([JStr(s.name)], false), YearsTerms(s.children)) else TermScan([], false);
      Then(here, FolderTerms(listing[1..]))
  }

  // ---------------------------------------------------------------------
  // Properties of the folder walk

  /** The folder's `details.json` holds a JSON value that is not an
      object, which has no `items()`. */
  predicate NonObjectDetails(children: seq<Node>) {
    var d := Child(children, DetailsFile);
    d.Some? && d.value.File? && d.value.body.JsonText? && !d.value.body.value.JObj?
  }

  /** `load_json` and `data.items()`: walking the details raises exactly
      on a non-object; an object gives its pairs; anything else (no file,
      a directory, text that is not JSON, bytes that are not UTF-8) gives
      no pairs. */
  lemma CoinDetailsSpec(children: seq<Node>, fields: Dict<Json>)
    ensures CoinDetails(children).None? <==> NonObjectDetails(children)
    ensures Child(children, DetailsFile) == Some(File(DetailsFile, JsonText(JObj(fields))))
            ==> CoinDetails(children) == Some(fields)
    ensures CoinDetails(children).Some? && CoinDetails(children).value != []
            ==> Child(children, DetailsFile) == Some(File(DetailsFile, JsonText(JObj(CoinDetails(children).value))))
  {
  }

  /** Every directory entry's name is among the subtype names. */
  lemma {:induction false} SubdirNamesComplete(children: seq<Node>, l: nat)
    requires l < |children| && children[l].Dir?
    ensures JStr(children[l].name) in SubdirNames(children)
    decreases |children|
  {
    if l > 0 {
      SubdirNamesComplete(children[1..], l - 1);
      assert children[1..][l - 1] == children[l];
    }
  }

  /** The coin folder `coins[k]` has a non-object `details.json`. */
  predicate CoinRaises(coins: seq<Node>, k: int) {
    0 <= k < |coins| && coins[k].Dir? && NonObjectDetails(coins[k].children)
  }

  /** The coin folder `years[j] / coin k` has a non-object
      `details.json`. */
  predicate YearCoinRaises(years: seq<Node>, j: int, k: int) {
    0 <= j < |years| && years[j].Dir? && CoinRaises(years[j].children, k)
  }

  /** The coin folder `listing[i] / year j / coin k` has a non-object
      `details.json`. */
  predicate FolderRaises(listing: seq<Node>, i: int, j: int, k: int) {
    0 <= i < |listing| && listing[i].Dir? && YearCoinRaises(listing[i].children, j, k)
  }

  lemma {:induction false} CoinsTermsRaised(coins: seq<Node>)
    ensures CoinsTerms(coins).raised <==> exists k :: CoinRaises(coins, k)
    decreases |coins|
  {
    if coins != [] {
      CoinsTermsRaised(coins[1..]);
      if coins[0].Dir? {
        CoinDetailsSpec(coins[0].children, []);
        if NonObjectDetails(coins[0].children) {
          assert CoinRaises(coins, 0);
        }
      }
      forall k | 0 < k < |coins|
        ensures CoinRaises(coins, k) <==> CoinRaises(coins[1..], k - 1)
      {
        assert coins[1..][k - 1] == coins[k];
      }
      if CoinsTerms(coins[1..]).raised {
        var k :| CoinRaises(coins[1..], k);
        assert CoinRaises(coins, k + 1);
      }
    }
  }

  lemma {:induction false} YearsTermsRaised(years: seq<Node>)
    ensures YearsTerms(years).raised <==> exists j, k :: YearCoinRaises(years, j, k)
    decreases |years|
  {
    if years != [] {
      YearsTermsRaised(years[1..]);
      if years[0].Dir? {
        CoinsTermsRaised(years[0].children);
        if CoinsTerms(years[0].children).raised {
          var k :| CoinRaises(years[0].children, k);
          assert YearCoinRaises(years, 0, k);
        }
      }
      forall j, k | 0 < j < |years|
        ensures YearCoinRaises(years, j, k) <==> YearCoinRaises(years[1..], j - 1, k)
      {
        assert years[1..][j - 1] == years[j];
      }
      if YearsTerms(years[1..]).raised {
        var j, k :| YearCoinRaises(years[1..], j, k);
        assert YearCoinRaises(years, j + 1, k);
      }
    }
  }

  /** `scan_all` raises exactly when some coin folder, three levels below
      the image folder, has a `details.json` holding a JSON value that is
      not an object. */
  lemma {:induction false} FolderTermsRaised(listing: seq<Node>)
    ensures FolderTerms(listing).raised <==> exists i, j, k :: FolderRaises(listing, i, j, k)
    decreases |listing|
  {
    if listing != [] {
      FolderTermsRaised(listing[1..]);
      if listing[0].Dir? {
        YearsTermsRaised(listing[0].children);
        if YearsTerms(listing[0].children).raised {
          var j, k :| YearCoinRaises(listing[0].children, j, k);
          assert FolderRaises(listing, 0, j, k);
        }
      }
      forall i, j, k | 0 < i < |listing|
        ensures FolderRaises(listing, i, j, k) <==> FolderRaises(listing[1..], i - 1, j, k)
      {
        assert listing[1..][i - 1] == listing[i];
      }
      if FolderTerms(listing[1..]).raised {
        var i, j, k :| FolderRaises(listing[1..], i, j, k);
        assert FolderRaises(listing, i + 1, j, k);
      }
    }
  }

  /** Every term of a coin folder that does not raise is asked about: the
      coin's name, the terms of its details, and its subtype names. */
  lemma {:induction false} CoinsTermsComplete(coins: seq<Node>, k: nat)
    requires k < |coins| && coins[k].Dir?
    requires !CoinsTerms(coins).raised
    ensures !CoinTerms(coins[k]).raised
    ensures forall t :: t in CoinTerms(coins[k]).terms ==> t in CoinsTerms(coins).terms
    decreases |coins|
  {
    if k > 0 {
      CoinsTermsComplete(coins[1..], k - 1);
      assert coins[1..][k - 1] == coins[k];
    }
  }

  lemma {:induction false} YearsTermsComplete(years: seq<Node>, j: nat, k: nat)
    requires j < |years| && years[j].Dir? && k < |years[j].children| && years[j].children[k].Dir?
    requires !YearsTerms(years).raised
    ensures !CoinTerms(years[j].children[k]).raised
    ensures forall t :: t in CoinTerms(years[j].children[k]).terms ==> t in YearsTerms(years).terms
    decreases |years|
  {
    if j > 0 {
      YearsTermsComplete(years[1..], j - 1, k);
      assert years[1..][j - 1] == years[j];
    } else {
      CoinsTermsComplete(years[0].children, k);
    }
  }

  /** A `scan_all` that does not raise asks about every series name. */
  lemma {:induction false} FolderTermsSeries(listing: seq<Node>, i: nat)
    requires i < |listing| && listing[i].Dir?
    requires !FolderTerms(listing).raised
    ensures JStr(listing[i].name) in FolderTerms(listing).terms
    decreases |listing|
  {
    if i > 0 {
      FolderTermsSeries(listing[1..], i - 1);
      assert listing[1..][i - 1] == listing[i];
    }
  }

  /** A `scan_all` that does not raise asks, for every coin folder, about
      the coin's name, every term of its `details.json` object and the
      name of every subtype folder. */
  lemma {:induction false} FolderTermsComplete(listing: seq<Node>, i: nat, j: nat, k: nat)
    requires CoinFolderAt(listing, i, j, k)
    requires !FolderTerms(listing).raised
    ensures var coin := listing[i].children[j].children[k];
            && CoinDetails(coin.children).Some?
            && JStr(coin.name) in FolderTerms(listing).terms
            && (forall t :: t in DetailTerms(CoinDetails(coin.children).value) ==> t in FolderTerms(listing).terms)
            && (forall l :: 0 <= l < |coin.children| && coin.children[l].Dir?
                            ==> JStr(coin.children[l].name) in FolderTerms(listing).terms)
    decreases |listing|
  {
    if i > 0 {
      FolderTermsComplete(listing[1..], i - 1, j, k);
      assert listing[1..][i - 1] == listing[i];
    } else {
      var coin := listing[0].children[j].children[k];
      YearsTermsComplete(listing[0].children, j, k);
      forall l | 0 <= l < |coin.children| && coin.children[l].Dir?
        ensures JStr(coin.children[l].name) in FolderTerms(listing).terms
      {
        SubdirNamesComplete(coin.children, l);
      }
    }
  }

  /** The interface terms as the JSON strings `ask_translation` receives. */
  function UiTermValues(): (r: seq<Json>)
    ensures |r| == |UiTerms|
    ensures forall i :: 0 <= i < |r| ==> r[i] == JStr(UiTerms[i])
  {
    seq(|UiTerms|, i requires 0 <= i < |UiTerms| => JStr(UiTerms[i]))
  }

  /** The result of `scan_all`: the folder map, the prompted terms in
      order, and whether the run raised. Each answer is saved as soon as it
      is given, so a raised run keeps the answers given before. */
  datatype ScanResult = ScanResult(folderMap: Dict<Json>, prompts: seq<string>, raised: bool)

  /** `scan_all()` on the folder map `m` and the listing of the image
      folder (empty when the folder does not exist). */
  function ScanAll(m: Dict<Json>, listing: seq<Node>, user: string -> string): ScanResult {
    var f := FolderTerms(listing);
    var r := AskAll(m, UiTermValues() + f.terms, user);
    ScanResult(r.folderMap, r.prompts, f.raised)
  }

  /** `scan_all` asks about every interface term first, in list order, and
      only then about the folder terms. */
  lemma UiTermsFirst(m: Dict<Json>, listing: seq<Node>, user: string -> string)
    ensures var ui := AskAll(m, UiTermValues(), user);
            var rest := AskAll(ui.folderMap, FolderTerms(listing).terms, user);
            && ScanAll(m, listing, user).prompts == ui.prompts + rest.prompts
            && ScanAll(m, listing, user).folderMap == rest.folderMap
  {
    AskAllAppend(m, UiTermValues(), FolderTerms(listing).terms, user);
  }

  /** No interface term is blank. */
  lemma UiTermsNotBlank(i: nat)
    requires i < |UiTerms|
    ensures !AllSpace(UiTerms[i])
  {
    assert !IsSpace(UiTerms[i][0]);
  }

  /** After `scan_all`, every interface term is a key of the folder map,
      and the map gained exactly the prompted terms, each once, each
      mapped to its translation; no earlier entry changed. */
  lemma ScanAllSpec(m: Dict<Json>, listing: seq<Node>, user: string -> string)
    ensures var r := ScanAll(m, listing, user);
            && (forall i :: 0 <= i < |UiTerms| ==> HasKey(r.folderMap, Strip(UiTerms[i])))
            && Keys(r.folderMap) == Keys(m) + r.prompts
            && |r.folderMap| == |m| + |r.prompts|
            && (forall i, j :: 0 <= i < j < |r.prompts| ==> r.prompts[i] != r.prompts[j])
            && (forall i :: 0 <= i < |r.prompts| ==> Lookup(r.folderMap, r.prompts[i]) == Some(JStr(Translation(r.prompts[i], user))))
            && (forall k :: HasKey(m, k) ==> Lookup(r.folderMap, k) == Lookup(m, k))
  {
    var terms := UiTermValues() + FolderTerms(listing).terms;
    var r := ScanAll(m, listing, user);
    forall i | 0 <= i < |UiTerms|
      ensures HasKey(r.folderMap, Strip(UiTerms[i]))
    {
      UiTermsNotBlank(i);
      assert terms[i] == JStr(UiTerms[i]);
      AskAllKnows(m, terms, user, i);
    }
    AskAllGrows(m, terms, user, "");
    AskAllPromptsDistinct(m, terms, user);
    assert FreshPrompts(m, r.prompts);
    forall i | 0 <= i < |r.prompts|
      ensures Lookup(r.folderMap, r.prompts[i]) == Some(JStr(Translation(r.prompts[i], user)))
    {
      AskAllStores(m, terms, user, i);
    }
    forall k | HasKey(m, k)
      ensures Lookup(r.folderMap, k) == Lookup(m, k)
    {
      AskAllGrows(m, terms, user, k);
    }
  }

  /** Every folder term that strips to something is a key after
      `scan_all`, whether or not the run raised: the terms found before
      the exception were asked about as they were found. */
  lemma ScanAllKnowsFolderTerm(m: Dict<Json>, listing: seq<Node>, user: string -> string, t: Json)
    requires t in FolderTerms(listing).terms && t.JStr? && !AllSpace(t.s)
    ensures HasKey(ScanAll(m, listing, user).folderMap, Strip(t.s))
  {
    var f := FolderTerms(listing).terms;
    var terms := UiTermValues() + f;
    var p :| 0 <= p < |f| && f[p] == t;
    assert terms[|UiTermValues()| + p] == t;
    AskAllKnows(m, terms, user, |UiTermValues()| + p);
  }

  /** After a `scan_all` that does not raise, the name of every series,
      of every coin folder and of every subtype folder, and every term of
      every coin's `details.json` object, is a key of the folder map
      whenever it strips to something. */
  lemma ScanAllKnowsFolders(m: Dict<Json>, listing: seq<Node>, user: string -> string, i: nat, j: nat, k: nat)
    requires CoinFolderAt(listing, i, j, k)
    requires !FolderTerms(listing).raised
    ensures !ScanAll(m, listing, user).raised
    ensures var r := ScanAll(m, listing, user).folderMap;
            var coin := listing[i].children[j].children[k];
            && (!AllSpace(listing[i].name) ==> HasKey(r, Strip(listing[i].name)))
            && (!AllSpace(coin.name) ==> HasKey(r, Strip(coin.name)))
            && (forall l :: 0 <= l < |coin.children| && coin.children[l].Dir? && !AllSpace(coin.children[l].name)
                            ==> HasKey(r, Strip(coin.children[l].name)))
            && CoinDetails(coin.children).Some?
            && (forall t :: t in DetailTerms(CoinDetails(coin.children).value) && t.JStr? && !AllSpace(t.s)
                            ==> HasKey(r, Strip(t.s)))
  {
    var coin := listing[i].children[j].children[k];
    FolderTermsSeries(listing, i);
    FolderTermsComplete(listing, i, j, k);
    if !AllSpace(listing[i].name) {
      ScanAllKnowsFolderTerm(m, listing, user, JStr(listing[i].name));
    }
    if !AllSpace(coin.name) {
      ScanAllKnowsFolderTerm(m, listing, user, JStr(coin.name));
    }
    forall l | 0 <= l < |coin.children| && coin.children[l].Dir? && !AllSpace(coin.children[l].name)
      ensures HasKey(ScanAll(m, listing, user).folderMap, Strip(coin.children[l].name))
    {
      ScanAllKnowsFolderTerm(m, listing, user, JStr(coin.children[l].name));
    }
    forall t | t in DetailTerms(CoinDetails(coin.children).value) && t.JStr? && !AllSpace(t.s)
      ensures HasKey(ScanAll(m, listing, user).folderMap, Strip(t.s))
    {
      ScanAllKnowsFolderTerm(m, listing, user, t);
    }
  }
}
