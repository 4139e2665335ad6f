/** Python `dict` values with string keys, as ordered association lists.
    A Python dict remembers the order in which keys were first inserted, and
    the programs modelled here both iterate over that order and write it back
    to disk, so a Dafny `map` would lose observable behaviour. */
module Dicts {
  import opened Wrappers

  type Dict<V> = seq<(string, V)>

  /** The keys, in insertion order. */
  function Keys<V>(d: Dict<V>): (ks: seq<string>)
    ensures |ks| == |d|
  {
    if d == [] then [] else [d[0].0] + Keys(d[1..])
  }

  predicate HasKey<V>(d: Dict<V>, k: string) {
    k in Keys(d)
  }

  /** A real Python dict never holds the same key twice. */
  predicate UniqueKeys<V>(d: Dict<V>) {
    d == [] || (!HasKey(d[1..], d[0].0) && UniqueKeys(d[1..]))
  }

  /** `d.get(k)`: the value stored under `k`, if any. */
  function Lookup<V>(d: Dict<V>, k: string): (r: Option<V>)
    ensures r.Some? <==> HasKey(d, k)
  {
    if d == [] then None
    else if d[0].0 == k then Some(d[0].1)
    else Lookup(d[1..], k)
  }

  /** `d[k] = v`: an existing key keeps its position and takes the new
      value; a new key is appended at the end. */
  function Store<V>(d: Dict<V>, k: string, v: V): (r: Dict<V>)
    ensures Lookup(r, k) == Some(v)
    ensures Keys(r) == if HasKey(d, k) then Keys(d) else Keys(d) + [k]
  {
    if d == [] then [(k, v)]
    else if d[0].0 == k then [(k, v)] + d[1..]
    else
      var rest := Store(d[1..], k, v);
      assert ([d[0]] + rest)[1..] == rest;
      [d[0]] + rest
  }

  /** Storing under `k` leaves every other key as it was. */
  lemma {:induction false} StoreOther<V>(d: Dict<V>, k: string, v: V, j: string)
    requires j != k
    ensures Lookup(Store(d, k, v), j) == Lookup(d, j)
  {
    if d != [] && d[0].0 != k {
      StoreOther(d[1..], k, v, j);
    }
  }

  lemma {:induction false} StoreUnique<V>(d: Dict<V>, k: string, v: V)
    requires UniqueKeys(d)
    ensures UniqueKeys(Store(d, k, v))
  {
    if d != [] && d[0].0 != k {
      StoreUnique(d[1..], k, v);
      var r := Store(d, k, v);
      assert r[1..] == Store(d[1..], k, v);
    }
  }

  /** `d.update(e)`: the items of `e` stored into `d` one by one, in the
      order of `e`. */
  function Update<V>(d: Dict<V>, e: Dict<V>): (r: Dict<V>)
    decreases |e|
  {
    if e == [] then d else Update(Store(d, e[0].0, e[0].1), e[1..])
  }

  /** The defining property of an overlay: every key of `e` maps to its
      value in `e`, and every other key keeps its value in `d` (so a key
      in neither stays absent). */
  lemma {:induction false} UpdateLookup<V>(d: Dict<V>, e: Dict<V>, k: string)
    requires UniqueKeys(e)
    ensures Lookup(Update(d, e), k) == if HasKey(e, k) then Lookup(e, k) else Lookup(d, k)
    decreases |e|
  {
    if e != [] {
      UpdateLookup(Store(d, e[0].0, e[0].1), e[1..], k);
      if k != e[0].0 {
        StoreOther(d, e[0].0, e[0].1, k);
      }
    }
  }

  /** Updating keeps `d`'s keys in place and appends the new keys of `e`
      after them, so the result is again a dict with the union of the
      keys. */
  lemma {:induction false} UpdateKeys<V>(d: Dict<V>, e: Dict<V>)
    requires UniqueKeys(d)
    ensures UniqueKeys(Update(d, e))
    ensures |Update(d, e)| >= |d|
    ensures Keys(Update(d, e))[..|d|] == Keys(d)
    ensures forall k :: HasKey(Update(d, e), k) <==> HasKey(d, k) || HasKey(e, k)
    decreases |e|
  {
    if e != [] {
      var s := Store(d, e[0].0, e[0].1);
      StoreUnique(d, e[0].0, e[0].1);
      UpdateKeys(s, e[1..]);
      var u := Keys(Update(d, e));
      assert Keys(s)[..|d|] == Keys(d);
      assert u[..|d|] == u[..|s|][..|d|];
      forall k
        ensures HasKey(Update(d, e), k) <==> HasKey(d, k) || HasKey(e, k)
      {
        assert Keys(e) == [e[0].0] + Keys(e[1..]);
        assert HasKey(s, k) <==> HasKey(d, k) || k == e[0].0;
      }
    }
  }

  /** Storing a value that is already there changes nothing. */
  lemma {:induction false} StoreSame<V>(d: Dict<V>, k: string, v: V)
    requires Lookup(d, k) == Some(v)
    ensures Store(d, k, v) == d
    decreases |d|
  {
    if d[0].0 != k {
      StoreSame(d[1..], k, v);
    }
  }

  /** Updating with items that are all already present changes nothing. */
  lemma {:induction false} UpdateAlreadyPresent<V>(d: Dict<V>, e: Dict<V>)
    requires forall i :: 0 <= i < |e| ==> Lookup(d, e[i].0) == Some(e[i].1)
    ensures Update(d, e) == d
    decreases |e|
  {
    if e != [] {
      StoreSame(d, e[0].0, e[0].1);
      UpdateAlreadyPresent(d, e[1..]);
    }
  }

  /** In a dict, looking up the key of an item finds that item's value. */
  lemma {:induction false} LookupItem<V>(e: Dict<V>, i: nat)
    requires UniqueKeys(e) && i < |e|
    ensures Lookup(e, e[i].0) == Some(e[i].1)
  {
    if i > 0 {
      LookupItem(e[1..], i - 1);
      assert e[i].0 in Keys(e[1..]) by {
        assert Keys(e[1..])[i - 1] == e[i].0 by { KeysIndex(e[1..], i - 1); }
      }
    }
  }

  lemma {:induction false} KeysIndex<V>(d: Dict<V>, i: nat)
    requires i < |d|
    ensures Keys(d)[i] == d[i].0
  {
    if i > 0 {
      KeysIndex(d[1..], i - 1);
    }
  }

  /** `d.update(e)` is idempotent: a second update with the same items
      leaves the dict as the first one left it. */
  lemma UpdateIdempotent<V>(d: Dict<V>, e: Dict<V>)
    requires UniqueKeys(e)
    ensures Update(Update(d, e), e) == Update(d, e)
  {
    var r := Update(d, e);
    forall i | 0 <= i < |e| ensures Lookup(r, e[i].0) == Some(e[i].1) {
      UpdateLookup(d, e, e[i].0);
      LookupItem(e, i);
    }
    UpdateAlreadyPresent(r, e);
  }

  /** Storing a key that is not yet present appends the item. */
  lemma {:induction false} StoreFresh<V>(d: Dict<V>, k: string, v: V)
    requires !HasKey(d, k)
    ensures Store(d, k, v) == d + [(k, v)]
  {
    if d != [] {
      assert Keys(d) == [d[0].0] + Keys(d[1..]);
      assert d[0].0 != k && !HasKey(d[1..], k);
      StoreFresh(d[1..], k, v);
      assert Store(d, k, v) == [d[0]] + Store(d[1..], k, v);
      assert d + [(k, v)] == [d[0]] + (d[1..] + [(k, v)]);
    }
  }

  /** Updating with a dict whose keys are all new appends its items in
      order; in particular `Update([], e) == e` for a dict `e`, which is
      how `{**a, **b}` copies `a` before overlaying `b`. */
  lemma {:induction false} UpdateFresh<V>(d: Dict<V>, e: Dict<V>)
    requires UniqueKeys(e)
    requires forall k :: k in Keys(e) ==> !HasKey(d, k)
    ensures Update(d, e) == d + e
    decreases |e|
  {
    if e != [] {
      var k0 := e[0].0;
      var tail := e[1..];
      assert d + e == (d + [e[0]]) + tail by {
        assert e == [e[0]] + tail;
      }
      assert Keys(e) == [k0] + Keys(tail);
      assert k0 in Keys(e);
      StoreFresh(d, k0, e[0].1);
      var s := d + [e[0]];
      assert Store(d, k0, e[0].1) == s;
      assert Keys(s) == Keys(d) + [k0] by {
        KeysAppend(d, [e[0]]);
        assert Keys([e[0]]) == [k0];
      }
      assert !HasKey(tail, k0);
      forall k | k in Keys(tail) ensures !HasKey(s, k) {
        assert k in Keys(e);
      }
      UpdateFresh(s, tail);
    }
  }

  lemma {:induction false} KeysAppend<V>(a: Dict<V>, b: Dict<V>)
    ensures Keys(a + b) == Keys(a) + Keys(b)
  {
    if a == [] {
      assert a + b == b;
    } else {
      KeysAppend(a[1..], b);
      assert (a + b)[1..] == a[1..] + b;
      assert (a + b)[0] == a[0];
    }
  }
}
