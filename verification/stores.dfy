/**
 * The two maps every `DictObject` keeps, and the item operations that both
 * versions of the library perform on them in the same way: reading an item,
 * `__setitem__` (name derivation, the search for a free numbered name, then the
 * writes) and `__delitem__`. The two versions differ only in how they wrap a
 * value before storing it, so `SetItem` receives the wrapping's result.
 */
module Stores {
  import opened DictKeys
  import opened Results
  import opened Dicts
  import opened Naming
  import opened Values

  /** The dict part (`entries`) and `_attribute_to_key_map` (`index`, attribute name to key). */
  datatype Store = Store(entries: seq<(Key, Value)>, index: map<string, Key>)

  /** The state a mutator leaves behind, and the exception it raised after getting that far. */
  datatype Outcome = Outcome(store: Store, error: Option<Error>)

  /** The warning `__setitem__` prints: `key` was mapped to `name` because `holder` has `base`. */
  datatype Collision = Collision(key: Key, name: string, base: string, holder: Key)

  const Empty := Store([], map[])

  /** Every registered name leads to an item that exists. */
  predicate Resolvable(st: Store) {
    forall name :: name in st.index ==> st.index[name] in Keys(st.entries)
  }

  /** `dict.__getitem__`. */
  function Lookup(st: Store, key: Key): (r: Result<Value>)
    ensures r.Ok? <==> key in Keys(st.entries)
    ensures r.Err? ==> r.error == KeyError(key)
    ensures r.Ok? ==> Get(st.entries, key) == Some(r.value)
  {
    match Get(st.entries, key)
    case Some(v) => Ok(v)
    case None => Err(KeyError(key))
  }

  /** The warning `__setitem__` prints before it writes anything, if the base name of `key` is
      held by another key. */
  function Warning(st: Store, key: Key): (w: Option<Collision>)
    requires AttributeName(key).Ok?
    ensures w.Some? <==> !FreeFor(st.index, AttributeName(key).value, key)
    ensures w.Some? ==> w.value.name != w.value.base && w.value.holder != key
    ensures w.Some? ==>
      var base := AttributeName(key).value;
      && w.value.key == key
      && w.value.base == base
      && base in st.index && w.value.holder == st.index[base]
      && w.value.name == ResolvedName(st.index, key, base)
  {
    var base := AttributeName(key).value;
    if FreeFor(st.index, base, key) then None
    else
      SuffixedNotBase(base, SmallestFreeSuffix(st.index, key, base));
      Some(Collision(key, ResolvedName(st.index, key, base), base, st.index[base]))
  }

  lemma SuffixedNotBase(base: string, n: nat)
    ensures Suffixed(base, n) != base
  {
    assert |Suffixed(base, n)| > |base|;
  }

  /** `__setitem__(key, value)`, where `wrapped` is the outcome of wrapping `value`. The name
      derivation may raise first and the wrapping next, both before anything is written.
      Otherwise `key` holds the wrapped value, `key` is registered under its resolved name,
      and no other item and no other registration changes. */
  function SetItem(st: Store, key: Key, wrapped: Result<Value>): (r: Outcome)
    ensures AttributeName(key).Err? ==> r == Outcome(st, Some(IndexError))
    ensures AttributeName(key).Ok? && wrapped.Err? ==> r == Outcome(st, Some(wrapped.error))
    ensures r.error.None? <==> AttributeName(key).Ok? && wrapped.Ok?
    ensures r.error.None? ==>
      var name := ResolvedName(st.index, key, AttributeName(key).value);
      && Get(r.store.entries, key) == Some(wrapped.value)
      && (forall k :: k != key ==> Get(r.store.entries, k) == Get(st.entries, k))
      && Keys(r.store.entries) == Keys(st.entries) + {key}
      && r.store.index == st.index[name := key]
    ensures Resolvable(st) ==> Resolvable(r.store)
    ensures DistinctKeys(st.entries) ==> DistinctKeys(r.store.entries)
  {
    match AttributeName(key)
    case Err(e) => Outcome(st, Some(e))
    case Ok(base) =>
      var name := ResolvedName(st.index, key, base);
      match wrapped
      case Err(e) => Outcome(st, Some(e))
      case Ok(w) => Outcome(Store(Put(st.entries, key, w), st.index[name := key]), None)
  }

  /** After a collision the holder of the base name keeps it, and the new key gets a numbered
      name of its own. */
  lemma SetItemKeepsHolder(st: Store, key: Key, wrapped: Result<Value>)
    requires AttributeName(key).Ok? && wrapped.Ok?
    requires Warning(st, key).Some?
    ensures var c := Warning(st, key).value;
      && c.base in SetItem(st, key, wrapped).store.index
      && SetItem(st, key, wrapped).store.index[c.base] == c.holder
      && SetItem(st, key, wrapped).store.index[c.name] == key
  {
  }

  /** Re-assigning a key whose base name already maps to it adds no suffix and leaves the index
      as it is. */
  lemma SetItemOwnName(st: Store, key: Key, wrapped: Result<Value>)
    requires AttributeName(key).Ok? && wrapped.Ok?
    requires AttributeName(key).value in st.index && st.index[AttributeName(key).value] == key
    ensures Warning(st, key).None?
    ensures SetItem(st, key, wrapped).store.index == st.index
  {
  }

  /** Assigning the same item twice leaves the state of one assignment: the second search finds
      the name the first one registered, and prints the same warning. */
  lemma SetItemIdempotent(st: Store, key: Key, v: Value)
    requires AttributeName(key).Ok?
    ensures var once := SetItem(st, key, Ok(v)).store;
      && SetItem(once, key, Ok(v)) == SetItem(st, key, Ok(v))
      && Warning(once, key) == Warning(st, key)
  {
    var base := AttributeName(key).value;
    var once := SetItem(st, key, Ok(v)).store;
    var name := ResolvedName(st.index, key, base);
    if !FreeFor(st.index, base, key) {
      var n := SmallestFreeSuffix(st.index, key, base);
      SuffixedNotBase(base, n);
      forall j | 1 <= j < n
        ensures !FreeFor(once.index, Suffixed(base, j), key)
      {
        SuffixedInjective(base, j, n);
      }
      SmallestFreeSuffixUnique(once.index, key, base, n);
    }
    PutPut(st.entries, key, v, v);
  }

  /** `__delitem__(key)`: the base name of `key` is derived again and its registration deleted,
      then the item. A missing registration raises before anything changes; a missing item
      raises after the registration is gone. The registration deleted is the base name's,
      whichever key holds it. */
  function DelItem(st: Store, key: Key): (r: Outcome)
    ensures AttributeName(key).Err? ==> r == Outcome(st, Some(IndexError))
    ensures AttributeName(key).Ok? && AttributeName(key).value !in st.index ==>
      r == Outcome(st, Some(KeyError(KStr(AttributeName(key).value))))
    ensures AttributeName(key).Ok? && AttributeName(key).value in st.index ==>
      && r.store.index == st.index - {AttributeName(key).value}
      && (key !in Keys(st.entries) ==> r == Outcome(Store(st.entries, r.store.index), Some(KeyError(key))))
    ensures r.error.None? ==>
      && key in Keys(st.entries)
      && Keys(r.store.entries) == Keys(st.entries) - {key}
      && (forall k :: k != key ==> Get(r.store.entries, k) == Get(st.entries, k))
    ensures DistinctKeys(st.entries) ==> DistinctKeys(r.store.entries)
  {
    match AttributeName(key)
    case Err(e) => Outcome(st, Some(e))
    case Ok(base) =>
      if base !in st.index then Outcome(st, Some(KeyError(KStr(base))))
      else
        var index := st.index - {base};
        if key !in Keys(st.entries) then Outcome(Store(st.entries, index), Some(KeyError(key)))
        else Outcome(Store(Remove(st.entries, key), index), None)
  }

  /** Deleting a key that was just added, under a base name nobody held, restores the state. */
  lemma DelItemUndoesSetItem(st: Store, key: Key, v: Value)
    requires AttributeName(key).Ok?
    requires key !in Keys(st.entries) && AttributeName(key).value !in st.index
    ensures DelItem(SetItem(st, key, Ok(v)).store, key) == Outcome(st, None)
  {
    var base := AttributeName(key).value;
    RemovePutFresh(st.entries, key, v);
    assert st.index[base := key] - {base} == st.index;
  }
}
