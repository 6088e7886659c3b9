/**
 * Attribute access on the package's `DictObject`: `__setattr__`, `__getattr__`,
 * `__delattr__` and `__contains__`, with the hooks at their defaults.
 *
 * Besides its two maps a `DictObject` has ordinary instance attributes: every
 * name starting with `_` is stored there and never reaches the dict. The index
 * itself is the instance attribute `_attribute_to_key_map`.
 */
module PackageAttributes {
  import opened DictKeys
  import opened Results
  import opened Dicts
  import opened Naming
  import opened Values
  import opened Stores
  import opened Objectification

  /** The instance attribute that holds the index. */
  const IndexAttribute := "_attribute_to_key_map"

  /** A `DictObject`: its two maps and its other instance attributes. */
  datatype State = State(store: Store, attrs: map<string, Value>)

  /** The state an attribute mutator leaves behind, and the exception it raised, if any. */
  datatype Step = Step(state: State, error: Option<Error>)

  /** `name.startswith("_")`. */
  predicate IsPrivate(name: string) {
    |name| > 0 && name[0] == '_'
  }

  /** Only private names are ever plain instance attributes. */
  predicate AttrsPrivate(s: State) {
    forall name :: name in s.attrs ==> IsPrivate(name)
  }

  /** The name, or else `name` itself, is the key an attribute assignment writes through to. */
  function TargetKey(index: map<string, Key>, name: string): Key {
    if name in index then index[name] else KStr(name)
  }

  /** `__setattr__(name, value)`. A private name becomes a plain instance attribute holding the
      value as given. Any other name: the value is objectified (which may raise before anything
      changes) and stored both under the string `name` and under the key `name` is registered
      for (`name` itself if unregistered); then `name` is registered for that key. */
  function SetAttr(s: State, name: string, value: Value): (r: Step)
    requires name != IndexAttribute
    ensures IsPrivate(name) ==> r == Step(State(s.store, s.attrs[name := value]), None)
    ensures !IsPrivate(name) && Objectify(value).Err? ==> r == Step(s, Some(IndexError))
    ensures !IsPrivate(name) && Objectify(value).Ok? ==>
      var k := TargetKey(s.store.index, name);
      var w := Objectify(value).value;
      && r.error.None?
      && r.state.attrs == s.attrs
      && Get(r.state.store.entries, KStr(name)) == Some(w)
      && Get(r.state.store.entries, k) == Some(w)
      && (forall k' :: k' != k && k' != KStr(name) ==> Get(r.state.store.entries, k') == Get(s.store.entries, k'))
      && r.state.store.index == s.store.index[name := k]
    ensures AttrsPrivate(s) ==> AttrsPrivate(r.state)
    ensures Resolvable(s.store) ==> Resolvable(r.state.store)
  {
    if IsPrivate(name) then Step(State(s.store, s.attrs[name := value]), None)
    else
      match Objectify(value)
      case Err(e) => Step(s, Some(e))
      case Ok(w) =>
        var k := TargetKey(s.store.index, name);
        var entries := Put(Put(s.store.entries, KStr(name), w), k, w);
        Step(State(Store(entries, s.store.index[name := k]), s.attrs), None)
  }

  /** `__getattr__(name)`, reached once ordinary lookup has failed: a plain instance attribute,
      else the item of the key `name` is registered for; `AttributeError(name)` when the name is
      unregistered (in particular when the index is empty) or its key has no item. */
  function GetAttr(s: State, name: string): (r: Result<Value>)
    ensures name in s.attrs ==> r == Ok(s.attrs[name])
    ensures name !in s.attrs ==>
      (r.Ok? <==> name in s.store.index && s.store.index[name] in Keys(s.store.entries))
    ensures name !in s.attrs && r.Ok? ==> Lookup(s.store, s.store.index[name]) == r
    ensures r.Err? ==> r.error == AttributeError(name)
    ensures |s.store.index| == 0 && name !in s.attrs ==> r == Err(AttributeError(name))
  {
    if name in s.attrs then Ok(s.attrs[name])
    else if name !in s.store.index then Err(AttributeError(name))
    else
      match Lookup(s.store, s.store.index[name])
      case Ok(v) => Ok(v)
      case Err(_) => Err(AttributeError(name))
  }

  /** `__delattr__(name)`: a plain instance attribute of that name goes; then, if the name is
      registered, the item of its key and the registration go. A registered key without an item
      raises `KeyError` after the instance attribute is gone. An unregistered name leaves both
      maps as they are, without an error. */
  function DelAttr(s: State, name: string): (r: Step)
    requires name != IndexAttribute
    ensures r.state.attrs == s.attrs - {name}
    ensures name !in s.store.index ==> r == Step(State(s.store, s.attrs - {name}), None)
    ensures name in s.store.index ==>
      var k := s.store.index[name];
      && (k !in Keys(s.store.entries) ==> r == Step(State(s.store, s.attrs - {name}), Some(KeyError(k))))
      && (k in Keys(s.store.entries) ==>
            && r.error.None?
            && r.state.store.index == s.store.index - {name}
            && Keys(r.state.store.entries) == Keys(s.store.entries) - {k}
            && forall k' :: k' != k ==> Get(r.state.store.entries, k') == Get(s.store.entries, k'))
    ensures AttrsPrivate(s) ==> AttrsPrivate(r.state)
  {
    var attrs := s.attrs - {name};
    if name !in s.store.index then Step(State(s.store, attrs), None)
    else
      var k := s.store.index[name];
      if k !in Keys(s.store.entries) then Step(State(s.store, attrs), Some(KeyError(k)))
      else Step(State(Store(Remove(s.store.entries, k), s.store.index - {name}), attrs), None)
  }

  /** `k in obj`: `k` has an item, or `k` is a string naming an attribute that can be read.
      Any exception on the way counts as absent (a non-string is not an attribute name). */
  function Contains(s: State, k: Key): (r: bool)
    ensures !k.KStr? ==> (r <==> k in Keys(s.store.entries))
    ensures k in Keys(s.store.entries) ==> r
    ensures k.KStr? && k !in Keys(s.store.entries) ==>
      (r <==> k.s in s.attrs || (k.s in s.store.index && s.store.index[k.s] in Keys(s.store.entries)))
  {
    k in Keys(s.store.entries) || (k.KStr? && GetAttr(s, k.s).Ok?)
  }

  /** Both ways reflect each other: an attribute just set reads back as the value stored (the
      objectified value, or the value itself for a private name), and as the item of its name. */
  lemma SetAttrThenGet(s: State, name: string, value: Value)
    requires name != IndexAttribute && AttrsPrivate(s)
    requires SetAttr(s, name, value).error.None?
    ensures IsPrivate(name) ==> GetAttr(SetAttr(s, name, value).state, name) == Ok(value)
    ensures !IsPrivate(name) ==>
      && GetAttr(SetAttr(s, name, value).state, name) == Objectify(value)
      && Lookup(SetAttr(s, name, value).state.store, KStr(name)) == Objectify(value)
      && Contains(SetAttr(s, name, value).state, KStr(name))
  {
  }

  /** An item just set is readable as an attribute under the name it was registered under,
      unless a plain instance attribute of that name hides it. */
  lemma SetItemThenGetAttr(s: State, key: Key, value: Value)
    requires SetItem(s.store, key, Objectify(value)).error.None?
    ensures var name := ResolvedName(s.store.index, key, AttributeName(key).value);
      var after := State(SetItem(s.store, key, Objectify(value)).store, s.attrs);
      && Contains(after, key)
      && (name !in s.attrs ==> GetAttr(after, name) == Objectify(value))
  {
  }

  /** Deleting an attribute that was just set for the first time, under a name no item had,
      restores the object. */
  lemma DelAttrUndoesSetAttr(s: State, name: string, value: Value)
    requires name != IndexAttribute && !IsPrivate(name) && AttrsPrivate(s)
    requires name !in s.store.index && KStr(name) !in Keys(s.store.entries)
    requires Objectify(value).Ok?
    ensures DelAttr(SetAttr(s, name, value).state, name) == Step(s, None)
  {
    var w := Objectify(value).value;
    PutPut(s.store.entries, KStr(name), w, w);
    RemovePutFresh(s.store.entries, KStr(name), w);
    assert s.store.index[name := KStr(name)] - {name} == s.store.index;
    assert s.attrs - {name} == s.attrs;
  }
}
