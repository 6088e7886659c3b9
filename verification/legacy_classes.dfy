/**
 * The legacy `DictObject` class with its two maps updated in place. Every
 * method is proved against the functions of `Stores` and `Legacy`.
 */
module LegacyClasses {
  import opened DictKeys
  import opened Results
  import opened Dicts
  import opened Naming
  import opened Values
  import opened Stores
  import Objectification
  import PackageAttributes
  import Legacy

  class DictObject {
    var entries: seq<(Key, Value)>
    var index: map<string, Key>

    /** The two maps. */
    function Maps(): Store
      reads this
    {
      Store(entries, index)
    }

    /** What `dict.__init__` leaves: the raw items, before the index exists. */
    constructor Raw(raw: seq<(Key, Value)>)
      ensures entries == raw && index == map[]
    {
      entries := raw;
      index := map[];
    }

    /** `DictObject(*args, **kwargs)`. */
    static method New(args: seq<Value>, kwargs: seq<(string, Value)>) returns (r: Result<DictObject>)
      ensures r.Ok? <==> Legacy.Construct(args, kwargs).Ok?
      ensures r.Err? ==> r.error == Legacy.Construct(args, kwargs).error
      ensures r.Ok? ==> fresh(r.value) && r.value.Maps() == Legacy.Construct(args, kwargs).value
    {
      var raw := Objectification.RawEntries(args, kwargs);
      if raw.Err? {
        return Err(raw.error);
      }
      var start := Store(raw.value, map[]);
      var o := new DictObject.Raw(raw.value);
      var i := 0;
      while i < |args|
        invariant 0 <= i <= |args|
        invariant fresh(o)
        invariant Legacy.MergeArgs(o.Maps(), args[i..]) == Legacy.MergeArgs(start, args)
      {
        assert args[i..][0] == args[i] && args[i..][1..] == args[i + 1..];
        var err := o.MergeDict(args[i]);
        if err.Some? {
          return Err(err.value);
        }
        i := i + 1;
      }
      assert args[i..] == [];
      var err := o.MergeDict(Dict(Objectification.KwEntries(kwargs)));
      if err.Some? {
        return Err(err.value);
      }
      return Ok(o);
    }

    /** `merge_dict(d)`: the loop over the entries of `d`. */
    method MergeDict(d: Value) returns (err: Option<Error>)
      modifies this
      ensures Outcome(Maps(), err) == Legacy.MergeValue(old(Maps()), d)
    {
      if !IsMapping(d) {
        return Some(TypeError);
      }
      var es := d.entries;
      var i := 0;
      while i < |es|
        invariant 0 <= i <= |es|
        invariant Legacy.MergeEntries(Maps(), es[i..]) == Legacy.MergeEntries(old(Maps()), es)
      {
        var (k, v) := es[i];
        assert es[i..][0] == es[i] && es[i..][1..] == es[i + 1..];
        var name := AttributeName(k);
        if name.Err? {
          return Some(name.error);
        }
        var w := Legacy.Wrap(v);
        if w.Err? {
          return Some(w.error);
        }
        entries := Put(entries, k, w.value);
        index := index[name.value := k];
        i := i + 1;
      }
      assert es[i..] == [];
      return None;
    }

    /** `self += other`: `merge_dict(other)`, then `self`. */
    method IAdd(other: Value) returns (r: Result<DictObject>)
      modifies this
      ensures r.Ok? <==> Legacy.MergeValue(old(Maps()), other).error.None?
      ensures r.Err? ==> Some(r.error) == Legacy.MergeValue(old(Maps()), other).error
      ensures r.Ok? ==> r.value == this
      ensures Maps() == Legacy.MergeValue(old(Maps()), other).store
    {
      var err := MergeDict(other);
      if err.Some? {
        return Err(err.value);
      }
      return Ok(this);
    }

    /** `self[key] = value`, returning the warning it prints, if any. */
    method SetItem(key: Key, value: Value) returns (err: Option<Error>, warning: Option<Collision>)
      modifies this
      ensures Outcome(Maps(), err) == Stores.SetItem(old(Maps()), key, Legacy.Wrap(value))
      ensures warning == if AttributeName(key).Ok? then Warning(old(Maps()), key) else None
    {
      var base := AttributeName(key);
      if base.Err? {
        return Some(base.error), None;
      }
      var name := base.value;
      warning := None;
      if name in index && index[name] != key {
        var n;
        name, n := ResolveAttributeName(index, key, base.value);
        warning := Some(Collision(key, name, base.value, index[base.value]));
      }
      var w := Legacy.Wrap(value);
      if w.Err? {
        return Some(w.error), warning;
      }
      entries := Put(entries, key, w.value);
      index := index[name := key];
      err := None;
    }

    /** `del self[key]`. */
    method DelItem(key: Key) returns (err: Option<Error>)
      modifies this
      ensures Outcome(Maps(), err) == Stores.DelItem(old(Maps()), key)
    {
      var base := AttributeName(key);
      if base.Err? {
        return Some(base.error);
      }
      if base.value !in index {
        return Some(KeyError(KStr(base.value)));
      }
      index := index - {base.value};
      if key !in Keys(entries) {
        return Some(KeyError(key));
      }
      entries := Remove(entries, key);
      err := None;
    }

    /** `self.name = value`. */
    method SetAttr(name: string, value: Value) returns (err: Option<Error>)
      requires name != PackageAttributes.IndexAttribute
      modifies this
      ensures Outcome(Maps(), err) == Legacy.SetAttr(old(Maps()), name, value)
    {
      var k := if name in index then index[name] else KStr(name);
      var w := Legacy.Wrap(value);
      if w.Err? {
        return Some(w.error);
      }
      entries := Put(entries, KStr(name), w.value);
      index := index[name := k];
      entries := Put(entries, index[name], value);
      err := None;
    }

    /** `del self.name`. */
    method DelAttr(name: string) returns (err: Option<Error>)
      modifies this
      ensures Outcome(Maps(), err) == Legacy.DelAttr(old(Maps()), name)
    {
      if name !in index {
        return Some(KeyError(KStr(name)));
      }
      var k := index[name];
      if k !in Keys(entries) {
        return Some(KeyError(k));
      }
      entries := Remove(entries, k);
      index := index - {name};
      err := None;
    }

    /** `self.name`, once ordinary attribute lookup has failed. */
    function GetAttr(name: string): Result<Value>
      reads this
    {
      Legacy.GetAttr(Maps(), name)
    }

    /** `k in self`. */
    function Contains(k: Key): bool
      reads this
    {
      Legacy.Contains(Maps(), k)
    }
  }
}
