/**
 * The package's two classes with their state updated in place: `DictObject`
 * (its dict part, its attribute index and its other instance attributes) and
 * `DictObjectList` (a list that objectifies whatever is put into it).
 *
 * Every method is proved against the functions of `Stores`,
 * `Objectification` and `PackageAttributes`, whose properties are proved
 * there.
 */
module PackageClasses {
  import opened DictKeys
  import opened Results
  import opened Dicts
  import opened Naming
  import opened Values
  import opened Stores
  import opened Objectification
  import opened PackageAttributes

  class DictObject {
    var entries: seq<(Key, Value)>
    var index: map<string, Key>
    var attrs: map<string, Value>

    /** The two maps. */
    function Maps(): Store
      reads this
    {
      Store(entries, index)
    }

    /** The whole state. */
    function Snapshot(): State
      reads this
    {
      State(Maps(), attrs)
    }

    /** What `dict.__init__` leaves: the raw items, before the index exists. */
    constructor Raw(raw: seq<(Key, Value)>)
      ensures entries == raw && index == map[] && attrs == map[]
    {
      entries := raw;
      index := map[];
      attrs := map[];
    }

    /** `DictObject(*args, **kwargs)`. */
    static method New(args: seq<Value>, kwargs: seq<(string, Value)>) returns (r: Result<DictObject>)
      ensures r.Ok? <==> Construct(args, kwargs).Ok?
      ensures r.Err? ==> r.error == Construct(args, kwargs).error
      ensures r.Ok? ==> fresh(r.value) && r.value.Maps() == Construct(args, kwargs).value && r.value.attrs == map[]
    {
      var raw := RawEntries(args, kwargs);
      if raw.Err? {
        return Err(raw.error);
      }
      var start := Store(raw.value, map[]);
      var o := new DictObject.Raw(raw.value);
      var i := 0;
      while i < |args|
        invariant 0 <= i <= |args|
        invariant fresh(o) && o.attrs == map[]
        invariant MergeArgs(o.Maps(), args[i..]) == MergeArgs(start, args)
      {
        assert args[i..][0] == args[i] && args[i..][1..] == args[i + 1..];
        var err := o.MergeDict(args[i]);
        if err.Some? {
          return Err(err.value);
        }
        i := i + 1;
      }
      assert args[i..] == [];
      var err := o.MergeDict(Dict(KwEntries(kwargs)));
      if err.Some? {
        return Err(err.value);
      }
      return Ok(o);
    }

    /** `merge_dict(d)`: the loop over the entries of `d`. */
    method MergeDict(d: Value) returns (err: Option<Error>)
      modifies this
      ensures Outcome(Maps(), err) == MergeValue(old(Maps()), d)
      ensures attrs == old(attrs)
    {
      if !IsMapping(d) {
        return Some(TypeError);
      }
      var es := d.entries;
      var i := 0;
      while i < |es|
        invariant 0 <= i <= |es|
        invariant attrs == old(attrs)
        invariant MergeEntries(Maps(), es[i..]) == MergeEntries(old(Maps()), es)
      {
        var (k, v) := es[i];
        assert es[i..][0] == es[i] && es[i..][1..] == es[i + 1..];
        var name := AttributeName(k);
        if name.Err? {
          return Some(name.error);
        }
        var w := Objectify(v);
        if w.Err? {
          return Some(w.error);
        }
        entries := Put(entries, k, w.value);
        index := index[name.value := k];
        i := i + 1;
      }
      assert es[i..] == [];
      return None;
    }

    /** `self += other`: `merge_dict(other)`, then `self`. */
    method IAdd(other: Value) returns (r: Result<DictObject>)
      modifies this
      ensures r.Ok? <==> MergeValue(old(Maps()), other).error.None?
      ensures r.Err? ==> Some(r.error) == MergeValue(old(Maps()), other).error
      ensures r.Ok? ==> r.value == this
      ensures Maps() == MergeValue(old(Maps()), other).store && attrs == old(attrs)
    {
      var err := MergeDict(other);
      if err.Some? {
        return Err(err.value);
      }
      return Ok(this);
    }

    /** `self[key] = value`, returning the warning it prints, if any. */
    method SetItem(key: Key, value: Value) returns (err: Option<Error>, warning: Option<Collision>)
      modifies this
      ensures Outcome(Maps(), err) == Stores.SetItem(old(Maps()), key, Objectify(value))
      ensures warning == if AttributeName(key).Ok? then Warning(old(Maps()), key) else None
      ensures attrs == old(attrs)
    {
      var base := AttributeName(key);
      if base.Err? {
        return Some(base.error), None;
      }
      var name := base.value;
      warning := None;
      if name in index && index[name] != key {
        var n;
        name, n := ResolveAttributeName(index, key, base.value);
        warning := Some(Collision(key, name, base.value, index[base.value]));
      }
      var w := Objectify(value);
      if w.Err? {
        return Some(w.error), warning;
      }
      entries := Put(entries, key, w.value);
      index := index[name := key];
      err := None;
    }

    /** `del self[key]`. */
    method DelItem(key: Key) returns (err: Option<Error>)
      modifies this
      ensures Outcome(Maps(), err) == Stores.DelItem(old(Maps()), key)
      ensures attrs == old(attrs)
    {
      var base := AttributeName(key);
      if base.Err? {
        return Some(base.error);
      }
      if base.value !in index {
        return Some(KeyError(KStr(base.value)));
      }
      index := index - {base.value};
      if key !in Keys(entries) {
        return Some(KeyError(key));
      }
      entries := Remove(entries, key);
      err := None;
    }

    /** `self.name = value`. */
    method SetAttr(name: string, value: Value) returns (err: Option<Error>)
      requires name != IndexAttribute
      modifies this
      ensures Step(Snapshot(), err) == PackageAttributes.SetAttr(old(Snapshot()), name, value)
    {
      if IsPrivate(name) {
        attrs := attrs[name := value];
        return None;
      }
      var k := if name in index then index[name] else KStr(name);
      var w := Objectify(value);
      if w.Err? {
        return Some(w.error);
      }
      entries := Put(entries, KStr(name), w.value);
      index := index[name := k];
      entries := Put(entries, index[name], w.value);
      err := None;
    }

    /** `del self.name`. */
    method DelAttr(name: string) returns (err: Option<Error>)
      requires name != IndexAttribute
      modifies this
      ensures Step(Snapshot(), err) == PackageAttributes.DelAttr(old(Snapshot()), name)
    {
      if name in attrs {
        attrs := attrs - {name};
      }
      assert attrs == old(attrs) - {name};
      if name in index {
        var k := index[name];
        if k !in Keys(entries) {
          return Some(KeyError(k));
        }
        entries := Remove(entries, k);
        index := index - {name};
      }
      err := None;
    }

    /** `self.name`, once ordinary attribute lookup has failed. */
    function GetAttr(name: string): Result<Value>
      reads this
    {
      PackageAttributes.GetAttr(Snapshot(), name)
    }

    /** `k in self`. */
    function Contains(k: Key): bool
      reads this
    {
      PackageAttributes.Contains(Snapshot(), k)
    }
  }

  /** Where `list.insert(i, x)` puts `x` in a list of length `n`: a negative `i` counts from the
      end, and a position outside the list is moved to its nearer end. */
  function InsertionPoint(i: int, n: nat): (p: nat)
    ensures p <= n
    ensures 0 <= i <= n ==> p == i
    ensures i < 0 <= i + n ==> p == n + i
    ensures i > n ==> p == n
    ensures i + n < 0 ==> p == 0
  {
    if i < 0 then (if i + n < 0 then 0 else i + n) else if i > n then n else i
  }

  /** `xs` with `w` inserted at position `p`. */
  function InsertAt(xs: seq<Value>, p: nat, w: Value): (r: seq<Value>)
    requires p <= |xs|
    ensures |r| == |xs| + 1 && r[p] == w
    ensures r[..p] == xs[..p] && r[p + 1..] == xs[p..]
  {
    xs[..p] + [w] + xs[p..]
  }

  /** `lst.insert(len(lst), x)` is `lst.append(x)`. */
  lemma InsertAtEndIsAppend(xs: seq<Value>, i: int, w: Value)
    requires i >= |xs|
    ensures InsertAt(xs, InsertionPoint(i, |xs|), w) == xs + [w]
  {
    assert xs[..|xs|] == xs;
  }

  /** The position `lst[i]` denotes in a list of length `n`, if any: a negative `i` counts
      from the end. */
  function ListPosition(i: int, n: nat): (r: Option<nat>)
    ensures r.Some? <==> 0 <= i + n && i < n
    ensures r.Some? ==> r.value < n && r.value % n == i % n
  {
    if 0 <= i < n then Some(i) else if i < 0 <= i + n then Some(i + n) else None
  }

  /** Every element is objectified: what the mutators below keep true. */
  predicate AllObjectified(xs: seq<Value>) {
    forall i :: 0 <= i < |xs| ==> Objectified(xs[i])
  }

  /** Iterating an objectified value yields objectified values. */
  lemma IterateObjectified(v: Value)
    requires Objectified(v) && Iterate(v).Ok?
    ensures AllObjectified(Iterate(v).value)
  {
  }

  class DictObjectList {
    var elems: seq<Value>

    constructor (xs: seq<Value>)
      ensures elems == xs
    {
      elems := xs;
    }

    /** `insert(i, value)`. */
    method Insert(i: int, value: Value) returns (err: Option<Error>)
      modifies this
      ensures Objectify(value).Err? ==> err == Some(IndexError) && elems == old(elems)
      ensures Objectify(value).Ok? ==>
        err.None? && elems == InsertAt(old(elems), InsertionPoint(i, |old(elems)|), Objectify(value).value)
      ensures AllObjectified(old(elems)) && WellFormed(value) && Wrappable(value) ==> AllObjectified(elems)
    {
      var w := Objectify(value);
      if w.Err? {
        return Some(w.error);
      }
      if WellFormed(value) && Wrappable(value) {
        ObjectifyObjectifies(value);
      }
      var p := InsertionPoint(i, |elems|);
      elems := elems[..p] + [w.value] + elems[p..];
      err := None;
    }

    /** `append(value)`. */
    method Append(value: Value) returns (err: Option<Error>)
      modifies this
      ensures Objectify(value).Err? ==> err == Some(IndexError) && elems == old(elems)
      ensures Objectify(value).Ok? ==> err.None? && elems == old(elems) + [Objectify(value).value]
      ensures AllObjectified(old(elems)) && WellFormed(value) && Wrappable(value) ==> AllObjectified(elems)
    {
      var w := Objectify(value);
      if w.Err? {
        return Some(w.error);
      }
      if WellFormed(value) && Wrappable(value) {
        ObjectifyObjectifies(value);
      }
      elems := elems + [w.value];
      err := None;
    }

    /** `extend(values)`: the objectified argument is iterated, and what it yields is appended. */
    method Extend(values: Value) returns (err: Option<Error>)
      modifies this
      ensures Objectify(values).Err? ==> err == Some(IndexError) && elems == old(elems)
      ensures Objectify(values).Ok? ==>
        var items := Iterate(Objectify(values).value);
        && (items.Err? ==> err == Some(TypeError) && elems == old(elems))
        && (items.Ok? ==> err.None? && elems == old(elems) + items.value)
      ensures AllObjectified(old(elems)) && WellFormed(values) && Wrappable(values) ==> AllObjectified(elems)
    {
      var w := Objectify(values);
      if w.Err? {
        return Some(w.error);
      }
      var items := Iterate(w.value);
      if items.Err? {
        return Some(items.error);
      }
      if WellFormed(values) && Wrappable(values) {
        ObjectifyObjectifies(values);
        IterateObjectified(w.value);
      }
      elems := elems + items.value;
      err := None;
    }

    /** `self += values`: `extend`, then `self`. */
    method IAdd(values: Value) returns (r: Result<DictObjectList>)
      modifies this
      ensures Objectify(values).Err? ==> r == Err(IndexError) && elems == old(elems)
      ensures Objectify(values).Ok? ==>
        var items := Iterate(Objectify(values).value);
        && (items.Err? ==> r == Err(TypeError) && elems == old(elems))
        && (items.Ok? ==> r == Ok(this) && elems == old(elems) + items.value)
    {
      var err := Extend(values);
      if err.Some? {
        return Err(err.value);
      }
      return Ok(this);
    }

    /** `self[i] = value`: the value is objectified first, then the position is checked. */
    method SetItem(i: int, value: Value) returns (err: Option<Error>)
      modifies this
      ensures Objectify(value).Err? ==> err == Some(IndexError) && elems == old(elems)
      ensures Objectify(value).Ok? ==>
        var p := ListPosition(i, |old(elems)|);
        && (p.None? ==> err == Some(IndexError) && elems == old(elems))
        && (p.Some? ==> err.None? && elems == old(elems)[p.value := Objectify(value).value])
      ensures AllObjectified(old(elems)) && WellFormed(value) && Wrappable(value) ==> AllObjectified(elems)
    {
      var w := Objectify(value);
      if w.Err? {
        return Some(w.error);
      }
      var j := if i < 0 then i + |elems| else i;
      if !(0 <= j < |elems|) {
        return Some(IndexError);
      }
      if WellFormed(value) && Wrappable(value) {
        ObjectifyObjectifies(value);
      }
      elems := elems[j := w.value];
      err := None;
    }
  }
}
