/**
 * Recursive wrapping in the package (`DictObject.objectify`), the entry loop of
 * `merge_dict` that it runs for every plain dict, and the constructor.
 *
 * `objectify` returns a `DictObject` as it is, rebuilds a `list` (a
 * `DictObjectList` included) as a `DictObjectList` and a `tuple` as a `tuple`
 * with every element objectified, turns a plain `dict` into `DictObject(d)`, and
 * leaves anything else alone. The only way it can fail is a plain dict, at any
 * depth outside a `DictObject`, that has the empty string as a key: its
 * attribute name cannot be derived.
 */
module Objectification {
  import opened DictKeys
  import opened Results
  import opened Dicts
  import opened Naming
  import opened Values
  import opened Stores

  /** Some plain dict in `v`, outside any `DictObject`, has the key `''`. */
  predicate HasEmptyKey(v: Value) {
    match v
    case Scalar(_) => false
    case Object(_, _) => false
    case Dict(es) => EntriesHaveEmptyKey(es)
    case List(xs) => AnyHasEmptyKey(xs)
    case ObjectList(xs) => AnyHasEmptyKey(xs)
    case Tuple(xs) => AnyHasEmptyKey(xs)
  }

  predicate EntriesHaveEmptyKey(es: seq<(Key, Value)>) {
    if es == [] then false
    else
      var e := es[0];
      assert e in es && e.1 < e;
      e.0 == KStr([]) || HasEmptyKey(e.1) || EntriesHaveEmptyKey(es[1..])
  }

  predicate AnyHasEmptyKey(xs: seq<Value>) {
    xs != [] && (HasEmptyKey(xs[0]) || AnyHasEmptyKey(xs[1..]))
  }

  /** `DictObject.objectify(v)`. */
  function Objectify(v: Value): (r: Result<Value>)
    ensures r.Err? <==> HasEmptyKey(v)
    ensures r.Err? ==> r.error == IndexError
    ensures v.Scalar? || v.Object? ==> r == Ok(v)
    ensures r.Ok? && IsMapping(v) ==> r.value.Object?
    ensures r.Ok? && (v.List? || v.ObjectList?) ==> r.value.ObjectList? && |r.value.elems| == |v.elems|
    ensures r.Ok? && v.Tuple? ==> r.value.Tuple? && |r.value.elems| == |v.elems|
  {
    match v
    case Scalar(_) => Ok(v)
    case Object(_, _) => Ok(v)
    case Dict(es) =>
      var o := MergeEntries(Store(PutAll([], es), map[]), es);
      if o.error.Some? then Err(o.error.value) else Ok(Object(o.store.entries, o.store.index))
    case List(xs) =>
      var ys := ObjectifyAll(xs);
      if ys.Err? then Err(ys.error) else Ok(ObjectList(ys.value))
    case ObjectList(xs) =>
      var ys := ObjectifyAll(xs);
      if ys.Err? then Err(ys.error) else Ok(ObjectList(ys.value))
    case Tuple(xs) =>
      var ys := ObjectifyAll(xs);
      if ys.Err? then Err(ys.error) else Ok(Tuple(ys.value))
  }

  /** `(DictObject.objectify(x) for x in xs)`, drained: the first failure propagates. */
  function ObjectifyAll(xs: seq<Value>): (r: Result<seq<Value>>)
    ensures r.Err? <==> AnyHasEmptyKey(xs)
    ensures r.Err? ==> r.error == IndexError
    ensures r.Ok? ==> |r.value| == |xs|
    ensures r.Ok? ==> forall i :: 0 <= i < |xs| ==> Objectify(xs[i]) == Ok(r.value[i])
  {
    if xs == [] then Ok([])
    else
      match Objectify(xs[0])
      case Err(e) => Err(e)
      case Ok(y) =>
        match ObjectifyAll(xs[1..])
        case Err(e) => Err(e)
        case Ok(ys) => Ok([y] + ys)
  }

  /** The loop of `merge_dict` over the entries `es` of its argument: for each entry the
      attribute name is derived, the value objectified and stored under the key, and the name
      registered for the key, overwriting whatever key held it before (no numbered names
      here). The first failure ends the loop; what was written before it stays. */
  function MergeEntries(st: Store, es: seq<(Key, Value)>): (r: Outcome)
    ensures r.error.Some? <==> EntriesHaveEmptyKey(es)
    ensures r.error.Some? ==> r.error.value == IndexError
    ensures DistinctKeys(st.entries) ==> DistinctKeys(r.store.entries)
    decreases es
  {
    if es == [] then Outcome(st, None)
    else
      var e := es[0];
      assert e in es && e.1 < e;
      match AttributeName(e.0)
      case Err(err) => Outcome(st, Some(err))
      case Ok(name) =>
        match Objectify(e.1)
        case Err(err) => Outcome(st, Some(err))
        case Ok(w) => MergeEntries(Store(Put(st.entries, e.0, w), st.index[name := e.0]), es[1..])
  }

  /** One turn of the merge loop, on an entry that neither derivation nor wrapping rejects. */
  lemma MergeEntriesHead(st: Store, es: seq<(Key, Value)>)
    requires es != [] && es[0].0 != KStr([]) && !HasEmptyKey(es[0].1)
    ensures AttributeName(es[0].0).Ok? && Objectify(es[0].1).Ok?
    ensures MergeEntries(st, es) ==
      MergeEntries(Store(Put(st.entries, es[0].0, Objectify(es[0].1).value),
                         st.index[AttributeName(es[0].0).value := es[0].0]), es[1..])
  {
  }

  lemma MergeEntriesStep(st: Store, es: seq<(Key, Value)>)
    requires es != [] && !EntriesHaveEmptyKey(es)
    ensures AttributeName(es[0].0).Ok? && Objectify(es[0].1).Ok?
    ensures !EntriesHaveEmptyKey(es[1..])
    ensures MergeEntries(st, es) ==
      MergeEntries(Store(Put(st.entries, es[0].0, Objectify(es[0].1).value),
                         st.index[AttributeName(es[0].0).value := es[0].0]), es[1..])
  {
    var e := es[0];
    assert e in es && e.1 < e;
    MergeEntriesHead(st, es);
  }

  /** One turn of the merge loop over the raw copy: the head of `rest` moves, objectified, to
      the end of `done`. */
  lemma MergeEntriesInPlaceStep(done: seq<(Key, Value)>, rest: seq<(Key, Value)>, index: map<string, Key>)
    requires DistinctKeys(done + rest) && !EntriesHaveEmptyKey(rest) && rest != []
    ensures Objectify(rest[0].1).Ok? && !EntriesHaveEmptyKey(rest[1..])
    ensures var done' := done + [(rest[0].0, Objectify(rest[0].1).value)];
      && DistinctKeys(done' + rest[1..])
      && exists index' :: MergeEntries(Store(done + rest, index), rest) == MergeEntries(Store(done' + rest[1..], index'), rest[1..])
  {
    var e := rest[0];
    MergeEntriesStep(Store(done + rest, index), rest);
    var w := Objectify(e.1).value;
    var index' := index[AttributeName(e.0).value := e.0];
    DistinctAppendHead(done, rest);
    SplitHead(done, rest);
    PutInPlace(done, e.0, e.1, rest[1..], w);
  }

  /** Over the raw copy of a real dict, the merge loop replaces each value by its objectified
      form where it stands: same keys, same order. */
  lemma {:induction false} MergeEntriesInPlace(done: seq<(Key, Value)>, rest: seq<(Key, Value)>, index: map<string, Key>)
    requires DistinctKeys(done + rest) && !EntriesHaveEmptyKey(rest)
    ensures ObjectifiedAt(MergeEntries(Store(done + rest, index), rest).store.entries, done, rest)
    decreases rest
  {
    var r := MergeEntries(Store(done + rest, index), rest).store.entries;
    if rest == [] {
      assert done + rest == done;
    } else {
      MergeEntriesInPlaceStep(done, rest, index);
      var done' := done + [(rest[0].0, Objectify(rest[0].1).value)];
      var index' :| MergeEntries(Store(done + rest, index), rest) == MergeEntries(Store(done' + rest[1..], index'), rest[1..]);
      MergeEntriesInPlace(done', rest[1..], index');
      ObjectifiedAtCons(r, done, rest);
    }
  }

  /** `r` is `done` followed by the entries of `rest` with their values objectified. */
  predicate ObjectifiedAt(r: seq<(Key, Value)>, done: seq<(Key, Value)>, rest: seq<(Key, Value)>) {
    && |r| == |done| + |rest|
    && r[..|done|] == done
    && forall i :: 0 <= i < |rest| ==> r[|done| + i].0 == rest[i].0 && Objectify(rest[i].1) == Ok(r[|done| + i].1)
  }

  lemma ObjectifiedAtCons(r: seq<(Key, Value)>, done: seq<(Key, Value)>, rest: seq<(Key, Value)>)
    requires rest != [] && Objectify(rest[0].1).Ok?
    requires ObjectifiedAt(r, done + [(rest[0].0, Objectify(rest[0].1).value)], rest[1..])
    ensures ObjectifiedAt(r, done, rest)
  {
    var done' := done + [(rest[0].0, Objectify(rest[0].1).value)];
    assert r[..|done|] == r[..|done'|][..|done|];
    forall i | 0 <= i < |rest|
      ensures r[|done| + i].0 == rest[i].0 && Objectify(rest[i].1) == Ok(r[|done| + i].1)
    {
      if i == 0 {
        assert r[|done|] == r[..|done'|][|done|];
      } else {
        assert rest[1..][i - 1] == rest[i];
        assert |done'| + (i - 1) == |done| + i;
      }
    }
  }

  /** The entries of `DictObject(d)` for a real dict `d`: the entries of `d`, in order, each
      value objectified. */
  lemma ObjectifyDictEntries(es: seq<(Key, Value)>)
    requires DistinctKeys(es) && !EntriesHaveEmptyKey(es)
    ensures var r := Objectify(Dict(es)).value.entries;
      && |r| == |es|
      && forall i :: 0 <= i < |es| ==> r[i].0 == es[i].0 && Objectify(es[i].1) == Ok(r[i].1)
  {
    var r := Objectify(Dict(es)).value.entries;
    assert [] + es == es;
    PutAllDistinct([], es);
    MergeEntriesInPlace([], es, map[]);
    assert ObjectifiedAt(r, [], es);
  }

  /** `objectify(v) == v`: objectifying changes the classes, never the content, of a value
      whose dicts are real dicts. */
  lemma {:induction false} ObjectifyPreservesContent(v: Value)
    requires WellFormed(v) && !HasEmptyKey(v)
    ensures Plain(Objectify(v).value) == Plain(v)
    decreases v
  {
    match v
    case Scalar(_) =>
    case Object(_, _) =>
    case Dict(es) =>
      var r := Objectify(v).value.entries;
      ObjectifyDictEntries(es);
      PlainEntriesAt(r);
      PlainEntriesAt(es);
      forall i | 0 <= i < |es|
        ensures PlainEntries(r)[i] == PlainEntries(es)[i]
      {
        var e := es[i];
        assert e in es && e.1 < e;
        WellFormedEntriesAt(es, i);
        EntriesHaveEmptyKeyAt(es, i);
        ObjectifyPreservesContent(e.1);
      }
    case List(xs) => ObjectifyAllPreservesContent(xs);
    case ObjectList(xs) => ObjectifyAllPreservesContent(xs);
    case Tuple(xs) => ObjectifyAllPreservesContent(xs);
  }

  lemma {:induction false} ObjectifyAllPreservesContent(xs: seq<Value>)
    requires WellFormedAll(xs) && !AnyHasEmptyKey(xs)
    ensures PlainAll(ObjectifyAll(xs).value) == PlainAll(xs)
    decreases xs
  {
    if xs != [] {
      ObjectifyPreservesContent(xs[0]);
      ObjectifyAllPreservesContent(xs[1..]);
    }
  }

  lemma {:induction false} WellFormedEntriesAt(es: seq<(Key, Value)>, i: nat)
    requires WellFormedEntries(es) && i < |es|
    ensures WellFormed(es[i].1)
  {
    if i > 0 {
      WellFormedEntriesAt(es[1..], i - 1);
    }
  }

  lemma {:induction false} EntriesHaveEmptyKeyAt(es: seq<(Key, Value)>, i: nat)
    requires !EntriesHaveEmptyKey(es) && i < |es|
    ensures es[i].0 != KStr([]) && !HasEmptyKey(es[i].1)
  {
    if i > 0 {
      EntriesHaveEmptyKeyAt(es[1..], i - 1);
    }
  }

  /** What `objectify` hands out, throughout: no plain dict and no plain list at any depth. */
  predicate Objectified(v: Value) {
    match v
    case Scalar(_) => true
    case Dict(_) => false
    case List(_) => false
    case Object(es, _) => forall i :: 0 <= i < |es| ==> Objectified(es[i].1)
    case ObjectList(xs) => forall i :: 0 <= i < |xs| ==> Objectified(xs[i])
    case Tuple(xs) => forall i :: 0 <= i < |xs| ==> Objectified(xs[i])
  }

  /** Every `DictObject` in `v` that `objectify` would return as it is (one not inside another
      `DictObject`) is objectified already, as every `DictObject` the package builds is. */
  predicate Wrappable(v: Value) {
    match v
    case Scalar(_) => true
    case Object(_, _) => Objectified(v)
    case Dict(es) => forall i :: 0 <= i < |es| ==> Wrappable(es[i].1)
    case List(xs) => forall i :: 0 <= i < |xs| ==> Wrappable(xs[i])
    case ObjectList(xs) => forall i :: 0 <= i < |xs| ==> Wrappable(xs[i])
    case Tuple(xs) => forall i :: 0 <= i < |xs| ==> Wrappable(xs[i])
  }

  lemma {:induction false} AnyHasEmptyKeyAt(xs: seq<Value>, i: nat)
    requires !AnyHasEmptyKey(xs) && i < |xs|
    ensures !HasEmptyKey(xs[i])
  {
    if i > 0 {
      AnyHasEmptyKeyAt(xs[1..], i - 1);
    }
  }

  lemma {:induction false} WellFormedAllAt(xs: seq<Value>, i: nat)
    requires WellFormedAll(xs) && i < |xs|
    ensures WellFormed(xs[i])
  {
    if i > 0 {
      WellFormedAllAt(xs[1..], i - 1);
    }
  }

  /** What `objectify` returns is objectified all the way down. */
  lemma {:induction false} ObjectifyObjectifies(v: Value)
    requires WellFormed(v) && Wrappable(v) && !HasEmptyKey(v)
    ensures Objectified(Objectify(v).value)
    decreases v
  {
    match v
    case Scalar(_) =>
    case Object(_, _) =>
    case Dict(es) =>
      var r := Objectify(v).value.entries;
      ObjectifyDictEntries(es);
      forall i | 0 <= i < |r|
        ensures Objectified(r[i].1)
      {
        var e := es[i];
        assert e in es && e.1 < e;
        WellFormedEntriesAt(es, i);
        EntriesHaveEmptyKeyAt(es, i);
        ObjectifyObjectifies(e.1);
      }
    case List(xs) => ObjectifyAllObjectifies(xs);
    case ObjectList(xs) => ObjectifyAllObjectifies(xs);
    case Tuple(xs) => ObjectifyAllObjectifies(xs);
  }

  lemma ObjectifyAllObjectifies(xs: seq<Value>)
    requires WellFormedAll(xs) && !AnyHasEmptyKey(xs)
    requires forall i :: 0 <= i < |xs| ==> Wrappable(xs[i])
    ensures forall i :: 0 <= i < |xs| ==> Objectified(ObjectifyAll(xs).value[i])
    decreases xs
  {
    forall i | 0 <= i < |xs|
      ensures Objectified(ObjectifyAll(xs).value[i])
    {
      WellFormedAllAt(xs, i);
      AnyHasEmptyKeyAt(xs, i);
      ObjectifyObjectifies(xs[i]);
    }
  }

  /** An objectified value is left as it is: `objectify` has nothing more to do. */
  lemma {:induction false} ObjectifyFixpoint(v: Value)
    requires Objectified(v)
    ensures Objectify(v) == Ok(v)
    decreases v
  {
    match v
    case Scalar(_) =>
    case Object(_, _) =>
    case ObjectList(xs) => ObjectifyAllFixpoint(xs);
    case Tuple(xs) => ObjectifyAllFixpoint(xs);
  }

  lemma {:induction false} ObjectifyAllFixpoint(xs: seq<Value>)
    requires forall i :: 0 <= i < |xs| ==> Objectified(xs[i])
    ensures ObjectifyAll(xs) == Ok(xs)
    decreases xs
  {
    if xs != [] {
      ObjectifyFixpoint(xs[0]);
      ObjectifyAllFixpoint(xs[1..]);
      assert [xs[0]] + xs[1..] == xs;
    }
  }

  /** Objectifying twice is objectifying once. */
  lemma ObjectifyIdempotent(v: Value)
    requires WellFormed(v) && Wrappable(v)
    ensures Objectify(v).Ok? ==> Objectify(Objectify(v).value) == Objectify(v)
  {
    if Objectify(v).Ok? {
      ObjectifyObjectifies(v);
      ObjectifyFixpoint(Objectify(v).value);
    }
  }

  /** The key that holds `name` after the entries `es` have been merged in: the last one whose
      base name is `name`, since the merge loop overwrites without numbering. */
  function NameOwner(es: seq<(Key, Value)>, name: string): (r: Option<Key>)
    ensures r.Some? ==> r.value in Keys(es) && AttributeName(r.value) == Ok(name)
  {
    if es == [] then None
    else
      var later := NameOwner(es[1..], name);
      if later.Some? then later
      else if AttributeName(es[0].0) == Ok(name) then Some(es[0].0)
      else None
  }

  /** What a completed merge writes into the dict part: the keys of `es` are added; each holds
      the objectified value of its last entry in `es`, so a later entry wins; other keys keep
      their values. */
  lemma {:induction false} MergeEntriesItems(st: Store, es: seq<(Key, Value)>)
    requires !EntriesHaveEmptyKey(es)
    ensures var r := MergeEntries(st, es).store;
      && Keys(r.entries) == Keys(st.entries) + Keys(es)
      && (forall k :: k in Keys(es) ==> Objectify(GetLast(es, k).value) == Ok(Get(r.entries, k).value))
      && (forall k :: k !in Keys(es) ==> Get(r.entries, k) == Get(st.entries, k))
    decreases es
  {
    if es != [] {
      MergeEntriesStep(st, es);
      var st1 := Store(Put(st.entries, es[0].0, Objectify(es[0].1).value),
                       st.index[AttributeName(es[0].0).value := es[0].0]);
      MergeEntriesItems(st1, es[1..]);
    }
  }

  /** What a completed merge writes into the index: every base name of `es` is registered for
      the last key of `es` that derives it; other registrations are kept. */
  lemma {:induction false} MergeEntriesNames(st: Store, es: seq<(Key, Value)>)
    requires !EntriesHaveEmptyKey(es)
    ensures var r := MergeEntries(st, es).store;
      && (forall name :: NameOwner(es, name).Some? ==> name in r.index && r.index[name] == NameOwner(es, name).value)
      && (forall name :: NameOwner(es, name).None? ==>
            (name in r.index <==> name in st.index) && (name in st.index ==> r.index[name] == st.index[name]))
    decreases es
  {
    if es != [] {
      MergeEntriesStep(st, es);
      var st1 := Store(Put(st.entries, es[0].0, Objectify(es[0].1).value),
                       st.index[AttributeName(es[0].0).value := es[0].0]);
      MergeEntriesNames(st1, es[1..]);
    }
  }

  /** The merge of `es` fails at entry `i`: every entry before it is accepted, entry `i` is
      rejected, and the outcome is the store written by the entries before it with the error. */
  ghost predicate StopsAt(st: Store, es: seq<(Key, Value)>, i: int) {
    && 0 <= i < |es|
    && !EntriesHaveEmptyKey(es[..i])
    && (es[i].0 == KStr([]) || HasEmptyKey(es[i].1))
    && MergeEntries(st, es) == Outcome(MergeEntries(st, es[..i]).store, Some(IndexError))
  }

  /** A failed merge stops at the first entry it rejects and keeps everything written before. */
  lemma {:induction false} MergeEntriesStopsAtFailure(st: Store, es: seq<(Key, Value)>)
    requires EntriesHaveEmptyKey(es)
    ensures exists i :: StopsAt(st, es, i)
    decreases es
  {
    var e := es[0];
    assert e in es && e.1 < e;
    if e.0 == KStr([]) || HasEmptyKey(e.1) {
      assert es[..0] == [];
      assert StopsAt(st, es, 0);
    } else {
      var st1 := Store(Put(st.entries, e.0, Objectify(e.1).value), st.index[AttributeName(e.0).value := e.0]);
      MergeEntriesStopsAtFailure(st1, es[1..]);
      var j :| StopsAt(st1, es[1..], j);
      StopsAtStep(st, es, j);
    }
  }

  /** An accepted first entry moves the failure point of the rest one place on. */
  lemma StopsAtStep(st: Store, es: seq<(Key, Value)>, j: int)
    requires es != [] && es[0].0 != KStr([]) && !HasEmptyKey(es[0].1)
    requires StopsAt(Store(Put(st.entries, es[0].0, Objectify(es[0].1).value),
                           st.index[AttributeName(es[0].0).value := es[0].0]), es[1..], j)
    ensures StopsAt(st, es, j + 1)
  {
    var p := es[..j + 1];
    assert p[0] == es[0] && p[1..] == es[1..][..j];
    MergeEntriesHead(st, es);
    MergeEntriesHead(st, p);
    assert es[j + 1] == es[1..][j];
  }

  /** `merge_dict(d)`: a `TypeError` before anything changes unless `d` is a dict; otherwise the
      merge loop over its entries. */
  function MergeValue(st: Store, d: Value): (r: Outcome)
    ensures !IsMapping(d) ==> r == Outcome(st, Some(TypeError))
    ensures IsMapping(d) ==> r == MergeEntries(st, d.entries)
  {
    if IsMapping(d) then MergeEntries(st, d.entries) else Outcome(st, Some(TypeError))
  }

  /** `for arg in args: self.merge_dict(arg)`: the first exception ends the loop. */
  function MergeArgs(st: Store, args: seq<Value>): (r: Outcome)
    ensures r.error.None? ==> forall i :: 0 <= i < |args| ==> IsMapping(args[i])
    ensures DistinctKeys(st.entries) ==> DistinctKeys(r.store.entries)
    decreases args
  {
    if args == [] then Outcome(st, None)
    else
      var o := MergeValue(st, args[0]);
      if o.error.Some? then o else MergeArgs(o.store, args[1..])
  }

  /** Keyword arguments as the entries of the dict `dict(**kwargs)`. */
  function KwEntries(kwargs: seq<(string, Value)>): (r: seq<(Key, Value)>)
    ensures |r| == |kwargs|
    ensures forall i :: 0 <= i < |kwargs| ==> r[i] == (KStr(kwargs[i].0), kwargs[i].1)
  {
    if kwargs == [] then [] else [(KStr(kwargs[0].0), kwargs[0].1)] + KwEntries(kwargs[1..])
  }

  /** The dict part `dict.__init__` fills in before the index exists: with one positional
      argument, its items updated with the keyword arguments; otherwise the keyword arguments.
      A lone positional argument that is not a dict is rejected (its `merge_dict` would raise
      `TypeError` at the latest). */
  function RawEntries(args: seq<Value>, kwargs: seq<(string, Value)>): (r: Result<seq<(Key, Value)>>)
    ensures r.Err? <==> |args| == 1 && !IsMapping(args[0])
    ensures r.Err? ==> r.error == TypeError
    ensures r.Ok? ==> DistinctKeys(r.value)
  {
    if |args| == 1 then
      if IsMapping(args[0]) then Ok(PutAll(PutAll([], args[0].entries), KwEntries(kwargs)))
      else Err(TypeError)
    else Ok(PutAll([], KwEntries(kwargs)))
  }

  /** `DictObject(*args, **kwargs)`: the raw fill, an empty index, then `merge_dict` of each
      positional argument from left to right, then of the keyword arguments. An exception
      leaves no object behind. */
  function Construct(args: seq<Value>, kwargs: seq<(string, Value)>): (r: Result<Store>)
    ensures r.Ok? ==> forall i :: 0 <= i < |args| ==> IsMapping(args[i])
    ensures r.Ok? ==> DistinctKeys(r.value.entries)
  {
    match RawEntries(args, kwargs)
    case Err(e) => Err(e)
    case Ok(raw) =>
      var o := MergeArgs(Store(raw, map[]), args);
      if o.error.Some? then Err(o.error.value)
      else
        var f := MergeEntries(o.store, KwEntries(kwargs));
        if f.error.Some? then Err(f.error.value) else Ok(f.store)
  }

  /** The entries of the dicts among `args`, one dict after the other. */
  function ArgEntries(args: seq<Value>): (r: seq<(Key, Value)>)
    ensures forall i :: 0 <= i < |args| && IsMapping(args[i]) ==> Keys(args[i].entries) <= Keys(r)
  {
    if args == [] then []
    else
      var rest := ArgEntries(args[1..]);
      KeysAppend(if IsMapping(args[0]) then args[0].entries else [], rest);
      assert forall i :: 1 <= i < |args| ==> args[i] == args[1..][i - 1];
      (if IsMapping(args[0]) then args[0].entries else []) + rest
  }

  /** Merging `a + b` is merging `a` and then, if that raised nothing, `b`. */
  lemma {:induction false} MergeEntriesAppend(st: Store, a: seq<(Key, Value)>, b: seq<(Key, Value)>)
    ensures MergeEntries(st, a + b) ==
      var o := MergeEntries(st, a); if o.error.Some? then o else MergeEntries(o.store, b)
    decreases a
  {
    if a == [] {
      assert a + b == b;
    } else {
      var e := a[0];
      assert e in a && e.1 < e;
      assert (a + b)[0] == e && (a + b)[1..] == a[1..] + b;
      if AttributeName(e.0).Ok? && Objectify(e.1).Ok? {
        MergeEntriesAppend(Store(Put(st.entries, e.0, Objectify(e.1).value),
                                 st.index[AttributeName(e.0).value := e.0]), a[1..], b);
      }
    }
  }

  /** The loop over the positional arguments, when they are all dicts, is one merge of their
      entries taken in order. */
  lemma {:induction false} MergeArgsIsMergeEntries(st: Store, args: seq<Value>)
    requires forall i :: 0 <= i < |args| ==> IsMapping(args[i])
    ensures MergeArgs(st, args) == MergeEntries(st, ArgEntries(args))
    decreases args
  {
    if args != [] {
      MergeEntriesAppend(st, args[0].entries, ArgEntries(args[1..]));
      var o := MergeEntries(st, args[0].entries);
      if o.error.None? {
        assert forall i :: 0 <= i < |args[1..]| ==> args[1..][i] == args[i + 1];
        MergeArgsIsMergeEntries(o.store, args[1..]);
      }
    }
  }

  /** The raw fill only holds keys that the merges write again. */
  lemma RawEntriesKeys(args: seq<Value>, kwargs: seq<(string, Value)>)
    requires RawEntries(args, kwargs).Ok?
    ensures Keys(RawEntries(args, kwargs).value) <= Keys(ArgEntries(args) + KwEntries(kwargs))
  {
    KeysAppend(ArgEntries(args), KwEntries(kwargs));
  }

  /** With dicts as positional arguments, the constructor is a single merge of every source's
      entries (the positional dicts from left to right, then the keyword arguments) into the
      raw fill: it raises exactly when that merge does, and otherwise leaves its state. */
  lemma ConstructIsOneMerge(args: seq<Value>, kwargs: seq<(string, Value)>)
    requires forall i :: 0 <= i < |args| ==> IsMapping(args[i])
    ensures RawEntries(args, kwargs).Ok?
    ensures var o := MergeEntries(Store(RawEntries(args, kwargs).value, map[]), ArgEntries(args) + KwEntries(kwargs));
      && (Construct(args, kwargs).Ok? <==> o.error.None?)
      && (Construct(args, kwargs).Err? ==> Some(Construct(args, kwargs).error) == o.error)
      && (Construct(args, kwargs).Ok? ==> Construct(args, kwargs).value == o.store)
  {
    var st := Store(RawEntries(args, kwargs).value, map[]);
    MergeArgsIsMergeEntries(st, args);
    MergeEntriesAppend(st, ArgEntries(args), KwEntries(kwargs));
  }

  /** What the constructor builds: exactly the keys of all its sources, each holding the
      objectified value of the last source that has it, and the base name of every key
      registered for the last key that derives it, with no other name. */
  lemma ConstructContents(args: seq<Value>, kwargs: seq<(string, Value)>)
    requires Construct(args, kwargs).Ok?
    ensures var all := ArgEntries(args) + KwEntries(kwargs); var r := Construct(args, kwargs).value;
      && Keys(r.entries) == Keys(all)
      && (forall k :: k in Keys(all) ==> Objectify(GetLast(all, k).value) == Ok(Get(r.entries, k).value))
      && (forall name :: NameOwner(all, name).Some? ==> name in r.index && r.index[name] == NameOwner(all, name).value)
      && (forall name :: NameOwner(all, name).None? ==> name !in r.index)
  {
    var all := ArgEntries(args) + KwEntries(kwargs);
    var st := Store(RawEntries(args, kwargs).value, map[]);
    ConstructIsOneMerge(args, kwargs);
    RawEntriesKeys(args, kwargs);
    MergeEntriesItems(st, all);
    MergeEntriesNames(st, all);
  }

  /** A key that none of the dicts among `args` has is not among their entries. */
  lemma {:induction false} ArgEntriesOmits(args: seq<Value>, k: Key)
    requires forall j :: 0 <= j < |args| && IsMapping(args[j]) ==> k !in Keys(args[j].entries)
    ensures k !in Keys(ArgEntries(args))
    decreases args
  {
    if args != [] {
      assert forall j :: 0 <= j < |args[1..]| ==> args[1..][j] == args[j + 1];
      ArgEntriesOmits(args[1..], k);
      KeysAppend(if IsMapping(args[0]) then args[0].entries else [], ArgEntries(args[1..]));
    }
  }

  /** Among the positional dicts, the last one that has `k` gives its value. */
  lemma {:induction false} ArgEntriesLast(args: seq<Value>, i: nat, k: Key)
    requires i < |args| && IsMapping(args[i]) && k in Keys(args[i].entries)
    requires forall j :: i < j < |args| && IsMapping(args[j]) ==> k !in Keys(args[j].entries)
    ensures GetLast(ArgEntries(args), k) == GetLast(args[i].entries, k)
    decreases i
  {
    var head := if IsMapping(args[0]) then args[0].entries else [];
    assert forall j :: 0 <= j < |args[1..]| ==> args[1..][j] == args[j + 1];
    GetLastAppend(head, ArgEntries(args[1..]), k);
    if i == 0 {
      ArgEntriesOmits(args[1..], k);
    } else {
      ArgEntriesLast(args[1..], i - 1, k);
    }
  }

  /** Precedence among the constructor's sources: a key of positional argument `i` that no later
      positional argument and no keyword argument has holds the objectified value from argument
      `i`. A key of the first of two dicts only thus survives with its value. */
  lemma ConstructSourceWins(args: seq<Value>, kwargs: seq<(string, Value)>, i: nat, k: Key)
    requires Construct(args, kwargs).Ok?
    requires i < |args| && k in Keys(args[i].entries) && k !in Keys(KwEntries(kwargs))
    requires forall j :: i < j < |args| ==> k !in Keys(args[j].entries)
    ensures var r := Construct(args, kwargs).value;
      && k in Keys(r.entries)
      && Objectify(GetLast(args[i].entries, k).value) == Ok(Get(r.entries, k).value)
  {
    ConstructContents(args, kwargs);
    GetLastAppend(ArgEntries(args), KwEntries(kwargs), k);
    ArgEntriesLast(args, i, k);
  }

  /** `objectify(d)` for a plain dict is `DictObject(d)`: the same state, or the same error. */
  lemma ObjectifyIsConstructor(es: seq<(Key, Value)>)
    ensures Construct([Dict(es)], []).Ok? <==> Objectify(Dict(es)).Ok?
    ensures Construct([Dict(es)], []).Err? ==> Construct([Dict(es)], []).error == Objectify(Dict(es)).error
    ensures Construct([Dict(es)], []).Ok? ==>
      var o := Objectify(Dict(es)).value;
      Construct([Dict(es)], []).value == Store(o.entries, o.index)
  {
    var raw := PutAll([], es);
    assert KwEntries([]) == [];
    assert RawEntries([Dict(es)], []) == Ok(raw);
    var o := MergeEntries(Store(raw, map[]), es);
    assert [Dict(es)][1..] == [];
    assert MergeArgs(Store(raw, map[]), [Dict(es)]) == if o.error.Some? then o else Outcome(o.store, None);
    assert MergeEntries(o.store, []) == Outcome(o.store, None);
  }

  /** Every key of the dict `d` is present in `r`, holding the objectified value `d` gives it last. */
  ghost predicate Holds(r: Store, d: Value) {
    && IsMapping(d)
    && forall k :: k in Keys(d.entries) ==>
         k in Keys(r.entries) && Objectify(GetLast(d.entries, k).value) == Ok(Get(r.entries, k).value)
  }

  /** The last positional argument wins over the earlier ones for each of its keys. */
  lemma {:induction false} MergeArgsLastWins(st: Store, args: seq<Value>)
    requires args != [] && MergeArgs(st, args).error.None?
    ensures Holds(MergeArgs(st, args).store, args[|args| - 1])
    decreases args
  {
    MergeArgsStep(st, args);
    var o := MergeEntries(st, args[0].entries);
    if |args| == 1 {
      assert MergeArgs(o.store, args[1..]) == Outcome(o.store, None);
      MergeEntriesItems(st, args[0].entries);
    } else {
      MergeArgsLastWins(o.store, args[1..]);
      assert args[1..][|args[1..]| - 1] == args[|args| - 1];
    }
  }

  /** One turn of the argument loop that raises nothing. */
  lemma MergeArgsStep(st: Store, args: seq<Value>)
    requires args != [] && MergeArgs(st, args).error.None?
    ensures IsMapping(args[0])
    ensures MergeEntries(st, args[0].entries).error.None?
    ensures MergeArgs(st, args) == MergeArgs(MergeEntries(st, args[0].entries).store, args[1..])
  {
  }

  /** The constructor's later sources win: a keyword argument over every positional one, and the
      last positional argument over the earlier ones. */
  lemma ConstructLaterWins(args: seq<Value>, kwargs: seq<(string, Value)>)
    requires Construct(args, kwargs).Ok?
    ensures var r := Construct(args, kwargs).value; var kw := KwEntries(kwargs);
      && (forall k :: k in Keys(kw) ==>
            k in Keys(r.entries) && Objectify(GetLast(kw, k).value) == Ok(Get(r.entries, k).value))
      && (args != [] ==>
            forall k :: k in Keys(args[|args| - 1].entries) && k !in Keys(kw) ==>
              && k in Keys(r.entries)
              && Objectify(GetLast(args[|args| - 1].entries, k).value) == Ok(Get(r.entries, k).value))
  {
    var raw := RawEntries(args, kwargs).value;
    var o := MergeArgs(Store(raw, map[]), args);
    MergeEntriesItems(o.store, KwEntries(kwargs));
    if args != [] {
      MergeArgsLastWins(Store(raw, map[]), args);
    }
  }
}
