/**
 * The legacy `DictObject` (the top-level `__init__.py`): the same two maps and
 * the same item operations as the package, but a different wrapping and
 * different attribute access.
 *
 * Its `_add_to_object_part` wraps as follows: a dict (a `DictObject`
 * included) is copied into a new `DictObject`, whose merge wraps again; a list or tuple keeps its type,
 * its dict elements become `DictObject`s, its list and tuple elements are
 * handed to the `DictObject` constructor, which rejects them, and its other
 * elements stay as they are. `__setattr__` stores the value wrapped under the
 * attribute name but unwrapped under the key the name is registered for, and
 * there are no private instance attributes besides the index.
 */
module Legacy {
  import opened DictKeys
  import opened Results
  import opened Dicts
  import opened Naming
  import opened Values
  import opened Stores
  import Objectification
  import PackageAttributes

  /** Wrapping `v` raises: some key on the way has no attribute name, or a list or tuple
      holds a list or tuple. */
  predicate Rejects(v: Value) {
    match v
    case Scalar(_) => false
    case Dict(es) => EntriesRejected(es)
    case Object(es, _) => EntriesRejected(es)
    case List(xs) => ElemsRejected(xs)
    case ObjectList(xs) => ElemsRejected(xs)
    case Tuple(xs) => ElemsRejected(xs)
  }

  predicate EntriesRejected(es: seq<(Key, Value)>) {
    if es == [] then false
    else
      var e := es[0];
      assert e in es && e.1 < e;
      e.0 == KStr([]) || Rejects(e.1) || EntriesRejected(es[1..])
  }

  predicate ElemsRejected(xs: seq<Value>) {
    xs != [] && (IsSequence(xs[0]) || (IsMapping(xs[0]) && Rejects(xs[0])) || ElemsRejected(xs[1..]))
  }

  /** The two exceptions wrapping can raise. */
  predicate WrapError(e: Error) {
    e == IndexError || e == TypeError
  }

  /** The value `_add_to_object_part` stores for `v`. */
  function Wrap(v: Value): (r: Result<Value>)
    ensures r.Err? <==> Rejects(v)
    ensures r.Err? ==> WrapError(r.error)
    ensures v.Scalar? ==> r == Ok(v)
    ensures r.Ok? && IsMapping(v) ==> r.value.Object?
    ensures r.Ok? && v.List? ==> r.value.List? && |r.value.elems| == |v.elems|
    ensures r.Ok? && v.ObjectList? ==> r.value.ObjectList? && |r.value.elems| == |v.elems|
    ensures r.Ok? && v.Tuple? ==> r.value.Tuple? && |r.value.elems| == |v.elems|
  {
    match v
    case Scalar(_) => Ok(v)
    case Dict(es) =>
      var o := MergeEntries(Store(PutAll([], es), map[]), es);
      if o.error.Some? then Err(o.error.value) else Ok(Object(o.store.entries, o.store.index))
    case Object(es, _) =>
      var o := MergeEntries(Store(PutAll([], es), map[]), es);
      if o.error.Some? then Err(o.error.value) else Ok(Object(o.store.entries, o.store.index))
    case List(xs) =>
      var ys := WrapElems(xs);
      if ys.Err? then Err(ys.error) else Ok(List(ys.value))
    case ObjectList(xs) =>
      var ys := WrapElems(xs);
      if ys.Err? then Err(ys.error) else Ok(ObjectList(ys.value))
    case Tuple(xs) =>
      var ys := WrapElems(xs);
      if ys.Err? then Err(ys.error) else Ok(Tuple(ys.value))
  }

  /** The elements of a wrapped list or tuple: a dict becomes `DictObject(x)`, a list or tuple
      is refused by that constructor, anything else stays. The first failure propagates. */
  function WrapElems(xs: seq<Value>): (r: Result<seq<Value>>)
    ensures r.Err? <==> ElemsRejected(xs)
    ensures r.Err? ==> WrapError(r.error)
    ensures r.Ok? ==> |r.value| == |xs|
    ensures r.Ok? ==> forall i :: 0 <= i < |xs| ==>
      && !IsSequence(xs[i])
      && (IsMapping(xs[i]) ==> Wrap(xs[i]) == Ok(r.value[i]))
      && (xs[i].Scalar? ==> r.value[i] == xs[i])
  {
    if xs == [] then Ok([])
    else
      var y := if IsSequence(xs[0]) then Err(TypeError) else if IsMapping(xs[0]) then Wrap(xs[0]) else Ok(xs[0]);
      match y
      case Err(e) => Err(e)
      case Ok(w) =>
        match WrapElems(xs[1..])
        case Err(e) => Err(e)
        case Ok(ws) => Ok([w] + ws)
  }

  /** The loop of the legacy `merge_dict`: as in the package, but each value is wrapped the
      legacy way. */
  function MergeEntries(st: Store, es: seq<(Key, Value)>): (r: Outcome)
    ensures r.error.Some? <==> EntriesRejected(es)
    ensures r.error.Some? ==> WrapError(r.error.value)
    ensures DistinctKeys(st.entries) ==> DistinctKeys(r.store.entries)
    decreases es
  {
    if es == [] then Outcome(st, None)
    else
      var e := es[0];
      assert e in es && e.1 < e;
      match AttributeName(e.0)
      case Err(err) => Outcome(st, Some(err))
      case Ok(name) =>
        match Wrap(e.1)
        case Err(err) => Outcome(st, Some(err))
        case Ok(w) => MergeEntries(Store(Put(st.entries, e.0, w), st.index[name := e.0]), es[1..])
  }

  /** The first entry of a merge that goes through. */
  lemma MergeEntriesHead(st: Store, es: seq<(Key, Value)>)
    requires es != [] && !EntriesRejected(es)
    ensures AttributeName(es[0].0).Ok? && Wrap(es[0].1).Ok? && !EntriesRejected(es[1..])
    ensures MergeEntries(st, es) ==
      MergeEntries(Store(Put(st.entries, es[0].0, Wrap(es[0].1).value),
                         st.index[AttributeName(es[0].0).value := es[0].0]), es[1..])
  {
  }

  /** A merge that goes through holds, for each key it saw, the wrapped value of that key's
      last entry, and leaves every other item as it was. */
  lemma {:induction false} MergeEntriesItems(st: Store, es: seq<(Key, Value)>)
    requires !EntriesRejected(es)
    ensures var r := MergeEntries(st, es).store;
      && Keys(r.entries) == Keys(st.entries) + Keys(es)
      && (forall k :: k in Keys(es) ==> Wrap(GetLast(es, k).value) == Ok(Get(r.entries, k).value))
      && (forall k :: k !in Keys(es) ==> Get(r.entries, k) == Get(st.entries, k))
    decreases es
  {
    if es != [] {
      MergeEntriesHead(st, es);
      var st' := Store(Put(st.entries, es[0].0, Wrap(es[0].1).value),
                       st.index[AttributeName(es[0].0).value := es[0].0]);
      MergeEntriesItems(st', es[1..]);
    }
  }

  /** The index a legacy merge that goes through leaves: as in the package, each base name of
      `es` is registered for the last key of `es` that derives it, with no numbered variant and
      no warning, and other registrations are kept. */
  lemma {:induction false} MergeEntriesNames(st: Store, es: seq<(Key, Value)>)
    requires !EntriesRejected(es)
    ensures var r := MergeEntries(st, es).store;
      && (forall name :: Objectification.NameOwner(es, name).Some? ==>
            name in r.index && r.index[name] == Objectification.NameOwner(es, name).value)
      && (forall name :: Objectification.NameOwner(es, name).None? ==>
            (name in r.index <==> name in st.index) && (name in st.index ==> r.index[name] == st.index[name]))
    decreases es
  {
    if es != [] {
      MergeEntriesHead(st, es);
      var st' := Store(Put(st.entries, es[0].0, Wrap(es[0].1).value),
                       st.index[AttributeName(es[0].0).value := es[0].0]);
      MergeEntriesNames(st', es[1..]);
    }
  }

  /** Merging `a + b` is merging `a` and then, if that raised nothing, `b`. */
  lemma {:induction false} MergeEntriesAppend(st: Store, a: seq<(Key, Value)>, b: seq<(Key, Value)>)
    ensures MergeEntries(st, a + b) ==
      var o := MergeEntries(st, a); if o.error.Some? then o else MergeEntries(o.store, b)
    decreases a
  {
    if a == [] {
      assert a + b == b;
    } else {
      var e := a[0];
      assert e in a && e.1 < e;
      assert (a + b)[0] == e && (a + b)[1..] == a[1..] + b;
      if AttributeName(e.0).Ok? && Wrap(e.1).Ok? {
        MergeEntriesAppend(Store(Put(st.entries, e.0, Wrap(e.1).value),
                                 st.index[AttributeName(e.0).value := e.0]), a[1..], b);
      }
    }
  }

  /** The legacy `merge_dict(d)`. This and the constructor's functions below have the shape of
      their counterparts in `Objectification`, as the two source files have the same code here;
      they differ in the entry loop they run, which wraps the legacy way. */
  function MergeValue(st: Store, d: Value): (r: Outcome)
    ensures !IsMapping(d) ==> r == Outcome(st, Some(TypeError))
    ensures IsMapping(d) ==> r == MergeEntries(st, d.entries)
  {
    if IsMapping(d) then MergeEntries(st, d.entries) else Outcome(st, Some(TypeError))
  }

  /** The constructor's loop over its positional arguments. */
  function MergeArgs(st: Store, args: seq<Value>): (r: Outcome)
    ensures r.error.None? ==> forall i :: 0 <= i < |args| ==> IsMapping(args[i])
    ensures DistinctKeys(st.entries) ==> DistinctKeys(r.store.entries)
    decreases args
  {
    if args == [] then Outcome(st, None)
    else
      var o := MergeValue(st, args[0]);
      if o.error.Some? then o else MergeArgs(o.store, args[1..])
  }

  /** The legacy `DictObject(*args, **kwargs)`: the same raw fill as the package, then the
      legacy merges. */
  function Construct(args: seq<Value>, kwargs: seq<(string, Value)>): (r: Result<Store>)
    ensures r.Ok? ==> forall i :: 0 <= i < |args| ==> IsMapping(args[i])
    ensures r.Ok? ==> DistinctKeys(r.value.entries)
  {
    match Objectification.RawEntries(args, kwargs)
    case Err(e) => Err(e)
    case Ok(raw) =>
      var o := MergeArgs(Store(raw, map[]), args);
      if o.error.Some? then Err(o.error.value)
      else
        var f := MergeEntries(o.store, Objectification.KwEntries(kwargs));
        if f.error.Some? then Err(f.error.value) else Ok(f.store)
  }

  /** The loop over the positional arguments, when they are all dicts, is one merge of their
      entries taken in order. */
  lemma {:induction false} MergeArgsIsMergeEntries(st: Store, args: seq<Value>)
    requires forall i :: 0 <= i < |args| ==> IsMapping(args[i])
    ensures MergeArgs(st, args) == MergeEntries(st, Objectification.ArgEntries(args))
    decreases args
  {
    if args != [] {
      MergeEntriesAppend(st, args[0].entries, Objectification.ArgEntries(args[1..]));
      var o := MergeEntries(st, args[0].entries);
      if o.error.None? {
        assert forall i :: 0 <= i < |args[1..]| ==> args[1..][i] == args[i + 1];
        MergeArgsIsMergeEntries(o.store, args[1..]);
      }
    }
  }

  /** With dicts as positional arguments, the legacy constructor is a single legacy merge of
      every source's entries into the raw fill: it raises exactly when that merge does, and
      otherwise leaves its state. */
  lemma ConstructIsOneMerge(args: seq<Value>, kwargs: seq<(string, Value)>)
    requires forall i :: 0 <= i < |args| ==> IsMapping(args[i])
    ensures Objectification.RawEntries(args, kwargs).Ok?
    ensures var all := Objectification.ArgEntries(args) + Objectification.KwEntries(kwargs);
      var o := MergeEntries(Store(Objectification.RawEntries(args, kwargs).value, map[]), all);
      && (Construct(args, kwargs).Ok? <==> o.error.None?)
      && (Construct(args, kwargs).Err? ==> Some(Construct(args, kwargs).error) == o.error)
      && (Construct(args, kwargs).Ok? ==> Construct(args, kwargs).value == o.store)
  {
    var st := Store(Objectification.RawEntries(args, kwargs).value, map[]);
    MergeArgsIsMergeEntries(st, args);
    MergeEntriesAppend(st, Objectification.ArgEntries(args), Objectification.KwEntries(kwargs));
  }

  /** What the legacy constructor builds: exactly the keys of all its sources, each holding the
      wrapped value of the last source that has it, and the base name of every key registered
      for the last key that derives it, with no other name. */
  lemma ConstructContents(args: seq<Value>, kwargs: seq<(string, Value)>)
    requires Construct(args, kwargs).Ok?
    ensures var all := Objectification.ArgEntries(args) + Objectification.KwEntries(kwargs);
      var r := Construct(args, kwargs).value;
      && Keys(r.entries) == Keys(all)
      && (forall k :: k in Keys(all) ==> Wrap(GetLast(all, k).value) == Ok(Get(r.entries, k).value))
      && (forall name :: Objectification.NameOwner(all, name).Some? ==>
            name in r.index && r.index[name] == Objectification.NameOwner(all, name).value)
      && (forall name :: Objectification.NameOwner(all, name).None? ==> name !in r.index)
  {
    var all := Objectification.ArgEntries(args) + Objectification.KwEntries(kwargs);
    var st := Store(Objectification.RawEntries(args, kwargs).value, map[]);
    ConstructIsOneMerge(args, kwargs);
    Objectification.RawEntriesKeys(args, kwargs);
    MergeEntriesItems(st, all);
    MergeEntriesNames(st, all);
  }

  /** Precedence among the legacy constructor's sources: a key of positional argument `i` that
      no later positional argument and no keyword argument has holds the wrapped value from
      argument `i`. */
  lemma ConstructSourceWins(args: seq<Value>, kwargs: seq<(string, Value)>, i: nat, k: Key)
    requires Construct(args, kwargs).Ok?
    requires i < |args| && k in Keys(args[i].entries) && k !in Keys(Objectification.KwEntries(kwargs))
    requires forall j :: i < j < |args| ==> k !in Keys(args[j].entries)
    ensures var r := Construct(args, kwargs).value;
      && k in Keys(r.entries)
      && Wrap(GetLast(args[i].entries, k).value) == Ok(Get(r.entries, k).value)
  {
    ConstructContents(args, kwargs);
    GetLastAppend(Objectification.ArgEntries(args), Objectification.KwEntries(kwargs), k);
    Objectification.ArgEntriesLast(args, i, k);
  }

  /** Wrapping a dict is calling the legacy constructor on it: the same state, or the same
      error. */
  lemma WrapIsConstructor(v: Value)
    requires IsMapping(v)
    ensures Construct([v], []).Ok? <==> Wrap(v).Ok?
    ensures Construct([v], []).Err? ==> Construct([v], []).error == Wrap(v).error
    ensures Construct([v], []).Ok? ==>
      Construct([v], []).value == Store(Wrap(v).value.entries, Wrap(v).value.index)
  {
    var es := v.entries;
    var raw := PutAll([], es);
    assert Objectification.KwEntries([]) == [];
    assert Objectification.RawEntries([v], []) == Ok(raw);
    var o := MergeEntries(Store(raw, map[]), es);
    assert [v][1..] == [];
    assert MergeArgs(Store(raw, map[]), [v]) == if o.error.Some? then o else Outcome(o.store, None);
    assert MergeEntries(o.store, []) == Outcome(o.store, None);
  }

  lemma {:induction false} EntriesRejectedAt(es: seq<(Key, Value)>, i: nat)
    requires !EntriesRejected(es) && i < |es|
    ensures es[i].0 != KStr([]) && !Rejects(es[i].1)
  {
    var e := es[0];
    assert e in es && e.1 < e;
    if i > 0 {
      EntriesRejectedAt(es[1..], i - 1);
    }
  }

  /** One turn of the legacy merge loop over the raw copy: the head of `rest` moves, wrapped,
      to the end of `done`. */
  lemma MergeEntriesInPlaceStep(done: seq<(Key, Value)>, rest: seq<(Key, Value)>, index: map<string, Key>)
    requires DistinctKeys(done + rest) && !EntriesRejected(rest) && rest != []
    ensures Wrap(rest[0].1).Ok? && !EntriesRejected(rest[1..])
    ensures var done' := done + [(rest[0].0, Wrap(rest[0].1).value)];
      && DistinctKeys(done' + rest[1..])
      && exists index' :: MergeEntries(Store(done + rest, index), rest) == MergeEntries(Store(done' + rest[1..], index'), rest[1..])
  {
    var e := rest[0];
    MergeEntriesHead(Store(done + rest, index), rest);
    var w := Wrap(e.1).value;
    var index' := index[AttributeName(e.0).value := e.0];
    DistinctAppendHead(done, rest);
    SplitHead(done, rest);
    PutInPlace(done, e.0, e.1, rest[1..], w);
  }

  /** `r` is `done` followed by the entries of `rest` with their values wrapped. */
  predicate WrappedAt(r: seq<(Key, Value)>, done: seq<(Key, Value)>, rest: seq<(Key, Value)>) {
    && |r| == |done| + |rest|
    && r[..|done|] == done
    && forall i :: 0 <= i < |rest| ==> r[|done| + i].0 == rest[i].0 && Wrap(rest[i].1) == Ok(r[|done| + i].1)
  }

  lemma WrappedAtCons(r: seq<(Key, Value)>, done: seq<(Key, Value)>, rest: seq<(Key, Value)>)
    requires rest != [] && Wrap(rest[0].1).Ok?
    requires WrappedAt(r, done + [(rest[0].0, Wrap(rest[0].1).value)], rest[1..])
    ensures WrappedAt(r, done, rest)
  {
    var done' := done + [(rest[0].0, Wrap(rest[0].1).value)];
    assert r[..|done|] == r[..|done'|][..|done|];
    forall i | 0 <= i < |rest|
      ensures r[|done| + i].0 == rest[i].0 && Wrap(rest[i].1) == Ok(r[|done| + i].1)
    {
      if i == 0 {
        assert r[|done|] == r[..|done'|][|done|];
      } else {
        assert rest[1..][i - 1] == rest[i];
        assert |done'| + (i - 1) == |done| + i;
      }
    }
  }

  /** Over the raw copy of a real dict, the legacy merge loop replaces each value by its
      wrapped form where it stands: same keys, same order. */
  lemma {:induction false} MergeEntriesInPlace(done: seq<(Key, Value)>, rest: seq<(Key, Value)>, index: map<string, Key>)
    requires DistinctKeys(done + rest) && !EntriesRejected(rest)
    ensures WrappedAt(MergeEntries(Store(done + rest, index), rest).store.entries, done, rest)
    decreases rest
  {
    var r := MergeEntries(Store(done + rest, index), rest).store.entries;
    if rest == [] {
      assert done + rest == done;
    } else {
      MergeEntriesInPlaceStep(done, rest, index);
      var done' := done + [(rest[0].0, Wrap(rest[0].1).value)];
      var index' :| MergeEntries(Store(done + rest, index), rest) == MergeEntries(Store(done' + rest[1..], index'), rest[1..]);
      MergeEntriesInPlace(done', rest[1..], index');
      WrappedAtCons(r, done, rest);
    }
  }

  /** The entries of the legacy `DictObject(d)` for a real dict `d`: the entries of `d`, in
      order, each value wrapped. */
  lemma WrapDictEntries(v: Value)
    requires IsMapping(v) && DistinctKeys(v.entries) && !Rejects(v)
    ensures var r := Wrap(v).value.entries;
      && |r| == |v.entries|
      && forall i :: 0 <= i < |v.entries| ==> r[i].0 == v.entries[i].0 && Wrap(v.entries[i].1) == Ok(r[i].1)
  {
    var es := v.entries;
    var r := Wrap(v).value.entries;
    assert [] + es == es;
    PutAllDistinct([], es);
    MergeEntriesInPlace([], es, map[]);
    assert WrappedAt(r, [], es);
  }

  /** `a == DictObject(a)`: the legacy wrapping changes the classes, never the content, of a
      value whose dicts are real dicts. Nested dicts are wrapped at every depth. */
  lemma {:induction false} WrapPreservesContent(v: Value)
    requires WellFormed(v) && !Rejects(v)
    ensures Plain(Wrap(v).value) == Plain(v)
    decreases v
  {
    match v
    case Scalar(_) =>
    case Dict(es) => WrapEntriesPreserveContent(v);
    case Object(es, _) => WrapEntriesPreserveContent(v);
    case List(xs) => WrapElemsPreservesContent(xs);
    case ObjectList(xs) => WrapElemsPreservesContent(xs);
    case Tuple(xs) => WrapElemsPreservesContent(xs);
  }

  lemma {:induction false} WrapEntriesPreserveContent(v: Value)
    requires IsMapping(v) && WellFormed(v) && !Rejects(v)
    ensures Plain(Wrap(v).value) == Plain(v)
    decreases v, 0
  {
    var es := v.entries;
    var r := Wrap(v).value.entries;
    WrapDictEntries(v);
    PlainEntriesAt(r);
    PlainEntriesAt(es);
    forall i | 0 <= i < |es|
      ensures PlainEntries(r)[i] == PlainEntries(es)[i]
    {
      var e := es[i];
      assert e in es && e.1 < e;
      Objectification.WellFormedEntriesAt(es, i);
      EntriesRejectedAt(es, i);
      WrapPreservesContent(e.1);
    }
  }

  lemma {:induction false} WrapElemsPreservesContent(xs: seq<Value>)
    requires WellFormedAll(xs) && !ElemsRejected(xs)
    ensures PlainAll(WrapElems(xs).value) == PlainAll(xs)
    decreases xs
  {
    if xs != [] {
      if IsMapping(xs[0]) {
        WrapPreservesContent(xs[0]);
      }
      WrapElemsPreservesContent(xs[1..]);
    }
  }

  /** `DictObject(a) == a` for a real dict `a` that the legacy constructor accepts. */
  lemma ConstructPreservesContent(v: Value)
    requires IsMapping(v) && WellFormed(v) && !Rejects(v)
    ensures Construct([v], []).Ok?
    ensures Plain(Dict(Construct([v], []).value.entries)) == Plain(v)
  {
    WrapIsConstructor(v);
    WrapPreservesContent(v);
  }

  lemma {:induction false} ElemsRejectedAt(xs: seq<Value>, i: nat)
    requires i < |xs| && IsSequence(xs[i])
    ensures ElemsRejected(xs)
  {
    if i > 0 {
      ElemsRejectedAt(xs[1..], i - 1);
    }
  }

  /** Inside a list or tuple, wrapping goes one level deep: a list or tuple directly inside a
      list or tuple makes it fail, where the package's recursive wrapping goes through. */
  lemma WrapOneLevel(v: Value, i: nat)
    requires IsSequence(v) && i < |v.elems| && IsSequence(v.elems[i])
    ensures Wrap(v).Err?
    ensures !Objectification.HasEmptyKey(v) ==> Objectification.Objectify(v).Ok?
  {
    ElemsRejectedAt(v.elems, i);
  }

  /** `__setattr__(name, value)`: the value is wrapped (which may raise before anything
      changes) and stored under the string `name`; `name` is registered for the key it already
      named, else for the string `name`; then that key receives the value unwrapped. */
  function SetAttr(st: Store, name: string, value: Value): (r: Outcome)
    requires name != PackageAttributes.IndexAttribute
    ensures Wrap(value).Err? ==> r == Outcome(st, Some(Wrap(value).error))
    ensures Wrap(value).Ok? ==>
      var k := PackageAttributes.TargetKey(st.index, name);
      && r.error.None?
      && r.store.index == st.index[name := k]
      && Get(r.store.entries, k) == Some(value)
      && (k != KStr(name) ==> Get(r.store.entries, KStr(name)) == Some(Wrap(value).value))
      && (forall k' :: k' != k && k' != KStr(name) ==> Get(r.store.entries, k') == Get(st.entries, k'))
    ensures Resolvable(st) ==> Resolvable(r.store)
    ensures DistinctKeys(st.entries) ==> DistinctKeys(r.store.entries)
  {
    match Wrap(value)
    case Err(e) => Outcome(st, Some(e))
    case Ok(w) =>
      var k := PackageAttributes.TargetKey(st.index, name);
      Outcome(Store(Put(Put(st.entries, KStr(name), w), k, value), st.index[name := k]), None)
  }

  /** `__getattr__(name)`, reached once ordinary lookup has failed. With an empty index it
      returns `None` (after a diagnostic print); otherwise the item of the key `name` is
      registered for, or `AttributeError(name)`. */
  function GetAttr(st: Store, name: string): (r: Result<Value>)
    ensures |st.index| == 0 ==> r == Ok(Scalar(KNone))
    ensures |st.index| != 0 ==> (r.Ok? <==> name in st.index && st.index[name] in Keys(st.entries))
    ensures |st.index| != 0 && r.Ok? ==> Lookup(st, st.index[name]) == r
    ensures r.Err? ==> r.error == AttributeError(name)
  {
    if |st.index| == 0 then Ok(Scalar(KNone))
    else if name !in st.index then Err(AttributeError(name))
    else
      match Lookup(st, st.index[name])
      case Ok(v) => Ok(v)
      case Err(_) => Err(AttributeError(name))
  }

  /** `__delattr__(name)`: the item of the key `name` is registered for goes, then the
      registration. An unregistered name and a key without an item both raise `KeyError` before
      anything changes. */
  function DelAttr(st: Store, name: string): (r: Outcome)
    ensures name !in st.index ==> r == Outcome(st, Some(KeyError(KStr(name))))
    ensures name in st.index && st.index[name] !in Keys(st.entries) ==>
      r == Outcome(st, Some(KeyError(st.index[name])))
    ensures name in st.index && st.index[name] in Keys(st.entries) ==>
      var k := st.index[name];
      && r.error.None?
      && r.store.index == st.index - {name}
      && Keys(r.store.entries) == Keys(st.entries) - {k}
      && (forall k' :: k' != k ==> Get(r.store.entries, k') == Get(st.entries, k'))
    ensures DistinctKeys(st.entries) ==> DistinctKeys(r.store.entries)
  {
    if name !in st.index then Outcome(st, Some(KeyError(KStr(name))))
    else
      var k := st.index[name];
      if k !in Keys(st.entries) then Outcome(st, Some(KeyError(k)))
      else Outcome(Store(Remove(st.entries, k), st.index - {name}), None)
  }

  /** `k in obj`: `k` has an item, or `k` is a string and `hasattr(obj, k)`; any exception
      counts as absent. While the index is empty every string is contained. */
  function Contains(st: Store, k: Key): (r: bool)
    ensures !k.KStr? ==> (r <==> k in Keys(st.entries))
    ensures k in Keys(st.entries) ==> r
    ensures k.KStr? && |st.index| == 0 ==> r
    ensures k.KStr? && k !in Keys(st.entries) && |st.index| != 0 ==>
      (r <==> k.s in st.index && st.index[k.s] in Keys(st.entries))
  {
    k in Keys(st.entries) || (k.KStr? && GetAttr(st, k.s).Ok?)
  }

  /** An attribute set for the first time reads back unwrapped, both as an attribute and as
      the item of its name: a dict assigned as an attribute stays a plain dict. */
  lemma SetAttrStoresRaw(st: Store, name: string, value: Value)
    requires name != PackageAttributes.IndexAttribute && name !in st.index
    requires Wrap(value).Ok?
    ensures GetAttr(SetAttr(st, name, value).store, name) == Ok(value)
    ensures Lookup(SetAttr(st, name, value).store, KStr(name)) == Ok(value)
    ensures value.Dict? ==> Wrap(value) != Ok(value)
  {
  }

  /** An item set through `__setitem__` is wrapped, and reads back wrapped as an attribute under
      its resolved name. */
  lemma SetItemThenGetAttr(st: Store, key: Key, value: Value)
    requires SetItem(st, key, Wrap(value)).error.None?
    ensures var name := ResolvedName(st.index, key, AttributeName(key).value);
      var after := SetItem(st, key, Wrap(value)).store;
      && Contains(after, key)
      && GetAttr(after, name) == Wrap(value)
  {
  }

  /** Deleting an attribute that was just set for the first time, under a name no item had,
      restores the object. */
  lemma DelAttrUndoesSetAttr(st: Store, name: string, value: Value)
    requires name != PackageAttributes.IndexAttribute
    requires name !in st.index && KStr(name) !in Keys(st.entries)
    requires Wrap(value).Ok?
    ensures DelAttr(SetAttr(st, name, value).store, name) == Outcome(st, None)
  {
    var w := Wrap(value).value;
    PutPut(st.entries, KStr(name), w, value);
    RemovePutFresh(st.entries, KStr(name), value);
    assert st.index[name := KStr(name)] - {name} == st.index;
  }
}
