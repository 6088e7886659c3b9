/**
 * The values a `DictObject` holds, as immutable trees.
 *
 * A scalar is one of the hashable atoms (`Key`). A plain `dict` and a
 * `DictObject` are both mappings: a `DictObject` additionally carries its
 * attribute index. A plain `list`, a `DictObjectList` and a `tuple` are the
 * three sequence kinds.
 */
module Values {
  import opened DictKeys
  import opened Results
  import opened Dicts

  datatype Value =
    | Scalar(atom: Key)
    | Dict(entries: seq<(Key, Value)>)
    | Object(entries: seq<(Key, Value)>, index: map<string, Key>)
    | List(elems: seq<Value>)
    | ObjectList(elems: seq<Value>)
    | Tuple(elems: seq<Value>)

  /** `isinstance(v, dict)`: a `DictObject` is a `dict` too. */
  predicate IsMapping(v: Value) {
    v.Dict? || v.Object?
  }

  /** `isinstance(v, (list, tuple))`: a `DictObjectList` is a `list` too. */
  predicate IsSequence(v: Value) {
    v.List? || v.ObjectList? || v.Tuple?
  }

  /** Every mapping in the tree, at every depth, holds each key once, as a real dict does. */
  ghost predicate WellFormed(v: Value) {
    match v
    case Scalar(_) => true
    case Dict(es) => DistinctKeys(es) && WellFormedEntries(es)
    case Object(es, _) => DistinctKeys(es) && WellFormedEntries(es)
    case List(xs) => WellFormedAll(xs)
    case ObjectList(xs) => WellFormedAll(xs)
    case Tuple(xs) => WellFormedAll(xs)
  }

  ghost predicate WellFormedEntries(es: seq<(Key, Value)>) {
    if es == [] then true
    else
      var e := es[0];
      assert e in es && e.1 < e;
      WellFormed(e.1) && WellFormedEntries(es[1..])
  }

  ghost predicate WellFormedAll(xs: seq<Value>) {
    xs == [] || (WellFormed(xs[0]) && WellFormedAll(xs[1..]))
  }

  /** The value with every `DictObject` read as the `dict` it is and every `DictObjectList` as
      the `list` it is: `Plain(a) == Plain(b)` means that `a == b` in Python, where a dict
      subclass compares as a dict and a list subclass as a list. */
  function Plain(v: Value): (r: Value)
    ensures !r.Object? && !r.ObjectList?
    ensures IsMapping(v) <==> r.Dict?
    ensures IsSequence(v) <==> IsSequence(r)
  {
    match v
    case Scalar(_) => v
    case Dict(es) => Dict(PlainEntries(es))
    case Object(es, _) => Dict(PlainEntries(es))
    case List(xs) => List(PlainAll(xs))
    case ObjectList(xs) => List(PlainAll(xs))
    case Tuple(xs) => Tuple(PlainAll(xs))
  }

  function PlainEntries(es: seq<(Key, Value)>): (r: seq<(Key, Value)>)
    ensures |r| == |es|
    ensures forall i :: 0 <= i < |es| ==> r[i].0 == es[i].0
  {
    if es == [] then []
    else
      var e := es[0];
      assert e in es && e.1 < e;
      [(e.0, Plain(e.1))] + PlainEntries(es[1..])
  }

  function PlainAll(xs: seq<Value>): (r: seq<Value>)
    ensures |r| == |xs|
  {
    if xs == [] then [] else [Plain(xs[0])] + PlainAll(xs[1..])
  }

  lemma {:induction false} PlainEntriesAt(es: seq<(Key, Value)>)
    ensures forall i :: 0 <= i < |es| ==> PlainEntries(es)[i] == (es[i].0, Plain(es[i].1))
  {
    if es != [] {
      PlainEntriesAt(es[1..]);
      assert forall i :: 1 <= i < |es| ==> es[1..][i - 1] == es[i];
    }
  }

  lemma {:induction false} PlainAllAt(xs: seq<Value>)
    ensures forall i :: 0 <= i < |xs| ==> PlainAll(xs)[i] == Plain(xs[i])
  {
    if xs != [] {
      PlainAllAt(xs[1..]);
      assert forall i :: 1 <= i < |xs| ==> xs[1..][i - 1] == xs[i];
    }
  }

  /** The keys of a mapping, in order, as the scalars `for k in d` yields. */
  function KeyScalars(es: seq<(Key, Value)>): (r: seq<Value>)
    ensures |r| == |es|
    ensures forall i :: 0 <= i < |es| ==> r[i] == Scalar(es[i].0)
  {
    if es == [] then [] else [Scalar(es[0].0)] + KeyScalars(es[1..])
  }

  /** One-character strings, as `for c in s` yields them. */
  function CharScalars(s: string): (r: seq<Value>)
    ensures |r| == |s|
    ensures forall i :: 0 <= i < |s| ==> r[i] == Scalar(KStr([s[i]]))
  {
    if s == [] then [] else [Scalar(KStr([s[0]]))] + CharScalars(s[1..])
  }

  /** `for x in v`: the elements of a sequence, the keys of a mapping, the characters of a
      string; a number, a boolean or `None` is not iterable. */
  function Iterate(v: Value): (r: Result<seq<Value>>)
    ensures r.Err? <==> v.Scalar? && !v.atom.KStr?
    ensures r.Err? ==> r.error == TypeError
    ensures IsSequence(v) ==> r == Ok(v.elems)
    ensures IsMapping(v) ==> r.Ok? && |r.value| == |v.entries|
    ensures IsMapping(v) ==> forall i :: 0 <= i < |v.entries| ==> r.value[i] == Scalar(v.entries[i].0)
    ensures v.Scalar? && v.atom.KStr? ==>
      && r.Ok? && |r.value| == |v.atom.s|
      && forall i :: 0 <= i < |v.atom.s| ==> r.value[i] == Scalar(KStr([v.atom.s[i]]))
  {
    match v
    case Scalar(KStr(s)) => Ok(CharScalars(s))
    case Scalar(_) => Err(TypeError)
    case Dict(es) => Ok(KeyScalars(es))
    case Object(es, _) => Ok(KeyScalars(es))
    case List(xs) => Ok(xs)
    case ObjectList(xs) => Ok(xs)
    case Tuple(xs) => Ok(xs)
  }
}
