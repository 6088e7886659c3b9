/**
 * Python dictionaries as their entries in insertion order.
 *
 * Every dict of the library (a plain `dict` argument, the dict part of a
 * `DictObject`) is a sequence of (key, value) entries. Reading a key gives the
 * value of its entry; writing a present key replaces the value in place and a
 * new key is appended at the end; deleting removes the entry. A real dict never
 * holds a key twice (`DistinctKeys`), and every writer here keeps it that way.
 */
module Dicts {
  import opened DictKeys
  import opened Results

  function Keys<V>(d: seq<(Key, V)>): set<Key> {
    if d == [] then {} else {d[0].0} + Keys(d[1..])
  }

  /** No key is carried by two entries. */
  ghost predicate DistinctKeys<V>(d: seq<(Key, V)>) {
    d == [] || (d[0].0 !in Keys(d[1..]) && DistinctKeys(d[1..]))
  }

  /** A key is present exactly when some entry carries it. */
  lemma {:induction false} KeysMember<V>(d: seq<(Key, V)>, k: Key)
    ensures k in Keys(d) <==> exists i :: 0 <= i < |d| && d[i].0 == k
  {
    if d != [] {
      KeysMember(d[1..], k);
      if k in Keys(d[1..]) {
        var i :| 0 <= i < |d[1..]| && d[1..][i].0 == k;
        assert d[i + 1].0 == k;
      }
      forall i | 1 <= i < |d| && d[i].0 == k ensures k in Keys(d[1..]) {
        assert d[1..][i - 1].0 == k;
      }
    }
  }

  /** `d[k]`: the value of the entry for `k`, if any. */
  function Get<V>(d: seq<(Key, V)>, k: Key): (r: Option<V>)
    ensures r.Some? <==> k in Keys(d)
  {
    if d == [] then None
    else if d[0].0 == k then Some(d[0].1)
    else Get(d[1..], k)
  }

  /** The value that a dict built by writing these entries one after the other holds for `k`:
      the value of the last entry for `k`. */
  function GetLast<V>(d: seq<(Key, V)>, k: Key): (r: Option<V>)
    ensures r.Some? <==> k in Keys(d)
  {
    if d == [] then None
    else
      var later := GetLast(d[1..], k);
      if later.Some? then later
      else if d[0].0 == k then Some(d[0].1)
      else None
  }

  /** `d[k] = v`. */
  function Put<V>(d: seq<(Key, V)>, k: Key, v: V): (r: seq<(Key, V)>)
    ensures Get(r, k) == Some(v)
    ensures forall k' :: k' != k ==> Get(r, k') == Get(d, k')
    ensures Keys(r) == Keys(d) + {k}
    ensures k in Keys(d) ==> |r| == |d|
    ensures DistinctKeys(d) ==> DistinctKeys(r)
  {
    if d == [] then [(k, v)]
    else if d[0].0 == k then [(k, v)] + d[1..]
    else
      [d[0]] + Put(d[1..], k, v)
  }

  /** `del d[k]`. */
  function Remove<V>(d: seq<(Key, V)>, k: Key): (r: seq<(Key, V)>)
    ensures k !in Keys(r)
    ensures forall k' :: k' != k ==> Get(r, k') == Get(d, k')
    ensures Keys(r) == Keys(d) - {k}
    ensures DistinctKeys(d) ==> DistinctKeys(r)
  {
    if d == [] then []
    else if d[0].0 == k then Remove(d[1..], k)
    else [d[0]] + Remove(d[1..], k)
  }

  /** `d.update(es)`: writes the entries `es` into `d`, one after the other. */
  function PutAll<V>(d: seq<(Key, V)>, es: seq<(Key, V)>): (r: seq<(Key, V)>)
    ensures Keys(r) == Keys(d) + Keys(es)
    ensures forall k :: k in Keys(es) ==> Get(r, k) == GetLast(es, k)
    ensures forall k :: k !in Keys(es) ==> Get(r, k) == Get(d, k)
    ensures DistinctKeys(d) ==> DistinctKeys(r)
    decreases es
  {
    if es == [] then d else PutAll(Put(d, es[0].0, es[0].1), es[1..])
  }

  /** In a real dict, the last entry for a key is its only one. */
  lemma {:induction false} GetLastOfDistinct<V>(d: seq<(Key, V)>, k: Key)
    requires DistinctKeys(d)
    ensures GetLast(d, k) == Get(d, k)
  {
    if d != [] {
      GetLastOfDistinct(d[1..], k);
    }
  }

  /** The entry at position `i` of a real dict is the one `Get` finds. */
  lemma {:induction false} GetOfDistinct<V>(d: seq<(Key, V)>, i: nat)
    requires DistinctKeys(d) && i < |d|
    ensures Get(d, d[i].0) == Some(d[i].1)
  {
    if i > 0 {
      KeysMember(d[1..], d[i].0);
      assert d[1..][i - 1] == d[i];
      GetOfDistinct(d[1..], i - 1);
    }
  }

  /** A second write to a key replaces the first, in the first one's place. */
  lemma {:induction false} PutPut<V>(d: seq<(Key, V)>, k: Key, w: V, v: V)
    ensures Put(Put(d, k, w), k, v) == Put(d, k, v)
  {
    if d != [] && d[0].0 != k {
      PutPut(d[1..], k, w, v);
      assert Put(d, k, w)[1..] == Put(d[1..], k, w);
    }
  }

  /** Deleting a key that was just added restores the dict. */
  lemma {:induction false} RemovePutFresh<V>(d: seq<(Key, V)>, k: Key, v: V)
    requires k !in Keys(d)
    ensures Remove(Put(d, k, v), k) == d
  {
    if d != [] {
      RemovePutFresh(d[1..], k, v);
      assert Put(d, k, v)[1..] == Put(d[1..], k, v);
    }
  }

  /** Writing a present key replaces its value where it stands: the order is kept. */
  lemma {:induction false} PutInPlace<V>(a: seq<(Key, V)>, k: Key, x: V, b: seq<(Key, V)>, w: V)
    requires k !in Keys(a)
    ensures Put(a + [(k, x)] + b, k, w) == a + [(k, w)] + b
  {
    if a != [] {
      PutInPlace(a[1..], k, x, b, w);
      assert (a + [(k, x)] + b)[1..] == a[1..] + [(k, x)] + b;
      assert (a + [(k, w)] + b)[1..] == a[1..] + [(k, w)] + b;
    }
  }

  lemma {:induction false} KeysAppend<V>(a: seq<(Key, V)>, b: seq<(Key, V)>)
    ensures Keys(a + b) == Keys(a) + Keys(b)
  {
    if a != [] {
      KeysAppend(a[1..], b);
      assert (a + b)[1..] == a[1..] + b;
    } else {
      assert a + b == b;
    }
  }

  /** Writing `a` and then `b`: a key of `b` ends with its last value in `b`, any other key
      with its last value in `a`. */
  lemma {:induction false} GetLastAppend<V>(a: seq<(Key, V)>, b: seq<(Key, V)>, k: Key)
    ensures GetLast(a + b, k) == if k in Keys(b) then GetLast(b, k) else GetLast(a, k)
  {
    if a == [] {
      assert a + b == b;
    } else {
      assert (a + b)[0] == a[0] && (a + b)[1..] == a[1..] + b;
      GetLastAppend(a[1..], b, k);
    }
  }

  /** `dict(d)` for a real dict `d` copies its entries in their order. */
  lemma {:induction false} PutAllDistinct<V>(d: seq<(Key, V)>, es: seq<(Key, V)>)
    requires DistinctKeys(d + es)
    ensures PutAll(d, es) == d + es
    decreases es
  {
    if es == [] {
      assert d + es == d;
    } else {
      DistinctAppendHead(d, es);
      assert Put(d, es[0].0, es[0].1) == d + [es[0]];
      assert d + [es[0]] + es[1..] == d + es;
      PutAllDistinct(d + [es[0]], es[1..]);
    }
  }

  lemma {:induction false} PutAppend<V>(d: seq<(Key, V)>, k: Key, v: V)
    requires k !in Keys(d)
    ensures Put(d, k, v) == d + [(k, v)]
  {
    if d != [] {
      PutAppend(d[1..], k, v);
      assert (d + [(k, v)])[1..] == d[1..] + [(k, v)];
    }
  }

  lemma {:induction false} DistinctAppendHead<V>(d: seq<(Key, V)>, es: seq<(Key, V)>)
    requires DistinctKeys(d + es) && es != []
    ensures es[0].0 !in Keys(d)
    ensures Put(d, es[0].0, es[0].1) == d + [es[0]]
  {
    if d == [] {
      assert d + es == es;
    } else {
      assert (d + es)[1..] == d[1..] + es;
      KeysAppend(d[1..], es);
      DistinctAppendHead(d[1..], es);
    }
    PutAppend(d, es[0].0, es[0].1);
  }

  lemma SplitHead<T>(a: seq<T>, b: seq<T>)
    requires b != []
    ensures a + b == a + [b[0]] + b[1..]
  {
    assert b == [b[0]] + b[1..];
  }
}
