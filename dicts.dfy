/**
 * Python's `dict` as the environment uses it: an insertion-ordered list of
 * key/value items. Assigning to an existing key keeps its position, a new key
 * goes to the end, and `del` removes the item in place. `ToMap` is the mapping
 * the dictionary denotes; every operation is specified against it.
 */
module Dicts {

  datatype Item<K, V> = Item(key: K, value: V)

  type Dict<K, V> = seq<Item<K, V>>

  function Keys<K(==), V>(d: Dict<K, V>): set<K>
  {
    set i | 0 <= i < |d| :: d[i].key
  }

  /** No key occurs twice: the invariant every dictionary of the model keeps. */
  ghost predicate Distinct<K, V>(d: Dict<K, V>)
  {
    forall i, j :: 0 <= i < j < |d| ==> d[i].key != d[j].key
  }

  /** The values in insertion order, as `d.values()`. */
  function Values<K(==), V>(d: Dict<K, V>): (vs: seq<V>)
    ensures |vs| == |d|
    ensures forall i :: 0 <= i < |d| ==> vs[i] == d[i].value
  {
    if |d| == 0 then [] else Values(d[..|d| - 1]) + [d[|d| - 1].value]
  }

  /** Splitting a suffix at its first element. */
  lemma TailAt<T>(s: seq<T>, j: nat)
    requires j < |s|
    ensures s[j..] == [s[j]] + s[j + 1..] && s[..j + 1][..j] == s[..j]
  {
  }

  /** Extending a prefix by the next element. */
  lemma PrefixSnoc<T>(s: seq<T>, i: nat)
    requires i < |s|
    ensures s[..i + 1] == s[..i] + [s[i]] && s[..i + 1][..i] == s[..i]
  {
  }

  lemma KeysSnoc<K, V>(d: Dict<K, V>, x: Item<K, V>)
    ensures Keys(d + [x]) == Keys(d) + {x.key}
  {
    var e := d + [x];
    forall k | k in Keys(e) ensures k in Keys(d) + {x.key} {
      var i :| 0 <= i < |e| && e[i].key == k;
      if i < |d| { assert d[i].key == k; }
    }
    forall k | k in Keys(d) ensures k in Keys(e) {
      var i :| 0 <= i < |d| && d[i].key == k;
      assert e[i].key == k;
    }
    assert e[|d|].key == x.key;
  }

  /** The mapping the dictionary denotes. */
  function ToMap<K(==), V>(d: Dict<K, V>): (m: map<K, V>)
    ensures m.Keys == Keys(d)
  {
    if |d| == 0 then map[]
    else
      var last := d[|d| - 1];
      assert d == d[..|d| - 1] + [last];
      KeysSnoc(d[..|d| - 1], last);
      ToMap(d[..|d| - 1])[last.key := last.value]
  }

  /** In a dictionary without repeated keys, every item is what its key maps to. */
  lemma {:induction false} ToMapAt<K, V>(d: Dict<K, V>, i: nat)
    requires Distinct(d) && i < |d|
    ensures d[i].key in ToMap(d) && ToMap(d)[d[i].key] == d[i].value
  {
    if i < |d| - 1 {
      ToMapAt(d[..|d| - 1], i);
    }
  }

  /** A dictionary without repeated keys has as many keys as items. */
  lemma {:induction false} DistinctCard<K, V>(d: Dict<K, V>)
    requires Distinct(d)
    ensures |Keys(d)| == |d|
  {
    if |d| > 0 {
      var p := d[..|d| - 1];
      assert d == p + [d[|d| - 1]];
      KeysSnoc(p, d[|d| - 1]);
      DistinctCard(p);
      assert d[|d| - 1].key !in Keys(p);
    }
  }

  /** Position of a key: the first item that holds it. */
  function IndexOf<K(==), V>(d: Dict<K, V>, k: K): (i: nat)
    requires k in Keys(d)
    ensures i < |d| && d[i].key == k
    ensures forall j :: 0 <= j < i ==> d[j].key != k
  {
    if d[0].key == k then 0
    else
      var j :| 0 <= j < |d| && d[j].key == k;
      assert d[1..][j - 1].key == k;
      1 + IndexOf(d[1..], k)
  }

  /** The value stored under a present key, `d[k]`. */
  function Get<K(==), V>(d: Dict<K, V>, k: K): V
    requires k in Keys(d)
  {
    ToMap(d)[k]
  }

  /** The key of item `i` occurs nowhere else in `d`. */
  ghost predicate UniqueAt<K, V>(d: Dict<K, V>, i: nat)
    requires i < |d|
  {
    forall j :: 0 <= j < |d| && j != i ==> d[j].key != d[i].key
  }

  lemma UpdateButLast<T>(s: seq<T>, i: nat, x: T)
    requires i < |s| - 1
    ensures s[i := x][..|s| - 1] == s[..|s| - 1][i := x]
  {
  }

  lemma SwapUpdates<K, V>(m: map<K, V>, a: K, x: V, b: K, y: V)
    requires a != b
    ensures m[a := x][b := y] == m[b := y][a := x]
  {
  }

  lemma {:induction false} ToMapReplace<K, V>(d: Dict<K, V>, i: nat, v: V)
    requires i < |d| && UniqueAt(d, i)
    ensures ToMap(d[i := Item(d[i].key, v)]) == ToMap(d)[d[i].key := v]
  {
    var k := d[i].key;
    var e := d[i := Item(k, v)];
    var p := d[..|d| - 1];
    var last := d[|d| - 1];
    assert ToMap(d) == ToMap(p)[last.key := last.value];
    if i == |d| - 1 {
      assert e[..|e| - 1] == p;
    } else {
      var q := p[i := Item(k, v)];
      assert ToMap(e) == ToMap(q)[last.key := last.value] by {
        UpdateButLast(d, i, Item(k, v));
      }
      assert ToMap(q) == ToMap(p)[k := v] by {
        assert UniqueAt(p, i);
        ToMapReplace(p, i, v);
      }
      SwapUpdates(ToMap(p), k, v, last.key, last.value);
    }
  }

  /** Replacing the value of item `i` keeps every key in its place and every other item. */
  lemma ReplaceKeeps<K, V>(d: Dict<K, V>, i: nat, v: V)
    requires i < |d|
    ensures var r := d[i := Item(d[i].key, v)];
      && Keys(r) == Keys(d)
      && forall j :: 0 <= j < |d| ==> r[j].key == d[j].key && (j != i ==> r[j] == d[j])
  {
    var r := d[i := Item(d[i].key, v)];
    forall x | x in Keys(d) ensures x in Keys(r) {
      var j :| 0 <= j < |d| && d[j].key == x;
      assert r[j].key == x;
    }
  }

  /** `d[k] = v`: an existing key keeps its position, a new key is appended. */
  function Put<K(==), V>(d: Dict<K, V>, k: K, v: V): (r: Dict<K, V>)
    ensures Keys(r) == Keys(d) + {k}
    ensures |r| == if k in Keys(d) then |d| else |d| + 1
    ensures Distinct(d) ==> Distinct(r) && ToMap(r) == ToMap(d)[k := v]
    ensures k !in Keys(d) ==> r == d + [Item(k, v)]
    ensures k in Keys(d) ==> forall j :: 0 <= j < |d| ==> r[j].key == d[j].key && (d[j].key != k ==> r[j] == d[j])
  {
    if k in Keys(d) then
      var i := IndexOf(d, k);
      var r := d[i := Item(k, v)];
      ReplaceKeeps(d, i, v);
      assert Distinct(d) ==> ToMap(r) == ToMap(d)[k := v] by {
        if Distinct(d) { ToMapReplace(d, i, v); }
      }
      r
    else
      var r := d + [Item(k, v)];
      KeysSnoc(d, Item(k, v));
      assert r[..|d|] == d;
      r
  }

  lemma ToMapSnoc<K, V>(d: Dict<K, V>, x: Item<K, V>)
    ensures ToMap(d + [x]) == ToMap(d)[x.key := x.value]
  {
    assert (d + [x])[..|d|] == d;
  }

  lemma MinusFresh<K, V>(m: map<K, V>, k: K, v: V)
    requires k !in m
    ensures m[k := v] - {k} == m
  {
  }

  lemma MinusUpdate<K, V>(m: map<K, V>, a: K, v: V, k: K)
    requires a != k
    ensures (m - {k})[a := v] == m[a := v] - {k}
  {
  }

  lemma {:induction false} ToMapDelete<K, V>(d: Dict<K, V>, i: nat)
    requires i < |d| && UniqueAt(d, i)
    ensures ToMap(d[..i] + d[i + 1..]) == ToMap(d) - {d[i].key}
  {
    var k := d[i].key;
    var p := d[..|d| - 1];
    var last := d[|d| - 1];
    assert d == p + [last];
    ToMapSnoc(p, last);
    if i == |d| - 1 {
      assert d[..i] + d[i + 1..] == p;
      assert k !in Keys(p) by {
        assert forall j :: 0 <= j < |p| ==> p[j].key == d[j].key != k;
      }
      MinusFresh(ToMap(p), k, last.value);
    } else {
      var q := p[..i] + p[i + 1..];
      assert d[..i] + d[i + 1..] == q + [last];
      ToMapSnoc(q, last);
      assert ToMap(q) == ToMap(p) - {k} by {
        assert UniqueAt(p, i);
        ToMapDelete(p, i);
      }
      assert last.key != k;
      MinusUpdate(ToMap(p), last.key, last.value, k);
    }
  }

  lemma KeysDelete<K, V>(d: Dict<K, V>, i: nat)
    requires i < |d|
    ensures Keys(d[..i] + d[i + 1..]) <= Keys(d)
  {
    var r := d[..i] + d[i + 1..];
    forall x | x in Keys(r) ensures x in Keys(d) {
      var j :| 0 <= j < |r| && r[j].key == x;
      if j < i { assert d[j].key == x; } else { assert d[j + 1].key == x; }
    }
  }

  /** `del d[k]` when `k` is present; the dictionary is unchanged otherwise. */
  function Remove<K(==), V>(d: Dict<K, V>, k: K): (r: Dict<K, V>)
    ensures Keys(r) <= Keys(d)
    ensures Distinct(d) ==> Distinct(r) && ToMap(r) == ToMap(d) - {k}
    ensures Distinct(d) ==> |r| == if k in Keys(d) then |d| - 1 else |d|
  {
    if k in Keys(d) then
      var i := IndexOf(d, k);
      var r := d[..i] + d[i + 1..];
      KeysDelete(d, i);
      assert Distinct(d) ==> ToMap(r) == ToMap(d) - {k} by {
        if Distinct(d) { ToMapDelete(d, i); }
      }
      r
    else
      d
  }

  /** Deleting the item `x` from the middle of a dictionary leaves what surrounds it, in order. */
  lemma RemoveItem<K, V>(a: Dict<K, V>, x: Item<K, V>, b: Dict<K, V>)
    requires Distinct(a + [x] + b)
    ensures Remove(a + [x] + b, x.key) == a + b
  {
    var d := a + [x] + b;
    assert d[|a|].key == x.key;
    var i := IndexOf(d, x.key);
    assert i == |a|;
    assert d[..i] == a && d[i + 1..] == b;
  }
}
