/** Insertion-ordered dictionaries, as the module-level caches use them. */
module OrderedDict {
  import opened Wrappers

  datatype Item<K, +V> = Item(key: K, val: V)

  /** Position of the first item under `k`, or |d|. */
  function Index<K(==), V>(d: seq<Item<K, V>>, k: K): (i: nat)
    ensures i <= |d|
    ensures i < |d| ==> d[i].key == k
    ensures forall j :: 0 <= j < i ==> d[j].key != k
  {
    if d == [] || d[0].key == k then 0 else 1 + Index(d[1..], k)
  }

  function Get<K(==), V>(d: seq<Item<K, V>>, k: K): Option<V> {
    var i := Index(d, k);
    if i < |d| then Some(d[i].val) else None
  }

  /** `d[k] = v`: in place when present, appended otherwise. */
  function Put<K(==), V>(d: seq<Item<K, V>>, k: K, v: V): seq<Item<K, V>> {
    var i := Index(d, k);
    if i < |d| then d[i := Item(k, v)] else d + [Item(k, v)]
  }

  /** `d.pop(k, None)`. */
  function Pop<K(==), V>(d: seq<Item<K, V>>, k: K): seq<Item<K, V>> {
    var i := Index(d, k);
    if i < |d| then d[..i] + d[i + 1..] else d
  }

  /** Drop the oldest items until fewer than `cap` remain. */
  function Room<K, V>(d: seq<Item<K, V>>, cap: nat): seq<Item<K, V>>
    requires cap > 0
  {
    if |d| >= cap then d[|d| - cap + 1..] else d
  }

  ghost predicate Unique<K, V>(d: seq<Item<K, V>>) {
    forall i, j :: 0 <= i < j < |d| ==> d[i].key != d[j].key
  }

  ghost function Keys<K, V>(d: seq<Item<K, V>>): set<K> {
    set i | 0 <= i < |d| :: d[i].key
  }

  lemma PutGet<K, V>(d: seq<Item<K, V>>, k: K, v: V)
    ensures Get(Put(d, k, v), k) == Some(v)
  {
    var i, d' := Index(d, k), Put(d, k, v);
    assert d'[i] == Item(k, v);
    assert forall j :: 0 <= j < i ==> d'[j] == d[j];
  }

  lemma PutOther<K, V>(d: seq<Item<K, V>>, k: K, v: V, other: K)
    requires other != k
    ensures Get(Put(d, k, v), other) == Get(d, other)
  {
    var d' := Put(d, k, v);
    var i, j := Index(d, other), Index(d', other);
    if i < |d| {
      assert d'[i] == d[i];
    }
    if j < |d'| {
      assert j < |d| && d[j] == d'[j];
    }
  }

  lemma {:induction false} KeysCount<K, V>(d: seq<Item<K, V>>)
    requires Unique(d)
    ensures |Keys(d)| == |d|
  {
    if d != [] {
      var n := |d| - 1;
      KeysCount(d[..n]);
      assert Keys(d) == Keys(d[..n]) + {d[n].key};
    }
  }
}
