/**
 A JavaScript `Map`: at most one entry per key, enumerated in insertion order.
 `set` on a present key keeps the key's place; on an absent key it appends.
 */
module JsMap {
  import opened Prelude

  datatype Entry<+K, +V> = Entry(key: K, value: V)

  ghost predicate Unique<K, V>(m: seq<Entry<K, V>>) {
    forall i, j :: 0 <= i < j < |m| ==> m[i].key != m[j].key
  }

  ghost function Keys<K, V>(m: seq<Entry<K, V>>): set<K> {
    set i | 0 <= i < |m| :: m[i].key
  }

  /** The position of the first entry for `k`, or `|m|` when there is none. */
  function Find<K(==), V>(m: seq<Entry<K, V>>, k: K): (i: nat)
    ensures i <= |m|
    ensures i < |m| ==> m[i].key == k
    ensures forall j :: 0 <= j < i ==> m[j].key != k
  {
    if m == [] || m[0].key == k then 0 else 1 + Find(m[1..], k)
  }

  function Get<K(==), V>(m: seq<Entry<K, V>>, k: K): (v: Option<V>) {
    var i := Find(m, k);
    if i < |m| then Some(m[i].value) else None
  }

  function Put<K(==), V>(m: seq<Entry<K, V>>, k: K, v: V): seq<Entry<K, V>> {
    var i := Find(m, k);
    if i < |m| then m[i := Entry(k, v)] else m + [Entry(k, v)]
  }

  function Delete<K(==), V>(m: seq<Entry<K, V>>, k: K): seq<Entry<K, V>> {
    var i := Find(m, k);
    if i < |m| then m[..i] + m[i + 1..] else m
  }

  /** In a map without repeated keys, an entry is found by its key. */
  lemma FindAt<K, V>(m: seq<Entry<K, V>>, i: nat)
    requires Unique(m) && i < |m|
    ensures Find(m, m[i].key) == i
  {
    var j := Find(m, m[i].key);
    assert !(i < j);
    assert !(j < i);
  }

  lemma GetIffKey<K, V>(m: seq<Entry<K, V>>, k: K)
    ensures k in Keys(m) <==> Get(m, k).Some?
    ensures k in Keys(m) <==> Find(m, k) < |m|
  {
    if k in Keys(m) {
      var i :| 0 <= i < |m| && m[i].key == k;
      assert !(i < Find(m, k));
    }
  }

  lemma PutSpec<K, V>(m: seq<Entry<K, V>>, k: K, v: V)
    requires Unique(m)
    ensures Unique(Put(m, k, v)) && Keys(Put(m, k, v)) == Keys(m) + {k}
    ensures |Put(m, k, v)| == |m| + if k in Keys(m) then 0 else 1
    ensures forall q :: Get(Put(m, k, v), q) == if q == k then Some(v) else Get(m, q)
  {
    var n := Put(m, k, v);
    var i := Find(m, k);
    GetIffKey(m, k);
    assert i < |n| && n[i] == Entry(k, v);
    forall x ensures x in Keys(n) <==> x in Keys(m) + {k} {
      if x in Keys(n) {
        var j :| 0 <= j < |n| && n[j].key == x;
        if j != i { assert j < |m| && m[j].key == x; }
      }
      if x in Keys(m) {
        var j :| 0 <= j < |m| && m[j].key == x;
        assert n[j].key == x;
      }
    }
    forall q ensures Get(n, q) == if q == k then Some(v) else Get(m, q) {
      GetIffKey(m, q);
      GetIffKey(n, q);
      if q == k {
        FindAt(n, i);
      } else if q in Keys(m) {
        var j := Find(m, q);
        assert n[j] == m[j];
        FindAt(n, j);
      }
    }
  }

  lemma DeleteSpec<K, V>(m: seq<Entry<K, V>>, k: K)
    requires Unique(m)
    ensures Unique(Delete(m, k)) && Keys(Delete(m, k)) == Keys(m) - {k}
    ensures |Delete(m, k)| == |m| - if k in Keys(m) then 1 else 0
    ensures forall q :: Get(Delete(m, k), q) == if q == k then None else Get(m, q)
  {
    GetIffKey(m, k);
    if Find(m, k) < |m| {
      WithoutAt(m, Find(m, k));
    } else {
      assert forall q :: Get(m, q) == if q == k then None else Get(m, q);
    }
  }

  /** Dropping the entry at one place. */
  lemma WithoutAt<K, V>(m: seq<Entry<K, V>>, i: nat)
    requires Unique(m) && i < |m|
    ensures var n := m[..i] + m[i + 1..];
      && Unique(n) && Keys(n) == Keys(m) - {m[i].key}
      && forall q :: Get(n, q) == if q == m[i].key then None else Get(m, q)
  {
    var n := m[..i] + m[i + 1..];
    assert forall j :: 0 <= j < |n| ==> n[j] == m[if j < i then j else j + 1];
    KeysWithoutAt(m, n, i);
    forall q ensures Get(n, q) == if q == m[i].key then None else Get(m, q) {
      GetIffKey(m, q);
      GetIffKey(n, q);
      if q != m[i].key && q in Keys(m) {
        var j := Find(m, q);
        FindAt(n, if j < i then j else j - 1);
      }
    }
  }

  lemma KeysWithoutAt<K, V>(m: seq<Entry<K, V>>, n: seq<Entry<K, V>>, i: nat)
    requires Unique(m) && i < |m| && |n| == |m| - 1
    requires forall j :: 0 <= j < |n| ==> n[j] == m[if j < i then j else j + 1]
    ensures Keys(n) == Keys(m) - {m[i].key}
  {
    forall x ensures x in Keys(n) <==> x in Keys(m) - {m[i].key} {
      if x in Keys(n) {
        var j :| 0 <= j < |n| && n[j].key == x;
        assert x == m[if j < i then j else j + 1].key;
      }
      if x in Keys(m) - {m[i].key} {
        var j :| 0 <= j < |m| && m[j].key == x;
        assert n[if j < i then j else j - 1] == m[j];
      }
    }
  }
}
