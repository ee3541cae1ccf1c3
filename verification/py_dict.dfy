/**
  A model of the insertion-ordered Python dictionary that the engine uses for
  its `default_state` (stock name to initial value).

  A dictionary is a sequence of items with pairwise distinct keys. Assigning to
  a key that is present replaces its value in place; assigning to a new key
  appends it at the end; deleting a key removes its item and keeps the order
  of the others. These are the three behaviours the engine relies on: the
  order of the keys fixes the order of the columns of every trajectory.
 */
module PyDict {

  datatype Option<T> = None | Some(value: T)

  datatype Item<K, V> = Item(key: K, value: V)

  type Dict<K, V> = seq<Item<K, V>>

  /** The keys in insertion order, as `list(d.keys())` gives them. */
  function Keys<K(==), V>(d: Dict<K, V>): seq<K>
  {
    seq(|d|, i requires 0 <= i < |d| => d[i].key)
  }

  /** No key occurs twice in `ks`. */
  predicate Distinct<K(==)>(ks: seq<K>)
  {
    forall i, j :: 0 <= i < j < |ks| ==> ks[i] != ks[j]
  }

  /** No key occurs twice in `d`. Every dictionary the engine builds has this property. */
  predicate Valid<K(==), V>(d: Dict<K, V>)
  {
    Distinct(Keys(d))
  }

  /** `k in d` */
  predicate Has<K(==), V>(d: Dict<K, V>, k: K)
  {
    exists i :: 0 <= i < |d| && d[i].key == k
  }

  lemma KeysCons<K, V>(x: Item<K, V>, t: Dict<K, V>)
    ensures Keys([x] + t) == [x.key] + Keys(t)
  {
  }

  lemma HasKeys<K, V>(d: Dict<K, V>, k: K)
    ensures Has(d, k) <==> k in Keys(d)
  {
    if k in Keys(d) {
      var i :| 0 <= i < |Keys(d)| && Keys(d)[i] == k;
      assert d[i].key == k;
    }
    if Has(d, k) {
      var i :| 0 <= i < |d| && d[i].key == k;
      assert Keys(d)[i] == k;
    }
  }

  lemma HasCons<K, V>(x: Item<K, V>, t: Dict<K, V>, k: K)
    ensures Has([x] + t, k) <==> x.key == k || Has(t, k)
  {
    var d := [x] + t;
    if Has(t, k) {
      var i :| 0 <= i < |t| && t[i].key == k;
      assert d[i + 1].key == k;
    }
    if Has(d, k) && x.key != k {
      var i :| 0 <= i < |d| && d[i].key == k;
      assert d[0] == x;
      assert i != 0;
      assert d[i] == t[i - 1];
    }
  }

  /** Prepending an item keeps the keys distinct exactly when its key is new. */
  lemma ValidCons<K, V>(x: Item<K, V>, t: Dict<K, V>)
    ensures Valid([x] + t) <==> Valid(t) && !Has(t, x.key)
  {
    var ks, ts := Keys([x] + t), Keys(t);
    KeysCons(x, t);
    HasKeys(t, x.key);
    if Valid(t) && !Has(t, x.key) {
      forall i, j | 0 <= i < j < |ks| ensures ks[i] != ks[j] {
        assert ks[j] == ts[j - 1];
        if i > 0 {
          assert ks[i] == ts[i - 1];
        }
      }
    }
    if Valid([x] + t) {
      forall i, j | 0 <= i < j < |ts| ensures ts[i] != ts[j] {
        assert ts[i] == ks[i + 1] && ts[j] == ks[j + 1];
      }
      forall j | 0 <= j < |ts| ensures ts[j] != x.key {
        assert ks[0] == x.key && ks[j + 1] == ts[j];
      }
    }
  }

  /** The value stored under `k`, if any. */
  function Find<K(==), V>(d: Dict<K, V>, k: K): (r: Option<V>)
    ensures r.Some? <==> Has(d, k)
  {
    if |d| == 0 then None
    else if d[0].key == k then Some(d[0].value)
    else
      assert d == [d[0]] + d[1..];
      HasCons(d[0], d[1..], k);
      Find(d[1..], k)
  }

  /** In a valid dictionary the item at position `i` is what `Find` reports for its key. */
  lemma FindAt<K, V>(d: Dict<K, V>, i: nat)
    requires Valid(d) && i < |d|
    ensures Find(d, d[i].key) == Some(d[i].value)
  {
    if i > 0 {
      assert d == [d[0]] + d[1..];
      ValidCons(d[0], d[1..]);
      FindAt(d[1..], i - 1);
    }
  }

  /** `d.get(k, default)` */
  function Get<K(==), V>(d: Dict<K, V>, k: K, default: V): V
  {
    match Find(d, k)
    case Some(v) => v
    case None => default
  }

  /** Overwriting the first item keeps the key order and the distinctness of keys. */
  lemma PutHead<K, V>(d: Dict<K, V>, v: V)
    requires |d| > 0
    ensures Has(d, d[0].key)
    ensures Keys([Item(d[0].key, v)] + d[1..]) == Keys(d)
    ensures Valid(d) ==> Valid([Item(d[0].key, v)] + d[1..])
  {
    assert d == [d[0]] + d[1..];
    KeysCons(d[0], d[1..]);
    KeysCons(Item(d[0].key, v), d[1..]);
    ValidCons(d[0], d[1..]);
    ValidCons(Item(d[0].key, v), d[1..]);
  }

  /**
    Putting `k` into the tail behind a first item with another key: the
    keys follow the tail's, and distinctness survives when the tail keeps
    every other key's lookup.
   */
  lemma PutTail<K, V>(d: Dict<K, V>, k: K, tail: Dict<K, V>)
    requires |d| > 0 && d[0].key != k
    requires Keys(tail) == if Has(d[1..], k) then Keys(d[1..]) else Keys(d[1..]) + [k]
    requires Has(tail, d[0].key) == Has(d[1..], d[0].key)
    requires Valid(d[1..]) ==> Valid(tail)
    ensures Keys([d[0]] + tail) == if Has(d, k) then Keys(d) else Keys(d) + [k]
    ensures Valid(d) ==> Valid([d[0]] + tail)
  {
    assert d == [d[0]] + d[1..];
    KeysCons(d[0], d[1..]);
    KeysCons(d[0], tail);
    HasCons(d[0], d[1..], k);
    if !Has(d, k) {
      assert [d[0].key] + (Keys(d[1..]) + [k]) == ([d[0].key] + Keys(d[1..])) + [k];
    }
    ValidCons(d[0], d[1..]);
    ValidCons(d[0], tail);
  }

  /**
    `d[k] = v`: the value of `k` is replaced where it stands, or `k` is
    appended after every existing key.
   */
  function Put<K(==,!new), V>(d: Dict<K, V>, k: K, v: V): (r: Dict<K, V>)
    ensures Find(r, k) == Some(v)
    ensures forall k' :: k' != k ==> Find(r, k') == Find(d, k')
    ensures Keys(r) == if Has(d, k) then Keys(d) else Keys(d) + [k]
    ensures Valid(d) ==> Valid(r)
  {
    if |d| == 0 then [Item(k, v)]
    else if d[0].key == k then
      PutHead(d, v);
      [Item(k, v)] + d[1..]
    else
      var tail := Put(d[1..], k, v);
      var r := [d[0]] + tail;
      assert r[1..] == tail;
      assert Find(tail, d[0].key) == Find(d[1..], d[0].key);
      PutTail(d, k, tail);
      r
  }

  /** The key sequence with every occurrence of `k` left out. */
  function RemoveKey<K(==)>(ks: seq<K>, k: K): seq<K>
  {
    if |ks| == 0 then []
    else if ks[0] == k then RemoveKey(ks[1..], k)
    else [ks[0]] + RemoveKey(ks[1..], k)
  }

  /**
    `del d[k]`: every item whose key is `k` goes; the others keep their order.
    Python raises `KeyError` when `k` is missing; here a missing key leaves
    the dictionary as it is. The engine deletes only after checking `k in d`,
    so it never reaches that case.
   */
  function Delete<K(==,!new), V>(d: Dict<K, V>, k: K): (r: Dict<K, V>)
    ensures !Has(r, k)
    ensures forall k' :: k' != k ==> Find(r, k') == Find(d, k')
    ensures Keys(r) == RemoveKey(Keys(d), k)
    ensures Valid(d) ==> Valid(r)
    ensures Valid(d) && Has(d, k) ==> |r| == |d| - 1
    ensures !Has(d, k) ==> r == d
  {
    if |d| == 0 then []
    else
      var tail := Delete(d[1..], k);
      assert d == [d[0]] + d[1..];
      KeysCons(d[0], d[1..]);
      HasCons(d[0], d[1..], k);
      ValidCons(d[0], d[1..]);
      if d[0].key == k then
        tail
      else
        var r := [d[0]] + tail;
        assert r[1..] == tail;
        KeysCons(d[0], tail);
        HasCons(d[0], tail, k);
        assert Valid(d) ==> Valid(r) by {
          assert Find(tail, d[0].key) == Find(d[1..], d[0].key);
          ValidCons(d[0], tail);
        }
        r
  }

  /** A key the dictionary lacks is appended after everything already in it. */
  lemma PutAppends<K(!new), V>(d: Dict<K, V>, k: K, v: V)
    requires !Has(d, k)
    ensures Put(d, k, v) == d + [Item(k, v)]
  {
    if |d| > 0 {
      assert d == [d[0]] + d[1..];
      HasCons(d[0], d[1..], k);
      PutAppends(d[1..], k, v);
    }
  }

  /** No later position of `ks` repeats the key at position `i`. */
  predicate LastOccurrence<K(==)>(ks: seq<K>, i: int)
    requires 0 <= i < |ks|
  {
    forall j :: i < j < |ks| ==> ks[j] != ks[i]
  }

  /**
    A dictionary literal `{k0: v0, k1: v1, ...}` whose keys are distinct, as
    both literals the engine writes are: the listed pairs in the listed
    order, each value found under its own key.
   */
  function FromPairs<K(==), V>(ks: seq<K>, vs: seq<V>): (d: Dict<K, V>)
    requires |ks| == |vs| && Distinct(ks)
    ensures Valid(d)
    ensures Keys(d) == ks
    ensures forall i :: 0 <= i < |ks| ==> Find(d, ks[i]) == Some(vs[i])
  {
    var d := seq(|ks|, i requires 0 <= i < |ks| => Item(ks[i], vs[i]));
    forall i | 0 <= i < |ks| ensures Find(d, ks[i]) == Some(vs[i]) {
      FindAt(d, i);
    }
    d
  }
}
