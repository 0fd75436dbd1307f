/**
 * Python's `dict` as the storefront uses it: a finite mapping that remembers
 * insertion order. Assigning to a present key keeps its position; assigning
 * to a new key appends it; `pop` removes it.
 */
module PyDict {
  import opened Wrappers

  /** The entries of a dict in iteration order. */
  type Dict<K, V> = seq<(K, V)>

  /** No key appears twice. */
  predicate Valid<K(==), V>(d: Dict<K, V>) {
    forall i, j :: 0 <= i < j < |d| ==> d[i].0 != d[j].0
  }

  /** `list(d.keys())` */
  function Keys<K, V>(d: Dict<K, V>): (ks: seq<K>)
    ensures |ks| == |d|
    ensures forall i :: 0 <= i < |d| ==> ks[i] == d[i].0
  {
    if d == [] then [] else [d[0].0] + Keys(d[1..])
  }

  /** `list(d.values())` */
  function Values<K, V>(d: Dict<K, V>): (vs: seq<V>)
    ensures |vs| == |d|
    ensures forall i :: 0 <= i < |d| ==> vs[i] == d[i].1
  {
    if d == [] then [] else [d[0].1] + Values(d[1..])
  }

  /** `d.get(k)`: the value stored under `k`, absent when `k` is not a key. */
  function Get<K(==), V>(d: Dict<K, V>, k: K): (r: Option<V>)
    ensures r.Some? <==> k in Keys(d)
  {
    if d == [] then None else if d[0].0 == k then Some(d[0].1) else Get(d[1..], k)
  }

  /** The position of key `k` in iteration order, absent when `k` is not a key. */
  function IndexOfKey<K(==), V>(d: Dict<K, V>, k: K): (r: Option<nat>)
    ensures r.Some? ==> r.value < |d| && d[r.value].0 == k
    ensures r.None? <==> k !in Keys(d)
  {
    if d == [] then None
    else if d[0].0 == k then Some(0)
    else
      assert Keys(d) == [d[0].0] + Keys(d[1..]);
      match IndexOfKey(d[1..], k)
      case None => None
      case Some(i) => Some(i + 1)
  }

  /** A lookup finds the value at the key's position in iteration order. */
  lemma {:induction false} GetByIndex<K, V>(d: Dict<K, V>, k: K)
    requires k in Keys(d)
    ensures IndexOfKey(d, k).Some? && Get(d, k) == Some(d[IndexOfKey(d, k).value].1)
  {
    assert Keys(d) == [d[0].0] + Keys(d[1..]);
    if d[0].0 != k {
      GetByIndex(d[1..], k);
    }
  }

  /** In a valid dict, the key of entry `i` looks up that entry's value. */
  lemma {:induction false} GetAt<K, V>(d: Dict<K, V>, i: nat)
    requires Valid(d) && i < |d|
    ensures Get(d, d[i].0) == Some(d[i].1)
  {
    if i > 0 {
      GetAt(d[1..], i - 1);
    }
  }

  /** A value `d.get(k)` finds is stored under `k` in some entry. */
  lemma {:induction false} GetIn<K, V>(d: Dict<K, V>, k: K)
    requires Get(d, k).Some?
    ensures exists i :: 0 <= i < |d| && d[i] == (k, Get(d, k).value)
  {
    if d[0].0 != k {
      GetIn(d[1..], k);
      var i :| 0 <= i < |d| - 1 && d[1..][i] == (k, Get(d[1..], k).value);
      assert d[i + 1] == d[1..][i];
    } else {
      assert d[0] == (k, Get(d, k).value);
    }
  }

  /** Appending an entry for a new key adds that key and leaves every earlier lookup as it was. */
  lemma {:induction false} GetAppend<K, V>(d: Dict<K, V>, k: K, v: V, x: K)
    ensures Get(d + [(k, v)], x) == if x in Keys(d) then Get(d, x) else if x == k then Some(v) else None
  {
    if d != [] {
      assert (d + [(k, v)])[1..] == d[1..] + [(k, v)];
      GetAppend(d[1..], k, v, x);
      assert Keys(d) == [d[0].0] + Keys(d[1..]);
    }
  }

  /** `GetAppend` for a dict split at its last entry. */
  lemma GetLast<K, V>(d: Dict<K, V>, x: K)
    requires d != []
    ensures var init, last := d[..|d| - 1], d[|d| - 1];
      Get(d, x) == if x in Keys(init) then Get(init, x) else if x == last.0 then Some(last.1) else None
  {
    assert d == d[..|d| - 1] + [d[|d| - 1]];
    GetAppend(d[..|d| - 1], d[|d| - 1].0, d[|d| - 1].1, x);
  }

  /** In a dict whose keys are distinct, the last key does not occur before it. */
  lemma LastKeyFresh<K, V>(d: Dict<K, V>)
    requires Valid(d) && d != []
    ensures Valid(d[..|d| - 1])
    ensures d[|d| - 1].0 !in Keys(d[..|d| - 1])
  {
    var init := d[..|d| - 1];
    forall i | 0 <= i < |init|
      ensures Keys(init)[i] != d[|d| - 1].0
    {
      assert Keys(init)[i] == d[i].0;
    }
  }

  /** `d[k] = v` */
  function Set<K(==), V>(d: Dict<K, V>, k: K, v: V): (r: Dict<K, V>)
    ensures Keys(r) == if k in Keys(d) then Keys(d) else Keys(d) + [k]
  {
    if d == [] then [(k, v)]
    else if d[0].0 == k then [(k, v)] + d[1..]
    else [d[0]] + Set(d[1..], k, v)
  }

  /** After `d[k] = v`, `k` holds `v` and every other key holds what it held. */
  lemma {:induction false} SetGet<K, V>(d: Dict<K, V>, k: K, v: V, x: K)
    ensures Get(Set(d, k, v), x) == if x == k then Some(v) else Get(d, x)
  {
    if d != [] && d[0].0 != k {
      SetGet(d[1..], k, v, x);
    }
  }

  /** `d[k] = v` keeps the keys of a valid dict distinct. */
  lemma SetValid<K, V>(d: Dict<K, V>, k: K, v: V)
    requires Valid(d)
    ensures Valid(Set(d, k, v))
  {
    var r := Set(d, k, v);
    forall i, j | 0 <= i < j < |r| ensures r[i].0 != r[j].0 {
      assert r[i].0 == Keys(r)[i] && r[j].0 == Keys(r)[j];
      if k !in Keys(d) && j == |d| {
        assert Keys(d)[i] == d[i].0;
      }
    }
  }

  /** `d.pop(k, None)`: removes `k` when present and changes nothing otherwise. */
  function Pop<K(==), V>(d: Dict<K, V>, k: K): (r: Dict<K, V>)
    ensures k !in Keys(d) ==> r == d
  {
    if d == [] then []
    else if d[0].0 == k then d[1..]
    else [d[0]] + Pop(d[1..], k)
  }

  /** After `d.pop(k)` on a valid dict, `k` is absent, every other key holds what it held. */
  lemma {:induction false} PopSpec<K, V>(d: Dict<K, V>, k: K)
    requires Valid(d)
    ensures Valid(Pop(d, k))
    ensures Get(Pop(d, k), k) == None
    ensures forall k' :: k' != k ==> Get(Pop(d, k), k') == Get(d, k')
    ensures |Pop(d, k)| == if k in Keys(d) then |d| - 1 else |d|
  {
    if d != [] {
      if d[0].0 == k {
        assert k !in Keys(d[1..]);
      } else {
        PopSpec(d[1..], k);
        var r := Pop(d, k);
        assert r == [d[0]] + Pop(d[1..], k);
        PopKeys(d[1..], k);
        assert d[0].0 !in Keys(d[1..]);
        forall i, j | 0 <= i < j < |r| ensures r[i].0 != r[j].0 {
          if i == 0 {
            assert r[j].0 == Keys(Pop(d[1..], k))[j - 1];
          }
        }
      }
    }
  }

  /** Popping never introduces a key. */
  lemma {:induction false} PopKeys<K, V>(d: Dict<K, V>, k: K)
    ensures forall x :: x in Keys(Pop(d, k)) ==> x in Keys(d)
  {
    if d != [] && d[0].0 != k {
      PopKeys(d[1..], k);
      assert Keys(Pop(d, k)) == [d[0].0] + Keys(Pop(d[1..], k));
    }
  }
}
