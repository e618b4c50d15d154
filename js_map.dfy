/** A JavaScript `Map` as its entries in insertion order: `set` on a present
    key replaces the value in place, on a new key appends an entry. The same
    entries also stand for a plain object filled by assignment (`mapped[key]`
    at src/UxRollout.js:65, `fileDetails[rel]` at
    scripts/check-textlint.js:141). Such an object lists integer-like keys
    first, in numeric order, and the other keys in insertion order; the
    entries keep insertion order for every key, so only the listing order of
    integer-like keys differs. */
module JsMap {
  import opened Wrappers

  type Entries<K, V> = seq<(K, V)>

  predicate HasKey<K(==), V>(m: Entries<K, V>, k: K)
  {
    exists i :: 0 <= i < |m| && m[i].0 == k
  }

  /** No key appears twice. */
  predicate DistinctKeys<K(==), V>(m: Entries<K, V>)
  {
    forall i, j :: 0 <= i < j < |m| ==> m[i].0 != m[j].0
  }

  /** The position of the first entry with key `k` at or after `from`, or |m|. */
  function IndexFrom<K(==), V>(m: Entries<K, V>, k: K, from: nat): (i: nat)
    requires from <= |m|
    ensures from <= i <= |m|
    ensures i < |m| ==> m[i].0 == k
    ensures forall j :: from <= j < i ==> m[j].0 != k
    decreases |m| - from
  {
    if from == |m| || m[from].0 == k then from else IndexFrom(m, k, from + 1)
  }

  /** The position of the entry with key `k`, or |m| when there is none. */
  function IndexOf<K(==), V>(m: Entries<K, V>, k: K): (i: nat)
    ensures i <= |m|
    ensures i < |m| <==> HasKey(m, k)
    ensures i < |m| ==> m[i].0 == k
    ensures forall j :: 0 <= j < i ==> m[j].0 != k
  {
    IndexFrom(m, k, 0)
  }

  /** `map.get(k)`. */
  function Get<K(==), V>(m: Entries<K, V>, k: K): (r: Option<V>)
    ensures r.Some? <==> HasKey(m, k)
    ensures r.Some? ==> (k, r.value) in m
  {
    var i := IndexOf(m, k);
    if i < |m| then Some(m[i].1) else None
  }

  /** `map.set(k, v)`. */
  function Set<K(==), V>(m: Entries<K, V>, k: K, v: V): (r: Entries<K, V>)
    ensures |r| == if HasKey(m, k) then |m| else |m| + 1
  {
    var i := IndexOf(m, k);
    if i < |m| then m[i := (k, v)] else m + [(k, v)]
  }

  /** The entries of `Set(m, k, v)` have the keys of `m`, in order, then `k` when it was new. */
  lemma SetKeys<K, V>(m: Entries<K, V>, k: K, v: V)
    ensures forall j :: 0 <= j < |m| ==> Set(m, k, v)[j].0 == m[j].0
    ensures !HasKey(m, k) ==> Set(m, k, v)[|m|] == (k, v)
  {
  }

  /** After `set(k, v)`, `get(k)` is `v`. */
  lemma GetSetSame<K, V>(m: Entries<K, V>, k: K, v: V)
    ensures Get(Set(m, k, v), k) == Some(v)
  {
    var r := Set(m, k, v);
    SetKeys(m, k, v);
    assert IndexOf(r, k) == IndexOf(m, k);
  }

  /** `set(k, v)` leaves every other key's value alone. */
  lemma GetSetOther<K, V>(m: Entries<K, V>, k: K, v: V, x: K)
    requires x != k
    ensures Get(Set(m, k, v), x) == Get(m, x)
  {
    var r := Set(m, k, v);
    SetKeys(m, k, v);
    var i := IndexOf(m, x);
    if i < |m| {
      assert IndexOf(r, x) == i;
    } else {
      assert !HasKey(r, x);
    }
  }

  /** `set` never makes a key appear twice. */
  lemma SetDistinct<K, V>(m: Entries<K, V>, k: K, v: V)
    requires DistinctKeys(m)
    ensures DistinctKeys(Set(m, k, v))
  {
    SetKeys(m, k, v);
  }

  /** The keys, as a set. */
  function Keys<K(==), V>(m: Entries<K, V>): set<K>
  {
    set i | 0 <= i < |m| :: m[i].0
  }

  lemma InKeys<K, V>(m: Entries<K, V>, k: K)
    ensures k in Keys(m) <==> HasKey(m, k)
  {
  }

  /** `set(k, v)` adds `k` to the keys and no other. */
  lemma SetKeySet<K, V>(m: Entries<K, V>, k: K, v: V)
    ensures Keys(Set(m, k, v)) == Keys(m) + {k}
  {
    var r := Set(m, k, v);
    SetKeys(m, k, v);
    forall x | x in Keys(r) ensures x in Keys(m) + {k} {
      var i :| 0 <= i < |r| && r[i].0 == x;
      if i < |m| {
        assert m[i].0 == x;
      }
    }
    GetSetSame(m, k, v);
    forall x | x in Keys(m) ensures x in Keys(r) {
      var i :| 0 <= i < |m| && m[i].0 == x;
      assert r[i].0 == x;
    }
  }

  /** With distinct keys, the map's `size` is the number of keys. */
  lemma {:induction false} DistinctKeysCount<K, V>(m: Entries<K, V>)
    requires DistinctKeys(m)
    ensures |Keys(m)| == |m|
  {
    if m != [] {
      var init := m[..|m| - 1];
      DistinctKeysCount(init);
      assert Keys(m) == Keys(init) + {m[|m| - 1].0};
      assert m[|m| - 1].0 !in Keys(init);
    }
  }

  /** The sum of the lengths of the values, in entry order. */
  function TotalLength<K, T>(m: Entries<K, seq<T>>): nat
  {
    if m == [] then 0 else TotalLength(m[..|m| - 1]) + |m[|m| - 1].1|
  }
}
