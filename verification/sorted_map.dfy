/**
 * Ordered maps (Rust's `BTreeMap`) as association lists. A well-formed map
 * lists its entries in strictly increasing key order, so iteration order is
 * key order and each key occurs once. `Get`, `Insert` and `Remove` behave as
 * map operations on any list; the canonical-form and rank lemmas need the
 * ordering.
 */
module SortedMap {
  import opened Wrappers
  import opened Order

  type Assoc<K, V> = seq<(K, V)>

  /** Keys in iteration order (`map.keys()`). */
  function Keys<K, V>(m: Assoc<K, V>): seq<K> {
    seq(|m|, i requires 0 <= i < |m| => m[i].0)
  }

  /** Values in iteration order (`map.into_values()`). */
  function Values<K, V>(m: Assoc<K, V>): seq<V> {
    seq(|m|, i requires 0 <= i < |m| => m[i].1)
  }

  /** Keys strictly increase along the list. */
  predicate Sorted<K, V>(m: Assoc<K, V>, lt: (K, K) -> bool) {
    forall i, j :: 0 <= i < j < |m| ==> lt(m[i].0, m[j].0)
  }

  /** Lookup (`map.get(k)`). */
  function Get<K(==), V>(m: Assoc<K, V>, k: K): (r: Option<V>)
    ensures r.Some? <==> k in Keys(m)
    ensures r.Some? ==> (k, r.value) in m
  {
    if |m| == 0 then None
    else if m[0].0 == k then
      assert Keys(m)[0] == k;
      Some(m[0].1)
    else
      assert Keys(m) == [m[0].0] + Keys(m[1..]);
      Get(m[1..], k)
  }

  /** First position of `k` in `ks` (`iter().position(|x| x == k)`). */
  function IndexOf<K(==)>(ks: seq<K>, k: K): (r: Option<nat>)
    ensures r.None? <==> k !in ks
    ensures r.Some? ==> r.value < |ks| && ks[r.value] == k
    ensures r.Some? ==> forall j :: 0 <= j < r.value ==> ks[j] != k
  {
    if |ks| == 0 then None
    else if ks[0] == k then Some(0)
    else
      match IndexOf(ks[1..], k)
      case None => None
      case Some(i) => Some(i + 1)
  }

  /** Insert or overwrite at the key's ordered position (`map.insert(k, v)`). */
  function Insert<K(==,!new), V>(m: Assoc<K, V>, k: K, v: V, lt: (K, K) -> bool): (r: Assoc<K, V>)
    ensures Get(r, k) == Some(v)
    ensures forall k' :: k' != k ==> Get(r, k') == Get(m, k')
  {
    if |m| == 0 then [(k, v)]
    else if m[0].0 == k then [(k, v)] + m[1..]
    else if lt(k, m[0].0) then [(k, v)] + m
    else [m[0]] + Insert(m[1..], k, v, lt)
  }

  /** Delete the key if present (`map.remove(&k)`). */
  function Remove<K(==,!new), V>(m: Assoc<K, V>, k: K): (r: Assoc<K, V>)
    ensures Get(r, k) == None
    ensures forall k' :: k' != k ==> Get(r, k') == Get(m, k')
    ensures |r| <= |m|
    ensures forall e :: e in r ==> e in m
  {
    if |m| == 0 then []
    else if m[0].0 == k then Remove(m[1..], k)
    else [m[0]] + Remove(m[1..], k)
  }

  /** Number of keys strictly below `k`: the rank of `k` among the keys. */
  function CountLess<K>(ks: seq<K>, k: K, lt: (K, K) -> bool): nat {
    if |ks| == 0 then 0
    else (if lt(ks[0], k) then 1 else 0) + CountLess(ks[1..], k, lt)
  }

  lemma SortedTail<K, V>(m: Assoc<K, V>, lt: (K, K) -> bool)
    requires Sorted(m, lt) && |m| > 0
    ensures Sorted(m[1..], lt)
  {
  }

  /** Every key of a sorted map after the head is above the head. */
  lemma {:induction false} HeadBelowRest<K, V>(m: Assoc<K, V>, lt: (K, K) -> bool, k: K)
    requires Sorted(m, lt) && |m| > 0 && k in Keys(m[1..])
    ensures lt(m[0].0, k)
  {
    var i :| 0 <= i < |m[1..]| && Keys(m[1..])[i] == k;
    assert m[i + 1].0 == k;
  }

  /** In a sorted map the entry at position `i` is what lookup finds. */
  lemma {:induction false} GetAt<K(!new), V>(m: Assoc<K, V>, lt: (K, K) -> bool, i: nat)
    requires StrictTotalOrder(lt) && Sorted(m, lt) && i < |m|
    ensures Get(m, m[i].0) == Some(m[i].1)
  {
    if i > 0 {
      assert lt(m[0].0, m[i].0);
      assert m[0].0 != m[i].0;
      GetAt(m[1..], lt, i - 1);
    }
  }

  /** In a sorted map the position of a key among the keys is its index. */
  lemma {:induction false} IndexOfAt<K(!new), V>(m: Assoc<K, V>, lt: (K, K) -> bool, i: nat)
    requires StrictTotalOrder(lt) && Sorted(m, lt) && i < |m|
    ensures IndexOf(Keys(m), m[i].0) == Some(i)
  {
    assert Keys(m)[i] == m[i].0;
    forall j | 0 <= j < i ensures Keys(m)[j] != m[i].0 {
      assert lt(m[j].0, m[i].0);
    }
  }

  /**
   * Position equals rank: the index of an entry in a sorted map is the number
   * of keys strictly below its key.
   */
  lemma {:induction false} IndexIsRank<K(!new), V>(m: Assoc<K, V>, lt: (K, K) -> bool, i: nat)
    requires StrictTotalOrder(lt) && Sorted(m, lt) && i < |m|
    ensures CountLess(Keys(m), m[i].0, lt) == i
  {
    assert Keys(m)[1..] == Keys(m[1..]);
    if i == 0 {
      ZeroBelowHead(m, lt);
    } else {
      assert lt(m[0].0, m[i].0);
      IndexIsRank(m[1..], lt, i - 1);
    }
  }

  lemma {:induction false} ZeroBelowHead<K(!new), V>(m: Assoc<K, V>, lt: (K, K) -> bool)
    requires StrictTotalOrder(lt) && Sorted(m, lt) && |m| > 0
    ensures CountLess(Keys(m), m[0].0, lt) == 0
  {
    NoneBelow(Keys(m), m[0].0, lt);
  }

  lemma {:induction false} NoneBelow<K(!new)>(ks: seq<K>, k: K, lt: (K, K) -> bool)
    requires StrictTotalOrder(lt)
    requires |ks| > 0 && ks[0] == k
    requires forall j :: 0 < j < |ks| ==> lt(k, ks[j])
    ensures CountLess(ks, k, lt) == 0
  {
    CountNone(ks[1..], k, lt);
  }

  lemma {:induction false} CountNone<K(!new)>(ks: seq<K>, k: K, lt: (K, K) -> bool)
    requires StrictTotalOrder(lt)
    requires forall j :: 0 <= j < |ks| ==> lt(k, ks[j])
    ensures CountLess(ks, k, lt) == 0
  {
    if |ks| > 0 {
      assert lt(k, ks[0]);
      CountNone(ks[1..], k, lt);
    }
  }

  /** Inserting into a sorted map keeps it sorted. */
  lemma {:induction false} InsertSorted<K(!new), V>(m: Assoc<K, V>, k: K, v: V, lt: (K, K) -> bool)
    requires StrictTotalOrder(lt) && Sorted(m, lt)
    ensures Sorted(Insert(m, k, v, lt), lt)
  {
    if |m| > 0 && m[0].0 != k && !lt(k, m[0].0) {
      InsertSorted(m[1..], k, v, lt);
      var r := Insert(m, k, v, lt);
      var t := Insert(m[1..], k, v, lt);
      assert r == [m[0]] + t;
      forall j | 0 <= j < |t| ensures lt(m[0].0, t[j].0) {
        assert Keys(t)[j] == t[j].0;
        KeyOfGet(t, t[j].0);
        if t[j].0 != k {
          assert t[j].0 in Keys(m[1..]);
          HeadBelowRest(m, lt, t[j].0);
        }
      }
    } else if |m| > 0 && m[0].0 != k {
      forall j | 0 < j < |m| ensures lt(k, m[j].0) {
        assert lt(m[0].0, m[j].0);
      }
    }
  }

  lemma KeyOfGet<K, V>(m: Assoc<K, V>, k: K)
    ensures k in Keys(m) <==> Get(m, k).Some?
  {
  }

  /** Removing from a sorted map keeps it sorted. */
  lemma {:induction false} RemoveSorted<K(!new), V>(m: Assoc<K, V>, k: K, lt: (K, K) -> bool)
    requires Sorted(m, lt)
    ensures Sorted(Remove(m, k), lt)
  {
    if |m| > 0 {
      RemoveSorted(m[1..], k, lt);
      if m[0].0 != k {
        var t := Remove(m[1..], k);
        forall j | 0 <= j < |t| ensures lt(m[0].0, t[j].0) {
          assert t[j] in m[1..];
        }
      }
    }
  }

  /**
   * Canonical form: two sorted maps with the same lookups are the same list,
   * so a map's representation does not depend on insertion history.
   */
  lemma {:induction false} SortedExtensional<K(!new), V>(a: Assoc<K, V>, b: Assoc<K, V>, lt: (K, K) -> bool)
    requires StrictTotalOrder(lt) && Sorted(a, lt) && Sorted(b, lt)
    requires forall k :: Get(a, k) == Get(b, k)
    ensures a == b
  {
    if |a| == 0 {
      if |b| > 0 {
        assert Get(b, b[0].0).Some?;
      }
    } else {
      assert Keys(a)[0] == a[0].0;
      assert Get(a, a[0].0).Some?;
      assert Get(b, a[0].0).Some?;
      assert Keys(b)[0] == b[0].0;
      assert Get(b, b[0].0).Some?;
      assert a[0].0 == b[0].0 by {
        HeadIsLeast(a, lt, b[0].0);
        HeadIsLeast(b, lt, a[0].0);
      }
      assert a[0] == b[0];
      forall k ensures Get(a[1..], k) == Get(b[1..], k) {
        if k == a[0].0 {
          TailMisses(a, lt);
          TailMisses(b, lt);
        } else {
          assert Get(a, k) == Get(a[1..], k);
          assert Get(b, k) == Get(b[1..], k);
        }
      }
      SortedExtensional(a[1..], b[1..], lt);
    }
  }

  lemma {:induction false} HeadIsLeast<K(!new), V>(m: Assoc<K, V>, lt: (K, K) -> bool, k: K)
    requires StrictTotalOrder(lt) && Sorted(m, lt) && |m| > 0 && k in Keys(m)
    ensures !lt(k, m[0].0)
  {
    var i :| 0 <= i < |m| && Keys(m)[i] == k;
    if i > 0 {
      assert lt(m[0].0, k);
    }
  }

  lemma {:induction false} TailMisses<K(!new), V>(m: Assoc<K, V>, lt: (K, K) -> bool)
    requires StrictTotalOrder(lt) && Sorted(m, lt) && |m| > 0
    ensures Get(m[1..], m[0].0).None?
  {
    if m[0].0 in Keys(m[1..]) {
      HeadBelowRest(m, lt, m[0].0);
    }
  }

  /**
   * Insertion order is irrelevant: inserting two distinct keys in either order
   * gives the same map.
   */
  lemma InsertCommutes<K(!new), V>(m: Assoc<K, V>, k1: K, v1: V, k2: K, v2: V, lt: (K, K) -> bool)
    requires StrictTotalOrder(lt) && Sorted(m, lt) && k1 != k2
    ensures Insert(Insert(m, k1, v1, lt), k2, v2, lt) == Insert(Insert(m, k2, v2, lt), k1, v1, lt)
  {
    var a, b := Insert(Insert(m, k1, v1, lt), k2, v2, lt), Insert(Insert(m, k2, v2, lt), k1, v1, lt);
    InsertSorted(m, k1, v1, lt);
    InsertSorted(m, k2, v2, lt);
    InsertSorted(Insert(m, k1, v1, lt), k2, v2, lt);
    InsertSorted(Insert(m, k2, v2, lt), k1, v1, lt);
    forall k
      ensures Get(a, k) == Get(b, k)
    {
      if k != k1 && k != k2 {
        assert Get(a, k) == Get(m, k);
      }
    }
    SortedExtensional(a, b, lt);
  }

  /**
   * Keeps the entries whose key `keep` accepts, in their order: the effect of
   * `map.remove(&k)` for every other key.
   */
  function FilterKeys<K(==,!new), V(!new)>(m: Assoc<K, V>, keep: K -> bool): (r: Assoc<K, V>)
    ensures forall k :: Get(r, k) == if keep(k) then Get(m, k) else None
    ensures forall x :: x in r <==> x in m && keep(x.0)
    ensures (forall i :: 0 <= i < |m| ==> keep(m[i].0)) ==> r == m
  {
    if |m| == 0 then []
    else if keep(m[0].0) then [m[0]] + FilterKeys(m[1..], keep)
    else FilterKeys(m[1..], keep)
  }

  /** Replaces every value by `f` of its entry (`values_mut()`); the keys stay as they are. */
  function MapValues<K(==,!new), V>(m: Assoc<K, V>, f: (K, V) -> V): (r: Assoc<K, V>)
    ensures Keys(r) == Keys(m)
    ensures |r| == |m| && forall i {:trigger r[i]} :: 0 <= i < |m| ==> r[i] == (m[i].0, f(m[i].0, m[i].1))
    ensures forall k :: Get(r, k) == if Get(m, k).Some? then Some(f(k, Get(m, k).value)) else None
    ensures (forall i :: 0 <= i < |m| ==> f(m[i].0, m[i].1) == m[i].1) ==> r == m
  {
    if |m| == 0 then []
    else
      var rest := MapValues(m[1..], f);
      assert Keys(m) == [m[0].0] + Keys(m[1..]);
      assert Keys([(m[0].0, f(m[0].0, m[0].1))] + rest) == [m[0].0] + Keys(rest);
      [(m[0].0, f(m[0].0, m[0].1))] + rest
  }

  /** A key above every key present is appended at the end. */
  lemma {:induction false} InsertAfterAll<K(!new), V>(m: Assoc<K, V>, k: K, v: V, lt: (K, K) -> bool)
    requires forall i :: 0 <= i < |m| ==> m[i].0 != k && !lt(k, m[i].0)
    ensures Insert(m, k, v, lt) == m + [(k, v)]
  {
    if |m| > 0 {
      InsertAfterAll(m[1..], k, v, lt);
      assert m == [m[0]] + m[1..];
    }
  }

  /** A key already present at position `q` has its value replaced there. */
  lemma {:induction false} InsertExisting<K(!new), V>(m: Assoc<K, V>, k: K, v: V, lt: (K, K) -> bool, q: nat)
    requires q < |m| && m[q].0 == k
    requires forall p :: 0 <= p < q ==> m[p].0 != k && !lt(k, m[p].0)
    ensures Insert(m, k, v, lt) == m[q := (k, v)]
  {
    if q == 0 {
      assert Insert(m, k, v, lt) == [(k, v)] + m[1..];
    } else {
      assert m[0].0 != k && !lt(k, m[0].0);
      var rest := Insert(m[1..], k, v, lt);
      assert Insert(m, k, v, lt) == [m[0]] + rest;
      InsertExisting(m[1..], k, v, lt, q - 1);
      UpdateTail(m, q, (k, v));
    }
  }

  lemma UpdateTail<T>(s: seq<T>, q: nat, x: T)
    requires 0 < q < |s|
    ensures s[q := x] == [s[0]] + s[1..][q - 1 := x]
  {
  }

  /** Two lists with the same keys in the same order are sorted alike. */
  lemma SortedByKeys<K, V, W>(a: Assoc<K, V>, b: Assoc<K, W>, lt: (K, K) -> bool)
    requires Keys(a) == Keys(b) && Sorted(a, lt)
    ensures Sorted(b, lt)
  {
    forall i, j | 0 <= i < j < |b| ensures lt(b[i].0, b[j].0) {
      assert Keys(a)[i] == Keys(b)[i] && Keys(a)[j] == Keys(b)[j];
    }
  }

  /** In a sorted map, removing one key and inserting another commute. */
  lemma InsertRemoveCommute<K(!new), V>(m: Assoc<K, V>, k: K, v: V, j: K, lt: (K, K) -> bool)
    requires StrictTotalOrder(lt) && Sorted(m, lt) && k != j
    ensures Remove(Insert(m, k, v, lt), j) == Insert(Remove(m, j), k, v, lt)
  {
    var a, b := Remove(Insert(m, k, v, lt), j), Insert(Remove(m, j), k, v, lt);
    InsertSorted(m, k, v, lt);
    RemoveSorted(Insert(m, k, v, lt), j, lt);
    RemoveSorted(m, j, lt);
    InsertSorted(Remove(m, j), k, v, lt);
    forall key ensures Get(a, key) == Get(b, key) {
      if key != j && key != k {
        assert Get(a, key) == Get(m, key);
      }
    }
    SortedExtensional(a, b, lt);
  }

  /** Re-valuing and removing a key commute, when the two re-valuations agree on the entries. */
  lemma {:induction false} MapValuesRemove<K(!new), V>(m: Assoc<K, V>, k: K, f: (K, V) -> V, g: (K, V) -> V)
    requires forall i :: 0 <= i < |m| ==> f(m[i].0, m[i].1) == g(m[i].0, m[i].1)
    ensures MapValues(Remove(m, k), f) == Remove(MapValues(m, g), k)
  {
    if |m| > 0 {
      var head := (m[0].0, g(m[0].0, m[0].1));
      var mapped := MapValues(m[1..], g);
      assert MapValues(m, g) == [head] + mapped;
      assert ([head] + mapped)[1..] == mapped;
      MapValuesRemove(m[1..], k, f, g);
      if m[0].0 != k {
        var rest := Remove(m[1..], k);
        assert Remove(m, k) == [m[0]] + rest;
        assert ([m[0]] + rest)[1..] == rest;
      }
    }
  }

  /** Filters that agree on the keys present keep the same entries. */
  lemma {:induction false} FilterKeysAgree<K(!new), V(!new)>(m: Assoc<K, V>, p: K -> bool, q: K -> bool)
    requires forall i :: 0 <= i < |m| ==> p(m[i].0) == q(m[i].0)
    ensures FilterKeys(m, p) == FilterKeys(m, q)
  {
    if |m| > 0 {
      FilterKeysAgree(m[1..], p, q);
    }
  }
}
