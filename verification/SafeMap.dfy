/**
 * The ordered map behind both deduplication tables. Entries are kept in the order of a
 * user comparator, and a key counts as present when the entry at its lower bound is not
 * greater than it, which is how the writer's visitors test for a duplicate.
 */
module SafeMap {

  datatype Option<+T> = None | Some(value: T)

  type Entries<K, V> = seq<(K, V)>

  /** `less` orders keys and confuses exactly those that `key` maps to the same value. */
  ghost predicate OrderedBy<K(!new), A>(less: (K, K) -> bool, key: K -> A) {
    && (forall a, b {:trigger less(a, b)} :: !(less(a, b) && less(b, a)))
    && (forall a, b {:trigger key(a), key(b)} :: key(a) == key(b) <==> !less(a, b) && !less(b, a))
    && (forall a, b, c {:trigger less(a, b), less(b, c)} :: less(a, b) && less(b, c) ==> less(a, c))
  }

  /** Equivalent keys compare alike against every third key. */
  lemma OrderRespectsKey<K(!new), A>(less: (K, K) -> bool, key: K -> A, a: K, b: K, c: K)
    requires OrderedBy(less, key) && key(a) == key(b)
    ensures less(a, c) <==> less(b, c)
    ensures less(c, a) <==> less(c, b)
  {
    assert key(a) == key(b);
    assert key(b) == key(c) || key(b) != key(c);
    assert key(a) == key(c) || key(a) != key(c);
    assert !less(a, b) && !less(b, a);
  }

  ghost predicate Sorted<K, V>(less: (K, K) -> bool, entries: Entries<K, V>) {
    forall i, j :: 0 <= i < j < |entries| ==> less(entries[i].0, entries[j].0)
  }

  /** Index of the first entry whose key is not less than `k`. */
  function LowerBound<K, V>(less: (K, K) -> bool, entries: Entries<K, V>, k: K): (i: nat)
    ensures i <= |entries|
    ensures forall j :: 0 <= j < i ==> less(entries[j].0, k)
    ensures i < |entries| ==> !less(entries[i].0, k)
  {
    if entries == [] || !less(entries[0].0, k) then 0
    else 1 + LowerBound(less, entries[1..], k)
  }

  function Find<K, V>(less: (K, K) -> bool, entries: Entries<K, V>, k: K): (v: Option<V>) {
    var lb := LowerBound(less, entries, k);
    if lb != |entries| && !less(k, entries[lb].0) then Some(entries[lb].1) else None
  }

  function PutBefore<K, V>(entries: Entries<K, V>, pos: nat, k: K, v: V): (r: Entries<K, V>)
    requires pos <= |entries|
    ensures |r| == |entries| + 1
  {
    entries[..pos] + [(k, v)] + entries[pos..]
  }

  /** The sorted entries stand for the finite map `m` over comparator classes. */
  ghost predicate Models<K(!new), V, A(!new)>(
      less: (K, K) -> bool, key: K -> A, entries: Entries<K, V>, m: map<A, V>) {
    Sorted(less, entries) && Binds(key, entries, m)
  }

  ghost predicate Binds<K(!new), V, A(!new)>(key: K -> A, entries: Entries<K, V>, m: map<A, V>) {
    && (forall i :: 0 <= i < |entries| ==> key(entries[i].0) in m && m[key(entries[i].0)] == entries[i].1)
    && (forall a :: a in m ==> exists i :: 0 <= i < |entries| && key(entries[i].0) == a)
  }

  lemma PutBinds<K(!new), V, A(!new)>(key: K -> A, entries: Entries<K, V>, m: map<A, V>, pos: nat, k: K, v: V)
    requires pos <= |entries| && Binds(key, entries, m) && key(k) !in m
    ensures Binds(key, PutBefore(entries, pos, k, v), m[key(k) := v])
  {
    var r := PutBefore(entries, pos, k, v);
    var n := m[key(k) := v];
    assert r[pos] == (k, v);
    forall a | a in n ensures exists i :: 0 <= i < |r| && key(r[i].0) == a {
      if a != key(k) {
        var i :| 0 <= i < |entries| && key(entries[i].0) == a;
        assert r[if i < pos then i else i + 1] == entries[i];
      }
    }
    forall i | 0 <= i < |r| ensures key(r[i].0) in n && n[key(r[i].0)] == r[i].1 {
      if i != pos {
        assert r[i] == entries[if i < pos then i else i - 1];
      }
    }
  }

  lemma EmptyModels<K(!new), V, A(!new)>(less: (K, K) -> bool, key: K -> A)
    ensures Models<K, V, A>(less, key, [], map[])
  {
  }

  /** A lower-bound lookup finds a key exactly when an equivalent one was put. */
  lemma FindIsLookup<K(!new), V, A(!new)>(
      less: (K, K) -> bool, key: K -> A, entries: Entries<K, V>, m: map<A, V>, k: K)
    requires OrderedBy(less, key) && Models(less, key, entries, m)
    ensures Find(less, entries, k) == if key(k) in m then Some(m[key(k)]) else None
  {
    var lb := LowerBound(less, entries, k);
    if key(k) in m {
      var i :| 0 <= i < |entries| && key(entries[i].0) == key(k);
      assert !less(entries[i].0, k) && !less(k, entries[i].0);
      assert lb <= i;
      OrderRespectsKey(less, key, entries[i].0, k, entries[lb].0);
      assert lb == i;
    } else if lb < |entries| {
      assert key(entries[lb].0) != key(k);
    }
  }

  /** Every entry from the lower bound of an absent key on is greater than it. */
  lemma AboveLowerBound<K(!new), V, A(!new)>(
      less: (K, K) -> bool, key: K -> A, entries: Entries<K, V>, m: map<A, V>, k: K, j: nat)
    requires OrderedBy(less, key) && Models(less, key, entries, m) && key(k) !in m
    requires LowerBound(less, entries, k) <= j < |entries|
    ensures less(k, entries[j].0)
  {
    hide OrderedBy;
    var lb := LowerBound(less, entries, k);
    assert key(entries[lb].0) != key(k);
    LessAcross(less, key, k, entries[lb].0, entries[j].0);
  }

  lemma LessAcross<K(!new), A(!new)>(less: (K, K) -> bool, key: K -> A, k: K, a: K, b: K)
    requires OrderedBy(less, key) && key(a) != key(k) && !less(a, k) && (a == b || less(a, b))
    ensures less(k, b)
  {
    assert less(k, a);
  }

  lemma PutKeepsSorted<K(!new), V, A(!new)>(
      less: (K, K) -> bool, key: K -> A, entries: Entries<K, V>, m: map<A, V>, k: K, v: V)
    requires OrderedBy(less, key) && Models(less, key, entries, m) && key(k) !in m
    ensures Sorted(less, PutBefore(entries, LowerBound(less, entries, k), k, v))
  {
    hide OrderedBy, Binds, PutBefore;
    var lb := LowerBound(less, entries, k);
    forall j | lb <= j < |entries| ensures less(k, entries[j].0) {
      AboveLowerBound(less, key, entries, m, k, j);
    }
    InsertSorted(less, entries, lb, k, v);
  }

  lemma InsertSorted<K(!new), V>(less: (K, K) -> bool, entries: Entries<K, V>, pos: nat, k: K, v: V)
    requires Sorted(less, entries) && pos <= |entries|
    requires forall j :: 0 <= j < pos ==> less(entries[j].0, k)
    requires forall j :: pos <= j < |entries| ==> less(k, entries[j].0)
    ensures Sorted(less, PutBefore(entries, pos, k, v))
  {
    var r := PutBefore(entries, pos, k, v);
    assert forall i :: 0 <= i < |r| ==>
             r[i] == if i < pos then entries[i] else if i == pos then (k, v) else entries[i - 1];
    hide PutBefore;
  }

  /** Inserting an absent key at its lower bound keeps the order and adds one binding. */
  lemma PutIsUpdate<K(!new), V, A(!new)>(
      less: (K, K) -> bool, key: K -> A, entries: Entries<K, V>, m: map<A, V>, k: K, v: V)
    requires OrderedBy(less, key) && Models(less, key, entries, m) && key(k) !in m
    ensures Models(less, key, PutBefore(entries, LowerBound(less, entries, k), k, v), m[key(k) := v])
  {
    PutKeepsSorted(less, key, entries, m, k, v);
    PutBinds(key, entries, m, LowerBound(less, entries, k), k, v);
  }
}
