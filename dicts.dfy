/** Python dictionaries as insertion-ordered association lists: iteration order
    is insertion order, assigning to an existing key keeps its position, and a
    new key goes to the end. */
module Dicts {
  import opened Wrappers

  type Dict<K, V> = seq<(K, V)>

  function Keys<K, V>(d: Dict<K, V>): (ks: seq<K>)
    ensures |ks| == |d|
  {
    seq(|d|, i requires 0 <= i < |d| => d[i].0)
  }

  ghost predicate DistinctKeys<K, V>(d: Dict<K, V>) {
    forall i, j :: 0 <= i < j < |d| ==> d[i].0 != d[j].0
  }

  /** `k in d`. */
  predicate HasKey<K(==), V>(d: Dict<K, V>, k: K)
    decreases |d|
  {
    d != [] && (d[0].0 == k || HasKey(d[1..], k))
  }

  /** `k in d` is `k in d.keys()`. */
  lemma {:induction false} HasKeyIff<K, V>(d: Dict<K, V>, k: K)
    ensures HasKey(d, k) <==> k in Keys(d)
    decreases |d|
  {
    if d != [] {
      HasKeyIff(d[1..], k);
      assert Keys(d) == [d[0].0] + Keys(d[1..]);
    }
  }

  /** A key no entry carries is absent. */
  lemma {:induction false} NotHasKey<K, V>(d: Dict<K, V>, k: K)
    requires forall i :: 0 <= i < |d| ==> d[i].0 != k
    ensures !HasKey(d, k)
    decreases |d|
  {
    if d != [] {
      assert forall i :: 0 <= i < |d| - 1 ==> d[1..][i] == d[i + 1];
      NotHasKey(d[1..], k);
    }
  }

  /** `d.get(k)`: the value of the first entry with key `k`. */
  function Get<K(==), V>(d: Dict<K, V>, k: K): (r: Option<V>)
    ensures r.None? <==> !HasKey(d, k)
    ensures r.Some? ==> (k, r.value) in d
    decreases |d|
  {
    if d == [] then None
    else if d[0].0 == k then Some(d[0].1)
    else Get(d[1..], k)
  }

  /** `d[k] = v`. */
  function Put<K(==), V>(d: Dict<K, V>, k: K, v: V): (r: Dict<K, V>)
    ensures HasKey(r, k)
    ensures |r| == if HasKey(d, k) then |d| else |d| + 1
    ensures !HasKey(d, k) ==> r == d + [(k, v)]
    decreases |d|
  {
    if d == [] then [(k, v)]
    else if d[0].0 == k then [(k, v)] + d[1..]
    else
      var r := [d[0]] + Put(d[1..], k, v);
      assert r[1..] == Put(d[1..], k, v);
      r
  }

  /** Assigning to an existing key keeps the keys and their order. */
  lemma {:induction false} PutKeys<K, V>(d: Dict<K, V>, k: K, v: V)
    requires HasKey(d, k)
    ensures Keys(Put(d, k, v)) == Keys(d)
    decreases |d|
  {
    var r := Put(d, k, v);
    assert Keys(d) == [d[0].0] + Keys(d[1..]);
    assert Keys(r) == [r[0].0] + Keys(r[1..]);
    if d[0].0 != k {
      PutKeys(d[1..], k, v);
      assert r[1..] == Put(d[1..], k, v);
    }
  }

  /** After `d[k] = v`, `d[k]` is `v` and every other key reads as before. */
  lemma {:induction false} GetPut<K, V>(d: Dict<K, V>, k: K, v: V, k': K)
    ensures Get(Put(d, k, v), k') == if k' == k then Some(v) else Get(d, k')
    decreases |d|
  {
    if d != [] && d[0].0 != k {
      var r := Put(d, k, v);
      assert r[1..] == Put(d[1..], k, v);
      GetPut(d[1..], k, v, k');
    }
  }

  /** Lookup in a concatenation: the first part wins. */
  lemma {:induction false} GetAppend<K, V>(a: Dict<K, V>, b: Dict<K, V>, k: K)
    ensures Get(a + b, k) == if HasKey(a, k) then Get(a, k) else Get(b, k)
    decreases |a|
  {
    if a == [] {
      assert a + b == b;
    } else {
      assert (a + b)[1..] == a[1..] + b;
      GetAppend(a[1..], b, k);
    }
  }

  /** Assigning to the key of the last entry replaces that entry. */
  lemma {:induction false} PutLast<K, V>(base: Dict<K, V>, k: K, v: V, v': V)
    requires !HasKey(base, k)
    ensures Put(base + [(k, v)], k, v') == base + [(k, v')]
    decreases |base|
  {
    if base != [] {
      assert (base + [(k, v)])[1..] == base[1..] + [(k, v)];
      PutLast(base[1..], k, v, v');
    }
  }

  /** A prefix of a dict with distinct keys has distinct keys. */
  lemma DistinctKeysPrefix<K, V>(d: Dict<K, V>, n: nat)
    requires DistinctKeys(d) && n <= |d|
    ensures DistinctKeys(d[..n])
  {
    forall i, j | 0 <= i < j < n ensures d[..n][i].0 != d[..n][j].0 {
      assert d[..n][i] == d[i] && d[..n][j] == d[j];
    }
  }

  /** A dict keyed like all but the last entry of `d`, whose keys are
      distinct, lacks the last key of `d`. */
  lemma LastKeyFresh<K, V, W>(d: Dict<K, V>, e: Dict<K, W>)
    requires DistinctKeys(d) && |e| == |d| - 1
    requires forall i :: 0 <= i < |e| ==> e[i].0 == d[i].0
    ensures !HasKey(e, d[|d| - 1].0)
  {
    NotHasKey(e, d[|d| - 1].0);
  }

  /** Pairing entry by entry extends to one more entry. */
  lemma PairedSnoc<K, V, W>(d: Dict<K, V>, e: Dict<K, W>, w: W, rel: (K, V, W) -> bool)
    requires |e| == |d| - 1 && d != []
    requires forall i :: 0 <= i < |e| ==> e[i].0 == d[i].0 && rel(d[i].0, d[i].1, e[i].1)
    requires rel(d[|d| - 1].0, d[|d| - 1].1, w)
    ensures var e' := e + [(d[|d| - 1].0, w)];
      forall i :: 0 <= i < |e'| ==> e'[i].0 == d[i].0 && rel(d[i].0, d[i].1, e'[i].1)
  {
  }
}
