/** Generic sequence helpers: order-preserving filtering, summation and a
    stable sort by an integer key. */
module Seqs {

  lemma AppendAssoc<T>(a: seq<T>, b: seq<T>, c: seq<T>)
    ensures (a + b) + c == a + (b + c)
  {
  }

  /** The elements of `s` that satisfy `p`, in their original order
      (a Python list comprehension with an `if`, or LINQ `Where`). */
  function Filter<T>(s: seq<T>, p: T -> bool): (r: seq<T>)
    ensures |r| <= |s|
    decreases |s|
  {
    if s == [] then []
    else if p(s[|s| - 1]) then Filter(s[..|s| - 1], p) + [s[|s| - 1]]
    else Filter(s[..|s| - 1], p)
  }

  /** An element is kept exactly when it occurs and satisfies `p`. */
  lemma {:induction false} FilterMembership<T>(s: seq<T>, p: T -> bool, x: T)
    ensures x in Filter(s, p) <==> x in s && p(x)
    decreases |s|
  {
    if s != [] {
      var s' := s[..|s| - 1];
      FilterMembership(s', p, x);
      assert s == s' + [s[|s| - 1]];
    }
  }

  lemma FilterSnoc<T>(s: seq<T>, x: T, p: T -> bool)
    ensures Filter(s + [x], p) == if p(x) then Filter(s, p) + [x] else Filter(s, p)
  {
    assert (s + [x])[..|s|] == s;
  }

  lemma FilterLast<T>(s: seq<T>, p: T -> bool)
    requires s != []
    ensures Filter(s, p)
         == Filter(s[..|s| - 1], p) + if p(s[|s| - 1]) then [s[|s| - 1]] else []
  {
  }

  lemma {:induction false} FilterAppend<T>(a: seq<T>, b: seq<T>, p: T -> bool)
    ensures Filter(a + b, p) == Filter(a, p) + Filter(b, p)
    decreases |b|
  {
    if b == [] {
      assert a + b == a;
    } else {
      var b' := b[..|b| - 1];
      assert (a + b)[..|a + b| - 1] == a + b';
      FilterAppend(a, b', p);
    }
  }

  /** Every element satisfies `p` exactly when filtering by `p` keeps everything. */
  lemma {:induction false} FilterAll<T>(s: seq<T>, p: T -> bool)
    ensures (forall i :: 0 <= i < |s| ==> p(s[i])) <==> Filter(s, p) == s
    decreases |s|
  {
    if s != [] {
      var s' := s[..|s| - 1];
      FilterAll(s', p);
      if !p(s[|s| - 1]) {
        assert |Filter(s, p)| < |s|;
      } else {
        assert s == s' + [s[|s| - 1]];
        assert Filter(s, p) == s <==> Filter(s', p) == s';
      }
    }
  }

  /** Filtering by two tests that agree on every element gives the same result. */
  lemma {:induction false} FilterSame<T>(s: seq<T>, p: T -> bool, q: T -> bool)
    requires forall i :: 0 <= i < |s| ==> p(s[i]) == q(s[i])
    ensures Filter(s, p) == Filter(s, q)
    decreases |s|
  {
    if s != [] {
      var s' := s[..|s| - 1];
      assert forall i :: 0 <= i < |s'| ==> s'[i] == s[i];
      FilterSame(s', p, q);
    }
  }

  /** The pieces `f` gives for each element, laid end to end in order. */
  function FlatMap<T, U>(s: seq<T>, f: T -> seq<U>): seq<U>
    decreases |s|
  {
    if s == [] then [] else FlatMap(s[..|s| - 1], f) + f(s[|s| - 1])
  }

  lemma FlatMapSnoc<T, U>(s: seq<T>, i: nat, f: T -> seq<U>)
    requires i < |s|
    ensures FlatMap(s[..i + 1], f) == FlatMap(s[..i], f) + f(s[i])
  {
    assert s[..i + 1][..i] == s[..i];
  }

  lemma {:induction false} FlatMapAppend<T, U>(a: seq<T>, b: seq<T>, f: T -> seq<U>)
    ensures FlatMap(a + b, f) == FlatMap(a, f) + FlatMap(b, f)
    decreases |b|
  {
    if b == [] {
      assert a + b == a;
    } else {
      var b' := b[..|b| - 1];
      FlatMapAppend(a, b', f);
      assert (a + b)[..|a + b| - 1] == a + b';
      assert (a + b)[|a + b| - 1] == b[|b| - 1];
    }
  }

  /** Everything an element contributes is in the flattened sequence. */
  lemma {:induction false} FlatMapMember<T, U>(s: seq<T>, k: nat, f: T -> seq<U>, x: U)
    requires k < |s| && x in f(s[k])
    ensures x in FlatMap(s, f)
    decreases |s|
  {
    var n := |s| - 1;
    if k < n {
      assert s[..n][k] == s[k];
      FlatMapMember(s[..n], k, f, x);
    }
  }

  /** Filters that decide alike, position by position, keep equally many. */
  lemma {:induction false} FilterLengthAlike<T, U>(s: seq<T>, p: T -> bool, t: seq<U>, q: U -> bool)
    requires |s| == |t| && forall i :: 0 <= i < |s| ==> p(s[i]) == q(t[i])
    ensures |Filter(s, p)| == |Filter(t, q)|
    decreases |s|
  {
    if s != [] {
      var n := |s| - 1;
      assert forall i :: 0 <= i < n ==> s[..n][i] == s[i] && t[..n][i] == t[i];
      FilterLengthAlike(s[..n], p, t[..n], q);
    }
  }

  /** Sum of a sequence of naturals. */
  function Sum(s: seq<nat>): nat
    decreases |s|
  {
    if s == [] then 0 else Sum(s[..|s| - 1]) + s[|s| - 1]
  }

  lemma {:induction false} SumAppend(a: seq<nat>, b: seq<nat>)
    ensures Sum(a + b) == Sum(a) + Sum(b)
    decreases |b|
  {
    if b == [] {
      assert a + b == a;
    } else {
      assert (a + b)[..|a + b| - 1] == a + b[..|b| - 1];
      SumAppend(a, b[..|b| - 1]);
    }
  }

  /** Non-decreasing keys. */
  predicate SortedBy<T>(s: seq<T>, key: T -> int) {
    forall i, j :: 0 <= i < j < |s| ==> key(s[i]) <= key(s[j])
  }

  /** Places `x` before the first element whose key is not smaller than its own,
      so `x` stays ahead of the elements with an equal key. */
  function InsertBy<T>(x: T, t: seq<T>, key: T -> int): (r: seq<T>)
    ensures multiset(r) == multiset(t) + multiset{x}
    decreases |t|
  {
    if t == [] || key(x) <= key(t[0]) then [x] + t
    else
      assert t == [t[0]] + t[1..];
      [t[0]] + InsertBy(x, t[1..], key)
  }

  /** Python's `sorted(s, key=key)`: ascending by key and stable (elements with
      equal keys keep their order), so every stable sort gives this result. */
  function SortBy<T>(s: seq<T>, key: T -> int): (r: seq<T>)
    ensures multiset(r) == multiset(s)
    decreases |s|
  {
    if s == [] then []
    else
      assert s == [s[0]] + s[1..];
      InsertBy(s[0], SortBy(s[1..], key), key)
  }

  lemma SortByLength<T>(s: seq<T>, key: T -> int)
    ensures |SortBy(s, key)| == |s|
  {
    assert |multiset(SortBy(s, key))| == |multiset(s)|;
  }

  /** Sorting neither adds nor drops an element. */
  lemma SortByMembers<T>(s: seq<T>, key: T -> int, e: T)
    ensures e in SortBy(s, key) <==> e in s
  {
    assert e in SortBy(s, key) <==> e in multiset(SortBy(s, key));
  }

  lemma InsertByMembers<T>(x: T, t: seq<T>, key: T -> int, e: T)
    ensures e in InsertBy(x, t, key) <==> e == x || e in t
  {
    assert e in InsertBy(x, t, key) <==> e in multiset(InsertBy(x, t, key));
  }

  lemma {:induction false} InsertSorted<T>(x: T, t: seq<T>, key: T -> int)
    requires SortedBy(t, key)
    ensures SortedBy(InsertBy(x, t, key), key)
    decreases |t|
  {
    if t != [] && key(x) > key(t[0]) {
      var r' := InsertBy(x, t[1..], key);
      InsertSorted(x, t[1..], key);
      forall j | 0 <= j < |r'| ensures key(t[0]) <= key(r'[j]) {
        InsertByMembers(x, t[1..], key, r'[j]);
      }
    }
  }

  /** The result of `SortBy` is in key order. */
  lemma {:induction false} SortSorted<T>(s: seq<T>, key: T -> int)
    ensures SortedBy(SortBy(s, key), key)
    decreases |s|
  {
    if s != [] {
      SortSorted(s[1..], key);
      InsertSorted(s[0], SortBy(s[1..], key), key);
    }
  }
}
