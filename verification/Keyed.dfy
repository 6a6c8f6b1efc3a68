/** Items with a key: dictionaries filled in turn, and when keys are distinct. */
module Keyed {
  import opened Sequences

  predicate Distinct<T, K(==)>(s: seq<T>, key: T -> K) {
    forall i, j :: 0 <= i < j < |s| ==> key(s[i]) != key(s[j])
  }

  function Index<T, K>(s: seq<T>, key: T -> K): map<K, T> {
    if s == [] then map[] else Index(s[..|s| - 1], key)[key(s[|s| - 1]) := s[|s| - 1]]
  }

  function KeysOf<T, K(==)>(s: seq<T>, key: T -> K): set<K> {
    if s == [] then {} else KeysOf(s[..|s| - 1], key) + {key(s[|s| - 1])}
  }

  lemma {:induction false} KeysOfMeans<T, K>(s: seq<T>, key: T -> K)
    ensures forall x <- s :: key(x) in KeysOf(s, key)
    ensures forall k <- KeysOf(s, key) :: exists x <- s :: key(x) == k
  {
    if s != [] {
      KeysOfMeans(s[..|s| - 1], key);
      assert s == s[..|s| - 1] + [s[|s| - 1]];
    }
  }

  lemma DistinctSnoc<T, K>(front: seq<T>, x: T, key: T -> K)
    ensures Distinct(front + [x], key) <==> Distinct(front, key) && key(x) !in KeysOf(front, key)
    ensures KeysOf(front + [x], key) == KeysOf(front, key) + {key(x)}
    ensures Index(front + [x], key) == Index(front, key)[key(x) := x]
  {
  }

  lemma {:induction false} IndexKeys<T, K>(s: seq<T>, key: T -> K)
    ensures forall x <- s :: key(x) in Index(s, key)
    ensures forall k <- Index(s, key) :: Index(s, key)[k] in s && key(Index(s, key)[k]) == k
  {
    if s != [] {
      IndexKeys(s[..|s| - 1], key);
      assert s == s[..|s| - 1] + [s[|s| - 1]];
    }
  }

  lemma {:induction false} IndexAt<T, K>(s: seq<T>, key: T -> K, i: nat)
    requires i < |s| && Distinct(s, key)
    ensures key(s[i]) in Index(s, key) && Index(s, key)[key(s[i])] == s[i]
  {
    var n := |s| - 1;
    if i < n {
      assert key(s[i]) != key(s[n]);
      IndexAt(s[..n], key, i);
    }
  }

  lemma NotDistinct<T, K>(s: seq<T>, n: nat, key: T -> K)
    requires n <= |s| && !Distinct(s[..n], key)
    ensures !Distinct(s, key)
  {
    var i, j :| 0 <= i < j < n && key(s[..n][i]) == key(s[..n][j]);
    assert key(s[i]) == key(s[j]);
  }

  lemma {:induction false} DistinctCounts<T, K>(s: seq<T>, key: T -> K, x: T)
    requires Distinct(s, key)
    ensures multiset(s)[x] == if x in s then 1 else 0
  {
    if s != [] {
      var front, last := s[..|s| - 1], s[|s| - 1];
      assert s == front + [last];
      DistinctSnoc(front, last, key);
      KeysOfMeans(front, key);
      DistinctCounts(front, key, x);
    }
  }

  lemma {:induction false} KeysCount<T, K>(s: seq<T>, key: T -> K)
    ensures |KeysOf(s, key)| <= |s|
    ensures |KeysOf(s, key)| == |s| <==> Distinct(s, key)
    ensures Index(s, key).Keys == KeysOf(s, key)
  {
    if s != [] {
      var front, last := s[..|s| - 1], s[|s| - 1];
      assert s == front + [last];
      KeysCount(front, key);
      DistinctSnoc(front, last, key);
    }
  }

  lemma KeyFrom<T, K>(s: seq<T>, key: T -> K, k: K) returns (x: T)
    requires k in KeysOf(s, key)
    ensures x in s && key(x) == k
  {
    KeysOfMeans(s, key);
    x :| x in s && key(x) == k;
  }

  lemma {:induction false} FilterDistinct<T, K>(s: seq<T>, keep: T -> bool, key: T -> K)
    requires Distinct(s, key)
    ensures Distinct(Filter(s, keep), key) && KeysOf(Filter(s, keep), key) <= KeysOf(s, key)
  {
    if s != [] {
      var front, last := s[..|s| - 1], s[|s| - 1];
      assert s == front + [last];
      DistinctSnoc(front, last, key);
      FilterDistinct(front, keep, key);
      if keep(last) {
        DistinctSnoc(Filter(front, keep), last, key);
      } else {
        assert Filter(front, keep) + [] == Filter(front, keep);
      }
    }
  }

  lemma Rereads<T, U, K>(s: seq<T>, t: seq<T>, key: T -> K, read: T -> U, k: K)
    requires Distinct(t, key) && (forall x <- s, y <- t :: read(x) == read(y) ==> key(x) == key(y))
    requires k in Index(s, key) && (forall u <- Apply(s, read) :: u in Apply(t, read))
    ensures k in Index(t, key) && read(Index(s, key)[k]) == read(Index(t, key)[k])
  {
    IndexKeys(s, key);
    var x := Index(s, key)[k];
    var i :| 0 <= i < |s| && s[i] == x;
    assert Apply(s, read)[i] in Apply(s, read);
    var j :| 0 <= j < |t| && Apply(t, read)[j] == read(x);
    assert t[j] in t;
    IndexAt(t, key, j);
  }

  lemma ReadsDistinct<T, U, K>(s: seq<T>, key: T -> K, read: T -> U)
    requires Distinct(s, key) && (forall x <- s, y <- s :: read(x) == read(y) ==> key(x) == key(y))
    ensures forall u :: multiset(Apply(s, read))[u] == if u in Apply(s, read) then 1 else 0
  {
    var a := Apply(s, read);
    forall i, j | 0 <= i < j < |a| ensures Identity(a[i]) != Identity(a[j]) {
      assert key(s[i]) != key(s[j]);
    }
    forall u ensures multiset(a)[u] == if u in a then 1 else 0 {
      DistinctCounts(a, Identity, u);
    }
  }

  function Identity<T>(x: T): T {
    x
  }

  lemma ReadsFound<T, U, K>(s: seq<T>, t: seq<T>, key: T -> K, read: T -> U)
    requires forall k <- Index(s, key) :: k in Index(t, key) && read(Index(s, key)[k]) == read(Index(t, key)[k])
    requires Distinct(s, key)
    ensures forall u <- Apply(s, read) :: u in Apply(t, read)
  {
    forall i | 0 <= i < |s| ensures read(s[i]) in Apply(t, read) {
      IndexAt(s, key, i);
      IndexKeys(t, key);
      var y := Index(t, key)[key(s[i])];
      var j :| 0 <= j < |t| && t[j] == y;
      assert Apply(t, read)[j] == read(s[i]);
    }
  }

  /** Two dictionaries have the same keys, and read the same. */
  predicate ReadAlike<T, U(==), K(==)>(m: map<K, T>, n: map<K, T>, read: T -> U) {
    m.Keys == n.Keys && forall k <- m :: read(m[k]) == read(n[k])
  }

  lemma SameReadsSameIndex<T, U, K>(s: seq<T>, t: seq<T>, key: T -> K, read: T -> U)
    requires Distinct(s, key) && Distinct(t, key)
    requires forall x, y :: read(x) == read(y) ==> key(x) == key(y)
    requires multiset(Apply(s, read)) == multiset(Apply(t, read))
    ensures ReadAlike(Index(s, key), Index(t, key), read)
  {
    assert forall u <- Apply(s, read) :: u in multiset(Apply(s, read));
    assert forall u <- Apply(t, read) :: u in multiset(Apply(t, read));
    forall k | k in Index(s, key) ensures k in Index(t, key) && read(Index(s, key)[k]) == read(Index(t, key)[k]) {
      Rereads(s, t, key, read, k);
    }
    forall k | k in Index(t, key) ensures k in Index(s, key) {
      Rereads(t, s, key, read, k);
    }
  }

  lemma SameIndexSameReads<T, U, K>(s: seq<T>, t: seq<T>, key: T -> K, read: T -> U)
    requires Distinct(s, key) && Distinct(t, key)
    requires forall x, y :: read(x) == read(y) ==> key(x) == key(y)
    requires ReadAlike(Index(s, key), Index(t, key), read)
    ensures multiset(Apply(s, read)) == multiset(Apply(t, read))
  {
    ReadsFound(s, t, key, read);
    ReadsFound(t, s, key, read);
    ReadsDistinct(s, key, read);
    ReadsDistinct(t, key, read);
    SameOnce(Apply(s, read), Apply(t, read));
  }

  lemma SameOnce<U>(a: seq<U>, b: seq<U>)
    requires forall u :: multiset(a)[u] == if u in a then 1 else 0
    requires forall u :: multiset(b)[u] == if u in b then 1 else 0
    requires (forall u <- a :: u in b) && (forall u <- b :: u in a)
    ensures multiset(a) == multiset(b)
  {
    forall u ensures multiset(a)[u] == multiset(b)[u] {
      assert u in a <==> u in b;
    }
  }

  /** Two lists with distinct keys, where a reading shows the key, read the same up to
      order exactly when their dictionaries do. */
  lemma ReadSameByKey<T, U, K>(s: seq<T>, t: seq<T>, key: T -> K, read: T -> U)
    requires Distinct(s, key) && Distinct(t, key)
    requires forall x, y :: read(x) == read(y) ==> key(x) == key(y)
    ensures multiset(Apply(s, read)) == multiset(Apply(t, read)) <==> ReadAlike(Index(s, key), Index(t, key), read)
  {
    if multiset(Apply(s, read)) == multiset(Apply(t, read)) { SameReadsSameIndex(s, t, key, read); }
    if ReadAlike(Index(s, key), Index(t, key), read) { SameIndexSameReads(s, t, key, read); }
  }
}
