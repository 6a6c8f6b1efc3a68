/** Stable sorting by an order, and when the result does not depend on the sorting. */
module Sorting {
  import opened Rearrangement

  ghost predicate Total<T(!new)>(before: (T, T) -> bool) {
    && (forall a, b :: before(a, b) || before(b, a))
    && (forall a, b, c :: before(a, b) && before(b, c) ==> before(a, c))
  }

  ghost predicate Antisymmetric<T(!new)>(before: (T, T) -> bool) {
    forall a, b :: before(a, b) && before(b, a) ==> a == b
  }

  // The order tells the items of s apart.
  ghost predicate Separates<T>(before: (T, T) -> bool, s: seq<T>) {
    forall a, b :: a in s && b in s && before(a, b) && before(b, a) ==> a == b
  }

  predicate Sorted<T>(s: seq<T>, before: (T, T) -> bool) {
    forall i, j :: 0 <= i < j < |s| ==> before(s[i], s[j])
  }

  function Insert<T>(x: T, s: seq<T>, before: (T, T) -> bool): (r: seq<T>)
    ensures |r| == |s| + 1
  {
    if s == [] then [x]
    else if before(x, s[0]) then [x] + s
    else [s[0]] + Insert(x, s[1..], before)
  }

  function Sort<T>(s: seq<T>, before: (T, T) -> bool): (r: seq<T>)
  {
    if s == [] then [] else Insert(s[0], Sort(s[1..], before), before)
  }

  lemma {:induction false} InsertAdds<T>(x: T, s: seq<T>, before: (T, T) -> bool)
    ensures multiset(Insert(x, s, before)) == multiset(s) + multiset{x}
  {
    if s != [] && !before(x, s[0]) {
      InsertAdds(x, s[1..], before);
      assert s == [s[0]] + s[1..];
    }
  }

  lemma {:induction false} SortPermutes<T>(s: seq<T>, before: (T, T) -> bool)
    ensures multiset(Sort(s, before)) == multiset(s)
  {
    if s != [] {
      SortPermutes(s[1..], before);
      InsertAdds(s[0], Sort(s[1..], before), before);
      assert s == [s[0]] + s[1..];
    }
  }

  lemma {:induction false} InsertSorts<T(!new)>(x: T, s: seq<T>, before: (T, T) -> bool)
    requires Total(before) && Sorted(s, before)
    ensures Sorted(Insert(x, s, before), before)
  {
    if s != [] && !before(x, s[0]) {
      InsertSorts(x, s[1..], before);
      InsertAdds(x, s[1..], before);
      var r := Insert(x, s[1..], before);
      forall i | 0 <= i < |r| ensures before(s[0], r[i]) {
        assert r[i] in multiset(r);
        assert r[i] == x || r[i] in s[1..];
      }
    }
  }

  lemma {:induction false} SortSorts<T(!new)>(s: seq<T>, before: (T, T) -> bool)
    requires Total(before)
    ensures Sorted(Sort(s, before), before)
  {
    if s != [] {
      SortSorts(s[1..], before);
      InsertSorts(s[0], Sort(s[1..], before), before);
    }
  }

  lemma HeadIsFirst<T(!new)>(s: seq<T>, t: seq<T>, before: (T, T) -> bool)
    requires Total(before) && Sorted(t, before) && multiset(s) == multiset(t) && s != [] && t != []
    ensures before(t[0], s[0])
  {
    assert s[0] in multiset(t);
  }

  // Only one arrangement is sorted.
  lemma {:induction false} SortedOnce<T(!new)>(s: seq<T>, t: seq<T>, before: (T, T) -> bool)
    requires Total(before) && Separates(before, s)
    requires Sorted(s, before) && Sorted(t, before) && multiset(s) == multiset(t)
    ensures s == t
  {
    assert |multiset(s)| == |s| && |multiset(t)| == |t|;
    if s != [] {
      HeadIsFirst(s, t, before);
      HeadIsFirst(t, s, before);
      assert t[0] in multiset(s);
      TailsSame(s, t);
      SortedOnce(s[1..], t[1..], before);
    }
  }

  /** Sorting forgets exactly the arrangement. */
  lemma SortCanonical<T(!new)>(s: seq<T>, t: seq<T>, before: (T, T) -> bool)
    requires Total(before) && Antisymmetric(before)
    ensures Sort(s, before) == Sort(t, before) <==> multiset(s) == multiset(t)
  {
    SortPermutes(s, before);
    SortPermutes(t, before);
    SortSorts(s, before);
    SortSorts(t, before);
    if multiset(s) == multiset(t) { SortedOnce(Sort(s, before), Sort(t, before), before); }
  }
}
