/** Rearranging a sequence: equal multisets and permutations of the positions are the same thing. */
module Rearrangement {

  // p sends each of n positions to a position of its own.
  predicate Rearranges(p: seq<nat>, n: nat) {
    && |p| == n
    && (forall i :: 0 <= i < n ==> p[i] < n)
    && (forall i, j :: 0 <= i < j < n ==> p[i] != p[j])
  }

  function Without<T>(s: seq<T>, at: nat): seq<T>
    requires at < |s|
  {
    s[..at] + s[at + 1..]
  }

  lemma WithoutKeeps<T>(s: seq<T>, at: nat)
    requires at < |s|
    ensures multiset(s) == multiset(Without(s, at)) + multiset{s[at]}
  {
    assert s == s[..at] + [s[at]] + s[at + 1..];
  }

  lemma TakeOneAway<T>(a: multiset<T>, b: multiset<T>, x: T)
    requires a + multiset{x} == b + multiset{x}
    ensures a == b
  {
    assert a == (a + multiset{x}) - multiset{x};
    assert b == (b + multiset{x}) - multiset{x};
  }

  lemma TailsSame<T>(s: seq<T>, t: seq<T>)
    requires s != [] && t != [] && s[0] == t[0] && multiset(s) == multiset(t)
    ensures multiset(s[1..]) == multiset(t[1..])
  {
    WithoutKeeps(s, 0);
    WithoutKeeps(t, 0);
    assert Without(s, 0) == s[1..] && Without(t, 0) == t[1..];
    TakeOneAway(multiset(s[1..]), multiset(t[1..]), s[0]);
  }

  // Where the last item of s stands in t.
  lemma LastFound<T>(s: seq<T>, t: seq<T>) returns (at: nat)
    requires s != [] && multiset(s) == multiset(t)
    ensures at < |t| && t[at] == s[|s| - 1]
    ensures multiset(s[..|s| - 1]) == multiset(Without(t, at))
  {
    var n := |s| - 1;
    assert s == s[..n] + [s[n]];
    assert s[n] in multiset(t);
    at :| 0 <= at < |t| && t[at] == s[n];
    WithoutKeeps(t, at);
    TakeOneAway(multiset(s[..n]), multiset(Without(t, at)), s[n]);
  }

  // The positions of s, closed up after position `at` is gone, and opened again.
  function Close(p: seq<nat>, at: nat): seq<nat> {
    seq(|p|, i requires 0 <= i < |p| => if p[i] > at then p[i] - 1 else p[i])
  }

  function Open(p: seq<nat>, at: nat): seq<nat> {
    seq(|p|, i requires 0 <= i < |p| => if p[i] >= at then p[i] + 1 else p[i])
  }

  lemma {:induction false} RearrangedSame<T>(s: seq<T>, t: seq<T>, p: seq<nat>)
    requires |s| == |t| && Rearranges(p, |s|)
    requires forall i :: 0 <= i < |s| ==> s[i] == t[p[i]]
    ensures multiset(s) == multiset(t)
    decreases |s|
  {
    if s != [] {
      var n := |s| - 1;
      var at := p[n];
      var rest := Without(t, at);
      RearrangedSame(s[..n], rest, Close(p[..n], at));
      WithoutKeeps(t, at);
      assert s == s[..n] + [s[n]];
    }
  }

  lemma {:induction false} RearrangementOf<T>(s: seq<T>, t: seq<T>) returns (p: seq<nat>)
    requires multiset(s) == multiset(t)
    ensures |s| == |t| && Rearranges(p, |s|)
    ensures forall i :: 0 <= i < |s| ==> s[i] == t[p[i]]
    decreases |s|
  {
    assert |multiset(s)| == |s| && |multiset(t)| == |t|;
    if s == [] {
      p := [];
    } else {
      var n := |s| - 1;
      var at := LastFound(s, t);
      var q := RearrangementOf(s[..n], Without(t, at));
      p := Open(q, at) + [at];
    }
  }
}
