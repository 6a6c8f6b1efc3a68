/**
  Ordering by dependencies, round after round: in each round everything whose dependencies
  are all placed is placed, in the order of the names. The round of a name is shown to be
  the length of its longest chain of dependencies, and getting stuck to mean a cycle or an
  unknown name.
  */
module Layers {
  import opened JsonText

  /** What each name depends on. */
  type Graph = map<string, set<string>>

  // ---------- Rounds ----------

  function Ready(g: Graph, seen: set<string>): set<string> {
    set r <- g | r !in seen && g[r] <= seen
  }

  // The revisions placed in the first n rounds.
  function Placed(g: Graph, n: nat): (s: set<string>)
    ensures s <= g.Keys
  {
    if n == 0 then {} else Placed(g, n - 1) + Ready(g, Placed(g, n - 1))
  }

  function Order(g: Graph, n: nat): seq<string> {
    if n == 0 then [] else Order(g, n - 1) + SortedKeys(Ready(g, Placed(g, n - 1)))
  }

  lemma {:induction false} OrderPlaced(g: Graph, n: nat)
    ensures multiset(Order(g, n)) == multiset(Placed(g, n))
    ensures forall r :: r in Order(g, n) <==> r in Placed(g, n)
  {
    if n > 0 {
      OrderPlaced(g, n - 1);
      var before := Placed(g, n - 1);
      var ready := Ready(g, before);
      SortedKeysAscend(ready);
      assert before !! ready;
      UnionCounts(before, ready);
    }
  }

  lemma UnionCounts(a: set<string>, b: set<string>)
    requires a !! b
    ensures multiset(a + b) == multiset(a) + multiset(b)
  {
  }

  // ---------- Chains of dependencies ----------

  /** Each revision of the chain depends on the next one. */
  predicate Chain(g: Graph, p: seq<string>) {
    forall i :: 0 <= i < |p| - 1 ==> p[i] in g && p[i + 1] in g[p[i]]
  }

  predicate Repeats(p: seq<string>) {
    exists i, j :: 0 <= i < j < |p| && p[i] == p[j]
  }

  /** Some revision reaches an unknown one, or runs into a cycle. */
  ghost predicate Unresolved(g: Graph) {
    exists p :: Chain(g, p) && |p| > 1 && (p[|p| - 1] !in g || Repeats(p))
  }

  /** The longest chain from a revision has `depth` revisions. */
  ghost predicate Deepest(g: Graph, r: string, depth: nat) {
    && (exists p :: Chain(g, p) && p != [] && p[0] == r && |p| == depth)
    && (forall p :: Chain(g, p) && p != [] && p[0] == r ==> |p| <= depth)
  }

  // The round in which a placed revision is placed.
  function Round(g: Graph, r: string, n: nat): (k: nat)
    ensures k <= n
  {
    if n > 0 && r in Placed(g, n - 1) then Round(g, r, n - 1) else n
  }

  lemma {:induction false} RoundMeans(g: Graph, r: string, n: nat)
    requires r in Placed(g, n)
    ensures var k := Round(g, r, n);
      k > 0 && r !in Placed(g, k - 1) && r in Ready(g, Placed(g, k - 1))
  {
    if r in Placed(g, n - 1) { RoundMeans(g, r, n - 1); }
  }

  lemma {:induction false} RoundIs(g: Graph, r: string, m: nat, n: nat)
    requires m <= n && r in Placed(g, m)
    ensures r in Placed(g, n) && Round(g, r, n) == Round(g, r, m)
    decreases n
  {
    if m < n {
      RoundIs(g, r, m, n - 1);
    }
  }

  // A dependency of a placed revision was placed in an earlier round.
  lemma DependencyEarlier(g: Graph, r: string, d: string, n: nat)
    requires r in Placed(g, n) && d in g[r]
    ensures d in Placed(g, n) && Round(g, d, n) < Round(g, r, n)
  {
  }

  // Along a chain of placed revisions the rounds fall.
  lemma {:induction false} ChainFalls(g: Graph, p: seq<string>, n: nat)
    requires Chain(g, p) && p != [] && p[0] in Placed(g, n)
    ensures forall i :: 0 <= i < |p| ==> p[i] in Placed(g, n)
    ensures forall i :: 0 < i < |p| ==> Round(g, p[i], n) < Round(g, p[0], n)
    ensures |p| <= Round(g, p[0], n)
    ensures !Repeats(p)
    decreases |p|
  {
    RoundMeans(g, p[0], n);
    if |p| > 1 {
      DependencyEarlier(g, p[0], p[1], n);
      var rest := p[1..];
      assert forall i :: 0 <= i < |rest| ==> rest[i] == p[i + 1];
      ChainFalls(g, rest, n);
      forall i | 0 < i < |p| ensures p[i] in Placed(g, n) && Round(g, p[i], n) < Round(g, p[0], n) {
        assert p[i] == rest[i - 1];
      }
      forall i, j | 0 <= i < j < |p| ensures p[i] != p[j] {
        if i > 0 { assert p[i] == rest[i - 1] && p[j] == rest[j - 1]; }
      }
    }
  }

  // A revision placed in round k has a chain of k revisions.
  lemma {:induction false} ChainExists(g: Graph, r: string, n: nat) returns (p: seq<string>)
    requires r in Placed(g, n)
    ensures Chain(g, p) && p != [] && p[0] == r && |p| == Round(g, r, n)
    decreases Round(g, r, n)
  {
    var k := Round(g, r, n);
    RoundMeans(g, r, n);
    if k == 1 {
      p := [r];
    } else {
      var d := LastDependency(g, r, k);
      RoundIs(g, d, k - 1, n);
      var rest := ChainExists(g, d, n);
      p := [r] + rest;
    }
  }

  lemma LastDependency(g: Graph, r: string, k: nat) returns (d: string)
    requires k > 1 && r in Ready(g, Placed(g, k - 1)) && r !in Placed(g, k - 1)
    ensures d in g[r] && d in Placed(g, k - 1) && Round(g, d, k - 1) == k - 1
  {
    assert r !in Placed(g, k - 2) + Ready(g, Placed(g, k - 2));
    d :| d in g[r] && d !in Placed(g, k - 2);
  }

  /** The round of a revision is the length of its longest chain of dependencies. */
  lemma RoundIsDepth(g: Graph, r: string, n: nat)
    requires r in Placed(g, n)
    ensures Deepest(g, r, Round(g, r, n))
  {
    var p := ChainExists(g, r, n);
    forall q | Chain(g, q) && q != [] && q[0] == r ensures |q| <= Round(g, r, n) {
      ChainFalls(g, q, n);
    }
  }

  // ---------- Getting stuck ----------

  // Among more positions than there are values, one value comes twice.
  lemma {:induction false} Pigeonhole(p: seq<string>, values: set<string>)
    requires (forall i :: 0 <= i < |p| ==> p[i] in values) && !Repeats(p)
    ensures |p| <= |values|
  {
    if p != [] {
      var front, last := p[..|p| - 1], p[|p| - 1];
      forall i, j | 0 <= i < j < |front| ensures front[i] != front[j] {
        assert p[i] != p[j];
      }
      forall i | 0 <= i < |front| ensures front[i] in values - {last} {
        assert p[i] != p[|p| - 1];
      }
      Pigeonhole(front, values - {last});
    }
  }

  // With nothing ready, a chain of revisions that are not placed goes on and on.
  lemma {:induction false} StuckChain(g: Graph, seen: set<string>, r: string, length: nat) returns (p: seq<string>)
    requires seen <= g.Keys && Ready(g, seen) == {} && r in g && r !in seen
    ensures Chain(g, p) && p != [] && p[0] == r
    ensures |p| == length + 1 || (|p| > 1 && p[|p| - 1] !in g)
    ensures forall i :: 0 <= i < |p| - 1 ==> p[i] in g
    ensures p[|p| - 1] in g ==> |p| == length + 1
    decreases length
  {
    if length == 0 {
      p := [r];
    } else {
      assert r !in Ready(g, seen);
      var d :| d in g[r] && d !in seen;
      if d in g {
        var rest := StuckChain(g, seen, d, length - 1);
        p := [r] + rest;
      } else {
        p := [r, d];
      }
    }
  }

  lemma StuckUnresolved(g: Graph, seen: set<string>)
    requires seen <= g.Keys && Ready(g, seen) == {} && seen != g.Keys
    ensures Unresolved(g)
  {
    var r :| r in g && r !in seen;
    var p := StuckChain(g, seen, r, |g|);
    if p[|p| - 1] in g && !Repeats(p) {
      Pigeonhole(p, g.Keys);
      assert false;
    }
  }

  lemma PlacedResolved(g: Graph, n: nat)
    requires Placed(g, n) == g.Keys
    ensures !Unresolved(g)
  {
    forall p | Chain(g, p) && |p| > 1 ensures p[|p| - 1] in g && !Repeats(p) {
      ChainFalls(g, p, n);
      assert p[|p| - 1] in Placed(g, n);
    }
  }

  // ---------- The order ----------

  type Ranks = map<string, nat>

  // Sorted by rank, then by name.
  predicate Ascends(rank: Ranks, order: seq<string>) {
    && (forall r <- order :: r in rank)
    && (forall i, j :: 0 <= i < j < |order| ==> Before(rank, order[i], order[j]))
  }

  predicate Before(rank: Ranks, a: string, b: string) {
    && a in rank && b in rank
    && (rank[a] < rank[b] || (rank[a] == rank[b] && AtMost(a, b) && a != b))
  }

  function RoundOf(g: Graph, n: nat): Ranks {
    map r | r in Placed(g, n) :: Round(g, r, n)
  }

  // Rounds glue together: an ordered list of earlier rounds, then the names of round n.
  lemma GlueRounds(was: Ranks, rank: Ranks, n: nat, front: seq<string>, last: seq<string>)
    requires forall r <- front :: r in was && r in rank && was[r] == rank[r] < n
    requires forall r <- last :: r in rank && rank[r] == n
    requires Ascends(was, front)
    requires forall i, j :: 0 <= i < j < |last| ==> AtMost(last[i], last[j]) && last[i] != last[j]
    ensures Ascends(rank, front + last)
  {
  }

  lemma {:induction false} OrderAscends(g: Graph, n: nat)
    ensures Ascends(RoundOf(g, n), Order(g, n))
  {
    if n > 0 {
      OrderAscends(g, n - 1);
      var ready := Ready(g, Placed(g, n - 1));
      SortedKeysAscend(ready);
      GlueRounds(RoundOf(g, n - 1), RoundOf(g, n), n, Order(g, n - 1), SortedKeys(ready));
    }
  }

  /** Sorted by the length of the longest chain of dependencies, then by name. */
  ghost predicate SortedByDepth(g: Graph, order: seq<string>) {
    forall i, j :: 0 <= i < j < |order| ==> Comes(g, order[i], order[j])
  }

  ghost predicate Comes(g: Graph, a: string, b: string) {
    exists d, e :: Deepest(g, a, d) && Deepest(g, b, e) && (d < e || (d == e && AtMost(a, b) && a != b))
  }

  predicate DependenciesFirst(g: Graph, order: seq<string>) {
    forall i :: 0 <= i < |order| ==> order[i] in g && forall d <- g[order[i]] :: d in order[..i]
  }

  lemma OrderIsSorted(g: Graph, n: nat)
    ensures SortedByDepth(g, Order(g, n))
  {
    var o := Order(g, n);
    OrderAscends(g, n);
    forall i, j | 0 <= i < j < |o| ensures Comes(g, o[i], o[j]) {
      assert Before(RoundOf(g, n), o[i], o[j]);
      RoundIsDepth(g, o[i], n);
      RoundIsDepth(g, o[j], n);
    }
  }

  lemma OrderDependenciesFirst(g: Graph, n: nat)
    ensures DependenciesFirst(g, Order(g, n))
  {
    var o := Order(g, n);
    OrderAscends(g, n);
    OrderPlaced(g, n);
    forall i | 0 <= i < |o| ensures o[i] in g && forall d <- g[o[i]] :: d in o[..i] {
      assert o[i] in o;
      forall d | d in g[o[i]] ensures d in o[..i] {
        DependencyEarlier(g, o[i], d, n);
      }
    }
  }
}
