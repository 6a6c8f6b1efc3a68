/**
  `resolve_file`: following symbolic links in the flat path map, by rewriting the
  path at its shortest symlink prefix, at most 39 times.
  */
module Resolver {
  import opened Options
  import opened Paths
  import opened Redirects
  import opened Overlay
  import opened OverlaySafety

  // ---------- the loop as a function ----------

  datatype Hop = Arrived | Refused | To(next: Path)

  datatype Outcome = Found(path: Path, entry: Entry) | Missing(path: Path) | Invalid

  /** The scan over prefixes, from the k-th on. */
  function Scan(files: Files, p: Path, k: nat): Hop
    requires 0 < k
    decreases |p| + 1 - k
  {
    if k > |p| then Arrived
    else if p[..k] in files && files[p[..k]].Symlink? then
      var next := Redirect(p, k, files[p[..k]].target);
      if next.None? then Refused else To(next.value)
    else if p[..k] in files && k < |p| && !files[p[..k]].Directory? then Refused
    else Scan(files, p, k + 1)
  }

  function Walk(files: Files, p: Path, hops: nat): Outcome
    decreases hops
  {
    if hops == 0 then Invalid
    else match Scan(files, p, 1)
      case Refused => Invalid
      case Arrived => if p in files then Found(p, files[p]) else Missing(p)
      case To(next) => Walk(files, next, hops - 1)
  }

  const HOPS := 40

  function ResolveFile(files: Files, name: string): Outcome {
    var start := NormalPath(name);
    if start.None? then Invalid else Walk(files, start.value, HOPS)
  }

  /** The source's nested loops. */
  method ResolveFileLoop(files: Files, name: string) returns (r: Outcome)
    ensures r == ResolveFile(files, name)
  {
    var start := NormalPath(name);
    if start.None? { return Invalid; }
    var path := start.value;
    for hop := 0 to HOPS
      invariant Walk(files, path, HOPS - hop) == Walk(files, start.value, HOPS)
    {
      var index := 1;
      var rewritten := false;
      while index <= |path| && !rewritten
        invariant 1 <= index <= |path| + 1
        invariant !rewritten ==> Scan(files, path, index) == Scan(files, path, 1)
        invariant !rewritten ==> Walk(files, path, HOPS - hop) == Walk(files, start.value, HOPS)
        invariant rewritten ==> Walk(files, path, HOPS - hop - 1) == Walk(files, start.value, HOPS)
        decreases !rewritten, |path| - index
      {
        var prefix := path[..index];
        if prefix in files && files[prefix].Symlink? {
          var next := Redirect(path, index, files[prefix].target);
          if next.None? { return Invalid; }
          path, rewritten, index := next.value, true, 1;
        } else {
          if prefix in files && index < |path| && !files[prefix].Directory? { return Invalid; }
          index := index + 1;
        }
      }
      if !rewritten {
        return if path in files then Found(path, files[path]) else Missing(path);
      }
    }
    return Invalid;
  }

  // ---------- what the loop finds, without a loop ----------

  predicate LinkAt(files: Files, p: Path, k: nat) {
    0 < k <= |p| && p[..k] in files && files[p[..k]].Symlink?
  }

  /** Every stored proper prefix shorter than `k` components is a directory. */
  predicate DirectoriesBefore(files: Files, p: Path, k: nat) {
    forall j | 0 < j < k && j < |p| && p[..j] in files :: files[p[..j]].Directory?
  }

  /** The rewriting relation: one link followed, at the shortest linked prefix. */
  ghost predicate Rewrites(files: Files, p: Path, q: Path) {
    exists k: nat :: LinkAt(files, p, k) && DirectoriesBefore(files, p, k)
      && Leads(p, k, files[p[..k]].target) == Some(q)
  }

  /** Nothing left to rewrite, and no regular file in the way. */
  predicate LinkFree(files: Files, p: Path) {
    && DirectoriesBefore(files, p, |p|)
    && !LinkAt(files, p, |p|)
  }

  ghost predicate Trail(files: Files, trail: seq<Path>) {
    && |trail| > 0
    && (forall i | 0 <= i < |trail| - 1 :: Rewrites(files, trail[i], trail[i + 1]))
  }

  lemma {:induction false} ScanFrom(files: Files, p: Path, k: nat)
    requires Normal(p) && 0 < k && DirectoriesBefore(files, p, k)
    ensures Scan(files, p, k) == Arrived <==> k > |p| || LinkFree(files, p)
    ensures forall q :: Scan(files, p, k) == To(q) <==>
              exists l: nat :: k <= l && LinkAt(files, p, l) && DirectoriesBefore(files, p, l)
                && Leads(p, l, files[p[..l]].target) == Some(q)
    decreases |p| + 1 - k
  {
    if k <= |p| {
      if LinkAt(files, p, k) {
        RedirectLeads(p, k, files[p[..k]].target);
        assert forall l | k < l :: !DirectoriesBefore(files, p, l) || l > |p| || l == k by {
          forall l | k < l <= |p| ensures !DirectoriesBefore(files, p, l) {
            assert 0 < k < l && k < |p| && p[..k] in files;
          }
        }
      } else if p[..k] in files && k < |p| && !files[p[..k]].Directory? {
        forall l | k < l ensures !DirectoriesBefore(files, p, l) {}
      } else {
        ScanFrom(files, p, k + 1);
      }
    }
  }

  lemma ScanMeaning(files: Files, p: Path)
    requires Normal(p)
    ensures Scan(files, p, 1) == Arrived <==> LinkFree(files, p)
    ensures forall q :: Scan(files, p, 1) == To(q) <==> Rewrites(files, p, q)
  {
    ScanFrom(files, p, 1);
  }

  lemma LeadsNormal(p: Path, k: nat, target: string)
    requires Normal(p) && 0 < k <= |p|
    ensures Leads(p, k, target).Some? ==> Normal(Leads(p, k, target).value)
  {
    SplitComponents(target);
    SolidAround(p, k);
    assert forall c <- Split(target) + p[k..] :: '/' !in c;
    FollowSolid(if target != "" && target[0] == '/' then [] else p[..k - 1], Split(target) + p[k..]);
  }

  lemma RewritesNormal(files: Files, p: Path, q: Path)
    requires Normal(p) && Rewrites(files, p, q)
    ensures Normal(q)
  {
    var k: nat :| LinkAt(files, p, k) && DirectoriesBefore(files, p, k)
             && Leads(p, k, files[p[..k]].target) == Some(q);
    LeadsNormal(p, k, files[p[..k]].target);
  }

  /** Rewriting is deterministic, and never possible from a link-free path. */
  lemma RewritesDeterministic(files: Files, p: Path, q: Path, r: Path)
    requires Normal(p) && Rewrites(files, p, q)
    ensures !LinkFree(files, p)
    ensures Rewrites(files, p, r) ==> q == r
  {
    ScanMeaning(files, p);
  }

  ghost predicate Reaches(files: Files, p: Path, trail: seq<Path>, hops: nat, end: Path) {
    Trail(files, trail) && |trail| <= hops && trail[0] == p && trail[|trail| - 1] == end && LinkFree(files, end)
  }

  lemma TrailCons(files: Files, p: Path, next: Path, rest: seq<Path>)
    requires Rewrites(files, p, next) && Trail(files, rest) && rest[0] == next
    ensures Trail(files, [p] + rest)
  {
    var trail := [p] + rest;
    forall i | 0 <= i < |trail| - 1 ensures Rewrites(files, trail[i], trail[i + 1]) {
      if i > 0 { assert Rewrites(files, rest[i - 1], rest[i - 1 + 1]); }
    }
  }

  lemma {:induction false} WalkFollows(files: Files, p: Path, hops: nat) returns (trail: seq<Path>)
    requires Normal(p) && !Walk(files, p, hops).Invalid?
    ensures Reaches(files, p, trail, hops, Walk(files, p, hops).path)
    ensures Normal(Walk(files, p, hops).path)
    decreases hops
  {
    ScanMeaning(files, p);
    match Scan(files, p, 1) {
      case Arrived => trail := [p];
      case To(next) =>
        assert Rewrites(files, p, next);
        RewritesNormal(files, p, next);
        var rest := WalkFollows(files, next, hops - 1);
        TrailCons(files, p, next, rest);
        trail := [p] + rest;
      case Refused =>
    }
  }

  lemma TrailTail(files: Files, p: Path, trail: seq<Path>, hops: nat, end: Path)
    requires Reaches(files, p, trail, hops, end) && |trail| > 1
    ensures Rewrites(files, p, trail[1]) && hops > 1
    ensures Reaches(files, trail[1], trail[1..], hops - 1, end)
  {
    var rest := trail[1..];
    assert Rewrites(files, trail[0], trail[1]);
    forall i | 0 <= i < |rest| - 1 ensures Rewrites(files, rest[i], rest[i + 1]) {
      assert Rewrites(files, trail[i + 1], trail[i + 1 + 1]);
    }
  }

  lemma {:induction false} FollowedByWalk(files: Files, p: Path, hops: nat, trail: seq<Path>, end: Path)
    requires Normal(p) && Reaches(files, p, trail, hops, end)
    ensures Walk(files, p, hops) == if end in files then Found(end, files[end]) else Missing(end)
    decreases hops
  {
    ScanMeaning(files, p);
    if |trail| > 1 {
      TrailTail(files, p, trail, hops, end);
      RewritesNormal(files, p, trail[1]);
      FollowedByWalk(files, trail[1], hops - 1, trail[1..], end);
    }
  }

  /** `resolve_file` returns exactly when at most 39 rewrites lead from the normalised
      name to a stored link-free path, and it returns the end of that trail. */
  lemma ReturnsExactlyAlongTrail(files: Files, name: string, end: Path, entry: Entry)
    ensures ResolveFile(files, name) == Found(end, entry)
       <==> (NormalPath(name).Some? && end in files && files[end] == entry
             && exists trail :: Reaches(files, NormalPath(name).value, trail, 40, end))
    ensures ResolveFile(files, name) == Missing(end)
       <==> (NormalPath(name).Some? && end !in files
             && exists trail :: Reaches(files, NormalPath(name).value, trail, 40, end))
  {
    if NormalPath(name).Some? {
      NormalPathIsNormal(name);
      var p := NormalPath(name).value;
      if !Walk(files, p, HOPS).Invalid? {
        var trail := WalkFollows(files, p, HOPS);
        assert Reaches(files, p, trail, HOPS, Walk(files, p, HOPS).path);
      }
      forall trail | Reaches(files, p, trail, HOPS, end)
        ensures Walk(files, p, HOPS) == if end in files then Found(end, files[end]) else Missing(end)
      {
        FollowedByWalk(files, p, HOPS, trail, end);
      }
    }
  }

  /** What comes back is stored, is not a link, and resolves to itself. */
  lemma ResultIsFixed(files: Files, name: string)
    requires ResolveFile(files, name).Found?
    ensures var r := ResolveFile(files, name);
            r.path in files && r.entry == files[r.path] && !r.entry.Symlink?
            && ResolveFile(files, Render(r.path)) == r
  {
    var r := ResolveFile(files, name);
    NormalPathIsNormal(name);
    var trail := WalkFollows(files, NormalPath(name).value, HOPS);
    FollowedByWalk(files, NormalPath(name).value, HOPS, trail, r.path);
    NormalPathRender(r.path);
    assert r.path[..|r.path|] == r.path;
    assert Reaches(files, r.path, [r.path], HOPS, r.path);
    FollowedByWalk(files, r.path, HOPS, [r.path], r.path);
  }

  /** In every image the layer loop can produce, a stored regular file or directory
      is its own resolution. */
  lemma StoredResolvesToItself(layers: seq<LayerBlob>, retainPaths: set<string>, p: Path)
    requires Replay(layers, retainPaths).Some?
    requires p in Replay(layers, retainPaths).value.files
    requires !Replay(layers, retainPaths).value.files[p].Symlink?
    ensures var files := Replay(layers, retainPaths).value.files;
            ResolveFile(files, Render(p)) == Found(p, files[p])
  {
    ReplaySound(layers, retainPaths);
    var files := Replay(layers, retainPaths).value.files;
    NormalPathRender(p);
    assert ParentsClear(files, p) && p[..|p|] == p;
    assert LinkFree(files, p);
    assert Reaches(files, p, [p], HOPS, p);
    FollowedByWalk(files, p, HOPS, [p], p);
  }
}
