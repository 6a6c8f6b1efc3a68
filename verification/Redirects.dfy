/**
  Where names and symlink targets lead, one component at a time. The program joins and
  normalises strings with posixpath; this module gives those operations and proves that
  they follow components.
  */
module Redirects {
  import opened Options
  import opened Paths

  // ---------- one component at a time ----------

  /** The empty component and "." change nothing, ".." drops the last component, and
      nothing at the root, and any other component is appended. */
  function StepTo(at: Path, c: string): Path {
    if c == "" || c == "." then at
    else if c == ".." then (if at == [] then [] else at[..|at| - 1])
    else at + [c]
  }

  function Follow(at: Path, parts: seq<string>): Path
    decreases |parts|
  {
    if parts == [] then at else Follow(StepTo(at, parts[0]), parts[1..])
  }

  /** The root directory itself is stored under the single component ".". */
  function Ends(at: Path): Option<Path> {
    if exists c <- at :: '\0' in c then None else Some(if at == [] then ["."] else at)
  }

  /** Where a path goes when its first `k` components name a link to `target`. */
  function Leads(p: Path, k: nat, target: string): Option<Path>
    requires 0 < k <= |p|
  {
    Ends(Follow(if target != "" && target[0] == '/' then [] else p[..k - 1], Split(target) + p[k..]))
  }

  predicate Solid(c: string) {
    c != "" && c != "." && c != ".." && '/' !in c
  }

  predicate AllPlain(p: Path) {
    forall c <- p :: PlainComponent(c)
  }

  lemma PlainIsSolid(p: Path)
    requires AllPlain(p)
    ensures forall c <- p :: Solid(c)
    ensures forall c <- p :: '/' !in c && '\0' !in c
  {
  }

  lemma PlainAround(p: Path, k: nat)
    requires Normal(p) && 0 < k <= |p|
    ensures AllPlain(p[..k - 1]) && AllPlain(p[k..]) && Normal(p[..k])
  {
    if p == ["."] {
      assert p[..0] == [] && p[1..] == [] && p[..1] == p;
    } else {
      forall c | c in p[..k - 1] || c in p[k..] || c in p[..k] ensures PlainComponent(c) {
        assert c in p;
      }
    }
  }

  lemma SolidAround(p: Path, k: nat)
    requires Normal(p) && 0 < k <= |p|
    ensures forall c <- p[..k - 1] :: Solid(c)
    ensures forall c <- p[k..] :: Solid(c) && '/' !in c
    ensures Normal(p[..k])
  {
    PlainAround(p, k);
    PlainIsSolid(p[..k - 1]);
    PlainIsSolid(p[k..]);
  }

  lemma {:induction false} FollowAppend(at: Path, a: seq<string>, b: seq<string>)
    ensures Follow(at, a + b) == Follow(Follow(at, a), b)
    decreases |a|
  {
    if a == [] {
      assert a + b == b;
    } else {
      assert (a + b)[1..] == a[1..] + b;
      FollowAppend(StepTo(at, a[0]), a[1..], b);
    }
  }

  lemma {:induction false} FollowSolid(at: Path, parts: seq<string>)
    requires forall c <- parts :: '/' !in c
    requires forall c <- at :: Solid(c)
    ensures forall c <- Follow(at, parts) :: Solid(c)
    decreases |parts|
  {
    if parts != [] {
      assert parts[0] in parts && forall c <- parts[1..] :: c in parts;
      FollowSolid(StepTo(at, parts[0]), parts[1..]);
    }
  }

  /** Solid components are simply appended. */
  lemma {:induction false} FollowForward(at: Path, parts: seq<string>)
    requires forall c <- parts :: Solid(c)
    ensures Follow(at, parts) == at + parts
    decreases |parts|
  {
    if parts == [] {
      assert at + parts == at;
    } else {
      assert parts[0] in parts && forall c <- parts[1..] :: c in parts;
      FollowForward(at + [parts[0]], parts[1..]);
      assert at + [parts[0]] + parts[1..] == at + parts;
    }
  }

  lemma {:induction false} CollapseFollows(parts: seq<string>, kept: Path)
    requires ".." !in kept
    ensures Collapse(true, parts, kept) == Follow(kept, parts)
    decreases |parts|
  {
    if parts != [] {
      assert kept != [] ==> kept[|kept| - 1] in kept;
      CollapseFollows(parts[1..], StepTo(kept, parts[0]));
    }
  }

  // Without ".." components the relative form collapses in the same way.
  lemma {:induction false} CollapseRelative(parts: seq<string>, kept: Path)
    requires ".." !in parts
    ensures Collapse(false, parts, kept) == Follow(kept, parts)
    decreases |parts|
  {
    if parts != [] {
      assert parts[0] in parts && ".." !in parts[1..];
      CollapseRelative(parts[1..], StepTo(kept, parts[0]));
    }
  }

  // ---------- components of joined strings ----------

  lemma {:induction false} SplitSlash(a: string, b: string)
    ensures Split(a + ("/" + b)) == Split(a) + Split(b)
  {
    var whole := a + ("/" + b);
    if a == "" {
      assert whole == "/" + b && whole[1..] == b;
    } else {
      assert whole[0] == a[0] && whole[1..] == a[1..] + ("/" + b);
      SplitSlash(a[1..], b);
      if a[0] != '/' {
        assert (Split(a[1..]) + Split(b))[1..] == Split(a[1..])[1..] + Split(b);
      }
    }
  }

  lemma {:induction false} JoinSplit(s: string)
    ensures Join(Split(s)) == s
  {
    if s != "" {
      var rest := Split(s[1..]);
      JoinSplit(s[1..]);
      if s[0] == '/' {
        assert ([""] + rest)[1..] == rest && Join([""] + rest) == "" + ("/" + Join(rest));
      } else {
        var parts := [[s[0]] + rest[0]] + rest[1..];
        assert parts[1..] == rest[1..];
        if |rest| > 1 { assert Join(parts) == ([s[0]] + rest[0]) + ("/" + Join(rest[1..])); }
      }
    }
  }

  /** The components of a string are the only slash-free ones that join to it. */
  lemma SplitExactly(s: string, parts: seq<string>)
    ensures Split(s) == parts <==> parts != [] && (forall c <- parts :: '/' !in c) && Join(parts) == s
  {
    JoinSplit(s);
    SplitComponents(s);
    if parts != [] && forall c <- parts :: '/' !in c { SplitJoin(parts); }
  }

  // ---------- names ----------

  lemma {:induction false} StripFollows(s: string)
    ensures ".." in Split(StripLeading(s)) <==> ".." in Split(s)
    ensures forall at :: Follow(at, Split(StripLeading(s))) == Follow(at, Split(s))
  {
    if s != "" && s[0] == '/' {
      StripFollows(s[1..]);
      assert Split(s) == [""] + Split(s[1..]) && Split(s)[1..] == Split(s[1..]);
    }
  }

  lemma DotSlashFollows(s: string)
    ensures ".." in Split(RemoveDotSlash(s)) <==> ".." in Split(s)
    ensures forall at :: Follow(at, Split(RemoveDotSlash(s))) == Follow(at, Split(s))
  {
    if "./" <= s {
      assert s == "." + ("/" + s[2..]);
      SplitPrepend(".", s[2..]);
      assert Split(s)[1..] == Split(s[2..]);
    }
  }

  /** A name is refused exactly if it has a NUL or a ".." component; otherwise it is the
      path its components lead to. */
  lemma NameLeads(name: string)
    ensures NormalPath(name)
         == if '\0' in name || ".." in Split(name) then None
            else Some(var at := Follow([], Split(name)); if at == [] then ["."] else at)
  {
    DotSlashFollows(name);
    StripFollows(RemoveDotSlash(name));
    if ".." !in Split(name) { CollapseRelative(Split(StripLeading(RemoveDotSlash(name))), []); }
  }

  // ---------- the posixpath operations the rewrite uses ----------

  /** `posixpath.join(a, b)`. */
  function JoinTwo(a: string, b: string): string {
    if b != "" && b[0] == '/' then b
    else if a == "" || a[|a| - 1] == '/' then a + b
    else a + "/" + b
  }

  /** `posixpath.join(a, *rest)`. */
  function JoinAll(a: string, rest: seq<string>): string
    decreases |rest|
  {
    if rest == [] then a else JoinAll(JoinTwo(a, rest[0]), rest[1..])
  }

  /** `posixpath.normpath`: two leading slashes are kept, three or more become one. */
  function Normpath(s: string): string {
    var slashes := if s == "" || s[0] != '/' then ""
                   else if "//" <= s && !("///" <= s) then "//" else "/";
    var text := slashes + Join(Collapse(slashes != "", Split(s), []));
    if text == "" then "." else text
  }

  /** `posixpath.dirname` of a stored path. */
  function Dirname(p: Path): string
    requires p != []
  {
    if |p| == 1 then "/" else Render(p[..|p| - 1])
  }

  /** The rewrite as the program computes it. */
  function Redirect(p: Path, k: nat, target: string): Option<Path>
    requires 0 < k <= |p|
  {
    var destination := if target != "" && target[0] == '/' then target else JoinTwo(Dirname(p[..k]), target);
    NormalPath(Normpath(JoinAll(destination, p[k..])))
  }

  // ---------- the rewrite follows components ----------

  lemma JoinTwoFollows(at: Path, a: string, b: string)
    requires b == "" || b[0] != '/'
    ensures Follow(at, Split(JoinTwo(a, b))) == Follow(Follow(at, Split(a)), Split(b))
    ensures a != "" ==> JoinTwo(a, b) != "" && JoinTwo(a, b)[0] == a[0]
  {
    if a != "" && a[|a| - 1] == '/' {
      var front := a[..|a| - 1];
      assert a == front + ("/" + "") && a + b == front + ("/" + b);
      SplitSlash(front, "");
      SplitSlash(front, b);
      FollowAppend(at, Split(front), [""]);
      FollowAppend(at, Split(front), Split(b));
      assert Follow(Follow(at, Split(front)), [""]) == Follow(at, Split(front));
    } else if a != "" {
      assert a + "/" + b == a + ("/" + b);
      SplitSlash(a, b);
      FollowAppend(at, Split(a), Split(b));
    } else {
      assert a + b == b && Follow(at, [""]) == at;
    }
  }

  lemma {:induction false} JoinAllFollows(a: string, rest: seq<string>)
    requires a != "" && forall c <- rest :: '/' !in c
    ensures Follow([], Split(JoinAll(a, rest))) == Follow(Follow([], Split(a)), rest)
    ensures JoinAll(a, rest) != "" && JoinAll(a, rest)[0] == a[0]
    decreases |rest|
  {
    if rest != [] {
      assert rest[0] in rest && forall c <- rest[1..] :: c in rest;
      JoinTwoFollows([], a, rest[0]);
      SplitSingle(rest[0]);
      JoinAllFollows(JoinTwo(a, rest[0]), rest[1..]);
      assert [rest[0]] + rest[1..] == rest;
      FollowAppend(Follow([], Split(a)), [rest[0]], rest[1..]);
    }
  }

  lemma DirnameFollows(p: Path)
    requires Normal(p)
    ensures Follow([], Split(Dirname(p))) == p[..|p| - 1]
    ensures Dirname(p) != "" && Dirname(p)[0] == '/'
  {
    if |p| == 1 {
      assert "/"[1..] == "" && Split("/") == ["", ""];
      assert ["", ""][1..] == [""] && Follow([], [""]) == [];
    } else {
      var parent := p[..|p| - 1];
      PlainAround(p, |p|);
      PlainIsSolid(parent);
      SplitRender(parent);
      assert Split(Render(parent)) == [""] + parent && ([""] + parent)[1..] == parent;
      FollowForward([], parent);
      assert [] + parent == parent;
    }
  }

  lemma {:induction false} NulInJoin(p: Path)
    ensures '\0' in Join(p) <==> exists c <- p :: '\0' in c
  {
    if |p| == 1 {
      assert p == [p[0]];
    } else if p != [] {
      NulInJoin(p[1..]);
      assert p == [p[0]] + p[1..];
    }
  }

  lemma StripSlashes(slashes: string, body: string)
    requires slashes == "/" || slashes == "//"
    requires body == "" || body[0] != '/'
    ensures StripLeading(RemoveDotSlash(slashes + body)) == body
  {
    var text := slashes + body;
    assert text[0] == '/' && RemoveDotSlash(text) == text;
    assert text[1..] == slashes[1..] + body;
    assert StripLeading(body) == body;
    if slashes == "//" {
      assert text[1..][0] == '/' && text[1..][1..] == body;
      assert StripLeading(text[1..]) == body;
    } else {
      assert text[1..] == body;
    }
  }

  lemma NormalPathOfJoin(slashes: string, at: Path)
    requires slashes == "/" || slashes == "//"
    requires forall c <- at :: Solid(c)
    ensures NormalPath(slashes + Join(at)) == Ends(at)
  {
    var body := Join(at);
    NulInJoin(at);
    assert '\0' in slashes + body <==> '\0' in body;
    if at != [] {
      assert at[0] in at;
      assert body != "" && body[0] == at[0][0];
      SplitJoin(at);
    }
    StripSlashes(slashes, body);
    if '\0' !in body {
      assert ".." !in Split(body);
      CollapseRelative(Split(body), []);
      FollowForward([], at);
      assert [] + at == at;
    }
  }

  lemma NormpathFollows(s: string)
    requires s != "" && s[0] == '/'
    ensures NormalPath(Normpath(s)) == Ends(Follow([], Split(s)))
  {
    CollapseFollows(Split(s), []);
    SplitComponents(s);
    FollowSolid([], Split(s));
    NormalPathOfJoin(if "//" <= s && !("///" <= s) then "//" else "/", Follow([], Split(s)));
  }

  /** The program's rewrite leads where the components lead. */
  lemma RedirectLeads(p: Path, k: nat, target: string)
    requires Normal(p) && 0 < k <= |p|
    ensures Redirect(p, k, target) == Leads(p, k, target)
  {
    var absolute := target != "" && target[0] == '/';
    var destination := if absolute then target else JoinTwo(Dirname(p[..k]), target);
    var start := if absolute then [] else p[..k - 1];
    SolidAround(p, k);
    if !absolute {
      assert p[..k][..k - 1] == p[..k - 1];
      DirnameFollows(p[..k]);
      JoinTwoFollows([], Dirname(p[..k]), target);
    }
    JoinAllFollows(destination, p[k..]);
    FollowAppend(start, Split(target), p[k..]);
    NormpathFollows(JoinAll(destination, p[k..]));
  }

  lemma PlainEnds(at: Path, t: Path)
    requires AllPlain(at) && AllPlain(t)
    ensures at + t != [] ==> Ends(Follow(at, t)) == Some(at + t)
  {
    PlainIsSolid(t);
    FollowForward(at, t);
    forall c | c in at + t ensures '\0' !in c {
      assert c in at || c in t;
    }
  }

  lemma PlainAppend(a: Path, b: Path)
    requires AllPlain(a) && AllPlain(b)
    ensures AllPlain(a + b)
  {
  }

  lemma EndsAround(at: Path, t: Path, tail: Path)
    requires AllPlain(at) && AllPlain(t) && AllPlain(tail) && t != []
    ensures Ends(Follow(at, t + tail)) == Some(at + t + tail)
  {
    PlainAppend(t, tail);
    PlainEnds(at, t + tail);
    assert at + (t + tail) == at + t + tail;
  }

  lemma RelativeTarget(p: Path, k: nat, t: Path)
    requires Normal(p) && 0 < k <= |p| && t != [] && AllPlain(t)
    ensures Redirect(p, k, Join(t)) == Some(p[..k - 1] + t + p[k..])
  {
    PlainText(t);
    RedirectLeads(p, k, Join(t));
    PlainAround(p, k);
    EndsAround(p[..k - 1], t, p[k..]);
  }

  lemma AbsoluteTarget(p: Path, k: nat, t: Path)
    requires Normal(p) && 0 < k <= |p| && t != [] && AllPlain(t)
    ensures Redirect(p, k, Render(t)) == Some(t + p[k..])
  {
    PlainText(t);
    RedirectLeads(p, k, Render(t));
    PlainAround(p, k);
    var tail := p[k..];
    FollowAppend([], [""] + t, tail);
    FollowAppend([], [""], t);
    FollowAppend([], t, tail);
    assert Follow([], [""]) == [];
    EndsAround([], t, tail);
    assert [] + t == t;
  }

  /** A target of plain components is put in place of the link: after its directory if it
      is relative, and from the root if it is absolute. */
  lemma PlainTargets(p: Path, k: nat, t: Path)
    requires Normal(p) && 0 < k <= |p| && t != [] && AllPlain(t)
    ensures Redirect(p, k, Join(t)) == Some(p[..k - 1] + t + p[k..])
    ensures Redirect(p, k, Render(t)) == Some(t + p[k..])
  {
    RelativeTarget(p, k, t);
    AbsoluteTarget(p, k, t);
  }

  lemma PlainText(t: Path)
    requires t != [] && AllPlain(t)
    ensures Join(t) != "" && Join(t)[0] != '/' && Split(Join(t)) == t
    ensures Render(t) != "" && Render(t)[0] == '/' && Split(Render(t)) == [""] + t
  {
    PlainIsSolid(t);
    assert t[0] in t;
    SplitJoin(t);
    SplitRender(t);
  }
}
