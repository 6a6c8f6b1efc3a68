/**
  Image paths. The source keeps every path as one string with a leading slash and
  asks "is `key` below `name`" by string prefix. This module gives those string
  operations as they are written, and proves that on normal paths they are the
  prefix relation on component sequences that the overlay modules use.
  */
module Paths {
  import opened Options

  type Path = seq<string>

  // ---------- the string operations of the source ----------

  /** `s.split("/")`: never empty. */
  function Split(s: string): (parts: seq<string>)
    ensures |parts| > 0
  {
    if s == "" then [""]
    else if s[0] == '/' then [""] + Split(s[1..])
    else var rest := Split(s[1..]); [[s[0]] + rest[0]] + rest[1..]
  }

  /** `s.lstrip("/")`. */
  function StripLeading(s: string): string {
    if s != "" && s[0] == '/' then StripLeading(s[1..]) else s
  }

  /** `s.removeprefix("./")`. */
  function RemoveDotSlash(s: string): string {
    if "./" <= s then s[2..] else s
  }

  /** The component loop of `posixpath.normpath`, with `kept` the components so far. */
  function Collapse(absolute: bool, parts: seq<string>, kept: Path): Path {
    if parts == [] then kept
    else if parts[0] == "" || parts[0] == "." then Collapse(absolute, parts[1..], kept)
    else if parts[0] != ".."
         || (!absolute && kept == [])
         || (kept != [] && kept[|kept| - 1] == "..")
    then Collapse(absolute, parts[1..], kept + [parts[0]])
    else if kept != [] then Collapse(absolute, parts[1..], kept[..|kept| - 1])
    else Collapse(absolute, parts[1..], kept)
  }

  /** `"/".join(components)`. */
  function Join(p: Path): string {
    if p == [] then ""
    else if |p| == 1 then p[0]
    else p[0] + ("/" + Join(p[1..]))
  }

  /** `"/" + "/".join(components)`, and the empty string for no components at all. */
  function Render(p: Path): string {
    if p == [] then "" else "/" + Join(p)
  }

  /** `normal_path`: None is the source's Invalid. */
  function NormalPath(name: string): Option<Path> {
    if '\0' in name then None
    else
      var relative := StripLeading(RemoveDotSlash(name));
      if ".." in Split(relative) then None
      else
        var parts := Collapse(false, Split(relative), []);
        Some(if parts == [] then ["."] else parts)
  }

  // ---------- normal paths ----------

  predicate PlainComponent(c: string) {
    c != "" && c != "." && c != ".." && '/' !in c && '\0' !in c
  }

  /** What `normal_path` can return: plain components, or the single "." that
      stands for the root directory itself. */
  predicate Normal(p: Path) {
    p == ["."] || (p != [] && forall c <- p :: PlainComponent(c))
  }

  lemma {:induction false} SplitComponents(s: string)
    ensures forall c <- Split(s) :: '/' !in c && forall x <- c :: x in s
  {
    if s != "" {
      SplitComponents(s[1..]);
      var rest := Split(s[1..]);
      assert forall c <- rest[1..] :: c in rest;
      assert rest[0] in rest;
      assert forall x | x in s[1..] :: x in s;
    }
  }

  lemma {:induction false} StripKeepsChars(s: string)
    ensures forall x <- StripLeading(s) :: x in s
  {
    if s != "" && s[0] == '/' { StripKeepsChars(s[1..]); }
  }

  lemma {:induction false} CollapsePlain(absolute: bool, parts: seq<string>, kept: Path)
    requires absolute || ".." !in parts
    requires forall c <- parts :: '/' !in c && '\0' !in c
    requires forall c <- kept :: PlainComponent(c)
    ensures forall c <- Collapse(absolute, parts, kept) :: PlainComponent(c)
  {
    if parts != [] {
      var rest := parts[1..];
      assert forall c <- rest :: c in parts;
      if parts[0] == "" || parts[0] == "." {
        CollapsePlain(absolute, rest, kept);
      } else if parts[0] != ".." {
        CollapsePlain(absolute, rest, kept + [parts[0]]);
      } else if kept != [] {
        assert kept[|kept| - 1] in kept;
        CollapsePlain(absolute, rest, kept[..|kept| - 1]);
      } else {
        CollapsePlain(absolute, rest, kept);
      }
    }
  }

  /** Every accepted name becomes a normal path. */
  lemma NormalPathIsNormal(name: string)
    ensures NormalPath(name).Some? ==> Normal(NormalPath(name).value)
  {
    if NormalPath(name).Some? {
      var relative := StripLeading(RemoveDotSlash(name));
      StripKeepsChars(RemoveDotSlash(name));
      SplitComponents(relative);
      CollapsePlain(false, Split(relative), []);
    }
  }

  lemma {:induction false} SplitPrepend(c: string, rest: string)
    requires '/' !in c
    ensures Split(c + ("/" + rest)) == [c] + Split(rest)
  {
    var whole := c + ("/" + rest);
    if c == "" {
      assert whole == "/" + rest && whole[1..] == rest;
    } else {
      assert whole[1..] == c[1..] + ("/" + rest) && whole[0] == c[0];
      SplitPrepend(c[1..], rest);
      assert [c[0]] + c[1..] == c;
    }
  }

  lemma {:induction false} SplitSingle(c: string)
    requires '/' !in c
    ensures Split(c) == [c]
  {
    if c != "" {
      SplitSingle(c[1..]);
      assert [c[0]] + c[1..] == c;
    }
  }

  lemma {:induction false} SplitJoin(p: Path)
    requires p != [] && forall c <- p :: '/' !in c
    ensures Split(Join(p)) == p
  {
    assert p[0] in p;
    if |p| == 1 {
      SplitSingle(p[0]);
    } else {
      assert forall c <- p[1..] :: c in p;
      SplitJoin(p[1..]);
      SplitPrepend(p[0], Join(p[1..]));
    }
  }

  lemma {:induction false} SplitBeyond(p: Path, tail: string)
    requires p != [] && forall c <- p :: '/' !in c
    ensures Split(Join(p) + ("/" + tail)) == p + Split(tail)
  {
    assert p[0] in p;
    if |p| == 1 {
      SplitPrepend(p[0], tail);
    } else {
      var rest := p[1..];
      assert forall c <- rest :: c in p;
      SplitBeyond(rest, tail);
      SplitPrepend(p[0], Join(rest) + ("/" + tail));
      AppendAssociates(p[0], Join(rest), tail);
      assert p == [p[0]] + rest;
    }
  }

  lemma Associate(a: string, b: string, c: string)
    ensures (a + b) + c == a + (b + c)
  {
  }

  lemma AppendAssociates(c: string, middle: string, tail: string)
    ensures (c + ("/" + middle)) + ("/" + tail) == c + ("/" + (middle + ("/" + tail)))
  {
  }

  /** `path.strip("/").split("/")` gives back the components. */
  lemma SplitRender(p: Path)
    requires p != [] && forall c <- p :: '/' !in c
    ensures |Render(p)| > 0 && Render(p)[0] == '/' && Split(Render(p)[1..]) == p
  {
    SplitJoin(p);
    assert Render(p)[1..] == Join(p);
  }

  lemma {:induction false} CollapseIdentity(p: Path, kept: Path)
    requires forall c <- p :: PlainComponent(c)
    ensures Collapse(false, p, kept) == kept + p
  {
    if p != [] {
      assert p[0] in p && forall c <- p[1..] :: c in p;
      CollapseIdentity(p[1..], kept + [p[0]]);
      assert kept + [p[0]] + p[1..] == kept + p;
    } else {
      assert kept + p == kept;
    }
  }

  lemma {:induction false} JoinChars(p: Path)
    requires forall c <- p :: '\0' !in c
    ensures '\0' !in Join(p)
  {
    if |p| > 0 {
      assert p[0] in p && forall c <- p[1..] :: c in p;
      JoinChars(p[1..]);
    }
  }

  lemma StripOneSlash(body: string)
    requires body != "" && body[0] != '/'
    ensures StripLeading(RemoveDotSlash("/" + body)) == body
  {
    var text := "/" + body;
    assert text[0] == '/' && text[1..] == body;
    assert RemoveDotSlash(text) == text;
    assert StripLeading(text) == StripLeading(body) == body;
  }

  /** Normalising a stored path changes nothing. */
  lemma NormalPathRender(p: Path)
    requires Normal(p)
    ensures NormalPath(Render(p)) == Some(p)
  {
    assert p[0] in p;
    assert forall c <- p :: '/' !in c && '\0' !in c && c != "" && c != "..";
    JoinChars(p);
    assert Join(p) != "" && Join(p)[0] == p[0][0] != '/';
    StripOneSlash(Join(p));
    SplitJoin(p);
    if p == ["."] {
      assert Collapse(false, ["."], []) == Collapse(false, [], []) == [];
    } else {
      CollapseIdentity(p, []);
      assert [] + p == p;
    }
  }

  // ---------- "below" on strings and on components ----------

  lemma {:induction false} JoinAppend(p: Path, q: Path)
    requires p != [] && q != []
    ensures Join(p + q) == Join(p) + ("/" + Join(q))
  {
    if |p| == 1 {
      assert (p + q)[1..] == q;
    } else {
      assert (p + q)[1..] == p[1..] + q;
      JoinAppend(p[1..], q);
      AppendAssociates(p[0], Join(p[1..]), Join(q));
    }
  }

  lemma RenderAppend(p: Path, q: Path)
    ensures Render(p + q) == Render(p) + Render(q)
  {
    if p == [] {
      assert p + q == q;
    } else if q == [] {
      assert p + q == p;
    } else {
      assert p + q != [];
      JoinAppend(p, q);
      Associate("/", Join(p), Render(q));
    }
  }

  lemma AfterSlash(s: string, t: string)
    requires "/" + s == "/" + t
    ensures s == t
  {
    assert ("/" + s)[1..] == s && ("/" + t)[1..] == t;
  }

  lemma BelowMeansPrefix(name: Path, key: Path, tail: string)
    requires forall c <- name :: '/' !in c
    requires forall c <- key :: '/' !in c
    requires Render(key) == Render(name) + ("/" + tail)
    ensures name < key
  {
    assert key != [];
    if name != [] {
      AfterSlash(Join(key), Join(name) + ("/" + tail));
      SplitBeyond(name, tail);
      SplitJoin(key);
      assert key == name + Split(tail);
    }
  }

  lemma PrefixMeansBelow(name: Path, key: Path)
    requires name < key
    ensures Render(name) + "/" <= Render(key)
  {
    var rest := key[|name|..];
    assert key == name + rest && rest != [];
    RenderAppend(name, rest);
    var text := Render(name);
    assert Render(rest) == "/" + Join(rest);
    Associate(text, "/", Join(rest));
  }

  /** The source's `key.startswith(name.rstrip("/") + "/")` is the proper prefix
      relation on components; `name` may also be the root directory, rendered "". */
  lemma BelowIsProperPrefix(name: Path, key: Path)
    requires forall c <- name :: '/' !in c
    requires forall c <- key :: '/' !in c
    ensures Render(name) + "/" <= Render(key) <==> name < key
  {
    if name < key {
      PrefixMeansBelow(name, key);
    }
    var text := Render(name) + "/";
    if text <= Render(key) {
      var tail := Render(key)[|text|..];
      assert Render(key) == text + tail;
      Associate(Render(name), "/", tail);
      BelowMeansPrefix(name, key, tail);
    }
  }

  /** A path string names one component sequence only. */
  lemma RenderInjective(p: Path, q: Path)
    requires p != [] && q != []
    requires forall c <- p :: '/' !in c
    requires forall c <- q :: '/' !in c
    requires Render(p) == Render(q)
    ensures p == q
  {
    SplitRender(p);
    SplitRender(q);
  }
}
