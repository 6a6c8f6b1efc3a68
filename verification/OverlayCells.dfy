/**
  What an accepted layer stores for a member, and which members it accepts, on the bytes,
  modes and names of the members themselves.
  */
module OverlayCells {
  import opened Options
  import opened Paths
  import opened Overlay
  import opened OverlaySafety
  import opened OverlaySpec

  // ---------- which bytes are kept ----------

  /** The path string is asked for, or is one of the package database. */
  predicate AskedFor(name: string, retainPaths: set<string>) {
    || name in retainPaths
    || name == "/var/lib/dpkg/status"
    || ("/var/lib/dpkg/info/" <= name && EndsWith(name, ".list"))
  }

  lemma JoinFour(a: string, b: string, c: string, d: string)
    ensures Join([a, b, c, d]) == a + ("/" + (b + ("/" + (c + ("/" + d)))))
  {
    assert [a, b, c, d][1..] == [b, c, d] && [b, c, d][1..] == [c, d] && [c, d][1..] == [d];
    assert Join([c, d]) == c + ("/" + d);
    assert Join([b, c, d]) == b + ("/" + Join([c, d]));
  }

  lemma PackagePaths()
    ensures Render(STATUS) == "/var/lib/dpkg/status" && Render(INFO) + "/" == "/var/lib/dpkg/info/"
  {
    JoinFour("var", "lib", "dpkg", "status");
    JoinFour("var", "lib", "dpkg", "info");
  }

  lemma EndOfSum(a: string, b: string, suffix: string)
    requires |suffix| <= |b|
    ensures EndsWith(a + b, suffix) <==> EndsWith(b, suffix)
  {
    assert (a + b)[|a + b| - |suffix|..] == b[|b| - |suffix|..];
  }

  // A suffix without a slash lies within the last component.
  lemma EndOfPath(front: string, last: string, suffix: string)
    requires '/' !in suffix && suffix != ""
    ensures EndsWith(front + "/" + last, suffix) <==> EndsWith(last, suffix)
  {
    var whole := front + "/" + last;
    assert whole == front + ("/" + last);
    if |suffix| <= |last| {
      EndOfSum(front + "/", last, suffix);
    } else if |suffix| <= |whole| {
      var at := |front| - (|whole| - |suffix|);
      assert whole[|whole| - |suffix|..][at] == '/';
    }
  }

  lemma RenderLast(path: Path)
    requires |path| > 1
    ensures Render(path) == Render(path[..|path| - 1]) + "/" + path[|path| - 1]
  {
    var front, last := path[..|path| - 1], [path[|path| - 1]];
    assert path == front + last;
    RenderAppend(front, last);
    assert Render(last) == "/" + last[0];
    Associate(Render(front), "/", last[0]);
  }

  lemma SamePath(path: Path, other: Path)
    requires Normal(path) && Normal(other)
    ensures path == other <==> Render(path) == Render(other)
  {
    assert (forall c <- path :: '/' !in c) && forall c <- other :: '/' !in c;
    if Render(path) == Render(other) { RenderInjective(path, other); }
  }

  lemma BelowDirectory(path: Path, directory: Path, suffix: string)
    requires Normal(path) && Normal(directory) && '/' !in suffix && suffix != ""
    ensures Render(directory) + "/" <= Render(path) && EndsWith(Render(path), suffix)
       <==> directory < path && EndsWith(path[|path| - 1], suffix)
  {
    assert (forall c <- path :: '/' !in c) && forall c <- directory :: '/' !in c;
    BelowIsProperPrefix(directory, path);
    if directory < path {
      RenderLast(path);
      EndOfPath(Render(path[..|path| - 1]), path[|path| - 1], suffix);
    }
  }

  lemma KeepsWhatIsAsked(path: Path, retainPaths: set<string>)
    requires Normal(path)
    ensures Keeps(path, retainPaths) <==> AskedFor(Render(path), retainPaths)
  {
    PackagePaths();
    SamePath(path, STATUS);
    BelowDirectory(path, INFO, ".list");
  }

  // ---------- what a member stores ----------

  /** Exactly this entry, these bytes and this layer are recorded. */
  predicate Stores(img: Image, p: Path, entry: Entry, bytes: Option<Bytes>, id: LayerId) {
    && p in img.files && img.files[p] == entry
    && (if bytes.Some? then p in img.retained && img.retained[p] == bytes.value else p !in img.retained)
    && p in img.layers && img.layers[p] == id
  }

  /** The link name normalises to a stored regular file that is not below the member
      itself, under directories only. */
  predicate LinksTo(found: Image, item: Item, linkname: string, target: Path) {
    && NormalPath(linkname) == Some(target)
    && target in found.files && found.files[target].File? && !(item.path < target)
    && forall k | 0 < k < |target| && target[..k] in found.files && !(item.path < target[..k]) ::
         found.files[target[..k]].Directory?
  }

  function BytesAt(img: Image, p: Path): Option<Bytes> {
    if p in img.retained then Some(img.retained[p]) else None
  }

  /** What the image `after` must record for a member that found the image `found`. */
  predicate Recorded(found: Image, after: Image, item: Item, id: LayerId, retainPaths: set<string>) {
    match item.kind
    case Regular(content) =>
      Stores(after, item.path, File(Digest(content), item.mode, |content|),
             if AskedFor(Render(item.path), retainPaths) then Some(content) else None, id)
    case Dir => Stores(after, item.path, Directory(item.mode), None, id)
    case Sym(target) => Stores(after, item.path, Symlink(target, item.mode), None, id)
    case Hard(linkname) =>
      NormalPath(linkname).Some? &&
      var target := NormalPath(linkname).value;
      && LinksTo(found, item, linkname, target)
      && Stores(after, item.path, found.files[target],
                if target == item.path then None else BytesAt(found, target), id)
    case Special => false
  }

  /** What a member needs of the image it finds. */
  predicate Acceptable(found: Image, item: Item) {
    && (forall k | 0 < k < |item.path| && item.path[..k] in found.files :: found.files[item.path[..k]].Directory?)
    && !item.kind.Special?
    && (item.kind.Hard? ==>
          && NormalPath(item.kind.linkname).Some?
          && LinksTo(found, item, item.kind.linkname, NormalPath(item.kind.linkname).value))
  }

  lemma LinksExactly(found: Image, item: Item)
    requires item.kind.Hard?
    ensures HardlinkTarget(Cleared(found, item).files, item.kind.linkname).Some?
       <==> NormalPath(item.kind.linkname).Some?
            && LinksTo(found, item, item.kind.linkname, NormalPath(item.kind.linkname).value)
  {
  }

  lemma AddExactly(found: Image, item: Item, id: LayerId, retainPaths: set<string>)
    requires Normal(item.path)
    ensures Add(found, item, id, retainPaths).Some? <==> Acceptable(found, item)
    ensures Acceptable(found, item) ==> Recorded(found, Add(found, item, id, retainPaths).value, item, id, retainPaths)
  {
    KeepsWhatIsAsked(item.path, retainPaths);
    if item.kind.Hard? { LinksExactly(found, item); }
  }

  // The image after the first members of a layer, on top of its whiteouts.
  predicate Finds(lower: Image, items: seq<Item>, i: nat, id: LayerId, retainPaths: set<string>, found: Image)
    requires i <= |items|
  {
    Additions(lower, items[..i], id, retainPaths) == Some(found)
  }

  lemma SameCellRecorded(found: Image, a: Image, b: Image, item: Item, id: LayerId, retainPaths: set<string>)
    requires CellAt(a, item.path) == CellAt(b, item.path) && CellAt(a, item.path).Some?
    ensures Recorded(found, a, item, id, retainPaths) ==> Recorded(found, b, item, id, retainPaths)
  {
  }

  lemma PutIsAdded(found: Image, item: Item, id: LayerId, retainPaths: set<string>)
    requires Add(found, item, id, retainPaths).Some?
    ensures var put := Written(Cleared(found, item), item, retainPaths);
      put.Some? && CellAt(Add(found, item, id, retainPaths).value, item.path)
                   == Some(Cell(put.value.entry, put.value.bytes, id))
  {
  }

  lemma {:induction false} AcceptedBefore(lower: Image, items: seq<Item>, id: LayerId, retainPaths: set<string>, i: nat)
    requires Additions(lower, items, id, retainPaths).Some? && i <= |items|
    ensures Additions(lower, items[..i], id, retainPaths).Some?
  {
    if i == |items| {
      assert items[..i] == items;
    } else {
      var front := items[..|items| - 1];
      assert front[..i] == items[..i];
      AcceptedBefore(lower, front, id, retainPaths, i);
    }
  }

  lemma AddsNext(lower: Image, items: seq<Item>, id: LayerId, retainPaths: set<string>, i: nat, found: Image)
    requires i < |items| && !IsWhiteout(items[i].path) && Finds(lower, items, i, id, retainPaths, found)
    ensures Additions(lower, items[..i + 1], id, retainPaths) == Add(found, items[i], id, retainPaths)
  {
    assert items[..i + 1][..i] == items[..i];
  }

  /** What the layer stores for its i-th member, unless a later member replaced an
      ancestor of its path. */
  lemma AdditionRecorded(lower: Image, items: seq<Item>, id: LayerId, retainPaths: set<string>, i: nat, found: Image)
    requires Additions(lower, items, id, retainPaths).Some? && DistinctPaths(items) && ItemsNormal(items)
    requires i < |items| && !IsWhiteout(items[i].path) && !HiddenFrom(items, i + 1, items[i].path)
    requires Finds(lower, items, i, id, retainPaths, found)
    ensures Recorded(found, Additions(lower, items, id, retainPaths).value, items[i], id, retainPaths)
  {
    AdditionsNamed(lower, items, id, retainPaths, i);
    AcceptedBefore(lower, items, id, retainPaths, i + 1);
    AddsNext(lower, items, id, retainPaths, i, found);
    AddExactly(found, items[i], id, retainPaths);
    PutIsAdded(found, items[i], id, retainPaths);
    SameCellRecorded(found, Add(found, items[i], id, retainPaths).value,
                     Additions(lower, items, id, retainPaths).value, items[i], id, retainPaths);
  }

  ghost predicate AcceptableAfter(lower: Image, before: seq<Item>, item: Item, id: LayerId, retainPaths: set<string>) {
    forall found | Additions(lower, before, id, retainPaths) == Some(found) ::
      IsWhiteout(item.path) || Acceptable(found, item)
  }

  /** The i-th member is a whiteout, or acceptable to the image it finds. */
  ghost predicate AcceptableInTurn(lower: Image, items: seq<Item>, id: LayerId, retainPaths: set<string>, i: nat)
    requires i < |items|
  {
    AcceptableAfter(lower, items[..i], items[i], id, retainPaths)
  }

  lemma InTurnFront(lower: Image, front: seq<Item>, item: Item, id: LayerId, retainPaths: set<string>, i: nat)
    requires i < |front|
    ensures AcceptableInTurn(lower, front + [item], id, retainPaths, i)
       <==> AcceptableInTurn(lower, front, id, retainPaths, i)
  {
    assert (front + [item])[..i] == front[..i] && (front + [item])[i] == front[i];
  }

  lemma LastInTurn(lower: Image, front: seq<Item>, item: Item, id: LayerId, retainPaths: set<string>)
    requires Normal(item.path) && Additions(lower, front, id, retainPaths).Some?
    ensures Additions(lower, front + [item], id, retainPaths).Some?
       <==> AcceptableInTurn(lower, front + [item], id, retainPaths, |front|)
  {
    assert (front + [item])[..|front|] == front;
    var before := Additions(lower, front, id, retainPaths).value;
    AddExactly(before, item, id, retainPaths);
  }

  lemma {:induction false} AdditionsAcceptedExactly(
    lower: Image, items: seq<Item>, id: LayerId, retainPaths: set<string>)
    requires ItemsNormal(items)
    ensures Additions(lower, items, id, retainPaths).Some?
       <==> forall i :: 0 <= i < |items| ==> AcceptableInTurn(lower, items, id, retainPaths, i)
  {
    if items != [] {
      var front, item := items[..|items| - 1], items[|items| - 1];
      assert items == front + [item];
      AdditionsAcceptedExactly(lower, front, id, retainPaths);
      forall i | 0 <= i < |front|
        ensures AcceptableInTurn(lower, items, id, retainPaths, i) <==> AcceptableInTurn(lower, front, id, retainPaths, i)
      {
        InTurnFront(lower, front, item, id, retainPaths, i);
      }
      if Additions(lower, front, id, retainPaths).Some? {
        LastInTurn(lower, front, item, id, retainPaths);
      }
    }
  }

  // ---------- one layer ----------

  /**
    What one accepted layer records for its i-th member, when no later member replaces an
    ancestor: of a regular file its digest, mode and size, and its bytes exactly if they
    are asked for; of a directory or symlink its own entry and no bytes; of a hardlink the
    entry and bytes that its target had at that moment.
    */
  lemma LayerRecords(img: Image, members: seq<Member>, id: LayerId, retainPaths: set<string>, i: nat)
    returns (found: Image)
    requires Layer(img, members, id, retainPaths).Some?
    requires i < |members| && !IsWhiteout(Named(members).value[i].path)
    requires !HiddenFrom(Named(members).value, i + 1, Named(members).value[i].path)
    ensures Finds(Whiteouts(img, Named(members).value).value, Named(members).value, i, id, retainPaths, found)
    ensures Recorded(found, Layer(img, members, id, retainPaths).value, Named(members).value[i], id, retainPaths)
  {
    var items := Named(members).value;
    var lower := Whiteouts(img, items).value;
    NamedNormal(members);
    AcceptedBefore(lower, items, id, retainPaths, i);
    found := Additions(lower, items[..i], id, retainPaths).value;
    AdditionRecorded(lower, items, id, retainPaths, i, found);
  }

  /** A layer is accepted exactly when all names are proper and distinct, its whiteouts are
      well formed and unblocked in turn, and its other members acceptable in turn. */
  lemma LayerAcceptedExactly(img: Image, members: seq<Member>, id: LayerId, retainPaths: set<string>)
    requires Agrees(img)
    ensures Layer(img, members, id, retainPaths).Some? <==>
      && (forall m <- members :: NormalPath(m.name).Some?)
      && Named(members).Some?
      && var items := Named(members).value;
      && (forall i, j :: 0 <= i < j < |items| ==> items[i].path != items[j].path)
      && (forall i :: 0 <= i < |items| ==> FitsInTurn(img, items, i))
      && Whiteouts(img, items).Some?
      && forall i :: 0 <= i < |items| ==> AcceptableInTurn(Whiteouts(img, items).value, items, id, retainPaths, i)
  {
    if Named(members).Some? {
      var items := Named(members).value;
      NamedNormal(members);
      WhiteoutsAcceptedExactly(img, items);
      if Whiteouts(img, items).Some? {
        AdditionsAcceptedExactly(Whiteouts(img, items).value, items, id, retainPaths);
      }
    }
  }
}
