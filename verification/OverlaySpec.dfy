/**
  What one layer, and a whole image, mean for a single path. The statements here do
  not replay anything: they say which member decides a path, and what hides it
  (OCI Image Format Specification, "Image Layer Filesystem Changeset").
  */
module OverlaySpec {
  import opened Options
  import opened Paths
  import opened Overlay
  import opened OverlaySafety

  /** Everything the three maps record about one path. */
  datatype Cell = Cell(entry: Entry, bytes: Option<Bytes>, layer: LayerId)

  function CellAt(img: Image, p: Path): Option<Cell> {
    if p in img.files && p in img.layers
    then Some(Cell(img.files[p], if p in img.retained then Some(img.retained[p]) else None, img.layers[p]))
    else None
  }

  lemma SameCells(a: Image, b: Image)
    requires Agrees(a) && Agrees(b)
    requires forall p :: CellAt(a, p) == CellAt(b, p)
    ensures a == b
  {
    forall p ensures p in a.files <==> p in b.files {
      assert CellAt(a, p) == CellAt(b, p);
    }
    forall p | p in a.files
      ensures a.files[p] == b.files[p] && a.layers[p] == b.layers[p]
      ensures p in a.retained <==> p in b.retained
      ensures p in a.retained ==> a.retained[p] == b.retained[p]
    {
      assert CellAt(a, p) == CellAt(b, p);
    }
    assert a.retained == b.retained;
  }

  // ---------- whiteouts ----------

  /** A whiteout hides its target and everything below it; an opaque one hides only
      what is below its directory. */
  predicate HidesPath(item: Item, p: Path) {
    item.path != [] &&
    var parent, leaf := item.path[..|item.path| - 1], item.path[|item.path| - 1];
    ".wh." <= leaf && if leaf == ".wh..wh..opq" then parent < p else parent + [leaf[4..]] <= p
  }

  lemma HidesExactly(item: Item, p: Path)
    ensures HidesPath(item, p) <==> IsWhiteout(item.path) && Covers(WhiteoutTarget(item.path), !IsOpaque(item.path), p)
  {
  }

  ghost predicate WhitedOut(items: seq<Item>, p: Path) {
    exists i :: 0 <= i < |items| && HidesPath(items[i], p)
  }

  lemma {:induction false} WhiteoutsPointwise(img: Image, items: seq<Item>, p: Path)
    requires Agrees(img) && Whiteouts(img, items).Some?
    ensures Agrees(Whiteouts(img, items).value)
    ensures CellAt(Whiteouts(img, items).value, p) == if WhitedOut(items, p) then None else CellAt(img, p)
  {
    if items != [] {
      var front, item := items[..|items| - 1], items[|items| - 1];
      assert items == front + [item];
      WhiteoutsPointwise(img, front, p);
      HidesExactly(item, p);
    }
  }

  ghost predicate SameWhiteouts(a: seq<Item>, b: seq<Item>) {
    && (forall x <- a :: IsWhiteout(x.path) ==> x in b)
    && (forall x <- b :: IsWhiteout(x.path) ==> x in a)
  }

  /** Any two orders of the same whiteouts that are both accepted give one image. */
  lemma WhiteoutOrderIrrelevant(img: Image, a: seq<Item>, b: seq<Item>)
    requires Agrees(img) && SameWhiteouts(a, b)
    requires Whiteouts(img, a).Some? && Whiteouts(img, b).Some?
    ensures Whiteouts(img, a) == Whiteouts(img, b)
  {
    var x, y := Whiteouts(img, a).value, Whiteouts(img, b).value;
    WhiteoutsPointwise(img, a, []);
    WhiteoutsPointwise(img, b, []);
    forall p ensures CellAt(x, p) == CellAt(y, p) {
      WhiteoutsPointwise(img, a, p);
      WhiteoutsPointwise(img, b, p);
    }
    SameCells(x, y);
  }

  // ---------- which whiteouts are accepted ----------

  /** What a whiteout needs whatever is stored: a target name, and to be an empty file. */
  predicate ProperWhiteout(item: Item) {
    IsWhiteout(item.path) ==>
      && (IsOpaque(item.path) || item.path[|item.path| - 1][4..] !in {"", ".", ".."})
      && item.kind == Regular([])
  }

  /** The ancestor with k components is stored and is no directory. */
  predicate BlockedAt(img: Image, item: Item, k: nat) {
    IsWhiteout(item.path) && 0 < k < |item.path|
    && item.path[..k] in img.files && !img.files[item.path[..k]].Directory?
  }

  predicate Blocked(img: Image, item: Item) {
    exists k: nat :: k < |item.path| && BlockedAt(img, item, k)
  }

  /** A whiteout is well formed, and what blocks it in the lower image was whited out
      before its turn. */
  ghost predicate FitsInTurn(img: Image, items: seq<Item>, i: nat)
    requires i < |items|
  {
    ProperWhiteout(items[i]) && forall k: nat | BlockedAt(img, items[i], k) :: WhitedOut(items[..i], items[i].path[..k])
  }

  lemma LegalExactly(img: Image, front: seq<Item>, item: Item)
    requires Agrees(img) && Whiteouts(img, front).Some? && IsWhiteout(item.path)
    ensures WhiteoutLegal(Whiteouts(img, front).value.files, item) <==> FitsInTurn(img, front + [item], |front|)
  {
    var now := Whiteouts(img, front).value;
    assert (front + [item])[..|front|] == front;
    forall k | 0 < k < |item.path|
      ensures item.path[..k] in now.files && !now.files[item.path[..k]].Directory?
         <==> BlockedAt(img, item, k) && !WhitedOut(front, item.path[..k])
    {
      WhiteoutsPointwise(img, front, item.path[..k]);
    }
  }

  /** The whiteouts of a layer are accepted exactly when each is well formed and every
      stored ancestor of it that is no directory was whited out before it. */
  lemma {:induction false} WhiteoutsAcceptedExactly(img: Image, items: seq<Item>)
    requires Agrees(img)
    ensures Whiteouts(img, items).Some? <==> forall i :: 0 <= i < |items| ==> FitsInTurn(img, items, i)
  {
    if items != [] {
      var front, item := items[..|items| - 1], items[|items| - 1];
      assert items == front + [item];
      WhiteoutsAcceptedExactly(img, front);
      forall i | 0 <= i < |front| ensures FitsInTurn(img, items, i) <==> FitsInTurn(img, front, i) {
        assert items[..i] == front[..i];
      }
      if Whiteouts(img, front).Some? && IsWhiteout(item.path) {
        LegalExactly(img, front, item);
      }
    }
  }

  lemma UnblockedAccepted(img: Image, items: seq<Item>)
    requires Agrees(img) && forall x <- items :: ProperWhiteout(x) && !Blocked(img, x)
    ensures Whiteouts(img, items).Some?
  {
    forall i | 0 <= i < |items| ensures FitsInTurn(img, items, i) {
      assert items[i] in items;
      forall k: nat ensures BlockedAt(img, items[i], k) ==> Blocked(img, items[i]) {
      }
    }
    WhiteoutsAcceptedExactly(img, items);
  }

  lemma FirstIsUnblocked(img: Image, x: Item, rest: seq<Item>)
    requires Agrees(img) && Whiteouts(img, [x] + rest).Some?
    ensures ProperWhiteout(x) && !Blocked(img, x)
  {
    WhiteoutsAcceptedExactly(img, [x] + rest);
    assert FitsInTurn(img, [x] + rest, 0) && ([x] + rest)[..0] == [];
  }

  ghost predicate EveryOrderAccepted(img: Image, items: seq<Item>) {
    forall other: seq<Item> | multiset(other) == multiset(items) :: Whiteouts(img, other).Some?
  }

  /** Every order of the same members is accepted exactly when all whiteouts are well
      formed and none has a stored ancestor that is no directory. */
  lemma EveryOrderAcceptedExactly(img: Image, items: seq<Item>)
    requires Agrees(img)
    ensures EveryOrderAccepted(img, items) <==> forall x <- items :: ProperWhiteout(x) && !Blocked(img, x)
  {
    if forall x <- items :: ProperWhiteout(x) && !Blocked(img, x) {
      forall other: seq<Item> | multiset(other) == multiset(items) ensures Whiteouts(img, other).Some? {
        assert forall x <- other :: x in multiset(items);
        UnblockedAccepted(img, other);
      }
    }
    if EveryOrderAccepted(img, items) {
      forall x | x in items ensures ProperWhiteout(x) && !Blocked(img, x) {
        var i :| 0 <= i < |items| && items[i] == x;
        assert items == items[..i] + [x] + items[i + 1..];
        assert multiset([x] + (items[..i] + items[i + 1..])) == multiset(items);
        FirstIsUnblocked(img, x, items[..i] + items[i + 1..]);
      }
    }
  }

  lemma WhiteoutsOfTwo(img: Image, x: Item, y: Item)
    requires IsWhiteout(y.path)
    ensures Whiteouts(img, [x, y])
         == (var before := Whiteouts(img, [x]);
             if before.Some? && WhiteoutLegal(before.value.files, y)
             then Some(Prune(before.value, WhiteoutTarget(y.path), !IsOpaque(y.path))) else None)
  {
  }

  /** So acceptance can depend on the order: a whiteout below a regular file is refused
      until the file has been whited out. */
  lemma WhiteoutOrderDecidesAcceptance(img: Image, a: string, b: string, mode: int)
    requires PlainComponent(a) && PlainComponent(b) && [a] in img.files && img.files[[a]].File?
    requires ".wh." + a != OPAQUE && ".wh." + b != OPAQUE
    ensures var outer := Item([".wh." + a], mode, Regular([]));
            var inner := Item([a, ".wh." + b], mode, Regular([]));
            Whiteouts(img, [outer, inner]).Some? && Whiteouts(img, [inner, outer]).None?
  {
    var outer := Item([".wh." + a], mode, Regular([]));
    var inner := Item([a, ".wh." + b], mode, Regular([]));
    assert (".wh." + a)[4..] == a && (".wh." + b)[4..] == b;
    assert WhiteoutTarget(outer.path) == [a] by { assert [] + [a] == [a]; }
    assert WhiteoutLegal(img.files, outer);
    var cleared := Prune(img, [a], true);
    assert inner.path[..1] == [a];
    assert ParentsClear(cleared.files, inner.path);
    WhiteoutsOfTwo(img, outer, inner);
    assert !WhiteoutLegal(img.files, inner);
    WhiteoutsOfTwo(img, inner, outer);
  }

  // ---------- additions ----------

  /** A later member of the layer replaces an ancestor of `p` by a non-directory. */
  ghost predicate HiddenFrom(items: seq<Item>, start: nat, p: Path) {
    exists j :: start <= j < |items| && HidesBelow(items[j], p)
  }

  predicate HidesBelow(item: Item, p: Path) {
    !IsWhiteout(item.path) && !item.kind.Dir? && item.path < p
  }

  ghost predicate Names(items: seq<Item>, p: Path) {
    !IsWhiteout(p) && exists i :: 0 <= i < |items| && items[i].path == p
  }

  lemma HiddenSnoc(front: seq<Item>, item: Item, start: nat, p: Path)
    requires start <= |front|
    ensures HiddenFrom(front + [item], start, p) <==> HiddenFrom(front, start, p) || HidesBelow(item, p)
  {
    var items := front + [item];
    if HiddenFrom(front, start, p) {
      var j :| start <= j < |front| && HidesBelow(front[j], p);
      assert HidesBelow(items[j], p);
    }
    if HidesBelow(item, p) { assert HidesBelow(items[|front|], p); }
    if HiddenFrom(items, start, p) {
      var j :| start <= j < |items| && HidesBelow(items[j], p);
      if j < |front| { assert HidesBelow(front[j], p); }
    }
  }

  lemma AddElsewhere(img: Image, item: Item, id: LayerId, retainPaths: set<string>, p: Path)
    requires Add(img, item, id, retainPaths).Some? && item.path != p
    ensures CellAt(Add(img, item, id, retainPaths).value, p)
         == if !item.kind.Dir? && item.path < p then None else CellAt(img, p)
  {
  }

  /** A path no member names keeps its lower cell unless an ancestor was replaced. */
  lemma {:induction false} AdditionsUnnamed(img: Image, items: seq<Item>, id: LayerId, retainPaths: set<string>, p: Path)
    requires Additions(img, items, id, retainPaths).Some? && !Names(items, p)
    ensures CellAt(Additions(img, items, id, retainPaths).value, p)
         == if HiddenFrom(items, 0, p) then None else CellAt(img, p)
  {
    if items != [] {
      var front, item := items[..|items| - 1], items[|items| - 1];
      assert items == front + [item];
      assert forall i | 0 <= i < |front| :: items[i].path == front[i].path;
      AdditionsUnnamed(img, front, id, retainPaths, p);
      HiddenSnoc(front, item, 0, p);
      if !IsWhiteout(item.path) {
        assert items[|items| - 1].path != p;
      }
    }
  }

  /** The image a member of the layer finds when its turn comes. */
  function Found(img: Image, items: seq<Item>, i: nat, id: LayerId, retainPaths: set<string>): Option<Image>
    requires i <= |items|
  {
    Additions(img, items[..i], id, retainPaths)
  }

  /** What the i-th member puts at its own path. */
  function PutCell(img: Image, items: seq<Item>, i: nat, id: LayerId, retainPaths: set<string>): Option<Cell>
    requires i < |items|
  {
    var found := Found(img, items, i, id, retainPaths);
    if found.None? then None
    else
      var put := Written(Cleared(found.value, items[i]), items[i], retainPaths);
      if put.None? then None else Some(Cell(put.value.entry, put.value.bytes, id))
  }

  ghost predicate NamedDecides(img: Image, items: seq<Item>, id: LayerId, retainPaths: set<string>, i: nat)
    requires i < |items|
  {
    && Additions(img, items, id, retainPaths).Some?
    && PutCell(img, items, i, id, retainPaths).Some?
    && CellAt(Additions(img, items, id, retainPaths).value, items[i].path)
       == if HiddenFrom(items, i + 1, items[i].path) then None else PutCell(img, items, i, id, retainPaths)
  }

  /** A named path holds what its member put there, unless a later member of the
      same layer replaced an ancestor. */
  lemma {:induction false} AdditionsNamed(img: Image, items: seq<Item>, id: LayerId, retainPaths: set<string>, i: nat)
    requires Additions(img, items, id, retainPaths).Some? && DistinctPaths(items)
    requires i < |items| && !IsWhiteout(items[i].path)
    ensures NamedDecides(img, items, id, retainPaths, i)
  {
    var front, item := items[..|items| - 1], items[|items| - 1];
    assert items == front + [item];
    if i == |front| {
      LastPuts(img, items, id, retainPaths);
    } else {
      FrontPuts(img, front, item, id, retainPaths, i);
      AdditionsNamed(img, front, id, retainPaths, i);
      NamedMore(img, front, item, id, retainPaths, i);
    }
  }

  lemma NamedMore(img: Image, front: seq<Item>, item: Item, id: LayerId, retainPaths: set<string>, i: nat)
    requires Additions(img, front + [item], id, retainPaths).Some? && DistinctPaths(front + [item])
    requires i < |front| && NamedDecides(img, front, id, retainPaths, i)
    ensures NamedDecides(img, front + [item], id, retainPaths, i)
  {
    FrontPuts(img, front, item, id, retainPaths, i);
    HiddenSnoc(front, item, i + 1, front[i].path);
    AdditionsMore(img, front, item, id, retainPaths, front[i].path);
  }

  lemma FrontPuts(img: Image, front: seq<Item>, item: Item, id: LayerId, retainPaths: set<string>, i: nat)
    requires i < |front| && DistinctPaths(front + [item]) && Additions(img, front + [item], id, retainPaths).Some?
    ensures (front + [item])[i] == front[i] && item.path != front[i].path && DistinctPaths(front)
    ensures Additions(img, front, id, retainPaths).Some?
    ensures PutCell(img, front + [item], i, id, retainPaths) == PutCell(img, front, i, id, retainPaths)
  {
    var items := front + [item];
    assert items[..|front|] == front && items[|front|] == item;
    assert items[..i] == front[..i];
    forall a, b | 0 <= a < b < |front| ensures front[a].path != front[b].path {
      assert items[a].path != items[b].path;
    }
    assert items[i].path != items[|front|].path;
  }

  lemma LastPuts(img: Image, items: seq<Item>, id: LayerId, retainPaths: set<string>)
    requires items != [] && Additions(img, items, id, retainPaths).Some? && !IsWhiteout(items[|items| - 1].path)
    ensures NamedDecides(img, items, id, retainPaths, |items| - 1)
  {
    assert !HiddenFrom(items, |items|, items[|items| - 1].path);
  }

  lemma AdditionsMore(img: Image, front: seq<Item>, item: Item, id: LayerId, retainPaths: set<string>, p: Path)
    requires Additions(img, front + [item], id, retainPaths).Some? && item.path != p
    ensures Additions(img, front, id, retainPaths).Some?
    ensures CellAt(Additions(img, front + [item], id, retainPaths).value, p)
         == if HidesBelow(item, p) then None else CellAt(Additions(img, front, id, retainPaths).value, p)
  {
    assert (front + [item])[..|front|] == front;
    if !IsWhiteout(item.path) {
      AddElsewhere(Additions(img, front, id, retainPaths).value, item, id, retainPaths, p);
    }
  }

  // ---------- one layer ----------

  /** The cell a layer must leave at `p`, read off the members without replaying
      them for `p`: the member that names it, else the lower cell, with everything
      that hides it. Whiteouts of the layer only ever hide lower cells. */
  ghost predicate Decides(img: Image, lower: Image, items: seq<Item>, id: LayerId, retainPaths: set<string>,
                          p: Path, cell: Option<Cell>) {
    && (forall i | 0 <= i < |items| && items[i].path == p && !IsWhiteout(p) ::
          cell == if HiddenFrom(items, i + 1, p) then None else PutCell(lower, items, i, id, retainPaths))
    && (!Names(items, p) ==>
          cell == if WhitedOut(items, p) || HiddenFrom(items, 0, p) then None else CellAt(img, p))
  }

  /** One accepted layer refines the pointwise reading of the specification. */
  lemma LayerPointwise(img: Image, members: seq<Member>, id: LayerId, retainPaths: set<string>, p: Path)
    requires Agrees(img) && Layer(img, members, id, retainPaths).Some?
    ensures Decides(img, Whiteouts(img, Named(members).value).value, Named(members).value, id, retainPaths, p,
                    CellAt(Layer(img, members, id, retainPaths).value, p))
  {
    var items := Named(members).value;
    var lower := Whiteouts(img, items).value;
    WhiteoutsPointwise(img, items, p);
    forall i | 0 <= i < |items| && items[i].path == p && !IsWhiteout(p)
      ensures CellAt(Additions(lower, items, id, retainPaths).value, p)
           == if HiddenFrom(items, i + 1, p) then None else PutCell(lower, items, i, id, retainPaths)
    {
      AdditionsNamed(lower, items, id, retainPaths, i);
    }
    if !Names(items, p) {
      AdditionsUnnamed(lower, items, id, retainPaths, p);
    }
  }

  function OnlyAdditions(items: seq<Item>): seq<Item> {
    if items == [] then []
    else
      var front := OnlyAdditions(items[..|items| - 1]);
      if IsWhiteout(items[|items| - 1].path) then front else front + [items[|items| - 1]]
  }

  lemma {:induction false} AdditionsSkipWhiteouts(img: Image, items: seq<Item>, id: LayerId, retainPaths: set<string>)
    ensures Additions(img, items, id, retainPaths) == Additions(img, OnlyAdditions(items), id, retainPaths)
  {
    if items != [] {
      var front, item := items[..|items| - 1], items[|items| - 1];
      AdditionsSkipWhiteouts(img, front, id, retainPaths);
      if !IsWhiteout(item.path) {
        assert (OnlyAdditions(front) + [item])[..|OnlyAdditions(front)|] == OnlyAdditions(front);
      }
    }
  }

  /** Moving whiteouts about inside a layer, among each other or past additions,
      cannot change an accepted result. */
  lemma LayerIgnoresWhiteoutPositions(img: Image, a: seq<Member>, b: seq<Member>, id: LayerId, retainPaths: set<string>)
    requires Agrees(img)
    requires Layer(img, a, id, retainPaths).Some? && Layer(img, b, id, retainPaths).Some?
    requires SameWhiteouts(Named(a).value, Named(b).value)
    requires OnlyAdditions(Named(a).value) == OnlyAdditions(Named(b).value)
    ensures Layer(img, a, id, retainPaths) == Layer(img, b, id, retainPaths)
  {
    var x, y := Named(a).value, Named(b).value;
    WhiteoutOrderIrrelevant(img, x, y);
    var lower := Whiteouts(img, x).value;
    AdditionsSkipWhiteouts(lower, x, id, retainPaths);
    AdditionsSkipWhiteouts(lower, y, id, retainPaths);
  }

  // ---------- a whole image ----------

  ghost predicate LayerNames(layer: LayerBlob, p: Path) {
    Named(layer.members).Some? && Names(Named(layer.members).value, p)
  }

  /** `at` is the last layer with a member for `p`. */
  ghost predicate LastNaming(layers: seq<LayerBlob>, at: nat, p: Path) {
    && at < |layers| && LayerNames(layers[at], p)
    && (forall j | at < j < |layers| :: !LayerNames(layers[j], p))
  }

  lemma TopLayerDecides(layers: seq<LayerBlob>, retainPaths: set<string>, p: Path)
    requires layers != [] && Replay(layers, retainPaths).Some?
    requires p in Replay(layers, retainPaths).value.files
    ensures p in Replay(layers, retainPaths).value.layers
    ensures var front, top := layers[..|layers| - 1], layers[|layers| - 1];
            var image, lower := Replay(layers, retainPaths).value, Replay(front, retainPaths).value;
            if LayerNames(top, p) then image.layers[p] == top.id
            else p in lower.files && p in lower.layers && image.layers[p] == lower.layers[p]
  {
    var front, top := layers[..|layers| - 1], layers[|layers| - 1];
    var lower := Replay(front, retainPaths).value;
    var image := Replay(layers, retainPaths).value;
    ReplaySound(layers, retainPaths);
    ReplaySound(front, retainPaths);
    LayerPointwise(lower, top.members, top.id, retainPaths, p);
    assert CellAt(image, p).Some?;
    if LayerNames(top, p) {
      var items := Named(top.members).value;
      var i :| 0 <= i < |items| && items[i].path == p;
      assert CellAt(image, p) == PutCell(Whiteouts(lower, items).value, items, i, top.id, retainPaths);
    } else {
      assert CellAt(image, p) == CellAt(lower, p);
    }
  }

  lemma LastNamingBelow(layers: seq<LayerBlob>, at: nat, p: Path)
    requires layers != [] && LastNaming(layers[..|layers| - 1], at, p)
    requires !LayerNames(layers[|layers| - 1], p)
    ensures LastNaming(layers, at, p)
  {
    var front := layers[..|layers| - 1];
    assert forall j | 0 <= j < |front| :: front[j] == layers[j];
  }

  ghost predicate NamesOrigin(layers: seq<LayerBlob>, id: LayerId, p: Path) {
    exists at: nat :: LastNaming(layers, at, p) && layers[at].id == id
  }

  /** In every accepted image a stored path names the layer that last wrote it. */
  lemma {:induction false} StoredByLastNaming(layers: seq<LayerBlob>, retainPaths: set<string>, p: Path)
    requires Replay(layers, retainPaths).Some? && p in Replay(layers, retainPaths).value.files
    ensures p in Replay(layers, retainPaths).value.layers
    ensures NamesOrigin(layers, Replay(layers, retainPaths).value.layers[p], p)
  {
    assert layers != [];
    var front, top := layers[..|layers| - 1], layers[|layers| - 1];
    TopLayerDecides(layers, retainPaths, p);
    if LayerNames(top, p) {
      assert LastNaming(layers, |layers| - 1, p);
    } else {
      StoredByLastNaming(front, retainPaths, p);
      var id := Replay(front, retainPaths).value.layers[p];
      var at: nat :| LastNaming(front, at, p) && front[at].id == id;
      LastNamingBelow(layers, at, p);
    }
  }
}
