/**
  The layer loop of `collect_oci` as the source runs it: four structures updated in
  place, with `populated` (the source's `populated_prefixes`) deciding when the scan
  for a replaced subtree can be skipped. Every method is proved against the plain
  form in module Overlay, so the skipped scan never changes the image.
  */
module ImageFiles {
  import opened Options
  import opened Paths
  import opened Overlay
  import opened OverlaySafety

  /** The index holds every proper prefix of every stored path. */
  predicate IndexedBy(files: Files, populated: set<Path>) {
    forall p, k | p in files && 0 < k < |p| :: p[..k] in populated
  }

  function ProperPrefixes(path: Path): set<Path> {
    set k | 0 < k < |path| :: path[..k]
  }

  lemma IndexKept(base: Files, populated: set<Path>, path: Path, entry: Entry)
    requires IndexedBy(base, populated)
    ensures IndexedBy(base[path := entry], populated + ProperPrefixes(path))
  {
  }

  lemma BelowIsIndexed(files: Files, populated: set<Path>, name: Path, key: Path)
    requires IndexedBy(files, populated) && key in files && name != []
    ensures name < key ==> name in populated
  {
    if name < key {
      assert key[..|name|] == name;
    }
  }

  /** When the index does not hold `name`, the skipped scan would have removed nothing. */
  lemma NothingBelow(img: Image, populated: set<Path>, name: Path)
    requires Agrees(img) && IndexedBy(img.files, populated)
    requires name != [] && name !in populated
    ensures Prune(img, name, false) == img
  {
    forall k | k in img.files ensures !(name < k) {
      BelowIsIndexed(img.files, populated, name, k);
    }
    assert Without(img.files, name, false) == img.files;
    assert Without(img.retained, name, false) == img.retained;
    assert Without(img.layers, name, false) == img.layers;
  }

  /** A map in the middle of a removal scan: `keys` are still to be looked at. */
  function Scanned<V>(m: map<Path, V>, keys: set<Path>, target: Path, itself: bool): map<Path, V> {
    map k | k in m && (k in keys || !Covers(target, itself, k)) :: m[k]
  }

  lemma ScanStep<V>(m: map<Path, V>, keys: set<Path>, key: Path, target: Path, itself: bool)
    requires key in keys
    ensures Scanned(m, keys - {key}, target, itself)
         == if Covers(target, itself, key) then Scanned(m, keys, target, itself) - {key}
            else Scanned(m, keys, target, itself)
  {
  }

  lemma ScanEnds<V>(m: map<Path, V>, keys: set<Path>, target: Path, itself: bool)
    ensures m.Keys <= keys ==> Scanned(m, keys, target, itself) == m
    ensures Scanned(m, {}, target, itself) == Without(m, target, itself)
  {
  }

  class ImageFiles {
    const retainPaths: set<string>
    var files: Files
    var retained: map<Path, Bytes>
    var fileLayers: map<Path, LayerId>
    var populated: set<Path>

    ghost function View(): Image
      reads this
    {
      Image(files, retained, fileLayers)
    }

    ghost predicate Valid()
      reads this
    {
      Sound(View()) && IndexedBy(files, populated)
    }

    constructor (retainPaths: set<string>)
      ensures Valid() && View() == EMPTY_IMAGE && this.retainPaths == retainPaths
    {
      this.retainPaths := retainPaths;
      files, retained, fileLayers, populated := map[], map[], map[], {};
    }

    /** `validate_parents`. */
    method ValidateParents(path: Path) returns (ok: bool)
      requires path != []
      ensures ok <==> ParentsClear(files, path)
    {
      for index := 1 to |path|
        invariant forall k | 0 < k < index && path[..k] in files :: files[path[..k]].Directory?
      {
        if path[..index] in files && !files[path[..index]].Directory? {
          return false;
        }
      }
      return true;
    }

    /** `direct_hardlink`. */
    method DirectHardlink(linkname: string) returns (target: Option<Path>)
      ensures target == HardlinkTarget(files, linkname)
    {
      target := NormalPath(linkname);
      if target.Some? {
        NormalPathIsNormal(linkname);
        var clear := ValidateParents(target.value);
        if !(clear && target.value in files && files[target.value].File?) {
          target := None;
        }
      }
    }

    /** The removal loop: every stored key, one at a time, out of all three maps. */
    method RemoveCovered(target: Path, itself: bool)
      requires Valid()
      modifies this`files, this`retained, this`fileLayers
      ensures Valid() && View() == Prune(old(View()), target, itself)
    {
      ghost var before := View();
      var keys := files.Keys;
      ScanEnds(files, keys, target, itself);
      ScanEnds(retained, keys, target, itself);
      ScanEnds(fileLayers, keys, target, itself);
      while keys != {}
        invariant files == Scanned(before.files, keys, target, itself)
        invariant retained == Scanned(before.retained, keys, target, itself)
        invariant fileLayers == Scanned(before.layers, keys, target, itself)
      {
        var key :| key in keys;
        ScanStep(before.files, keys, key, target, itself);
        ScanStep(before.retained, keys, key, target, itself);
        ScanStep(before.layers, keys, key, target, itself);
        if Covers(target, itself, key) {
          files, retained, fileLayers := files - {key}, retained - {key}, fileLayers - {key};
        }
        keys := keys - {key};
      }
      ScanEnds(before.files, {}, target, itself);
      ScanEnds(before.retained, {}, target, itself);
      ScanEnds(before.layers, {}, target, itself);
      PruneSound(before, target, itself);
    }

    /** One whiteout member. */
    method ApplyWhiteout(item: Item) returns (ok: bool)
      requires Valid() && IsWhiteout(item.path)
      modifies this`files, this`retained, this`fileLayers
      ensures ok == WhiteoutLegal(old(files), item)
      ensures Valid()
      ensures View() == if ok then Prune(old(View()), WhiteoutTarget(item.path), !IsOpaque(item.path)) else old(View())
    {
      var leaf := item.path[|item.path| - 1];
      if leaf != OPAQUE && leaf[4..] in {"", ".", ".."} {
        return false;
      }
      var clear := ValidateParents(item.path);
      if !clear || item.kind != Regular([]) {
        return false;
      }
      RemoveCovered(WhiteoutTarget(item.path), leaf != OPAQUE);
      return true;
    }

    /** What the member itself writes, once its parents are clear and its old
        subtree is gone. */
    method Write(item: Item, id: LayerId) returns (ok: bool)
      requires item.path != []
      modifies this`files, this`retained, this`fileLayers
      ensures ok == Written(old(View()), item, retainPaths).Some?
      ensures ok ==> View() == Store(old(View()), item.path, Written(old(View()), item, retainPaths).value, id)
    {
      fileLayers := fileLayers[item.path := id];
      retained := retained - {item.path};
      match item.kind {
        case Regular(content) =>
          files := files[item.path := File(Sha(content), item.mode, |content|)];
          if Keeps(item.path, retainPaths) {
            retained := retained[item.path := content];
            assert retained == old(retained)[item.path := content];
          }
        case Dir =>
          files := files[item.path := Directory(item.mode)];
        case Sym(target) =>
          files := files[item.path := Symlink(target, item.mode)];
        case Hard(linkname) =>
          var target := DirectHardlink(linkname);
          if target.None? { return false; }
          files := files[item.path := files[target.value]];
          if target.value in retained {
            retained := retained[item.path := retained[target.value]];
            assert retained == old(retained)[item.path := old(retained)[target.value]];
          }
        case Special =>
          return false;
      }
      return true;
    }

    /** One member that is not a whiteout, through the guarded scan. */
    method ApplyAddition(item: Item, id: LayerId) returns (ok: bool)
      requires Valid() && Normal(item.path)
      modifies this
      ensures ok == Add(old(View()), item, id, retainPaths).Some?
      ensures ok ==> Valid() && View() == Add(old(View()), item, id, retainPaths).value
    {
      ghost var before := View();
      ok := ValidateParents(item.path);
      if !ok { return; }
      if !item.kind.Dir? {
        if item.path in populated {
          RemoveCovered(item.path, false);
        } else {
          NothingBelow(before, populated, item.path);
        }
      }
      assert View() == Cleared(before, item);
      ghost var base := files;
      populated := populated + ProperPrefixes(item.path);
      ok := Write(item, id);
      if ok {
        AddSound(before, item, id, retainPaths);
        IndexKept(base, old(populated), item.path, files[item.path]);
      }
    }

    /** Normalised names, refused when any is invalid or two coincide. */
    static method NameMembers(members: seq<Member>) returns (items: Option<seq<Item>>)
      ensures items == if Named(members).Some? && DistinctPaths(Named(members).value) then Named(members) else None
    {
      items := ReadNames(members);
      if items.Some? {
        var paths := Paths(items.value);
        PathsCount(items.value);
        if |paths| != |items.value| {
          items := None;
        }
      }
    }

    /** `[normal_path(entry.name) for entry in entries]`. */
    static method ReadNames(members: seq<Member>) returns (items: Option<seq<Item>>)
      ensures items == Named(members)
    {
      var named: seq<Item> := [];
      for i := 0 to |members|
        invariant |named| == i
        invariant forall j | 0 <= j < i :: ItemOf(members[j]) == Some(named[j])
      {
        var item := ItemOf(members[i]);
        if item.None? {
          assert members[i] in members;
          return None;
        }
        named := named + [item.value];
      }
      assert Named(members).Some?;
      assert Named(members).value == named;
      return Some(named);
    }

    /** `len(names) == len(set(names))` says that no two members share a path. */
    static lemma {:induction false} PathsCount(items: seq<Item>)
      ensures |Paths(items)| <= |items|
      ensures |Paths(items)| == |items| <==> DistinctPaths(items)
    {
      if items != [] {
        var front, item := items[..|items| - 1], items[|items| - 1];
        PathsCount(front);
        DistinctSnoc(front, item);
        assert items == front + [item];
      }
    }

    static function ItemOf(member: Member): Option<Item> {
      var name := NormalPath(member.name);
      if name.None? then None else Some(Item(name.value, member.mode, member.kind))
    }

    static function Paths(items: seq<Item>): set<Path> {
      set j | 0 <= j < |items| :: items[j].path
    }

    static lemma DistinctSnoc(front: seq<Item>, item: Item)
      ensures DistinctPaths(front + [item]) <==> DistinctPaths(front) && item.path !in Paths(front)
      ensures Paths(front + [item]) == Paths(front) + {item.path}
    {
      var items := front + [item];
      assert forall j | 0 <= j < |front| :: items[j] == front[j];
      assert items[|front|] == item;
      forall p | p in Paths(front) + {item.path} ensures p in Paths(items) {
        if p in Paths(front) {
          var j :| 0 <= j < |front| && front[j].path == p;
          assert items[j].path == p;
        }
      }
    }

    method WhiteoutPass(items: seq<Item>) returns (ok: bool)
      requires Valid()
      modifies this`files, this`retained, this`fileLayers
      ensures ok == Whiteouts(old(View()), items).Some?
      ensures ok ==> Valid() && View() == Whiteouts(old(View()), items).value
    {
      for i := 0 to |items|
        invariant Valid() && Whiteouts(old(View()), items[..i]) == Some(View())
      {
        assert items[..i + 1][..i] == items[..i];
        if IsWhiteout(items[i].path) {
          ok := ApplyWhiteout(items[i]);
          if !ok {
            WhiteoutsStayRefused(old(View()), items, i + 1);
            return;
          }
        }
      }
      assert items[..|items|] == items;
      return true;
    }

    method AdditionPass(items: seq<Item>, id: LayerId) returns (ok: bool)
      requires Valid() && ItemsNormal(items)
      modifies this
      ensures ok == Additions(old(View()), items, id, retainPaths).Some?
      ensures ok ==> Valid() && View() == Additions(old(View()), items, id, retainPaths).value
    {
      for i := 0 to |items|
        invariant Valid() && Additions(old(View()), items[..i], id, retainPaths) == Some(View())
      {
        assert items[..i + 1][..i] == items[..i];
        if !IsWhiteout(items[i].path) {
          ok := ApplyAddition(items[i], id);
          if !ok {
            AdditionsStayRefused(old(View()), items, i + 1, id, retainPaths);
            return;
          }
        }
      }
      assert items[..|items|] == items;
      return true;
    }

    /** One layer of `collect_oci`. A refused layer leaves a state nobody reads. */
    method ApplyLayer(members: seq<Member>, id: LayerId) returns (ok: bool)
      requires Valid()
      modifies this
      ensures ok == Layer(old(View()), members, id, retainPaths).Some?
      ensures ok ==> Valid() && View() == Layer(old(View()), members, id, retainPaths).value
    {
      var named := NameMembers(members);
      if named.None? { return false; }
      NamedNormal(members);
      ok := WhiteoutPass(named.value);
      if ok {
        ok := AdditionPass(named.value, id);
      }
    }

    /** All layers, in manifest order. */
    method ApplyLayers(layers: seq<LayerBlob>) returns (ok: bool)
      requires Valid() && View() == EMPTY_IMAGE
      modifies this
      ensures ok == Replay(layers, retainPaths).Some?
      ensures ok ==> Valid() && View() == Replay(layers, retainPaths).value
    {
      for i := 0 to |layers|
        invariant Valid() && Replay(layers[..i], retainPaths) == Some(View())
      {
        assert layers[..i + 1][..i] == layers[..i];
        ok := ApplyLayer(layers[i].members, layers[i].id);
        if !ok {
          ReplayStaysRefused(layers, i + 1, retainPaths);
          return;
        }
      }
      assert layers[..|layers|] == layers;
      return true;
    }
  }

  lemma {:induction false} WhiteoutsStayRefused(img: Image, items: seq<Item>, n: nat)
    requires n <= |items| && Whiteouts(img, items[..n]).None?
    ensures Whiteouts(img, items).None?
  {
    if n == |items| {
      assert items[..n] == items;
    } else {
      assert items[..|items| - 1][..n] == items[..n];
      WhiteoutsStayRefused(img, items[..|items| - 1], n);
    }
  }

  lemma {:induction false} AdditionsStayRefused(img: Image, items: seq<Item>, n: nat, id: LayerId, retainPaths: set<string>)
    requires n <= |items| && Additions(img, items[..n], id, retainPaths).None?
    ensures Additions(img, items, id, retainPaths).None?
  {
    if n == |items| {
      assert items[..n] == items;
    } else {
      assert items[..|items| - 1][..n] == items[..n];
      AdditionsStayRefused(img, items[..|items| - 1], n, id, retainPaths);
    }
  }

  lemma {:induction false} ReplayStaysRefused(layers: seq<LayerBlob>, n: nat, retainPaths: set<string>)
    requires n <= |layers| && Replay(layers[..n], retainPaths).None?
    ensures Replay(layers, retainPaths).None?
  {
    if n == |layers| {
      assert layers[..n] == layers;
    } else {
      assert layers[..|layers| - 1][..n] == layers[..n];
      ReplayStaysRefused(layers[..|layers| - 1], n, retainPaths);
    }
  }
}
