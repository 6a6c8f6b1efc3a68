/**
  Every image that `collect_oci` can produce is sound: its maps agree, every stored
  ancestor is a directory, and every stored path is normal.
  */
module OverlaySafety {
  import opened Paths
  import opened Overlay

  lemma PruneSound(img: Image, target: Path, itself: bool)
    requires Sound(img)
    ensures Sound(Prune(img, target, itself))
  {
  }

  lemma AddSound(img: Image, item: Item, id: LayerId, retainPaths: set<string>)
    requires Sound(img) && Normal(item.path)
    requires Add(img, item, id, retainPaths).Some?
    ensures Sound(Add(img, item, id, retainPaths).value)
  {
    var base := Cleared(img, item);
    PruneSound(img, item.path, false);
    var out := Add(img, item, id, retainPaths).value;
    assert Agrees(out);
    forall p | p in out.files ensures ParentsClear(out.files, p) {
      forall k | 0 < k < |p| && p[..k] in out.files ensures out.files[p[..k]].Directory? {
        if p == item.path {
          assert p[..k] in base.files && p[..k] in img.files;
        } else if p[..k] == item.path {
          assert item.path < p;
        } else {
          assert ParentsClear(base.files, p);
        }
      }
    }
  }

  lemma {:induction false} WhiteoutsSound(img: Image, items: seq<Item>)
    requires Sound(img) && Whiteouts(img, items).Some?
    ensures Sound(Whiteouts(img, items).value)
  {
    if items != [] {
      WhiteoutsSound(img, items[..|items| - 1]);
      var item := items[|items| - 1];
      if IsWhiteout(item.path) {
        PruneSound(Whiteouts(img, items[..|items| - 1]).value, WhiteoutTarget(item.path), !IsOpaque(item.path));
      }
    }
  }

  lemma {:induction false} AdditionsSound(img: Image, items: seq<Item>, id: LayerId, retainPaths: set<string>)
    requires Sound(img) && ItemsNormal(items) && Additions(img, items, id, retainPaths).Some?
    ensures Sound(Additions(img, items, id, retainPaths).value)
  {
    if items != [] {
      AdditionsSound(img, items[..|items| - 1], id, retainPaths);
      var item := items[|items| - 1];
      if !IsWhiteout(item.path) {
        AddSound(Additions(img, items[..|items| - 1], id, retainPaths).value, item, id, retainPaths);
      }
    }
  }

  lemma NamedNormal(members: seq<Member>)
    requires Named(members).Some?
    ensures ItemsNormal(Named(members).value)
  {
    forall i | 0 <= i < |members| ensures Normal(Named(members).value[i].path) {
      assert members[i] in members;
      NormalPathIsNormal(members[i].name);
    }
  }

  /** Each accepted layer keeps the tree, the agreement and the normal names. */
  lemma LayerSound(img: Image, members: seq<Member>, id: LayerId, retainPaths: set<string>)
    requires Sound(img) && Layer(img, members, id, retainPaths).Some?
    ensures Sound(Layer(img, members, id, retainPaths).value)
  {
    var items := Named(members).value;
    NamedNormal(members);
    WhiteoutsSound(img, items);
    AdditionsSound(Whiteouts(img, items).value, items, id, retainPaths);
  }

  /** Hence so does every accepted image, whatever its layers contain. */
  lemma {:induction false} ReplaySound(layers: seq<LayerBlob>, retainPaths: set<string>)
    requires Replay(layers, retainPaths).Some?
    ensures Sound(Replay(layers, retainPaths).value)
  {
    if layers != [] {
      var top := layers[|layers| - 1];
      ReplaySound(layers[..|layers| - 1], retainPaths);
      LayerSound(Replay(layers[..|layers| - 1], retainPaths).value, top.members, top.id, retainPaths);
    }
  }
}
