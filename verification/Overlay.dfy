/**
  Reconstructing an image file system from its layers: the layer loop of
  `collect_oci` in codebuild/exact_image_disposition.py.

  `Layer` and `Replay` are the plain form: maps of the stored paths, and a scan of
  the whole map for every subtree removal. `ImageFiles` is the form the source has:
  maps updated in place, and an index of prefixes ever populated that lets most
  regular files skip the scan. The class is proved to compute `Layer`.
  */
module Overlay {
  import opened Options
  import opened Paths

  type Byte = b: int | 0 <= b < 256
  type Bytes = seq<Byte>
  type LayerId = string

  /** SHA-256 taken as injective: a digest is known by the bytes it was made from. */
  datatype Digest = Digest(preimage: Bytes)

  function Sha(content: Bytes): Digest { Digest(content) }

  datatype Entry =
    | File(sha: Digest, mode: int, size: nat)
    | Directory(mode: int)
    | Symlink(target: string, mode: int)

  datatype Kind = Regular(content: Bytes) | Dir | Sym(target: string) | Hard(linkname: string) | Special

  /** A decoded tar member. */
  datatype Member = Member(name: string, mode: int, kind: Kind)

  /** A member zipped with its normalised name. */
  datatype Item = Item(path: Path, mode: int, kind: Kind)

  type Files = map<Path, Entry>
  datatype Image = Image(files: Files, retained: map<Path, Bytes>, layers: map<Path, LayerId>)

  const EMPTY_IMAGE := Image(map[], map[], map[])
  const OPAQUE := ".wh..wh..opq"

  // ---------- the plain form ----------

  /** `validate_parents`: no stored proper prefix is anything but a directory. */
  predicate ParentsClear(files: Files, path: Path) {
    forall k | 0 < k < |path| && path[..k] in files :: files[path[..k]].Directory?
  }

  /** `direct_hardlink`. */
  function HardlinkTarget(files: Files, linkname: string): Option<Path> {
    var path := NormalPath(linkname);
    if path.Some? && ParentsClear(files, path.value) && path.value in files && files[path.value].File?
    then path else None
  }

  predicate Covers(target: Path, itself: bool, key: Path) {
    target < key || (itself && key == target)
  }

  function Without<V>(m: map<Path, V>, target: Path, itself: bool): map<Path, V> {
    map k | k in m && !Covers(target, itself, k) :: m[k]
  }

  function Prune(img: Image, target: Path, itself: bool): Image {
    Image(Without(img.files, target, itself),
          Without(img.retained, target, itself),
          Without(img.layers, target, itself))
  }

  predicate IsWhiteout(path: Path) {
    path != [] && ".wh." <= path[|path| - 1]
  }

  predicate IsOpaque(path: Path) {
    path != [] && path[|path| - 1] == OPAQUE
  }

  /** The path a whiteout acts on: the containing directory when it is opaque. */
  function WhiteoutTarget(path: Path): Path
    requires IsWhiteout(path)
  {
    var parent, leaf := path[..|path| - 1], path[|path| - 1];
    if IsOpaque(path) then parent else parent + [leaf[4..]]
  }

  predicate WhiteoutLegal(files: Files, item: Item)
    requires IsWhiteout(item.path)
  {
    var leaf := item.path[|item.path| - 1];
    && (IsOpaque(item.path) || leaf[4..] !in {"", ".", ".."})
    && ParentsClear(files, item.path)
    && item.kind == Regular([])
  }

  /** The whiteout pass, over the first part of a layer's members. */
  function Whiteouts(img: Image, items: seq<Item>): Option<Image> {
    if items == [] then Some(img)
    else
      var item := items[|items| - 1];
      var before := Whiteouts(img, items[..|items| - 1]);
      if before.None? || !IsWhiteout(item.path) then before
      else if !WhiteoutLegal(before.value.files, item) then None
      else Some(Prune(before.value, WhiteoutTarget(item.path), !IsOpaque(item.path)))
  }

  const STATUS: Path := ["var", "lib", "dpkg", "status"]
  const INFO: Path := ["var", "lib", "dpkg", "info"]

  predicate EndsWith(s: string, suffix: string) {
    |suffix| <= |s| && s[|s| - |suffix|..] == suffix
  }

  /** Whether a regular file's bytes are kept beside its hash. */
  predicate Keeps(path: Path, retainPaths: set<string>) {
    Render(path) in retainPaths || path == STATUS || (INFO < path && EndsWith(path[|path| - 1], ".list"))
  }

  datatype Put = Put(entry: Entry, bytes: Option<Bytes>)

  /** What a member writes at its own path; None is a refused member. */
  function Written(img: Image, item: Item, retainPaths: set<string>): Option<Put> {
    match item.kind
    case Regular(content) =>
      Some(Put(File(Sha(content), item.mode, |content|),
               if Keeps(item.path, retainPaths) then Some(content) else None))
    case Dir => Some(Put(Directory(item.mode), None))
    case Sym(target) => Some(Put(Symlink(target, item.mode), None))
    case Hard(linkname) =>
      var target := HardlinkTarget(img.files, linkname);
      if target.None? then None
      else Some(Put(img.files[target.value],
                    if target.value != item.path && target.value in img.retained
                    then Some(img.retained[target.value]) else None))
    case Special => None
  }

  function Store(img: Image, path: Path, put: Put, id: LayerId): Image {
    Image(img.files[path := put.entry],
          if put.bytes.Some? then img.retained[path := put.bytes.value] else img.retained - {path},
          img.layers[path := id])
  }

  function Cleared(img: Image, item: Item): Image {
    if item.kind.Dir? then img else Prune(img, item.path, false)
  }

  function Add(img: Image, item: Item, id: LayerId, retainPaths: set<string>): Option<Image> {
    if !ParentsClear(img.files, item.path) then None
    else
      var put := Written(Cleared(img, item), item, retainPaths);
      if put.None? then None else Some(Store(Cleared(img, item), item.path, put.value, id))
  }

  /** The addition pass, over the first part of a layer's members. */
  function Additions(img: Image, items: seq<Item>, id: LayerId, retainPaths: set<string>): Option<Image> {
    if items == [] then Some(img)
    else
      var item := items[|items| - 1];
      var before := Additions(img, items[..|items| - 1], id, retainPaths);
      if before.None? || IsWhiteout(item.path) then before
      else Add(before.value, item, id, retainPaths)
  }

  function Named(members: seq<Member>): Option<seq<Item>> {
    if exists m <- members :: NormalPath(m.name).None? then None
    else Some(seq(|members|, i requires 0 <= i < |members| && NormalPath(members[i].name).Some? =>
                    Item(NormalPath(members[i].name).value, members[i].mode, members[i].kind)))
  }

  predicate DistinctPaths(items: seq<Item>) {
    forall i, j | 0 <= i < j < |items| :: items[i].path != items[j].path
  }

  /** One whole layer; None when the source refuses it. */
  function Layer(img: Image, members: seq<Member>, id: LayerId, retainPaths: set<string>): Option<Image> {
    var items := Named(members);
    if items.None? || !DistinctPaths(items.value) then None
    else
      var lower := Whiteouts(img, items.value);
      if lower.None? then None else Additions(lower.value, items.value, id, retainPaths)
  }

  datatype LayerBlob = LayerBlob(members: seq<Member>, id: LayerId)

  /** A whole image: the layers in order, from nothing. */
  function Replay(layers: seq<LayerBlob>, retainPaths: set<string>): Option<Image> {
    if layers == [] then Some(EMPTY_IMAGE)
    else
      var top := layers[|layers| - 1];
      var lower := Replay(layers[..|layers| - 1], retainPaths);
      if lower.None? then None else Layer(lower.value, top.members, top.id, retainPaths)
  }

  // ---------- what every accepted step keeps ----------

  /** The three maps agree: every stored path names its layer, and retained bytes
      belong to regular files with exactly the recorded hash and size. */
  predicate Agrees(img: Image) {
    && img.layers.Keys == img.files.Keys
    && (forall p | p in img.retained ::
          && p in img.files && img.files[p].File?
          && img.files[p].sha == Sha(img.retained[p]) && img.files[p].size == |img.retained[p]|)
  }

  /** Every stored ancestor of a stored path is a directory. */
  predicate IsTree(files: Files) {
    forall p | p in files :: ParentsClear(files, p)
  }

  predicate AllNormal(files: Files) {
    forall p | p in files :: Normal(p)
  }

  predicate Sound(img: Image) {
    Agrees(img) && IsTree(img.files) && AllNormal(img.files)
  }

  predicate ItemsNormal(items: seq<Item>) {
    forall i | 0 <= i < |items| :: Normal(items[i].path)
  }
}
