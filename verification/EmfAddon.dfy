/**
  The configuration edit of platform/scripts/gateway_emf_addon.py: `apply` puts one routing
  file into a nested configuration, making the objects on the way, and `rollback` takes it
  out again, pruning the objects that are empty and that the baseline does not have.
  */
module EmfAddon {
  import opened Options
  import opened JsonText
  import opened PythonValues

  type Fields = map<string, Json>

  const ADDON_NAME := "amazon-cloudwatch-observability"
  const EXTRA_FILE := "gateway-emf.conf"
  const CONFIG_PATH := ["containerLogs", "fluentBit", "config", "extraFiles"]
  const IDENTITY_FIELDS := ["clusterName", "addonName", "addonVersion", "serviceAccountRoleArn"]

  // ---------- Objects along a path ----------

  /** The object at a path, when the path meets only objects. */
  function At(f: Fields, path: seq<string>): Option<Fields>
    decreases path
  {
    if path == [] then Some(f)
    else if path[0] in f && f[path[0]].Obj? then At(f[path[0]].fields, path[1..])
    else None
  }

  /** The same configuration with another object at the path. */
  function Edit(f: Fields, path: seq<string>, g: Fields): Fields
    requires At(f, path).Some?
    decreases path
  {
    if path == [] then g else f[path[0] := Obj(Edit(f[path[0]].fields, path[1..], g))]
  }

  function Under(f: Fields, key: string): Fields {
    if key in f && f[key].Obj? then f[key].fields else map[]
  }

  function UnderAll(f: Fields, path: seq<string>): Fields
    decreases path
  {
    if path == [] then f else UnderAll(Under(f, path[0]), path[1..])
  }

  /** Whatever is stored at a path of keys. */
  function Value(f: Fields, path: seq<string>): Option<Json>
    requires path != []
    decreases path
  {
    if path[0] !in f then None
    else if |path| == 1 then Some(f[path[0]])
    else Value(Under(f, path[0]), path[1..])
  }

  // The path meets only objects, as far as it goes.
  predicate Passable(f: Fields, path: seq<string>)
    decreases path
  {
    path == [] || path[0] !in f || (f[path[0]].Obj? && Passable(f[path[0]].fields, path[1..]))
  }

  // ---------- The edits, without a loop ----------

  function Put(f: Fields, file: seq<string>, v: Json): Fields
    requires file != []
    decreases file
  {
    if |file| == 1 then f[file[0] := v] else f[file[0] := Obj(Put(Under(f, file[0]), file[1..], v))]
  }

  function Prune(f: Fields, baseline: Fields, file: seq<string>): Fields
    requires file != [] && At(f, file[..|file| - 1]).Some?
    decreases file
  {
    var k := file[0];
    if |file| == 1 then f - {k} else
      assert file[..|file| - 1][1..] == file[1..][..|file| - 2];
      var child := Prune(f[k].fields, Under(baseline, k), file[1..]);
      if child == map[] && k !in baseline then f - {k} else f[k := Obj(child)]
  }

  function Created(f: Fields, path: seq<string>): Fields
    decreases path
  {
    if path == [] then f else f[path[0] := Obj(Created(Under(f, path[0]), path[1..]))]
  }

  // ---------- Laws of the edits ----------

  lemma {:induction false} AtSplit(f: Fields, path: seq<string>, i: nat)
    requires i <= |path| && At(f, path[..i]).Some?
    ensures At(f, path) == At(At(f, path[..i]).value, path[i..])
    ensures Passable(f, path) <==> Passable(At(f, path[..i]).value, path[i..])
    decreases path
  {
    if i > 0 {
      assert path[..i][1..] == path[1..][..i - 1] && path[1..][i - 1..] == path[i..];
      AtSplit(f[path[0]].fields, path[1..], i - 1);
    } else {
      assert path[0..] == path;
    }
  }

  lemma AtStep(f: Fields, path: seq<string>, i: nat)
    requires i < |path| && At(f, path[..i]).Some?
    ensures At(f, path[..i + 1]) == At(At(f, path[..i]).value, [path[i]])
  {
    var q := path[..i + 1];
    assert q[..i] == path[..i] && q[i..] == [path[i]];
    AtSplit(f, q, i);
  }

  lemma {:induction false} EditAt(f: Fields, path: seq<string>, g: Fields)
    requires At(f, path).Some?
    ensures At(Edit(f, path, g), path) == Some(g)
    ensures forall h :: Edit(Edit(f, path, g), path, h) == Edit(f, path, h)
    ensures Edit(f, path, At(f, path).value) == f
    decreases path
  {
    if path != [] {
      var x := f[path[0]].fields;
      EditAt(x, path[1..], g);
      forall h ensures Edit(Edit(f, path, g), path, h) == Edit(f, path, h) {
        assert Edit(Edit(x, path[1..], g), path[1..], h) == Edit(x, path[1..], h);
      }
    }
  }

  lemma {:induction false} EditDeeper(f: Fields, path: seq<string>, key: string, g: Fields)
    requires At(f, path).Some? && At(f, path + [key]).Some?
    ensures Edit(f, path + [key], g) == Edit(f, path, At(f, path).value[key := Obj(g)])
    decreases path
  {
    if path == [] {
      assert [key][1..] == [];
    } else {
      assert (path + [key])[1..] == path[1..] + [key];
      EditDeeper(f[path[0]].fields, path[1..], key, g);
    }
  }

  // Making one more object is part of making them all.
  lemma {:induction false} CreatedStep(f: Fields, path: seq<string>, i: nat)
    requires i < |path| && At(f, path[..i]).Some? && path[i] !in At(f, path[..i]).value
    ensures Created(Edit(f, path[..i], At(f, path[..i]).value[path[i] := Obj(map[])]), path) == Created(f, path)
    decreases path
  {
    if i > 0 {
      assert path[..i][1..] == path[1..][..i - 1];
      CreatedStep(f[path[0]].fields, path[1..], i - 1);
    }
  }

  lemma {:induction false} CreatedAlready(f: Fields, path: seq<string>)
    requires At(f, path).Some?
    ensures Created(f, path) == f
    decreases path
  {
    if path != [] { CreatedAlready(f[path[0]].fields, path[1..]); }
  }

  lemma {:induction false} CreatedThenPut(f: Fields, path: seq<string>, k: string, v: Json)
    ensures At(Created(f, path), path) == Some(UnderAll(f, path))
    ensures Edit(Created(f, path), path, UnderAll(f, path)[k := v]) == Put(f, path + [k], v)
    decreases path
  {
    if path != [] {
      assert (path + [k])[1..] == path[1..] + [k];
      CreatedThenPut(Under(f, path[0]), path[1..], k, v);
    }
  }

  // ---------- extra_files ----------

  datatype Walk = Missing | Unsupported | Files(configuration: Fields, files: Fields)

  /** Walks a path of objects; `create` makes the ones that are missing. */
  method ExtraFiles(configuration: Fields, path: seq<string>, create: bool) returns (w: Walk)
    ensures w.Unsupported? <==> !Passable(configuration, path)
    ensures w.Missing? <==> Passable(configuration, path) && At(configuration, path).None? && !create
    ensures w.Files? ==> w.configuration == Created(configuration, path)
    ensures w.Files? ==> At(w.configuration, path) == Some(w.files)
    ensures w.Files? && !create ==> w.configuration == configuration
  {
    var c, current, i := configuration, configuration, 0;
    while i < |path|
      invariant 0 <= i <= |path|
      invariant At(c, path[..i]) == Some(current)
      invariant Created(c, path) == Created(configuration, path)
      invariant Passable(c, path) <==> Passable(configuration, path)
      invariant !create ==> c == configuration
    {
      var key := path[i];
      AtSplit(c, path, i);
      assert path[i..][1..] == path[i + 1..];
      if key !in current {
        if !create { return Missing; }
        CreatedStep(c, path, i);
        EditAt(c, path[..i], current[key := Obj(map[])]);
        c := Edit(c, path[..i], current[key := Obj(map[])]);
        AtStep(c, path, i);
        AtSplit(c, path, i);
        current := map[];
      } else if !current[key].Obj? {
        return Unsupported;
      } else {
        AtStep(c, path, i);
        current := current[key].fields;
      }
      i := i + 1;
    }
    assert path[..|path|] == path;
    AtSplit(c, path, |path|);
    CreatedAlready(c, path);
    w := Files(c, current);
  }

  // ---------- Pruning, from the file upwards ----------

  const FILE := CONFIG_PATH + [EXTRA_FILE]

  // Pruning as seen from `depth` keys down the path.
  function PrunedAt(f: Fields, baseline: Fields, file: seq<string>, depth: nat): Fields
    requires depth < |file| && At(f, file[..|file| - 1]).Some?
  {
    AtCut(f, file, depth);
    Edit(f, file[..depth], Prune(At(f, file[..depth]).value, UnderAll(baseline, file[..depth]), file[depth..]))
  }

  lemma AtCut(f: Fields, file: seq<string>, depth: nat)
    requires depth < |file| && At(f, file[..|file| - 1]).Some?
    ensures At(f, file[..depth]).Some?
    ensures At(At(f, file[..depth]).value, file[depth..][..|file[depth..]| - 1]) == At(f, file[..|file| - 1])
  {
    var path := file[..|file| - 1];
    AtSome(f, path, depth);
    assert path[..depth] == file[..depth];
    AtSplit(f, path, depth);
    assert path[depth..] == file[depth..][..|file[depth..]| - 1];
  }

  lemma {:induction false} AtSome(f: Fields, path: seq<string>, i: nat)
    requires i <= |path| && At(f, path).Some?
    ensures At(f, path[..i]).Some?
    decreases path
  {
    if i > 0 {
      assert path[..i][1..] == path[1..][..i - 1];
      AtSome(f[path[0]].fields, path[1..], i - 1);
    }
  }

  lemma {:induction false} UnderAllStep(f: Fields, path: seq<string>, key: string)
    ensures UnderAll(f, path + [key]) == Under(UnderAll(f, path), key)
    decreases path
  {
    if path == [] {
      assert [key][1..] == [];
    } else {
      assert (path + [key])[1..] == path[1..] + [key];
      UnderAllStep(Under(f, path[0]), path[1..], key);
    }
  }

  // One level of the loop: what the object one level up becomes.
  lemma PrunedLevel(f: Fields, baseline: Fields, file: seq<string>, depth: nat)
    requires 0 < depth < |file| && At(f, file[..|file| - 1]).Some?
    ensures At(f, file[..depth]).Some? && At(f, file[..depth - 1]).Some?
    ensures
      var now := PrunedAt(f, baseline, file, depth);
      var key := file[depth - 1];
      && At(now, file[..depth - 1]).Some?
      && var parent := At(now, file[..depth - 1]).value;
      && key in parent && parent[key].Obj?
      && var gone := parent[key].fields == map[] && key !in UnderAll(baseline, file[..depth - 1]);
      && PrunedAt(f, baseline, file, depth - 1) == (if gone then Edit(now, file[..depth - 1], parent - {key}) else now)
  {
    AtCut(f, file, depth);
    AtCut(f, file, depth - 1);
    var above, key := file[..depth - 1], file[depth - 1];
    assert above + [key] == file[..depth];
    AtStep(f, file, depth - 1);
    var child := Prune(At(f, file[..depth]).value, UnderAll(baseline, file[..depth]), file[depth..]);
    UnderAllStep(baseline, above, key);
    EditDeeper(f, above, key, child);
    EditAt(f, above, At(f, above).value[key := Obj(child)]);
    PruneUnfolds(At(f, above).value, UnderAll(baseline, above), file[depth - 1..]);
    assert file[depth - 1..][1..] == file[depth..];
    assert At(f, above).value[key := Obj(child)] - {key} == At(f, above).value - {key};
  }

  lemma PruneUnfolds(f: Fields, baseline: Fields, file: seq<string>)
    requires |file| > 1 && At(f, file[..|file| - 1]).Some?
    ensures var k := file[0];
      && k in f && f[k].Obj?
      && At(f[k].fields, file[1..][..|file| - 2]).Some?
      && var child := Prune(f[k].fields, Under(baseline, k), file[1..]);
      && Prune(f, baseline, file) == if child == map[] && k !in baseline then f - {k} else f[k := Obj(child)]
  {
    assert file[..|file| - 1][1..] == file[1..][..|file| - 2];
  }

  // Once a key stays, everything above it stays.
  lemma {:induction false} PrunedStays(f: Fields, baseline: Fields, file: seq<string>, depth: nat)
    requires 0 < depth < |file| && At(f, file[..|file| - 1]).Some?
    requires PrunedAt(f, baseline, file, depth - 1) == PrunedAt(f, baseline, file, depth)
    ensures PrunedAt(f, baseline, file, 0) == PrunedAt(f, baseline, file, depth)
    decreases depth
  {
    if depth > 1 {
      PrunedLevel(f, baseline, file, depth);
      PrunedLevel(f, baseline, file, depth - 1);
      AtStep(PrunedAt(f, baseline, file, depth - 1), file, depth - 2);
      PrunedStays(f, baseline, file, depth - 1);
    }
  }

  /** Deletes the file, then the emptied objects above it, until one is needed. */
  method PruneLoop(f: Fields, baseline: Fields, file: seq<string>) returns (current: Fields)
    requires file != [] && At(f, file[..|file| - 1]).Some?
    ensures current == Prune(f, baseline, file)
  {
    var n := |file| - 1;
    var files := At(f, file[..n]).value;
    current := Edit(f, file[..n], files - {file[n]});
    assert file[n..] == [file[n]];
    assert file[0..] == file && file[..0] == [];
    var position := n;
    while position > 0
      invariant 0 <= position <= n
      invariant current == PrunedAt(f, baseline, file, position)
    {
      position := position - 1;
      PrunedLevel(f, baseline, file, position + 1);
      var parent, original := At(current, file[..position]).value, UnderAll(baseline, file[..position]);
      if parent[file[position]].fields != map[] || file[position] in original {
        PrunedStays(f, baseline, file, position + 1);
        return;
      }
      current := Edit(current, file[..position], parent - {file[position]});
    }
  }

  // ---------- prepare ----------

  // Python's truth of a decoded value.
  predicate Truthy(value: Reading, j: Json) {
    match j
    case Null => false
    case Bool(on) => on
    case Num(digits) => value(digits) != 0.0
    case Str(text) => text != ""
    case Arr(items) => items != []
    case Obj(fields) => fields != map[]
  }

  function Get(f: Fields, key: string): Json {
    if key in f then f[key] else Null
  }

  function Addon(snapshot: Json): Option<Fields> {
    if snapshot.Obj? && "addon" in snapshot.fields && snapshot.fields["addon"].Obj?
    then Some(snapshot.fields["addon"].fields) else None
  }

  /** The decoded configuration values of an addon; `loads` decodes their text. */
  function Configuration(value: Reading, addon: Fields, loads: string -> Option<Json>): Option<Fields> {
    var raw := Get(addon, "configurationValues");
    if Get(addon, "addonName") != Str(ADDON_NAME) then None
    else if !Truthy(value, raw) then Some(map[])
    else if !raw.Str? then None
    else match loads(raw.text)
      case Some(Obj(fields)) => Some(fields)
      case _ => None
  }

  // The field is there and compares equal.
  predicate SameField(value: Reading, before: Fields, baseline: Fields, field: string) {
    Truthy(value, Get(before, field)) && Read(value, before[field]) == Read(value, Get(baseline, field))
  }

  predicate SameTarget(value: Reading, before: Fields, baseline: Fields) {
    forall field <- IDENTITY_FIELDS :: SameField(value, before, baseline, field)
  }

  function Apply(current: Fields, routing: string): Option<Fields> {
    var files := UnderAll(current, CONFIG_PATH);
    if !Passable(current, CONFIG_PATH) then None
    else if EXTRA_FILE in files && files[EXTRA_FILE] != Str(routing) then None
    else Some(Put(current, FILE, Str(routing)))
  }

  predicate Owns(baseline: Fields) {
    var files := At(baseline, CONFIG_PATH);
    files.Some? && EXTRA_FILE in files.value
  }

  function Rollback(current: Fields, baseline: Fields, routing: string): Option<Fields> {
    var files := At(current, CONFIG_PATH);
    if !Passable(current, CONFIG_PATH) || !Passable(baseline, CONFIG_PATH) || Owns(baseline) then None
    else if files.None? || Get(files.value, EXTRA_FILE) != Str(routing) then None
    else
      assert FILE[..|FILE| - 1] == CONFIG_PATH;
      Some(Prune(current, baseline, FILE))
  }

  /** What `prepare` returns; None for each of its refusals. */
  function Prepared(value: Reading, before: Json, baseline: Json, rollback: bool, routing: string,
                    loads: string -> Option<Json>): Option<Fields>
  {
    match (Addon(before), Addon(baseline))
    case (Some(b), Some(l)) =>
      if !SameTarget(value, b, l) then None else
        (match (Configuration(value, b, loads), Configuration(value, l, loads))
         case (Some(current), Some(expected)) =>
           if rollback then Rollback(current, expected, routing)
           else if Read(value, Get(l, "modifiedAt")) != Read(value, Get(b, "modifiedAt")) then None
           else if Read(value, Obj(current)) != Read(value, Obj(expected)) then None
           else Apply(current, routing)
         case _ => None)
    case _ => None
  }

  method Edited(current: Fields, expected: Fields, rollback: bool, routing: string) returns (r: Option<Fields>)
    ensures r == if rollback then Rollback(current, expected, routing) else Apply(current, routing)
  {
    var walk := ExtraFiles(current, CONFIG_PATH, !rollback);
    CreatedThenPut(current, CONFIG_PATH, EXTRA_FILE, Str(routing));
    assert FILE[..|FILE| - 1] == CONFIG_PATH;
    if walk.Unsupported? { return None; }
    if rollback {
      var baselineWalk := ExtraFiles(expected, CONFIG_PATH, false);
      if baselineWalk.Unsupported? || (baselineWalk.Files? && EXTRA_FILE in baselineWalk.files) { return None; }
      if walk.Missing? || Get(walk.files, EXTRA_FILE) != Str(routing) { return None; }
      var pruned := PruneLoop(walk.configuration, expected, FILE);
      return Some(pruned);
    } else if EXTRA_FILE in walk.files && walk.files[EXTRA_FILE] != Str(routing) {
      return None;
    } else {
      return Some(Edit(walk.configuration, CONFIG_PATH, walk.files[EXTRA_FILE := Str(routing)]));
    }
  }

  method Prepare(
    value: Reading, before: Json, baseline: Json, rollback: bool, routing: string, loads: string -> Option<Json>)
    returns (r: Option<Fields>)
    ensures r == Prepared(value, before, baseline, rollback, routing, loads)
  {
    var b, l := Addon(before), Addon(baseline);
    if b.None? || l.None? { return None; }
    var i := 0;
    while i < |IDENTITY_FIELDS|
      invariant 0 <= i <= |IDENTITY_FIELDS|
      invariant forall field <- IDENTITY_FIELDS[..i] :: SameField(value, b.value, l.value, field)
    {
      var field := IDENTITY_FIELDS[i];
      if !SameField(value, b.value, l.value, field) {
        assert field in IDENTITY_FIELDS;
        return None;
      }
      i := i + 1;
    }
    assert IDENTITY_FIELDS[..i] == IDENTITY_FIELDS;
    var current, expected := Configuration(value, b.value, loads), Configuration(value, l.value, loads);
    if current.None? || expected.None? { return None; }
    if !rollback && Read(value, Get(l.value, "modifiedAt")) != Read(value, Get(b.value, "modifiedAt")) { return None; }
    if !rollback && Read(value, Obj(current.value)) != Read(value, Obj(expected.value)) { return None; }
    r := Edited(current.value, expected.value, rollback, routing);
  }

  // ---------- Apply adds nothing else ----------

  lemma {:induction false} PutAddsOnly(f: Fields, file: seq<string>, v: Json, q: seq<string>)
    requires file != [] && q != [] && Passable(f, file[..|file| - 1])
    ensures !(q <= file) && !(file <= q) ==> Value(Put(f, file, v), q) == Value(f, q)
    ensures Value(Put(f, file, v), file) == Some(v)
    ensures q < file ==> Value(Put(f, file, v), q).Some? && Value(Put(f, file, v), q).value.Obj?
    decreases file
  {
    if |file| > 1 {
      assert file[..|file| - 1][1..] == file[1..][..|file| - 2];
      var rest := if |q| > 1 then q[1..] else q;
      PutAddsOnly(Under(f, file[0]), file[1..], v, rest);
      ValueOfEmpty(rest);
    }
  }

  /** Apply stores the file, makes objects on the way to it, and keeps every other path. */
  lemma ApplyAddsOnly(current: Fields, routing: string, after: Fields, q: seq<string>)
    requires Apply(current, routing) == Some(after) && q != []
    ensures !(q <= FILE) && !(FILE <= q) ==> Value(after, q) == Value(current, q)
    ensures Value(after, FILE) == Some(Str(routing))
    ensures q < FILE ==> Value(after, q).Some? && Value(after, q).value.Obj?
  {
    assert FILE[..|FILE| - 1] == CONFIG_PATH;
    PutAddsOnly(current, FILE, Str(routing), q);
  }

  // ---------- Rollback undoes apply ----------

  lemma {:induction false} PutPassable(f: Fields, path: seq<string>, k: string, v: Json)
    requires Passable(f, path)
    ensures At(Put(f, path + [k], v), path) == Some(UnderAll(f, path)[k := v])
    ensures Passable(Put(f, path + [k], v), path)
    decreases path
  {
    if path != [] {
      assert (path + [k])[1..] == path[1..] + [k];
      PutPassable(Under(f, path[0]), path[1..], k, v);
    }
  }

  lemma {:induction false} PrunePut(f: Fields, path: seq<string>, k: string, v: Json)
    requires Passable(f, path) && k !in UnderAll(f, path)
    ensures At(Put(f, path + [k], v), path).Some?
    ensures (path + [k])[..|path|] == path
    ensures Prune(Put(f, path + [k], v), f, path + [k]) == f
    decreases path
  {
    var file := path + [k];
    assert file[..|path|] == path;
    PutPassable(f, path, k, v);
    if path == [] {
      assert f[k := v] - {k} == f;
    } else {
      assert file[1..] == path[1..] + [k];
      PrunePut(Under(f, path[0]), path[1..], k, v);
      PruneUnfolds(Put(f, file, v), f, file);
      if path[0] in f {
        assert f[path[0]] == Obj(Under(f, path[0]));
      } else {
        assert Put(f, file, v) - {path[0]} == f;
      }
    }
  }

  lemma {:induction false} UnderNothing(path: seq<string>)
    ensures UnderAll(map[], path) == map[]
    decreases path
  {
    if path != [] { UnderNothing(path[1..]); }
  }

  /**
    For every baseline whose path meets only objects, applying and rolling back restores
    the baseline exactly when the baseline does not own the file; otherwise rollback refuses.
    */
  lemma RollbackUndoesApply(baseline: Fields, routing: string)
    requires Passable(baseline, CONFIG_PATH) && Apply(baseline, routing).Some?
    ensures Rollback(Apply(baseline, routing).value, baseline, routing)
         == if Owns(baseline) then None else Some(baseline)
  {
    PutPassable(baseline, CONFIG_PATH, EXTRA_FILE, Str(routing));
    if !Owns(baseline) { PrunePut(baseline, CONFIG_PATH, EXTRA_FILE, Str(routing)); }
  }

  // Configurations that compare equal have the same objects along every path.
  lemma {:induction false} ReadAlong(value: Reading, f: Fields, g: Fields, path: seq<string>)
    requires Read(value, Obj(f)) == Read(value, Obj(g))
    ensures Passable(f, path) <==> Passable(g, path)
    ensures At(f, path).Some? <==> At(g, path).Some?
    ensures At(f, path).Some? ==> At(f, path).value.Keys == At(g, path).value.Keys
    decreases path
  {
    SameFields(value, f, g);
    if path != [] { ReadAlong(value, Under(f, path[0]), Under(g, path[0]), path[1..]); }
  }

  lemma SameFields(value: Reading, f: Fields, g: Fields)
    requires Read(value, Obj(f)) == Read(value, Obj(g))
    ensures f.Keys == g.Keys
    ensures forall k <- f :: Read(value, f[k]) == Read(value, g[k])
    ensures forall k <- f :: f[k].Obj? <==> g[k].Obj?
    ensures forall k :: Read(value, Obj(Under(f, k))) == Read(value, Obj(Under(g, k)))
  {
    var x, y := Read(value, Obj(f)), Read(value, Obj(g));
    assert f.Keys == x.fields.Keys && g.Keys == y.fields.Keys;
    assert forall k <- f :: x.fields[k] == Read(value, f[k]) && y.fields[k] == Read(value, g[k]);
  }

  // Pruning depends on the baseline through its keys only.
  lemma {:induction false} PruneReads(value: Reading, f: Fields, b: Fields, c: Fields, file: seq<string>)
    requires file != [] && At(f, file[..|file| - 1]).Some?
    requires Read(value, Obj(b)) == Read(value, Obj(c))
    ensures Prune(f, b, file) == Prune(f, c, file)
    decreases file
  {
    SameFields(value, b, c);
    if |file| > 1 {
      PruneUnfolds(f, b, file);
      PruneUnfolds(f, c, file);
      PruneReads(value, f[file[0]].fields, Under(b, file[0]), Under(c, file[0]), file[1..]);
    }
  }

  lemma RollbackUndoesAlike(value: Reading, original: Fields, baseline: Fields, routing: string)
    requires Read(value, Obj(original)) == Read(value, Obj(baseline)) && Apply(original, routing).Some?
    ensures Rollback(Apply(original, routing).value, baseline, routing)
         == if Owns(baseline) then None else Some(original)
  {
    RollbackUndoesApply(original, routing);
    ReadAlong(value, original, baseline, CONFIG_PATH);
    if !Owns(baseline) {
      assert FILE[..|FILE| - 1] == CONFIG_PATH;
      PruneReads(value, Apply(original, routing).value, original, baseline, FILE);
    }
  }

  /**
    The same through the snapshots: apply goes by a configuration that compares equal to
    the baseline's, and rollback gives that very configuration back, whatever else of the
    addon has changed in between.
    */
  lemma PreparedRollback(
    value: Reading, before: Json, after: Json, baseline: Json, routing: string, loads: string -> Option<Json>)
    requires Prepared(value, before, baseline, false, routing, loads).Some?
    requires Addon(after).Some? && SameTarget(value, Addon(after).value, Addon(baseline).value)
    requires Configuration(value, Addon(after).value, loads) == Prepared(value, before, baseline, false, routing, loads)
    ensures var original := Configuration(value, Addon(before).value, loads);
      var pinned := Configuration(value, Addon(baseline).value, loads);
      && original.Some? && pinned.Some? && Read(value, Obj(original.value)) == Read(value, Obj(pinned.value))
      && Prepared(value, after, baseline, true, routing, loads) == if Owns(pinned.value) then None else original
  {
    var original := Configuration(value, Addon(before).value, loads);
    RollbackUndoesAlike(value, original.value, Configuration(value, Addon(baseline).value, loads).value, routing);
  }

  // ---------- Rollback removes nothing else ----------

  lemma {:induction false} PruneElsewhere(f: Fields, baseline: Fields, file: seq<string>, q: seq<string>)
    requires file != [] && At(f, file[..|file| - 1]).Some?
    requires q != [] && !(q <= file) && !(file <= q)
    ensures Value(Prune(f, baseline, file), q) == Value(f, q)
    decreases file
  {
    if |file| > 1 {
      PruneUnfolds(f, baseline, file);
      if q[0] == file[0] {
        PruneElsewhere(f[file[0]].fields, Under(baseline, file[0]), file[1..], q[1..]);
        ValueOfEmpty(q[1..]);
      }
    }
  }

  lemma ValueOfEmpty(q: seq<string>)
    requires q != []
    ensures Value(map[], q) == None
  {
  }

  lemma {:induction false} PruneRemovesFile(f: Fields, baseline: Fields, file: seq<string>)
    requires file != [] && At(f, file[..|file| - 1]).Some?
    ensures Value(Prune(f, baseline, file), file) == None
    decreases file
  {
    if |file| > 1 {
      PruneUnfolds(f, baseline, file);
      PruneRemovesFile(f[file[0]].fields, Under(baseline, file[0]), file[1..]);
    }
  }

  // The object at the first `depth` keys holds something besides the way to the file.
  predicate HoldsMore(f: Fields, file: seq<string>, depth: nat)
    requires depth < |file|
  {
    exists k <- UnderAll(f, file[..depth]) :: k != file[depth]
  }

  // A reason to keep the object at the first `depth` keys: it, or one below it on the way
  // to the file, is in the baseline or holds something else.
  predicate Needed(f: Fields, baseline: Fields, file: seq<string>, depth: nat)
    requires 0 < depth < |file|
  {
    exists m :: depth <= m < |file| && (Value(baseline, file[..m]).Some? || HoldsMore(f, file, m))
  }

  lemma NeededShifts(f: Fields, baseline: Fields, file: seq<string>, depth: nat)
    requires 1 < depth < |file| && file[0] in f
    ensures Needed(f, baseline, file, depth)
       <==> Needed(Under(f, file[0]), Under(baseline, file[0]), file[1..], depth - 1)
  {
    var x, b, rest := Under(f, file[0]), Under(baseline, file[0]), file[1..];
    forall m | 1 < m < |file|
      ensures Value(baseline, file[..m]) == Value(b, rest[..m - 1])
      ensures HoldsMore(f, file, m) <==> HoldsMore(x, rest, m - 1)
    {
      assert file[..m][1..] == rest[..m - 1] && file[m] == rest[m - 1];
      assert UnderAll(f, file[..m]) == UnderAll(x, rest[..m - 1]);
      ValueOfEmpty(rest[..m - 1]);
    }
    if Needed(x, b, rest, depth - 1) {
      var m :| depth - 1 <= m < |rest| && (Value(b, rest[..m]).Some? || HoldsMore(x, rest, m));
      assert Value(baseline, file[..m + 1]).Some? || HoldsMore(f, file, m + 1);
    }
    if Needed(f, baseline, file, depth) {
      var m :| depth <= m < |file| && (Value(baseline, file[..m]).Some? || HoldsMore(f, file, m));
      assert Value(b, rest[..m - 1]).Some? || HoldsMore(x, rest, m - 1);
    }
  }

  lemma {:induction false} PruneContainer(f: Fields, baseline: Fields, file: seq<string>, depth: nat)
    requires 0 < depth < |file| && At(f, file[..|file| - 1]).Some?
    ensures Value(Prune(f, baseline, file), file[..depth]).Some? <==> Needed(f, baseline, file, depth)
    ensures Needed(f, baseline, file, depth) ==> Value(Prune(f, baseline, file), file[..depth]).value.Obj?
    decreases file
  {
    PruneUnfolds(f, baseline, file);
    var x, b, rest := f[file[0]].fields, Under(baseline, file[0]), file[1..];
    var child := Prune(x, b, rest);
    if depth > 1 {
      NeededShifts(f, baseline, file, depth);
      PruneContainer(x, b, rest, depth - 1);
      assert file[..depth][1..] == rest[..depth - 1];
      ValueOfEmpty(rest[..depth - 1]);
    } else {
      assert file[..1] == [file[0]];
      if |file| > 2 {
        NeededShifts(f, baseline, file, 2);
        PruneContainer(x, b, rest, 1);
      }
      PruneEmpties(x, b, rest);
      NeededHere(f, baseline, file);
    }
  }

  // When the object that held the way to the file ends up empty.
  lemma PruneEmpties(x: Fields, b: Fields, rest: seq<string>)
    requires rest != [] && At(x, rest[..|rest| - 1]).Some?
    ensures Prune(x, b, rest) == map[] <==>
      (forall k <- x :: k == rest[0]) && (|rest| > 1 ==> Value(Prune(x, b, rest), rest[..1]).None?)
  {
    var p, k := Prune(x, b, rest), rest[0];
    assert rest[..1] == [k];
    if |rest| > 1 { PruneUnfolds(x, b, rest); }
    assert p - {k} == x - {k};
    assert k in p ==> p != map[];
    var y := x - {k};
    assert y.Keys == x.Keys - {k};
    assert y == map[] <==> y.Keys == {};
    assert (forall o <- x :: o == k) ==> y.Keys == {};
    assert forall o <- x :: o != k ==> o in y;
    assert k !in p ==> p == p - {k};
  }

  lemma NeededHere(f: Fields, baseline: Fields, file: seq<string>)
    requires |file| > 1 && file[0] in f && f[file[0]].Obj?
    ensures Needed(f, baseline, file, 1) <==>
      || file[0] in baseline
      || (exists k <- f[file[0]].fields :: k != file[1])
      || (|file| > 2 && Needed(f, baseline, file, 2))
  {
    assert file[..1] == [file[0]] && file[..1][1..] == [];
    assert UnderAll(f, file[..1]) == f[file[0]].fields;
    assert HoldsMore(f, file, 1) <==> exists k <- f[file[0]].fields :: k != file[1];
    assert Value(baseline, file[..1]).Some? <==> file[0] in baseline;
    assert Needed(f, baseline, file, 1) <==>
      Value(baseline, file[..1]).Some? || HoldsMore(f, file, 1) || (|file| > 2 && Needed(f, baseline, file, 2));
  }

  lemma PruneRemovesOnly(f: Fields, baseline: Fields, file: seq<string>, q: seq<string>)
    requires file != [] && At(f, file[..|file| - 1]).Some? && q != []
    ensures var after := Prune(f, baseline, file);
      && (!(q <= file) && !(file <= q) ==> Value(after, q) == Value(f, q))
      && Value(after, file) == None
      && (q < file ==> (Value(after, q).Some? <==> Needed(f, baseline, file, |q|)))
      && (q < file && Value(after, q).Some? ==> Value(after, q).value.Obj?)
  {
    PruneRemovesFile(f, baseline, file);
    if !(q <= file) && !(file <= q) { PruneElsewhere(f, baseline, file, q); }
    if q < file {
      assert q == file[..|q|];
      PruneContainer(f, baseline, file, |q|);
    }
  }

  /**
    Rollback of any configuration that holds the file takes out the file, and of the
    objects on the way to it exactly those that the baseline does not have, nor anything
    below them on the way, and that hold nothing else; every other path keeps its value.
    */
  lemma RollbackRemovesOnly(current: Fields, baseline: Fields, routing: string, after: Fields, q: seq<string>)
    requires Rollback(current, baseline, routing) == Some(after) && q != []
    ensures !(q <= FILE) && !(FILE <= q) ==> Value(after, q) == Value(current, q)
    ensures Value(after, FILE) == None
    ensures q < FILE ==> (Value(after, q).Some? <==> Needed(current, baseline, FILE, |q|))
    ensures q < FILE && Value(after, q).Some? ==> Value(after, q).value.Obj?
  {
    PruneRemovesOnly(current, baseline, FILE, q);
  }
}
