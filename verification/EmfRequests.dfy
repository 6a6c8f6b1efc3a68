/**
  Which apply and rollback requests of EmfAddon are granted, read off the two snapshots.
  */
module EmfRequests {
  import opened Options
  import opened JsonText
  import opened PythonValues
  import opened EmfAddon

  /** The snapshot's addon record, if it has one. */
  ghost predicate AddonIs(snapshot: Json, addon: Fields) {
    snapshot.Obj? && "addon" in snapshot.fields && snapshot.fields["addon"] == Obj(addon)
  }

  predicate Empty(value: Reading, j: Json) {
    j == Null || j == Bool(false) || j == Str("") || j == Arr([]) || j == Obj(map[])
    || (j.Num? && value(j.digits) == 0.0)
  }

  /** A field that is there, is not empty, and compares equal in both records. */
  predicate Agreed(value: Reading, a: Fields, b: Fields, field: string) {
    field in a && !Empty(value, a[field]) && field in b && Read(value, a[field]) == Read(value, b[field])
  }

  /** The record is of the observability addon, and this is its configuration: nothing when
      the text is missing or empty, and else the decoded object. */
  ghost predicate Configures(value: Reading, addon: Fields, loads: string -> Option<Json>, c: Fields) {
    && "addonName" in addon && addon["addonName"] == Str("amazon-cloudwatch-observability")
    && if "configurationValues" !in addon || Empty(value, addon["configurationValues"]) then c == map[]
       else addon["configurationValues"].Str? && loads(addon["configurationValues"].text) == Some(Obj(c))
  }

  /** The value of a field, where an absent one and null are the same. */
  predicate SameOptional(value: Reading, a: Fields, b: Fields, field: string) {
    Read(value, if field in a then a[field] else Null) == Read(value, if field in b then b[field] else Null)
  }

  lemma EmptyExactly(value: Reading, j: Json)
    ensures Empty(value, j) <==> !Truthy(value, j)
  {
  }

  lemma ConfiguresExactly(value: Reading, addon: Fields, loads: string -> Option<Json>, c: Fields)
    ensures Configuration(value, addon, loads) == Some(c) <==> Configures(value, addon, loads, c)
  {
    EmptyExactly(value, Get(addon, "configurationValues"));
  }

  lemma AgreedExactly(value: Reading, a: Fields, b: Fields, field: string)
    ensures SameField(value, a, b, field) <==> Agreed(value, a, b, field)
  {
    EmptyExactly(value, Get(a, field));
    assert Get(a, field) != Null ==> Read(value, Get(a, field)) != PyNull;
  }

  lemma TargetExactly(value: Reading, a: Fields, b: Fields)
    ensures SameTarget(value, a, b) <==>
      && Agreed(value, a, b, "clusterName") && Agreed(value, a, b, "addonName")
      && Agreed(value, a, b, "addonVersion") && Agreed(value, a, b, "serviceAccountRoleArn")
  {
    AgreedExactly(value, a, b, "clusterName");
    AgreedExactly(value, a, b, "addonName");
    AgreedExactly(value, a, b, "addonVersion");
    AgreedExactly(value, a, b, "serviceAccountRoleArn");
    assert forall field :: field in IDENTITY_FIELDS <==>
      field == IDENTITY_FIELDS[0] || field == IDENTITY_FIELDS[1] || field == IDENTITY_FIELDS[2] || field == IDENTITY_FIELDS[3];
  }

  /** What both snapshots must show for a request to get as far as the edit. */
  ghost predicate Comparable(value: Reading, before: Json, baseline: Json, rollback: bool, loads: string -> Option<Json>,
                             b: Fields, l: Fields, current: Fields, expected: Fields) {
    && AddonIs(before, b) && AddonIs(baseline, l)
    && Agreed(value, b, l, "clusterName") && Agreed(value, b, l, "addonName")
    && Agreed(value, b, l, "addonVersion") && Agreed(value, b, l, "serviceAccountRoleArn")
    && Configures(value, b, loads, current) && Configures(value, l, loads, expected)
    && (!rollback ==> SameOptional(value, b, l, "modifiedAt") && Read(value, Obj(current)) == Read(value, Obj(expected)))
  }

  lemma Grants(value: Reading, before: Json, baseline: Json, rollback: bool, routing: string,
               loads: string -> Option<Json>, b: Fields, l: Fields, current: Fields, expected: Fields)
    requires Comparable(value, before, baseline, rollback, loads, b, l, current, expected)
    ensures Prepared(value, before, baseline, rollback, routing, loads)
         == if rollback then Rollback(current, expected, routing) else Apply(current, routing)
  {
    TargetExactly(value, b, l);
    ConfiguresExactly(value, b, loads, current);
    ConfiguresExactly(value, l, loads, expected);
  }

  lemma Granted(value: Reading, before: Json, baseline: Json, rollback: bool, routing: string,
                loads: string -> Option<Json>) returns (b: Fields, l: Fields, current: Fields, expected: Fields)
    requires Prepared(value, before, baseline, rollback, routing, loads).Some?
    ensures Comparable(value, before, baseline, rollback, loads, b, l, current, expected)
  {
    b, l := Addon(before).value, Addon(baseline).value;
    current, expected := Configuration(value, b, loads).value, Configuration(value, l, loads).value;
    TargetExactly(value, b, l);
    ConfiguresExactly(value, b, loads, current);
    ConfiguresExactly(value, l, loads, expected);
  }

  /** A request gives a configuration exactly when both snapshots are of one pinned addon,
      an apply finds it unchanged, and the edit of the decoded configuration goes through. */
  lemma PreparedExactly(value: Reading, before: Json, baseline: Json, rollback: bool, routing: string,
                        loads: string -> Option<Json>, after: Fields)
    ensures Prepared(value, before, baseline, rollback, routing, loads) == Some(after) <==>
      exists b, l, current, expected ::
        && Comparable(value, before, baseline, rollback, loads, b, l, current, expected)
        && (if rollback then Rollback(current, expected, routing) else Apply(current, routing)) == Some(after)
  {
    if Prepared(value, before, baseline, rollback, routing, loads) == Some(after) {
      var b, l, current, expected := Granted(value, before, baseline, rollback, routing, loads);
      Grants(value, before, baseline, rollback, routing, loads, b, l, current, expected);
    }
    forall b, l, current, expected | Comparable(value, before, baseline, rollback, loads, b, l, current, expected)
      ensures Prepared(value, before, baseline, rollback, routing, loads)
           == if rollback then Rollback(current, expected, routing) else Apply(current, routing)
    {
      Grants(value, before, baseline, rollback, routing, loads, b, l, current, expected);
    }
  }

  /** An apply goes through exactly when the way to the file meets only objects, and the file
      is not there or is the routing text. */
  lemma ApplyExactly(current: Fields, routing: string)
    ensures Apply(current, routing).Some? <==>
      && Passable(current, ["containerLogs", "fluentBit", "config", "extraFiles"])
      && var file := Value(current, ["containerLogs", "fluentBit", "config", "extraFiles", "gateway-emf.conf"]);
         file.None? || file == Some(Str(routing))
  {
    assert FILE[..|FILE| - 1] == CONFIG_PATH;
    ValueUnder(current, CONFIG_PATH, EXTRA_FILE);
  }

  /** A rollback goes through exactly when both ways meet only objects, the baseline has no
      such file, and the file is the routing text. */
  lemma RollbackExactly(current: Fields, baseline: Fields, routing: string)
    ensures var way := ["containerLogs", "fluentBit", "config", "extraFiles"];
      Rollback(current, baseline, routing).Some? <==>
        && Passable(current, way) && Passable(baseline, way)
        && Value(baseline, way + ["gateway-emf.conf"]).None?
        && Value(current, way + ["gateway-emf.conf"]) == Some(Str(routing))
  {
    ValueUnder(current, CONFIG_PATH, EXTRA_FILE);
    ValueUnder(baseline, CONFIG_PATH, EXTRA_FILE);
    if Passable(current, CONFIG_PATH) { FilesUnder(current, CONFIG_PATH); }
    if Passable(baseline, CONFIG_PATH) { FilesUnder(baseline, CONFIG_PATH); }
  }

  lemma {:induction false} FilesUnder(f: Fields, path: seq<string>)
    requires Passable(f, path)
    ensures At(f, path).None? ==> UnderAll(f, path) == map[]
    ensures At(f, path).Some? ==> At(f, path).value == UnderAll(f, path)
    decreases path
  {
    if path != [] {
      if path[0] in f { FilesUnder(Under(f, path[0]), path[1..]); } else { UnderNothing(path[1..]); }
    }
  }

  lemma {:induction false} ValueUnder(f: Fields, path: seq<string>, k: string)
    ensures Value(f, path + [k]) == (var files := UnderAll(f, path); if k in files then Some(files[k]) else None)
    decreases path
  {
    if path != [] {
      assert (path + [k])[1..] == path[1..] + [k];
      ValueUnder(Under(f, path[0]), path[1..], k);
    }
  }
}
