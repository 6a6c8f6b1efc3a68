/**
  What a policy accepted by the guard of IamGuard means. In every case the statements are
  the permitted ones up to the order of lists and the value of numbers; when no two
  different numbers or booleans of the documents have one value, exactly up to the order
  of lists.
  */
module IamMeaning {
  import opened Options
  import opened JsonText
  import opened Sequences
  import opened Keyed
  import opened Rearrangement
  import opened Sorting
  import opened Canonical
  import opened PythonValues
  import opened IamGuard

  // ---------- In every case ----------

  lemma AddsOnlyAlike(value: Reading, olds: seq<Json>, news: seq<Json>, expected: Json)
    requires AddsOnly(SidKey(value), NormalReading(value), olds, news, expected)
    ensures Alike(value, Arr(news), Arr(Target(SidKey(value), olds, expected)))
  {
    var target := Target(SidKey(value), olds, expected);
    var p := RearrangementOf(Apply(news, NormalReading(value)), Apply(target, NormalReading(value)));
    forall i | 0 <= i < |news| ensures Alike(value, news[i], target[p[i]]) {
      assert Apply(news, NormalReading(value))[i] == Apply(target, NormalReading(value))[p[i]];
      SameNormalIsAlike(value, news[i], target[p[i]]);
    }
  }

  /** An accepted policy has the permitted statements, up to the order of lists and the
      value of numbers at every depth. */
  lemma AcceptedAlike(value: Reading, before: Fields, after: Fields, loads: string -> Option<Json>)
    requires CheckIam(value, before, after, loads) == Accepted
    ensures var was, now := Policy(before, loads), Policy(after, loads);
      && was.Some? && now.Some?
      && var olds, news := Statements(was.value), Statements(now.value);
      && olds.Some? && news.Some?
      && Alike(value, Arr(news.value), Arr(Target(SidKey(value), olds.value, Expected())))
  {
    AcceptedExactly(value, before, after, loads);
    var was, now := Policy(before, loads), Policy(after, loads);
    var olds, news := Statements(was.value), Statements(now.value);
    AddsOnlyAlike(value, olds.value, news.value, Expected());
  }

  lemma AlikeString(value: Reading, a: Json, text: string)
    ensures Alike(value, a, Str(text)) ==> a == Str(text)
  {
  }

  lemma AlikeStrings(value: Reading, a: Json, text: string)
    ensures Alike(value, a, Arr([Str(text)])) ==> a == Arr([Str(text)])
  {
    if Alike(value, a, Arr([Str(text)])) {
      var items := a.items;
      var p :| Rearranges(p, 1) && forall i :: 0 <= i < 1 ==> Alike(value, items[i], [Str(text)][p[i]]);
      assert Alike(value, items[0], [Str(text)][p[0]]) && p[0] == 0;
      AlikeString(value, items[0], text);
    }
  }

  lemma AlikeFields(value: Reading, a: Json, fields: map<string, Json>)
    requires Alike(value, a, Obj(fields))
    ensures a.Obj? && a.fields.Keys == fields.Keys && forall k <- fields :: Alike(value, a.fields[k], fields[k])
  {
  }

  /** What is alike the signing key statement is that statement, field by field. */
  lemma OnlySigning(value: Reading, a: Json)
    requires Alike(value, a, Expected())
    ensures a == Obj(map[
      "Sid" := Str("ReadRunReportSigningMaterial"),
      "Effect" := Str("Allow"),
      "Action" := Arr([Str("ssm:GetParameter")]),
      "Resource" := Arr([Str("arn:aws:ssm:us-east-1:879318057152:parameter/adp/dev/gateway/run-report-signing-key")])])
  {
    AlikeFields(value, a, Expected().fields);
    AlikeString(value, a.fields["Sid"], SIGNING);
    AlikeString(value, a.fields["Effect"], "Allow");
    AlikeStrings(value, a.fields["Action"], "ssm:GetParameter");
    AlikeStrings(value, a.fields["Resource"], KEY_ARN);
  }

  lemma SigningAmong(value: Reading, olds: seq<Json>, expected: Json)
    requires forall s <- olds :: SidKey(value)(s) == SidKey(value)(expected) ==>
      NormalReading(value)(s) == NormalReading(value)(expected)
    ensures exists t <- Target(SidKey(value), olds, expected) :: NormalReading(value)(t) == NormalReading(value)(expected)
  {
    if !Has(SidKey(value), olds, SidKey(value)(expected)) {
      assert (olds + [expected])[|olds|] == expected;
      assert expected in Target(SidKey(value), olds, expected);
    }
  }

  lemma SigningFound(normal: Json -> Py, news: seq<Json>, target: seq<Json>, expected: Json)
    requires multiset(Apply(news, normal)) == multiset(Apply(target, normal))
    requires exists t <- target :: normal(t) == normal(expected)
    ensures exists s <- news :: normal(s) == normal(expected)
  {
    var t :| t in target && normal(t) == normal(expected);
    var i :| 0 <= i < |target| && target[i] == t;
    assert Apply(target, normal)[i] in multiset(Apply(news, normal));
    var j :| 0 <= j < |news| && Apply(news, normal)[j] == Apply(target, normal)[i];
    assert normal(news[j]) == normal(expected);
  }

  /** Every accepted policy has the statement that allows reading the one signing key
      parameter, exactly. */
  lemma AcceptedSigns(value: Reading, before: Fields, after: Fields, loads: string -> Option<Json>)
    requires CheckIam(value, before, after, loads) == Accepted
    ensures var now := Policy(after, loads);
      now.Some? && Statements(now.value).Some? &&
      Obj(map[
        "Sid" := Str("ReadRunReportSigningMaterial"),
        "Effect" := Str("Allow"),
        "Action" := Arr([Str("ssm:GetParameter")]),
        "Resource" := Arr([Str("arn:aws:ssm:us-east-1:879318057152:parameter/adp/dev/gateway/run-report-signing-key")])])
      in Statements(now.value).value
  {
    AcceptedExactly(value, before, after, loads);
    var olds, news := Statements(Policy(before, loads).value).value, Statements(Policy(after, loads).value).value;
    SigningAmong(value, olds, Expected());
    SigningFound(NormalReading(value), news, Target(SidKey(value), olds, Expected()), Expected());
    var s :| s in news && NormalReading(value)(s) == NormalReading(value)(Expected());
    SameNormalIsAlike(value, s, Expected());
    OnlySigning(value, s);
  }

  // ---------- When no two scalars have one value ----------

  function PlainSid(s: Json): Json {
    if Identified(s) then Sid(s) else Null
  }

  predicate Within(items: seq<Json>, scalars: set<Json>) {
    forall s <- items :: Scalars(s) <= scalars
  }

  function PlainTarget(olds: seq<Json>, expected: Json): seq<Json> {
    if exists s <- olds :: PlainSid(s) == PlainSid(expected) then olds else olds + [expected]
  }

  /** The new statements are the old ones and the expected one, up to the order of lists. */
  ghost predicate PlainlyAdds(olds: seq<Json>, news: seq<Json>, expected: Json) {
    && Equiv(Arr(news), Arr(PlainTarget(olds, expected)))
    && forall s <- olds :: PlainSid(s) == PlainSid(expected) ==> Equiv(s, expected)
  }

  lemma SidApart(value: Reading, scalars: set<Json>, s: Json, t: Json)
    requires Apart(value, scalars) && Scalars(s) <= scalars && Scalars(t) <= scalars
    requires Identified(s) && Identified(t)
    ensures SidKey(value)(s) == SidKey(value)(t) <==> PlainSid(s) == PlainSid(t)
  {
    FieldScalars(s, "Sid");
    FieldScalars(t, "Sid");
    if SidKey(value)(s) == SidKey(value)(t) { ReadInjective(value, scalars, Sid(s), Sid(t)); }
  }

  lemma ItemsApart(value: Reading, scalars: set<Json>, s: seq<Json>, t: seq<Json>)
    requires Apart(value, scalars) && Within(s, scalars) && Within(t, scalars)
    ensures multiset(Apply(s, NormalReading(value))) == multiset(Apply(t, NormalReading(value)))
       <==> Equiv(Arr(s), Arr(t))
  {
    var normal := NormalReading(value);
    if multiset(Apply(s, normal)) == multiset(Apply(t, normal)) {
      var p := RearrangementOf(Apply(s, normal), Apply(t, normal));
      forall i | 0 <= i < |s| ensures Equiv(s[i], t[p[i]]) {
        assert Apply(s, normal)[i] == Apply(t, normal)[p[i]];
        ApartSameNormal(value, scalars, s[i], t[p[i]]);
      }
    }
    if Equiv(Arr(s), Arr(t)) {
      var p :| Rearranges(p, |s|) && forall i :: 0 <= i < |s| ==> Equiv(s[i], t[p[i]]);
      forall i | 0 <= i < |s| ensures Apply(s, normal)[i] == Apply(t, normal)[p[i]] {
        ApartSameNormal(value, scalars, s[i], t[p[i]]);
      }
      RearrangedSame(Apply(s, normal), Apply(t, normal), p);
    }
  }

  lemma DistinctApart(value: Reading, scalars: set<Json>, s: seq<Json>)
    requires Apart(value, scalars) && Within(s, scalars) && AllIdentified(s)
    ensures Distinct(s, SidKey(value)) <==> Distinct(s, PlainSid)
  {
    forall i, j | 0 <= i < j < |s|
      ensures SidKey(value)(s[i]) == SidKey(value)(s[j]) <==> PlainSid(s[i]) == PlainSid(s[j])
    {
      SidApart(value, scalars, s[i], s[j]);
    }
  }

  lemma TargetApart(value: Reading, scalars: set<Json>, olds: seq<Json>, expected: Json)
    requires Apart(value, scalars) && Within(olds, scalars) && Scalars(expected) <= scalars
    requires AllIdentified(olds) && Identified(expected)
    ensures Target(SidKey(value), olds, expected) == PlainTarget(olds, expected)
    ensures forall s <- olds :: SidKey(value)(s) == SidKey(value)(expected) <==> PlainSid(s) == PlainSid(expected)
  {
    forall s | s in olds
      ensures SidKey(value)(s) == SidKey(value)(expected) <==> PlainSid(s) == PlainSid(expected)
    {
      SidApart(value, scalars, s, expected);
    }
  }

  lemma SameApart(value: Reading, scalars: set<Json>, items: seq<Json>, expected: Json)
    requires Apart(value, scalars) && Within(items, scalars) && Scalars(expected) <= scalars
    ensures forall s <- items :: NormalReading(value)(s) == NormalReading(value)(expected) <==> Equiv(s, expected)
  {
    forall s | s in items ensures NormalReading(value)(s) == NormalReading(value)(expected) <==> Equiv(s, expected) {
      ApartSameNormal(value, scalars, s, expected);
    }
  }

  lemma AddsOnlyApart(value: Reading, scalars: set<Json>, olds: seq<Json>, news: seq<Json>, expected: Json)
    requires Apart(value, scalars) && Within(olds, scalars) && Within(news, scalars) && Scalars(expected) <= scalars
    requires AllIdentified(olds) && Identified(expected)
    ensures AddsOnly(SidKey(value), NormalReading(value), olds, news, expected) <==> PlainlyAdds(olds, news, expected)
  {
    TargetApart(value, scalars, olds, expected);
    SameApart(value, scalars, olds, expected);
    ItemsApart(value, scalars, news, PlainTarget(olds, expected));
  }

  lemma ReadApart(value: Reading, scalars: set<Json>, a: Fields, b: Fields, allowed: set<string>)
    requires Apart(value, scalars) && Scalars(Obj(a)) <= scalars && Scalars(Obj(b)) <= scalars
    ensures Unchanged(value, a, b, allowed) <==> a - allowed == b - allowed
  {
    var x, y := Obj(a - allowed), Obj(b - allowed);
    assert Scalars(x) <= Scalars(Obj(a)) && Scalars(y) <= Scalars(Obj(b));
    if Read(value, x) == Read(value, y) { ReadInjective(value, scalars, x, y); }
  }

  lemma StatementsWithin(document: Fields, scalars: set<Json>)
    requires Statements(document).Some? && Scalars(Obj(document)) <= scalars
    ensures Within(Statements(document).value, scalars)
  {
    var items := Statements(document).value;
    if document["Statement"].Arr? {
      FieldScalars(Obj(document), "Statement");
      forall i | 0 <= i < |items| ensures Scalars(items[i]) <= scalars {
        ItemScalars(document["Statement"], i);
      }
    }
  }

  ghost predicate PlainlyPermitted(was: Fields, now: Fields, expected: Json) {
    && was - {"Statement"} == now - {"Statement"}
    && var olds, news := Statements(was), Statements(now);
    && olds.Some? && news.Some?
    && Distinct(olds.value, PlainSid) && Distinct(news.value, PlainSid)
    && PlainlyAdds(olds.value, news.value, expected)
  }

  lemma DocumentsApart(value: Reading, scalars: set<Json>, was: Fields, now: Fields, expected: Json)
    requires Apart(value, scalars) && Scalars(Obj(was)) <= scalars && Scalars(Obj(now)) <= scalars
    requires Identified(expected) && Scalars(expected) <= scalars
    ensures PermittedDocuments(value, was, now, expected) <==> PlainlyPermitted(was, now, expected)
  {
    ReadApart(value, scalars, was, now, {"Statement"});
    var olds, news := Statements(was), Statements(now);
    if olds.Some? && news.Some? {
      StatementsWithin(was, scalars);
      StatementsWithin(now, scalars);
      DistinctApart(value, scalars, olds.value);
      DistinctApart(value, scalars, news.value);
      AddsOnlyApart(value, scalars, olds.value, news.value, expected);
    }
  }

  /** The documents of a plan have no other booleans and numbers. */
  predicate Covers(scalars: set<Json>, before: Fields, after: Fields, loads: string -> Option<Json>) {
    && Scalars(Obj(before)) <= scalars && Scalars(Obj(after)) <= scalars
    && (Policy(before, loads).Some? ==> Scalars(Obj(Policy(before, loads).value)) <= scalars)
    && (Policy(after, loads).Some? ==> Scalars(Obj(Policy(after, loads).value)) <= scalars)
  }

  lemma ExpectedIsPlain()
    ensures Identified(Expected()) && Scalars(Expected()) == {}
  {
  }

  /**
    When no two different booleans or numbers of the documents have one value, a plan is
    accepted exactly when nothing but the policy, and in it nothing but the statements,
    differs, no Sid is used twice, and up to the order of lists at every depth the new
    statements are the old ones and the one signing key statement.
    */
  lemma AcceptedExactlyApart(
    value: Reading, scalars: set<Json>, before: Fields, after: Fields, loads: string -> Option<Json>)
    requires Apart(value, scalars) && Covers(scalars, before, after, loads)
    ensures CheckIam(value, before, after, loads) == Accepted <==>
      && before - {"policy"} == after - {"policy"}
      && var was, now := Policy(before, loads), Policy(after, loads);
      && was.Some? && now.Some?
      && PlainlyPermitted(was.value, now.value, Expected())
  {
    AcceptedExactly(value, before, after, loads);
    ReadApart(value, scalars, before, after, {"policy"});
    ExpectedIsPlain();
    var was, now := Policy(before, loads), Policy(after, loads);
    if was.Some? && now.Some? { DocumentsApart(value, scalars, was.value, now.value, Expected()); }
  }

  // ---------- When two scalars have one value ----------

  lemma PairRead(normal: Json -> Py, s: Json, t: Json, x: Json)
    requires normal(s) == normal(t)
    ensures multiset(Apply([s, x], normal)) == multiset(Apply([t, x], normal))
  {
    assert Apply([s, x], normal) == [normal(s), normal(x)] == Apply([t, x], normal);
  }

  lemma PairDistinct(key: Json -> Py, s: Json, x: Json)
    requires key(s) != key(x)
    ensures Distinct([s, x], key)
    ensures exists y <- [s, x] :: key(y) == key(x)
    ensures forall y <- [s, x] :: key(y) == key(x) ==> y == x
  {
    assert [s, x][1] == x;
  }

  lemma SameReadingsAdd(key: Json -> Py, normal: Json -> Py, s: Json, t: Json, expected: Json)
    requires key(s) == key(t) != key(expected) && normal(s) == normal(t)
    ensures Distinct([s, expected], key) && Distinct([t, expected], key)
    ensures AddsOnly(key, normal, [s, expected], [t, expected], expected)
  {
    PairDistinct(key, s, expected);
    PairDistinct(key, t, expected);
    PairRead(normal, s, t, expected);
  }

  function Flagged(flag: Json): Json {
    Obj(map["Sid" := Str("A"), "Flag" := flag])
  }

  function PolicyOf(statements: seq<Json>): Fields {
    map["Statement" := Arr(statements)]
  }

  function PlanOf(text: string): Fields {
    map["policy" := Str(text)]
  }

  lemma FlaggedReads(value: Reading, flag: Json)
    requires IsScalar(flag)
    ensures Read(value, Normalize(Flagged(flag))) == PyObj(map["Sid" := PyStr("A"), "Flag" := Read(value, flag)])
  {
    assert Normalize(Flagged(flag)) == Flagged(flag);
  }

  lemma FlaggedDiffer(x: Json, y: Json)
    requires IsScalar(x) && IsScalar(y) && x != y
    ensures !Equiv(Flagged(x), Flagged(y))
  {
    assert "Flag" in Flagged(x).fields && !Equiv(Flagged(x).fields["Flag"], Flagged(y).fields["Flag"]);
  }

  lemma OnlyStatements(items: seq<Json>)
    requires AllIdentified(items)
    ensures Statements(PolicyOf(items)) == Some(items) && PolicyOf(items) - {"Statement"} == map[]
  {
  }

  lemma OnlyPolicy(text: string, loads: string -> Option<Json>, fields: Fields)
    requires loads(text) == Some(Obj(fields))
    ensures Policy(PlanOf(text), loads) == Some(fields) && PlanOf(text) - {"policy"} == map[]
  {
  }

  lemma DocumentsPermitted(value: Reading, olds: seq<Json>, news: seq<Json>, expected: Json)
    requires AllIdentified(olds) && AllIdentified(news)
    requires Distinct(olds, SidKey(value)) && Distinct(news, SidKey(value))
    requires AddsOnly(SidKey(value), NormalReading(value), olds, news, expected)
    ensures PermittedDocuments(value, PolicyOf(olds), PolicyOf(news), expected)
  {
    OnlyStatements(olds);
    OnlyStatements(news);
  }

  lemma PlanPermitted(
    value: Reading, olds: seq<Json>, news: seq<Json>, expected: Json,
    was: string, now: string, loads: string -> Option<Json>)
    requires PermittedDocuments(value, PolicyOf(olds), PolicyOf(news), expected)
    requires loads(was) == Some(Obj(PolicyOf(olds))) && loads(now) == Some(Obj(PolicyOf(news)))
    ensures Permitted(value, PlanOf(was), PlanOf(now), loads, expected)
  {
    OnlyPolicy(was, loads, PolicyOf(olds));
    OnlyPolicy(now, loads, PolicyOf(news));
  }

  lemma PairIdentified(s: Json, t: Json)
    requires Identified(s) && Identified(t)
    ensures AllIdentified([s, t])
  {
  }

  lemma SameReadingsAccepted(
    value: Reading, s: Json, t: Json, expected: Json, was: string, now: string, loads: string -> Option<Json>)
    requires Identified(s) && Identified(t) && Identified(expected) && expected == Expected()
    requires SidKey(value)(s) == SidKey(value)(t) != SidKey(value)(expected)
    requires NormalReading(value)(s) == NormalReading(value)(t)
    requires loads(was) == Some(Obj(PolicyOf([s, expected]))) && loads(now) == Some(Obj(PolicyOf([t, expected])))
    ensures CheckIam(value, PlanOf(was), PlanOf(now), loads) == Accepted
  {
    var olds, news := [s, expected], [t, expected];
    PairIdentified(s, expected);
    PairIdentified(t, expected);
    SameReadingsAdd(SidKey(value), NormalReading(value), s, t, expected);
    DocumentsPermitted(value, olds, news, expected);
    PlanPermitted(value, olds, news, expected, was, now, loads);
    CheckedExactly(value, PlanOf(was), PlanOf(now), loads, expected);
  }

  lemma FlaggedSid(value: Reading, flag: Json)
    ensures Identified(Flagged(flag)) && Identified(Expected())
    ensures SidKey(value)(Flagged(flag)) == PyStr("A") && SidKey(value)(Expected()) != PyStr("A")
  {
    assert SIGNING[0] == 'R';
  }

  lemma FlagTurned(
    value: Reading, x: Json, y: Json, expected: Json, before: string, after: string, loads: string -> Option<Json>)
    requires IsScalar(x) && IsScalar(y) && Read(value, x) == Read(value, y) && expected == Expected()
    requires loads(before) == Some(Obj(PolicyOf([Flagged(x), expected])))
    requires loads(after) == Some(Obj(PolicyOf([Flagged(y), expected])))
    ensures CheckIam(value, PlanOf(before), PlanOf(after), loads) == Accepted
  {
    FlaggedReads(value, x);
    FlaggedReads(value, y);
    FlaggedSid(value, x);
    FlaggedSid(value, y);
    SameReadingsAccepted(value, Flagged(x), Flagged(y), expected, before, after, loads);
  }

  /** Whenever two different booleans or numbers have one value, a plan that turns one into
      the other inside a statement is accepted, though the statement is not the old one:
      `1` into `true`, or into `1.0`. */
  lemma OneValueIsAccepted(
    value: Reading, x: Json, y: Json, before: string, after: string, loads: string -> Option<Json>)
    requires IsScalar(x) && IsScalar(y) && x != y && Read(value, x) == Read(value, y)
    requires loads(before) == Some(Obj(PolicyOf([Flagged(x), Expected()])))
    requires loads(after) == Some(Obj(PolicyOf([Flagged(y), Expected()])))
    ensures CheckIam(value, PlanOf(before), PlanOf(after), loads) == Accepted
    ensures !Equiv(Flagged(x), Flagged(y))
  {
    FlagTurned(value, x, y, Expected(), before, after, loads);
    FlaggedDiffer(x, y);
  }

  lemma OneTurnedTrueIsAccepted(value: Reading, before: string, after: string, loads: string -> Option<Json>)
    requires value("1") == 1.0
    requires loads(before) == Some(Obj(PolicyOf([Flagged(Num("1")), Expected()])))
    requires loads(after) == Some(Obj(PolicyOf([Flagged(Bool(true)), Expected()])))
    ensures CheckIam(value, PlanOf(before), PlanOf(after), loads) == Accepted
    ensures !Equiv(Flagged(Num("1")), Flagged(Bool(true)))
  {
    OneValueIsAccepted(value, Num("1"), Bool(true), before, after, loads);
  }

  lemma SortPair<T>(x: T, y: T, before: (T, T) -> bool)
    ensures Sort([x, y], before) == if before(x, y) then [x, y] else [y, x]
  {
    assert [x, y][1..] == [y] && [y][1..] == [] && Insert(x, [], before) == [x];
    assert Insert(x, [y], before) == if before(x, y) then [x, y] else [y, x];
    assert Sort([y], before) == [y];
  }

  lemma PairOfScalars(value: Reading, x: Json, y: Json)
    requires IsScalar(x) && IsScalar(y)
    ensures var r := if ByText(x, y) then [x, y] else [y, x];
      Read(value, Normalize(Arr([x, y]))) == PyArr([Read(value, r[0]), Read(value, r[1])])
  {
    var a := Arr([x, y]);
    assert NormalizeItems(a) == [x, y];
    SortPair(x, y, ByText);
  }

  /** The sorting by text can also keep alike lists apart: [2, true] and [2, 1]. */
  lemma AlikeMayDiffer(value: Reading)
    requires value("1") == 1.0 && value("2") == 2.0
    ensures var a, b := Arr([Num("2"), Bool(true)]), Arr([Num("2"), Num("1")]);
      Alike(value, a, b) && !SameNormal(value, a, b)
  {
    assert Rearranges([0, 1], 2);
    PairOfScalars(value, Num("2"), Bool(true));
    PairOfScalars(value, Num("2"), Num("1"));
  }
}
