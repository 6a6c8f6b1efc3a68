/**
  The guard on the scheduler's IAM policy, `check_iam` of
  platform/scripts/shared_runtime_plan_guard.py: a plan may add the statement that reads
  the report signing key and nothing else. What it accepts is characterised exactly.
  */
module IamGuard {
  import opened Options
  import opened JsonText
  import opened Sequences
  import opened Keyed
  import opened Canonical
  import opened PythonValues

  type Fields = map<string, Json>

  const SIGNING := "ReadRunReportSigningMaterial"
  const KEY_ARN := "arn:aws:ssm:us-east-1:879318057152:parameter/adp/dev/gateway/run-report-signing-key"

  function Expected(): Json {
    Obj(map["Sid" := Str(SIGNING), "Effect" := Str("Allow"),
        "Action" := Arr([Str("ssm:GetParameter")]), "Resource" := Arr([Str(KEY_ARN)])])
  }

  datatype Reason =
    | IdentityChanged | MetadataChanged | DuplicateIdentifiers | PermissionsChanged
    | UnexpectedPermission | IncorrectKeyPermission
    | Malformed  // the program stops with a KeyError, a TypeError or a decoding error

  datatype Verdict = Accepted | Refused(reason: Reason)

  /** Everything but the allowed fields compares equal. */
  predicate Unchanged(value: Reading, before: Fields, after: Fields, allowed: set<string>) {
    Read(value, Obj(before - allowed)) == Read(value, Obj(after - allowed))
  }

  // ---------- Reading the documents ----------

  /** The policy document of a resource; `loads` decodes its text. */
  function Policy(resource: Fields, loads: string -> Option<Json>): Option<Fields> {
    if "policy" !in resource || !resource["policy"].Str? then None
    else match loads(resource["policy"].text)
      case Some(Obj(fields)) => Some(fields)
      case _ => None
  }

  // A Sid is used as a dictionary key, so it can be no list and no object.
  predicate Identified(s: Json) {
    s.Obj? && "Sid" in s.fields && !s.fields["Sid"].Arr? && !s.fields["Sid"].Obj?
  }

  function Sid(s: Json): Json
    requires Identified(s)
  {
    s.fields["Sid"]
  }

  predicate AllIdentified(items: seq<Json>) {
    forall s <- items :: Identified(s)
  }

  /** The statements of a document. An empty object or an empty string has none. */
  function Statements(document: Fields): Option<seq<Json>> {
    if "Statement" !in document then None
    else match document["Statement"]
      case Arr(items) => if AllIdentified(items) then Some(items) else None
      case Obj(fields) => if |fields| == 0 then Some([]) else None
      case Str(text) => if text == "" then Some([]) else None
      case _ => None
  }

  // The dictionary key of a statement; Python's keys 1, 1.0 and True are one key.
  function SidKey(value: Reading): Json -> Py {
    s => if Identified(s) then Read(value, Sid(s)) else PyNull
  }

  function NormalReading(value: Reading): Json -> Py {
    s => Read(value, Normalize(s))
  }

  // ---------- The check ----------

  function CompareStatements(normal: Json -> Py, was: map<Py, Json>, now: map<Py, Json>, sid: Py, expected: Json): Verdict
  {
    if !(forall k <- was :: k in now && normal(was[k]) == normal(now[k])) then Refused(PermissionsChanged)
    else if !(now.Keys - was.Keys <= {sid}) then Refused(UnexpectedPermission)
    else if sid !in now || normal(now[sid]) != normal(expected) then Refused(IncorrectKeyPermission)
    else Accepted
  }

  function CheckStatements(value: Reading, olds: seq<Json>, news: seq<Json>, expected: Json): Verdict {
    var o, n := Index(olds, SidKey(value)), Index(news, SidKey(value));
    if |o| != |olds| || |n| != |news| then Refused(DuplicateIdentifiers)
    else CompareStatements(NormalReading(value), o, n, SidKey(value)(expected), expected)
  }

  function CheckIam(value: Reading, before: Fields, after: Fields, loads: string -> Option<Json>): Verdict {
    CheckPolicies(value, before, after, loads, Expected())
  }

  function CheckPolicies(
    value: Reading, before: Fields, after: Fields, loads: string -> Option<Json>, expected: Json): Verdict
  {
    if !Unchanged(value, before, after, {"policy"}) then Refused(IdentityChanged) else
      match (Policy(before, loads), Policy(after, loads))
      case (Some(was), Some(now)) => CheckDocuments(value, was, now, expected)
      case _ => Refused(Malformed)
  }

  function CheckDocuments(value: Reading, was: Fields, now: Fields, expected: Json): Verdict {
    if !Unchanged(value, was, now, {"Statement"}) then Refused(MetadataChanged) else
      match (Statements(was), Statements(now))
      case (Some(olds), Some(news)) => CheckStatements(value, olds, news, expected)
      case _ => Refused(Malformed)
  }

  // ---------- What is accepted ----------

  predicate Has(key: Json -> Py, items: seq<Json>, sid: Py) {
    exists s <- items :: key(s) == sid
  }

  /** The statements a plan may have: the old ones and the expected one. */
  function Target(key: Json -> Py, olds: seq<Json>, expected: Json): seq<Json> {
    if Has(key, olds, key(expected)) then olds else olds + [expected]
  }

  /** The new statements are the permitted ones: in any order, each equal to its
      counterpart as normal forms compare. */
  predicate AddsOnly(key: Json -> Py, normal: Json -> Py, olds: seq<Json>, news: seq<Json>, expected: Json) {
    && multiset(Apply(news, normal)) == multiset(Apply(Target(key, olds, expected), normal))
    && forall s <- olds :: key(s) == key(expected) ==> normal(s) == normal(expected)
  }

  // A normal reading shows the Sid.
  lemma ReadingShowsSid(value: Reading)
    ensures forall x, y :: NormalReading(value)(x) == NormalReading(value)(y) ==> SidKey(value)(x) == SidKey(value)(y)
  {
    forall x ensures SidKey(value)(x) == FieldIn(NormalReading(value)(x), "Sid") {
      ReadingKeepsField(value, x, "Sid");
    }
  }

  function FieldIn(r: Py, k: string): Py {
    if r.PyObj? && k in r.fields && !r.fields[k].PyArr? && !r.fields[k].PyObj? then r.fields[k] else PyNull
  }

  lemma ReadingKeepsShape(value: Reading, x: Json)
    ensures Read(value, Normalize(x)).PyArr? <==> x.Arr?
    ensures Read(value, Normalize(x)).PyObj? <==> x.Obj?
    ensures !x.Arr? && !x.Obj? ==> Normalize(x) == x
  {
  }

  lemma ReadingOfFields(value: Reading, x: Json, k: string)
    requires x.Obj?
    ensures var r := Read(value, Normalize(x));
      && r.PyObj? && r.fields.Keys == x.fields.Keys
      && (k in x.fields ==> r.fields[k] == Read(value, Normalize(x.fields[k])))
  {
  }

  lemma ReadingKeepsField(value: Reading, x: Json, k: string)
    ensures FieldIn(NormalReading(value)(x), k)
         == if x.Obj? && k in x.fields && !x.fields[k].Arr? && !x.fields[k].Obj? then Read(value, x.fields[k])
            else PyNull
  {
    ReadingKeepsShape(value, x);
    if x.Obj? {
      ReadingOfFields(value, x, k);
      if k in x.fields { ReadingKeepsShape(value, x.fields[k]); }
    }
  }

  lemma SameByKey(value: Reading, s: seq<Json>, t: seq<Json>)
    requires Distinct(s, SidKey(value)) && Distinct(t, SidKey(value))
    ensures multiset(Apply(s, NormalReading(value))) == multiset(Apply(t, NormalReading(value)))
       <==> ReadAlike(Index(s, SidKey(value)), Index(t, SidKey(value)), NormalReading(value))
  {
    ReadingShowsSid(value);
    ReadSameByKey(s, t, SidKey(value), NormalReading(value));
  }

  lemma ComparedSigned(normal: Json -> Py, was: map<Py, Json>, now: map<Py, Json>, sid: Py, expected: Json)
    requires sid in was
    ensures CompareStatements(normal, was, now, sid, expected) == Accepted
       <==> ReadAlike(now, was, normal) && normal(was[sid]) == normal(expected)
  {
    assert was.Keys + {sid} == was.Keys;
  }

  lemma ComparedUnsigned(normal: Json -> Py, was: map<Py, Json>, now: map<Py, Json>, sid: Py, expected: Json)
    requires sid !in was
    ensures CompareStatements(normal, was, now, sid, expected) == Accepted
       <==> ReadAlike(now, was[sid := expected], normal)
  {
    assert was[sid := expected].Keys == was.Keys + {sid};
  }

  // The statement with the expected Sid is the one in the dictionary.
  lemma SigningStatement(value: Reading, olds: seq<Json>, key: Py)
    requires Distinct(olds, SidKey(value)) && Has(SidKey(value), olds, key)
    ensures key in Index(olds, SidKey(value)) && Index(olds, SidKey(value))[key] in olds
    ensures forall s <- olds :: SidKey(value)(s) == key <==> s == Index(olds, SidKey(value))[key]
  {
    IndexKeys(olds, SidKey(value));
    forall s | s in olds && SidKey(value)(s) == key ensures s == Index(olds, SidKey(value))[key] {
      var i :| 0 <= i < |olds| && olds[i] == s;
      IndexAt(olds, SidKey(value), i);
    }
  }

  lemma SignedAlready(value: Reading, olds: seq<Json>, news: seq<Json>, expected: Json)
    requires Distinct(olds, SidKey(value)) && Distinct(news, SidKey(value))
    requires Has(SidKey(value), olds, SidKey(value)(expected))
    ensures var o, n := Index(olds, SidKey(value)), Index(news, SidKey(value));
      var verdict := CompareStatements(NormalReading(value), o, n, SidKey(value)(expected), expected);
      verdict == Accepted <==> AddsOnly(SidKey(value), NormalReading(value), olds, news, expected)
  {
    SigningStatement(value, olds, SidKey(value)(expected));
    var o, n := Index(olds, SidKey(value)), Index(news, SidKey(value));
    ComparedSigned(NormalReading(value), o, n, SidKey(value)(expected), expected);
    SameByKey(value, news, olds);
  }

  lemma SignedAnew(value: Reading, olds: seq<Json>, news: seq<Json>, expected: Json)
    requires Distinct(olds, SidKey(value)) && Distinct(news, SidKey(value))
    requires !Has(SidKey(value), olds, SidKey(value)(expected))
    ensures var o, n := Index(olds, SidKey(value)), Index(news, SidKey(value));
      var verdict := CompareStatements(NormalReading(value), o, n, SidKey(value)(expected), expected);
      verdict == Accepted <==> AddsOnly(SidKey(value), NormalReading(value), olds, news, expected)
  {
    var key := SidKey(value);
    KeysOfMeans(olds, key);
    KeysCount(olds, key);
    DistinctSnoc(olds, expected, key);
    ComparedUnsigned(NormalReading(value), Index(olds, key), Index(news, key), key(expected), expected);
    SameByKey(value, news, olds + [expected]);
  }

  lemma AcceptedStatements(value: Reading, olds: seq<Json>, news: seq<Json>, expected: Json)
    ensures CheckStatements(value, olds, news, expected) == Accepted
       <==> (Distinct(olds, SidKey(value)) && Distinct(news, SidKey(value))
             && AddsOnly(SidKey(value), NormalReading(value), olds, news, expected))
  {
    KeysCount(olds, SidKey(value));
    KeysCount(news, SidKey(value));
    var o, n := Index(olds, SidKey(value)), Index(news, SidKey(value));
    assert |o| == |o.Keys| && |n| == |n.Keys|;
    if Distinct(olds, SidKey(value)) && Distinct(news, SidKey(value)) {
      if Has(SidKey(value), olds, SidKey(value)(expected)) { SignedAlready(value, olds, news, expected); }
      else { SignedAnew(value, olds, news, expected); }
    }
  }

  /** What two policy documents must meet to differ in the expected statement only. */
  predicate PermittedDocuments(value: Reading, was: Fields, now: Fields, expected: Json) {
    && Unchanged(value, was, now, {"Statement"})
    && var olds, news := Statements(was), Statements(now);
    && olds.Some? && news.Some?
    && Distinct(olds.value, SidKey(value)) && Distinct(news.value, SidKey(value))
    && AddsOnly(SidKey(value), NormalReading(value), olds.value, news.value, expected)
  }

  /** What a plan must meet to add nothing but the expected statement. */
  predicate Permitted(value: Reading, before: Fields, after: Fields, loads: string -> Option<Json>, expected: Json) {
    && Unchanged(value, before, after, {"policy"})
    && var was, now := Policy(before, loads), Policy(after, loads);
    && was.Some? && now.Some?
    && PermittedDocuments(value, was.value, now.value, expected)
  }

  lemma AcceptedDocuments(value: Reading, was: Fields, now: Fields, expected: Json)
    ensures CheckDocuments(value, was, now, expected) == Accepted <==> PermittedDocuments(value, was, now, expected)
  {
    var olds, news := Statements(was), Statements(now);
    if olds.Some? && news.Some? { AcceptedStatements(value, olds.value, news.value, expected); }
  }

  lemma CheckedExactly(value: Reading, before: Fields, after: Fields, loads: string -> Option<Json>, expected: Json)
    ensures CheckPolicies(value, before, after, loads, expected) == Accepted
       <==> Permitted(value, before, after, loads, expected)
  {
    var was, now := Policy(before, loads), Policy(after, loads);
    if was.Some? && now.Some? { AcceptedDocuments(value, was.value, now.value, expected); }
  }

  /**
    The plan is accepted exactly when everything but the policy text, and in the policy
    everything but its statements, compares equal, no two statements share a Sid, and the
    new statements are the old ones and the one signing key statement.
    */
  lemma AcceptedExactly(value: Reading, before: Fields, after: Fields, loads: string -> Option<Json>)
    ensures CheckIam(value, before, after, loads) == Accepted
       <==> Permitted(value, before, after, loads, Expected())
  {
    CheckedExactly(value, before, after, loads, Expected());
  }
}
