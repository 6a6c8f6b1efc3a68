/**
  Applying reviewed decisions to a SARIF report: `derive` of
  codebuild/exact_image_disposition.py. The inventory of linked results is checked, each
  decision suppresses the one result it names, in place, and what is left is accounted for.
  */
module Disposition {
  import opened Options
  import opened Sequences
  import opened Keyed
  import opened Findings

  datatype PackageRecord = PackageRecord(package: Package, files: map<string, string>)

  // `components` is there in component mode only: the artifacts that are components.
  datatype Observation = Observation(occurrences: seq<Occurrence>, packages: map<string, PackageRecord>,
                                     components: Option<set<string>>)

  datatype Decision = Decision(native: Option<string>, status: string, rationale: string, evidence: map<string, string>,
                               files: map<string, string>, artifact: Option<string>)

  /**
    `evidence` has the retained files of the receipt, `pin` its digest; `examined` stands
    for the inspection of components and of fixed packages.
    */
  datatype Review = Review(observation: Observation, evidence: set<string>, pin: string,
                           resultSha: Result -> string, examined: (Decision, Occurrence) -> bool)

  // ---------- The inventory ----------

  const NativeOf := (o: Occurrence) => o.nativeSha
  const IndexOf := (o: Occurrence) => o.resultIndex
  const IsEligible := (o: Occurrence) => o.eligible
  const ShaOf := (m: Member) => m.nativeSha

  function EligibleOnes(occurrences: seq<Occurrence>): seq<Occurrence> {
    Filter(occurrences, IsEligible)
  }

  /** The eligible occurrences by native digest; a repeated digest keeps the last one. */
  function Table(occurrences: seq<Occurrence>): map<Option<string>, Occurrence> {
    Index(EligibleOnes(occurrences), NativeOf)
  }

  function AllMembers(occurrences: seq<Occurrence>): seq<Member> {
    if occurrences == [] then []
    else AllMembers(occurrences[..|occurrences| - 1]) + occurrences[|occurrences| - 1].members
  }

  function Range(n: nat): (s: set<nat>)
    ensures forall i: nat :: i in s <==> i < n
    ensures |s| == n
  {
    if n == 0 then {} else Range(n - 1) + {n - 1}
  }

  predicate Consistent(members: seq<Member>) {
    forall a <- members, b <- members :: a.nativeSha == b.nativeSha ==> a == b
  }

  predicate Inventoried(occurrences: seq<Occurrence>, n: nat) {
    && |occurrences| == n
    && KeysOf(occurrences, IndexOf) == Range(n)
    && |Table(occurrences)| == |EligibleOnes(occurrences)|
    && Consistent(AllMembers(occurrences))
    && |Index(AllMembers(occurrences), ShaOf)| == n
  }

  // ---------- One decision ----------

  predicate IsSpace(c: char) {
    var n := c as int;
    || 0x09 <= n <= 0x0d || 0x1c <= n <= 0x20 || n in {0x85, 0xa0, 0x1680, 0x2028, 0x2029, 0x202f, 0x205f, 0x3000}
    || 0x2000 <= n <= 0x200a
  }

  predicate Blank(s: string) {
    forall c <- s :: IsSpace(c)
  }

  function Roles(status: string): set<string> {
    if status == "fixed" then {"independent_review", "source", "patch", "regression", "build"}
    else {"independent_review", "applicability"}
  }

  /** The decision is complete and its evidence is retained. */
  predicate Documented(review: Review, d: Decision) {
    && (d.status == "fixed" || d.status == "not_affected")
    && !Blank(d.rationale)
    && d.evidence.Keys == Roles(d.status)
    && d.evidence.Values <= review.evidence
    && (if d.status == "fixed" then d.artifact.Some? && d.artifact.value in review.evidence else d.artifact.None?)
  }

  /** The decision is about the installed package of the occurrence. */
  predicate Bound(review: Review, d: Decision, o: Occurrence) {
    var observation := review.observation;
    && o.sole.Some?
    && var package := o.sole.value.package;
    if observation.components.Some? && package.id in observation.components.value then review.examined(d, o)
    else
      && package.purl in observation.packages
      && var record := observation.packages[package.purl];
      && record.package == package
      && d.files != map[]
      && (forall path <- d.files :: path in record.files && record.files[path] == d.files[path])
      && (d.status == "fixed" ==> review.examined(d, o))
  }

  function Accept(review: Review, d: Decision, r: Result): Result {
    r.(suppressions := [Suppression("external", "accepted",
                                    d.status + ": " + d.rationale + "; approved receipt sha256:" + review.pin)])
  }

  datatype Outcome = Outcome(seen: set<Option<string>>, results: seq<Result>, fixed: nat, notAffected: nat)

  predicate Decidable(review: Review, table: map<Option<string>, Occurrence>, s: Outcome, d: Decision) {
    && d.native in table && d.native !in s.seen
    && Documented(review, d) && Bound(review, d, table[d.native])
    && table[d.native].resultIndex < |s.results|
    && review.resultSha(s.results[table[d.native].resultIndex]) == table[d.native].resultSha
  }

  function Decide(review: Review, table: map<Option<string>, Occurrence>, s: Outcome, d: Decision): Outcome
    requires Decidable(review, table, s, d)
  {
    var i := table[d.native].resultIndex;
    Outcome(s.seen + {d.native}, s.results[i := Accept(review, d, s.results[i])],
            s.fixed + (if d.status == "fixed" then 1 else 0), s.notAffected + (if d.status == "fixed" then 0 else 1))
  }

  function DecideAll(review: Review, table: map<Option<string>, Occurrence>, results: seq<Result>,
                     decisions: seq<Decision>): Option<Outcome>
  {
    if decisions == [] then Some(Outcome({}, results, 0, 0)) else
      var before, d := DecideAll(review, table, results, decisions[..|decisions| - 1]), decisions[|decisions| - 1];
      if before.Some? && Decidable(review, table, before.value, d) then Some(Decide(review, table, before.value, d))
      else None
  }

  // ---------- Counting severities ----------

  function Having(members: map<string, Member>, shas: set<string>, severity: string): set<string> {
    set k | k in shas && k in members && members[k].severity == severity
  }

  /** The native members that no decision names. */
  function Undecided(members: map<string, Member>, decided: set<Option<string>>): set<string> {
    set k <- members | Some(k) !in decided
  }

  lemma HavingMore(members: map<string, Member>, shas: set<string>, k: string, severity: string)
    requires k in members && k !in shas
    ensures |Having(members, shas + {k}, severity)|
         == |Having(members, shas, severity)| + if members[k].severity == severity then 1 else 0
  {
    var less := Having(members, shas, severity);
    assert Having(members, shas + {k}, severity) == if members[k].severity == severity then less + {k} else less;
  }

  /** A counter of the severities of the members with these digests. */
  method CountSeverities(members: map<string, Member>, shas: set<string>) returns (counts: multiset<string>)
    requires shas <= members.Keys
    ensures forall s :: counts[s] == |Having(members, shas, s)|
    ensures |counts| == |shas|
  {
    var todo := shas;
    ghost var done: set<string> := {};
    counts := multiset{};
    while todo != {}
      invariant done !! todo && done + todo == shas
      invariant |counts| == |done|
      invariant forall s :: counts[s] == |Having(members, done, s)|
      decreases |todo|
    {
      var k :| k in todo;
      forall s {
        HavingMore(members, done, k, s);
      }
      done, todo := done + {k}, todo - {k};
      counts := counts + multiset{members[k].severity};
    }
    assert done == shas;
  }

  // ---------- derive ----------

  datatype Summary = Summary(raw: nat, nativeRaw: nat, sarifRaw: nat, nativeActive: int, active: int,
                             nativeRawSeverities: multiset<string>, nativeActiveSeverities: multiset<string>,
                             sharedRuleGroups: nat, fixed: nat, notAffected: nat)

  predicate Unsuppressed(results: seq<Result>) {
    forall r <- results :: r.suppressions == []
  }

  lemma ConsistentSnoc(front: seq<Member>, m: Member)
    requires Consistent(front)
    ensures var table := Index(front, ShaOf);
      Consistent(front + [m]) <==> (m.nativeSha in table ==> table[m.nativeSha] == m)
  {
    var table := Index(front, ShaOf);
    IndexKeys(front, ShaOf);
    assert m in front + [m] && forall a <- front :: a in front + [m];
    forall a | a in front && a.nativeSha == m.nativeSha
      ensures m.nativeSha in table && table[m.nativeSha] == a
    {
      assert ShaOf(a) in table;
      assert table[m.nativeSha] in front;
    }
  }

  lemma NotConsistent(members: seq<Member>, n: nat)
    requires n <= |members| && !Consistent(members[..n])
    ensures !Consistent(members)
  {
    assert forall a <- members[..n] :: a in members;
  }

  lemma MembersMore(members: seq<Member>, i: nat)
    requires i < |members| && Consistent(members[..i])
    ensures var table, m := Index(members[..i], ShaOf), members[i];
      && Index(members[..i + 1], ShaOf) == table[m.nativeSha := m]
      && (Consistent(members[..i + 1]) <==> (m.nativeSha in table ==> table[m.nativeSha] == m))
  {
    assert members[..i + 1] == members[..i] + [members[i]];
    ConsistentSnoc(members[..i], members[i]);
    DistinctSnoc(members[..i], members[i], ShaOf);
  }

  // The dictionary of native members; None when one digest stands for two members.
  method MembersLoop(members: seq<Member>) returns (r: Option<map<string, Member>>)
    ensures r == if Consistent(members) then Some(Index(members, ShaOf)) else None
  {
    var table: map<string, Member> := map[];
    var i := 0;
    while i < |members|
      invariant 0 <= i <= |members|
      invariant table == Index(members[..i], ShaOf) && Consistent(members[..i])
    {
      var m := members[i];
      MembersMore(members, i);
      if m.nativeSha in table && table[m.nativeSha] != m {
        NotConsistent(members, i + 1);
        return None;
      }
      table := table[m.nativeSha := m];
      i := i + 1;
    }
    assert members[..|members|] == members;
    r := Some(table);
  }

  function SharedGroups(occurrences: seq<Occurrence>): set<string> {
    set o <- occurrences | |o.members| > 1 :: o.ruleId
  }

  predicate Derivable(review: Review, results: seq<Result>, decisions: seq<Decision>) {
    var occurrences := review.observation.occurrences;
    && Unsuppressed(results)
    && Inventoried(occurrences, |results|)
    && DecideAll(review, Table(occurrences), results, decisions).Some?
  }

  /** The summary counts what the outcome says, over the native members of the inventory. */
  ghost predicate Accounts(s: Summary, review: Review, n: nat, outcome: Outcome) {
    var occurrences := review.observation.occurrences;
    var members := Index(AllMembers(occurrences), ShaOf);
    && s.raw == s.sarifRaw == n && s.nativeRaw == |members|
    && s.active == n - |outcome.seen| && s.nativeActive == |members| - |outcome.seen|
    && s.fixed == outcome.fixed && s.notAffected == outcome.notAffected
    && s.sharedRuleGroups == |set o <- occurrences | |o.members| > 1 :: o.ruleId|
    && |s.nativeRawSeverities| == |members|
    && |s.nativeActiveSeverities| == |Undecided(members, outcome.seen)|
    && (forall v :: s.nativeRawSeverities[v] == |Having(members, members.Keys, v)|)
    && (forall v :: s.nativeActiveSeverities[v] == |Having(members, Undecided(members, outcome.seen), v)|)
  }

  // Once a decision fails, everything fails.
  lemma {:induction false} Fails(review: Review, table: map<Option<string>, Occurrence>, results: seq<Result>,
                                 decisions: seq<Decision>, n: nat)
    requires n <= |decisions| && DecideAll(review, table, results, decisions[..n]).None?
    ensures DecideAll(review, table, results, decisions).None?
    decreases |decisions|
  {
    if n < |decisions| {
      assert decisions[..|decisions| - 1][..n] == decisions[..n];
      Fails(review, table, results, decisions[..|decisions| - 1], n);
    } else {
      assert decisions[..n] == decisions;
    }
  }

  // The loop over the decisions; the results are changed in place.
  method DecideLoop(review: Review, table: map<Option<string>, Occurrence>, decisions: seq<Decision>, results: array<Result>)
    returns (ok: bool, seen: set<Option<string>>, fixed: nat, notAffected: nat)
    modifies results
    ensures ok <==> DecideAll(review, table, old(results[..]), decisions).Some?
    ensures ok ==>
      DecideAll(review, table, old(results[..]), decisions).value == Outcome(seen, results[..], fixed, notAffected)
  {
    ghost var raw := results[..];
    ok, seen, fixed, notAffected := true, {}, 0, 0;
    var i := 0;
    while i < |decisions|
      invariant 0 <= i <= |decisions| && ok
      invariant DecideAll(review, table, raw, decisions[..i]) == Some(Outcome(seen, results[..], fixed, notAffected))
    {
      var d := decisions[i];
      ghost var s := Outcome(seen, results[..], fixed, notAffected);
      assert decisions[..i + 1][..i] == decisions[..i];
      var known := d.native in table && d.native !in seen && Documented(review, d) && Bound(review, d, table[d.native]);
      if !known || table[d.native].resultIndex >= results.Length
         || review.resultSha(results[table[d.native].resultIndex]) != table[d.native].resultSha
      {
        assert !Decidable(review, table, s, d);
        Fails(review, table, raw, decisions, i + 1);
        ok := false;
        return;
      }
      assert Decidable(review, table, s, d);
      var at := table[d.native].resultIndex;
      results[at] := Accept(review, d, results[at]);
      seen := seen + {d.native};
      if d.status == "fixed" { fixed := fixed + 1; } else { notAffected := notAffected + 1; }
      assert Decide(review, table, s, d) == Outcome(seen, results[..], fixed, notAffected);
      i := i + 1;
    }
    assert decisions[..|decisions|] == decisions;
  }

  /** `derive`: None where the program raises; otherwise the summary, with the results changed in place. */
  method Derive(review: Review, decisions: seq<Decision>, results: array<Result>) returns (r: Option<Summary>)
    modifies results
    ensures r.Some? <==> Derivable(review, old(results[..]), decisions)
    ensures r.Some? ==>
      var outcome := DecideAll(review, Table(review.observation.occurrences), old(results[..]), decisions).value;
      results[..] == outcome.results && Accounts(r.value, review, results.Length, outcome)
  {
    var occurrences, n := review.observation.occurrences, results.Length;
    var clean := AllUnsuppressed(results);
    if !clean { return None; }
    var table := Table(occurrences);
    if |occurrences| != n || KeysOf(occurrences, IndexOf) != Range(n) || |table| != |EligibleOnes(occurrences)| { return None; }
    var members := MembersLoop(AllMembers(occurrences));
    if members.None? || |members.value| != n { return None; }
    var ok, seen, fixed, notAffected := DecideLoop(review, table, decisions, results);
    if !ok { return None; }
    var all := CountSeverities(members.value, members.value.Keys);
    var active := CountSeverities(members.value, Undecided(members.value, seen));
    r := Some(Summary(n, |members.value|, n, |members.value| - |seen|, n - |seen|, all, active,
                      |SharedGroups(occurrences)|, fixed, notAffected));
  }

  method AllUnsuppressed(results: array<Result>) returns (clean: bool)
    ensures clean <==> Unsuppressed(results[..])
  {
    var i := 0;
    while i < results.Length
      invariant 0 <= i <= results.Length
      invariant forall j :: 0 <= j < i ==> results[j].suppressions == []
    {
      if results[i].suppressions != [] {
        assert results[i] in results[..];
        return false;
      }
      i := i + 1;
    }
    clean := true;
  }
}
