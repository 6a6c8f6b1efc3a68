/**
  What `derive` guarantees: exactly the named results change, one decision each, and the
  counts balance. The native counts balance exactly when every decision names a native
  member of the inventory, which `map_findings` always provides for.
  */
module DispositionSafety {
  import opened Options
  import opened Sequences
  import opened Keyed
  import opened Findings
  import opened Disposition

  const DecidedOn := (d: Decision) => d.native
  const IsFixed := (d: Decision) => d.status == "fixed"
  const IsActive := (r: Result) => r.suppressions == []

  // ---------- The inventory ----------

  lemma InventoryDistinct(occurrences: seq<Occurrence>, n: nat)
    requires Inventoried(occurrences, n)
    ensures Distinct(occurrences, IndexOf)
    ensures Distinct(EligibleOnes(occurrences), NativeOf)
    ensures forall k <- Table(occurrences) ::
      var o := Table(occurrences)[k];
      o in occurrences && o.eligible && o.nativeSha == k && o.resultIndex < n
  {
    KeysCount(occurrences, IndexOf);
    KeysCount(EligibleOnes(occurrences), NativeOf);
    IndexKeys(EligibleOnes(occurrences), NativeOf);
    FilterMembers(occurrences, IsEligible);
    KeysOfMeans(occurrences, IndexOf);
    forall k | k in Table(occurrences) ensures Table(occurrences)[k].resultIndex < n {
      assert Table(occurrences)[k] in EligibleOnes(occurrences);
      assert IndexOf(Table(occurrences)[k]) in Range(n);
    }
  }

  // Two decisions name two results.
  lemma OneResultEach(occurrences: seq<Occurrence>, n: nat, a: Option<string>, b: Option<string>)
    requires Inventoried(occurrences, n) && a in Table(occurrences) && b in Table(occurrences)
    ensures Table(occurrences)[a].resultIndex == Table(occurrences)[b].resultIndex ==> a == b
  {
    InventoryDistinct(occurrences, n);
  }

  // ---------- Which decisions are accepted ----------

  /** The decision names an eligible occurrence, fits it, and the result is the recorded one. */
  predicate Fits(review: Review, table: map<Option<string>, Occurrence>, results: seq<Result>, d: Decision) {
    && d.native in table && table[d.native].resultIndex < |results|
    && Documented(review, d) && Bound(review, d, table[d.native])
    && review.resultSha(results[table[d.native].resultIndex]) == table[d.native].resultSha
  }

  predicate AllFit(review: Review, table: map<Option<string>, Occurrence>, results: seq<Result>, decisions: seq<Decision>) {
    forall d <- decisions :: Fits(review, table, results, d)
  }

  /** A decision names result j. */
  predicate Named(table: map<Option<string>, Occurrence>, decisions: seq<Decision>, j: nat) {
    exists d <- decisions :: d.native in table && table[d.native].resultIndex == j
  }

  /** What the results become: suppressed where a decision names them, and unchanged elsewhere. */
  ghost predicate Suppresses(review: Review, table: map<Option<string>, Occurrence>, results: seq<Result>,
                             decisions: seq<Decision>, after: seq<Result>)
  {
    && |after| == |results|
    && (forall d <- decisions :: d.native in table && table[d.native].resultIndex < |results|
         && after[table[d.native].resultIndex] == Accept(review, d, results[table[d.native].resultIndex]))
    && (forall j :: 0 <= j < |results| && !Named(table, decisions, j) ==> after[j] == results[j])
  }

  lemma NamedSnoc(table: map<Option<string>, Occurrence>, front: seq<Decision>, d: Decision, j: nat)
    ensures Named(table, front + [d], j) <==>
      Named(table, front, j) || (d.native in table && table[d.native].resultIndex == j)
  {
  }

  // A decision on something new finds its result untouched.
  lemma FreshIsUntouched(occurrences: seq<Occurrence>, n: nat, decisions: seq<Decision>, k: Option<string>)
    requires Inventoried(occurrences, n) && k in Table(occurrences) && k !in KeysOf(decisions, DecidedOn)
    ensures !Named(Table(occurrences), decisions, Table(occurrences)[k].resultIndex)
  {
    var table := Table(occurrences);
    KeysOfMeans(decisions, DecidedOn);
    forall d | d in decisions && d.native in table ensures table[d.native].resultIndex != table[k].resultIndex {
      OneResultEach(occurrences, n, d.native, k);
      assert DecidedOn(d) in KeysOf(decisions, DecidedOn);
    }
  }

  lemma SuppressesSnoc(review: Review, occurrences: seq<Occurrence>, results: seq<Result>, front: seq<Decision>,
                       d: Decision, after: seq<Result>)
    requires Inventoried(occurrences, |results|)
    requires Suppresses(review, Table(occurrences), results, front, after)
    requires d.native in Table(occurrences) && d.native !in KeysOf(front, DecidedOn)
    ensures var i := Table(occurrences)[d.native].resultIndex;
      && i < |results| && after[i] == results[i]
      && Suppresses(review, Table(occurrences), results, front + [d], after[i := Accept(review, d, after[i])])
  {
    var table := Table(occurrences);
    var i := table[d.native].resultIndex;
    InventoryDistinct(occurrences, |results|);
    FreshIsUntouched(occurrences, |results|, front, d.native);
    var now := after[i := Accept(review, d, after[i])];
    forall x | x in front + [d]
      ensures x.native in table && table[x.native].resultIndex < |results|
      ensures now[table[x.native].resultIndex] == Accept(review, x, results[table[x.native].resultIndex])
    {
      if x in front {
        assert table[x.native].resultIndex != i;
      } else {
        assert x == d;
      }
    }
    forall j | 0 <= j < |results| && !Named(table, front + [d], j) ensures now[j] == results[j] {
      NamedSnoc(table, front, d, j);
    }
  }

  ghost predicate Decided(review: Review, results: seq<Result>, decisions: seq<Decision>, outcome: Outcome) {
    && outcome.seen == KeysOf(decisions, DecidedOn)
    && Suppresses(review, Table(review.observation.occurrences), results, decisions, outcome.results)
    && outcome.fixed == |Filter(decisions, IsFixed)|
    && outcome.fixed + outcome.notAffected == |decisions|
  }

  predicate Acceptable(review: Review, results: seq<Result>, decisions: seq<Decision>) {
    Distinct(decisions, DecidedOn) && AllFit(review, Table(review.observation.occurrences), results, decisions)
  }

  lemma DecidedMore(review: Review, results: seq<Result>, front: seq<Decision>, d: Decision, before: Outcome)
    requires Inventoried(review.observation.occurrences, |results|)
    requires Decided(review, results, front, before) && Acceptable(review, results, front)
    ensures Decidable(review, Table(review.observation.occurrences), before, d) <==> Acceptable(review, results, front + [d])
    ensures Decidable(review, Table(review.observation.occurrences), before, d) ==>
      Decided(review, results, front + [d], Decide(review, Table(review.observation.occurrences), before, d))
  {
    var occurrences := review.observation.occurrences;
    var table := Table(occurrences);
    DistinctSnoc(front, d, DecidedOn);
    AllFitSnoc(review, table, results, front, d);
    if d.native in table && d.native !in before.seen {
      SuppressesSnoc(review, occurrences, results, front, d, before.results);
    }
  }

  /**
    All decisions are accepted exactly when no two name the same thing and each fits the
    raw results; then each suppresses its own result and nothing else changes.
    */
  lemma {:induction false} DecidedExactly(review: Review, results: seq<Result>, decisions: seq<Decision>)
    requires Inventoried(review.observation.occurrences, |results|)
    ensures var outcome := DecideAll(review, Table(review.observation.occurrences), results, decisions);
      && (outcome.Some? <==> Acceptable(review, results, decisions))
      && (outcome.Some? ==> Decided(review, results, decisions, outcome.value))
  {
    if decisions != [] {
      var front, d := decisions[..|decisions| - 1], decisions[|decisions| - 1];
      assert decisions == front + [d];
      DecidedExactly(review, results, front);
      var before := DecideAll(review, Table(review.observation.occurrences), results, front);
      if before.Some? {
        DecidedMore(review, results, front, d, before.value);
      } else {
        DistinctSnoc(front, d, DecidedOn);
        AllFitSnoc(review, Table(review.observation.occurrences), results, front, d);
      }
    }
  }

  lemma AllFitSnoc(review: Review, table: map<Option<string>, Occurrence>, results: seq<Result>, front: seq<Decision>, d: Decision)
    ensures AllFit(review, table, results, front + [d]) <==>
      AllFit(review, table, results, front) && Fits(review, table, results, d)
  {
  }

  // ---------- Active results ----------

  lemma {:induction false} FilterUpdate<T>(s: seq<T>, keep: T -> bool, i: nat, x: T)
    requires i < |s| && keep(s[i]) && !keep(x)
    ensures |Filter(s[i := x], keep)| == |Filter(s, keep)| - 1
  {
    var n := |s| - 1;
    if i < n {
      assert s[i := x][..n] == s[..n][i := x];
      FilterUpdate(s[..n], keep, i, x);
    } else {
      assert s[i := x][..n] == s[..n];
    }
  }

  lemma {:induction false} FilterAll<T>(s: seq<T>, keep: T -> bool)
    requires forall x <- s :: keep(x)
    ensures |Filter(s, keep)| == |s|
  {
    if s != [] { FilterAll(s[..|s| - 1], keep); }
  }

  lemma {:induction false} ActiveLeft(review: Review, results: seq<Result>, decisions: seq<Decision>)
    requires Inventoried(review.observation.occurrences, |results|) && Unsuppressed(results)
    ensures var outcome := DecideAll(review, Table(review.observation.occurrences), results, decisions);
      outcome.Some? ==> |Filter(outcome.value.results, IsActive)| == |results| - |decisions|
  {
    var occurrences := review.observation.occurrences;
    var table := Table(occurrences);
    if decisions == [] {
      FilterAll(results, IsActive);
    } else if DecideAll(review, table, results, decisions).Some? {
      var front, d := decisions[..|decisions| - 1], decisions[|decisions| - 1];
      ActiveLeft(review, results, front);
      DecidedExactly(review, results, front);
      var before := DecideAll(review, table, results, front).value;
      SuppressesSnoc(review, occurrences, results, front, d, before.results);
      var i := table[d.native].resultIndex;
      assert results[i] in results;
      FilterUpdate(before.results, IsActive, i, Accept(review, d, before.results[i]));
    }
  }

  /**
    The counts balance: every raw result is active, fixed or not affected, the active
    results are the unsuppressed ones, and there is one suppressed result per decision.
    */
  lemma CountsBalance(review: Review, results: seq<Result>, decisions: seq<Decision>, s: Summary)
    requires Derivable(review, results, decisions)
    requires Accounts(s, review, |results|, DecideAll(review, Table(review.observation.occurrences), results, decisions).value)
    ensures var after := DecideAll(review, Table(review.observation.occurrences), results, decisions).value.results;
      && s.raw == s.active + s.fixed + s.notAffected
      && s.active == |Filter(after, IsActive)|
      && s.fixed == |Filter(decisions, IsFixed)| && s.fixed + s.notAffected == |decisions|
  {
    DecidedExactly(review, results, decisions);
    ActiveLeft(review, results, decisions);
    KeysCount(decisions, DecidedOn);
  }

  // ---------- Native members ----------

  // Every decision names a native member.
  predicate NamesMembers(members: map<string, Member>, seen: set<Option<string>>) {
    forall k <- seen :: k.Some? && k.value in members
  }

  lemma {:induction false} SomeCount(keys: set<string>)
    ensures |set k <- keys :: Some(k)| == |keys|
    decreases |keys|
  {
    if keys != {} {
      var k :| k in keys;
      SomeCount(keys - {k});
      assert (set x <- keys :: Some(x)) == (set x <- keys - {k} :: Some(x)) + {Some(k)};
    }
  }

  function Hits(members: map<string, Member>, seen: set<Option<string>>): set<string> {
    set k <- members | Some(k) in seen
  }

  lemma UndecidedAreRest(members: map<string, Member>, seen: set<Option<string>>)
    ensures |Undecided(members, seen)| == |members| - |Hits(members, seen)|
  {
    var hit := Hits(members, seen);
    assert Undecided(members, seen) == members.Keys - hit;
    assert |members.Keys - hit| == |members.Keys| - |hit|;
  }

  lemma HitsAll(members: map<string, Member>, seen: set<Option<string>>)
    ensures |Hits(members, seen)| == |seen| <==> NamesMembers(members, seen)
  {
    var hit := Hits(members, seen);
    var named := set k <- hit :: Some(k);
    SomeCount(hit);
    assert named <= seen;
    if |named| == |seen| {
      SameSize(named, seen);
    }
    if NamesMembers(members, seen) {
      forall k | k in seen ensures k in named {
        assert k.value in hit;
      }
      assert named == seen;
    }
  }

  lemma UndecidedCount(members: map<string, Member>, seen: set<Option<string>>)
    ensures |Undecided(members, seen)| == |members| - |seen| <==> NamesMembers(members, seen)
  {
    UndecidedAreRest(members, seen);
    HitsAll(members, seen);
  }

  lemma SameSize<T>(a: set<T>, b: set<T>)
    requires a <= b && |a| == |b|
    ensures a == b
  {
    assert |b - a| == 0;
  }

  /**
    The severities of the active native members add up to the active native count exactly
    when every decision names a member of the inventory.
    */
  lemma NativeBalance(review: Review, results: seq<Result>, decisions: seq<Decision>, s: Summary)
    requires Derivable(review, results, decisions)
    requires Accounts(s, review, |results|, DecideAll(review, Table(review.observation.occurrences), results, decisions).value)
    ensures var members := Index(AllMembers(review.observation.occurrences), ShaOf);
      |s.nativeActiveSeverities| == s.nativeActive <==> NamesMembers(members, KeysOf(decisions, DecidedOn))
  {
    DecidedExactly(review, results, decisions);
    UndecidedCount(Index(AllMembers(review.observation.occurrences), ShaOf), KeysOf(decisions, DecidedOn));
  }

  // ---------- The failing inventory ----------

  const STRAY_PACKAGE := Package("id", "name", "1", "deb", "purl")
  const STRAY_MEMBER := Member("other", STRAY_PACKAGE, "CVE", "ns", "High")

  /** Eligible under the digest "x", while its only member has the digest "other". */
  const STRAY := Occurrence(0, "sha", Some("x"), Some(Sole(STRAY_PACKAGE, "CVE", "ns", "High")), "rule",
                            [STRAY_MEMBER], "high", true)

  const STRAY_RESULT := Result("rule", [], [], "")

  const STRAY_DECISION := Decision(Some("x"), "not_affected", "because", map["independent_review" := "e", "applicability" := "e"],
                                   map["/file" := "hash"], None)

  function StrayReview(): Review {
    Review(Observation([STRAY], map["purl" := PackageRecord(STRAY_PACKAGE, map["/file" := "hash"])], None), {"e"}, "pin",
           r => "sha", (d, o) => true)
  }

  lemma OfOne<T, K>(x: T, key: T -> K, keep: T -> bool)
    ensures Index([x], key) == map[key(x) := x] && KeysOf([x], key) == {key(x)}
    ensures keep(x) ==> Filter([x], keep) == [x]
  {
    assert [x][..0] == [];
  }

  lemma MembersOfOne(o: Occurrence)
    ensures AllMembers([o]) == o.members
  {
    assert [o][..0] == [] && [] + o.members == o.members;
  }

  lemma StrayInventoried()
    ensures Inventoried([STRAY], 1) && Table([STRAY]) == map[Some("x") := STRAY]
    ensures Index(AllMembers([STRAY]), ShaOf) == map["other" := STRAY_MEMBER]
  {
    MembersOfOne(STRAY);
    OfOne(STRAY, IndexOf, IsEligible);
    OfOne(STRAY, NativeOf, IsEligible);
    OfOne(STRAY_MEMBER, ShaOf, m => true);
    assert Range(1) == {0};
  }

  lemma StrayDocumented()
    ensures Documented(StrayReview(), STRAY_DECISION)
  {
    var rationale := STRAY_DECISION.rationale;
    assert rationale[0] in rationale && !IsSpace(rationale[0]);
    var evidence := STRAY_DECISION.evidence;
    assert evidence.Keys == Roles("not_affected");
    assert forall k <- evidence :: evidence[k] == "e";
    assert evidence.Values <= {"e"};
  }

  lemma StrayDecided()
    ensures DecideAll(StrayReview(), map[Some("x") := STRAY], [STRAY_RESULT], [STRAY_DECISION]).Some?
  {
    StrayDocumented();
    assert "/file" in STRAY_DECISION.files && |STRAY_DECISION.status| != |"fixed"|;
    assert Bound(StrayReview(), STRAY_DECISION, STRAY);
    var decisions := [STRAY_DECISION];
    assert decisions[..0] == [];
    assert Decidable(StrayReview(), map[Some("x") := STRAY], Outcome({}, [STRAY_RESULT], 0, 0), STRAY_DECISION);
  }

  lemma StrayNamesNoMember()
    ensures !NamesMembers(map["other" := STRAY_MEMBER], KeysOf([STRAY_DECISION], DecidedOn))
  {
    OfOne(STRAY_DECISION, DecidedOn, IsFixed);
    assert Some("x") in KeysOf([STRAY_DECISION], DecidedOn);
    assert "x" != "other";
  }

  /** The condition of NativeBalance can fail: `derive` accepts this inventory and this
      decision, and the severities of the active native members do not add up. */
  lemma NativeSumMayDiffer()
    ensures Derivable(StrayReview(), [STRAY_RESULT], [STRAY_DECISION])
    ensures !NamesMembers(Index(AllMembers([STRAY]), ShaOf), KeysOf([STRAY_DECISION], DecidedOn))
  {
    StrayInventoried();
    StrayDecided();
    StrayNamesNoMember();
  }
}
