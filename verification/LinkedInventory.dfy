/**
  What `map_findings` provides for: its output passes every check of `derive` on the
  inventory, and the decisions that `derive` then accepts are exactly the documented ones.
  */
module LinkedInventory {
  import opened Options
  import opened Sequences
  import opened Keyed
  import opened Findings
  import opened Disposition
  import opened DispositionSafety

  // Native matches and SARIF results come in equal numbers for each rule, so in all.
  lemma {:induction false} MembersCounted(matches: seq<Match>, id: string)
    ensures multiset(Apply(matches, RuleIdOf))[id] == |Members(matches, id)|
  {
    if matches != [] {
      var front, m := matches[..|matches| - 1], matches[|matches| - 1];
      assert matches == front + [m];
      MembersCounted(front, id);
      assert Apply(matches, RuleIdOf) == Apply(front, RuleIdOf) + [RuleIdOf(m)];
    }
  }

  lemma {:induction false} PositionsCounted(results: seq<Result>, id: string)
    ensures multiset(Apply(results, IdOfResult))[id] == |Positions(results, id)|
  {
    if results != [] {
      var front, r := results[..|results| - 1], results[|results| - 1];
      assert results == front + [r];
      PositionsCounted(front, id);
      assert Apply(results, IdOfResult) == Apply(front, IdOfResult) + [r.ruleId];
    }
  }

  /** No native match comes twice, and each rule has as many matches as results. */
  ghost predicate OnePerMatch(report: Report, tools: Tools) {
    && Distinct(report.matches, tools.matchSha)
    && forall id :: |Members(report.matches, id)| == |Positions(report.results, id)|
  }

  lemma Absent(report: Report, id: string)
    requires id !in RuleIds(report.matches) && forall r <- report.results :: r.ruleId in RuleIds(report.matches)
    ensures Members(report.matches, id) == [] && Positions(report.results, id) == []
  {
    AbsentGroup(report.matches, id);
    KeysOfMeans(report.results, IdOfResult);
    AbsentPositions(report.results, id);
  }

  /** A report that `map_findings` accepts has one result for each native match, rule by rule. */
  lemma LinkableOnePerMatch(report: Report, tools: Tools)
    requires Linkable(report, tools)
    ensures OnePerMatch(report, tools)
  {
    forall id ensures |Members(report.matches, id)| == |Positions(report.results, id)| {
      if id in RuleIds(report.matches) {
        assert RuleLinkable(report, tools, id);
      } else {
        Absent(report, id);
      }
    }
  }

  lemma AsManyMatches(report: Report, tools: Tools)
    requires OnePerMatch(report, tools)
    ensures |report.matches| == |report.results|
  {
    var natives, sarifs := Apply(report.matches, RuleIdOf), Apply(report.results, IdOfResult);
    forall id ensures multiset(natives)[id] == multiset(sarifs)[id] {
      MembersCounted(report.matches, id);
      PositionsCounted(report.results, id);
    }
    assert multiset(natives) == multiset(sarifs);
    assert |multiset(natives)| == |natives| && |multiset(sarifs)| == |sarifs|;
  }

  lemma SomeOccurrence(report: Report, tools: Tools, i: nat) returns (o: Occurrence)
    requires i < |report.results|
    ensures o in LinkedAll(report, tools) && o.resultIndex == i
    ensures o.members == Apply(Members(report.matches, report.results[i].ruleId), Binder(tools))
  {
    o := LinkedAll(report, tools)[i];
  }

  // The members listed with the results are the native matches.
  lemma {:induction false} AllMembersAre(occurrences: seq<Occurrence>, m: Member)
    ensures m in AllMembers(occurrences) <==> exists o <- occurrences :: m in o.members
  {
    if occurrences != [] {
      var front, last := occurrences[..|occurrences| - 1], occurrences[|occurrences| - 1];
      assert occurrences == front + [last];
      AllMembersAre(front, m);
    }
  }

  lemma MembersListed(report: Report, tools: Tools, m: Member)
    requires OnePerMatch(report, tools)
    ensures m in AllMembers(LinkedAll(report, tools)) <==> exists x <- report.matches :: Bind(tools, x) == m
  {
    var occurrences := LinkedAll(report, tools);
    AllMembersAre(occurrences, m);
    if m in AllMembers(occurrences) {
      var o :| o in occurrences && m in o.members;
      MemberIsMatch(report, tools, o, m);
    }
    if exists x <- report.matches :: Bind(tools, x) == m {
      var x :| x in report.matches && Bind(tools, x) == m;
      MatchIsListed(report, tools, x);
    }
  }

  lemma MemberIsMatch(report: Report, tools: Tools, o: Occurrence, m: Member)
    requires o in LinkedAll(report, tools) && m in o.members
    ensures exists x <- report.matches :: Bind(tools, x) == m
  {
    var members := Members(report.matches, o.ruleId);
    FilterMembers(report.matches, RuleIs(o.ruleId));
    var k :| 0 <= k < |o.members| && o.members[k] == m;
    assert members[k] in members;
    assert Bind(tools, members[k]) == m;
  }

  lemma ResultForRule(report: Report, tools: Tools, id: string) returns (i: nat)
    requires OnePerMatch(report, tools) && id in RuleIds(report.matches)
    ensures i < |report.results| && report.results[i].ruleId == id
  {
    var m := KeyFrom(report.matches, RuleIdOf, id);
    FilterMembers(report.matches, RuleIs(id));
    assert m in Members(report.matches, id);
    var positions := Positions(report.results, id);
    assert positions[0] in positions;
    i := positions[0];
  }

  lemma MatchIsListed(report: Report, tools: Tools, x: Match)
    requires OnePerMatch(report, tools) && x in report.matches
    ensures exists o <- LinkedAll(report, tools) :: Bind(tools, x) in o.members
  {
    KeysOfMeans(report.matches, RuleIdOf);
    var i := ResultForRule(report, tools, RuleIdOf(x));
    var o := SomeOccurrence(report, tools, i);
    MatchBinds(report.matches, tools, x);
  }

  lemma MatchBinds(matches: seq<Match>, tools: Tools, x: Match)
    requires x in matches
    ensures Bind(tools, x) in Apply(Members(matches, RuleIdOf(x)), Binder(tools))
  {
    FilterMembers(matches, RuleIs(RuleIdOf(x)));
    var members := Members(matches, RuleIdOf(x));
    var k :| 0 <= k < |members| && members[k] == x;
    assert Apply(members, Binder(tools))[k] == Bind(tools, x);
  }

  lemma MembersAreMatches(report: Report, tools: Tools)
    requires OnePerMatch(report, tools)
    ensures Consistent(AllMembers(LinkedAll(report, tools)))
    ensures KeysOf(AllMembers(LinkedAll(report, tools)), ShaOf) == KeysOf(report.matches, tools.matchSha)
  {
    var members := AllMembers(LinkedAll(report, tools));
    KeysOfMeans(members, ShaOf);
    KeysOfMeans(report.matches, tools.matchSha);
    forall a, b | a in members && b in members && a.nativeSha == b.nativeSha ensures a == b {
      MembersListed(report, tools, a);
      MembersListed(report, tools, b);
      var x :| x in report.matches && Bind(tools, x) == a;
      var y :| y in report.matches && Bind(tools, y) == b;
    }
    forall k | k in KeysOf(members, ShaOf) ensures k in KeysOf(report.matches, tools.matchSha) {
      var m :| m in members && ShaOf(m) == k;
      MembersListed(report, tools, m);
      var x :| x in report.matches && Bind(tools, x) == m;
      assert tools.matchSha(x) == k;
    }
    forall k | k in KeysOf(report.matches, tools.matchSha) ensures k in KeysOf(members, ShaOf) {
      var x :| x in report.matches && tools.matchSha(x) == k;
      MembersListed(report, tools, Bind(tools, x));
      assert ShaOf(Bind(tools, x)) == k;
    }
  }

  // An eligible occurrence has one native match, and its rule one result.
  lemma SoleMatch(report: Report, tools: Tools, o: Occurrence) returns (m: Match)
    requires OnePerMatch(report, tools) && o in LinkedAll(report, tools) && o.eligible
    ensures m in report.matches && RuleIdOf(m) == o.ruleId && o.nativeSha == Some(tools.matchSha(m))
    ensures Positions(report.results, o.ruleId) == [o.resultIndex]
  {
    var id := o.ruleId;
    FilterMembers(report.matches, RuleIs(id));
    m := Members(report.matches, id)[0];
    assert m in Members(report.matches, id);
    OnlyPosition(report.results, id, o.resultIndex);
  }

  lemma OnlyPosition(results: seq<Result>, id: string, i: nat)
    requires |Positions(results, id)| == 1 && i < |results| && results[i].ruleId == id
    ensures Positions(results, id) == [i]
  {
    PositionsMember(results, id, i);
  }

  lemma SameNativeSameResult(report: Report, tools: Tools, a: Occurrence, b: Occurrence)
    requires OnePerMatch(report, tools) && a in LinkedAll(report, tools) && b in LinkedAll(report, tools)
    requires a.eligible && b.eligible
    ensures a.nativeSha == b.nativeSha ==> a.resultIndex == b.resultIndex
  {
    var x := SoleMatch(report, tools, a);
    var y := SoleMatch(report, tools, b);
  }

  lemma EligibleDistinct(report: Report, tools: Tools)
    requires OnePerMatch(report, tools)
    ensures Distinct(EligibleOnes(LinkedAll(report, tools)), NativeOf)
  {
    var all := LinkedAll(report, tools);
    assert Distinct(all, IndexOf);
    FilterDistinct(all, IsEligible, IndexOf);
    FilterMembers(all, IsEligible);
    var eligible := EligibleOnes(all);
    forall a, b | a in eligible && b in eligible ensures NativeOf(a) == NativeOf(b) ==> IndexOf(a) == IndexOf(b) {
      SameNativeSameResult(report, tools, a, b);
    }
  }

  lemma IndexesAreAll(report: Report, tools: Tools)
    ensures KeysOf(LinkedAll(report, tools), IndexOf) == Range(|report.results|)
  {
    var all, n := LinkedAll(report, tools), |report.results|;
    KeysOfMeans(all, IndexOf);
    forall i: nat | i < n ensures i in KeysOf(all, IndexOf) {
      assert all[i] in all;
      assert IndexOf(all[i]) == i;
    }
    forall k | k in KeysOf(all, IndexOf) ensures k < n {
      var o := KeyFrom(all, IndexOf, k);
    }
  }

  /** What `map_findings` returns passes every inventory check of `derive`. */
  lemma LinkedInventoried(report: Report, tools: Tools)
    requires OnePerMatch(report, tools)
    ensures Inventoried(LinkedAll(report, tools), |report.results|)
  {
    var all := LinkedAll(report, tools);
    IndexesAreAll(report, tools);
    EligibleDistinct(report, tools);
    KeysCount(EligibleOnes(all), NativeOf);
    MembersAreMatches(report, tools);
    AsManyMatches(report, tools);
    KeysCount(AllMembers(all), ShaOf);
    KeysCount(report.matches, tools.matchSha);
  }

  lemma TableEntry(occurrences: seq<Occurrence>, k: Option<string>)
    requires k in Table(occurrences)
    ensures var o := Table(occurrences)[k]; o in occurrences && o.eligible && o.nativeSha == k
  {
    IndexKeys(EligibleOnes(occurrences), NativeOf);
    FilterMembers(occurrences, IsEligible);
  }

  /** A decision on an eligible result of a linked report names a native member and finds its result. */
  lemma LinkedNamesMembers(report: Report, tools: Tools, k: Option<string>)
    requires OnePerMatch(report, tools) && k in Table(LinkedAll(report, tools))
    ensures k.Some? && k.value in Index(AllMembers(LinkedAll(report, tools)), ShaOf)
    ensures var o := Table(LinkedAll(report, tools))[k];
      o.resultIndex < |report.results| && tools.resultSha(report.results[o.resultIndex]) == o.resultSha
  {
    var all := LinkedAll(report, tools);
    TableEntry(all, k);
    var o := Table(all)[k];
    EligibleIsMember(report, tools, o);
    var i :| 0 <= i < |all| && all[i] == o;
  }

  lemma EligibleIsMember(report: Report, tools: Tools, o: Occurrence)
    requires OnePerMatch(report, tools) && o in LinkedAll(report, tools) && o.eligible
    ensures o.nativeSha.Some? && o.nativeSha.value in Index(AllMembers(LinkedAll(report, tools)), ShaOf)
  {
    var m := SoleMatch(report, tools, o);
    MembersAreMatches(report, tools);
    KeysOfMeans(report.matches, tools.matchSha);
    KeysCount(AllMembers(LinkedAll(report, tools)), ShaOf);
  }

  /**
    From scan to summary: with the observation that `map_findings` made of a report, the
    decisions that are documented and bound, one per native match, are exactly the ones
    accepted, and the severities of the active native matches add up to their count.
    */
  lemma LinkedThenDerived(report: Report, tools: Tools, review: Review, decisions: seq<Decision>)
    requires Linkable(report, tools)
    requires review.observation.occurrences == LinkedAll(report, tools) && review.resultSha == tools.resultSha
    ensures var table := Table(LinkedAll(report, tools));
      Derivable(review, report.results, decisions) <==>
        && Distinct(decisions, DecidedOn)
        && forall d <- decisions :: d.native in table && Documented(review, d) && Bound(review, d, table[d.native])
    ensures Derivable(review, report.results, decisions) ==>
      NamesMembers(Index(AllMembers(LinkedAll(report, tools)), ShaOf), KeysOf(decisions, DecidedOn))
  {
    var all := LinkedAll(report, tools);
    var table := Table(all);
    LinkableOnePerMatch(report, tools);
    LinkedInventoried(report, tools);
    DecidedExactly(review, report.results, decisions);
    forall d | d in decisions && d.native in table
      ensures Fits(review, table, report.results, d) <==> Documented(review, d) && Bound(review, d, table[d.native])
    {
      LinkedNamesMembers(report, tools, d.native);
    }
    if Derivable(review, report.results, decisions) {
      KeysOfMeans(decisions, DecidedOn);
      forall k | k in KeysOf(decisions, DecidedOn) ensures k.Some? && k.value in Index(AllMembers(all), ShaOf) {
        var d :| d in decisions && DecidedOn(d) == k;
        assert Fits(review, table, report.results, d);
        LinkedNamesMembers(report, tools, k);
      }
    }
  }
}
