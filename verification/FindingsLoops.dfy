/**
  The loops of `map_findings`, codebuild/exact_image_disposition.py: dictionaries are
  filled in turn, and the linked results are sorted by position. They link exactly the
  reports that Findings.Linkable describes, each result to what Findings.Linked says.
  */
module FindingsLoops {
  import opened Options
  import opened Keyed
  import opened Sorting
  import opened Findings

  // A dictionary by key; None on a repeated key.
  method IndexLoop<T, K(==)>(s: seq<T>, key: T -> K) returns (r: Option<map<K, T>>)
    ensures r == if Distinct(s, key) then Some(Index(s, key)) else None
  {
    var table: map<K, T> := map[];
    var i := 0;
    while i < |s|
      invariant 0 <= i <= |s|
      invariant table == Index(s[..i], key) && Distinct(s[..i], key) && table.Keys == KeysOf(s[..i], key)
    {
      assert s[..i + 1] == s[..i] + [s[i]];
      DistinctSnoc(s[..i], s[i], key);
      if key(s[i]) in table {
        return None;
      }
      table := table[key(s[i]) := s[i]];
      i := i + 1;
    }
    assert s[..|s|] == s;
    r := Some(table);
  }

  // ---------- Native matches by rule ----------

  predicate GroupedBy(matches: seq<Match>, groups: map<string, seq<Match>>) {
    groups.Keys == RuleIds(matches) && forall id <- groups :: groups[id] == Members(matches, id)
  }

  function WithMatch(groups: map<string, seq<Match>>, m: Match): map<string, seq<Match>> {
    var id := RuleIdOf(m);
    groups[id := (if id in groups then groups[id] else []) + [m]]
  }

  lemma GroupedSnoc(front: seq<Match>, m: Match, groups: map<string, seq<Match>>)
    requires GroupedBy(front, groups)
    ensures GroupedBy(front + [m], WithMatch(groups, m))
  {
    var id := RuleIdOf(m);
    DistinctSnoc(front, m, RuleIdOf);
    if id !in groups { AbsentGroup(front, id); }
    var more := WithMatch(groups, m);
    forall k | k in more ensures Members(front + [m], k) == more[k] {
    }
  }

  predicate MatchesBound(artifacts: map<string, Artifact>, matches: seq<Match>) {
    forall m <- matches :: MatchBound(artifacts, m)
  }

  lemma BoundSnoc(artifacts: map<string, Artifact>, matches: seq<Match>, i: nat)
    requires i < |matches|
    ensures matches[..i + 1] == matches[..i] + [matches[i]]
    ensures MatchesBound(artifacts, matches[..i + 1]) <==>
            MatchesBound(artifacts, matches[..i]) && MatchBound(artifacts, matches[i])
    ensures MatchesBound(artifacts, matches) ==> MatchBound(artifacts, matches[i])
  {
  }

  method GroupMatches(artifacts: map<string, Artifact>, matches: seq<Match>, tools: Tools)
    returns (r: Option<map<string, seq<Match>>>)
    ensures r.Some? <==> MatchesBound(artifacts, matches) && Distinct(matches, tools.matchSha)
    ensures r.Some? ==> GroupedBy(matches, r.value)
  {
    var groups: map<string, seq<Match>>, hashes: set<string> := map[], {};
    var i := 0;
    while i < |matches|
      invariant 0 <= i <= |matches|
      invariant MatchesBound(artifacts, matches[..i])
      invariant Distinct(matches[..i], tools.matchSha) && hashes == KeysOf(matches[..i], tools.matchSha)
      invariant GroupedBy(matches[..i], groups)
    {
      var m := matches[i];
      BoundSnoc(artifacts, matches, i);
      if !MatchBound(artifacts, m) { return None; }
      var digest := tools.matchSha(m);
      DistinctSnoc(matches[..i], m, tools.matchSha);
      if digest in hashes {
        NotDistinct(matches, i + 1, tools.matchSha);
        return None;
      }
      hashes := hashes + {digest};
      GroupedSnoc(matches[..i], m, groups);
      groups := WithMatch(groups, m);
      i := i + 1;
    }
    assert matches[..|matches|] == matches;
    r := Some(groups);
  }

  // ---------- SARIF results by rule ----------

  predicate PlacedBy(results: seq<Result>, groups: map<string, seq<nat>>) {
    groups.Keys == KeysOf(results, IdOfResult) && forall id <- groups :: groups[id] == Positions(results, id)
  }

  lemma PlacedSnoc(front: seq<Result>, result: Result, groups: map<string, seq<nat>>)
    requires PlacedBy(front, groups)
    ensures PlacedBy(front + [result], WithPosition(groups, result.ruleId, |front|))
  {
    var id := result.ruleId;
    var s := front + [result];
    assert s[..|front|] == front;
    if id !in groups { AbsentPositions(front, id); }
    forall k | k in groups && k != id ensures Positions(s, k) == groups[k] {
      assert Positions(front, k) + [] == Positions(front, k);
    }
  }

  predicate Admitted(results: seq<Result>, known: set<string>) {
    forall x <- results :: x.suppressions == [] && x.ruleId in known
  }

  lemma AdmittedSnoc(results: seq<Result>, i: nat, known: set<string>)
    requires i < |results|
    ensures results[..i + 1] == results[..i] + [results[i]]
    ensures Admitted(results[..i + 1], known) <==>
            Admitted(results[..i], known) && results[i].suppressions == [] && results[i].ruleId in known
    ensures Admitted(results, known) ==> results[i].suppressions == [] && results[i].ruleId in known
  {
  }

  function WithPosition(groups: map<string, seq<nat>>, id: string, i: nat): map<string, seq<nat>> {
    groups[id := (if id in groups then groups[id] else []) + [i]]
  }

  method GroupResults(results: seq<Result>, known: set<string>) returns (r: Option<map<string, seq<nat>>>)
    ensures r.Some? <==> Admitted(results, known)
    ensures r.Some? ==> PlacedBy(results, r.value)
  {
    var groups: map<string, seq<nat>> := map[];
    var i := 0;
    while i < |results|
      invariant 0 <= i <= |results|
      invariant Admitted(results[..i], known)
      invariant PlacedBy(results[..i], groups)
    {
      var result := results[i];
      AdmittedSnoc(results, i, known);
      if result.suppressions != [] || result.ruleId !in known { return None; }
      PlacedSnoc(results[..i], result, groups);
      groups := WithPosition(groups, result.ruleId, i);
      i := i + 1;
    }
    assert results[..|results|] == results;
    r := Some(groups);
  }

  // ---------- One rule ----------

  const PositionOf := (o: Occurrence) => o.resultIndex
  const ByPosition := (a: Occurrence, b: Occurrence) => a.resultIndex <= b.resultIndex

  function LinkedAt(report: Report, tools: Tools, positions: seq<nat>): seq<Occurrence>
    requires forall k :: 0 <= k < |positions| ==> positions[k] < |report.results|
  {
    seq(|positions|, k requires 0 <= k < |positions| => Linked(report, tools, positions[k]))
  }

  // The loop over the results of one rule.
  method LinkResults(rule: Rule, tools: Tools, members: seq<Match>, eligible: bool, results: seq<Result>, positions: seq<nat>)
    returns (r: Option<seq<Occurrence>>)
    requires |results| == |positions|
    ensures r.Some? <==> SeveritiesBound(rule, members, eligible, tools, results)
    ensures r.Some? ==> |r.value| == |results|
    ensures r.Some? ==> forall k :: 0 <= k < |results| ==>
      r.value[k] == Occur(tools, positions[k], results[k], members, eligible)
  {
    var mappings: seq<Occurrence> := [];
    var k := 0;
    while k < |results|
      invariant 0 <= k <= |results| && |mappings| == k
      invariant SeveritiesBound(rule, members, eligible, tools, results[..k])
      invariant forall j :: 0 <= j < k ==> mappings[j] == Occur(tools, positions[j], results[j], members, eligible)
    {
      assert results[..k + 1] == results[..k] + [results[k]];
      assert results[k] in results;
      if !SeverityBound(rule, members, eligible, tools.severity(results[k])) { return None; }
      mappings := mappings + [Occur(tools, positions[k], results[k], members, eligible)];
      k := k + 1;
    }
    assert results[..|results|] == results;
    r := Some(mappings);
  }

  method LinkRule(report: Report, tools: Tools, artifacts: map<string, Artifact>, rule: Rule,
                  members: seq<Match>, positions: seq<nat>)
    returns (r: Option<seq<Occurrence>>)
    requires artifacts == Index(report.sbom, ArtifactId)
    requires rule.id in Index(report.rules, IdOfRule) && Index(report.rules, IdOfRule)[rule.id] == rule
    requires members == Members(report.matches, rule.id) && positions == Positions(report.results, rule.id)
    ensures forall k :: 0 <= k < |positions| ==> positions[k] in positions
    ensures r == if RuleLinkable(report, tools, rule.id) then Some(LinkedAt(report, tools, positions)) else None
  {
    var results := ResultsAt(report.results, positions);
    if !RuleBound(artifacts, rule, members, results, report.image) { return None; }
    var eligible := Eligible(artifacts, members);
    r := LinkResults(rule, tools, members, eligible, results, positions);
    assert forall k :: 0 <= k < |positions| ==> positions[k] in positions;
    assert r.Some? ==> r.value == LinkedAt(report, tools, positions);
  }

  // ---------- All rules ----------

  // The occurrences of the rules that are done.
  predicate Collected(report: Report, tools: Tools, done: set<string>, mappings: seq<Occurrence>) {
    && Distinct(mappings, PositionOf)
    && (forall o <- mappings :: Belongs(report, tools, done, o))
    && (forall i :: 0 <= i < |report.results| && report.results[i].ruleId in done ==> Linked(report, tools, i) in mappings)
  }

  predicate Belongs(report: Report, tools: Tools, done: set<string>, o: Occurrence) {
    o.resultIndex < |report.results| && o == Linked(report, tools, o.resultIndex) && o.ruleId in done
  }

  lemma LinkedAtMembers(report: Report, tools: Tools, id: string)
    ensures var positions := Positions(report.results, id);
      && (forall k :: 0 <= k < |positions| ==> positions[k] in positions)
      && Distinct(LinkedAt(report, tools, positions), PositionOf)
      && (forall o <- LinkedAt(report, tools, positions) :: Belongs(report, tools, {id}, o))
      && (forall i :: 0 <= i < |report.results| && report.results[i].ruleId == id
                      ==> Linked(report, tools, i) in LinkedAt(report, tools, positions))
  {
    var positions := Positions(report.results, id);
    PositionsAscend(report.results, id);
    assert forall k :: 0 <= k < |positions| ==> positions[k] in positions;
    var linked := LinkedAt(report, tools, positions);
    forall i | 0 <= i < |report.results| && report.results[i].ruleId == id ensures Linked(report, tools, i) in linked {
      PositionsMember(report.results, id, i);
      var k :| 0 <= k < |positions| && positions[k] == i;
      assert linked[k] == Linked(report, tools, i);
    }
  }

  lemma CollectedMore(report: Report, tools: Tools, done: set<string>, mappings: seq<Occurrence>, id: string)
    requires Collected(report, tools, done, mappings) && id !in done
    ensures var positions := Positions(report.results, id);
      && (forall k :: 0 <= k < |positions| ==> positions[k] in positions)
      && Collected(report, tools, done + {id}, mappings + LinkedAt(report, tools, positions))
  {
    LinkedAtMembers(report, tools, id);
    var more := LinkedAt(report, tools, Positions(report.results, id));
    forall x, y | x in mappings && y in more ensures x.resultIndex != y.resultIndex {
      assert Belongs(report, tools, done, x) && Belongs(report, tools, {id}, y);
    }
    forall o | o in mappings + more ensures Belongs(report, tools, done + {id}, o) {
      assert o in mappings ==> Belongs(report, tools, done, o);
      assert o in more ==> Belongs(report, tools, {id}, o);
    }
  }

  lemma CollectedIsAll(report: Report, tools: Tools, done: set<string>, mappings: seq<Occurrence>)
    requires Collected(report, tools, done, mappings)
    requires forall x <- report.results :: x.ruleId in done
    ensures multiset(mappings) == multiset(LinkedAll(report, tools))
  {
    var all := LinkedAll(report, tools);
    assert Distinct(all, PositionOf);
    forall o ensures multiset(mappings)[o] == multiset(all)[o] {
      DistinctCounts(mappings, PositionOf, o);
      DistinctCounts(all, PositionOf, o);
      if o in mappings {
        assert Belongs(report, tools, done, o);
        assert all[o.resultIndex] == o;
      }
      if o in all {
        var i :| 0 <= i < |all| && all[i] == o;
        assert report.results[i] in report.results;
      }
    }
  }

  // Sorting what was collected for all rules puts every result at its position.
  lemma CollectedSorted(report: Report, tools: Tools, done: set<string>, mappings: seq<Occurrence>)
    requires Collected(report, tools, done, mappings)
    requires forall x <- report.results :: x.ruleId in done
    ensures Sort(mappings, ByPosition) == LinkedAll(report, tools)
  {
    CollectedIsAll(report, tools, done, mappings);
    SortPermutes(mappings, ByPosition);
    SortSorts(mappings, ByPosition);
    OnlyPositions(report, tools, Sort(mappings, ByPosition));
  }

  lemma OnlyPositions(report: Report, tools: Tools, s: seq<Occurrence>)
    requires Sorted(s, ByPosition) && multiset(s) == multiset(LinkedAll(report, tools))
    ensures s == LinkedAll(report, tools)
  {
    var all := LinkedAll(report, tools);
    forall a | a in s ensures a.resultIndex < |all| && all[a.resultIndex] == a {
      assert a in multiset(all);
    }
    assert Sorted(all, ByPosition);
    SortedOnce(s, all, ByPosition);
  }

  // A rule without results cannot be linked.
  lemma AllPlaced(report: Report, tools: Tools, groups: map<string, seq<Match>>, placed: map<string, seq<nat>>)
    requires GroupedBy(report.matches, groups) && PlacedBy(report.results, placed)
    requires Admitted(report.results, groups.Keys)
    ensures Linkable(report, tools) ==> placed.Keys == groups.Keys
  {
    KeysOfMeans(report.results, IdOfResult);
    assert placed.Keys <= groups.Keys;
    forall id | id in groups && id !in placed ensures !RuleLinkable(report, tools, id) {
      AbsentPositions(report.results, id);
    }
  }

  /** A report with the dictionaries that the loops over its documents fill. */
  datatype Tables = Tables(report: Report, artifacts: map<string, Artifact>, groups: map<string, seq<Match>>,
                           rules: map<string, Rule>, placed: map<string, seq<nat>>)

  predicate Tabled(t: Tables) {
    && t.artifacts == Index(t.report.sbom, ArtifactId) && t.rules == Index(t.report.rules, IdOfRule)
    && GroupedBy(t.report.matches, t.groups) && PlacedBy(t.report.results, t.placed)
    && t.rules.Keys == t.groups.Keys == t.placed.Keys
  }

  type FilledTables = t: Tables | Tabled(t)
    witness Tables(Report(Header("", 0, "", None, ""), [], [], [], [], ""), map[], map[], map[], map[])

  predicate RulesLinkable(report: Report, tools: Tools, ids: set<string>) {
    forall id <- ids :: RuleLinkable(report, tools, id)
  }

  lemma NoneCollected(report: Report, tools: Tools)
    ensures Collected(report, tools, {}, [])
  {
  }

  method LinkNext(t: FilledTables, tools: Tools, ghost done: set<string>, mappings: seq<Occurrence>, id: string)
    returns (r: Option<seq<Occurrence>>)
    requires id in t.groups && id !in done
    requires Collected(t.report, tools, done, mappings)
    ensures r.Some? <==> RuleLinkable(t.report, tools, id)
    ensures r.Some? ==> Collected(t.report, tools, done + {id}, r.value)
  {
    IndexKeys(t.report.rules, IdOfRule);
    var linked := LinkRule(t.report, tools, t.artifacts, t.rules[id], t.groups[id], t.placed[id]);
    if linked.None? { return None; }
    CollectedMore(t.report, tools, done, mappings, id);
    r := Some(mappings + linked.value);
  }

  // The ids that are done, all of them good ones, and the ids that are left.
  predicate DoneGood(ids: set<string>, done: set<string>, todo: set<string>, good: set<string>) {
    done == ids - todo && todo <= ids && done <= good
  }

  lemma DoneGoodMore(ids: set<string>, done: set<string>, todo: set<string>, good: set<string>, id: string)
    requires DoneGood(ids, done, todo, good) && id in todo
    ensures id in ids && id !in done && |todo - {id}| < |todo|
    ensures id in good ==> DoneGood(ids, done + {id}, todo - {id}, good)
  {
  }

  // The loop over the rules, in any order; `good` has the rules that can be linked.
  method LinkRules(t: FilledTables, tools: Tools, ghost good: set<string>) returns (r: Option<seq<Occurrence>>)
    requires forall id <- t.groups {:trigger RuleLinkable(t.report, tools, id)} ::
      RuleLinkable(t.report, tools, id) <==> id in good
    ensures r.Some? <==> t.groups.Keys <= good
    ensures r.Some? ==> Collected(t.report, tools, t.groups.Keys, r.value)
  {
    var ids := t.groups.Keys;
    var todo, mappings: seq<Occurrence> := ids, [];
    ghost var done := {};
    NoneCollected(t.report, tools);
    while todo != {}
      invariant DoneGood(ids, done, todo, good)
      invariant Collected(t.report, tools, done, mappings)
      decreases |todo|
    {
      var id :| id in todo;
      DoneGoodMore(ids, done, todo, good, id);
      var more := LinkNext(t, tools, done, mappings, id);
      if more.None? { return None; }
      done := done + {id};
      todo, mappings := todo - {id}, more.value;
    }
    assert done == ids;
    r := Some(mappings);
  }

  // The loops over the documents.
  method Fill(report: Report, tools: Tools) returns (r: Option<FilledTables>)
    ensures r.None? ==> !Linkable(report, tools)
    ensures r.Some? ==> r.value.report == report
    ensures r.Some? ==> (Linkable(report, tools) <==> RulesLinkable(report, tools, r.value.groups.Keys))
  {
    if !Supported(report.header) { return None; }
    var artifacts := IndexLoop(report.sbom, ArtifactId);
    if artifacts.None? { return None; }
    var groups := GroupMatches(artifacts.value, report.matches, tools);
    if groups.None? { return None; }
    var rules := IndexLoop(report.rules, IdOfRule);
    if rules.None? || rules.value.Keys != groups.value.Keys { return None; }
    var placed := GroupResults(report.results, groups.value.Keys);
    if placed.None? { return None; }
    AllPlaced(report, tools, groups.value, placed.value);
    if placed.value.Keys != groups.value.Keys { return None; }
    r := Some(Tables(report, artifacts.value, groups.value, rules.value, placed.value));
  }

  /** `map_findings`: None where the program raises. */
  method MapFindings(report: Report, tools: Tools) returns (r: Option<seq<Occurrence>>)
    ensures r == if Linkable(report, tools) then Some(LinkedAll(report, tools)) else None
  {
    var filled := Fill(report, tools);
    if filled.None? { return None; }
    ghost var keys := filled.value.groups.Keys;
    var mappings := LinkRules(filled.value, tools, set id | id in keys && RuleLinkable(report, tools, id));
    if mappings.None? { return None; }
    AllDone(filled.value, tools, mappings.value);
    r := Some(Sort(mappings.value, ByPosition));
  }

  lemma AllDone(t: FilledTables, tools: Tools, mappings: seq<Occurrence>)
    requires Collected(t.report, tools, t.groups.Keys, mappings)
    ensures Sort(mappings, ByPosition) == LinkedAll(t.report, tools)
  {
    KeysOfMeans(t.report.results, IdOfResult);
    CollectedSorted(t.report, tools, t.groups.Keys, mappings);
  }
}
