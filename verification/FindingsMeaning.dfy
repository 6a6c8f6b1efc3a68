/**
  Which reports are linked and what each result is linked to, read off the artifacts,
  matches, rules and results one by one, without dictionaries and groups.
  */
module FindingsMeaning {
  import opened Options
  import opened Sequences
  import opened Keyed
  import opened Lettercase
  import opened Paths
  import opened Rearrangement
  import opened Findings

  // ---------- one match ----------

  /** The rule identifier that the presenter makes of a match. */
  predicate IsOf(m: Match, id: string) {
    id == m.advisory + "-" + m.artifact.package.name
  }

  /** The match is of this listed artifact: the same package, of a supported origin, and at
      the same places when it is an embedded file. */
  predicate IsListed(m: Match, a: Artifact) {
    && a.package == m.artifact.package && a.origin != UnsupportedDebian
    && (a.origin == EmbeddedElf ==> a.locations == m.artifact.locations)
  }

  predicate Low(severity: string) {
    severity != "critical" && severity != "high" && severity != "medium"
  }

  /** The help text has exactly one value of each field, and they are those of the match;
      severities below medium are rendered as low. */
  predicate Describes(rule: Rule, m: Match) {
    var h, severity := rule.help, Lower(m.severity);
    && h.advisory == [m.advisory] && rule.purls == [m.artifact.package.purl]
    && h.namespace == [m.namespace] && m.namespace != ""
    && h.package == [m.artifact.package.name] && m.artifact.package.name != ""
    && h.version == [m.artifact.package.version] && m.artifact.package.version != ""
    && h.kind == [m.artifact.package.kind] && m.artifact.package.kind != ""
    && |h.severity| == 1 && h.severity[0] != ""
    && Lower(h.severity[0]) == if Low(severity) then "low" else severity
  }

  // ---------- severities ----------

  /** Severities from the least to the greatest; those of one set are alike. */
  const LADDER: seq<set<string>> :=
    [{"unknown", "unrated"}, {"negligible"}, {"low"}, {"medium"}, {"high"}, {"critical"}]

  predicate Known(severity: string) {
    exists i :: 0 <= i < |LADDER| && severity in LADDER[i]
  }

  predicate AtMostAsSevere(a: string, b: string) {
    exists i, j :: 0 <= i <= j < |LADDER| && a in LADDER[i] && b in LADDER[j]
  }

  lemma LadderExactly(severity: string)
    ensures forall i :: 0 <= i < |LADDER| ==> (severity in LADDER[i] <==> Rank(severity) == Some(i - 1))
  {
    assert |"unknown"| == 7 && |"unrated"| == 7 && |"negligible"| == 10 && |"low"| == 3 && |"medium"| == 6;
    assert |"high"| == 4 && |"critical"| == 8;
    assert LADDER[0] == {"unknown", "unrated"} && LADDER[1] == {"negligible"} && LADDER[2] == {"low"};
    assert LADDER[3] == {"medium"} && LADDER[4] == {"high"} && LADDER[5] == {"critical"};
    assert "unknown"[2] == 'k' && "unrated"[2] == 'r';
  }

  lemma KnownExactly(a: string, b: string)
    ensures Known(a) <==> Rank(a).Some?
    ensures AtMostAsSevere(a, b) <==> Rank(a).Some? && Rank(b).Some? && Rank(a).value <= Rank(b).value
  {
    LadderExactly(a);
    LadderExactly(b);
    if Rank(a).Some? {
      assert a in LADDER[Rank(a).value + 1];
      if Rank(b).Some? { assert b in LADDER[Rank(b).value + 1]; }
    }
  }

  // ---------- the matches and results of a rule ----------

  lemma MembersExactly(matches: seq<Match>, id: string, m: Match)
    ensures m in Members(matches, id) <==> m in matches && IsOf(m, id)
  {
    FilterMembers(matches, RuleIs(id));
  }

  function MatchesAt(matches: seq<Match>, id: string): set<nat> {
    set i: nat | i < |matches| && IsOf(matches[i], id)
  }

  function ResultsOf(results: seq<Result>, id: string): set<nat> {
    set i: nat | i < |results| && results[i].ruleId == id
  }

  lemma OneMore(matches: seq<Match>, m: Match, id: string)
    ensures |MatchesAt(matches + [m], id)| == |MatchesAt(matches, id)| + if IsOf(m, id) then 1 else 0
  {
    var before := MatchesAt(matches, id);
    assert |matches| !in before;
    assert MatchesAt(matches + [m], id) == if IsOf(m, id) then before + {|matches|} else before;
  }

  lemma {:induction false} MembersCount(matches: seq<Match>, id: string)
    ensures |Members(matches, id)| == |MatchesAt(matches, id)|
  {
    if matches != [] {
      var front, last := matches[..|matches| - 1], matches[|matches| - 1];
      assert matches == front + [last];
      MembersCount(front, id);
      OneMore(front, last, id);
    }
  }

  lemma OneMoreResult(results: seq<Result>, r: Result, id: string)
    ensures |ResultsOf(results + [r], id)| == |ResultsOf(results, id)| + if r.ruleId == id then 1 else 0
  {
    var before := ResultsOf(results, id);
    assert |results| !in before;
    assert ResultsOf(results + [r], id) == if r.ruleId == id then before + {|results|} else before;
  }

  lemma {:induction false} PositionsCount(results: seq<Result>, id: string)
    ensures |Positions(results, id)| == |ResultsOf(results, id)|
  {
    if results != [] {
      var front, last := results[..|results| - 1], results[|results| - 1];
      assert results == front + [last];
      PositionsCount(front, id);
      OneMoreResult(front, last, id);
    }
  }

  /** The one match of a rule. */
  predicate Only(matches: seq<Match>, id: string, m: Match) {
    m in matches && IsOf(m, id) && |MatchesAt(matches, id)| == 1
  }

  lemma OnlyExactly(matches: seq<Match>, id: string, m: Match)
    ensures Only(matches, id, m) <==> Members(matches, id) == [m]
  {
    MembersCount(matches, id);
    MembersExactly(matches, id, m);
    var members := Members(matches, id);
    if |members| == 1 && m in members { assert members[0] == m; }
    if members == [m] { assert members[0] == m && m in members; }
  }

  // ---------- the artifacts ----------

  predicate DistinctIds(sbom: seq<Artifact>) {
    forall i, j :: 0 <= i < j < |sbom| ==> sbom[i].package.id != sbom[j].package.id
  }

  lemma ListedAs(sbom: seq<Artifact>, id: string, a: Artifact)
    requires DistinctIds(sbom)
    ensures id in Index(sbom, ArtifactId) && Index(sbom, ArtifactId)[id] == a <==> a in sbom && a.package.id == id
  {
    IndexKeys(sbom, ArtifactId);
    if a in sbom && a.package.id == id {
      var i :| 0 <= i < |sbom| && sbom[i] == a;
      forall x, y | 0 <= x < y < |sbom| ensures ArtifactId(sbom[x]) != ArtifactId(sbom[y]) {
      }
      IndexAt(sbom, ArtifactId, i);
    }
    if id in Index(sbom, ArtifactId) && Index(sbom, ArtifactId)[id] == a {
      assert ArtifactId(a) == id;
    }
  }

  lemma BoundExactly(sbom: seq<Artifact>, m: Match)
    requires DistinctIds(sbom)
    ensures MatchBound(Index(sbom, ArtifactId), m) <==> exists a <- sbom :: IsListed(m, a)
  {
    var artifacts, id := Index(sbom, ArtifactId), m.artifact.package.id;
    forall a ensures id in artifacts && artifacts[id] == a <==> a in sbom && a.package.id == id {
      ListedAs(sbom, id, a);
    }
    if MatchBound(artifacts, m) { assert IsListed(m, artifacts[id]) && artifacts[id] in sbom; }
    if exists a <- sbom :: IsListed(m, a) {
      var a :| a in sbom && IsListed(m, a);
      assert artifacts[id] == a;
    }
  }

  // ---------- eligibility ----------

  /** The match's artifact is listed as an installed package. */
  predicate Installed(sbom: seq<Artifact>, m: Match) {
    exists a <- sbom :: a.package.id == m.artifact.package.id && a.origin == RootDpkg
  }

  /** A decision may be taken on the rule: it has one match, of an installed package, with
      a severity from low to critical. */
  predicate MayDecide(report: Report, id: string) {
    exists m <- report.matches ::
      && Only(report.matches, id, m) && Installed(report.sbom, m)
      && (Lower(m.severity) == "low" || Lower(m.severity) == "medium" || Lower(m.severity) == "high"
          || Lower(m.severity) == "critical")
  }

  lemma EligibleExactly(report: Report, id: string)
    requires DistinctIds(report.sbom)
    ensures Eligible(Index(report.sbom, ArtifactId), Members(report.matches, id)) <==> MayDecide(report, id)
  {
    var members, artifacts := Members(report.matches, id), Index(report.sbom, ArtifactId);
    forall m ensures Only(report.matches, id, m) <==> members == [m] {
      OnlyExactly(report.matches, id, m);
    }
    forall m ensures Installed(report.sbom, m) <==>
      m.artifact.package.id in artifacts && artifacts[m.artifact.package.id].origin == RootDpkg {
      InstalledExactly(report.sbom, m);
    }
    if |members| == 1 { assert members == [members[0]]; }
  }

  lemma InstalledExactly(sbom: seq<Artifact>, m: Match)
    requires DistinctIds(sbom)
    ensures Installed(sbom, m) <==>
      m.artifact.package.id in Index(sbom, ArtifactId) && Index(sbom, ArtifactId)[m.artifact.package.id].origin == RootDpkg
  {
    var id := m.artifact.package.id;
    forall a ensures id in Index(sbom, ArtifactId) && Index(sbom, ArtifactId)[id] == a <==> a in sbom && a.package.id == id {
      ListedAs(sbom, id, a);
    }
  }

  // ---------- the severities of a rule ----------

  /** The severity the gate resolves for a result is that of the help text, no lower than that
      of any match of the rule, and for a rule that may be decided that of its one match. */
  predicate SeverityFits(report: Report, rule: Rule, id: string, effective: string) {
    && |rule.help.severity| == 1 && effective == Lower(rule.help.severity[0]) && Known(effective)
    && (forall m <- report.matches | IsOf(m, id) :: AtMostAsSevere(Lower(m.severity), effective))
    && (MayDecide(report, id) ==>
          forall m <- report.matches | IsOf(m, id) :: effective == Lower(m.severity))
  }

  lemma SeverityExactly(report: Report, rule: Rule, id: string, effective: string)
    requires DistinctIds(report.sbom)
    ensures var members := Members(report.matches, id);
      SeverityBound(rule, members, Eligible(Index(report.sbom, ArtifactId), members), effective)
      <==> SeverityFits(report, rule, id, effective)
  {
    var members := Members(report.matches, id);
    EligibleExactly(report, id);
    KnownExactly(effective, effective);
    forall m ensures m in members <==> m in report.matches && IsOf(m, id) {
      MembersExactly(report.matches, id, m);
    }
    forall m | m in members
      ensures AtMostAsSevere(Lower(m.severity), effective) <==>
        Rank(Lower(m.severity)).Some? && Rank(effective).Some? && Rank(Lower(m.severity)).value <= Rank(effective).value
    {
      KnownExactly(Lower(m.severity), effective);
    }
    SeverityParts(rule, members, MayDecide(report, id), effective);
  }

  lemma SeverityParts(rule: Rule, members: seq<Match>, eligible: bool, effective: string)
    requires eligible ==> |members| == 1
    ensures SeverityBound(rule, members, eligible, effective) <==>
      && |rule.help.severity| == 1 && effective == Lower(rule.help.severity[0]) && Rank(effective).Some?
      && (forall m <- members :: Rank(Lower(m.severity)).Some? && Rank(Lower(m.severity)).value <= Rank(effective).value)
      && (eligible ==> forall m <- members :: effective == Lower(m.severity))
  {
    if eligible { assert members == [members[0]]; }
  }

  // ---------- the help text ----------

  lemma DescribesExactly(rule: Rule, m: Match)
    ensures Represents(rule, m) <==> Describes(rule, m)
  {
    var h := rule.help;
    assert |h.advisory| == 1 ==> h.advisory == [h.advisory[0]];
    assert |rule.purls| == 1 ==> rule.purls == [rule.purls[0]];
    assert |h.namespace| == 1 ==> h.namespace == [h.namespace[0]];
    assert |h.package| == 1 ==> h.package == [h.package[0]];
    assert |h.version| == 1 ==> h.version == [h.version[0]];
    assert |h.kind| == 1 ==> h.kind == [h.kind[0]];
    RenderedExactly(m);
  }

  lemma RenderedExactly(m: Match)
    ensures Rendered(m) == if Low(Lower(m.severity)) then "low" else Lower(m.severity)
  {
  }

  // ---------- the places of a rule ----------

  /** Where a location is: its path, and the image and layer with the accessed path. */
  predicate IsPlace(image: string, l: Location, place: Place) {
    && place.0 == l.path
    && place.1 == image + "@" + l.layerID + ":/"
                  + StripLeading(RemoveDotSlash(if l.accessPath != "" then l.accessPath else l.path))
  }

  /** The match has locations in a named image, and they are these, in some order. */
  ghost predicate StandsAt(m: Match, image: string, places: seq<Place>) {
    && m.artifact.locations.Some? && m.artifact.locations.value != [] && image != ""
    && var locations := m.artifact.locations.value;
       |places| == |locations| &&
       exists p :: Rearranges(p, |locations|) && forall i :: 0 <= i < |locations| ==> IsPlace(image, locations[i], places[p[i]])
  }

  lemma PlacesExactly(m: Match, image: string, places: seq<Place>)
    ensures NativeLocations(m, image) == Some(multiset(places)) <==> StandsAt(m, image, places)
  {
    if NativeLocations(m, image) == Some(multiset(places)) {
      var locations := m.artifact.locations.value;
      var p := RearrangementOf(Apply(locations, NativePlaceIn(image)), places);
      forall i | 0 <= i < |locations| ensures IsPlace(image, locations[i], places[p[i]]) {
        assert Apply(locations, NativePlaceIn(image))[i] == places[p[i]];
      }
    }
    if StandsAt(m, image, places) {
      var locations := m.artifact.locations.value;
      var p :| Rearranges(p, |locations|) && forall i :: 0 <= i < |locations| ==> IsPlace(image, locations[i], places[p[i]]);
      forall i | 0 <= i < |locations| ensures Apply(locations, NativePlaceIn(image))[i] == places[p[i]] {
        assert IsPlace(image, locations[i], places[p[i]]);
      }
      RearrangedSame(Apply(locations, NativePlaceIn(image)), places, p);
    }
  }

  predicate Shown(r: Result) {
    |r.physical| == 1 && r.physical[0] != []
  }

  predicate LocatedAs(sbom: seq<Artifact>, m: Match) {
    exists a <- sbom :: a.package.id == m.artifact.package.id && a.locations == m.artifact.locations
  }

  function RuleResults(report: Report, id: string): seq<Result> {
    ResultsAt(report.results, Positions(report.results, id))
  }

  lemma RuleResultsExactly(report: Report, id: string, r: Result)
    ensures r in RuleResults(report, id) <==> r in report.results && r.ruleId == id
  {
    var positions := Positions(report.results, id);
    if r in report.results && r.ruleId == id {
      var i :| 0 <= i < |report.results| && report.results[i] == r;
      PositionsMember(report.results, id, i);
      var k :| 0 <= k < |positions| && positions[k] == i;
      assert RuleResults(report, id)[k] == r;
    }
    if r in RuleResults(report, id) {
      var k :| 0 <= k < |positions| && RuleResults(report, id)[k] == r;
      PositionsMember(report.results, id, positions[k]);
      assert positions[k] in positions;
    }
  }

  /** The matches of a rule stand where its results are shown, each in one place. */
  ghost predicate Placed(report: Report, id: string) {
    var members, results := Members(report.matches, id), RuleResults(report, id);
    && (forall m <- members :: LocatedAs(report.sbom, m)) && (forall r <- results :: Shown(r))
    && |results| == |members|
    && exists p :: Rearranges(p, |members|) && forall i :: 0 <= i < |members| ==> MeetsAt(members[i], report.image, results[p[i]])
  }

  ghost predicate MeetsAt(m: Match, image: string, r: Result) {
    Shown(r) && StandsAt(m, image, r.physical[0])
  }

  lemma MeetsExactly(m: Match, image: string, r: Result)
    requires Shown(r)
    ensures NativeLocations(m, image) == SarifLocations(r) <==> MeetsAt(m, image, r)
    ensures MeetsAt(m, image, r) ==> NativeLocations(m, image).Some?
  {
    PlacesExactly(m, image, r.physical[0]);
  }

  lemma LocatedExactly(sbom: seq<Artifact>, m: Match)
    requires DistinctIds(sbom)
    ensures LocatedAs(sbom, m) <==>
      m.artifact.package.id in Index(sbom, ArtifactId)
      && m.artifact.locations == Index(sbom, ArtifactId)[m.artifact.package.id].locations
  {
    var id := m.artifact.package.id;
    forall a ensures id in Index(sbom, ArtifactId) && Index(sbom, ArtifactId)[id] == a <==> a in sbom && a.package.id == id {
      ListedAs(sbom, id, a);
    }
  }

  lemma SamePlacesPlaced(report: Report, id: string)
    requires DistinctIds(report.sbom)
    requires SamePlaces(Index(report.sbom, ArtifactId), Members(report.matches, id), RuleResults(report, id), report.image)
    ensures Placed(report, id)
  {
    var members, results := Members(report.matches, id), RuleResults(report, id);
    forall m | m in members ensures LocatedAs(report.sbom, m) { LocatedExactly(report.sbom, m); }
    var a, b := Apply(members, NativeLocationsIn(report.image)), Apply(results, SarifPlaces);
    var p := RearrangementOf(a, b);
    forall i | 0 <= i < |members| ensures MeetsAt(members[i], report.image, results[p[i]]) {
      assert a[i] == b[p[i]] && results[p[i]] in results;
      MeetsExactly(members[i], report.image, results[p[i]]);
    }
  }

  lemma PlacedSamePlaces(report: Report, id: string)
    requires DistinctIds(report.sbom) && Placed(report, id)
    ensures SamePlaces(Index(report.sbom, ArtifactId), Members(report.matches, id), RuleResults(report, id), report.image)
  {
    var members, results := Members(report.matches, id), RuleResults(report, id);
    var p :| Rearranges(p, |members|) && forall i :: 0 <= i < |members| ==> MeetsAt(members[i], report.image, results[p[i]]);
    var a, b := Apply(members, NativeLocationsIn(report.image)), Apply(results, SarifPlaces);
    forall i | 0 <= i < |members| ensures a[i] == b[p[i]] && NativeLocations(members[i], report.image).Some? {
      assert MeetsAt(members[i], report.image, results[p[i]]);
      MeetsExactly(members[i], report.image, results[p[i]]);
    }
    RearrangedSame(a, b, p);
    forall m | m in members
      ensures m.artifact.package.id in Index(report.sbom, ArtifactId)
      ensures m.artifact.locations == Index(report.sbom, ArtifactId)[m.artifact.package.id].locations
      ensures NativeLocations(m, report.image).Some?
    {
      LocatedExactly(report.sbom, m);
      var i :| 0 <= i < |members| && members[i] == m;
    }
  }

  // ---------- one rule ----------

  predicate HasEmbedded(report: Report, id: string) {
    exists m <- report.matches, a <- report.sbom ::
      IsOf(m, id) && a.package.id == m.artifact.package.id && a.origin == EmbeddedElf
  }

  lemma EmbeddedExactly(report: Report, id: string)
    requires DistinctIds(report.sbom)
    ensures Embedded(Index(report.sbom, ArtifactId), Members(report.matches, id)) <==> HasEmbedded(report, id)
  {
    var artifacts, members := Index(report.sbom, ArtifactId), Members(report.matches, id);
    forall m ensures m in members <==> m in report.matches && IsOf(m, id) {
      MembersExactly(report.matches, id, m);
    }
    if Embedded(artifacts, members) {
      var m :| m in members && m.artifact.package.id in artifacts && artifacts[m.artifact.package.id].origin.EmbeddedElf?;
      ListedAs(report.sbom, m.artifact.package.id, artifacts[m.artifact.package.id]);
    }
    if HasEmbedded(report, id) {
      var m, a :| m in report.matches && a in report.sbom && IsOf(m, id)
                  && a.package.id == m.artifact.package.id && a.origin == EmbeddedElf;
      ListedAs(report.sbom, m.artifact.package.id, a);
      assert m in members;
    }
  }

  /** A rule has as many results as matches and describes one of its matches; where it is
      shared or of an embedded file they stand at the same places; and every result has a
      severity that fits. */
  ghost predicate RuleFits(report: Report, tools: Tools, rule: Rule) {
    && |ResultsOf(report.results, rule.id)| == |MatchesAt(report.matches, rule.id)|
    && (exists m <- report.matches :: IsOf(m, rule.id) && Describes(rule, m))
    && (|MatchesAt(report.matches, rule.id)| != 1 || HasEmbedded(report, rule.id) ==> Placed(report, rule.id))
    && (forall r <- report.results | r.ruleId == rule.id :: SeverityFits(report, rule, rule.id, tools.severity(r)))
  }

  lemma RuleBoundExactly(report: Report, rule: Rule)
    requires DistinctIds(report.sbom)
    ensures RuleBound(Index(report.sbom, ArtifactId), rule, Members(report.matches, rule.id),
                      RuleResults(report, rule.id), report.image)
       <==> (|ResultsOf(report.results, rule.id)| == |MatchesAt(report.matches, rule.id)|
             && (exists m <- report.matches :: IsOf(m, rule.id) && Describes(rule, m))
             && (|MatchesAt(report.matches, rule.id)| != 1 || HasEmbedded(report, rule.id) ==> Placed(report, rule.id)))
  {
    MembersCount(report.matches, rule.id);
    PositionsCount(report.results, rule.id);
    EmbeddedExactly(report, rule.id);
    forall m ensures m in Members(report.matches, rule.id) <==> m in report.matches && IsOf(m, rule.id) {
      MembersExactly(report.matches, rule.id, m);
    }
    forall m ensures Represents(rule, m) <==> Describes(rule, m) { DescribesExactly(rule, m); }
    if Placed(report, rule.id) { PlacedSamePlaces(report, rule.id); }
    if SamePlaces(Index(report.sbom, ArtifactId), Members(report.matches, rule.id), RuleResults(report, rule.id), report.image) {
      SamePlacesPlaced(report, rule.id);
    }
  }

  lemma SeveritiesExactly(report: Report, tools: Tools, rule: Rule)
    requires DistinctIds(report.sbom)
    ensures var members := Members(report.matches, rule.id);
      SeveritiesBound(rule, members, Eligible(Index(report.sbom, ArtifactId), members), tools, RuleResults(report, rule.id))
      <==> forall r <- report.results | r.ruleId == rule.id :: SeverityFits(report, rule, rule.id, tools.severity(r))
  {
    forall r ensures r in RuleResults(report, rule.id) <==> r in report.results && r.ruleId == rule.id {
      RuleResultsExactly(report, rule.id, r);
    }
    forall r | r in RuleResults(report, rule.id)
      ensures var members := Members(report.matches, rule.id);
        SeverityBound(rule, members, Eligible(Index(report.sbom, ArtifactId), members), tools.severity(r))
        <==> SeverityFits(report, rule, rule.id, tools.severity(r))
    {
      SeverityExactly(report, rule, rule.id, tools.severity(r));
    }
  }

  lemma RuleExactly(report: Report, tools: Tools, rule: Rule)
    requires DistinctIds(report.sbom) && rule in report.rules && Distinct(report.rules, IdOfRule)
    ensures rule.id in Index(report.rules, IdOfRule) && Index(report.rules, IdOfRule)[rule.id] == rule
    ensures RuleLinkable(report, tools, rule.id) <==> RuleFits(report, tools, rule)
  {
    var i :| 0 <= i < |report.rules| && report.rules[i] == rule;
    IndexAt(report.rules, IdOfRule, i);
    RuleBoundExactly(report, rule);
    SeveritiesExactly(report, tools, rule);
  }

  // ---------- the report ----------

  /** One run of the pinned scanner in SARIF 2.1.0. */
  predicate Pinned(h: Header) {
    && h.sarif == "2.1.0" && h.runs == 1 && Lower(h.driver) == "grype"
    && h.driverVersion == Some("0.119.0") && h.scanner == "0.119.0"
  }

  predicate NoRepeats(report: Report, tools: Tools) {
    && DistinctIds(report.sbom)
    && (forall i, j :: 0 <= i < j < |report.matches| ==> tools.matchSha(report.matches[i]) != tools.matchSha(report.matches[j]))
    && (forall i, j :: 0 <= i < j < |report.rules| ==> report.rules[i].id != report.rules[j].id)
  }

  predicate HasRule(rules: seq<Rule>, m: Match) {
    exists rule <- rules :: IsOf(m, rule.id)
  }

  predicate HasMatch(matches: seq<Match>, id: string) {
    exists m <- matches :: IsOf(m, id)
  }

  /** Every match is listed and has a rule, every result has a match and no suppression, and
      every rule fits. */
  ghost predicate AllLinked(report: Report, tools: Tools) {
    && (forall m <- report.matches :: exists a <- report.sbom :: IsListed(m, a))
    && (forall m <- report.matches :: HasRule(report.rules, m))
    && (forall r <- report.results :: r.suppressions == [] && HasMatch(report.matches, r.ruleId))
    && (forall rule <- report.rules :: RuleFits(report, tools, rule))
  }

  lemma RepeatsExactly(report: Report, tools: Tools)
    ensures NoRepeats(report, tools) <==>
      Distinct(report.sbom, ArtifactId) && Distinct(report.matches, tools.matchSha) && Distinct(report.rules, IdOfRule)
  {
    if Distinct(report.sbom, ArtifactId) {
      forall i, j | 0 <= i < j < |report.sbom| ensures report.sbom[i].package.id != report.sbom[j].package.id {
        assert ArtifactId(report.sbom[i]) != ArtifactId(report.sbom[j]);
      }
    }
    if Distinct(report.rules, IdOfRule) {
      forall i, j | 0 <= i < j < |report.rules| ensures report.rules[i].id != report.rules[j].id {
        assert IdOfRule(report.rules[i]) != IdOfRule(report.rules[j]);
      }
    }
  }

  lemma RuleIdsExactly(matches: seq<Match>, id: string)
    ensures id in RuleIds(matches) <==> HasMatch(matches, id)
  {
    KeysOfMeans(matches, RuleIdOf);
    if id in RuleIds(matches) { var m := KeyFrom(matches, RuleIdOf, id); }
    if HasMatch(matches, id) {
      var m :| m in matches && IsOf(m, id);
      assert RuleIdOf(m) == id;
    }
  }

  lemma RuleKeysExactly(rules: seq<Rule>, id: string)
    ensures id in Index(rules, IdOfRule) <==> exists rule <- rules :: rule.id == id
  {
    IndexKeys(rules, IdOfRule);
    if exists rule <- rules :: rule.id == id {
      var rule :| rule in rules && rule.id == id;
      assert IdOfRule(rule) in Index(rules, IdOfRule);
    }
    if id in Index(rules, IdOfRule) { assert IdOfRule(Index(rules, IdOfRule)[id]) == id; }
  }

  lemma HasRuleExactly(rules: seq<Rule>, m: Match)
    ensures HasRule(rules, m) <==> RuleIdOf(m) in Index(rules, IdOfRule)
  {
    RuleKeysExactly(rules, RuleIdOf(m));
  }

  lemma CoveredRules(report: Report)
    requires Index(report.rules, IdOfRule).Keys == RuleIds(report.matches)
    ensures forall m <- report.matches :: HasRule(report.rules, m)
    ensures forall rule <- report.rules :: HasMatch(report.matches, rule.id)
  {
    forall m | m in report.matches ensures HasRule(report.rules, m) {
      KeysOfMeans(report.matches, RuleIdOf);
      HasRuleExactly(report.rules, m);
    }
    forall rule | rule in report.rules ensures HasMatch(report.matches, rule.id) {
      RuleKeysExactly(report.rules, rule.id);
      RuleIdsExactly(report.matches, rule.id);
    }
  }

  lemma RulesCovered(report: Report)
    requires forall m <- report.matches :: HasRule(report.rules, m)
    requires forall rule <- report.rules :: HasMatch(report.matches, rule.id)
    ensures Index(report.rules, IdOfRule).Keys == RuleIds(report.matches)
  {
    var keys, ids := Index(report.rules, IdOfRule).Keys, RuleIds(report.matches);
    forall id ensures id in keys <==> id in ids {
      RuleKeysExactly(report.rules, id);
      RuleIdsExactly(report.matches, id);
      if id in ids {
        var m := KeyFrom(report.matches, RuleIdOf, id);
        HasRuleExactly(report.rules, m);
      }
    }
  }

  lemma LinkableIsLinked(report: Report, tools: Tools)
    requires Linkable(report, tools)
    ensures Pinned(report.header) && NoRepeats(report, tools) && AllLinked(report, tools)
  {
    RepeatsExactly(report, tools);
    CoveredRules(report);
    forall m | m in report.matches ensures exists a <- report.sbom :: IsListed(m, a) { BoundExactly(report.sbom, m); }
    forall r | r in report.results ensures HasMatch(report.matches, r.ruleId) {
      RuleIdsExactly(report.matches, r.ruleId);
    }
    forall rule | rule in report.rules ensures RuleFits(report, tools, rule) {
      RuleExactly(report, tools, rule);
      assert RuleLinkable(report, tools, rule.id);
    }
  }

  lemma FittingRules(report: Report, tools: Tools)
    requires NoRepeats(report, tools) && forall rule <- report.rules :: RuleFits(report, tools, rule)
    ensures forall rule <- report.rules :: HasMatch(report.matches, rule.id)
    ensures forall id <- Index(report.rules, IdOfRule) :: RuleLinkable(report, tools, id)
  {
    RepeatsExactly(report, tools);
    forall rule | rule in report.rules
      ensures HasMatch(report.matches, rule.id) && RuleLinkable(report, tools, rule.id)
    {
      assert RuleFits(report, tools, rule);
      RuleExactly(report, tools, rule);
    }
    forall id | id in Index(report.rules, IdOfRule) ensures RuleLinkable(report, tools, id) {
      RuleKeysExactly(report.rules, id);
    }
  }

  lemma LinkedIsLinkable(report: Report, tools: Tools)
    requires Pinned(report.header) && NoRepeats(report, tools) && AllLinked(report, tools)
    ensures Linkable(report, tools)
  {
    RepeatsExactly(report, tools);
    FittingRules(report, tools);
    RulesCovered(report);
    forall m | m in report.matches ensures MatchBound(Index(report.sbom, ArtifactId), m) { BoundExactly(report.sbom, m); }
    forall r | r in report.results ensures r.ruleId in RuleIds(report.matches) { RuleIdsExactly(report.matches, r.ruleId); }
  }

  /**
    A report is linked exactly when it is a pinned scan without repeated identities, every
    match is of a listed artifact and has a rule, every result is unsuppressed and has a
    match, and every rule fits its matches and results.
    */
  lemma LinksExactly(report: Report, tools: Tools)
    ensures Linkable(report, tools) <==> Pinned(report.header) && NoRepeats(report, tools) && AllLinked(report, tools)
  {
    if Linkable(report, tools) { LinkableIsLinked(report, tools); }
    if Pinned(report.header) && NoRepeats(report, tools) && AllLinked(report, tools) { LinkedIsLinkable(report, tools); }
  }

  // ---------- what a result is linked to ----------

  predicate BindsTo(tools: Tools, m: Match, b: Member) {
    && b.nativeSha == tools.matchSha(m) && b.package == m.artifact.package
    && b.advisory == m.advisory && b.namespace == m.namespace && b.severity == m.severity
  }

  /** The record of result i: its own digest and severity, the matches of its rule in order,
      the one match if there is only one, and whether it may be decided. */
  ghost predicate Records(report: Report, tools: Tools, i: nat, o: Occurrence)
    requires i < |report.results|
  {
    var r := report.results[i];
    var members := Members(report.matches, r.ruleId);
    && o.resultIndex == i && o.ruleId == r.ruleId
    && o.resultSha == tools.resultSha(r) && o.gateSeverity == tools.severity(r)
    && |o.members| == |members| && (forall k :: 0 <= k < |members| ==> BindsTo(tools, members[k], o.members[k]))
    && (o.eligible <==> MayDecide(report, r.ruleId))
    && (o.nativeSha.Some? <==> |members| == 1) && (o.sole.Some? <==> |members| == 1)
    && (|members| == 1 ==>
          && o.nativeSha == Some(tools.matchSha(members[0]))
          && o.sole == Some(Sole(members[0].artifact.package, members[0].advisory, members[0].namespace, members[0].severity)))
  }

  /** The linked output has these records, result by result. */
  lemma RecordedExactly(report: Report, tools: Tools)
    requires DistinctIds(report.sbom)
    ensures |LinkedAll(report, tools)| == |report.results|
    ensures forall i: nat :: i < |report.results| ==> Records(report, tools, i, LinkedAll(report, tools)[i])
  {
    forall i: nat | i < |report.results| ensures Records(report, tools, i, LinkedAll(report, tools)[i]) {
      EligibleExactly(report, report.results[i].ruleId);
    }
  }
}
