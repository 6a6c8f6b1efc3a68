/**
  Linking a scanner's native findings with its SARIF report: `map_findings` of
  codebuild/exact_image_disposition.py. Documents are taken decoded. The definitions here
  say which reports are linked and what each SARIF result is linked to, result by result;
  the loops that do it are in FindingsLoops.
  */
module Findings {
  import opened Options
  import opened Sequences
  import opened Keyed
  import opened Lettercase
  import opened Paths

  // ---------- Decoded documents ----------

  datatype Package = Package(id: string, name: string, version: string, kind: string, purl: string)

  // What debian_origin finds; it raises on an unsupported Debian artifact.
  datatype Origin = NotDebian | EmbeddedElf | RootDpkg | UnsupportedDebian

  datatype Location = Location(path: string, layerID: string, accessPath: string, rest: string)

  datatype Artifact = Artifact(package: Package, origin: Origin, locations: Option<seq<Location>>)

  datatype Match = Match(artifact: Artifact, advisory: string, namespace: string, severity: string, rest: string)

  // For each help field, everything the field's pattern finds in the text.
  datatype Help = Help(advisory: seq<string>, namespace: seq<string>, package: seq<string>,
                       version: seq<string>, kind: seq<string>, severity: seq<string>)

  datatype Rule = Rule(id: string, purls: seq<string>, help: Help)

  datatype Suppression = Suppression(kind: string, status: string, justification: string)

  type Place = (string, string)

  // `physical` has the logical locations of each physical location.
  datatype Result = Result(ruleId: string, physical: seq<seq<Place>>, suppressions: seq<Suppression>, rest: string)

  datatype Header = Header(sarif: string, runs: nat, driver: string, driverVersion: Option<string>, scanner: string)

  datatype Report = Report(header: Header, sbom: seq<Artifact>, matches: seq<Match>, rules: seq<Rule>,
                           results: seq<Result>, image: string)

  /** Digests of objects, and the severity that the maintained gate resolves for a result. */
  datatype Tools = Tools(matchSha: Match -> string, resultSha: Result -> string, severity: Result -> string)

  // ---------- Grouping by rule ----------

  const ArtifactId := (a: Artifact) => a.package.id
  const IdOfResult := (r: Result) => r.ruleId
  const IdOfRule := (r: Rule) => r.id
  const RuleIdOf := (m: Match) => m.advisory + "-" + m.artifact.package.name

  function RuleIs(id: string): Match -> bool {
    m => RuleIdOf(m) == id
  }

  /** The native matches of one rule. */
  function Members(matches: seq<Match>, id: string): seq<Match> {
    Filter(matches, RuleIs(id))
  }

  function RuleIds(matches: seq<Match>): set<string> {
    KeysOf(matches, RuleIdOf)
  }

  /** The positions of the SARIF results of one rule. */
  function Positions(results: seq<Result>, id: string): (r: seq<nat>)
    ensures forall i <- r :: i < |results| && results[i].ruleId == id
  {
    if results == [] then [] else
      var last := |results| - 1;
      Positions(results[..last], id) + if results[last].ruleId == id then [last] else []
  }

  // ---------- One match ----------

  predicate MatchBound(artifacts: map<string, Artifact>, m: Match) {
    && m.artifact.package.id in artifacts
    && var listed := artifacts[m.artifact.package.id];
    && m.artifact.package == listed.package
    && !listed.origin.UnsupportedDebian?
    && (listed.origin.EmbeddedElf? ==> m.artifact.locations == listed.locations)
  }

  function Rendered(m: Match): string {
    var severity := Lower(m.severity);
    if severity in ["critical", "high", "medium"] then severity else "low"
  }

  predicate Single(values: seq<string>) {
    |values| == 1 && values[0] != ""
  }

  // The rule's help text describes this match.
  predicate Represents(rule: Rule, m: Match) {
    var h := rule.help;
    && |h.advisory| == 1 && m.advisory == h.advisory[0]
    && Single(h.namespace) && m.namespace == h.namespace[0]
    && |rule.purls| == 1 && m.artifact.package.purl == rule.purls[0]
    && Single(h.package) && m.artifact.package.name == h.package[0]
    && Single(h.version) && m.artifact.package.version == h.version[0]
    && Single(h.kind) && m.artifact.package.kind == h.kind[0]
    && Single(h.severity) && Rendered(m) == Lower(h.severity[0])
  }

  function Rank(severity: string): Option<int> {
    if severity == "unknown" || severity == "unrated" then Some(-1)
    else if severity == "negligible" then Some(0)
    else if severity == "low" then Some(1)
    else if severity == "medium" then Some(2)
    else if severity == "high" then Some(3)
    else if severity == "critical" then Some(4)
    else None
  }

  // ---------- Locations ----------

  function NativePlace(image: string, l: Location): Place {
    var access := if l.accessPath != "" then l.accessPath else l.path;
    (l.path, image + "@" + l.layerID + ":/" + StripLeading(RemoveDotSlash(access)))
  }

  function NativePlaceIn(image: string): Location -> Place {
    l => NativePlace(image, l)
  }

  // native_locations: a sorted tuple is the multiset of its items. None where it raises.
  function NativeLocations(m: Match, image: string): Option<multiset<Place>> {
    if m.artifact.locations.None? || m.artifact.locations.value == [] || image == "" then None
    else Some(multiset(Apply(m.artifact.locations.value, NativePlaceIn(image))))
  }

  function SarifLocations(r: Result): Option<multiset<Place>> {
    if |r.physical| != 1 || r.physical[0] == [] then None else Some(multiset(r.physical[0]))
  }

  function NativeLocationsIn(image: string): Match -> Option<multiset<Place>> {
    m => NativeLocations(m, image)
  }

  function ResultsAt(results: seq<Result>, positions: seq<nat>): seq<Result>
    requires forall i <- positions :: i < |results|
  {
    seq(|positions|, k requires 0 <= k < |positions| =>
      assert positions[k] in positions;
      results[positions[k]])
  }

  const SarifPlaces := (r: Result) => SarifLocations(r)

  // The members and the results of a rule stand at the same places, as multisets.
  predicate SamePlaces(artifacts: map<string, Artifact>, members: seq<Match>, results: seq<Result>, image: string) {
    && (forall m <- members ::
         && m.artifact.package.id in artifacts
         && m.artifact.locations == artifacts[m.artifact.package.id].locations
         && NativeLocations(m, image).Some?)
    && (forall r <- results :: SarifLocations(r).Some?)
    && multiset(Apply(members, NativeLocationsIn(image))) == multiset(Apply(results, SarifPlaces))
  }

  // ---------- One rule ----------

  predicate Embedded(artifacts: map<string, Artifact>, members: seq<Match>) {
    exists m <- members :: m.artifact.package.id in artifacts && artifacts[m.artifact.package.id].origin.EmbeddedElf?
  }

  predicate Eligible(artifacts: map<string, Artifact>, members: seq<Match>) {
    && |members| == 1
    && members[0].artifact.package.id in artifacts
    && artifacts[members[0].artifact.package.id].origin.RootDpkg?
    && Lower(members[0].severity) in ["critical", "high", "medium", "low"]
  }

  predicate SeverityBound(rule: Rule, members: seq<Match>, eligible: bool, effective: string) {
    && |rule.help.severity| == 1 && effective == Lower(rule.help.severity[0])
    && (forall m <- members :: Rank(Lower(m.severity)).Some?)
    && Rank(effective).Some?
    && (forall m <- members :: Rank(Lower(m.severity)).value <= Rank(effective).value)
    && (eligible ==> |members| == 1 && effective == Lower(members[0].severity))
  }

  predicate SeveritiesBound(rule: Rule, members: seq<Match>, eligible: bool, tools: Tools, results: seq<Result>) {
    forall r <- results :: SeverityBound(rule, members, eligible, tools.severity(r))
  }

  // The checks on a rule that do not look at its results one by one.
  predicate RuleBound(artifacts: map<string, Artifact>, rule: Rule, members: seq<Match>, results: seq<Result>, image: string) {
    && |results| == |members|
    && (exists m <- members :: Represents(rule, m))
    && (|members| != 1 || Embedded(artifacts, members) ==> SamePlaces(artifacts, members, results, image))
  }

  // ---------- What is linked to what ----------

  datatype Member = Member(nativeSha: string, package: Package, advisory: string, namespace: string, severity: string)

  datatype Sole = Sole(package: Package, advisory: string, namespace: string, severity: string)

  datatype Occurrence = Occurrence(resultIndex: nat, resultSha: string, nativeSha: Option<string>, sole: Option<Sole>,
                                   ruleId: string, members: seq<Member>, gateSeverity: string, eligible: bool)

  function Bind(tools: Tools, m: Match): Member {
    Member(tools.matchSha(m), m.artifact.package, m.advisory, m.namespace, m.severity)
  }

  function Binder(tools: Tools): Match -> Member {
    m => Bind(tools, m)
  }

  // The record of one result of a rule with these native matches.
  function Occur(tools: Tools, i: nat, result: Result, members: seq<Match>, eligible: bool): Occurrence {
    var sole := if |members| == 1 then Some(members[0]) else None;
    Occurrence(i, tools.resultSha(result),
               if sole.Some? then Some(tools.matchSha(sole.value)) else None,
               if sole.Some? then Some(Describe(sole.value)) else None,
               result.ruleId, Apply(members, Binder(tools)), tools.severity(result), eligible)
  }

  function Describe(m: Match): Sole {
    Sole(m.artifact.package, m.advisory, m.namespace, m.severity)
  }

  /** What result i is linked to. */
  function Linked(report: Report, tools: Tools, i: nat): Occurrence
    requires i < |report.results|
  {
    var result := report.results[i];
    var members := Members(report.matches, result.ruleId);
    Occur(tools, i, result, members, Eligible(Index(report.sbom, ArtifactId), members))
  }

  function LinkedAll(report: Report, tools: Tools): seq<Occurrence> {
    seq(|report.results|, i requires 0 <= i < |report.results| => Linked(report, tools, i))
  }

  // ---------- Which reports are linked ----------

  predicate Supported(h: Header) {
    && h.sarif == "2.1.0" && h.runs == 1 && Lower(h.driver) == "grype"
    && h.driverVersion == Some("0.119.0") && h.scanner == "0.119.0"
  }

  predicate RuleLinkable(report: Report, tools: Tools, id: string)
  {
    var artifacts, rules := Index(report.sbom, ArtifactId), Index(report.rules, IdOfRule);
    var members, positions := Members(report.matches, id), Positions(report.results, id);
    && id in rules
    && RuleBound(artifacts, rules[id], members, ResultsAt(report.results, positions), report.image)
    && SeveritiesBound(rules[id], members, Eligible(artifacts, members), tools, ResultsAt(report.results, positions))
  }

  predicate Linkable(report: Report, tools: Tools) {
    var artifacts, rules := Index(report.sbom, ArtifactId), Index(report.rules, IdOfRule);
    && Supported(report.header)
    && Distinct(report.sbom, ArtifactId)
    && (forall m <- report.matches :: MatchBound(artifacts, m))
    && Distinct(report.matches, tools.matchSha)
    && Distinct(report.rules, IdOfRule)
    && rules.Keys == RuleIds(report.matches)
    && (forall r <- report.results :: r.suppressions == [] && r.ruleId in RuleIds(report.matches))
    && (forall id <- RuleIds(report.matches) :: RuleLinkable(report, tools, id))
  }

  // ---------- Lemmas on the definitions ----------

  lemma {:induction false} PositionsMember(results: seq<Result>, id: string, i: nat)
    ensures i in Positions(results, id) <==> i < |results| && results[i].ruleId == id
  {
    if results != [] {
      PositionsMember(results[..|results| - 1], id, i);
    }
  }

  lemma {:induction false} PositionsAscend(results: seq<Result>, id: string)
    ensures forall a, b :: 0 <= a < b < |Positions(results, id)| ==> Positions(results, id)[a] < Positions(results, id)[b]
  {
    if results != [] {
      var last := |results| - 1;
      PositionsAscend(results[..last], id);
      var front := Positions(results[..last], id);
      assert forall a :: 0 <= a < |front| ==> front[a] in front;
    }
  }

  lemma {:induction false} AbsentGroup(matches: seq<Match>, id: string)
    requires id !in RuleIds(matches)
    ensures Members(matches, id) == []
  {
    if matches != [] {
      AbsentGroup(matches[..|matches| - 1], id);
    }
  }

  lemma {:induction false} AbsentPositions(results: seq<Result>, id: string)
    requires id !in KeysOf(results, IdOfResult)
    ensures Positions(results, id) == []
  {
    if results != [] {
      AbsentPositions(results[..|results| - 1], id);
    }
  }
}
