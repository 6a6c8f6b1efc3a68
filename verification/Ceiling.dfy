/**
  The admission check for workload permission ceilings
  (platform/automation-infra/verify-workload-inventory.py). A policy is read only
  through glob patterns; the theorems bound every action string and every resource
  string, not just the patterns.
  */
module Ceiling {
  import opened Lettercase

  // ---------- globs ----------

  /** Patterns with `*` and `?` only; a bracket would be a character class. */
  type Pattern = p: string | '[' !in p witness ""

  /** `fnmatch.fnmatchcase` on such a pattern. */
  predicate Glob(p: string, s: string)
    decreases |p| + |s|
  {
    if p == "" then s == ""
    else if p[0] == '*' then Glob(p[1..], s) || (s != "" && Glob(p, s[1..]))
    else s != "" && (p[0] == '?' || p[0] == s[0]) && Glob(p[1..], s[1..])
  }

  predicate HasWildcard(p: string) {
    '*' in p || '?' in p
  }

  /** A pattern without wildcards matches only itself. */
  lemma {:induction false} LiteralMatchesItself(p: string, s: string)
    requires !HasWildcard(p)
    ensures Glob(p, s) <==> p == s
  {
    if p != "" {
      if s != "" {
        LiteralMatchesItself(p[1..], s[1..]);
        assert p == [p[0]] + p[1..] && s == [s[0]] + s[1..];
      }
    }
  }

  lemma {:induction false} StarMatchesAll(s: string)
    ensures Glob("*", s)
  {
    if s == "" {
      assert "*"[1..] == "";
    } else {
      StarMatchesAll(s[1..]);
    }
  }

  lemma StarSplits(p: string, q: string, s: string, k: nat)
    requires p != "" && p[0] == '*' && s != "" && k <= |s| - 1
    requires Glob(p, s[1..][..k]) && Glob(q, s[1..][k..])
    ensures Glob(p, s[..k + 1]) && Glob(q, s[k + 1..])
  {
    assert s[..k + 1][1..] == s[1..][..k] && s[1..][k..] == s[k + 1..];
  }

  lemma {:induction false} GlobSplits(p: string, q: string, s: string)
    requires Glob(p + q, s)
    ensures exists k: nat :: k <= |s| && Glob(p, s[..k]) && Glob(q, s[k..])
    decreases |p| + |s|
  {
    if p == "" {
      assert p + q == q && s[..0] == "" && s[0..] == s;
    } else {
      assert (p + q)[0] == p[0] && (p + q)[1..] == p[1..] + q;
      if p[0] == '*' && Glob((p + q)[1..], s) {
        GlobSplits(p[1..], q, s);
        var k: nat :| k <= |s| && Glob(p[1..], s[..k]) && Glob(q, s[k..]);
        assert Glob(p, s[..k]);
      } else if p[0] == '*' {
        GlobSplits(p, q, s[1..]);
        var k: nat :| k <= |s[1..]| && Glob(p, s[1..][..k]) && Glob(q, s[1..][k..]);
        StarSplits(p, q, s, k);
      } else {
        GlobSplits(p[1..], q, s[1..]);
        var k: nat :| k <= |s[1..]| && Glob(p[1..], s[1..][..k]) && Glob(q, s[1..][k..]);
        assert s[..k + 1][1..] == s[1..][..k] && s[1..][k..] == s[k + 1..];
        assert Glob(p, s[..k + 1]);
      }
    }
  }

  lemma {:induction false} GlobJoins(p: string, q: string, s: string, k: nat)
    requires k <= |s| && Glob(p, s[..k]) && Glob(q, s[k..])
    ensures Glob(p + q, s)
    decreases |p| + |s|
  {
    if p == "" {
      assert p + q == q && s[k..] == s;
    } else {
      assert (p + q)[0] == p[0] && (p + q)[1..] == p[1..] + q;
      if p[0] == '*' && Glob(p[1..], s[..k]) {
        GlobJoins(p[1..], q, s, k);
      } else {
        assert s[..k][1..] == s[1..][..k - 1] && s[1..][k - 1..] == s[k..];
        GlobJoins(if p[0] == '*' then p else p[1..], q, s[1..], k - 1);
      }
    }
  }

  /** What a pattern matches, part by part: a concatenation matches what splits so, "*"
      matches everything, "?" any one character, and any other character itself. */
  lemma GlobExactly(p: string, q: string, c: char, s: string)
    ensures Glob(p + q, s) <==> exists k: nat :: k <= |s| && Glob(p, s[..k]) && Glob(q, s[k..])
    ensures Glob("", s) <==> s == ""
    ensures Glob("*", s)
    ensures Glob("?", s) <==> |s| == 1
    ensures c != '*' && c != '?' ==> (Glob([c], s) <==> s == [c])
  {
    if Glob(p + q, s) { GlobSplits(p, q, s); }
    forall k: nat | k <= |s| && Glob(p, s[..k]) && Glob(q, s[k..]) ensures Glob(p + q, s) {
      GlobJoins(p, q, s, k);
    }
    StarMatchesAll(s);
    assert "?"[1..] == "" && [c][1..] == "";
    if c != '*' && c != '?' { LiteralMatchesItself([c], s); }
  }

  lemma {:induction false} LowerKeepsWildcards(s: string)
    ensures '*' in Lower(s) <==> '*' in s
    ensures '?' in Lower(s) <==> '?' in s
    ensures '[' in Lower(s) <==> '[' in s
  {
    if s != "" {
      LowerKeepsWildcards(s[1..]);
      assert s == [s[0]] + s[1..];
    }
  }

  // ---------- policies ----------

  datatype Effect = Allow | Deny
  datatype ActionClause = Action(actions: seq<Pattern>) | NotAction(exempt: seq<Pattern>) | NoAction
  datatype ResourceClause = Resource(resources: seq<Pattern>) | NotResource(permitted: seq<Pattern>) | NoResource
  datatype Statement = Statement(effect: Effect, action: ActionClause, resource: ResourceClause, conditional: bool)
  type Policy = seq<Statement>

  predicate AnyMatch(patterns: seq<Pattern>, s: string) {
    exists i :: 0 <= i < |patterns| && Glob(patterns[i], s)
  }

  predicate AnyActionMatch(patterns: seq<Pattern>, action: string) {
    exists i :: 0 <= i < |patterns| && Glob(Lower(patterns[i]), Lower(action))
  }

  /** `matches`. */
  predicate Matches(s: Statement, action: string) {
    match s.action
    case Action(patterns) => AnyActionMatch(patterns, action)
    case NotAction(patterns) => !AnyActionMatch(patterns, action)
    case NoAction => false
  }

  const STAR: seq<Pattern> := ["*"]

  predicate EveryResource(s: Statement) {
    s.resource == Resource(STAR)
  }

  // What a policy grants and refuses, with Allow conditions ignored and conditional
  // denies not counted. Nothing here mentions the analyser.

  predicate CoversResource(s: Statement, r: string) {
    match s.resource
    case Resource(patterns) => AnyMatch(patterns, r)
    case NotResource(patterns) => !AnyMatch(patterns, r)
    case NoResource => true
  }

  ghost predicate Granted(policy: Policy, action: string, r: string) {
    exists i :: 0 <= i < |policy| && policy[i].effect.Allow? && Matches(policy[i], action) && CoversResource(policy[i], r)
  }

  ghost predicate Refused(policy: Policy, action: string, r: string) {
    exists i :: 0 <= i < |policy| && RefusedBy(policy[i], action, r)
  }

  predicate RefusedBy(s: Statement, action: string, r: string) {
    s.effect.Deny? && !s.conditional && Matches(s, action) && CoversResource(s, r)
  }

  // ---------- the analyser ----------

  predicate Binding(s: Statement, action: string) {
    s.effect.Deny? && !s.conditional && Matches(s, action)
  }

  /** What one allowed pattern and one permitted pattern leave of each other. */
  function Meet(source: Pattern, target: Pattern): set<Pattern> {
    if HasWildcard(source) && HasWildcard(target) then {if source == "*" then target else source}
    else if HasWildcard(source) && Glob(source, target) then {target}
    else if !HasWildcard(source) && Glob(target, source) then {source}
    else {}
  }

  function Narrow(resources: set<Pattern>, permitted: set<Pattern>): set<Pattern> {
    set source, target, p | source in resources && target in permitted && p in Meet(source, target) :: p
  }

  function Elements(patterns: seq<Pattern>): set<Pattern> {
    set p | p in patterns
  }

  /** Every resource pattern of a matching Allow, and "*" where it names none. */
  function AllowedPatterns(policy: Policy, action: string): set<Pattern> {
    if policy == [] then {}
    else
      var s := policy[|policy| - 1];
      AllowedPatterns(policy[..|policy| - 1], action) +
      if s.effect.Allow? && Matches(s, action)
      then (if s.resource.Resource? then Elements(s.resource.resources) else {"*"})
      else {}
  }

  /** The second loop; a deny of everything ends it with the empty set. */
  function AfterDenies(resources: set<Pattern>, policy: Policy, action: string): set<Pattern>
    decreases |policy|
  {
    if policy == [] then resources
    else if !Binding(policy[0], action) then AfterDenies(resources, policy[1..], action)
    else if EveryResource(policy[0]) then {}
    else if policy[0].resource.NotResource?
    then AfterDenies(Narrow(resources, Elements(policy[0].resource.permitted)), policy[1..], action)
    else AfterDenies(resources, policy[1..], action)
  }

  function MaximumResources(policy: Policy, action: string): set<Pattern> {
    AfterDenies(AllowedPatterns(policy, action), policy, action)
  }

  const ALLOW_ALL := Statement(Allow, Action(STAR), Resource(STAR), false)

  function Denies(policy: Policy): Policy {
    if policy == [] then []
    else if policy[0].effect.Deny? then [policy[0]] + Denies(policy[1..])
    else Denies(policy[1..])
  }

  /** `denied_resource_ceiling`. */
  function DeniedCeiling(policy: Policy, action: string): set<Pattern> {
    MaximumResources([ALLOW_ALL] + Denies(policy), action)
  }

  // ---------- soundness of the analyser ----------

  ghost predicate InSome(patterns: set<Pattern>, r: string) {
    exists p :: p in patterns && Glob(p, r)
  }

  lemma MeetSound(source: Pattern, target: Pattern, r: string)
    requires Glob(source, r) && Glob(target, r)
    ensures InSome(Meet(source, target), r)
  {
    if HasWildcard(source) && HasWildcard(target) {
      assert (if source == "*" then target else source) in Meet(source, target);
    } else if HasWildcard(source) {
      LiteralMatchesItself(target, r);
      assert target in Meet(source, target);
    } else {
      LiteralMatchesItself(source, r);
      assert source in Meet(source, target);
    }
  }

  lemma NarrowSound(resources: set<Pattern>, patterns: seq<Pattern>, r: string)
    requires InSome(resources, r) && AnyMatch(patterns, r)
    ensures InSome(Narrow(resources, Elements(patterns)), r)
  {
    var source :| source in resources && Glob(source, r);
    var i :| 0 <= i < |patterns| && Glob(patterns[i], r);
    var target := patterns[i];
    assert target in Elements(patterns);
    MeetSound(source, target, r);
    var p :| p in Meet(source, target) && Glob(p, r);
    assert p in Narrow(resources, Elements(patterns));
  }

  lemma {:induction false} AllowedSound(policy: Policy, action: string, r: string)
    requires Granted(policy, action, r)
    ensures InSome(AllowedPatterns(policy, action), r)
  {
    var front, s := policy[..|policy| - 1], policy[|policy| - 1];
    var i :| 0 <= i < |policy| && policy[i].effect.Allow? && Matches(policy[i], action) && CoversResource(policy[i], r);
    if i < |front| {
      assert front[i] == policy[i];
      AllowedSound(front, action, r);
      var p :| p in AllowedPatterns(front, action) && Glob(p, r);
      assert p in AllowedPatterns(policy, action);
    } else if s.resource.Resource? {
      var j :| 0 <= j < |s.resource.resources| && Glob(s.resource.resources[j], r);
      assert s.resource.resources[j] in AllowedPatterns(policy, action);
    } else {
      StarMatchesAll(r);
      assert "*" in AllowedPatterns(policy, action);
    }
  }

  lemma EveryResourceCovers(s: Statement, r: string)
    ensures EveryResource(s) ==> CoversResource(s, r)
  {
    StarMatchesAll(r);
    assert Glob(STAR[0], r);
  }

  lemma {:induction false} DeniesSound(resources: set<Pattern>, policy: Policy, action: string, r: string)
    requires InSome(resources, r) && !Refused(policy, action, r)
    ensures InSome(AfterDenies(resources, policy, action), r)
    decreases |policy|
  {
    if policy != [] {
      var s, rest := policy[0], policy[1..];
      assert !RefusedBy(s, action, r);
      assert !Refused(rest, action, r) by {
        forall i | 0 <= i < |rest| ensures !RefusedBy(rest[i], action, r) {
          assert rest[i] == policy[i + 1];
        }
      }
      EveryResourceCovers(s, r);
      if Binding(s, action) && s.resource.NotResource? {
        NarrowSound(resources, s.resource.permitted, r);
        DeniesSound(Narrow(resources, Elements(s.resource.permitted)), rest, action, r);
      } else {
        assert !(Binding(s, action) && EveryResource(s));
        DeniesSound(resources, rest, action, r);
      }
    }
  }

  /** `maximum_resources` is an upper bound: what some Allow may cover and no
      unconditional Deny refuses is matched by a returned pattern. */
  lemma MaximumResourcesSound(policy: Policy, action: string, r: string)
    requires Granted(policy, action, r) && !Refused(policy, action, r)
    ensures InSome(MaximumResources(policy, action), r)
  {
    AllowedSound(policy, action, r);
    DeniesSound(AllowedPatterns(policy, action), policy, action, r);
  }

  lemma {:induction false} DeniesRefuse(policy: Policy, action: string, r: string)
    ensures Refused(Denies(policy), action, r) ==> Refused(policy, action, r)
  {
    if policy != [] {
      var s, rest := policy[0], policy[1..];
      DeniesRefuse(rest, action, r);
      if Refused(rest, action, r) {
        var i :| 0 <= i < |rest| && RefusedBy(rest[i], action, r);
        assert RefusedBy(policy[i + 1], action, r);
      }
      if Refused(Denies(policy), action, r) {
        var i :| 0 <= i < |Denies(policy)| && RefusedBy(Denies(policy)[i], action, r);
        if s.effect.Deny? {
          if i == 0 { assert RefusedBy(policy[0], action, r); }
          else { assert RefusedBy(Denies(rest)[i - 1], action, r); }
        }
      }
    }
  }

  /** Whatever the policy does not unconditionally refuse lies under the ceiling. */
  lemma DeniedCeilingSound(policy: Policy, action: string, r: string)
    requires !Refused(policy, action, r)
    ensures InSome(DeniedCeiling(policy, action), r)
  {
    var synthetic := [ALLOW_ALL] + Denies(policy);
    assert "*" == Lower("*") by { assert "*"[1..] == ""; }
    StarMatchesAll(Lower(action));
    StarMatchesAll(r);
    assert Glob(Lower(STAR[0]), Lower(action)) && Glob(STAR[0], r);
    assert Matches(synthetic[0], action) && CoversResource(synthetic[0], r);
    DeniesRefuse(policy, action, r);
    assert !Refused(synthetic, action, r) by {
      forall i | 0 <= i < |synthetic| ensures !RefusedBy(synthetic[i], action, r) {
        if i > 0 { assert synthetic[i] == Denies(policy)[i - 1]; }
      }
    }
    MaximumResourcesSound(synthetic, action, r);
  }

  // ---------- where the bound is exact ----------

  predicate Sharp(p: Pattern) {
    p == "*" || !HasWildcard(p)
  }

  /** Every deny that counts for `action` is of everything, or names its exceptions
      without partial wildcards. */
  predicate SharpDenies(policy: Policy, action: string) {
    forall s <- policy | Binding(s, action) ::
      EveryResource(s) || (s.resource.NotResource? && forall p <- s.resource.permitted :: Sharp(p))
  }

  lemma NarrowExact(resources: set<Pattern>, patterns: seq<Pattern>, r: string)
    requires (forall p <- resources :: Sharp(p)) && (forall p <- patterns :: Sharp(p))
    ensures InSome(Narrow(resources, Elements(patterns)), r) <==> InSome(resources, r) && AnyMatch(patterns, r)
    ensures forall p <- Narrow(resources, Elements(patterns)) :: Sharp(p)
  {
    if InSome(resources, r) && AnyMatch(patterns, r) {
      NarrowSound(resources, patterns, r);
    }
    if InSome(Narrow(resources, Elements(patterns)), r) {
      var p :| p in Narrow(resources, Elements(patterns)) && Glob(p, r);
      var source, target :| source in resources && target in Elements(patterns) && p in Meet(source, target);
      StarMatchesAll(r);
      if !HasWildcard(source) { LiteralMatchesItself(source, r); }
      if !HasWildcard(target) { LiteralMatchesItself(target, r); }
      assert Glob(source, r) && Glob(target, r);
      var i :| 0 <= i < |patterns| && patterns[i] == target;
      assert Glob(patterns[i], r);
    }
  }

  lemma {:induction false} DeniesExact(resources: set<Pattern>, policy: Policy, action: string, r: string)
    requires SharpDenies(policy, action) && forall p <- resources :: Sharp(p)
    ensures InSome(AfterDenies(resources, policy, action), r) <==> InSome(resources, r) && !Refused(policy, action, r)
    decreases |policy|
  {
    if policy != [] {
      var s, rest := policy[0], policy[1..];
      assert Refused(policy, action, r) <==> RefusedBy(s, action, r) || Refused(rest, action, r) by {
      }
      assert s in policy && forall x <- rest :: x in policy;
      EveryResourceCovers(s, r);
      if Binding(s, action) && s.resource.NotResource? {
        NarrowExact(resources, s.resource.permitted, r);
        DeniesExact(Narrow(resources, Elements(s.resource.permitted)), rest, action, r);
      } else if !Binding(s, action) {
        DeniesExact(resources, rest, action, r);
      }
    }
  }

  /** With exceptions named sharply the ceiling is exactly what is not refused. */
  lemma DeniedCeilingExact(policy: Policy, action: string, r: string)
    requires SharpDenies(policy, action)
    ensures InSome(DeniedCeiling(policy, action), r) <==> !Refused(policy, action, r)
  {
    if !Refused(policy, action, r) {
      DeniedCeilingSound(policy, action, r);
    } else {
      var synthetic := [ALLOW_ALL] + Denies(policy);
      DeniesFromPolicy(policy);
      assert SharpDenies(synthetic, action);
      AllowedOnlyFirst(synthetic, action);
      DeniesExact(AllowedPatterns(synthetic, action), synthetic, action, r);
      RefusedStays(policy, action, r);
      assert synthetic[1..] == Denies(policy);
    }
  }

  lemma {:induction false} DeniesFromPolicy(policy: Policy)
    ensures forall s <- Denies(policy) :: s in policy && s.effect.Deny?
  {
    if policy != [] { DeniesFromPolicy(policy[1..]); }
  }

  lemma {:induction false} RefusedStays(policy: Policy, action: string, r: string)
    requires Refused(policy, action, r)
    ensures Refused(Denies(policy), action, r)
  {
    var rest := Denies(policy[1..]);
    if Refused(policy[1..], action, r) {
      RefusedStays(policy[1..], action, r);
    }
    if policy[0].effect.Deny? {
      assert Denies(policy)[0] == policy[0] && Denies(policy)[1..] == rest;
    }
  }

  lemma {:induction false} AllowedOnlyFirst(policy: Policy, action: string)
    requires forall i | 0 < i < |policy| :: policy[i].effect.Deny?
    requires policy != [] ==> policy[0] == ALLOW_ALL
    ensures AllowedPatterns(policy, action) <= {"*"}
  {
    if policy != [] {
      AllowedOnlyFirst(policy[..|policy| - 1], action);
    }
  }

  // ---------- the loops of the analyser ----------

  lemma NarrowSplit(a: set<Pattern>, b: set<Pattern>, permitted: set<Pattern>)
    ensures Narrow(a + b, permitted) == Narrow(a, permitted) + Narrow(b, permitted)
  {
  }

  method NarrowLoop(resources: set<Pattern>, permitted: set<Pattern>) returns (narrowed: set<Pattern>)
    ensures narrowed == Narrow(resources, permitted)
  {
    narrowed := {};
    var sources := resources;
    while sources != {}
      invariant sources <= resources
      invariant narrowed == Narrow(resources - sources, permitted)
    {
      var source :| source in sources;
      var targets := permitted;
      while targets != {}
        invariant targets <= permitted
        invariant narrowed == Narrow(resources - sources, permitted) + Narrow({source}, permitted - targets)
      {
        var target :| target in targets;
        narrowed := narrowed + Meet(source, target);
        assert permitted - (targets - {target}) == (permitted - targets) + {target};
        targets := targets - {target};
      }
      NarrowSplit(resources - sources, {source}, permitted);
      assert resources - (sources - {source}) == (resources - sources) + {source};
      sources := sources - {source};
    }
  }

  /** `maximum_resources` as the source runs it. */
  method MaximumResourcesLoop(policy: Policy, action: string) returns (resources: set<Pattern>)
    ensures resources == MaximumResources(policy, action)
  {
    resources := {};
    for i := 0 to |policy|
      invariant resources == AllowedPatterns(policy[..i], action)
    {
      assert policy[..i + 1][..i] == policy[..i];
      if policy[i].effect.Allow? && Matches(policy[i], action) {
        resources := resources + if policy[i].resource.Resource? then Elements(policy[i].resource.resources) else {"*"};
      }
    }
    assert policy[..|policy|] == policy;
    for i := 0 to |policy|
      invariant AfterDenies(resources, policy[i..], action) == MaximumResources(policy, action)
    {
      var s := policy[i];
      assert policy[i..][0] == s && policy[i..][1..] == policy[i + 1..];
      if Binding(s, action) {
        if EveryResource(s) { return {}; }
        if s.resource.NotResource? {
          resources := NarrowLoop(resources, Elements(s.resource.permitted));
        }
      }
    }
  }

  // ---------- the admission check ----------

  /** The action registry of workload-actions.json. */
  datatype Registry = Registry(data: seq<string>, execution: seq<string>)

  const PASS_ROLE := "iam:PassRole"
  const ROLE_CHAINING: seq<string> :=
    ["sts:AssumeRole", "sts:AssumeRoleWithSAML", "sts:AssumeRoleWithWebIdentity"]

  function LowerAll(actions: seq<string>): set<string> {
    set a | a in actions :: Lower(a)
  }

  function Supported(registry: Registry): set<string> {
    LowerAll(registry.data + registry.execution + [PASS_ROLE])
  }

  predicate Enumerated(patterns: seq<Pattern>) {
    forall p <- patterns :: !HasWildcard(p)
  }

  /** An unconditional deny of everything except finitely many named actions. */
  predicate FiniteCeiling(s: Statement) {
    s.effect.Deny? && !s.conditional && EveryResource(s) && s.action.NotAction? && Enumerated(s.action.exempt)
  }

  predicate HasFiniteCeiling(policy: Policy) {
    exists s <- policy :: FiniteCeiling(s)
  }

  predicate AllowBounded(s: Statement, finite: bool) {
    s.effect.Allow? ==> !s.action.NotAction? && (finite || (s.action.Action? ==> Enumerated(s.action.actions)))
  }

  /** The actions that every finite ceiling exempts, lower-cased. */
  function Possible(policy: Policy): set<string> {
    set s, a | s in policy && FiniteCeiling(s) && a in LowerAll(s.action.exempt) && PossibleUnder(policy, a) :: a
  }

  predicate PossibleUnder(policy: Policy, a: string) {
    forall s <- policy | FiniteCeiling(s) :: a in LowerAll(s.action.exempt)
  }

  /** `verify_ceiling`: the conjunction of all its checks. */
  predicate Accepts(policy: Policy, roles: set<string>, targets: set<string>, registry: Registry, iamWrites: seq<string>) {
    && (forall s <- policy :: AllowBounded(s, HasFiniteCeiling(policy)))
    && (forall a <- iamWrites + ROLE_CHAINING | a != PASS_ROLE :: DeniedCeiling(policy, a) == {})
    && HasFiniteCeiling(policy)
    && (forall a <- Possible(policy) - Supported(registry) :: DeniedCeiling(policy, a) == {})
    && (forall a <- registry.execution :: DeniedCeiling(policy, a) <= targets)
    && DeniedCeiling(policy, PASS_ROLE) <= roles
  }

  lemma {:induction false} CeilingIgnoresCase(policy: Policy, a: string, b: string)
    requires Lower(a) == Lower(b)
    ensures AllowedPatterns(policy, a) == AllowedPatterns(policy, b)
  {
    if policy != [] {
      CeilingIgnoresCase(policy[..|policy| - 1], a, b);
    }
  }

  lemma {:induction false} AfterDeniesIgnoresCase(resources: set<Pattern>, policy: Policy, a: string, b: string)
    requires Lower(a) == Lower(b)
    ensures AfterDenies(resources, policy, a) == AfterDenies(resources, policy, b)
    decreases |policy|
  {
    if policy != [] {
      var next := if policy[0].resource.NotResource?
                  then Narrow(resources, Elements(policy[0].resource.permitted)) else resources;
      AfterDeniesIgnoresCase(next, policy[1..], a, b);
      AfterDeniesIgnoresCase(resources, policy[1..], a, b);
    }
  }

  lemma DeniedCeilingIgnoresCase(policy: Policy, a: string, b: string)
    requires Lower(a) == Lower(b)
    ensures DeniedCeiling(policy, a) == DeniedCeiling(policy, b)
  {
    var synthetic := [ALLOW_ALL] + Denies(policy);
    CeilingIgnoresCase(synthetic, a, b);
    AfterDeniesIgnoresCase(AllowedPatterns(synthetic, a), synthetic, a, b);
  }

  /** An empty ceiling means every resource is refused, in any spelling of the action. */
  lemma EmptyCeilingRefuses(policy: Policy, listed: string, action: string, r: string)
    requires DeniedCeiling(policy, listed) == {} && Lower(listed) == Lower(action)
    ensures Refused(policy, action, r)
  {
    DeniedCeilingIgnoresCase(policy, listed, action);
    if !Refused(policy, action, r) {
      DeniedCeilingSound(policy, action, r);
    }
  }

  /** A finite ceiling refuses every action it does not name. */
  lemma FiniteCeilingRefuses(policy: Policy, s: Statement, action: string, r: string)
    requires s in policy && FiniteCeiling(s) && Lower(action) !in LowerAll(s.action.exempt)
    ensures Refused(policy, action, r)
  {
    var patterns := s.action.exempt;
    forall i | 0 <= i < |patterns| ensures !Glob(Lower(patterns[i]), Lower(action)) {
      assert patterns[i] in patterns;
      LowerKeepsWildcards(patterns[i]);
      LiteralMatchesItself(Lower(patterns[i]), Lower(action));
    }
    EveryResourceCovers(s, r);
    var i :| 0 <= i < |policy| && policy[i] == s;
    assert RefusedBy(policy[i], action, r);
  }

  lemma PossibleMeans(policy: Policy, a: string)
    ensures a in Possible(policy) <==> HasFiniteCeiling(policy) && PossibleUnder(policy, a)
  {
  }

  lemma UnrefusedIsPossible(policy: Policy, action: string, r: string)
    requires HasFiniteCeiling(policy) && !Refused(policy, action, r)
    ensures Lower(action) in Possible(policy)
  {
    forall s <- policy | FiniteCeiling(s) ensures Lower(action) in LowerAll(s.action.exempt) {
      if Lower(action) !in LowerAll(s.action.exempt) { FiniteCeilingRefuses(policy, s, action, r); }
    }
    PossibleMeans(policy, Lower(action));
  }

  /** An action whose ceiling was checked against a set of names lies under one of them. */
  lemma CheckedCeilingBounds(policy: Policy, listed: string, names: set<string>, action: string, r: string)
    requires DeniedCeiling(policy, listed) <= names && Lower(listed) == Lower(action)
    requires !Refused(policy, action, r)
    ensures exists t :: t in names && Glob(t, r)
  {
    DeniedCeilingIgnoresCase(policy, listed, action);
    DeniedCeilingSound(policy, action, r);
    var p :| p in DeniedCeiling(policy, action) && Glob(p, r);
    assert p in names;
  }

  /** What an accepted ceiling means for every action and every resource it does not
      unconditionally refuse. */
  lemma AcceptedCeilingBounds(policy: Policy, roles: set<string>, targets: set<string>, registry: Registry,
                              iamWrites: seq<string>, action: string, r: string)
    requires Accepts(policy, roles, targets, registry, iamWrites)
    requires !Refused(policy, action, r)
    ensures Lower(action) in Supported(registry)
    ensures forall a <- iamWrites + ROLE_CHAINING | a != PASS_ROLE :: Lower(a) != Lower(action)
    ensures Lower(action) in LowerAll(registry.execution) ==> exists t :: t in targets && Glob(t, r)
    ensures Lower(action) == Lower(PASS_ROLE) ==> exists t :: t in roles && Glob(t, r)
  {
    UnrefusedIsPossible(policy, action, r);
    if Lower(action) !in Supported(registry) {
      LowerIdempotent(action);
      EmptyCeilingRefuses(policy, Lower(action), action, r);
    }
    forall a <- iamWrites + ROLE_CHAINING | a != PASS_ROLE ensures Lower(a) != Lower(action) {
      if Lower(a) == Lower(action) { EmptyCeilingRefuses(policy, a, action, r); }
    }
    if Lower(action) in LowerAll(registry.execution) {
      var a :| a in registry.execution && Lower(a) == Lower(action);
      CheckedCeilingBounds(policy, a, targets, action, r);
    }
    if Lower(action) == Lower(PASS_ROLE) {
      CheckedCeilingBounds(policy, PASS_ROLE, roles, action, r);
    }
  }

  /** Where the admitted names are plain, the resource is one of them. */
  lemma PlainNamesAreExact(names: set<string>, r: string)
    requires forall t <- names :: !HasWildcard(t)
    ensures (exists t :: t in names && Glob(t, r)) <==> r in names
  {
    forall t <- names ensures Glob(t, r) <==> t == r {
      LiteralMatchesItself(t, r);
    }
  }

  // ---------- the check as the source runs it ----------

  lemma PossibleGrows(policy: Policy, s: Statement)
    ensures HasFiniteCeiling(policy + [s]) <==> HasFiniteCeiling(policy) || FiniteCeiling(s)
    ensures var longer := policy + [s];
            Possible(longer) == if !FiniteCeiling(s) then Possible(policy)
                                else if !HasFiniteCeiling(policy) then LowerAll(s.action.exempt)
                                else Possible(policy) * LowerAll(s.action.exempt)
  {
    var longer := policy + [s];
    assert longer[|policy|] == s;
    assert forall x :: x in longer <==> x in policy || x == s;
    forall a
      ensures a in Possible(longer) <==> HasFiniteCeiling(longer) && PossibleUnder(longer, a)
      ensures a in Possible(policy) <==> HasFiniteCeiling(policy) && PossibleUnder(policy, a)
      ensures PossibleUnder(longer, a)
         <==> PossibleUnder(policy, a) && (FiniteCeiling(s) ==> a in LowerAll(s.action.exempt))
    {
      PossibleMeans(policy, a);
      PossibleMeans(longer, a);
    }
  }

  /** `ceilings` and `set.intersection(*ceilings)`. */
  method PossibleLoop(policy: Policy) returns (found: bool, possible: set<string>)
    ensures found == HasFiniteCeiling(policy)
    ensures found ==> possible == Possible(policy)
  {
    found, possible := false, {};
    for i := 0 to |policy|
      invariant found == HasFiniteCeiling(policy[..i])
      invariant found ==> possible == Possible(policy[..i])
    {
      PossibleGrows(policy[..i], policy[i]);
      assert policy[..i + 1] == policy[..i] + [policy[i]];
      if FiniteCeiling(policy[i]) {
        var named := LowerAll(policy[i].action.exempt);
        found, possible := true, if found then possible * named else named;
      }
    }
    assert policy[..|policy|] == policy;
  }

  method DeniedCeilingLoop(policy: Policy, action: string) returns (resources: set<Pattern>)
    ensures resources == DeniedCeiling(policy, action)
  {
    resources := MaximumResourcesLoop([ALLOW_ALL] + Denies(policy), action);
  }

  method AllowsBounded(policy: Policy, finite: bool) returns (ok: bool)
    ensures ok <==> forall s <- policy :: AllowBounded(s, finite)
  {
    for i := 0 to |policy|
      invariant forall j | 0 <= j < i :: AllowBounded(policy[j], finite)
    {
      if !AllowBounded(policy[i], finite) { return false; }
    }
    return true;
  }

  method AllDenied(policy: Policy, actions: seq<string>) returns (ok: bool)
    ensures ok <==> forall a <- actions | a != PASS_ROLE :: DeniedCeiling(policy, a) == {}
  {
    for i := 0 to |actions|
      invariant forall j | 0 <= j < i && actions[j] != PASS_ROLE :: DeniedCeiling(policy, actions[j]) == {}
    {
      if actions[i] != PASS_ROLE {
        var ceiling := DeniedCeilingLoop(policy, actions[i]);
        if ceiling != {} { return false; }
      }
    }
    return true;
  }

  method EveryDenied(policy: Policy, actions: set<string>) returns (ok: bool)
    ensures ok <==> forall a <- actions :: DeniedCeiling(policy, a) == {}
  {
    var todo := actions;
    while todo != {}
      invariant todo <= actions && forall a <- actions - todo :: DeniedCeiling(policy, a) == {}
    {
      var a :| a in todo;
      var ceiling := DeniedCeilingLoop(policy, a);
      if ceiling != {} { return false; }
      todo := todo - {a};
    }
    return true;
  }

  method AllWithin(policy: Policy, actions: seq<string>, targets: set<string>) returns (ok: bool)
    ensures ok <==> forall a <- actions :: DeniedCeiling(policy, a) <= targets
  {
    for i := 0 to |actions|
      invariant forall j | 0 <= j < i :: DeniedCeiling(policy, actions[j]) <= targets
    {
      var ceiling := DeniedCeilingLoop(policy, actions[i]);
      if !(ceiling <= targets) { return false; }
    }
    return true;
  }

  /** `verify_ceiling`; false is the source's AssertionError. */
  method VerifyCeiling(policy: Policy, roles: set<string>, targets: set<string>, registry: Registry,
                       iamWrites: seq<string>) returns (ok: bool)
    ensures ok == Accepts(policy, roles, targets, registry, iamWrites)
  {
    var finite, possible := PossibleLoop(policy);
    ok := AllowsBounded(policy, finite);
    if !ok { return; }
    ok := AllDenied(policy, iamWrites + ROLE_CHAINING);
    if !ok || !finite { return false; }
    ok := EveryDenied(policy, possible - Supported(registry));
    if !ok { return; }
    ok := AllWithin(policy, registry.execution, targets);
    if !ok { return; }
    var passed := DeniedCeilingLoop(policy, PASS_ROLE);
    ok := passed <= roles;
  }
}
