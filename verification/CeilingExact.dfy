/**
  Which policies the ceiling check accepts, read off their statements and off what they
  refuse, for policies whose denies are of everything or name exact exceptions.
  */
module CeilingExact {
  import opened Lettercase
  import opened Ceiling

  // ---------- on the statements ----------

  predicate ClosedAllows(policy: Policy) {
    forall s <- policy :: s.effect.Allow? ==> !s.action.NotAction?
  }

  /** Some unconditional deny on every resource spares only finitely many named actions. */
  predicate FinitelyDenied(policy: Policy) {
    exists s <- policy ::
      && s.effect.Deny? && !s.conditional && s.resource == Resource(["*"])
      && s.action.NotAction? && forall p <- s.action.exempt :: '*' !in p && '?' !in p
  }

  lemma FinitelyDeniedExactly(policy: Policy)
    ensures FinitelyDenied(policy) <==> HasFiniteCeiling(policy)
  {
    forall s | s in policy
      ensures FiniteCeiling(s) <==>
        && s.effect.Deny? && !s.conditional && s.resource == Resource(["*"])
        && s.action.NotAction? && forall p <- s.action.exempt :: '*' !in p && '?' !in p
    {
    }
  }

  /** No accepted policy has an open-ended Allow, or lacks a finite deny. */
  lemma AcceptedIsClosed(policy: Policy, roles: set<string>, targets: set<string>, registry: Registry,
                         iamWrites: seq<string>)
    requires Accepts(policy, roles, targets, registry, iamWrites)
    ensures ClosedAllows(policy) && FinitelyDenied(policy)
  {
    FinitelyDeniedExactly(policy);
  }

  // ---------- on what is refused ----------

  /** Every unconditional deny is of everything, or names its exceptions exactly. */
  predicate SharpPolicy(policy: Policy) {
    forall s <- policy | s.effect.Deny? && !s.conditional ::
      s.resource == Resource(["*"]) || (s.resource.NotResource? && forall p <- s.resource.permitted :: Sharp(p))
  }

  predicate SameAction(a: string, b: string) {
    Lower(a) == Lower(b)
  }

  /** The action is in the registry, and no identity change but passing a role. */
  predicate Inventoried(registry: Registry, iamWrites: seq<string>, action: string) {
    && (exists a <- registry.data + registry.execution + ["iam:PassRole"] :: SameAction(a, action))
    && forall a <- iamWrites + ["sts:AssumeRole", "sts:AssumeRoleWithSAML", "sts:AssumeRoleWithWebIdentity"] ::
         a != "iam:PassRole" ==> !SameAction(a, action)
  }

  /** The resource is named, where the action executes code or passes a role. */
  predicate Named(roles: set<string>, targets: set<string>, registry: Registry, action: string, r: string) {
    && ((exists a <- registry.execution :: SameAction(a, action)) ==> r in targets)
    && (SameAction("iam:PassRole", action) ==> r in roles)
  }

  /** Whatever the policy does not refuse is inventoried and named. */
  ghost predicate Contained(policy: Policy, roles: set<string>, targets: set<string>, registry: Registry,
                            iamWrites: seq<string>) {
    forall action, r :: !Refused(policy, action, r) ==>
      Inventoried(registry, iamWrites, action) && Named(roles, targets, registry, action, r)
  }

  // ---------- sharp ceilings ----------

  lemma {:induction false} AfterDeniesSharp(resources: set<Pattern>, policy: Policy, action: string)
    requires SharpDenies(policy, action) && forall p <- resources :: Sharp(p)
    ensures forall p <- AfterDenies(resources, policy, action) :: Sharp(p)
    decreases |policy|
  {
    if policy != [] {
      var s, rest := policy[0], policy[1..];
      assert s in policy && forall x <- rest :: x in policy;
      if Binding(s, action) && s.resource.NotResource? {
        NarrowExact(resources, s.resource.permitted, "");
        AfterDeniesSharp(Narrow(resources, Elements(s.resource.permitted)), rest, action);
      } else if !Binding(s, action) {
        AfterDeniesSharp(resources, rest, action);
      }
    }
  }

  lemma CeilingSharp(policy: Policy, action: string)
    requires SharpPolicy(policy)
    ensures SharpDenies(policy, action)
    ensures forall p <- DeniedCeiling(policy, action) :: Sharp(p)
  {
    var synthetic := [ALLOW_ALL] + Denies(policy);
    DeniesFromPolicy(policy);
    assert synthetic[1..] == Denies(policy);
    AllowedOnlyFirst(synthetic, action);
    AfterDeniesSharp(AllowedPatterns(synthetic, action), synthetic, action);
  }

  // A pattern of a sharp ceiling is something that is not refused, or everything.
  lemma CeilingPattern(policy: Policy, action: string, p: Pattern, r: string)
    requires SharpPolicy(policy) && p in DeniedCeiling(policy, action)
    requires p == "*" || r == p
    ensures !Refused(policy, action, r)
  {
    CeilingSharp(policy, action);
    StarMatchesAll(r);
    if p != "*" { LiteralMatchesItself(p, r); }
    assert Glob(p, r);
    DeniedCeilingExact(policy, action, r);
  }

  lemma LowerOf(actions: seq<string>, action: string)
    ensures Lower(action) in LowerAll(actions) <==> exists a <- actions :: SameAction(a, action)
  {
  }

  // ---------- accepted policies ----------

  // Under a ceiling within the names, a resource that is not refused is one of them.
  lemma WithinNames(policy: Policy, listed: string, names: set<string>, action: string, r: string)
    requires SharpPolicy(policy) && "*" !in names && DeniedCeiling(policy, listed) <= names
    requires SameAction(listed, action) && !Refused(policy, action, r)
    ensures r in names
  {
    DeniedCeilingIgnoresCase(policy, listed, action);
    DeniedCeilingSound(policy, action, r);
    CeilingSharp(policy, action);
    var p :| p in DeniedCeiling(policy, action) && Glob(p, r);
    LiteralWhenSharp(p, r);
  }

  lemma LiteralWhenSharp(p: Pattern, r: string)
    requires Sharp(p) && Glob(p, r)
    ensures p == "*" || p == r
  {
    if p != "*" { LiteralMatchesItself(p, r); }
  }

  lemma InventoriedFrom(registry: Registry, iamWrites: seq<string>, action: string)
    requires Lower(action) in Supported(registry)
    requires forall a <- iamWrites + ROLE_CHAINING | a != PASS_ROLE :: Lower(a) != Lower(action)
    ensures Inventoried(registry, iamWrites, action)
  {
    LowerOf(registry.data + registry.execution + [PASS_ROLE], action);
  }

  lemma AcceptedNames(policy: Policy, roles: set<string>, targets: set<string>, registry: Registry,
                      iamWrites: seq<string>, action: string, r: string)
    requires SharpPolicy(policy) && "*" !in targets && "*" !in roles
    requires Accepts(policy, roles, targets, registry, iamWrites) && !Refused(policy, action, r)
    ensures Named(roles, targets, registry, action, r)
  {
    if exists a <- registry.execution :: SameAction(a, action) {
      var a :| a in registry.execution && SameAction(a, action);
      WithinNames(policy, a, targets, action, r);
    }
    if SameAction(PASS_ROLE, action) { WithinNames(policy, PASS_ROLE, roles, action, r); }
  }

  lemma AcceptedContains(policy: Policy, roles: set<string>, targets: set<string>, registry: Registry,
                         iamWrites: seq<string>, action: string, r: string)
    requires SharpPolicy(policy) && "*" !in targets && "*" !in roles
    requires Accepts(policy, roles, targets, registry, iamWrites) && !Refused(policy, action, r)
    ensures Inventoried(registry, iamWrites, action) && Named(roles, targets, registry, action, r)
  {
    AcceptedCeilingBounds(policy, roles, targets, registry, iamWrites, action, r);
    InventoriedFrom(registry, iamWrites, action);
    AcceptedNames(policy, roles, targets, registry, iamWrites, action, r);
  }

  // ---------- contained policies ----------

  lemma {:induction false} LongerThan(names: set<string>) returns (r: string)
    ensures forall n <- names :: |n| < |r|
  {
    if names == {} {
      r := "";
    } else {
      var n :| n in names;
      var rest := LongerThan(names - {n});
      r := rest + n + "x";
    }
  }

  // The ceiling of an action that may reach only names is made of names.
  lemma NamesOnly(policy: Policy, action: string, names: set<string>)
    requires SharpPolicy(policy) && forall r :: !Refused(policy, action, r) ==> r in names
    ensures DeniedCeiling(policy, action) <= names
  {
    CeilingSharp(policy, action);
    var far := LongerThan(names);
    forall p | p in DeniedCeiling(policy, action) ensures p in names {
      CeilingPattern(policy, action, p, p);
      if p == "*" { CeilingPattern(policy, action, p, far); }
    }
  }

  lemma RefusedEverywhere(policy: Policy, action: string)
    requires SharpPolicy(policy) && forall r :: Refused(policy, action, r)
    ensures DeniedCeiling(policy, action) == {}
  {
    NamesOnly(policy, action, {});
  }

  lemma PossibleIsLower(policy: Policy, a: string)
    requires a in Possible(policy)
    ensures Lower(a) == a
  {
    var s :| s in policy && FiniteCeiling(s) && a in LowerAll(s.action.exempt);
    var x :| x in s.action.exempt && Lower(x) == a;
    LowerIdempotent(x);
  }

  lemma ContainedIsAccepted(policy: Policy, roles: set<string>, targets: set<string>, registry: Registry,
                            iamWrites: seq<string>)
    requires SharpPolicy(policy) && ClosedAllows(policy) && FinitelyDenied(policy)
    requires Contained(policy, roles, targets, registry, iamWrites)
    ensures Accepts(policy, roles, targets, registry, iamWrites)
  {
    FinitelyDeniedExactly(policy);
    forall a | a in iamWrites + ROLE_CHAINING && a != PASS_ROLE ensures DeniedCeiling(policy, a) == {} {
      assert !Inventoried(registry, iamWrites, a) by { assert SameAction(a, a); }
      RefusedEverywhere(policy, a);
    }
    forall a | a in Possible(policy) - Supported(registry) ensures DeniedCeiling(policy, a) == {} {
      PossibleIsLower(policy, a);
      LowerOf(registry.data + registry.execution + [PASS_ROLE], a);
      RefusedEverywhere(policy, a);
    }
    forall a | a in registry.execution ensures DeniedCeiling(policy, a) <= targets {
      assert SameAction(a, a);
      NamesOnly(policy, a, targets);
    }
    NamesOnly(policy, PASS_ROLE, roles);
  }

  /**
    A policy with sharp denies is accepted exactly when no Allow is open-ended, a finite
    deny is there, and whatever the policy does not refuse, of all actions and resources in
    any spelling, is inventoried and named.
    */
  lemma AcceptsExactly(policy: Policy, roles: set<string>, targets: set<string>, registry: Registry,
                       iamWrites: seq<string>)
    requires SharpPolicy(policy) && "*" !in targets && "*" !in roles
    ensures Accepts(policy, roles, targets, registry, iamWrites)
       <==> (ClosedAllows(policy) && FinitelyDenied(policy)
             && Contained(policy, roles, targets, registry, iamWrites))
  {
    if Accepts(policy, roles, targets, registry, iamWrites) {
      AcceptedIsClosed(policy, roles, targets, registry, iamWrites);
      forall action, r | !Refused(policy, action, r)
        ensures Inventoried(registry, iamWrites, action) && Named(roles, targets, registry, action, r)
      {
        AcceptedContains(policy, roles, targets, registry, iamWrites, action, r);
      }
    }
    if ClosedAllows(policy) && FinitelyDenied(policy) && Contained(policy, roles, targets, registry, iamWrites) {
      ContainedIsAccepted(policy, roles, targets, registry, iamWrites);
    }
  }
}
