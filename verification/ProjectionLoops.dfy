/**
  The loops of `query_authorized_projection`, modules/insights/projection.py, over facts,
  source items, contexts and allocations. They compute Projection.Query.
  */
module ProjectionLoops {
  import opened Options
  import opened Relationships
  import opened WorkCost
  import opened Projection

  // ---------- facts ----------

  lemma {:induction false} FactsStayRefused(scope: Scope, facts: seq<Fact>, n: nat)
    requires n <= |facts| && VisibleFacts(scope, facts[..n]).None?
    ensures VisibleFacts(scope, facts).None?
    decreases |facts|
  {
    if n < |facts| {
      assert facts[..|facts| - 1][..n] == facts[..n];
      FactsStayRefused(scope, facts[..|facts| - 1], n);
    } else {
      assert facts[..n] == facts;
    }
  }

  method FactsLoop(scope: Scope, facts: seq<Fact>) returns (r: Option<Seen<Fact>>)
    ensures r == VisibleFacts(scope, facts)
  {
    var visible: seq<Fact>, hidden := [], false;
    var i := 0;
    while i < |facts|
      invariant 0 <= i <= |facts|
      invariant VisibleFacts(scope, facts[..i]) == Some(Seen(visible, hidden))
    {
      var f := facts[i];
      assert facts[..i + 1][..i] == facts[..i];
      var allowed := Permitted(scope, f.subject);
      if allowed == Some(false) || (allowed.Some? && Misplaced(scope, f)) {
        hidden := true;
      } else if allowed.None? || (f !in visible && exists g <- visible :: g.subject == f.subject) {
        FactsStayRefused(scope, facts, i + 1);
        return None;
      } else if f !in visible {
        visible := visible + [f];
      }
      i := i + 1;
    }
    assert facts[..|facts|] == facts;
    r := Some(Seen(visible, hidden));
  }

  // ---------- links and contributions ----------

  lemma {:induction false} ItemsStayRefused<T>(scope: Scope, items: seq<T>, n: nat, refs: T -> seq<Ref>)
    requires n <= |items| && VisibleItems(scope, items[..n], refs).None?
    ensures VisibleItems(scope, items, refs).None?
    decreases |items|
  {
    if n < |items| {
      assert items[..|items| - 1][..n] == items[..n];
      ItemsStayRefused(scope, items[..|items| - 1], n, refs);
    } else {
      assert items[..n] == items;
    }
  }

  method ItemsLoop<T>(scope: Scope, items: seq<T>, refs: T -> seq<Ref>) returns (r: Option<Seen<T>>)
    ensures r == VisibleItems(scope, items, refs)
  {
    var visible: seq<T>, hidden := [], false;
    var i := 0;
    while i < |items|
      invariant 0 <= i <= |items|
      invariant VisibleItems(scope, items[..i], refs) == Some(Seen(visible, hidden))
    {
      assert items[..i + 1][..i] == items[..i];
      var allowed := AllPermitted(scope, refs(items[i]));
      if allowed.None? {
        ItemsStayRefused(scope, items, i + 1, refs);
        return None;
      }
      if allowed.value { visible := visible + [items[i]]; } else { hidden := true; }
      i := i + 1;
    }
    assert items[..|items|] == items;
    r := Some(Seen(visible, hidden));
  }

  // ---------- contexts ----------

  lemma {:induction false} GroupStaysRefused(
    facts: seq<Fact>, n: nat, contextOf: Fact -> Option<Context>, portfolios: set<string>)
    requires n <= |facts| && Group(facts[..n], contextOf, portfolios).None?
    ensures Group(facts, contextOf, portfolios).None?
    decreases |facts|
  {
    if n < |facts| {
      assert facts[..|facts| - 1][..n] == facts[..n];
      GroupStaysRefused(facts[..|facts| - 1], n, contextOf, portfolios);
    } else {
      assert facts[..n] == facts;
    }
  }

  method ContextsLoop(facts: seq<Fact>, contextOf: Fact -> Option<Context>, portfolios: set<string>)
    returns (r: Option<Grouped>)
    ensures r == Group(facts, contextOf, portfolios)
  {
    var contexts: seq<Context>, rows: seq<Row>, hidden := [], [], false;
    var i := 0;
    while i < |facts|
      invariant 0 <= i <= |facts|
      invariant Group(facts[..i], contextOf, portfolios) == Some(Grouped(contexts, rows, hidden))
    {
      assert facts[..i + 1][..i] == facts[..i];
      var context := contextOf(facts[i]);
      if context.None? {
        GroupStaysRefused(facts, i + 1, contextOf, portfolios);
        return None;
      }
      if context.value.products == [] { hidden := true; }
      if portfolios == {} || portfolios * context.value.portfolios != {} {
        contexts, rows := contexts + [context.value], rows + [Row(facts[i], context.value.portfolios)];
      }
      i := i + 1;
    }
    assert facts[..|facts|] == facts;
    r := Some(Grouped(contexts, rows, hidden));
  }

  // ---------- allocations ----------

  lemma {:induction false} PostingStaysRefused(scope: Scope, charges: Charges, allocations: seq<Allocation>, n: nat)
    requires n <= |allocations| && PostAll(scope, charges, allocations[..n]).None?
    ensures PostAll(scope, charges, allocations).None?
    decreases |allocations|
  {
    if n < |allocations| {
      assert allocations[..|allocations| - 1][..n] == allocations[..n];
      PostingStaysRefused(scope, charges, allocations[..|allocations| - 1], n);
    } else {
      assert allocations[..n] == allocations;
    }
  }

  method AllocationsLoop(scope: Scope, charges: Charges, allocations: seq<Allocation>) returns (r: Option<Ledger>)
    ensures r == PostAll(scope, charges, allocations)
  {
    var hidden, unknown: set<string>, taken: set<(Ref, string)> := false, {}, {};
    var byFact: map<Ref, real>, granted: Money, accepted: seq<Allocation> := map[], map[], [];
    var i := 0;
    while i < |allocations|
      invariant 0 <= i <= |allocations|
      invariant PostAll(scope, charges, allocations[..i])
             == Some(Ledger(hidden, unknown, taken, byFact, granted, accepted))
    {
      var a := allocations[i];
      assert allocations[..i + 1][..i] == allocations[..i];
      ghost var before := Ledger(hidden, unknown, taken, byFact, granted, accepted);
      ghost var after := Post(scope, charges, before, a);
      var allowed := AllPermitted(scope, [a.source, a.target]);
      var legal := allowed.Some?;
      if allowed == Some(false) {
        hidden := true;
        if a.source in charges { unknown := unknown + {charges[a.source].currency}; }
      } else if legal && a.source in charges {
        var charge := charges[a.source];
        legal := BusinessScope(a.target.kind) && a.id != "" && a.policy != "" && a.basis != ""
                 && (a.source, a.id) !in taken && charge.currency == a.currency
                 && a.amount.Some? && a.amount.value >= 0.0;
        if legal {
          taken := taken + {(a.source, a.id)};
          byFact := byFact[a.source := Posted(byFact, a.source) + a.amount.value];
          legal := byFact[a.source] <= charge.amount;
          granted := Plus(granted, charge.currency, a.amount.value);
          accepted := accepted + [a];
        }
      }
      if !legal {
        assert after.None?;
        PostingStaysRefused(scope, charges, allocations, i + 1);
        return None;
      }
      assert after == Some(Ledger(hidden, unknown, taken, byFact, granted, accepted));
      i := i + 1;
    }
    assert allocations[..|allocations|] == allocations;
    r := Some(Ledger(hidden, unknown, taken, byFact, granted, accepted));
  }

  // ---------- what is left ----------

  method UnallocatedLoop(charged: seq<Fact>, ledger: Ledger) returns (unallocated: Money)
    ensures unallocated == Unallocated(charged, ledger)
  {
    unallocated := map[];
    var i := 0;
    while i < |charged|
      invariant 0 <= i <= |charged|
      invariant unallocated == Unallocated(charged[..i], ledger)
    {
      assert charged[..i + 1][..i] == charged[..i];
      var f := charged[i];
      if f.currency !in ledger.unknown {
        unallocated := Plus(unallocated, f.currency, ChargeOf(f).amount - Posted(ledger.byFact, f.subject));
      }
      i := i + 1;
    }
    assert charged[..|charged|] == charged;
  }

  /** `query_authorized_projection`: None where the program raises. */
  method QueryLoops(scope: Scope, facts: seq<Fact>, request: Request) returns (r: Option<Projected>)
    ensures r == Query(scope, facts, request)
  {
    var visible := FactsLoop(scope, facts);
    var links := ItemsLoop(scope, request.links, LinkRefs);
    var contributions := ItemsLoop(scope, request.contributions, ContributionRefs);
    if visible.None? || links.None? || contributions.None? { return None; }
    var contextOf := ContextOf(links.value.items, contributions.value.items, request.regroup);
    var grouped := ContextsLoop(visible.value.items, contextOf, request.portfolios);
    if grouped.None? { return None; }
    var summary := AggregateLoop(grouped.value.rows, {});
    if summary.None? { return None; }
    var charged := Charged(visible.value.items, grouped.value.contexts);
    var ledger := AllocationsLoop(scope, ChargesOf(charged), request.allocations);
    if ledger.None? { return None; }
    var unallocated := UnallocatedLoop(charged, ledger.value);
    var complete := scope.projects <= scope.readable && !visible.value.hidden && !links.value.hidden
                    && !contributions.value.hidden && !grouped.value.hidden && !ledger.value.hidden;
    r := Some(Projected(complete, grouped.value.contexts, summary.value, ledger.value, unallocated));
  }
}
