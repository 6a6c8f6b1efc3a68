/**
  Money in a projection: for every currency whose allocations could all be read, what
  the facts cost is what was allocated plus what was not, in exact arithmetic.
  */
module Conservation {
  import opened Options
  import opened Sequences
  import opened Relationships
  import opened WorkCost
  import opened Projection

  // ---------- facts in view are distinct ----------

  predicate DistinctFacts(facts: seq<Fact>) {
    forall i, j | 0 <= i < j < |facts| :: facts[i].subject != facts[j].subject
  }

  lemma {:induction false} VisibleFactsDistinct(scope: Scope, facts: seq<Fact>)
    requires VisibleFacts(scope, facts).Some?
    ensures DistinctFacts(VisibleFacts(scope, facts).value.items)
  {
    if facts != [] {
      VisibleFactsDistinct(scope, facts[..|facts| - 1]);
      var before := VisibleFacts(scope, facts[..|facts| - 1]).value.items;
      forall i | 0 <= i < |before| ensures before[i] in before {}
    }
  }

  // ---------- the sums ----------

  function RowShare(row: Row, currency: string): real {
    if row.fact.kind == "cost" && row.fact.currency == currency && row.fact.amount.Some?
    then row.fact.amount.value else 0.0
  }

  function SumRows(rows: seq<Row>, currency: string): real {
    if rows == [] then 0.0 else SumRows(rows[..|rows| - 1], currency) + RowShare(rows[|rows| - 1], currency)
  }

  function SumCharges(charged: seq<Fact>, currency: string): real {
    if charged == [] then 0.0
    else
      var f := charged[|charged| - 1];
      SumCharges(charged[..|charged| - 1], currency) + if f.currency == currency then ChargeOf(f).amount else 0.0
  }

  function SumPosted(charged: seq<Fact>, byFact: map<Ref, real>, currency: string): real {
    if charged == [] then 0.0
    else
      var f := charged[|charged| - 1];
      SumPosted(charged[..|charged| - 1], byFact, currency)
      + if f.currency == currency then Posted(byFact, f.subject) else 0.0
  }

  // ---------- the summary of a projection ----------

  predicate DistinctRows(rows: seq<Row>) {
    forall i, j | 0 <= i < j < |rows| :: rows[i].fact.subject != rows[j].fact.subject
  }

  lemma TotalIgnoresNewValue(order: seq<Ref>, values: map<Ref, Value>, id: Ref, v: Value, currency: string)
    requires (forall x <- order :: x in values) && id !in order
    ensures Total(order, values[id := v], currency) == Total(order, values, currency)
  {
    if order != [] {
      TotalIgnoresNewValue(order[..|order| - 1], values, id, v, currency);
      assert order[|order| - 1] in order;
    }
  }

  lemma TotalSnoc(order: seq<Ref>, values: map<Ref, Value>, id: Ref, v: Value, currency: string)
    requires (forall x <- order :: x in values) && id !in order
    ensures forall x <- order + [id] :: x in values[id := v]
    ensures Total(order + [id], values[id := v], currency) == Total(order, values, currency) + Share(v, currency)
  {
    TotalIgnoresNewValue(order, values, id, v, currency);
    assert (order + [id])[..|order|] == order;
  }

  lemma CountNew(t: Tally, row: Row)
    requires row.fact.subject !in t.values && Count(t, row, {}).Some?
    ensures ValueOf(row.fact).Some?
    ensures Count(t, row, {}).value.order == t.order + [row.fact.subject]
    ensures Count(t, row, {}).value.values == t.values[row.fact.subject := ValueOf(row.fact).value]
  {
  }

  lemma ShareIs(row: Row, currency: string)
    requires ValueOf(row.fact).Some?
    ensures Share(ValueOf(row.fact).value, currency) == RowShare(row, currency)
  {
  }

  lemma CountAddsNew(t: Tally, row: Row, currency: string)
    requires Keyed(t) && row.fact.subject !in t.values && Count(t, row, {}).Some?
    ensures Keyed(Count(t, row, {}).value)
    ensures Total(Count(t, row, {}).value.order, Count(t, row, {}).value.values, currency)
         == Total(t.order, t.values, currency) + RowShare(row, currency)
  {
    CountKeyed(t, row, {});
    CountNew(t, row);
    ShareIs(row, currency);
    TotalSnoc(t.order, t.values, row.fact.subject, ValueOf(row.fact).value, currency);
  }

  lemma UnseenFact(rows: seq<Row>, values: map<Ref, Value>, id: Ref)
    requires ValuesMatch(rows, {}, values) && forall row <- rows :: row.fact.subject != id
    ensures id !in values
  {
  }

  /** Over rows with distinct facts the summary adds up every row. */
  lemma {:induction false} SummaryAddsRows(rows: seq<Row>, currency: string)
    requires DistinctRows(rows) && TallyRows(rows, {}).Some?
    ensures Keyed(TallyRows(rows, {}).value)
    ensures Total(TallyRows(rows, {}).value.order, TallyRows(rows, {}).value.values, currency) == SumRows(rows, currency)
  {
    if rows != [] {
      var front, row := rows[..|rows| - 1], rows[|rows| - 1];
      SummaryAddsRows(front, currency);
      TallyMeaning(front, {});
      UnseenFact(front, TallyRows(front, {}).value.values, row.fact.subject);
      CountAddsNew(TallyRows(front, {}).value, row, currency);
    }
  }

  ghost predicate GroupsFrom(facts: seq<Fact>, g: Grouped) {
    && |g.rows| == |g.contexts|
    && (forall i | 0 <= i < |g.rows| :: g.rows[i].fact in facts && g.contexts[i].subject == g.rows[i].fact.subject)
    && DistinctRows(g.rows)
  }

  lemma GroupsFromSnoc(front: seq<Fact>, g: Grouped, f: Fact, context: Context, hidden: bool)
    requires GroupsFrom(front, g) && context.subject == f.subject && forall x <- front :: x.subject != f.subject
    ensures GroupsFrom(front + [f], Grouped(g.contexts + [context], g.rows + [Row(f, context.portfolios)], hidden))
    ensures GroupsFrom(front + [f], g.(hidden := hidden))
  {
  }

  ghost predicate OwnContexts(contextOf: Fact -> Option<Context>) {
    forall f :: contextOf(f).Some? ==> contextOf(f).value.subject == f.subject
  }

  lemma ContextsAreOwn(links: seq<Link>, contributions: seq<Contribution>, regroup: Option<int>)
    ensures OwnContexts(ContextOf(links, contributions, regroup))
  {
    var contextOf := ContextOf(links, contributions, regroup);
    forall f | contextOf(f).Some? ensures contextOf(f).value.subject == f.subject {
      ContextSubject(links, contributions, regroup, f);
    }
  }

  lemma {:induction false} GroupMeaning(facts: seq<Fact>, contextOf: Fact -> Option<Context>, portfolios: set<string>)
    requires OwnContexts(contextOf) && DistinctFacts(facts) && Group(facts, contextOf, portfolios).Some?
    ensures GroupsFrom(facts, Group(facts, contextOf, portfolios).value)
  {
    if facts != [] {
      var front, f := facts[..|facts| - 1], facts[|facts| - 1];
      GroupMeaning(front, contextOf, portfolios);
      var g := Group(front, contextOf, portfolios).value;
      var context := contextOf(f).value;
      GroupsFromSnoc(front, g, f, context, g.hidden || context.products == []);
      assert facts == front + [f];
    }
  }

  function ChargedBy(contexts: seq<Context>): Fact -> bool {
    (f: Fact) => InContexts(contexts, f) && f.kind == "cost"
  }

  lemma NewContextChangesNothing(facts: seq<Fact>, contexts: seq<Context>, context: Context)
    requires forall f <- facts :: f.subject != context.subject
    ensures Filter(facts, ChargedBy(contexts + [context])) == Filter(facts, ChargedBy(contexts))
  {
  }

  lemma ChargesSnoc(charged: seq<Fact>, f: Fact, currency: string)
    ensures SumCharges(charged + [f], currency)
         == SumCharges(charged, currency) + if f.currency == currency then ChargeOf(f).amount else 0.0
  {
    assert (charged + [f])[..|charged|] == charged;
  }

  lemma IncludedCharge(front: seq<Fact>, f: Fact, contexts: seq<Context>, context: Context)
    requires context.subject == f.subject && forall x <- front :: x.subject != f.subject
    ensures var charged := Filter(front, ChargedBy(contexts));
      Filter(front + [f], ChargedBy(contexts + [context])) == if f.kind == "cost" then charged + [f] else charged
  {
    NewContextChangesNothing(front, contexts, context);
    assert context in contexts + [context];
    FilterSnoc(front, f, ChargedBy(contexts + [context]));
  }

  /** One more fact that the filter let through. */
  lemma IncludedFact(front: seq<Fact>, f: Fact, contexts: seq<Context>, context: Context, row: Row, currency: string)
    requires context.subject == f.subject && forall x <- front :: x.subject != f.subject
    requires ValueOf(f).Some? && row.fact == f
    ensures SumCharges(Filter(front + [f], ChargedBy(contexts + [context])), currency)
         == SumCharges(Filter(front, ChargedBy(contexts)), currency) + RowShare(row, currency)
  {
    IncludedCharge(front, f, contexts, context);
    ChargesSnoc(Filter(front, ChargedBy(contexts)), f, currency);
  }

  /** One more fact that it did not. */
  lemma ExcludedFact(front: seq<Fact>, f: Fact, g: Grouped)
    requires GroupsFrom(front, g) && forall x <- front :: x.subject != f.subject
    ensures Filter(front + [f], ChargedBy(g.contexts)) == Filter(front, ChargedBy(g.contexts))
  {
  }

  ghost predicate AddsUp(facts: seq<Fact>, g: Grouped, currency: string) {
    (forall row <- g.rows :: ValueOf(row.fact).Some?) ==>
      SumCharges(Filter(facts, ChargedBy(g.contexts)), currency) == SumRows(g.rows, currency)
  }

  lemma AddsUpIncluding(front: seq<Fact>, f: Fact, g: Grouped, context: Context, hidden: bool, currency: string)
    requires AddsUp(front, g, currency)
    requires context.subject == f.subject && forall x <- front :: x.subject != f.subject
    ensures AddsUp(front + [f], Grouped(g.contexts + [context], g.rows + [Row(f, context.portfolios)], hidden), currency)
  {
    var row := Row(f, context.portfolios);
    var rows := g.rows + [row];
    if forall r <- rows :: ValueOf(r.fact).Some? {
      assert row in rows && forall r <- g.rows :: r in rows;
      IncludedFact(front, f, g.contexts, context, row, currency);
    }
  }

  /** The facts that are charged are exactly the cost rows of the summary. */
  lemma {:induction false} ChargedAddUp(
    facts: seq<Fact>, contextOf: Fact -> Option<Context>, portfolios: set<string>, currency: string)
    requires OwnContexts(contextOf) && DistinctFacts(facts) && Group(facts, contextOf, portfolios).Some?
    ensures AddsUp(facts, Group(facts, contextOf, portfolios).value, currency)
  {
    if facts != [] {
      var front, f := facts[..|facts| - 1], facts[|facts| - 1];
      var before := Group(front, contextOf, portfolios).value;
      var context := contextOf(f).value;
      ChargedAddUp(front, contextOf, portfolios, currency);
      assert facts == front + [f];
      var hidden := before.hidden || context.products == [];
      if Passes(context, portfolios) {
        AddsUpIncluding(front, f, before, context, hidden, currency);
      } else {
        GroupMeaning(front, contextOf, portfolios);
        ExcludedFact(front, f, before);
      }
    }
  }

  // ---------- the ledger ----------

  lemma {:induction false} ChargesLookup(charged: seq<Fact>)
    requires DistinctFacts(charged)
    ensures forall f <- charged :: f.subject in ChargesOf(charged) && ChargesOf(charged)[f.subject] == ChargeOf(f)
    ensures forall id <- ChargesOf(charged) :: exists f <- charged :: f.subject == id
  {
    if charged != [] {
      var front, last := charged[..|charged| - 1], charged[|charged| - 1];
      ChargesLookup(front);
      assert forall x :: x in charged <==> x in front || x == last;
    }
  }

  lemma {:induction false} PostedElsewhere(charged: seq<Fact>, byFact: map<Ref, real>, id: Ref, x: real, currency: string)
    requires forall f <- charged :: f.subject != id
    ensures SumPosted(charged, byFact[id := x], currency) == SumPosted(charged, byFact, currency)
  {
    if charged != [] {
      assert charged[|charged| - 1] in charged && forall f <- charged[..|charged| - 1] :: f in charged;
      PostedElsewhere(charged[..|charged| - 1], byFact, id, x, currency);
    }
  }

  /** One posting moves the sum of its own currency by its amount, and no other sum. */
  lemma {:induction false} PostedMoves(charged: seq<Fact>, byFact: map<Ref, real>, f: Fact, amount: real, currency: string)
    requires DistinctFacts(charged) && f in charged
    ensures SumPosted(charged, byFact[f.subject := Posted(byFact, f.subject) + amount], currency)
         == SumPosted(charged, byFact, currency) + if f.currency == currency then amount else 0.0
  {
    var front, last := charged[..|charged| - 1], charged[|charged| - 1];
    if last == f {
      PostedElsewhere(front, byFact, f.subject, Posted(byFact, f.subject) + amount, currency);
    } else {
      PostedMoves(front, byFact, f, amount, currency);
    }
  }

  ghost predicate Balanced(charged: seq<Fact>, ledger: Ledger) {
    && (forall currency :: Get(ledger.granted, currency) == SumPosted(charged, ledger.byFact, currency))
    && (forall id <- ledger.byFact :: id in ChargesOf(charged)
          && 0.0 <= ledger.byFact[id] <= ChargesOf(charged)[id].amount)
  }

  lemma {:induction false} NothingPosted(charged: seq<Fact>, currency: string)
    ensures SumPosted(charged, map[], currency) == 0.0
  {
    if charged != [] { NothingPosted(charged[..|charged| - 1], currency); }
  }

  lemma AcceptedBalances(charged: seq<Fact>, ledger: Ledger, a: Allocation, currency: string)
    requires DistinctFacts(charged) && a.source in ChargesOf(charged) && a.amount.Some?
    requires Get(ledger.granted, currency) == SumPosted(charged, ledger.byFact, currency)
    ensures Get(Plus(ledger.granted, ChargesOf(charged)[a.source].currency, a.amount.value), currency)
         == SumPosted(charged, ledger.byFact[a.source := Posted(ledger.byFact, a.source) + a.amount.value], currency)
  {
    ChargesLookup(charged);
    var f :| f in charged && f.subject == a.source;
    PostedMoves(charged, ledger.byFact, f, a.amount.value, currency);
  }

  lemma PostBalanced(scope: Scope, charged: seq<Fact>, ledger: Ledger, a: Allocation)
    requires DistinctFacts(charged) && Balanced(charged, ledger)
    requires Post(scope, ChargesOf(charged), ledger, a).Some?
    ensures Balanced(charged, Post(scope, ChargesOf(charged), ledger, a).value)
  {
    if AllPermitted(scope, [a.source, a.target]) == Some(true) && a.source in ChargesOf(charged) {
      assert AllocationLegal(ledger, a, ChargesOf(charged)[a.source]);
      forall currency {
        AcceptedBalances(charged, ledger, a, currency);
      }
    }
  }

  /** Through any list of allocations the ledger balances, and no fact is charged more
      than its amount or less than nothing. */
  lemma {:induction false} LedgerBalanced(scope: Scope, charged: seq<Fact>, allocations: seq<Allocation>)
    requires DistinctFacts(charged) && PostAll(scope, ChargesOf(charged), allocations).Some?
    ensures Balanced(charged, PostAll(scope, ChargesOf(charged), allocations).value)
  {
    if allocations == [] {
      forall currency ensures SumPosted(charged, map[], currency) == 0.0 { NothingPosted(charged, currency); }
    } else {
      var front := allocations[..|allocations| - 1];
      LedgerBalanced(scope, charged, front);
      PostBalanced(scope, charged, PostAll(scope, ChargesOf(charged), front).value, allocations[|allocations| - 1]);
    }
  }

  lemma {:induction false} UnallocatedIsTheRest(charged: seq<Fact>, ledger: Ledger, currency: string)
    requires currency !in ledger.unknown
    ensures Get(Unallocated(charged, ledger), currency)
         == SumCharges(charged, currency) - SumPosted(charged, ledger.byFact, currency)
  {
    if charged != [] { UnallocatedIsTheRest(charged[..|charged| - 1], ledger, currency); }
  }

  lemma {:induction false} FilterKeepsDistinct(facts: seq<Fact>, keep: Fact -> bool)
    requires DistinctFacts(facts)
    ensures DistinctFacts(Filter(facts, keep))
    ensures forall f <- Filter(facts, keep) :: f in facts && keep(f)
  {
    FilterMembers(facts, keep);
    if facts != [] {
      FilterMembers(facts[..|facts| - 1], keep);
      FilterKeepsDistinct(facts[..|facts| - 1], keep);
      var front := Filter(facts[..|facts| - 1], keep);
      forall i | 0 <= i < |front| ensures front[i].subject != facts[|facts| - 1].subject {
        assert front[i] in front;
      }
    }
  }

  // ---------- which currencies are unknown ----------

  /** An allocation that may not be read, of a charged fact in the currency. */
  predicate Obscures(scope: Scope, charged: seq<Fact>, a: Allocation, currency: string) {
    && AllPermitted(scope, [a.source, a.target]) == Some(false)
    && exists f <- charged :: f.subject == a.source && f.currency == currency
  }

  lemma ObscuringCharge(scope: Scope, charged: seq<Fact>, a: Allocation, currency: string)
    requires DistinctFacts(charged)
    ensures Obscures(scope, charged, a, currency)
       <==> AllPermitted(scope, [a.source, a.target]) == Some(false)
            && a.source in ChargesOf(charged) && ChargesOf(charged)[a.source].currency == currency
  {
    ChargesLookup(charged);
  }

  lemma PostUnknown(scope: Scope, charged: seq<Fact>, ledger: Ledger, a: Allocation, currency: string)
    requires DistinctFacts(charged) && Post(scope, ChargesOf(charged), ledger, a).Some?
    ensures currency in Post(scope, ChargesOf(charged), ledger, a).value.unknown
       <==> currency in ledger.unknown || Obscures(scope, charged, a, currency)
  {
    ObscuringCharge(scope, charged, a, currency);
  }

  /** The ledger marks exactly the currencies that some allocation obscures. */
  lemma {:induction false} UnknownExactly(
    scope: Scope, charged: seq<Fact>, allocations: seq<Allocation>, currency: string)
    requires DistinctFacts(charged) && PostAll(scope, ChargesOf(charged), allocations).Some?
    ensures currency in PostAll(scope, ChargesOf(charged), allocations).value.unknown
       <==> exists a <- allocations :: Obscures(scope, charged, a, currency)
  {
    if allocations != [] {
      var front, last := allocations[..|allocations| - 1], allocations[|allocations| - 1];
      UnknownExactly(scope, charged, front, currency);
      PostUnknown(scope, charged, PostAll(scope, ChargesOf(charged), front).value, last, currency);
      assert allocations == front + [last];
    }
  }

  // A currency has an entry for what is left exactly when it is charged and not unknown.
  lemma {:induction false} UnallocatedEntries(charged: seq<Fact>, ledger: Ledger, currency: string)
    ensures currency in Unallocated(charged, ledger)
       <==> currency !in ledger.unknown && exists f <- charged :: f.currency == currency
  {
    if charged != [] {
      var front, last := charged[..|charged| - 1], charged[|charged| - 1];
      UnallocatedEntries(front, ledger, currency);
      assert charged == front + [last];
    }
  }

  // ---------- the theorem ----------

  /** The charged facts of a projection. */
  function ChargedIn(scope: Scope, facts: seq<Fact>, contexts: seq<Context>): seq<Fact>
    requires VisibleFacts(scope, facts).Some?
  {
    Charged(VisibleFacts(scope, facts).value.items, contexts)
  }

  // The rows behind a projection.
  lemma QueryGroups(scope: Scope, facts: seq<Fact>, request: Request, currency: string) returns (g: Grouped)
    requires Query(scope, facts, request).Some?
    ensures var p := Query(scope, facts, request).value;
      var visible := VisibleFacts(scope, facts).value.items;
      && DistinctFacts(visible) && GroupsFrom(visible, g) && AddsUp(visible, g, currency)
      && p.contexts == g.contexts && Aggregate(g.rows, {}) == Some(p.summary)
  {
    var visible := VisibleFacts(scope, facts).value.items;
    var links := VisibleItems(scope, request.links, LinkRefs).value.items;
    var contributions := VisibleItems(scope, request.contributions, ContributionRefs).value.items;
    var contextOf := ContextOf(links, contributions, request.regroup);
    g := Group(visible, contextOf, request.portfolios).value;
    ContextsAreOwn(links, contributions, request.regroup);
    VisibleFactsDistinct(scope, facts);
    GroupMeaning(visible, contextOf, request.portfolios);
    ChargedAddUp(visible, contextOf, request.portfolios, currency);
  }

  /** For every currency that no allocation obscures, the cost of the counted facts is what
      was allocated of it plus what was not. An obscured currency has no unallocated entry. */
  lemma CostIsConserved(scope: Scope, facts: seq<Fact>, request: Request, currency: string)
    requires Query(scope, facts, request).Some?
    ensures var p := Query(scope, facts, request).value;
      var charged := ChargedIn(scope, facts, p.contexts);
      if exists a <- request.allocations :: Obscures(scope, charged, a, currency)
      then currency !in p.unallocated
      else Get(p.summary.costs, currency) == Get(p.ledger.granted, currency) + Get(p.unallocated, currency)
           && (currency in p.unallocated <==> exists f <- charged :: f.currency == currency)
  {
    var p := Query(scope, facts, request).value;
    var g := QueryGroups(scope, facts, request, currency);
    var charged := ChargedIn(scope, facts, p.contexts);
    FilterKeepsDistinct(VisibleFacts(scope, facts).value.items, ChargedBy(p.contexts));
    UnknownExactly(scope, charged, request.allocations, currency);
    UnallocatedEntries(charged, p.ledger, currency);
    if currency !in p.ledger.unknown {
      SummaryIs(g.rows, currency);
      LedgerIs(scope, VisibleFacts(scope, facts).value.items, p.contexts, request.allocations, currency);
    }
  }

  lemma SummaryIs(rows: seq<Row>, currency: string)
    requires DistinctRows(rows) && Aggregate(rows, {}).Some?
    ensures Get(Aggregate(rows, {}).value.costs, currency) == SumRows(rows, currency)
    ensures forall row <- rows :: ValueOf(row.fact).Some?
  {
    AggregateIs(rows, {}, currency);
    SummaryAddsRows(rows, currency);
    forall row <- rows ensures ValueOf(row.fact).Some? {
      assert Counted(row, {});
    }
  }

  lemma LedgerIs(scope: Scope, visible: seq<Fact>, contexts: seq<Context>, allocations: seq<Allocation>, currency: string)
    requires DistinctFacts(visible) && PostAll(scope, ChargesOf(Charged(visible, contexts)), allocations).Some?
    requires currency !in PostAll(scope, ChargesOf(Charged(visible, contexts)), allocations).value.unknown
    ensures var charged := Charged(visible, contexts);
            var ledger := PostAll(scope, ChargesOf(charged), allocations).value;
            Get(ledger.granted, currency) + Get(Unallocated(charged, ledger), currency)
              == SumCharges(Filter(visible, ChargedBy(contexts)), currency)
  {
    var charged := Charged(visible, contexts);
    FilterKeepsDistinct(visible, ChargedBy(contexts));
    LedgerBalanced(scope, charged, allocations);
    UnallocatedIsTheRest(charged, PostAll(scope, ChargesOf(charged), allocations).value, currency);
  }

  /** Every fact with an accepted allocation is charged between nothing and its amount. */
  lemma AllocatedWithinAmount(scope: Scope, facts: seq<Fact>, request: Request, id: Ref)
    requires Query(scope, facts, request).Some?
    requires id in Query(scope, facts, request).value.ledger.byFact
    ensures exists f <- facts :: f.subject == id && f.amount.Some?
              && 0.0 <= Query(scope, facts, request).value.ledger.byFact[id] <= f.amount.value
  {
    var p := Query(scope, facts, request).value;
    var visible := VisibleFacts(scope, facts).value.items;
    var charged := Charged(visible, p.contexts);
    VisibleFactsDistinct(scope, facts);
    FilterKeepsDistinct(visible, ChargedBy(p.contexts));
    LedgerBalanced(scope, charged, request.allocations);
    ChargesLookup(charged);
    var f :| f in charged && f.subject == id;
    assert ChargesOf(charged)[id] == ChargeOf(f);
    VisibleFromFacts(scope, facts);
    ChargedHasAmount(scope, facts, request, f);
  }

  lemma {:induction false} VisibleFromFacts(scope: Scope, facts: seq<Fact>)
    requires VisibleFacts(scope, facts).Some?
    ensures forall f <- VisibleFacts(scope, facts).value.items :: f in facts
  {
    if facts != [] {
      VisibleFromFacts(scope, facts[..|facts| - 1]);
      assert forall f :: f in facts <==> f in facts[..|facts| - 1] || f == facts[|facts| - 1];
    }
  }

  lemma IncludedFactHasRow(visible: seq<Fact>, g: Grouped, f: Fact)
    requires DistinctFacts(visible) && GroupsFrom(visible, g) && f in visible && InContexts(g.contexts, f)
    ensures exists row <- g.rows :: row.fact == f
  {
  }

  lemma ChargedHasAmount(scope: Scope, facts: seq<Fact>, request: Request, f: Fact)
    requires Query(scope, facts, request).Some?
    requires f in VisibleFacts(scope, facts).value.items && f.kind == "cost"
    requires InContexts(Query(scope, facts, request).value.contexts, f)
    ensures f.amount.Some?
  {
    var g := QueryGroups(scope, facts, request, "");
    IncludedFactHasRow(VisibleFacts(scope, facts).value.items, g, f);
    var row :| row in g.rows && row.fact == f;
    SummaryIs(g.rows, "");
    assert ValueOf(row.fact).Some?;
  }
}
