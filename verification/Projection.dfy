/**
  `resolve_dated_context` and `query_authorized_projection` of
  modules/insights/projection.py: the access-scoped view of native facts, their
  business context, and the allocation of their cost.
  */
module Projection {
  import opened Options
  import opened Sequences
  import opened Versions
  import opened Relationships
  import opened WorkCost

  // ---------- access ----------

  /** The asked Projects, and what the access check answers; its answers do not change
      while one reader works. */
  datatype Scope = Scope(tenant: string, projects: set<string>, readable: set<string>)

  /** `permitted`; None when a reference is not exact. */
  function Permitted(scope: Scope, r: Ref): Option<bool> {
    if !Exact(r) then None
    else Some(r.tenant == scope.tenant && r.project in scope.projects && r.project in scope.readable)
  }

  /** `all(permitted(r) for r in refs)`, stopping at the first refusal. */
  function AllPermitted(scope: Scope, refs: seq<Ref>): Option<bool> {
    if refs == [] then Some(true)
    else
      var first := Permitted(scope, refs[0]);
      if first != Some(true) then first else AllPermitted(scope, refs[1..])
  }

  /** What a loop over source items keeps, and whether it left anything out. */
  datatype Seen<T> = Seen(items: seq<T>, hidden: bool)

  function VisibleItems<T>(scope: Scope, items: seq<T>, refs: T -> seq<Ref>): Option<Seen<T>> {
    if items == [] then Some(Seen([], false))
    else
      var before := VisibleItems(scope, items[..|items| - 1], refs);
      var item := items[|items| - 1];
      var allowed := AllPermitted(scope, refs(item));
      if before.None? || allowed.None? then None
      else if allowed.value then Some(before.value.(items := before.value.items + [item]))
      else Some(before.value.(hidden := true))
  }

  predicate Misplaced(scope: Scope, f: Fact) {
    (f.tenant.Some? && f.tenant.value != scope.tenant) || (f.project.Some? && f.project.value != f.subject.project)
  }

  /** One fact: a hidden one is left out, and a different fact under a known identity
      is refused. */
  function SeeFact(scope: Scope, seen: Seen<Fact>, f: Fact): Option<Seen<Fact>> {
    var allowed := Permitted(scope, f.subject);
    if allowed.None? then None
    else if !allowed.value || Misplaced(scope, f) then Some(seen.(hidden := true))
    else if f in seen.items then Some(seen)
    else if exists g <- seen.items :: g.subject == f.subject then None
    else Some(seen.(items := seen.items + [f]))
  }

  /** The fact loop. */
  function VisibleFacts(scope: Scope, facts: seq<Fact>): Option<Seen<Fact>> {
    if facts == [] then Some(Seen([], false))
    else
      var before := VisibleFacts(scope, facts[..|facts| - 1]);
      if before.None? then None else SeeFact(scope, before.value, facts[|facts| - 1])
  }

  // ---------- contributions ----------

  datatype WorkLink = WorkLink(work: Ref, validFrom: int, validTo: Option<int>)

  datatype Contribution = Contribution(subject: Ref, recordedAt: int, mapping: string, product: Ref, initiative: Ref,
                                       workLinks: seq<WorkLink>, validFrom: int, validTo: Option<int>)

  function ContributionKey(c: Contribution): Ref { Unversioned(c.subject) }

  function ContributionTime(c: Contribution): int { c.recordedAt }

  function LinkRefs(l: Link): seq<Ref> { [l.from, l.to] + l.sources }

  function WorkOf(w: WorkLink): Ref { w.work }

  function ContributionRefs(c: Contribution): seq<Ref> {
    [c.subject, c.product, c.initiative] + Sequences.Apply(c.workLinks, WorkOf)
  }

  function Earlier(a: Option<int>, b: Option<int>): Option<int> {
    if a.None? then b else if b.None? then a else Some(if a.value <= b.value then a.value else b.value)
  }

  /** The work-to-product links a contribution gives one fact. */
  function LinksFrom(c: Contribution, work: seq<WorkLink>, subject: Ref, effective: int): seq<Link> {
    if work == [] then []
    else
      var before, w := LinksFrom(c, work[..|work| - 1], subject, effective), work[|work| - 1];
      if w.work == subject && InForce(w.validFrom, w.validTo, effective)
      then before + [Link(w.work, c.product, c.subject.id + ":" + w.work.id, c.subject.revision, "work_product",
                          c.subject.connection, c.mapping, w.validFrom, Earlier(w.validTo, c.validTo), c.recordedAt, [])]
      else before
  }

  function LinksFromAll(cs: seq<Contribution>, subject: Ref, effective: int): seq<Link> {
    if cs == [] then []
    else
      var c := cs[|cs| - 1];
      LinksFromAll(cs[..|cs| - 1], subject, effective) + LinksFrom(c, c.workLinks, subject, effective)
  }

  // ---------- the context of one fact ----------

  datatype Context = Context(subject: Ref, regrouped: bool, effectiveAt: int, products: seq<Ref>, portfolios: set<string>,
                             links: seq<Link>, initiatives: seq<Ref>, contributions: seq<Ref>)

  predicate NamesProduct(products: seq<Ref>, r: Ref) {
    exists p <- products :: Unversioned(p) == Unversioned(r)
  }

  function Target(l: Link): Ref { l.to }

  function LeadsToProduct(subject: Ref): Link -> bool {
    (l: Link) => l.kind == "work_product" && l.from == subject && l.to.kind == "product"
  }

  function HoldsProduct(products: seq<Ref>): Link -> bool {
    (l: Link) => l.kind == "portfolio_product" && l.from.kind == "portfolio" && l.to.kind == "product"
                 && NamesProduct(products, l.to)
  }

  /** `resolve_dated_context`; without a regrouping time the context is the one known
      when the fact was recorded. */
  function Resolve(f: Fact, links: seq<Link>, regroup: Option<int>): Option<Context> {
    if !Exact(f.subject) then None
    else
      var when := if regroup.Some? then regroup.value else f.effectiveAt;
      var known := if regroup.Some? then regroup.value else f.recordedAt;
      var selected := SelectDated(links, when, known);
      if selected.None? then None
      else
        var productLinks := Filter(selected.value, LeadsToProduct(f.subject));
        var products := Sequences.Apply(productLinks, Target);
        var memberships := Filter(selected.value, HoldsProduct(products));
        Some(Context(f.subject, regroup.Some?, when, products, set l | l in memberships :: l.from.id,
                     productLinks + memberships, [], []))
  }

  predicate Contributes(c: Contribution, subject: Ref, effective: int, products: seq<Ref>) {
    && InForce(c.validFrom, c.validTo, effective)
    && (exists w <- c.workLinks :: w.work == subject && InForce(w.validFrom, w.validTo, effective))
    && NamesProduct(products, c.product)
  }

  function ContributesTo(subject: Ref, effective: int, products: seq<Ref>): Contribution -> bool {
    (c: Contribution) => Contributes(c, subject, effective, products)
  }

  function Initiative(c: Contribution): Ref { c.initiative }

  function Subject(c: Contribution): Ref { c.subject }

  /** The body of the context loop for one visible fact. */
  function FactContext(f: Fact, links: seq<Link>, contributions: seq<Contribution>, regroup: Option<int>): Option<Context> {
    var effective := if regroup.Some? then regroup.value else f.effectiveAt;
    var known := if regroup.Some? then regroup.value else f.recordedAt;
    var latest := Scan(contributions, ContributionKey, ContributionTime, known);
    if latest.None? then None
    else
      ScanChooses(contributions, ContributionKey, ContributionTime, known);
      var current := Selected(latest.value);
      var context := Resolve(f, links + LinksFromAll(current, f.subject, effective), regroup);
      if context.None? then None
      else
        var matched := Filter(current, ContributesTo(f.subject, effective, context.value.products));
        Some(context.value.(initiatives := Sequences.Apply(matched, Initiative),
                            contributions := Sequences.Apply(matched, Subject)))
  }

  predicate Passes(context: Context, portfolios: set<string>) {
    portfolios == {} || portfolios * context.portfolios != {}
  }

  /** The context loop: the contexts and rows let through by the Portfolio filter, and
      whether any fact at all has no product. */
  datatype Grouped = Grouped(contexts: seq<Context>, rows: seq<Row>, hidden: bool)

  function Include(g: Grouped, f: Fact, context: Context, portfolios: set<string>): Grouped {
    var hidden := g.hidden || context.products == [];
    if Passes(context, portfolios)
    then Grouped(g.contexts + [context], g.rows + [Row(f, context.portfolios)], hidden)
    else g.(hidden := hidden)
  }

  function ContextOf(links: seq<Link>, contributions: seq<Contribution>, regroup: Option<int>): Fact -> Option<Context> {
    (f: Fact) => FactContext(f, links, contributions, regroup)
  }

  /** A context is that of its own fact. */
  lemma ContextSubject(links: seq<Link>, contributions: seq<Contribution>, regroup: Option<int>, f: Fact)
    requires FactContext(f, links, contributions, regroup).Some?
    ensures FactContext(f, links, contributions, regroup).value.subject == f.subject
  {
  }

  function Group(facts: seq<Fact>, contextOf: Fact -> Option<Context>, portfolios: set<string>): Option<Grouped> {
    if facts == [] then Some(Grouped([], [], false))
    else
      var before := Group(facts[..|facts| - 1], contextOf, portfolios);
      var f := facts[|facts| - 1];
      var context := contextOf(f);
      if before.None? || context.None? then None else Some(Include(before.value, f, context.value, portfolios))
  }

  // ---------- allocations ----------

  datatype Allocation = Allocation(source: Ref, target: Ref, id: string, policy: string, basis: string,
                                   currency: string, amount: Option<real>)

  datatype Charge = Charge(amount: real, currency: string)

  type Charges = map<Ref, Charge>

  datatype Ledger = Ledger(hidden: bool, unknown: set<string>, taken: set<(Ref, string)>, byFact: map<Ref, real>,
                           granted: Money, accepted: seq<Allocation>)

  const EMPTY_LEDGER := Ledger(false, {}, {}, map[], map[], [])

  function Posted(byFact: map<Ref, real>, id: Ref): real {
    if id in byFact then byFact[id] else 0.0
  }

  predicate BusinessScope(kind: string) {
    kind == "product" || kind == "initiative" || kind == "contribution"
  }

  /** The checks of one allocation whose source fact is in view. */
  predicate AllocationLegal(ledger: Ledger, a: Allocation, charge: Charge) {
    && BusinessScope(a.target.kind)
    && a.id != "" && a.policy != "" && a.basis != ""
    && (a.source, a.id) !in ledger.taken
    && a.currency == charge.currency
    && a.amount.Some? && a.amount.value >= 0.0
    && Posted(ledger.byFact, a.source) + a.amount.value <= charge.amount
  }

  function Post(scope: Scope, charges: Charges, ledger: Ledger, a: Allocation): Option<Ledger> {
    var allowed := AllPermitted(scope, [a.source, a.target]);
    if allowed.None? then None
    else if !allowed.value then
      Some(ledger.(hidden := true,
                   unknown := if a.source in charges then ledger.unknown + {charges[a.source].currency} else ledger.unknown))
    else if a.source !in charges then Some(ledger)
    else if !AllocationLegal(ledger, a, charges[a.source]) then None
    else
      Some(ledger.(taken := ledger.taken + {(a.source, a.id)},
                   byFact := ledger.byFact[a.source := Posted(ledger.byFact, a.source) + a.amount.value],
                   granted := Plus(ledger.granted, charges[a.source].currency, a.amount.value),
                   accepted := ledger.accepted + [a]))
  }

  function PostAll(scope: Scope, charges: Charges, allocations: seq<Allocation>): Option<Ledger> {
    if allocations == [] then Some(EMPTY_LEDGER)
    else
      var before := PostAll(scope, charges, allocations[..|allocations| - 1]);
      if before.None? then None else Post(scope, charges, before.value, allocations[|allocations| - 1])
  }

  // ---------- the query ----------

  predicate InContexts(contexts: seq<Context>, f: Fact) {
    exists c <- contexts :: c.subject == f.subject
  }

  /** The cost facts of the included contexts, in order. */
  function Charged(visible: seq<Fact>, contexts: seq<Context>): seq<Fact> {
    Filter(visible, (f: Fact) => InContexts(contexts, f) && f.kind == "cost")
  }

  function ChargeOf(f: Fact): Charge {
    Charge(if f.amount.Some? then f.amount.value else 0.0, f.currency)
  }

  function ChargesOf(charged: seq<Fact>): Charges {
    if charged == [] then map[]
    else ChargesOf(charged[..|charged| - 1])[charged[|charged| - 1].subject := ChargeOf(charged[|charged| - 1])]
  }

  /** What is left of each fact's amount, where every allocation could be read. */
  function Unallocated(charged: seq<Fact>, ledger: Ledger): Money {
    if charged == [] then map[]
    else
      var before, f := Unallocated(charged[..|charged| - 1], ledger), charged[|charged| - 1];
      if f.currency in ledger.unknown then before
      else Plus(before, f.currency, ChargeOf(f).amount - Posted(ledger.byFact, f.subject))
  }

  datatype Projected = Projected(complete: bool, contexts: seq<Context>, summary: Summary,
                                 ledger: Ledger, unallocated: Money)

  datatype Request = Request(links: seq<Link>, contributions: seq<Contribution>, allocations: seq<Allocation>,
                             portfolios: set<string>, regroup: Option<int>)

  /** `query_authorized_projection`; None is the source's ValueError. */
  function Query(scope: Scope, facts: seq<Fact>, request: Request): Option<Projected> {
    var visible := VisibleFacts(scope, facts);
    var links := VisibleItems(scope, request.links, LinkRefs);
    var contributions := VisibleItems(scope, request.contributions, ContributionRefs);
    if visible.None? || links.None? || contributions.None? then None
    else
      var contextOf := ContextOf(links.value.items, contributions.value.items, request.regroup);
      var grouped := Group(visible.value.items, contextOf, request.portfolios);
      if grouped.None? then None
      else
        var summary := Aggregate(grouped.value.rows, {});
        if summary.None? then None
        else
          var charged := Charged(visible.value.items, grouped.value.contexts);
          var ledger := PostAll(scope, ChargesOf(charged), request.allocations);
          if ledger.None? then None
          else
            var complete := scope.projects <= scope.readable && !visible.value.hidden && !links.value.hidden
                         && !contributions.value.hidden && !grouped.value.hidden && !ledger.value.hidden;
            Some(Projected(complete, grouped.value.contexts, summary.value, ledger.value,
                           Unallocated(charged, ledger.value)))
  }
}
