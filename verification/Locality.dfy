/**
  A projection is local to each fact: leaving facts out leaves the other facts'
  contexts as they were, and cannot make a query that succeeded fail. This is what
  lets `ResultsReader.read` (modules/insights/results.py) query twice.
  */
module Locality {
  import opened Options
  import opened Sequences
  import opened Relationships
  import opened WorkCost
  import opened Projection
  import opened Conservation

  function KeepsFact(keep: set<Ref>): Fact -> bool {
    (f: Fact) => f.subject in keep
  }

  function KeepsContext(keep: set<Ref>, portfolios: set<string>): Context -> bool {
    (c: Context) => c.subject in keep && Passes(c, portfolios)
  }

  predicate RowPasses(row: Row, portfolios: set<string>) {
    portfolios == {} || portfolios * row.portfolios != {}
  }

  function KeepsRow(keep: set<Ref>, portfolios: set<string>): Row -> bool {
    (r: Row) => r.fact.subject in keep && RowPasses(r, portfolios)
  }

  // ---------- the fact loop ----------

  /** `part` is what the fact loop gives on the kept facts, when `whole` is what it gives
      on all of them. */
  ghost predicate PartOf(whole: Seen<Fact>, part: Option<Seen<Fact>>, keep: set<Ref>) {
    && part.Some? && part.value.items == Filter(whole.items, KeepsFact(keep))
    && (part.value.hidden ==> whole.hidden)
  }

  lemma SeeFactLocal(scope: Scope, whole: Seen<Fact>, part: Seen<Fact>, f: Fact, keep: set<Ref>)
    requires PartOf(whole, Some(part), keep) && SeeFact(scope, whole, f).Some?
    ensures PartOf(SeeFact(scope, whole, f).value, if f.subject in keep then SeeFact(scope, part, f) else Some(part), keep)
  {
    FilterMembers(whole.items, KeepsFact(keep));
    assert part.items + [] == part.items;
  }

  lemma {:induction false} VisibleLocal(scope: Scope, facts: seq<Fact>, keep: set<Ref>)
    requires VisibleFacts(scope, facts).Some?
    ensures PartOf(VisibleFacts(scope, facts).value, VisibleFacts(scope, Filter(facts, KeepsFact(keep))), keep)
  {
    if facts != [] {
      var front, f := facts[..|facts| - 1], facts[|facts| - 1];
      VisibleLocal(scope, front, keep);
      var kept := Filter(front, KeepsFact(keep));
      SeeFactLocal(scope, VisibleFacts(scope, front).value, VisibleFacts(scope, kept).value, f, keep);
      if f.subject in keep {
        assert (kept + [f])[..|kept|] == kept;
      } else {
        assert kept + [] == kept;
      }
    }
  }

  // ---------- the context loop ----------

  ghost predicate GroupPart(whole: Grouped, part: Option<Grouped>, keep: set<Ref>, portfolios: set<string>) {
    && part.Some? && part.value.contexts == Filter(whole.contexts, KeepsContext(keep, portfolios))
    && part.value.rows == Filter(whole.rows, KeepsRow(keep, portfolios))
    && (part.value.hidden ==> whole.hidden)
  }

  lemma IncludeLocal(whole: Grouped, part: Grouped, f: Fact, context: Context, keep: set<Ref>, portfolios: set<string>)
    requires GroupPart(whole, Some(part), keep, portfolios) && context.subject == f.subject
    ensures GroupPart(Include(whole, f, context, {}),
                      Some(if f.subject in keep then Include(part, f, context, portfolios) else part), keep, portfolios)
  {
    FilterSnoc(whole.contexts, context, KeepsContext(keep, portfolios));
    FilterSnoc(whole.rows, Row(f, context.portfolios), KeepsRow(keep, portfolios));
  }

  lemma {:induction false} GroupLocal(
    facts: seq<Fact>, contextOf: Fact -> Option<Context>, keep: set<Ref>, portfolios: set<string>)
    requires OwnContexts(contextOf) && Group(facts, contextOf, {}).Some?
    ensures GroupPart(Group(facts, contextOf, {}).value,
                      Group(Filter(facts, KeepsFact(keep)), contextOf, portfolios), keep, portfolios)
  {
    if facts != [] {
      var front, f := facts[..|facts| - 1], facts[|facts| - 1];
      GroupLocal(front, contextOf, keep, portfolios);
      var kept := Filter(front, KeepsFact(keep));
      var context := contextOf(f).value;
      IncludeLocal(Group(front, contextOf, {}).value,
                   Group(kept, contextOf, portfolios).value, f, context, keep, portfolios);
      if f.subject in keep {
        assert (kept + [f])[..|kept|] == kept;
      } else {
        assert kept + [] == kept;
      }
    }
  }

  // ---------- the summary ----------

  ghost predicate DrawnFrom<T>(part: seq<T>, whole: seq<T>) {
    forall x <- part :: x in whole
  }

  lemma {:induction false} RowsLegal(rows: seq<Row>)
    requires TallyRows(rows, {}).Some?
    ensures forall r <- rows :: RowLegal(r)
  {
    if rows != [] {
      RowsLegal(rows[..|rows| - 1]);
      assert rows == rows[..|rows| - 1] + [rows[|rows| - 1]];
    }
  }

  lemma {:induction false} TallyPart(rows: seq<Row>, part: seq<Row>)
    requires TallyRows(rows, {}).Some? && DrawnFrom(part, rows)
    ensures TallyRows(part, {}).Some?
  {
    if part != [] {
      var front, last := part[..|part| - 1], part[|part| - 1];
      assert part == front + [last];
      TallyPart(rows, front);
      RowsLegal(rows);
      TallyMeaning(rows, {});
      TallyMeaning(front, {});
      CountAgain(rows, front, TallyRows(rows, {}).value.values, TallyRows(front, {}).value, last);
    }
  }

  lemma CountAgain(rows: seq<Row>, front: seq<Row>, values: map<Ref, Value>, t: Tally, row: Row)
    requires ValuesMatch(rows, {}, values) && ValuesMatch(front, {}, t.values)
    requires DrawnFrom(front, rows) && row in rows && RowLegal(row)
    ensures Count(t, row, {}).Some?
  {
    assert Counted(row, {});
    if row.fact.subject in t.values {
      assert FromRows(front, {}, row.fact.subject);
      var other :| other in front && other.fact.subject == row.fact.subject;
      assert Counted(other, {});
    }
  }

  // ---------- the allocations ----------

  ghost predicate SubCharges(part: Charges, whole: Charges) {
    forall id <- part :: id in whole && whole[id] == part[id]
  }

  /** Two ledgers agree on everything that concerns the facts of `part`. */
  ghost predicate LedgersAgree(part: Charges, a: Ledger, b: Ledger) {
    && a.hidden == b.hidden
    && (forall id <- part :: Posted(a.byFact, id) == Posted(b.byFact, id))
    && (forall id, name | id in part :: (id, name) in a.taken <==> (id, name) in b.taken)
  }

  lemma {:induction false} PostAllLocal(scope: Scope, part: Charges, whole: Charges, allocations: seq<Allocation>)
    requires SubCharges(part, whole) && PostAll(scope, whole, allocations).Some?
    ensures PostAll(scope, part, allocations).Some?
    ensures LedgersAgree(part, PostAll(scope, part, allocations).value, PostAll(scope, whole, allocations).value)
  {
    if allocations != [] {
      var front := allocations[..|allocations| - 1];
      PostAllLocal(scope, part, whole, front);
    }
  }

  lemma ChargesLocal(visible: seq<Fact>, contexts: seq<Context>, fewer: seq<Fact>, chosen: seq<Context>)
    requires DistinctFacts(visible) && DistinctFacts(fewer)
    requires (forall f <- fewer :: f in visible) && (forall c <- chosen :: c in contexts)
    ensures SubCharges(ChargesOf(Charged(fewer, chosen)), ChargesOf(Charged(visible, contexts)))
  {
    var part, whole := Charged(fewer, chosen), Charged(visible, contexts);
    FilterKeepsDistinct(visible, ChargedBy(contexts));
    FilterKeepsDistinct(fewer, ChargedBy(chosen));
    FilterMembers(visible, ChargedBy(contexts));
    ChargesLookup(part);
    ChargesLookup(whole);
    forall id <- ChargesOf(part) ensures id in ChargesOf(whole) && ChargesOf(whole)[id] == ChargesOf(part)[id] {
      var f :| f in part && f.subject == id;
      assert ChargedBy(contexts)(f);
      assert f in whole;
    }
  }

  // ---------- the query ----------

  /** If the query over all facts succeeds, so does the query over any of them, with any
      Portfolio filter; its contexts are those of the full query that were asked for,
      unchanged and in order, and coverage that was complete stays complete. */
  lemma QueryLocal(scope: Scope, facts: seq<Fact>, request: Request, keep: set<Ref>, portfolios: set<string>)
    requires request.portfolios == {} && Query(scope, facts, request).Some?
    ensures var whole := Query(scope, facts, request).value;
            var part := Query(scope, Filter(facts, KeepsFact(keep)), request.(portfolios := portfolios));
            && part.Some?
            && part.value.contexts == Filter(whole.contexts, KeepsContext(keep, portfolios))
            && (whole.complete ==> part.value.complete)
  {
    var visible := VisibleFacts(scope, facts).value;
    var links := VisibleItems(scope, request.links, LinkRefs).value;
    var contributions := VisibleItems(scope, request.contributions, ContributionRefs).value;
    var kept := Filter(facts, KeepsFact(keep));
    VisibleLocal(scope, facts, keep);
    var contextOf := ContextOf(links.items, contributions.items, request.regroup);
    ContextsAreOwn(links.items, contributions.items, request.regroup);
    GroupLocal(visible.items, contextOf, keep, portfolios);
    var g := Group(visible.items, contextOf, {}).value;
    AggregateLocal(g.rows, KeepsRow(keep, portfolios));
    LedgerLocal(scope, facts, keep, g.contexts, portfolios, request.allocations);
  }

  lemma AggregateLocal(rows: seq<Row>, keep: Row -> bool)
    requires Aggregate(rows, {}).Some?
    ensures Aggregate(Filter(rows, keep), {}).Some?
  {
    FilterMembers(rows, keep);
    TallyPart(rows, Filter(rows, keep));
  }

  lemma LedgerLocal(scope: Scope, facts: seq<Fact>, keep: set<Ref>, contexts: seq<Context>, portfolios: set<string>,
                    allocations: seq<Allocation>)
    requires VisibleFacts(scope, facts).Some?
    requires PostAll(scope, ChargesOf(Charged(VisibleFacts(scope, facts).value.items, contexts)), allocations).Some?
    ensures var kept := VisibleFacts(scope, Filter(facts, KeepsFact(keep)));
            && kept.Some?
            && var charges := ChargesOf(Charged(kept.value.items, Filter(contexts, KeepsContext(keep, portfolios))));
            && PostAll(scope, charges, allocations).Some?
            && PostAll(scope, charges, allocations).value.hidden
               == PostAll(scope, ChargesOf(Charged(VisibleFacts(scope, facts).value.items, contexts)), allocations).value.hidden
  {
    var visible := VisibleFacts(scope, facts).value.items;
    VisibleLocal(scope, facts, keep);
    var kept := Filter(facts, KeepsFact(keep));
    var fewer := VisibleFacts(scope, kept).value.items;
    VisibleFactsDistinct(scope, facts);
    VisibleFactsDistinct(scope, kept);
    FilterMembers(visible, KeepsFact(keep));
    FilterMembers(contexts, KeepsContext(keep, portfolios));
    var chosen := Filter(contexts, KeepsContext(keep, portfolios));
    ChargesLocal(visible, contexts, fewer, chosen);
    PostAllLocal(scope, ChargesOf(Charged(fewer, chosen)), ChargesOf(Charged(visible, contexts)), allocations);
  }

  // ---------- the two passes of a reader ----------

  predicate HasProduct(c: Context, product: string) {
    exists r <- c.products :: r.kind == "product" && r.id == product
  }

  function OfProduct(product: string): Context -> bool {
    (c: Context) => HasProduct(c, product)
  }

  function Subjects(contexts: seq<Context>): set<Ref> {
    set c | c in contexts :: c.subject
  }

  datatype Read = Raised | FirstIncomplete | SecondRaised | SecondIncomplete | Contexts(contexts: seq<Context>)

  /** The projection inside `ResultsReader.read`: everything once, then only the facts
      of one product, under the Portfolio filter. */
  function ReadProduct(scope: Scope, facts: seq<Fact>, request: Request, product: string): Read {
    var full := Query(scope, facts, request.(portfolios := {}));
    if full.None? then Raised
    else if !full.value.complete then FirstIncomplete
    else
      var selected := Subjects(Filter(full.value.contexts, OfProduct(product)));
      var filtered := Query(scope, Filter(facts, KeepsFact(selected)), request);
      if filtered.None? then SecondRaised
      else if !filtered.value.complete then SecondIncomplete
      else Contexts(filtered.value.contexts)
  }

  /** Once the first pass was complete the second neither raises nor reports missing
      coverage, and a reader gets the first pass's contexts of its product and
      Portfolios, unchanged. */
  lemma SecondPassCannotFail(scope: Scope, facts: seq<Fact>, request: Request, product: string)
    ensures var r := ReadProduct(scope, facts, request, product);
            && !r.SecondRaised? && !r.SecondIncomplete?
            && (r.Contexts? ==>
                  var full := Query(scope, facts, request.(portfolios := {})).value;
                  var selected := Subjects(Filter(full.contexts, OfProduct(product)));
                  r.contexts == Filter(full.contexts, KeepsContext(selected, request.portfolios)))
  {
    var first := request.(portfolios := {});
    if Query(scope, facts, first).Some? {
      var selected := Subjects(Filter(Query(scope, facts, first).value.contexts, OfProduct(product)));
      QueryLocal(scope, facts, first, selected, request.portfolios);
      assert first.(portfolios := request.portfolios) == request;
    }
  }
}
