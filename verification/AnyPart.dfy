/**
  The query over any selection of the facts of a query that succeeded: some of the facts,
  in any order, any of them any number of times.
  */
module AnyPart {
  import opened Options
  import Sequences
  import Keyed
  import opened Relationships
  import opened WorkCost
  import opened Projection
  import opened Conservation
  import opened Locality

  // ---------- facts ----------

  predicate Shown(scope: Scope, f: Fact) {
    Permitted(scope, f.subject) == Some(true) && !Misplaced(scope, f)
  }

  lemma SeeFactMeans(scope: Scope, seen: Seen<Fact>, f: Fact)
    requires SeeFact(scope, seen, f).Some?
    ensures var after := SeeFact(scope, seen, f).value;
      && Permitted(scope, f.subject).Some?
      && (forall x :: x in after.items <==> x in seen.items || (x == f && Shown(scope, f)))
      && (after.hidden <==> seen.hidden || !Shown(scope, f))
  {
  }

  /** What the fact loop keeps is what may be shown. */
  lemma {:induction false} VisibleMeaning(scope: Scope, facts: seq<Fact>)
    requires VisibleFacts(scope, facts).Some?
    ensures forall f <- facts :: Permitted(scope, f.subject).Some?
    ensures forall f :: f in VisibleFacts(scope, facts).value.items <==> f in facts && Shown(scope, f)
    ensures VisibleFacts(scope, facts).value.hidden <==> exists f <- facts :: !Shown(scope, f)
  {
    if facts != [] {
      var front, last := facts[..|facts| - 1], facts[|facts| - 1];
      VisibleMeaning(scope, front);
      SeeFactMeans(scope, VisibleFacts(scope, front).value, last);
      assert facts == front + [last];
    }
  }

  lemma SameFact(facts: seq<Fact>, f: Fact, g: Fact)
    requires DistinctFacts(facts) && f in facts && g in facts && f.subject == g.subject
    ensures f == g
  {
  }

  lemma {:induction false} VisiblePart(scope: Scope, facts: seq<Fact>, part: seq<Fact>)
    requires VisibleFacts(scope, facts).Some? && DrawnFrom(part, facts)
    ensures VisibleFacts(scope, part).Some?
  {
    VisibleMeaning(scope, facts);
    VisibleFactsDistinct(scope, facts);
    if part != [] {
      var front, last := part[..|part| - 1], part[|part| - 1];
      assert part == front + [last];
      VisiblePart(scope, facts, front);
      VisibleMeaning(scope, front);
      forall g | g in VisibleFacts(scope, front).value.items && g.subject == last.subject && Shown(scope, last)
        ensures g == last
      {
        SameFact(VisibleFacts(scope, facts).value.items, g, last);
      }
    }
  }

  // ---------- contexts and rows ----------

  /** What the context loop collects, without its order. */
  ghost predicate Collects(facts: seq<Fact>, contextOf: Fact -> Option<Context>, portfolios: set<string>, g: Grouped) {
    && (forall f <- facts :: contextOf(f).Some?)
    && (forall c :: c in g.contexts <==> exists f <- facts :: contextOf(f) == Some(c) && Passes(c, portfolios))
    && (forall r :: r in g.rows <==> r.fact in facts && RowOf(contextOf, portfolios, r))
    && (g.hidden <==> exists f <- facts :: contextOf(f).Some? && contextOf(f).value.products == [])
  }

  ghost predicate RowOf(contextOf: Fact -> Option<Context>, portfolios: set<string>, r: Row) {
    var c := contextOf(r.fact);
    c.Some? && Passes(c.value, portfolios) && r.portfolios == c.value.portfolios
  }

  lemma IncludeCollects(
    front: seq<Fact>, contextOf: Fact -> Option<Context>, portfolios: set<string>, g: Grouped, f: Fact)
    requires Collects(front, contextOf, portfolios, g) && contextOf(f).Some?
    ensures Collects(front + [f], contextOf, portfolios, Include(g, f, contextOf(f).value, portfolios))
  {
    var after := Include(g, f, contextOf(f).value, portfolios);
    assert forall x :: x in front + [f] <==> x in front || x == f;
    forall r ensures r in after.rows <==> r.fact in front + [f] && RowOf(contextOf, portfolios, r) {
    }
    forall c ensures c in after.contexts <==>
      exists x <- front + [f] :: contextOf(x) == Some(c) && Passes(c, portfolios)
    {
      assert c in after.contexts <==> c in g.contexts || (c == contextOf(f).value && Passes(c, portfolios));
    }
  }

  lemma {:induction false} GroupCollects(facts: seq<Fact>, contextOf: Fact -> Option<Context>, portfolios: set<string>)
    requires Group(facts, contextOf, portfolios).Some?
    ensures Collects(facts, contextOf, portfolios, Group(facts, contextOf, portfolios).value)
  {
    if facts != [] {
      var front, last := facts[..|facts| - 1], facts[|facts| - 1];
      GroupCollects(front, contextOf, portfolios);
      IncludeCollects(front, contextOf, portfolios, Group(front, contextOf, portfolios).value, last);
      assert facts == front + [last];
    }
  }

  lemma {:induction false} GroupPasses(facts: seq<Fact>, contextOf: Fact -> Option<Context>, portfolios: set<string>)
    requires forall f <- facts :: contextOf(f).Some?
    ensures Group(facts, contextOf, portfolios).Some?
  {
    if facts != [] {
      var front, last := facts[..|facts| - 1], facts[|facts| - 1];
      assert last in facts && forall f <- front :: f in facts;
      GroupPasses(front, contextOf, portfolios);
    }
  }

  // ---------- the query ----------

  function SubjectOf(c: Context): Ref {
    c.subject
  }

  lemma ContextsDistinct(facts: seq<Fact>, g: Grouped)
    requires GroupsFrom(facts, g)
    ensures Keyed.Distinct(g.contexts, SubjectOf)
  {
    forall i, j | 0 <= i < j < |g.contexts| ensures SubjectOf(g.contexts[i]) != SubjectOf(g.contexts[j]) {
      assert g.rows[i].fact.subject != g.rows[j].fact.subject;
    }
  }

  function FactSubjects(facts: seq<Fact>): set<Ref> {
    set f | f in facts :: f.subject
  }

  lemma SameContexts(facts: seq<Fact>, part: seq<Fact>, contextOf: Fact -> Option<Context>, portfolios: set<string>,
                     whole: Grouped, g: Grouped)
    requires OwnContexts(contextOf) && DistinctFacts(facts) && DistinctFacts(part) && DrawnFrom(part, facts)
    requires Collects(facts, contextOf, {}, whole) && Collects(part, contextOf, portfolios, g)
    ensures forall c :: c in g.contexts <==> c in whole.contexts && KeepsContext(FactSubjects(part), portfolios)(c)
  {
    forall c ensures c in g.contexts <==> c in whole.contexts && KeepsContext(FactSubjects(part), portfolios)(c) {
      if c in g.contexts {
        var f :| f in part && contextOf(f) == Some(c) && Passes(c, portfolios);
        assert f in facts && Passes(c, {});
      }
      if c in whole.contexts && KeepsContext(FactSubjects(part), portfolios)(c) {
        var f :| f in facts && contextOf(f) == Some(c);
        var x :| x in part && x.subject == c.subject;
        SameFact(facts, f, x);
      }
    }
  }

  lemma SameContextsCounted(whole: seq<Context>, part: seq<Context>, keep: Context -> bool)
    requires Keyed.Distinct(whole, SubjectOf) && Keyed.Distinct(part, SubjectOf)
    requires forall c :: c in part <==> c in whole && keep(c)
    ensures multiset(part) == multiset(Sequences.Filter(whole, keep))
  {
    var kept := Sequences.Filter(whole, keep);
    Keyed.FilterDistinct(whole, keep, SubjectOf);
    Sequences.FilterMembers(whole, keep);
    forall c ensures multiset(part)[c] == (if c in part then 1 else 0) && multiset(kept)[c] == if c in kept then 1 else 0 {
      Keyed.DistinctCounts(part, SubjectOf, c);
      Keyed.DistinctCounts(kept, SubjectOf, c);
    }
    Keyed.SameOnce(part, kept);
  }

  lemma RowsDrawn(facts: seq<Fact>, part: seq<Fact>, contextOf: Fact -> Option<Context>, portfolios: set<string>,
                  whole: Grouped, g: Grouped)
    requires DrawnFrom(part, facts) && Collects(facts, contextOf, {}, whole) && Collects(part, contextOf, portfolios, g)
    ensures DrawnFrom(g.rows, whole.rows) && (g.hidden ==> whole.hidden)
  {
    forall r | r in g.rows ensures r in whole.rows {
      assert RowOf(contextOf, portfolios, r);
      assert RowOf(contextOf, {}, r);
    }
  }

  /** The stages of both queries side by side, up to the context loop. */
  lemma GroupAnyPart(facts: seq<Fact>, part: seq<Fact>, contextOf: Fact -> Option<Context>, portfolios: set<string>)
    requires OwnContexts(contextOf) && DistinctFacts(facts) && DistinctFacts(part) && DrawnFrom(part, facts)
    requires Group(facts, contextOf, {}).Some?
    ensures Group(part, contextOf, portfolios).Some?
    ensures var whole, g := Group(facts, contextOf, {}).value, Group(part, contextOf, portfolios).value;
      && multiset(g.contexts) == multiset(Sequences.Filter(whole.contexts, KeepsContext(FactSubjects(part), portfolios)))
      && DrawnFrom(g.contexts, whole.contexts) && DrawnFrom(g.rows, whole.rows) && (g.hidden ==> whole.hidden)
  {
    GroupCollects(facts, contextOf, {});
    GroupPasses(part, contextOf, portfolios);
    GroupCollects(part, contextOf, portfolios);
    var whole, g := Group(facts, contextOf, {}).value, Group(part, contextOf, portfolios).value;
    SameContexts(facts, part, contextOf, portfolios, whole, g);
    GroupMeaning(facts, contextOf, {});
    GroupMeaning(part, contextOf, portfolios);
    ContextsDistinct(facts, whole);
    ContextsDistinct(part, g);
    SameContextsCounted(whole.contexts, g.contexts, KeepsContext(FactSubjects(part), portfolios));
    RowsDrawn(facts, part, contextOf, portfolios, whole, g);
  }

  lemma PostsAnyPart(scope: Scope, facts: seq<Fact>, contexts: seq<Context>, part: seq<Fact>, chosen: seq<Context>,
                     allocations: seq<Allocation>)
    requires DistinctFacts(facts) && DistinctFacts(part) && DrawnFrom(part, facts) && DrawnFrom(chosen, contexts)
    requires PostAll(scope, ChargesOf(Charged(facts, contexts)), allocations).Some?
    ensures PostAll(scope, ChargesOf(Charged(part, chosen)), allocations).Some?
    ensures PostAll(scope, ChargesOf(Charged(part, chosen)), allocations).value.hidden
         == PostAll(scope, ChargesOf(Charged(facts, contexts)), allocations).value.hidden
  {
    ChargesLocal(facts, contexts, part, chosen);
    PostAllLocal(scope, ChargesOf(Charged(part, chosen)), ChargesOf(Charged(facts, contexts)), allocations);
  }

  /** The facts of a selection that may be shown are facts of the whole that may be. */
  lemma VisibleDrawn(scope: Scope, facts: seq<Fact>, part: seq<Fact>)
    requires VisibleFacts(scope, facts).Some? && DrawnFrom(part, facts)
    ensures VisibleFacts(scope, part).Some?
    ensures DrawnFrom(VisibleFacts(scope, part).value.items, VisibleFacts(scope, facts).value.items)
    ensures VisibleFacts(scope, part).value.hidden ==> VisibleFacts(scope, facts).value.hidden
    ensures DistinctFacts(VisibleFacts(scope, facts).value.items) && DistinctFacts(VisibleFacts(scope, part).value.items)
    ensures !VisibleFacts(scope, facts).value.hidden ==> DrawnFrom(part, VisibleFacts(scope, part).value.items)
    ensures DrawnFrom(VisibleFacts(scope, part).value.items, part)
  {
    VisiblePart(scope, facts, part);
    VisibleMeaning(scope, facts);
    VisibleMeaning(scope, part);
    VisibleFactsDistinct(scope, facts);
    VisibleFactsDistinct(scope, part);
  }

  /**
    If the query over all facts succeeds, so does the query over any selection of them, with
    any Portfolio filter; up to order its contexts are those of the full query that belong
    to its visible facts and pass the filter. Complete coverage stays complete, and then
    all facts are visible.
    */
  lemma QueryAnyPart(scope: Scope, facts: seq<Fact>, request: Request, part: seq<Fact>, portfolios: set<string>)
    requires request.portfolios == {} && Query(scope, facts, request).Some? && DrawnFrom(part, facts)
    ensures var whole := Query(scope, facts, request).value;
      var r := Query(scope, part, request.(portfolios := portfolios));
      && r.Some? && VisibleFacts(scope, part).Some?
      && var keep := FactSubjects(VisibleFacts(scope, part).value.items);
      && multiset(r.value.contexts) == multiset(Sequences.Filter(whole.contexts, KeepsContext(keep, portfolios)))
      && (whole.complete ==> r.value.complete && keep == FactSubjects(part))
  {
    VisibleDrawn(scope, facts, part);
    var visible, fewer := VisibleFacts(scope, facts).value.items, VisibleFacts(scope, part).value.items;
    var links := VisibleItems(scope, request.links, LinkRefs).value.items;
    var contributions := VisibleItems(scope, request.contributions, ContributionRefs).value.items;
    var contextOf := ContextOf(links, contributions, request.regroup);
    ContextsAreOwn(links, contributions, request.regroup);
    GroupAnyPart(visible, fewer, contextOf, portfolios);
    var whole, g := Group(visible, contextOf, {}).value, Group(fewer, contextOf, portfolios).value;
    TallyPart(whole.rows, g.rows);
    PostsAnyPart(scope, visible, whole.contexts, fewer, g.contexts, request.allocations);
  }

  /** What a reader of one product gets: the contexts of the first pass that have the product
      and belong to a Portfolio asked for. */
  lemma ReaderContexts(scope: Scope, facts: seq<Fact>, request: Request, product: string, c: Context)
    requires ReadProduct(scope, facts, request, product).Contexts?
    ensures Query(scope, facts, request.(portfolios := {})).Some?
    ensures c in ReadProduct(scope, facts, request, product).contexts <==>
      && c in Query(scope, facts, request.(portfolios := {})).value.contexts
      && (exists p <- c.products :: p.kind == "product" && p.id == product)
      && (request.portfolios == {} || exists id <- request.portfolios :: id in c.portfolios)
  {
    var first := request.(portfolios := {});
    var contexts := Query(scope, facts, first).value.contexts;
    var chosen := Sequences.Filter(contexts, OfProduct(product));
    SecondPassCannotFail(scope, facts, request, product);
    Sequences.FilterMembers(contexts, OfProduct(product));
    Sequences.FilterMembers(contexts, KeepsContext(Subjects(chosen), request.portfolios));
    var g := QueryGroups(scope, facts, first, "");
    ContextsDistinct(VisibleFacts(scope, facts).value.items, g);
    if c in contexts && c.subject in Subjects(chosen) {
      var d :| d in chosen && d.subject == c.subject;
      SameContext(contexts, c, d);
    }
    PassesPlainly(c, request.portfolios);
  }

  lemma SameContext(contexts: seq<Context>, c: Context, d: Context)
    requires Keyed.Distinct(contexts, SubjectOf) && c in contexts && d in contexts && c.subject == d.subject
    ensures c == d
  {
    var i :| 0 <= i < |contexts| && contexts[i] == c;
    var j :| 0 <= j < |contexts| && contexts[j] == d;
    assert SubjectOf(contexts[i]) == SubjectOf(contexts[j]);
  }

  lemma PassesPlainly(c: Context, portfolios: set<string>)
    ensures Passes(c, portfolios) <==> portfolios == {} || exists id <- portfolios :: id in c.portfolios
  {
    if portfolios * c.portfolios != {} { var id :| id in portfolios * c.portfolios; }
    if exists id <- portfolios :: id in c.portfolios {
      var id :| id in portfolios && id in c.portfolios;
      assert id in portfolios * c.portfolios;
    }
  }
}
