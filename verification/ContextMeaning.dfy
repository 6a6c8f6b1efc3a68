/**
  What the context of a fact contains, without the passes that compute it: which products
  it belongs to, which Portfolios hold them, which initiatives and contributions they come
  from, and which facts have a context in an answer at all.
  */
module ContextMeaning {
  import opened Options
  import opened Sequences
  import opened Versions
  import opened Relationships
  import opened WorkCost
  import opened Projection
  import opened Conservation
  import opened AnyPart

  // ---------- what a fact sees ----------

  /** A fact with the links and contributions that may be shown, the time its context is
      for, and the time by which it was known. */
  datatype View = View(subject: Ref, links: seq<Link>, contributions: seq<Contribution>, effective: int, known: int)

  function ViewOf(f: Fact, links: seq<Link>, contributions: seq<Contribution>, regroup: Option<int>): View {
    View(f.subject, links, contributions, if regroup.Some? then regroup.value else f.effectiveAt,
         if regroup.Some? then regroup.value else f.recordedAt)
  }

  /** The same record in any revision. */
  predicate SameRecord(a: Ref, b: Ref) {
    a.tenant == b.tenant && a.project == b.project && a.connection == b.connection && a.kind == b.kind && a.id == b.id
  }

  predicate SameRelationship(a: Link, b: Link) {
    && a.from.tenant == b.from.tenant && a.from.project == b.from.project && a.to.project == b.to.project
    && a.connection == b.connection && a.kind == b.kind && a.id == b.id
  }

  /** The contribution recorded last, alone, among the known ones of its record. */
  ghost predicate Latest(v: View, k: Contribution) {
    && k in v.contributions && k.recordedAt <= v.known
    && forall x <- v.contributions | SameRecord(x.subject, k.subject) && x.recordedAt <= v.known ::
         x.recordedAt < k.recordedAt || x == k
  }

  predicate Works(v: View, w: WorkLink) {
    w.work == v.subject && w.validFrom <= v.effective && (w.validTo.None? || v.effective < w.validTo.value)
  }

  predicate EndsFirst(end: Option<int>, a: Option<int>, b: Option<int>) {
    && (end.None? <==> a.None? && b.None?)
    && (end.Some? ==> end == a || end == b)
    && (end.Some? && a.Some? ==> end.value <= a.value)
    && (end.Some? && b.Some? ==> end.value <= b.value)
  }

  /** The link that a work item of a contribution gives the fact. */
  predicate GivenBy(v: View, k: Contribution, w: WorkLink, l: Link) {
    && l.from == w.work && l.to == k.product && l.kind == "work_product"
    && l.id == k.subject.id + ":" + w.work.id && l.revision == k.subject.revision
    && l.connection == k.subject.connection && l.mapping == k.mapping
    && l.validFrom == w.validFrom && EndsFirst(l.validTo, w.validTo, k.validTo)
    && l.recordedAt == k.recordedAt && l.sources == []
  }

  ghost predicate Given(v: View, l: Link) {
    exists k <- v.contributions, w <- k.workLinks :: Latest(v, k) && Works(v, w) && GivenBy(v, k, w, l)
  }

  ghost predicate Offered(v: View, l: Link) {
    l in v.links || Given(v, l)
  }

  /** The link recorded last, alone, among the known ones offered for its relationship,
      and in force. */
  ghost predicate Chosen(v: View, l: Link) {
    && Offered(v, l) && l.recordedAt <= v.known
    && (forall x | Offered(v, x) && SameRelationship(x, l) && x.recordedAt <= v.known ::
          x.recordedAt < l.recordedAt || x == l)
    && l.validFrom <= v.effective && (l.validTo.None? || v.effective < l.validTo.value)
  }

  // ---------- what a context says ----------

  ghost predicate ProductLink(v: View, l: Link) {
    Chosen(v, l) && l.kind == "work_product" && l.from == v.subject && l.to.kind == "product"
  }

  ghost predicate HasProduct(v: View, r: Ref) {
    exists l :: ProductLink(v, l) && l.to == r
  }

  ghost predicate SharesProduct(v: View, r: Ref) {
    exists p :: HasProduct(v, p) && SameRecord(p, r)
  }

  ghost predicate Membership(v: View, l: Link) {
    && Chosen(v, l) && l.kind == "portfolio_product" && l.from.kind == "portfolio" && l.to.kind == "product"
    && SharesProduct(v, l.to)
  }

  ghost predicate InPortfolio(v: View, id: string) {
    exists l :: Membership(v, l) && l.from.id == id
  }

  ghost predicate Contributed(v: View, k: Contribution) {
    && Latest(v, k) && k.validFrom <= v.effective && (k.validTo.None? || v.effective < k.validTo.value)
    && (exists w <- k.workLinks :: Works(v, w))
    && SharesProduct(v, k.product)
  }

  ghost predicate Describes(v: View, c: Context) {
    && c.subject == v.subject && c.effectiveAt == v.effective
    && (forall r :: r in c.products <==> HasProduct(v, r))
    && (forall id :: id in c.portfolios <==> InPortfolio(v, id))
    && (forall l :: l in c.links <==> ProductLink(v, l) || Membership(v, l))
    && (forall r :: r in c.initiatives <==> exists k :: Contributed(v, k) && k.initiative == r)
    && (forall r :: r in c.contributions <==> exists k :: Contributed(v, k) && k.subject == r)
  }

  // ---------- contributions ----------

  lemma SameKey(a: Ref, b: Ref)
    ensures Unversioned(a) == Unversioned(b) <==> SameRecord(a, b)
  {
  }

  lemma LatestExactly(v: View, k: Contribution)
    ensures StrictlyLatest(v.contributions, k, ContributionKey, ContributionTime, v.known) <==> Latest(v, k)
  {
    forall x | x in v.contributions
      ensures Rival(x, ContributionKey(k), ContributionKey, ContributionTime, v.known)
         <==> SameRecord(x.subject, k.subject) && x.recordedAt <= v.known
    {
      SameKey(x.subject, k.subject);
    }
  }

  // ---------- the links that contributions give ----------

  function MadeLink(k: Contribution, w: WorkLink): Link {
    Link(w.work, k.product, k.subject.id + ":" + w.work.id, k.subject.revision, "work_product",
         k.subject.connection, k.mapping, w.validFrom, Earlier(w.validTo, k.validTo), k.recordedAt, [])
  }

  lemma MadeIsGiven(v: View, k: Contribution, w: WorkLink, l: Link)
    ensures GivenBy(v, k, w, l) <==> l == MadeLink(k, w)
  {
  }

  lemma {:induction false} LinksFromMembers(v: View, k: Contribution, work: seq<WorkLink>, l: Link)
    ensures l in LinksFrom(k, work, v.subject, v.effective)
       <==> exists w <- work :: Works(v, w) && l == MadeLink(k, w)
  {
    if work != [] {
      var front, last := work[..|work| - 1], work[|work| - 1];
      LinksFromMembers(v, k, front, l);
      var before := LinksFrom(k, front, v.subject, v.effective);
      assert LinksFrom(k, work, v.subject, v.effective) == if Works(v, last) then before + [MadeLink(k, last)] else before;
      assert forall w :: w in work <==> w in front || w == last;
    }
  }

  lemma {:induction false} LinksFromAllMembers(v: View, ks: seq<Contribution>, l: Link)
    ensures l in LinksFromAll(ks, v.subject, v.effective)
       <==> exists k <- ks, w <- k.workLinks :: Works(v, w) && l == MadeLink(k, w)
  {
    if ks != [] {
      var front, last := ks[..|ks| - 1], ks[|ks| - 1];
      LinksFromAllMembers(v, front, l);
      LinksFromMembers(v, last, last.workLinks, l);
      assert ks == front + [last];
    }
  }

  /** All links that the context of a fact is chosen from. */
  lemma OfferedExactly(v: View, current: seq<Contribution>, l: Link)
    requires forall k :: k in current <==> Latest(v, k)
    ensures l in v.links + LinksFromAll(current, v.subject, v.effective) <==> Offered(v, l)
  {
    LinksFromAllMembers(v, current, l);
    if exists k <- current, w <- k.workLinks :: Works(v, w) && l == MadeLink(k, w) {
      var k, w :| k in current && w in k.workLinks && Works(v, w) && l == MadeLink(k, w);
      MadeIsGiven(v, k, w, l);
      assert Latest(v, k);
      assert Given(v, l);
    }
    if Given(v, l) {
      var k, w :| k in v.contributions && w in k.workLinks && Latest(v, k) && Works(v, w) && GivenBy(v, k, w, l);
      MadeIsGiven(v, k, w, l);
    }
  }

  // ---------- the selection ----------

  lemma ChosenExactly(v: View, all: seq<Link>, l: Link)
    requires forall x :: x in all <==> Offered(v, x)
    ensures StrictlyLatest(all, l, KeyOf, RecordedAt, v.known) && InForce(l.validFrom, l.validTo, v.effective)
       <==> Chosen(v, l)
  {
    forall x | x in all
      ensures Rival(x, KeyOf(l), KeyOf, RecordedAt, v.known) <==> SameRelationship(x, l) && x.recordedAt <= v.known
    {
    }
  }

  lemma SelectionIsChosen(v: View, all: seq<Link>)
    requires forall x :: x in all <==> Offered(v, x)
    requires SelectDated(all, v.effective, v.known).Some?
    ensures forall l :: l in SelectDated(all, v.effective, v.known).value <==> Chosen(v, l)
  {
    forall l ensures l in SelectDated(all, v.effective, v.known).value <==> Chosen(v, l) {
      SelectDatedMeaning(all, v.effective, v.known, l);
      ChosenExactly(v, all, l);
    }
  }

  ghost predicate Selects(v: View, selected: seq<Link>) {
    forall l :: l in selected <==> Chosen(v, l)
  }

  lemma ApplyMembers<T, U>(s: seq<T>, f: T -> U, y: U)
    ensures y in Sequences.Apply(s, f) <==> exists x <- s :: f(x) == y
  {
    if y in Sequences.Apply(s, f) {
      var i :| 0 <= i < |s| && Sequences.Apply(s, f)[i] == y;
      assert f(s[i]) == y;
    }
    if exists x <- s :: f(x) == y {
      var x :| x in s && f(x) == y;
      var i :| 0 <= i < |s| && s[i] == x;
      assert Sequences.Apply(s, f)[i] == y;
    }
  }

  lemma ProductLinksExactly(v: View, selected: seq<Link>, l: Link)
    requires Selects(v, selected)
    ensures l in Filter(selected, LeadsToProduct(v.subject)) <==> ProductLink(v, l)
  {
    FilterMembers(selected, LeadsToProduct(v.subject));
  }

  lemma ProductsExactly(v: View, selected: seq<Link>, r: Ref)
    requires Selects(v, selected)
    ensures r in Sequences.Apply(Filter(selected, LeadsToProduct(v.subject)), Target) <==> HasProduct(v, r)
  {
    var productLinks := Filter(selected, LeadsToProduct(v.subject));
    forall l ensures l in productLinks <==> ProductLink(v, l) {
      ProductLinksExactly(v, selected, l);
    }
    ApplyMembers(productLinks, Target, r);
    if HasProduct(v, r) {
      var l :| ProductLink(v, l) && l.to == r;
      assert l in productLinks && Target(l) == r;
    }
  }

  lemma NamesExactly(v: View, products: seq<Ref>, r: Ref)
    requires forall p :: p in products <==> HasProduct(v, p)
    ensures NamesProduct(products, r) <==> SharesProduct(v, r)
  {
    if NamesProduct(products, r) {
      var p :| p in products && Unversioned(p) == Unversioned(r);
      SameKey(p, r);
      assert HasProduct(v, p);
    }
    if SharesProduct(v, r) {
      var p :| HasProduct(v, p) && SameRecord(p, r);
      SameKey(p, r);
      assert p in products;
    }
  }

  lemma MembershipsExactly(v: View, selected: seq<Link>, products: seq<Ref>, l: Link)
    requires Selects(v, selected) && forall p :: p in products <==> HasProduct(v, p)
    ensures l in Filter(selected, HoldsProduct(products)) <==> Membership(v, l)
  {
    FilterMembers(selected, HoldsProduct(products));
    NamesExactly(v, products, l.to);
  }

  lemma ContributedExactly(v: View, current: seq<Contribution>, products: seq<Ref>, k: Contribution)
    requires (forall x :: x in current <==> Latest(v, x)) && forall p :: p in products <==> HasProduct(v, p)
    ensures k in Filter(current, ContributesTo(v.subject, v.effective, products)) <==> Contributed(v, k)
  {
    FilterMembers(current, ContributesTo(v.subject, v.effective, products));
    NamesExactly(v, products, k.product);
    assert (exists w <- k.workLinks :: w.work == v.subject && InForce(w.validFrom, w.validTo, v.effective))
      <==> exists w <- k.workLinks :: Works(v, w);
  }

  // ---------- one context ----------

  ghost predicate Resolves(v: View, c: Context) {
    && c.subject == v.subject && c.effectiveAt == v.effective
    && (forall r :: r in c.products <==> HasProduct(v, r))
    && (forall id :: id in c.portfolios <==> InPortfolio(v, id))
    && (forall l :: l in c.links <==> ProductLink(v, l) || Membership(v, l))
  }

  lemma PortfoliosExactly(v: View, memberships: seq<Link>, id: string)
    requires forall l :: l in memberships <==> Membership(v, l)
    ensures id in (set l | l in memberships :: l.from.id) <==> InPortfolio(v, id)
  {
    if InPortfolio(v, id) {
      var l :| Membership(v, l) && l.from.id == id;
      assert l in memberships;
    }
  }

  lemma ResolveExactly(f: Fact, v: View, all: seq<Link>, regroup: Option<int>)
    requires v.subject == f.subject && Resolve(f, all, regroup).Some?
    requires v.effective == (if regroup.Some? then regroup.value else f.effectiveAt)
    requires v.known == (if regroup.Some? then regroup.value else f.recordedAt)
    requires forall x :: x in all <==> Offered(v, x)
    ensures Resolves(v, Resolve(f, all, regroup).value)
    ensures Resolve(f, all, regroup).value.regrouped == regroup.Some?
  {
    var c := Resolve(f, all, regroup).value;
    SelectionIsChosen(v, all);
    var selected := SelectDated(all, v.effective, v.known).value;
    forall r ensures r in c.products <==> HasProduct(v, r) {
      ProductsExactly(v, selected, r);
    }
    var memberships := Filter(selected, HoldsProduct(c.products));
    forall l ensures l in memberships <==> Membership(v, l) {
      MembershipsExactly(v, selected, c.products, l);
    }
    forall id ensures id in c.portfolios <==> InPortfolio(v, id) {
      PortfoliosExactly(v, memberships, id);
    }
    forall l ensures l in c.links <==> ProductLink(v, l) || Membership(v, l) {
      ProductLinksExactly(v, selected, l);
    }
  }

  lemma WorkExactly(v: View, c: Context, matched: seq<Contribution>)
    requires forall k :: k in matched <==> Contributed(v, k)
    requires c.initiatives == Sequences.Apply(matched, Initiative) && c.contributions == Sequences.Apply(matched, Subject)
    ensures forall r :: r in c.initiatives <==> exists k :: Contributed(v, k) && k.initiative == r
    ensures forall r :: r in c.contributions <==> exists k :: Contributed(v, k) && k.subject == r
  {
    forall r
      ensures r in c.initiatives <==> exists k :: Contributed(v, k) && k.initiative == r
      ensures r in c.contributions <==> exists k :: Contributed(v, k) && k.subject == r
    {
      ApplyMembers(matched, Initiative, r);
      ApplyMembers(matched, Subject, r);
    }
  }

  /** What the context of a fact is. */
  lemma ContextDescribed(f: Fact, links: seq<Link>, contributions: seq<Contribution>, regroup: Option<int>)
    requires FactContext(f, links, contributions, regroup).Some?
    ensures Describes(ViewOf(f, links, contributions, regroup), FactContext(f, links, contributions, regroup).value)
    ensures FactContext(f, links, contributions, regroup).value.regrouped == regroup.Some?
  {
    var v := ViewOf(f, links, contributions, regroup);
    ScanChooses(contributions, ContributionKey, ContributionTime, v.known);
    var current := Selected(Scan(contributions, ContributionKey, ContributionTime, v.known).value);
    forall k ensures k in current <==> Latest(v, k) {
      SelectedExactly(contributions, k, ContributionKey, ContributionTime, v.known);
      LatestExactly(v, k);
    }
    var all := links + LinksFromAll(current, f.subject, v.effective);
    forall x ensures x in all <==> Offered(v, x) {
      OfferedExactly(v, current, x);
    }
    ResolveExactly(f, v, all, regroup);
    var context := Resolve(f, all, regroup).value;
    var matched := Filter(current, ContributesTo(f.subject, v.effective, context.products));
    forall k ensures k in matched <==> Contributed(v, k) {
      ContributedExactly(v, current, context.products, k);
    }
    WorkExactly(v, FactContext(f, links, contributions, regroup).value, matched);
  }

  // ---------- the answer ----------

  /** The reader may see the record. */
  predicate Reads(scope: Scope, r: Ref) {
    r.tenant == scope.tenant && r.project in scope.projects && r.project in scope.readable
  }

  lemma {:induction false} AllPermittedExactly(scope: Scope, refs: seq<Ref>)
    ensures AllPermitted(scope, refs) == Some(true) <==> forall r <- refs :: Exact(r) && Reads(scope, r)
  {
    if refs != [] {
      AllPermittedExactly(scope, refs[1..]);
      assert refs == [refs[0]] + refs[1..];
    }
  }

  lemma {:induction false} VisibleItemsExactly<T>(scope: Scope, items: seq<T>, refs: T -> seq<Ref>, x: T)
    requires VisibleItems(scope, items, refs).Some?
    ensures x in VisibleItems(scope, items, refs).value.items
       <==> x in items && forall r <- refs(x) :: Exact(r) && Reads(scope, r)
  {
    AllPermittedExactly(scope, refs(x));
    if items != [] {
      var front, last := items[..|items| - 1], items[|items| - 1];
      VisibleItemsExactly(scope, front, refs, x);
      assert items == front + [last];
    }
  }

  lemma {:induction false} HiddenItemsExactly<T>(scope: Scope, items: seq<T>, refs: T -> seq<Ref>)
    requires VisibleItems(scope, items, refs).Some?
    ensures VisibleItems(scope, items, refs).value.hidden
       <==> exists x <- items :: exists r <- refs(x) :: !(Exact(r) && Reads(scope, r))
  {
    if items != [] {
      var front, last := items[..|items| - 1], items[|items| - 1];
      HiddenItemsExactly(scope, front, refs);
      AllPermittedExactly(scope, refs(last));
      assert items == front + [last];
    }
  }

  /** A fact the reader may see, whose own tenant and Project, where given, are those of
      its reference. */
  predicate Sees(scope: Scope, f: Fact) {
    && Exact(f.subject) && Reads(scope, f.subject)
    && (f.tenant.Some? ==> f.tenant.value == scope.tenant)
    && (f.project.Some? ==> f.project.value == f.subject.project)
  }

  predicate SeesLink(scope: Scope, l: Link) {
    forall r <- [l.from, l.to] + l.sources :: Exact(r) && Reads(scope, r)
  }

  predicate SeesContribution(scope: Scope, k: Contribution) {
    && (forall r <- [k.subject, k.product, k.initiative] :: Exact(r) && Reads(scope, r))
    && forall w <- k.workLinks :: Exact(w.work) && Reads(scope, w.work)
  }

  lemma ContributionSeen(scope: Scope, k: Contribution)
    ensures SeesContribution(scope, k) <==> forall r <- ContributionRefs(k) :: Exact(r) && Reads(scope, r)
  {
    forall r
      ensures r in ContributionRefs(k)
         <==> r in [k.subject, k.product, k.initiative] || exists w <- k.workLinks :: w.work == r
    {
      ApplyMembers(k.workLinks, WorkOf, r);
    }
  }

  /** The inputs of a query that its reader may see. */
  ghost predicate SeenInputs(scope: Scope, facts: seq<Fact>, request: Request,
                             visible: seq<Fact>, links: seq<Link>, contributions: seq<Contribution>) {
    && (forall f :: f in visible <==> f in facts && Sees(scope, f))
    && (forall l :: l in links <==> l in request.links && SeesLink(scope, l))
    && (forall k :: k in contributions <==> k in request.contributions && SeesContribution(scope, k))
  }

  lemma InputsSeen(scope: Scope, facts: seq<Fact>, request: Request)
    requires Query(scope, facts, request).Some?
    ensures SeenInputs(scope, facts, request, VisibleFacts(scope, facts).value.items,
                       VisibleItems(scope, request.links, LinkRefs).value.items,
                       VisibleItems(scope, request.contributions, ContributionRefs).value.items)
  {
    VisibleMeaning(scope, facts);
    forall l ensures l in VisibleItems(scope, request.links, LinkRefs).value.items
                <==> l in request.links && SeesLink(scope, l) {
      VisibleItemsExactly(scope, request.links, LinkRefs, l);
    }
    forall k ensures k in VisibleItems(scope, request.contributions, ContributionRefs).value.items
                <==> k in request.contributions && SeesContribution(scope, k) {
      VisibleItemsExactly(scope, request.contributions, ContributionRefs, k);
      ContributionSeen(scope, k);
    }
  }

  /** The fact belongs to one of the Portfolios asked for, if any are. */
  ghost predicate Asked(v: View, portfolios: set<string>) {
    portfolios == {} || exists id <- portfolios :: InPortfolio(v, id)
  }

  lemma PassesExactly(v: View, c: Context, portfolios: set<string>)
    requires Describes(v, c)
    ensures Passes(c, portfolios) <==> Asked(v, portfolios)
  {
    if Passes(c, portfolios) && portfolios != {} {
      var id :| id in portfolios * c.portfolios;
      assert InPortfolio(v, id);
    }
    if Asked(v, portfolios) && portfolios != {} {
      var id :| id in portfolios && InPortfolio(v, id);
      assert id in portfolios * c.portfolios;
    }
  }

  ghost predicate DescribesFor(v: View, c: Context, request: Request) {
    Describes(v, c) && c.regrouped == request.regroup.Some?
  }

  /** Exactly the visible facts that are asked for have a context, and each context is the
      one described. */
  ghost predicate Answers(visible: seq<Fact>, links: seq<Link>, contributions: seq<Contribution>, request: Request,
                          contexts: seq<Context>) {
    && (forall c <- contexts :: exists f <- visible ::
          DescribesFor(ViewOf(f, links, contributions, request.regroup), c, request))
    && (forall f <- visible ::
          Asked(ViewOf(f, links, contributions, request.regroup), request.portfolios)
          <==> exists c <- contexts :: c.subject == f.subject)
  }

  lemma FactAnswers(f: Fact, links: seq<Link>, contributions: seq<Contribution>, request: Request)
    requires FactContext(f, links, contributions, request.regroup).Some?
    ensures var c, v := FactContext(f, links, contributions, request.regroup).value,
                        ViewOf(f, links, contributions, request.regroup);
      && c.subject == f.subject && DescribesFor(v, c, request)
      && (Passes(c, request.portfolios) <==> Asked(v, request.portfolios))
  {
    ContextDescribed(f, links, contributions, request.regroup);
    PassesExactly(ViewOf(f, links, contributions, request.regroup),
                  FactContext(f, links, contributions, request.regroup).value, request.portfolios);
  }

  // Every context of the group is that of one fact, and every fact asked for has one.
  lemma GroupContexts(visible: seq<Fact>, contextOf: Fact -> Option<Context>, portfolios: set<string>, g: Grouped, f: Fact)
    requires DistinctFacts(visible) && Collects(visible, contextOf, portfolios, g) && f in visible
    requires forall x <- visible :: contextOf(x).Some? && contextOf(x).value.subject == x.subject
    ensures Passes(contextOf(f).value, portfolios) <==> exists c <- g.contexts :: c.subject == f.subject
  {
    if Passes(contextOf(f).value, portfolios) { assert contextOf(f).value in g.contexts; }
    if exists c <- g.contexts :: c.subject == f.subject {
      var c :| c in g.contexts && c.subject == f.subject;
      var x :| x in visible && contextOf(x) == Some(c) && Passes(c, portfolios);
      SameFact(visible, x, f);
    }
  }

  lemma GroupAnswers(visible: seq<Fact>, links: seq<Link>, contributions: seq<Contribution>, request: Request, g: Grouped)
    requires DistinctFacts(visible)
    requires Collects(visible, ContextOf(links, contributions, request.regroup), request.portfolios, g)
    ensures Answers(visible, links, contributions, request, g.contexts)
  {
    var contextOf := ContextOf(links, contributions, request.regroup);
    forall x | x in visible ensures contextOf(x).Some? && contextOf(x).value.subject == x.subject {
      FactAnswers(x, links, contributions, request);
    }
    forall f | f in visible
      ensures Asked(ViewOf(f, links, contributions, request.regroup), request.portfolios)
         <==> exists c <- g.contexts :: c.subject == f.subject
    {
      FactAnswers(f, links, contributions, request);
      GroupContexts(visible, contextOf, request.portfolios, g, f);
    }
    forall c | c in g.contexts
      ensures exists f <- visible :: DescribesFor(ViewOf(f, links, contributions, request.regroup), c, request)
    {
      var f :| f in visible && contextOf(f) == Some(c);
      FactAnswers(f, links, contributions, request);
    }
  }

  /**
    The contexts of a query that succeeds: exactly the visible facts of the asked Portfolios
    have one, and it lists the products, Portfolios, initiatives and contributions that the
    visible links and contributions give that fact.
    */
  lemma QueryAnswers(scope: Scope, facts: seq<Fact>, request: Request)
    returns (visible: seq<Fact>, links: seq<Link>, contributions: seq<Contribution>)
    requires Query(scope, facts, request).Some?
    ensures SeenInputs(scope, facts, request, visible, links, contributions)
    ensures Answers(visible, links, contributions, request, Query(scope, facts, request).value.contexts)
  {
    visible := VisibleFacts(scope, facts).value.items;
    links := VisibleItems(scope, request.links, LinkRefs).value.items;
    contributions := VisibleItems(scope, request.contributions, ContributionRefs).value.items;
    InputsSeen(scope, facts, request);
    VisibleFactsDistinct(scope, facts);
    var contextOf := ContextOf(links, contributions, request.regroup);
    GroupCollects(visible, contextOf, request.portfolios);
    GroupAnswers(visible, links, contributions, request, Group(visible, contextOf, request.portfolios).value);
  }

  // ---------- when coverage is complete ----------

  /** Everything given to the query may be seen. */
  predicate AllSeen(scope: Scope, facts: seq<Fact>, request: Request) {
    && (forall f <- facts :: Sees(scope, f))
    && (forall l <- request.links :: SeesLink(scope, l))
    && (forall k <- request.contributions :: SeesContribution(scope, k))
    && (forall a <- request.allocations :: Reads(scope, a.source) && Reads(scope, a.target))
  }

  lemma {:induction false} HiddenAllocations(scope: Scope, charges: Charges, allocations: seq<Allocation>)
    requires PostAll(scope, charges, allocations).Some?
    ensures PostAll(scope, charges, allocations).value.hidden
       <==> exists a <- allocations :: !(Reads(scope, a.source) && Reads(scope, a.target))
  {
    if allocations != [] {
      var front, last := allocations[..|allocations| - 1], allocations[|allocations| - 1];
      HiddenAllocations(scope, charges, front);
      PermittedPair(scope, last.source, last.target);
      assert allocations == front + [last];
    }
  }

  lemma PermittedPair(scope: Scope, a: Ref, b: Ref)
    requires AllPermitted(scope, [a, b]).Some?
    ensures AllPermitted(scope, [a, b]).value <==> Reads(scope, a) && Reads(scope, b)
  {
    assert [a, b][1..] == [b] && [b][1..] == [] && AllPermitted(scope, []) == Some(true);
    assert AllPermitted(scope, [b]) == Permitted(scope, b);
  }

  lemma GroupHidden(visible: seq<Fact>, links: seq<Link>, contributions: seq<Contribution>, request: Request, g: Grouped)
    requires Collects(visible, ContextOf(links, contributions, request.regroup), request.portfolios, g)
    ensures g.hidden <==> exists f <- visible ::
      forall r :: !HasProduct(ViewOf(f, links, contributions, request.regroup), r)
  {
    var contextOf := ContextOf(links, contributions, request.regroup);
    forall f | f in visible
      ensures contextOf(f).Some?
      ensures contextOf(f).value.products == []
         <==> forall r :: !HasProduct(ViewOf(f, links, contributions, request.regroup), r)
    {
      ContextDescribed(f, links, contributions, request.regroup);
      var products := contextOf(f).value.products;
      if products != [] { assert products[0] in products; }
    }
  }

  /** Coverage is complete exactly when every asked Project may be read, everything given
      may be seen, and every fact has a product. */
  lemma CompleteExactly(scope: Scope, facts: seq<Fact>, request: Request)
    returns (visible: seq<Fact>, links: seq<Link>, contributions: seq<Contribution>)
    requires Query(scope, facts, request).Some?
    ensures SeenInputs(scope, facts, request, visible, links, contributions)
    ensures Query(scope, facts, request).value.complete <==>
      && scope.projects <= scope.readable && AllSeen(scope, facts, request)
      && forall f <- visible :: exists r :: HasProduct(ViewOf(f, links, contributions, request.regroup), r)
  {
    visible := VisibleFacts(scope, facts).value.items;
    links := VisibleItems(scope, request.links, LinkRefs).value.items;
    contributions := VisibleItems(scope, request.contributions, ContributionRefs).value.items;
    InputsSeen(scope, facts, request);
    var contextOf := ContextOf(links, contributions, request.regroup);
    GroupCollects(visible, contextOf, request.portfolios);
    var g := Group(visible, contextOf, request.portfolios).value;
    GroupHidden(visible, links, contributions, request, g);
    InputsHidden(scope, facts, request);
    HiddenAllocations(scope, ChargesOf(Charged(visible, g.contexts)), request.allocations);
  }

  lemma InputsHidden(scope: Scope, facts: seq<Fact>, request: Request)
    requires Query(scope, facts, request).Some?
    ensures VisibleFacts(scope, facts).value.hidden <==> exists f <- facts :: !Sees(scope, f)
    ensures VisibleItems(scope, request.links, LinkRefs).value.hidden <==> exists l <- request.links :: !SeesLink(scope, l)
    ensures VisibleItems(scope, request.contributions, ContributionRefs).value.hidden
       <==> exists k <- request.contributions :: !SeesContribution(scope, k)
  {
    VisibleMeaning(scope, facts);
    HiddenItemsExactly(scope, request.links, LinkRefs);
    HiddenItemsExactly(scope, request.contributions, ContributionRefs);
    forall k ensures SeesContribution(scope, k) <==> forall r <- ContributionRefs(k) :: Exact(r) && Reads(scope, r) {
      ContributionSeen(scope, k);
    }
  }
}
