/**
  When a query over facts, links and contributions is refused: references that are not
  exact, two facts under one identity, malformed links, and ties.
  */
module QueryRefusals {
  import opened Options
  import opened Versions
  import opened Relationships
  import opened WorkCost
  import opened Projection
  import opened Conservation
  import opened AnyPart
  import opened ContextMeaning

  // ---------- facts ----------

  /** Every reference is exact, and facts that may be seen under one identity are one fact. */
  predicate Consistent(scope: Scope, facts: seq<Fact>) {
    && (forall f <- facts :: Exact(f.subject))
    && (forall f <- facts, g <- facts :: Sees(scope, f) && Sees(scope, g) && f.subject == g.subject ==> f == g)
  }

  /** The fact loop raises on anything else. */
  lemma {:induction false} FactsGranted(scope: Scope, facts: seq<Fact>)
    ensures VisibleFacts(scope, facts).Some? <==> Consistent(scope, facts)
  {
    if facts != [] {
      var front, last := facts[..|facts| - 1], facts[|facts| - 1];
      FactsGranted(scope, front);
      assert facts == front + [last];
      assert forall f :: f in facts <==> f in front || f == last;
      if VisibleFacts(scope, front).Some? {
        VisibleMeaning(scope, front);
        VisibleFactsDistinct(scope, front);
        LastGranted(scope, front, last, VisibleFacts(scope, front).value);
      }
    }
  }

  lemma LastGranted(scope: Scope, front: seq<Fact>, last: Fact, seen: Seen<Fact>)
    requires forall f :: f in seen.items <==> f in front && Shown(scope, f)
    requires DistinctFacts(seen.items)
    ensures SeeFact(scope, seen, last).Some? <==>
      Exact(last.subject) && (Sees(scope, last) ==> forall f <- front | Sees(scope, f) :: f.subject == last.subject ==> f == last)
  {
    assert Shown(scope, last) <==> Sees(scope, last);
    forall f | f in front ensures Sees(scope, f) <==> f in seen.items {
      assert Shown(scope, f) <==> Sees(scope, f);
    }
    if last in seen.items {
      forall f | f in seen.items && f.subject == last.subject ensures f == last { SameFact(seen.items, f, last); }
    }
  }

  // ---------- one context ----------

  predicate ProperLink(l: Link) {
    && Exact(l.from) && Exact(l.to) && l.from.tenant == l.to.tenant
    && l.id != "" && l.revision != "" && l.kind != "" && l.connection != "" && l.mapping != ""
    && (l.validTo.None? || l.validFrom < l.validTo.value)
  }

  /** No two known contributions of one record were recorded at one time. */
  ghost predicate UntiedContributions(v: View) {
    forall a <- v.contributions, b <- v.contributions ::
      SameRecord(a.subject, b.subject) && a.recordedAt == b.recordedAt <= v.known ==> a == b
  }

  /** Every offered link is proper. */
  ghost predicate ProperLinks(v: View) {
    forall l :: Offered(v, l) ==> ProperLink(l)
  }

  ghost predicate UntiedLinks(v: View) {
    forall a, b :: Offered(v, a) && Offered(v, b) && SameRelationship(a, b) && a.recordedAt == b.recordedAt <= v.known ==> a == b
  }

  lemma ContributionsScanned(v: View)
    requires UntiedContributions(v)
    ensures Scan(v.contributions, ContributionKey, ContributionTime, v.known).Some?
  {
    RefusesExactlyClashes(v.contributions, ContributionKey, ContributionTime, v.known);
    forall i: nat, j: nat
      ensures Clash(v.contributions, i, j, ContributionKey, ContributionTime, v.known) ==> false
    {
      ContributionTie(v, i, j);
    }
  }

  lemma ContributionTie(v: View, i: nat, j: nat)
    ensures Clash(v.contributions, i, j, ContributionKey, ContributionTime, v.known) ==> !UntiedContributions(v)
  {
    if i < j < |v.contributions| {
      var a, b := v.contributions[i], v.contributions[j];
      SameKey(a.subject, b.subject);
      assert a in v.contributions && b in v.contributions;
    }
  }

  lemma LinkTie(v: View, all: seq<Link>, i: nat, j: nat)
    requires forall x :: x in all <==> Offered(v, x)
    ensures Clash(all, i, j, KeyOf, RecordedAt, v.known) ==> !UntiedLinks(v)
  {
    if i < j < |all| {
      assert all[i] in all && all[j] in all;
      assert KeyOf(all[i]) == KeyOf(all[j]) ==> SameRelationship(all[i], all[j]);
    }
  }

  lemma LinksSelected(v: View, all: seq<Link>)
    requires (forall x :: x in all <==> Offered(v, x)) && ProperLinks(v) && UntiedLinks(v)
    ensures SelectDated(all, v.effective, v.known).Some?
  {
    RefusesExactlyClashes(all, KeyOf, RecordedAt, v.known);
    forall i: nat, j: nat ensures Clash(all, i, j, KeyOf, RecordedAt, v.known) ==> false {
      LinkTie(v, all, i, j);
    }
    forall l | l in all ensures ValidLink(l) { assert Offered(v, l) && ProperLink(l); }
  }

  lemma CurrentExactly(v: View)
    requires Scan(v.contributions, ContributionKey, ContributionTime, v.known).Some?
    ensures var t := Scan(v.contributions, ContributionKey, ContributionTime, v.known).value;
      && (forall k <- t.order :: k in t.best) && forall k :: k in Selected(t) <==> Latest(v, k)
  {
    ScanChooses(v.contributions, ContributionKey, ContributionTime, v.known);
    var t := Scan(v.contributions, ContributionKey, ContributionTime, v.known).value;
    forall k ensures k in Selected(t) <==> Latest(v, k) {
      SelectedExactly(v.contributions, k, ContributionKey, ContributionTime, v.known);
      LatestExactly(v, k);
    }
  }

  /** A fact has a context whenever its reference is exact, every offered link is proper, and
      nothing known is tied. */
  lemma ContextGranted(f: Fact, links: seq<Link>, contributions: seq<Contribution>, regroup: Option<int>)
    requires var v := ViewOf(f, links, contributions, regroup);
      Exact(f.subject) && UntiedContributions(v) && ProperLinks(v) && UntiedLinks(v)
    ensures FactContext(f, links, contributions, regroup).Some?
  {
    var v := ViewOf(f, links, contributions, regroup);
    ContributionsScanned(v);
    CurrentExactly(v);
    var current := Selected(Scan(contributions, ContributionKey, ContributionTime, v.known).value);
    var all := links + LinksFromAll(current, f.subject, v.effective);
    forall x ensures x in all <==> Offered(v, x) {
      OfferedExactly(v, current, x);
    }
    LinksSelected(v, all);
  }

  /** And it has none when its reference is not exact, an offered link is malformed, or two
      different contributions of a record, or links of a relationship, were both recorded at
      its latest known time. */
  lemma ContextRefused(f: Fact, links: seq<Link>, contributions: seq<Contribution>, regroup: Option<int>)
    requires FactContext(f, links, contributions, regroup).Some?
    ensures var v := ViewOf(f, links, contributions, regroup);
      && Exact(f.subject) && ProperLinks(v)
      && (forall a <- contributions | a.recordedAt <= v.known ::
            exists b <- contributions :: SameRecord(a.subject, b.subject) && Latest(v, b))
  {
    var v := ViewOf(f, links, contributions, regroup);
    CurrentExactly(v);
    var current := Selected(Scan(contributions, ContributionKey, ContributionTime, v.known).value);
    var all := links + LinksFromAll(current, f.subject, v.effective);
    forall x ensures x in all <==> Offered(v, x) {
      OfferedExactly(v, current, x);
    }
    forall l | Offered(v, l) ensures ProperLink(l) { assert l in all && ValidLink(l); }
    forall a | a in contributions && a.recordedAt <= v.known
      ensures exists b <- contributions :: SameRecord(a.subject, b.subject) && Latest(v, b)
    {
      LatestExists(v, a);
    }
  }

  // Every known record has a strictly latest contribution, when the pass returned.
  lemma LatestExists(v: View, a: Contribution)
    requires Scan(v.contributions, ContributionKey, ContributionTime, v.known).Some?
    requires a in v.contributions && a.recordedAt <= v.known
    ensures exists b <- v.contributions :: SameRecord(a.subject, b.subject) && Latest(v, b)
  {
    ScanChooses(v.contributions, ContributionKey, ContributionTime, v.known);
    var t := Scan(v.contributions, ContributionKey, ContributionTime, v.known).value;
    assert ContributionTime(a) <= v.known && ContributionKey(a) in t.best;
    var b := t.best[ContributionKey(a)];
    LatestExactly(v, b);
    SameKey(a.subject, b.subject);
  }
}
