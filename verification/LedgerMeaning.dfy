/**
  What the totals and the ledger of a projection hold, and which rows and allocations are
  refused, read off the rows and allocations themselves.
  */
module LedgerMeaning {
  import opened Options
  import opened Sequences
  import opened Relationships
  import opened WorkCost
  import opened Projection
  import opened Conservation
  import opened ContextMeaning

  // ---------- which rows are refused ----------

  /** The row passes the Portfolio filter. */
  predicate Passing(row: Row, selected: set<string>) {
    selected == {} || exists p <- row.portfolios :: p in selected
  }

  predicate Countable(f: Fact) {
    f.kind == "work" || (f.kind == "cost" && f.currency != "" && f.amount.Some?)
  }

  predicate SameNumbers(f: Fact, g: Fact) {
    f.kind == g.kind && (f.kind == "cost" ==> f.amount == g.amount && f.currency == g.currency)
  }

  predicate RowOk(row: Row, selected: set<string>) {
    && Exact(row.fact.subject) && (forall p <- row.portfolios :: p != "")
    && (Passing(row, selected) ==> Countable(row.fact))
  }

  predicate PairOk(a: Row, b: Row, selected: set<string>) {
    Passing(a, selected) && Passing(b, selected) && a.fact.subject == b.fact.subject ==> SameNumbers(a.fact, b.fact)
  }

  lemma PassingExactly(row: Row, selected: set<string>)
    ensures Passing(row, selected) <==> Counted(row, selected)
  {
    if exists p <- row.portfolios :: p in selected {
      var p :| p in row.portfolios && p in selected;
      assert p in row.portfolios * selected;
    }
    if row.portfolios * selected != {} {
      var p :| p in row.portfolios * selected;
    }
  }

  lemma SameValueExactly(f: Fact, g: Fact)
    requires Countable(f) && Countable(g)
    ensures ValueOf(f).Some? && ValueOf(g).Some?
    ensures ValueOf(f) == ValueOf(g) <==> SameNumbers(f, g)
  {
  }

  lemma CountsExactly(front: seq<Row>, t: Tally, row: Row, selected: set<string>)
    requires ValuesMatch(front, selected, t.values) && forall r <- front :: RowOk(r, selected)
    ensures Count(t, row, selected).Some? <==> RowOk(row, selected) && forall r <- front :: PairOk(r, row, selected)
  {
    PassingExactly(row, selected);
    forall r | r in front ensures Passing(r, selected) <==> Counted(r, selected) {
      PassingExactly(r, selected);
    }
    assert RowLegal(row) <==> Exact(row.fact.subject) && forall p <- row.portfolios :: p != "";
    if RowOk(row, selected) && Passing(row, selected) {
      forall r | r in front && Passing(r, selected) ensures Countable(r.fact) {
        assert RowOk(r, selected);
      }
      forall r | r in front && Passing(r, selected) && r.fact.subject == row.fact.subject
        ensures ValueOf(r.fact) == ValueOf(row.fact) <==> SameNumbers(r.fact, row.fact)
        ensures r.fact.subject in t.values && ValueOf(r.fact) == Some(t.values[r.fact.subject])
      {
        SameValueExactly(r.fact, row.fact);
      }
      if row.fact.subject in t.values {
        assert FromRows(front, selected, row.fact.subject);
        var r :| r in front && Counted(r, selected) && r.fact.subject == row.fact.subject;
        assert PairOk(r, row, selected) ==> Count(t, row, selected).Some?;
      }
    }
  }

  predicate AllOk(rows: seq<Row>, selected: set<string>) {
    && (forall r <- rows :: RowOk(r, selected))
    && (forall i, j :: 0 <= i < j < |rows| ==> PairOk(rows[i], rows[j], selected))
  }

  lemma AllOkSnoc(front: seq<Row>, row: Row, selected: set<string>)
    ensures AllOk(front + [row], selected)
       <==> AllOk(front, selected) && RowOk(row, selected) && forall r <- front :: PairOk(r, row, selected)
  {
    var rows := front + [row];
    if AllOk(rows, selected) {
      forall r | r in front ensures RowOk(r, selected) && PairOk(r, row, selected) {
        var i :| 0 <= i < |front| && front[i] == r;
        assert rows[i] == r && rows[|front|] == row;
      }
      forall i, j | 0 <= i < j < |front| ensures PairOk(front[i], front[j], selected) {
        assert rows[i] == front[i] && rows[j] == front[j];
      }
    }
    if AllOk(front, selected) && RowOk(row, selected) && forall r <- front :: PairOk(r, row, selected) {
      forall i, j | 0 <= i < j < |rows| ensures PairOk(rows[i], rows[j], selected) {
        if j < |front| { assert rows[i] == front[i] && rows[j] == front[j]; }
      }
    }
  }

  /** Rows are summarised exactly when every reference is exact and every Portfolio named,
      every counted fact is work or a finite cost in a currency, and no two counted rows
      give one fact different numbers. */
  lemma {:induction false} AggregatesExactly(rows: seq<Row>, selected: set<string>)
    ensures Aggregate(rows, selected).Some? <==> AllOk(rows, selected)
  {
    if rows != [] {
      var front, last := rows[..|rows| - 1], rows[|rows| - 1];
      assert rows == front + [last];
      AggregatesExactly(front, selected);
      AllOkSnoc(front, last, selected);
      if TallyRows(front, selected).Some? {
        TallyMeaning(front, selected);
        CountsExactly(front, TallyRows(front, selected).value, last, selected);
      }
    }
  }

  // ---------- the ledger ----------

  /** An allocation that may be read, of a charged fact. */
  predicate InEffect(scope: Scope, charged: seq<Fact>, a: Allocation) {
    Reads(scope, a.source) && Reads(scope, a.target) && exists f <- charged :: f.subject == a.source
  }

  function EffectIn(scope: Scope, charged: seq<Fact>): Allocation -> bool {
    (a: Allocation) => InEffect(scope, charged, a)
  }

  function AmountOf(a: Allocation): real {
    if a.amount.Some? then a.amount.value else 0.0
  }

  /** What a list of allocations takes from one fact. */
  function TakenFrom(accepted: seq<Allocation>, id: Ref): real {
    if accepted == [] then 0.0
    else TakenFrom(accepted[..|accepted| - 1], id)
         + if accepted[|accepted| - 1].source == id then AmountOf(accepted[|accepted| - 1]) else 0.0
  }

  /** What it gives in one currency. */
  function GivenIn(accepted: seq<Allocation>, currency: string): real {
    if accepted == [] then 0.0
    else GivenIn(accepted[..|accepted| - 1], currency)
         + if accepted[|accepted| - 1].currency == currency then AmountOf(accepted[|accepted| - 1]) else 0.0
  }

  /** What a list of allocations must leave in the ledger: those in effect, in order, with
      their identities and sums. */
  ghost predicate Entered(ledger: Ledger) {
    && (forall id, name :: (id, name) in ledger.taken <==> exists a <- ledger.accepted :: a.source == id && a.id == name)
    && (forall id :: Posted(ledger.byFact, id) == TakenFrom(ledger.accepted, id))
    && (forall currency :: Get(ledger.granted, currency) == GivenIn(ledger.accepted, currency))
  }

  /** An allocation in effect is acceptable after others: to a business scope, identified,
      once, in its fact's currency, and of an amount that is left. */
  predicate Affordable(charged: seq<Fact>, before: seq<Allocation>, a: Allocation) {
    && a.target.kind in {"product", "initiative", "contribution"}
    && a.id != "" && a.policy != "" && a.basis != ""
    && (forall b <- before :: b.source != a.source || b.id != a.id)
    && a.amount.Some? && a.amount.value >= 0.0
    && forall f <- charged | f.subject == a.source ::
         a.currency == f.currency && f.amount.Some? && TakenFrom(before, a.source) + a.amount.value <= f.amount.value
  }

  /** References that raise nothing. */
  predicate Referenced(scope: Scope, a: Allocation) {
    Exact(a.source) && (Reads(scope, a.source) ==> Exact(a.target))
  }

  lemma ChargeFound(charged: seq<Fact>, id: Ref)
    requires DistinctFacts(charged)
    ensures id in ChargesOf(charged) <==> exists f <- charged :: f.subject == id
    ensures forall f <- charged | f.subject == id :: id in ChargesOf(charged) && ChargesOf(charged)[id] == ChargeOf(f)
  {
    ChargesLookup(charged);
  }

  lemma LegalExactly(charged: seq<Fact>, ledger: Ledger, a: Allocation)
    requires DistinctFacts(charged) && (forall f <- charged :: f.amount.Some?) && Entered(ledger)
    requires exists f <- charged :: f.subject == a.source
    ensures a.source in ChargesOf(charged)
    ensures AllocationLegal(ledger, a, ChargesOf(charged)[a.source]) <==> Affordable(charged, ledger.accepted, a)
  {
    ChargeFound(charged, a.source);
    var f :| f in charged && f.subject == a.source;
    assert (a.source, a.id) in ledger.taken <==> exists b <- ledger.accepted :: b.source == a.source && b.id == a.id;
    forall x | x in charged && x.subject == a.source ensures x == f {
      AnyPart.SameFact(charged, x, f);
    }
  }

  lemma PairReferenced(scope: Scope, a: Allocation)
    ensures AllPermitted(scope, [a.source, a.target]).Some? <==> Referenced(scope, a)
    ensures AllPermitted(scope, [a.source, a.target]).Some? ==>
      (AllPermitted(scope, [a.source, a.target]).value <==> Reads(scope, a.source) && Reads(scope, a.target))
  {
    var refs := [a.source, a.target];
    assert refs[1..] == [a.target] && [a.target][1..] == [] && AllPermitted(scope, []) == Some(true);
    assert AllPermitted(scope, [a.target]) == Permitted(scope, a.target);
  }

  /** One allocation is refused exactly when it is in effect and not affordable, or badly
      referenced; in effect it is entered, and otherwise it is left out. */
  lemma PostExactly(scope: Scope, charged: seq<Fact>, ledger: Ledger, a: Allocation)
    requires DistinctFacts(charged) && (forall f <- charged :: f.amount.Some?) && Entered(ledger)
    ensures Post(scope, ChargesOf(charged), ledger, a).Some?
       <==> Referenced(scope, a) && (InEffect(scope, charged, a) ==> Affordable(charged, ledger.accepted, a))
    ensures Post(scope, ChargesOf(charged), ledger, a).Some? ==>
      Post(scope, ChargesOf(charged), ledger, a).value.accepted
      == if InEffect(scope, charged, a) then ledger.accepted + [a] else ledger.accepted
  {
    PairReferenced(scope, a);
    ChargeFound(charged, a.source);
    if exists f <- charged :: f.subject == a.source { LegalExactly(charged, ledger, a); }
  }

  lemma SumsSnoc(accepted: seq<Allocation>, a: Allocation, id: Ref, currency: string)
    ensures TakenFrom(accepted + [a], id) == TakenFrom(accepted, id) + if a.source == id then AmountOf(a) else 0.0
    ensures GivenIn(accepted + [a], currency)
         == GivenIn(accepted, currency) + if a.currency == currency then AmountOf(a) else 0.0
  {
    assert (accepted + [a])[..|accepted|] == accepted;
  }

  lemma TakenSnoc(ledger: Ledger, after: Ledger, a: Allocation)
    requires Entered(ledger) && after.accepted == ledger.accepted + [a]
    requires after.taken == ledger.taken + {(a.source, a.id)}
    ensures forall id, name :: (id, name) in after.taken <==> exists b <- after.accepted :: b.source == id && b.id == name
  {
    forall id, name
      ensures (id, name) in after.taken <==> exists b <- after.accepted :: b.source == id && b.id == name
    {
      assert (id, name) in after.taken <==> (id, name) in ledger.taken || (a.source == id && a.id == name);
      assert forall b :: b in after.accepted <==> b in ledger.accepted || b == a;
    }
  }

  lemma TakenSum(ledger: Ledger, after: Ledger, a: Allocation, id: Ref)
    requires Posted(ledger.byFact, id) == TakenFrom(ledger.accepted, id)
    requires after.accepted == ledger.accepted + [a] && a.amount.Some?
    requires after.byFact == ledger.byFact[a.source := Posted(ledger.byFact, a.source) + a.amount.value]
    ensures Posted(after.byFact, id) == TakenFrom(after.accepted, id)
  {
    SumsSnoc(ledger.accepted, a, id, "");
  }

  lemma GivenSum(ledger: Ledger, after: Ledger, a: Allocation, currency: string)
    requires Get(ledger.granted, currency) == GivenIn(ledger.accepted, currency)
    requires after.accepted == ledger.accepted + [a] && a.amount.Some?
    requires after.granted == Plus(ledger.granted, a.currency, a.amount.value)
    ensures Get(after.granted, currency) == GivenIn(after.accepted, currency)
  {
    SumsSnoc(ledger.accepted, a, a.source, currency);
  }

  // An entered allocation keeps the ledger's tables those of its list.
  lemma PostEnters(scope: Scope, charged: seq<Fact>, ledger: Ledger, a: Allocation)
    requires Entered(ledger) && Post(scope, ChargesOf(charged), ledger, a).Some?
    ensures Entered(Post(scope, ChargesOf(charged), ledger, a).value)
  {
    var after := Post(scope, ChargesOf(charged), ledger, a).value;
    if after.accepted != ledger.accepted {
      TakenSnoc(ledger, after, a);
      forall id { TakenSum(ledger, after, a, id); }
      forall currency { GivenSum(ledger, after, a, currency); }
    }
  }

  /** The i-th allocation is well referenced and, in effect, affordable after those before it. */
  predicate AffordableInTurn(scope: Scope, charged: seq<Fact>, allocations: seq<Allocation>, i: nat)
    requires i < |allocations|
  {
    && Referenced(scope, allocations[i])
    && (InEffect(scope, charged, allocations[i]) ==>
          Affordable(charged, Filter(allocations[..i], EffectIn(scope, charged)), allocations[i]))
  }

  lemma TurnFront(scope: Scope, charged: seq<Fact>, front: seq<Allocation>, a: Allocation, i: nat)
    requires i < |front|
    ensures AffordableInTurn(scope, charged, front + [a], i) <==> AffordableInTurn(scope, charged, front, i)
  {
    assert (front + [a])[..i] == front[..i] && (front + [a])[i] == front[i];
  }

  /** Allocations are accepted exactly when each is affordable in turn, and then the ledger
      holds those in effect, in order, and their sums. */
  lemma {:induction false} LedgerExactly(scope: Scope, charged: seq<Fact>, allocations: seq<Allocation>)
    requires DistinctFacts(charged) && forall f <- charged :: f.amount.Some?
    ensures PostAll(scope, ChargesOf(charged), allocations).Some?
       <==> forall i :: 0 <= i < |allocations| ==> AffordableInTurn(scope, charged, allocations, i)
    ensures PostAll(scope, ChargesOf(charged), allocations).Some? ==>
      var ledger := PostAll(scope, ChargesOf(charged), allocations).value;
      ledger.accepted == Filter(allocations, EffectIn(scope, charged)) && Entered(ledger)
  {
    if allocations != [] {
      var front, last := allocations[..|allocations| - 1], allocations[|allocations| - 1];
      assert allocations == front + [last];
      LedgerExactly(scope, charged, front);
      forall i | 0 <= i < |front|
        ensures AffordableInTurn(scope, charged, allocations, i) <==> AffordableInTurn(scope, charged, front, i)
      {
        TurnFront(scope, charged, front, last, i);
      }
      if PostAll(scope, ChargesOf(charged), front).Some? {
        LastInTurn(scope, charged, front, last, PostAll(scope, ChargesOf(charged), front).value);
      }
    }
  }

  lemma LastInTurn(scope: Scope, charged: seq<Fact>, front: seq<Allocation>, a: Allocation, ledger: Ledger)
    requires DistinctFacts(charged) && (forall f <- charged :: f.amount.Some?) && Entered(ledger)
    requires ledger.accepted == Filter(front, EffectIn(scope, charged))
    ensures Post(scope, ChargesOf(charged), ledger, a).Some?
       <==> AffordableInTurn(scope, charged, front + [a], |front|)
    ensures Post(scope, ChargesOf(charged), ledger, a).Some? ==>
      var after := Post(scope, ChargesOf(charged), ledger, a).value;
      after.accepted == Filter(front + [a], EffectIn(scope, charged)) && Entered(after)
  {
    assert (front + [a])[..|front|] == front;
    FilterSnoc(front, a, EffectIn(scope, charged));
    PostExactly(scope, charged, ledger, a);
    if Post(scope, ChargesOf(charged), ledger, a).Some? { PostEnters(scope, charged, ledger, a); }
  }

  /** The ledger of a query that succeeds: every allocation was affordable in turn, those in
      effect were accepted in order, and the tables are their sums. */
  lemma QueryLedger(scope: Scope, facts: seq<Fact>, request: Request)
    requires Query(scope, facts, request).Some?
    ensures var p := Query(scope, facts, request).value;
      var charged := ChargedIn(scope, facts, p.contexts);
      && (forall i :: 0 <= i < |request.allocations| ==> AffordableInTurn(scope, charged, request.allocations, i))
      && p.ledger.accepted == Filter(request.allocations, EffectIn(scope, charged)) && Entered(p.ledger)
  {
    var p := Query(scope, facts, request).value;
    var charged := ChargedIn(scope, facts, p.contexts);
    VisibleFactsDistinct(scope, facts);
    FilterKeepsDistinct(VisibleFacts(scope, facts).value.items, ChargedBy(p.contexts));
    forall f | f in charged ensures f.amount.Some? {
      FilterMembers(VisibleFacts(scope, facts).value.items, ChargedBy(p.contexts));
      assert ChargedBy(p.contexts)(f);
      ChargedHasAmount(scope, facts, request, f);
    }
    LedgerExactly(scope, charged, request.allocations);
  }
}
