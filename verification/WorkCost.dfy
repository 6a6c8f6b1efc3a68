/**
  `aggregate_work_cost` of modules/insights/projection.py: every native fact is counted
  once, however many rows and Portfolios it comes with. Amounts are exact reals.
  */
module WorkCost {
  import opened Options
  import opened Relationships

  /** A native fact; `amount` is None when it is not a finite decimal. */
  datatype Fact = Fact(subject: Ref, kind: string, amount: Option<real>, currency: string,
                       effectiveAt: int, recordedAt: int, tenant: Option<string>, project: Option<string>)

  datatype Row = Row(fact: Fact, portfolios: set<string>)

  datatype Value = Work | Cost(amount: real, currency: string)

  function ValueOf(f: Fact): Option<Value> {
    if f.kind == "work" then Some(Work)
    else if f.kind == "cost" && f.currency != "" && f.amount.Some? then Some(Cost(f.amount.value, f.currency))
    else None
  }

  type Money = map<string, real>

  /** A defaultdict read. */
  function Get(m: Money, currency: string): real {
    if currency in m then m[currency] else 0.0
  }

  /** A defaultdict `+=`. */
  function Plus(m: Money, currency: string, amount: real): Money {
    m[currency := Get(m, currency) + amount]
  }

  datatype Tally = Tally(values: map<Ref, Value>, order: seq<Ref>, portfolios: map<Ref, set<string>>)

  /** Whether the Portfolio filter lets a row through. */
  predicate Counted(row: Row, selected: set<string>) {
    selected == {} || row.portfolios * selected != {}
  }

  predicate RowLegal(row: Row) {
    Exact(row.fact.subject) && "" !in row.portfolios
  }

  /** One row of the loop; None is the source's ValueError. */
  function Count(t: Tally, row: Row, selected: set<string>): Option<Tally> {
    var id, value := row.fact.subject, ValueOf(row.fact);
    if !RowLegal(row) then None
    else if !Counted(row, selected) then Some(t)
    else if value.None? || (id in t.values && t.values[id] != value.value) then None
    else
      Some(Tally(t.values[id := value.value],
                 if id in t.values then t.order else t.order + [id],
                 t.portfolios[id := (if id in t.portfolios then t.portfolios[id] else {}) + row.portfolios]))
  }

  const EMPTY_TALLY := Tally(map[], [], map[])

  function TallyRows(rows: seq<Row>, selected: set<string>): Option<Tally> {
    if rows == [] then Some(EMPTY_TALLY)
    else
      var before := TallyRows(rows[..|rows| - 1], selected);
      if before.None? then None else Count(before.value, rows[|rows| - 1], selected)
  }

  /** The part of one value that belongs to a currency. */
  function Share(v: Value, currency: string): real {
    if v.Cost? && v.currency == currency then v.amount else 0.0
  }

  /** The sum over distinct facts, which is what the totals must be. */
  function Total(order: seq<Ref>, values: map<Ref, Value>, currency: string): real
    requires forall id <- order :: id in values
  {
    if order == [] then 0.0
    else Total(order[..|order| - 1], values, currency) + Share(values[order[|order| - 1]], currency)
  }

  function CountWork(order: seq<Ref>, values: map<Ref, Value>): nat
    requires forall id <- order :: id in values
  {
    if order == [] then 0
    else CountWork(order[..|order| - 1], values) + if values[order[|order| - 1]].Work? then 1 else 0
  }

  datatype Summary = Summary(work: nat, costs: Money, order: seq<Ref>, portfolios: map<Ref, set<string>>)

  // ---------- what a tally holds ----------

  predicate NoRepeats(order: seq<Ref>) {
    forall i, j | 0 <= i < j < |order| :: order[i] != order[j]
  }

  ghost predicate Keyed(t: Tally) {
    && NoRepeats(t.order)
    && (forall id :: id in t.order <==> id in t.values)
    && t.portfolios.Keys == t.values.Keys
  }

  /** The Portfolios of a fact over all counted rows. */
  function PortfoliosOf(rows: seq<Row>, selected: set<string>, id: Ref): set<string> {
    set row, p | row in rows && Counted(row, selected) && row.fact.subject == id && p in row.portfolios :: p
  }

  ghost predicate FromRows(rows: seq<Row>, selected: set<string>, id: Ref) {
    exists row <- rows :: Counted(row, selected) && row.fact.subject == id
  }

  ghost predicate ValuesMatch(rows: seq<Row>, selected: set<string>, values: map<Ref, Value>) {
    && (forall row <- rows | Counted(row, selected) ::
          row.fact.subject in values && ValueOf(row.fact) == Some(values[row.fact.subject]))
    && (forall id <- values :: FromRows(rows, selected, id))
  }

  ghost predicate Tallies(rows: seq<Row>, selected: set<string>, t: Tally) {
    && Keyed(t)
    && ValuesMatch(rows, selected, t.values)
    && (forall id <- t.portfolios :: t.portfolios[id] == PortfoliosOf(rows, selected, id))
  }

  lemma CountKeyed(t: Tally, row: Row, selected: set<string>)
    requires Keyed(t) && Count(t, row, selected).Some?
    ensures Keyed(Count(t, row, selected).value)
  {
  }

  lemma CountPortfolios(rows: seq<Row>, row: Row, selected: set<string>, t: Tally, id: Ref)
    requires Tallies(rows, selected, t) && Count(t, row, selected).Some?
    requires id in Count(t, row, selected).value.portfolios
    ensures Count(t, row, selected).value.portfolios[id] == PortfoliosOf(rows + [row], selected, id)
  {
  }

  lemma CountTallies(rows: seq<Row>, row: Row, selected: set<string>, t: Tally)
    requires Tallies(rows, selected, t) && Count(t, row, selected).Some?
    ensures Tallies(rows + [row], selected, Count(t, row, selected).value)
  {
    CountKeyed(t, row, selected);
    forall id <- Count(t, row, selected).value.portfolios
      ensures Count(t, row, selected).value.portfolios[id] == PortfoliosOf(rows + [row], selected, id)
    {
      CountPortfolios(rows, row, selected, t, id);
    }
  }

  /** An accepted aggregation holds exactly the facts of the counted rows, each under
      the one value all its rows agree on, with all its Portfolios. */
  lemma {:induction false} TallyMeaning(rows: seq<Row>, selected: set<string>)
    requires TallyRows(rows, selected).Some?
    ensures Tallies(rows, selected, TallyRows(rows, selected).value)
  {
    if rows != [] {
      var front, row := rows[..|rows| - 1], rows[|rows| - 1];
      TallyMeaning(front, selected);
      assert rows == front + [row];
      CountTallies(front, row, selected, TallyRows(front, selected).value);
    }
  }

  // ---------- each fact once ----------

  lemma {:induction false} TotalAfterRemoval(order: seq<Ref>, values: map<Ref, Value>, i: nat, currency: string)
    requires (forall id <- order :: id in values) && i < |order|
    ensures forall id <- order[..i] + order[i + 1..] :: id in values
    ensures Total(order, values, currency)
         == Total(order[..i] + order[i + 1..], values, currency) + Share(values[order[i]], currency)
    ensures CountWork(order, values)
         == CountWork(order[..i] + order[i + 1..], values) + if values[order[i]].Work? then 1 else 0
  {
    var last := |order| - 1;
    var rest := order[..i] + order[i + 1..];
    if i == last {
      assert rest == order[..last];
    } else {
      var front := order[..last];
      TotalAfterRemoval(front, values, i, currency);
      assert rest[..|rest| - 1] == front[..i] + front[i + 1..];
      assert rest[|rest| - 1] == order[last];
    }
  }

  lemma FirstIsMember(order: seq<Ref>)
    ensures order != [] ==> order[0] in order
  {
  }

  lemma {:induction false} SameFactsSameTotals(a: seq<Ref>, b: seq<Ref>, values: map<Ref, Value>, currency: string)
    requires NoRepeats(a) && NoRepeats(b)
    requires forall id :: id in a <==> id in b
    requires forall id <- a :: id in values
    ensures forall id <- b :: id in values
    ensures Total(a, values, currency) == Total(b, values, currency) && CountWork(a, values) == CountWork(b, values)
  {
    if a == [] {
      assert forall id :: id !in b;
      FirstIsMember(b);
    } else {
      var last := |a| - 1;
      var x := a[last];
      assert x in b;
      var i :| 0 <= i < |b| && b[i] == x;
      var front, rest := a[..last], b[..i] + b[i + 1..];
      assert forall id :: id in front <==> id in a && id != x;
      RestOf(b, i);
      TotalAfterRemoval(b, values, i, currency);
      SameFactsSameTotals(front, rest, values, currency);
    }
  }

  lemma RestOf(b: seq<Ref>, i: nat)
    requires NoRepeats(b) && i < |b|
    ensures NoRepeats(b[..i] + b[i + 1..])
    ensures forall id :: id in b[..i] + b[i + 1..] <==> id in b && id != b[i]
  {
  }

  /** Every fact counted in `a` is counted in `b`. */
  ghost predicate CountedIn(a: seq<Row>, chosenA: set<string>, b: seq<Row>, chosenB: set<string>) {
    forall row <- a | Counted(row, chosenA) :: FactCounted(b, chosenB, row.fact)
  }

  ghost predicate FactCounted(rows: seq<Row>, selected: set<string>, fact: Fact) {
    exists row <- rows :: Counted(row, selected) && row.fact == fact
  }

  lemma SameValues(a: seq<Row>, b: seq<Row>, chosenA: set<string>, chosenB: set<string>,
                   s: map<Ref, Value>, t: map<Ref, Value>)
    requires ValuesMatch(a, chosenA, s) && ValuesMatch(b, chosenB, t) && CountedIn(a, chosenA, b, chosenB)
    ensures forall id <- s :: id in t && t[id] == s[id]
  {
    forall id <- s ensures id in t && t[id] == s[id] {
      assert FromRows(a, chosenA, id);
      var row :| row in a && Counted(row, chosenA) && row.fact.subject == id;
      assert FactCounted(b, chosenB, row.fact);
      var other :| other in b && Counted(other, chosenB) && other.fact == row.fact;
    }
  }

  lemma SameTables(a: seq<Row>, b: seq<Row>, chosenA: set<string>, chosenB: set<string>,
                   s: map<Ref, Value>, t: map<Ref, Value>)
    requires ValuesMatch(a, chosenA, s) && ValuesMatch(b, chosenB, t)
    requires CountedIn(a, chosenA, b, chosenB) && CountedIn(b, chosenB, a, chosenA)
    ensures s == t
  {
    SameValues(a, b, chosenA, chosenB, s, t);
    SameValues(b, a, chosenB, chosenA, t, s);
  }

  lemma SameTotals(s: Tally, t: Tally, currency: string)
    requires Keyed(s) && Keyed(t) && s.values == t.values
    ensures Total(s.order, s.values, currency) == Total(t.order, t.values, currency)
    ensures CountWork(s.order, s.values) == CountWork(t.order, t.values)
  {
    SameFactsSameTotals(s.order, t.order, s.values, currency);
  }

  /** Two accepted lists of rows with the same counted facts have the same totals, no
      matter how often, in what order, or with which Portfolios each fact came. */
  lemma EveryFactOnce(a: seq<Row>, b: seq<Row>, chosenA: set<string>, chosenB: set<string>, currency: string)
    requires Aggregate(a, chosenA).Some? && Aggregate(b, chosenB).Some?
    requires CountedIn(a, chosenA, b, chosenB) && CountedIn(b, chosenB, a, chosenA)
    ensures Get(Aggregate(a, chosenA).value.costs, currency) == Get(Aggregate(b, chosenB).value.costs, currency)
    ensures Aggregate(a, chosenA).value.work == Aggregate(b, chosenB).value.work
  {
    AggregateIs(a, chosenA, currency);
    AggregateIs(b, chosenB, currency);
    TallyMeaning(a, chosenA);
    TallyMeaning(b, chosenB);
    var s, t := TallyRows(a, chosenA).value, TallyRows(b, chosenB).value;
    SameTables(a, b, chosenA, chosenB, s.values, t.values);
    SameTotals(s, t, currency);
  }

  /** The summary of an accepted list, in terms of its tally. */
  lemma AggregateIs(rows: seq<Row>, selected: set<string>, currency: string)
    requires Aggregate(rows, selected).Some?
    ensures TallyRows(rows, selected).Some?
    ensures var t, summary := TallyRows(rows, selected).value, Aggregate(rows, selected).value;
            && NoRepeats(t.order) && (forall id :: id in t.order <==> id in t.values)
            && ValuesMatch(rows, selected, t.values)
            && Get(summary.costs, currency) == Total(t.order, t.values, currency)
            && summary.work == CountWork(t.order, t.values)
  {
    TallyMeaning(rows, selected);
    var t := TallyRows(rows, selected).value;
    CostsAreTotals(t.order, t.values, currency);
  }

  // ---------- the function and the loops of the source ----------

  function CostsOf(order: seq<Ref>, values: map<Ref, Value>): Money
    requires forall id <- order :: id in values
  {
    if order == [] then map[]
    else
      var before, v := CostsOf(order[..|order| - 1], values), values[order[|order| - 1]];
      if v.Cost? then Plus(before, v.currency, v.amount) else before
  }

  lemma {:induction false} CostsAreTotals(order: seq<Ref>, values: map<Ref, Value>, currency: string)
    requires forall id <- order :: id in values
    ensures Get(CostsOf(order, values), currency) == Total(order, values, currency)
  {
    if order != [] { CostsAreTotals(order[..|order| - 1], values, currency); }
  }

  function Aggregate(rows: seq<Row>, selected: set<string>): Option<Summary> {
    var t := TallyRows(rows, selected);
    if t.None? then None
    else
      TallyMeaning(rows, selected);
      Some(Summary(CountWork(t.value.order, t.value.values), CostsOf(t.value.order, t.value.values),
                   t.value.order, t.value.portfolios))
  }

  lemma {:induction false} TallyStaysRefused(rows: seq<Row>, n: nat, selected: set<string>)
    requires n <= |rows| && TallyRows(rows[..n], selected).None?
    ensures TallyRows(rows, selected).None?
  {
    if n == |rows| {
      assert rows[..n] == rows;
    } else {
      assert rows[..|rows| - 1][..n] == rows[..n];
      TallyStaysRefused(rows[..|rows| - 1], n, selected);
    }
  }

  method TallyLoop(rows: seq<Row>, selected: set<string>) returns (r: Option<Tally>)
    ensures r == TallyRows(rows, selected)
  {
    var facts: map<Ref, Value>, order: seq<Ref>, associations: map<Ref, set<string>> := map[], [], map[];
    for i := 0 to |rows|
      invariant TallyRows(rows[..i], selected) == Some(Tally(facts, order, associations))
    {
      var row := rows[i];
      assert rows[..i + 1][..i] == rows[..i];
      if !RowLegal(row) {
        TallyStaysRefused(rows, i + 1, selected);
        return None;
      }
      if Counted(row, selected) {
        var id, value := row.fact.subject, ValueOf(row.fact);
        if value.None? || (id in facts && facts[id] != value.value) {
          TallyStaysRefused(rows, i + 1, selected);
          return None;
        }
        if id !in facts {
          order := order + [id];
        }
        facts := facts[id := value.value];
        associations := associations[id := (if id in associations then associations[id] else {}) + row.portfolios];
      }
    }
    assert rows[..|rows|] == rows;
    return Some(Tally(facts, order, associations));
  }

  method AggregateLoop(rows: seq<Row>, selected: set<string>) returns (r: Option<Summary>)
    ensures r == Aggregate(rows, selected)
  {
    var tally := TallyLoop(rows, selected);
    if tally.None? { return None; }
    TallyMeaning(rows, selected);
    var facts, order := tally.value.values, tally.value.order;
    var totals: Money, work := map[], 0;
    for i := 0 to |order|
      invariant totals == CostsOf(order[..i], facts) && work == CountWork(order[..i], facts)
    {
      assert order[..i + 1][..i] == order[..i] && order[i] in order;
      var value := facts[order[i]];
      if value.Cost? {
        totals := Plus(totals, value.currency, value.amount);
      } else {
        work := work + 1;
      }
    }
    assert order[..|order|] == order;
    return Some(Summary(work, totals, order, tally.value.portfolios));
  }
}
