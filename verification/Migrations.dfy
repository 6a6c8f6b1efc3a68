/**
  The ordering of schema migrations in docs/l5-services/audit_inventory.py: round after
  round, the revisions whose dependencies are all placed are placed in the order of their
  names, until none is left or none is ready.
  */
module Migrations {
  import opened Options
  import opened JsonText
  import opened Layers

  // `down_revision` and `depends_on`: nothing, one name, or a tuple of names.
  datatype Names = Nothing | One(name: string) | Many(names: seq<string>)

  datatype Migration = Migration(path: string, parent: Names, dependency: Names, operations: string)

  type Catalogue = map<string, Migration>

  datatype Row = Row(revision: string, migration: Migration)

  datatype Listing = Listing(rows: seq<Row>, heads: seq<string>)

  function Listed(n: Names): set<string> {
    match n
    case Nothing => {}
    case One(name) => if name == "" then {} else {name}
    case Many(names) => set x <- names
  }

  function Dependencies(m: Migration): set<string> {
    Listed(m.parent) + Listed(m.dependency)
  }

  /** What each revision depends on. */
  function Needs(c: Catalogue): Graph {
    map r | r in c :: Dependencies(c[r])
  }

  /** The declaration names the revision: alone, or in a tuple; the empty name is nothing. */
  predicate Mentions(n: Names, r: string) {
    (n == One(r) && r != "") || (n.Many? && r in n.names)
  }

  lemma MentionsExactly(n: Names, r: string)
    ensures r in Listed(n) <==> Mentions(n, r)
  {
  }

  /** A revision needs exactly what it names as parent or as dependency. */
  lemma NeedsExactly(c: Catalogue, r: string, d: string)
    requires r in c
    ensures r in Needs(c) && (d in Needs(c)[r] <==> Mentions(c[r].parent, d) || Mentions(c[r].dependency, d))
  {
    MentionsExactly(c[r].parent, d);
    MentionsExactly(c[r].dependency, d);
  }

  /** The heads are the revisions that none names as parent. */
  lemma HeadsExactly(c: Catalogue, r: string)
    ensures r in SortedKeys(c.Keys - ParentsOf(c, c.Keys)) <==> r in c && forall s <- c :: !Mentions(c[s].parent, r)
  {
    forall s | s in c ensures r in Listed(c[s].parent) <==> Mentions(c[s].parent, r) {
      MentionsExactly(c[s].parent, r);
    }
  }

  function Rows(c: Catalogue, order: seq<string>): seq<Row>
    requires forall r <- order :: r in c
  {
    seq(|order|, i requires 0 <= i < |order| => Row(order[i], c[order[i]]))
  }

  function ParentsOf(c: Catalogue, revisions: set<string>): set<string>
    requires revisions <= c.Keys
  {
    set r, p | r in revisions && p in Listed(c[r].parent) :: p
  }

  // One pass over what is pending.
  method ReadyLoop(pending: Catalogue, seen: set<string>) returns (ready: set<string>)
    ensures ready == set r <- pending | Dependencies(pending[r]) <= seen
  {
    ready := {};
    var todo := pending.Keys;
    while todo != {}
      invariant todo <= pending.Keys
      invariant ready == set r | r in pending.Keys - todo && Dependencies(pending[r]) <= seen
      decreases |todo|
    {
      var revision :| revision in todo;
      todo := todo - {revision};
      if Dependencies(pending[revision]) <= seen { ready := ready + {revision}; }
    }
  }

  method PlaceRound(c: Catalogue, pending: Catalogue, seen: set<string>, parents: set<string>,
                    ordered: seq<string>, ready: set<string>)
    returns (pending': Catalogue, seen': set<string>, parents': set<string>, ordered': seq<string>)
    requires seen <= c.Keys && pending == c - seen && ready <= pending.Keys && parents == ParentsOf(c, seen)
    ensures seen' == seen + ready && pending' == c - seen' && parents' == ParentsOf(c, seen')
    ensures ordered' == ordered + SortedKeys(ready)
  {
    var order := SortedKeys(ready);
    pending', seen', parents', ordered' := pending, seen, parents, ordered;
    var i := 0;
    while i < |order|
      invariant 0 <= i <= |order|
      invariant seen' == seen + (set r <- order[..i]) && seen' <= c.Keys
      invariant pending' == c - seen' && parents' == ParentsOf(c, seen')
      invariant ordered' == ordered + order[..i]
    {
      var revision := order[i];
      assert order[..i + 1] == order[..i] + [revision];
      assert revision in order;
      pending', seen' := pending' - {revision}, seen' + {revision};
      parents' := parents' + Listed(c[revision].parent);
      ordered' := ordered' + [revision];
      i := i + 1;
    }
    assert order[..|order|] == order;
  }

  function Revisions(rows: seq<Row>): seq<string> {
    seq(|rows|, i requires 0 <= i < |rows| => rows[i].revision)
  }

  /** Every migration once, sorted by depth and name, each after what it depends on. */
  ghost predicate Arranged(c: Catalogue, order: seq<string>) {
    multiset(order) == multiset(c.Keys) && SortedByDepth(Needs(c), order) && DependenciesFirst(Needs(c), order)
  }

  lemma OrderArranged(c: Catalogue, n: nat)
    requires Placed(Needs(c), n) == c.Keys
    ensures !Unresolved(Needs(c))
    ensures (forall r <- Order(Needs(c), n) :: r in c) && Arranged(c, Revisions(Rows(c, Order(Needs(c), n))))
  {
    PlacedResolved(Needs(c), n);
    OrderPlaced(Needs(c), n);
    OrderIsSorted(Needs(c), n);
    OrderDependenciesFirst(Needs(c), n);
    assert Revisions(Rows(c, Order(Needs(c), n))) == Order(Needs(c), n);
  }

  // What the loop has done after n rounds.
  ghost predicate AfterRounds(c: Catalogue, n: nat, pending: Catalogue, seen: set<string>, parents: set<string>,
                              ordered: seq<string>)
  {
    seen == Placed(Needs(c), n) && pending == c - seen && parents == ParentsOf(c, seen) && ordered == Order(Needs(c), n)
  }

  lemma NextRound(c: Catalogue, n: nat, pending: Catalogue, seen: set<string>, ready: set<string>)
    requires seen == Placed(Needs(c), n) && pending == c - seen
    requires ready == set r <- pending | Dependencies(pending[r]) <= seen
    ensures ready == Ready(Needs(c), seen)
    ensures seen + ready == Placed(Needs(c), n + 1)
  {
  }

  lemma NoRounds(c: Catalogue)
    ensures AfterRounds(c, 0, c, {}, {}, [])
  {
  }

  // The loop: it ends with everything placed, or stuck.
  method Rounds(c: Catalogue)
    returns (stuck: bool, seen: set<string>, parents: set<string>, ordered: seq<string>, ghost n: nat)
    ensures seen <= c.Keys
    ensures stuck ==> Ready(Needs(c), seen) == {} && seen != c.Keys
    ensures !stuck ==> AfterRounds(c, n, map[], seen, parents, ordered) && seen == c.Keys
  {
    var pending := c;
    seen, parents, ordered, n := {}, {}, [], 0;
    NoRounds(c);
    while pending != map[]
      invariant AfterRounds(c, n, pending, seen, parents, ordered)
      decreases |pending|
    {
      var ready := ReadyLoop(pending, seen);
      NextRound(c, n, pending, seen, ready);
      AllPlaced(c, seen);
      if ready == {} {
        return true, seen, parents, ordered, n;
      }
      pending, seen, parents, ordered := PlaceRound(c, pending, seen, parents, ordered, ready);
      n := n + 1;
    }
    AllPlaced(c, seen);
    stuck := false;
  }

  /** Orders the migrations, or returns None where the program raises. */
  method Arrange(c: Catalogue) returns (r: Option<Listing>)
    ensures r.None? <==> Unresolved(Needs(c))
    ensures r.Some? ==> Arranged(c, Revisions(r.value.rows))
    ensures r.Some? ==> forall row <- r.value.rows :: row.revision in c && row.migration == c[row.revision]
    ensures r.Some? ==> r.value.heads == SortedKeys(c.Keys - ParentsOf(c, c.Keys))
  {
    var stuck, seen, parents, ordered, n := Rounds(c);
    if stuck {
      StuckUnresolved(Needs(c), seen);
      return None;
    }
    OrderArranged(c, n);
    r := Some(Listing(Rows(c, ordered), SortedKeys(seen - parents)));
  }

  lemma AllPlaced(c: Catalogue, seen: set<string>)
    requires seen <= c.Keys
    ensures c - seen == map[] <==> seen == c.Keys
  {
    var rest := c - seen;
    assert rest.Keys == c.Keys - seen;
    assert rest == map[] <==> rest.Keys == {};
    assert forall r <- c :: r !in seen ==> r in rest.Keys;
  }
}
