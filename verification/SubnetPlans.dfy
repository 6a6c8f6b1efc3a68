/**
  Which capacity subnets are planned, and which configurations are refused, read off the
  entries of the configured and the retained map.
  */
module SubnetPlans {
  import opened Options
  import opened Subnets

  // ---------- acceptable maps ----------

  /** The entry names the subnet. */
  predicate Names(e: Entry, subnet: string) {
    e == One(subnet) || (e.Many? && Some(subnet) in e.items)
  }

  /** One subnet, or a nonempty list of different ones. */
  predicate ProperEntry(e: Entry) {
    && (e.One? ==> e.subnet != "")
    && (e.Many? ==> |e.items| > 0)
    && (e.Many? ==> forall i :: 0 <= i < |e.items| ==> e.items[i].Some? && e.items[i].value != "")
    && (e.Many? ==> forall i, j :: 0 <= i < j < |e.items| ==> e.items[i] != e.items[j])
    && !e.Odd?
  }

  /** Nothing, or an object of proper entries under zones, with no subnet under two of them. */
  predicate Acceptable(c: Config) {
    && !c.NotAnObject?
    && (c.ByZone? ==>
          && (forall z <- c.zones :: z != "" && ProperEntry(c.zones[z]))
          && (forall y <- c.zones, z <- c.zones :: y != z ==> Apart(c.zones[y], c.zones[z])))
  }

  predicate Apart(e: Entry, f: Entry) {
    && (e.One? ==> !Names(f, e.subnet))
    && (e.Many? ==> forall x <- e.items :: x.Some? ==> !Names(f, x.value))
  }

  /** The configuration has the subnet under the zone. */
  predicate Puts(c: Config, subnet: string, zone: string) {
    c.ByZone? && zone in c.zones && Names(c.zones[zone], subnet)
  }

  lemma NamesExactly(e: Entry, subnet: string)
    ensures subnet in SubnetsOf(e) <==> Names(e, subnet)
  {
    if e.Many? && Some(subnet) in e.items { assert Some(subnet).value == subnet; }
  }

  lemma UsableExactly(e: Entry)
    ensures Usable(e) <==> ProperEntry(e)
  {
    if e.Many? {
      assert (forall x <- e.items :: x.Some? && x.value != "")
        <==> forall i :: 0 <= i < |e.items| ==> e.items[i].Some? && e.items[i].value != "";
      assert Repeated(e.items) <==> exists i, j :: 0 <= i < j < |e.items| && e.items[i] == e.items[j];
    }
  }

  lemma ApartExactly(e: Entry, f: Entry)
    ensures SubnetsOf(e) !! SubnetsOf(f) <==> Apart(e, f)
  {
    forall s ensures s in SubnetsOf(e) <==> Names(e, s) { NamesExactly(e, s); }
    forall s ensures s in SubnetsOf(f) <==> Names(f, s) { NamesExactly(f, s); }
    if SubnetsOf(e) !! SubnetsOf(f) {
      if e.One? { assert e.subnet in SubnetsOf(e); }
      if e.Many? {
        forall x | x in e.items && x.Some? ensures !Names(f, x.value) { assert x.value in SubnetsOf(e); }
      }
    }
  }

  lemma AcceptableExactly(c: Config)
    ensures ZoneLists(c).Some? <==> Acceptable(c)
  {
    if c.ByZone? {
      forall z | z in c.zones ensures Usable(c.zones[z]) <==> ProperEntry(c.zones[z]) { UsableExactly(c.zones[z]); }
      forall y, z | y in c.zones && z in c.zones
        ensures SubnetsOf(c.zones[y]) !! SubnetsOf(c.zones[z]) <==> Apart(c.zones[y], c.zones[z])
      {
        ApartExactly(c.zones[y], c.zones[z]);
      }
    }
  }

  lemma PutsExactly(c: Config, subnet: string, zone: string)
    requires ZoneLists(c).Some?
    ensures var lists := ZoneLists(c).value;
      zone in lists && subnet in lists[zone] <==> Puts(c, subnet, zone)
  {
    if c.ByZone? && zone in c.zones { NamesExactly(c.zones[zone], subnet); }
  }

  // ---------- plans ----------

  predicate Nothing(c: Config) {
    c.Absent? || (c.ByZone? && |c.zones| == 0)
  }

  /** Every retained subnet is configured somewhere. */
  ghost predicate OmitsNone(configured: Config, retained: Config) {
    forall s, z :: Puts(retained, s, z) ==> exists y :: Puts(configured, s, y)
  }

  /** No subnet is configured under another zone than it is retained under. */
  ghost predicate MovesNone(configured: Config, retained: Config) {
    forall s, y, z :: Puts(configured, s, y) && Puts(retained, s, z) ==> y == z
  }

  lemma NothingExactly(c: Config)
    requires ZoneLists(c).Some?
    ensures ZoneLists(c).value == map[] <==> Nothing(c)
  {
    if c.ByZone? {
      assert Lists(c.zones).Keys == c.zones.Keys;
      assert Lists(c.zones) == map[] <==> Lists(c.zones).Keys == {};
    }
  }

  lemma OmitsExactly(configured: Config, retained: Config)
    requires ZoneLists(configured).Some? && ZoneLists(retained).Some?
    ensures Ids(ZoneLists(retained).value) <= Ids(ZoneLists(configured).value) <==> OmitsNone(configured, retained)
  {
    var c, r := ZoneLists(configured).value, ZoneLists(retained).value;
    forall s ensures s in Ids(c) <==> exists y :: Puts(configured, s, y) { IdsExactly(configured, s); }
    forall s ensures s in Ids(r) <==> exists z :: Puts(retained, s, z) { IdsExactly(retained, s); }
    if Ids(r) <= Ids(c) {
      forall s, z | Puts(retained, s, z) ensures exists y :: Puts(configured, s, y) { assert s in Ids(r); }
    }
  }

  lemma IdsExactly(c: Config, s: string)
    requires ZoneLists(c).Some?
    ensures s in Ids(ZoneLists(c).value) <==> exists z :: Puts(c, s, z)
  {
    var lists := ZoneLists(c).value;
    if s in Ids(lists) {
      var z :| z in lists && s in lists[z];
      PutsExactly(c, s, z);
    }
    if exists z :: Puts(c, s, z) {
      var z :| Puts(c, s, z);
      PutsExactly(c, s, z);
    }
  }

  lemma MovesExactly(configured: Config, retained: Config)
    requires ZoneLists(configured).Some? && ZoneLists(retained).Some?
    ensures !Moves(ZoneLists(configured).value, ZoneLists(retained).value) <==> MovesNone(configured, retained)
  {
    forall s, z
      ensures z in ZoneLists(configured).value && s in ZoneLists(configured).value[z] <==> Puts(configured, s, z)
      ensures z in ZoneLists(retained).value && s in ZoneLists(retained).value[z] <==> Puts(retained, s, z)
    {
      PutsExactly(configured, s, z);
      PutsExactly(retained, s, z);
    }
  }

  /** A plan is made exactly when both maps are acceptable and, if anything is configured,
      it omits no retained subnet unless removal is authorised, and moves none. */
  lemma PlansExactly(configured: Config, retained: Config, allowRemoval: bool)
    ensures Effective(configured, retained, allowRemoval).Some? <==>
      && Acceptable(configured) && Acceptable(retained)
      && (Nothing(configured) || ((allowRemoval || OmitsNone(configured, retained)) && MovesNone(configured, retained)))
  {
    AcceptableExactly(configured);
    AcceptableExactly(retained);
    if Acceptable(configured) && Acceptable(retained) {
      NothingExactly(configured);
      OmitsExactly(configured, retained);
      MovesExactly(configured, retained);
    }
  }

  /** What is planned: the configuration, if there is one; otherwise what is retained, unless
      removal is authorised. */
  lemma PlannedExactly(configured: Config, retained: Config, allowRemoval: bool, subnet: string, zone: string)
    requires Effective(configured, retained, allowRemoval).Some?
    ensures Plans(Effective(configured, retained, allowRemoval).value, subnet, zone)
       <==> if Nothing(configured) then !allowRemoval && Puts(retained, subnet, zone) else Puts(configured, subnet, zone)
  {
    NothingExactly(configured);
    CompactPlans(ZoneLists(configured).value, subnet, zone);
    CompactPlans(ZoneLists(retained).value, subnet, zone);
    PutsExactly(configured, subnet, zone);
    PutsExactly(retained, subnet, zone);
  }

  // ---------- what is live ----------

  /** The additions are the live subnets outside the baseline; they are refused when the
      baseline is unknown or one of them is managed elsewhere. */
  lemma AdditionsExactly(d: Deployment, live: set<string>)
    ensures LiveAdditions(d, live).None? <==>
      live != {} && (d.baseline.None? || exists s <- live :: s !in d.baseline.value && s in d.managed)
    ensures LiveAdditions(d, live).Some? && live != {} ==>
      forall s :: s in LiveAdditions(d, live).value <==> s in live && s !in d.baseline.value
    ensures live == {} ==> LiveAdditions(d, live) == Some({})
  {
    if live != {} && d.baseline.Some? {
      var shared := (live - d.baseline.value) * d.managed;
      if shared != {} { var s :| s in shared; }
      if exists s <- live :: s !in d.baseline.value && s in d.managed {
        var s :| s in live && s !in d.baseline.value && s in d.managed;
        assert s in shared;
      }
    }
  }
}
