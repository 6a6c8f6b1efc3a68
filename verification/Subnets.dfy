/**
  The merge of configured and live capacity subnets, platform/scripts/capacity_subnets.py:
  configuration that is absent or stale never takes a live subnet away, in one run or over
  any number of them.
  */
module Subnets {
  import opened Options
  import opened JsonText

  // What stands under a zone: one subnet, a list (None for an item that is no string), or something else.
  datatype Entry = One(subnet: string) | Many(items: seq<Option<string>>) | Odd

  // The configured value: nothing (or any empty value), an object by zone, or something else.
  datatype Config = Absent | ByZone(zones: map<string, Entry>) | NotAnObject

  type Zones = map<string, seq<string>>

  // ---------- _zone_lists ----------

  predicate Repeated(items: seq<Option<string>>) {
    exists i, j :: 0 <= i < j < |items| && items[i] == items[j]
  }

  predicate Usable(e: Entry) {
    match e
    case One(subnet) => subnet != ""
    case Many(items) => items != [] && (forall x <- items :: x.Some? && x.value != "") && !Repeated(items)
    case Odd => false
  }

  function SubnetsOf(e: Entry): set<string> {
    match e
    case One(subnet) => {subnet}
    case Many(items) => set x <- items | x.Some? :: x.value
    case Odd => {}
  }

  predicate WellFormed(v: map<string, Entry>, zones: set<string>) {
    && zones <= v.Keys
    && (forall z <- zones :: z != "" && Usable(v[z]))
    && (forall y <- zones, z <- zones :: y != z ==> SubnetsOf(v[y]) !! SubnetsOf(v[z]))
  }

  function Lists(v: map<string, Entry>): Zones {
    map z | z in v :: SortedKeys(SubnetsOf(v[z]))
  }

  function ZoneLists(c: Config): Option<Zones> {
    match c
    case Absent => Some(map[])
    case NotAnObject => None
    case ByZone(zones) => if WellFormed(zones, zones.Keys) then Some(Lists(zones)) else None
  }

  // `owners` has the zone of every subnet that stands under one of the zones.
  predicate OwnedBy(v: map<string, Entry>, zones: set<string>, owners: map<string, string>) {
    && zones <= v.Keys
    && (forall z <- zones :: SubnetsOf(v[z]) <= owners.Keys)
    && (forall s <- owners :: owners[s] in zones && s in SubnetsOf(v[owners[s]]))
  }

  function Assign(subnets: set<string>, zone: string): map<string, string> {
    map s | s in subnets :: zone
  }

  predicate Parted(all: set<string>, done: set<string>, todo: set<string>) {
    done + todo == all && done !! todo
  }

  lemma PartedMore(all: set<string>, done: set<string>, todo: set<string>, one: string)
    requires Parted(all, done, todo) && one in todo
    ensures one in all && one !in done && Parted(all, done + {one}, todo - {one})
    ensures |todo - {one}| < |todo|
  {
  }

  lemma AssignMore(subnets: set<string>, zone: string, owners: map<string, string>, s: string)
    ensures owners + Assign(subnets + {s}, zone) == (owners + Assign(subnets, zone))[s := zone]
    ensures owners + Assign({}, zone) == owners
  {
  }

  // The loop over the subnets of one zone.
  method Claim(zone: string, subnets: set<string>, owners: map<string, string>) returns (ok: bool, now: map<string, string>)
    requires forall s <- owners :: owners[s] != zone
    ensures ok <==> subnets !! owners.Keys
    ensures ok ==> now == owners + Assign(subnets, zone)
  {
    AssignMore({}, zone, owners, "");
    now, ok := owners, true;
    var todo := subnets;
    ghost var done: set<string> := {};
    while todo != {}
      invariant Parted(subnets, done, todo) && done !! owners.Keys
      invariant now == owners + Assign(done, zone)
      decreases |todo|
    {
      var subnet :| subnet in todo;
      PartedMore(subnets, done, todo, subnet);
      if subnet in now && now[subnet] != zone {
        assert subnet in owners.Keys;
        return false, now;
      }
      AssignMore(done, zone, owners, subnet);
      now, todo, done := now[subnet := zone], todo - {subnet}, done + {subnet};
    }
    assert done == subnets;
  }

  lemma ClaimedMore(v: map<string, Entry>, done: set<string>, zone: string, owners: map<string, string>)
    requires zone in v && zone !in done && OwnedBy(v, done, owners) && SubnetsOf(v[zone]) !! owners.Keys
    ensures OwnedBy(v, done + {zone}, owners + Assign(SubnetsOf(v[zone]), zone))
  {
  }

  predicate ListsOf(v: map<string, Entry>, done: set<string>, result: Zones) {
    result.Keys == done && done <= v.Keys && forall z <- done :: result[z] == SortedKeys(SubnetsOf(v[z]))
  }

  // What the loop has when it has seen the zones that are done.
  predicate ZonesClaimed(v: map<string, Entry>, done: set<string>, result: Zones, owners: map<string, string>) {
    WellFormed(v, done) && OwnedBy(v, done, owners) && ListsOf(v, done, result)
  }

  lemma ListsMore(v: map<string, Entry>, done: set<string>, result: Zones, zone: string)
    requires zone in v && ListsOf(v, done, result)
    ensures ListsOf(v, done + {zone}, result[zone := SortedKeys(SubnetsOf(v[zone]))])
  {
  }

  // One zone of the loop.
  method ClaimZone(v: map<string, Entry>, ghost done: set<string>, result: Zones, owners: map<string, string>, zone: string)
    returns (ok: bool, result': Zones, owners': map<string, string>)
    requires zone in v && zone !in done && ZonesClaimed(v, done, result, owners)
    ensures ok ==> ZonesClaimed(v, done + {zone}, result', owners')
    ensures !ok ==> !WellFormed(v, v.Keys)
  {
    result', owners' := result, owners;
    if zone == "" || !Usable(v[zone]) { return false, result', owners'; }
    ok, owners' := Claim(zone, SubnetsOf(v[zone]), owners);
    if !ok {
      return;
    }
    ClaimedMore(v, done, zone, owners);
    ListsMore(v, done, result, zone);
    result' := result[zone := SortedKeys(SubnetsOf(v[zone]))];
  }

  method ClaimAll(v: map<string, Entry>) returns (ok: bool, result: Zones, owners: map<string, string>)
    ensures ok ==> ZonesClaimed(v, v.Keys, result, owners)
    ensures !ok ==> !WellFormed(v, v.Keys)
  {
    result, owners := map[], map[];
    var todo := v.Keys;
    ghost var all, done: set<string> := v.Keys, {};
    while todo != {}
      invariant Parted(all, done, todo)
      invariant ZonesClaimed(v, done, result, owners)
      decreases |todo|
    {
      var zone :| zone in todo;
      PartedMore(all, done, todo, zone);
      ok, result, owners := ClaimZone(v, done, result, owners, zone);
      if !ok { return; }
      todo, done := todo - {zone}, done + {zone};
    }
    assert done == all;
    ok := true;
  }

  method ZoneListsLoop(v: map<string, Entry>) returns (r: Option<Zones>)
    ensures r == ZoneLists(ByZone(v))
  {
    var ok, result, owners := ClaimAll(v);
    if !ok { return None; }
    assert result == Lists(v);
    r := Some(result);
  }

  // ---------- _compact and as_zone_map ----------

  function Compacted(entries: seq<string>): Entry {
    if |entries| == 1 then One(entries[0]) else Many(Texts(SortedKeys(set s <- entries)))
  }

  function Texts(s: seq<string>): seq<Option<string>> {
    seq(|s|, i requires 0 <= i < |s| => Some(s[i]))
  }

  function Compact(zones: Zones): map<string, Entry> {
    map z | z in zones :: Compacted(zones[z])
  }

  /** A zone map whose lists are sorted, without repetitions, nonempty and disjoint. */
  predicate Readable(zones: Zones) {
    && (forall z <- zones :: z != "" && zones[z] != [] && zones[z] == SortedKeys(set s <- zones[z]) && "" !in zones[z])
    && (forall y <- zones, z <- zones, s <- zones[y] :: s in zones[z] ==> y == z)
  }

  lemma SortedKeysOnce(keys: set<string>)
    ensures (set s <- SortedKeys(keys)) == keys
    ensures SortedKeys(keys) == [] <==> keys == {}
  {
  }

  lemma UsableHasSome(e: Entry)
    requires Usable(e)
    ensures SubnetsOf(e) != {} && "" !in SubnetsOf(e)
  {
    if e.Many? {
      assert e.items[0] in e.items;
      assert e.items[0].value in SubnetsOf(e);
    }
  }

  lemma ListsReadable(v: map<string, Entry>)
    requires WellFormed(v, v.Keys)
    ensures Readable(Lists(v))
  {
    var zones := Lists(v);
    forall z | z in zones
      ensures z != "" && zones[z] != [] && zones[z] == SortedKeys(set s <- zones[z]) && "" !in zones[z]
    {
      SortedKeysOnce(SubnetsOf(v[z]));
      UsableHasSome(v[z]);
    }
  }

  lemma CompactedBack(entries: seq<string>)
    requires entries != [] && entries == SortedKeys(set s <- entries) && "" !in entries
    ensures Usable(Compacted(entries)) && SubnetsOf(Compacted(entries)) == set s <- entries
  {
    var keys := set s <- entries;
    SortedKeysAscend(keys);
    var texts := Texts(entries);
    if |entries| != 1 {
      forall x | x in texts ensures x.Some? && x.value != "" && x.value in entries {
        var i :| 0 <= i < |texts| && texts[i] == x;
        assert entries[i] in entries;
      }
      forall s | s in entries ensures s in SubnetsOf(Many(texts)) {
        var i :| 0 <= i < |entries| && entries[i] == s;
        assert texts[i] == Some(s);
      }
    }
  }

  // ---------- as_zone_map ----------

  function InZone(subnetZones: map<string, string>, zone: string): set<string> {
    set s <- subnetZones | subnetZones[s] == zone
  }

  /** The live subnets by zone. */
  function ByZones(subnetZones: map<string, string>): Zones {
    map z | z in subnetZones.Values :: SortedKeys(InZone(subnetZones, z))
  }

  function AsZoneMap(subnetZones: map<string, string>): Option<map<string, Entry>> {
    if "" in subnetZones.Values then None else Some(Compact(ByZones(subnetZones)))
  }

  /** What is planned can be read back, and says the same. */
  lemma CompactRoundTrip(zones: Zones)
    requires Readable(zones)
    ensures ZoneLists(ByZone(Compact(zones))) == Some(zones)
  {
    var v := Compact(zones);
    forall z | z in zones
      ensures Usable(v[z]) && SubnetsOf(v[z]) == (set s <- zones[z]) && SortedKeys(SubnetsOf(v[z])) == zones[z]
    {
      CompactedBack(zones[z]);
    }
    forall y, z | y in v && z in v && y != z ensures SubnetsOf(v[y]) !! SubnetsOf(v[z]) {
      assert forall s <- zones[y] :: s !in zones[z];
    }
    assert Lists(v) == zones;
  }

  function Here(subnetZones: map<string, string>, seen: set<string>, zone: string): set<string> {
    set s <- seen | s in subnetZones && subnetZones[s] == zone
  }

  // The dictionary has each subnet seen once, under its zone.
  predicate GroupedByZone(subnetZones: map<string, string>, seen: set<string>, zones: Zones) {
    && (forall s <- seen :: s in subnetZones && subnetZones[s] in zones)
    && (forall z <- zones :: zones[z] != [] && multiset(zones[z]) == multiset(Here(subnetZones, seen, z)))
  }

  lemma HereMore(subnetZones: map<string, string>, seen: set<string>, s: string, zone: string)
    requires s in subnetZones && s !in seen
    ensures multiset(Here(subnetZones, seen + {s}, zone))
         == multiset(Here(subnetZones, seen, zone)) + if subnetZones[s] == zone then multiset{s} else multiset{}
  {
    assert Here(subnetZones, seen + {s}, zone)
        == Here(subnetZones, seen, zone) + if subnetZones[s] == zone then {s} else {};
  }

  function UnderZone(subnetZones: map<string, string>, zones: Zones, s: string): Zones
    requires s in subnetZones
  {
    var z := subnetZones[s];
    zones[z := (if z in zones then zones[z] else []) + [s]]
  }

  lemma GroupedMore(subnetZones: map<string, string>, seen: set<string>, zones: Zones, s: string)
    requires GroupedByZone(subnetZones, seen, zones) && s in subnetZones && s !in seen
    ensures GroupedByZone(subnetZones, seen + {s}, UnderZone(subnetZones, zones, s))
  {
    var z := subnetZones[s];
    if z !in zones { assert Here(subnetZones, seen, z) == {}; }
    forall y | y in zones || y == z
      ensures multiset(UnderZone(subnetZones, zones, s)[y]) == multiset(Here(subnetZones, seen + {s}, y))
    {
      HereMore(subnetZones, seen, s, y);
    }
  }

  lemma SameCompacted(entries: seq<string>, keys: set<string>)
    requires multiset(entries) == multiset(keys)
    ensures Compacted(entries) == Compacted(SortedKeys(keys))
  {
    SortedKeysAscend(keys);
    SortedKeysOnce(keys);
    var sorted := SortedKeys(keys);
    assert |multiset(entries)| == |entries| && |multiset(sorted)| == |sorted|;
    assert forall s :: s in entries <==> s in multiset(keys);
    assert (set s <- entries) == keys;
    if |entries| == 1 {
      assert entries[0] in multiset(keys) && sorted[0] in multiset(keys);
    }
  }

  lemma NextKey(keys: set<string>, i: nat)
    requires i < |SortedKeys(keys)|
    ensures var order := SortedKeys(keys);
      order[i] in keys && order[i] !in order[..i] && forall s :: s in order[..i + 1] <==> s in order[..i] || s == order[i]
  {
    SortedKeysAscend(keys);
    var order := SortedKeys(keys);
    assert order[..i + 1] == order[..i] + [order[i]];
    assert order[i] in order;
  }

  lemma GroupedDone(subnetZones: map<string, string>, seen: set<string>, zones: Zones)
    requires GroupedByZone(subnetZones, seen, zones) && seen == subnetZones.Keys
    ensures Compact(zones) == Compact(ByZones(subnetZones))
  {
    forall z | z in zones
      ensures z in subnetZones.Values && Compacted(zones[z]) == Compacted(SortedKeys(InZone(subnetZones, z)))
    {
      assert zones[z][0] in multiset(zones[z]);
      assert Here(subnetZones, subnetZones.Keys, z) == InZone(subnetZones, z);
      SameCompacted(zones[z], InZone(subnetZones, z));
    }
  }

  // The loop of as_zone_map over the subnets in order; None when a zone is not known.
  method ZoneMapLoop(subnetZones: map<string, string>) returns (r: Option<map<string, Entry>>)
    ensures r == AsZoneMap(subnetZones)
  {
    var result: Zones := map[];
    var order := SortedKeys(subnetZones.Keys);
    ghost var seen: set<string> := {};
    var i := 0;
    while i < |order|
      invariant 0 <= i <= |order|
      invariant forall s :: s in seen <==> s in order[..i]
      invariant forall s <- seen :: s in subnetZones && subnetZones[s] != ""
      invariant GroupedByZone(subnetZones, seen, result)
    {
      var subnet := order[i];
      NextKey(subnetZones.Keys, i);
      var zone := subnetZones[subnet];
      if zone == "" { return None; }
      GroupedMore(subnetZones, seen, result, subnet);
      result, seen := UnderZone(subnetZones, result, subnet), seen + {subnet};
      i := i + 1;
    }
    assert order[..|order|] == order;
    GroupedDone(subnetZones, seen, result);
    r := Some(Compact(result));
  }

  // ---------- effective_additions ----------

  function Ids(zones: Zones): set<string> {
    set z, s | z in zones && s in zones[z] :: s
  }

  /** Some subnet stands under different zones in the two maps. */
  predicate Moves(configured: Zones, retained: Zones) {
    exists y <- configured, z <- retained, s <- configured[y] :: s in retained[z] && y != z
  }

  function Effective(configured: Config, retained: Config, allowRemoval: bool): Option<map<string, Entry>> {
    match (ZoneLists(configured), ZoneLists(retained))
    case (Some(c), Some(r)) =>
      if c == map[] then Some(if allowRemoval then map[] else Compact(r))
      else if !(Ids(r) <= Ids(c)) && !allowRemoval then None
      else if Moves(c, r) then None
      else Some(Compact(c))
    case _ => None
  }

  /** The planned map has the subnet under the zone. */
  predicate Plans(planned: map<string, Entry>, subnet: string, zone: string) {
    zone in planned && subnet in SubnetsOf(planned[zone])
  }

  lemma CompactPlans(zones: Zones, subnet: string, zone: string)
    ensures Plans(Compact(zones), subnet, zone) <==> zone in zones && subnet in zones[zone]
  {
    if zone in zones {
      var entries := zones[zone];
      var keys := set s <- entries;
      var texts := Texts(SortedKeys(keys));
      if |entries| != 1 {
        if subnet in entries {
          assert subnet in keys && subnet in SortedKeys(keys);
          var i :| 0 <= i < |SortedKeys(keys)| && SortedKeys(keys)[i] == subnet;
          assert texts[i] == Some(subnet);
        }
        if subnet in SubnetsOf(Many(texts)) {
          var i :| 0 <= i < |texts| && texts[i] == Some(subnet);
          assert SortedKeys(keys)[i] in keys;
        }
      }
    }
  }

  /**
    Without authorised removal every retained subnet stays, under its zone; even with it
    none is moved to another zone. With something configured the plan is what is configured.
    */
  lemma EffectiveKeeps(configured: Config, retained: Config, allowRemoval: bool, subnet: string, zone: string)
    requires Effective(configured, retained, allowRemoval).Some?
    ensures var planned := Effective(configured, retained, allowRemoval).value;
      var c, r := ZoneLists(configured).value, ZoneLists(retained).value;
      && (!allowRemoval && zone in r && subnet in r[zone] ==> Plans(planned, subnet, zone))
      && (Plans(planned, subnet, zone) ==> forall z <- r :: subnet in r[z] ==> z == zone)
      && (c != map[] ==> (Plans(planned, subnet, zone) <==> zone in c && subnet in c[zone]))
  {
    var c, r := ZoneLists(configured).value, ZoneLists(retained).value;
    CompactPlans(c, subnet, zone);
    CompactPlans(r, subnet, zone);
    if c != map[] && !allowRemoval && zone in r && subnet in r[zone] {
      assert subnet in Ids(r);
    }
  }

  lemma ReadBack(c: Config)
    requires ZoneLists(c).Some?
    ensures Readable(ZoneLists(c).value) && ZoneLists(ByZone(Compact(ZoneLists(c).value))) == ZoneLists(c)
    ensures !Moves(ZoneLists(c).value, ZoneLists(c).value)
  {
    if c.ByZone? { ListsReadable(c.zones); }
    CompactRoundTrip(ZoneLists(c).value);
  }

  /** A plan can be read back as configuration, and planning with it gives it again. */
  lemma PlanIsStable(configured: Config, retained: Config, allowRemoval: bool)
    requires Effective(configured, retained, allowRemoval).Some?
    ensures var plan := Effective(configured, retained, allowRemoval).value;
      && ZoneLists(ByZone(plan)).Some?
      && Effective(ByZone(plan), retained, allowRemoval) == Some(plan)
  {
    ReadBack(configured);
    ReadBack(retained);
  }

  // ---------- Any number of runs ----------

  /** What one deployment finds and is given. `baseline` is None when it cannot be determined. */
  datatype Deployment = Deployment(configured: Config, allowRemoval: bool, baseline: Option<set<string>>,
                                   managed: set<string>, zones: map<string, string>)

  /** live_additions. */
  function LiveAdditions(d: Deployment, live: set<string>): Option<set<string>> {
    if live == {} then Some({})
    else if d.baseline.None? then None
    else
      var additions := live - d.baseline.value;
      if additions * d.managed != {} then None else Some(additions)
  }

  function ZonesOf(d: Deployment, subnets: set<string>): map<string, string> {
    map s | s in subnets :: if s in d.zones then d.zones[s] else ""
  }

  function Planned(d: Deployment, live: set<string>): Option<map<string, Entry>> {
    var additions := LiveAdditions(d, live);
    if additions.None? then None else
      var retained := AsZoneMap(ZonesOf(d, additions.value));
      if retained.None? then None else Effective(d.configured, ByZone(retained.value), d.allowRemoval)
  }

  function PlannedIds(planned: map<string, Entry>): set<string> {
    set z, s | z in planned && s in SubnetsOf(planned[z]) :: s
  }

  /** The cluster's subnets after a deployment; a refused one changes nothing. */
  function Deploy(live: set<string>, d: Deployment): set<string> {
    var planned := Planned(d, live);
    if planned.None? then live
    else (if d.baseline.Some? then d.baseline.value else {}) + PlannedIds(planned.value)
  }

  function DeployAll(live: set<string>, runs: seq<Deployment>): set<string> {
    if runs == [] then live else Deploy(DeployAll(live, runs[..|runs| - 1]), runs[|runs| - 1])
  }

  lemma RetainedPlanned(d: Deployment, live: set<string>, s: string)
    requires !d.allowRemoval && Planned(d, live).Some? && s in LiveAdditions(d, live).value
    ensures s in PlannedIds(Planned(d, live).value)
  {
    var m := ZonesOf(d, LiveAdditions(d, live).value);
    var retained := AsZoneMap(m).value;
    var z := m[s];
    assert z in m.Values && s in InZone(m, z);
    CompactPlans(ByZones(m), s, z);
    assert z in ZoneLists(ByZone(retained)).value && s in ZoneLists(ByZone(retained)).value[z];
    EffectiveKeeps(d.configured, ByZone(retained), false, s, z);
    assert Plans(Planned(d, live).value, s, z);
  }

  lemma DeployKeeps(live: set<string>, d: Deployment)
    requires !d.allowRemoval
    ensures live <= Deploy(live, d)
  {
    if Planned(d, live).Some? {
      forall s | s in live ensures s in Deploy(live, d) {
        if d.baseline.None? || s !in d.baseline.value { RetainedPlanned(d, live, s); }
      }
    }
  }

  /** However configuration changes from run to run, no live subnet is ever lost. */
  lemma {:induction false} NeverNarrows(live: set<string>, runs: seq<Deployment>)
    requires forall d <- runs :: !d.allowRemoval
    ensures live <= DeployAll(live, runs)
  {
    if runs != [] {
      NeverNarrows(live, runs[..|runs| - 1]);
      DeployKeeps(DeployAll(live, runs[..|runs| - 1]), runs[|runs| - 1]);
    }
  }
}
