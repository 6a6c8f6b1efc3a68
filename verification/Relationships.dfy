/**
  Dated relationships of modules/insights/projection.py: which version of each link is
  in force, and the business context of one fact. Times are integer instants.
  */
module Relationships {
  import opened Options
  import opened Sequences
  import opened Versions

  /** An exact native reference; two references are the same identity when equal. */
  datatype Ref = Ref(tenant: string, project: string, connection: string, kind: string, id: string, revision: string)

  /** `_identity` accepts it. */
  predicate Exact(r: Ref) {
    && r.tenant != "" && r.project != "" && r.connection != "" && r.kind != "" && r.id != "" && r.revision != ""
    && r.revision != "latest" && r.revision != "null"
  }

  /** `_identity(r)[:5]`. */
  function Unversioned(r: Ref): Ref {
    r.(revision := "")
  }

  datatype Link = Link(from: Ref, to: Ref, id: string, revision: string, kind: string, connection: string,
                       mapping: string, validFrom: int, validTo: Option<int>, recordedAt: int, sources: seq<Ref>)

  predicate ValidLink(l: Link) {
    && Exact(l.from) && Exact(l.to)
    && l.id != "" && l.revision != "" && l.kind != "" && l.connection != "" && l.mapping != ""
    && l.from.tenant == l.to.tenant
    && (l.validTo.Some? ==> l.validFrom < l.validTo.value)
  }

  datatype LinkKey = LinkKey(tenant: string, fromProject: string, toProject: string, connection: string, kind: string, id: string)

  function KeyOf(l: Link): LinkKey {
    LinkKey(l.from.tenant, l.from.project, l.to.project, l.connection, l.kind, l.id)
  }

  function RecordedAt(l: Link): int { l.recordedAt }

  /** The half-open interval test of the source. */
  predicate InForce(start: int, end: Option<int>, effective: int) {
    start <= effective && (end.None? || effective < end.value)
  }

  /** `select_dated_relationships`; None is the source's ValueError. */
  function SelectDated(links: seq<Link>, effective: int, known: int): Option<seq<Link>> {
    if exists l <- links :: !ValidLink(l) then None
    else
      var t := Scan(links, KeyOf, RecordedAt, known);
      if t.None? then None
      else
        ScanChooses(links, KeyOf, RecordedAt, known);
        Some(Filter(Selected(t.value), (l: Link) => InForce(l.validFrom, l.validTo, effective)))
  }

  /** The loop of the source, with its dictionary and the order of its keys. */
  method SelectDatedLoop(links: seq<Link>, effective: int, known: int) returns (r: Option<seq<Link>>)
    ensures r == SelectDated(links, effective, known)
  {
    var versions: map<LinkKey, Link>, order: seq<LinkKey> := map[], [];
    for i := 0 to |links|
      invariant forall j | 0 <= j < i :: ValidLink(links[j])
      invariant Scan(links[..i], KeyOf, RecordedAt, known) == Some(Table(versions, order))
    {
      var l := links[i];
      assert links[..i + 1][..i] == links[..i];
      if !ValidLink(l) { return None; }
      if l.recordedAt <= known {
        var key := KeyOf(l);
        if key in versions && versions[key].recordedAt == l.recordedAt && versions[key] != l {
          RefusalStays(links, i + 1, KeyOf, RecordedAt, known);
          return None;
        }
        if key !in versions {
          versions, order := versions[key := l], order + [key];
        } else if versions[key].recordedAt < l.recordedAt {
          versions := versions[key := l];
        }
      }
    }
    assert links[..|links|] == links;
    ScanChooses(links, KeyOf, RecordedAt, known);
    r := Some(Filter(Selected(Table(versions, order)), (l: Link) => InForce(l.validFrom, l.validTo, effective)));
  }

  /** What a returned selection is: of each relationship the strictly latest known
      version, and only if it is in force at `effective`. */
  lemma SelectDatedMeaning(links: seq<Link>, effective: int, known: int, l: Link)
    requires SelectDated(links, effective, known).Some?
    ensures l in SelectDated(links, effective, known).value
       <==> StrictlyLatest(links, l, KeyOf, RecordedAt, known) && InForce(l.validFrom, l.validTo, effective)
  {
    SelectedExactly(links, l, KeyOf, RecordedAt, known);
    FilterMembers(Selected(Scan(links, KeyOf, RecordedAt, known).value),
                  (x: Link) => InForce(x.validFrom, x.validTo, effective));
  }

  /** When the selection refuses: a malformed link anywhere, or a clash of versions. */
  lemma SelectDatedRefuses(links: seq<Link>, effective: int, known: int)
    ensures SelectDated(links, effective, known).None?
       <==> (exists l <- links :: !ValidLink(l)) || exists i, j: nat :: Clash(links, i, j, KeyOf, RecordedAt, known)
  {
    RefusesExactlyClashes(links, KeyOf, RecordedAt, known);
  }

  /** Any two orders of the same links that both return select the same links. */
  lemma SelectDatedOrderIrrelevant(a: seq<Link>, b: seq<Link>, effective: int, known: int, l: Link)
    requires forall x :: x in a <==> x in b
    requires SelectDated(a, effective, known).Some? && SelectDated(b, effective, known).Some?
    ensures l in SelectDated(a, effective, known).value <==> l in SelectDated(b, effective, known).value
  {
    SelectDatedMeaning(a, effective, known, l);
    SelectDatedMeaning(b, effective, known, l);
    assert StrictlyLatest(a, l, KeyOf, RecordedAt, known) <==> StrictlyLatest(b, l, KeyOf, RecordedAt, known);
  }

  /** Two different versions of a relationship tied at its latest known time always raise. */
  lemma SelectDatedLatestTie(links: seq<Link>, effective: int, known: int, v: Link, w: Link)
    requires v in links && w in links && v != w && KeyOf(v) == KeyOf(w)
    requires v.recordedAt == w.recordedAt <= known
    requires forall x <- links | KeyOf(x) == KeyOf(v) && x.recordedAt <= known :: x.recordedAt <= v.recordedAt
    ensures SelectDated(links, effective, known).None?
  {
    LatestTieAlwaysRefused(links, v, w, KeyOf, RecordedAt, known);
  }
}
