/**
  What `derive` accepts and what it leaves, read off the occurrences and decisions one by
  one, without its tables.
  */
module DecisionMeaning {
  import opened Options
  import opened Sequences
  import opened Keyed
  import opened Findings
  import opened Disposition
  import opened DispositionSafety

  // ---------- the inventory ----------

  predicate HasResult(occurrences: seq<Occurrence>, i: nat) {
    exists o <- occurrences :: o.resultIndex == i
  }

  predicate EachResult(occurrences: seq<Occurrence>, n: nat) {
    (forall o <- occurrences :: o.resultIndex < n) && forall i: nat :: i < n ==> HasResult(occurrences, i)
  }

  predicate EligibleApart(occurrences: seq<Occurrence>) {
    forall i, j :: 0 <= i < j < |occurrences| && occurrences[i].eligible && occurrences[j].eligible ==>
      occurrences[i].nativeSha != occurrences[j].nativeSha
  }

  predicate OneMemberEach(occurrences: seq<Occurrence>) {
    forall o <- occurrences, p <- occurrences, a <- o.members, b <- p.members :: a.nativeSha == b.nativeSha ==> a == b
  }

  /** Every result has one occurrence, no two eligible ones share a native digest, no digest
      stands for two native members, and there are as many digests as results. */
  predicate Sound(occurrences: seq<Occurrence>, n: nat) {
    && |occurrences| == n && EachResult(occurrences, n) && EligibleApart(occurrences) && OneMemberEach(occurrences)
    && |Digests(occurrences)| == n
  }

  function Digests(occurrences: seq<Occurrence>): set<string> {
    set o, m | o in occurrences && m in o.members :: m.nativeSha
  }

  lemma {:induction false} FilterPairs<T, K>(s: seq<T>, keep: T -> bool, key: T -> K)
    ensures Distinct(Filter(s, keep), key)
       <==> forall i, j :: 0 <= i < j < |s| && keep(s[i]) && keep(s[j]) ==> key(s[i]) != key(s[j])
  {
    if s != [] {
      var front, last := s[..|s| - 1], s[|s| - 1];
      assert s == front + [last];
      FilterPairs(front, keep, key);
      FilterSnoc(front, last, keep);
      var kept := Filter(front, keep);
      if keep(last) {
        DistinctSnoc(kept, last, key);
        KeptKeys(front, keep, key, key(last));
      }
      PairsSnoc(front, last, keep, key);
    }
  }

  lemma KeptKeys<T, K>(s: seq<T>, keep: T -> bool, key: T -> K, k: K)
    ensures k in KeysOf(Filter(s, keep), key) <==> exists x <- s :: keep(x) && key(x) == k
  {
    FilterMembers(s, keep);
    KeysOfMeans(Filter(s, keep), key);
    if k in KeysOf(Filter(s, keep), key) {
      var x := KeyFrom(Filter(s, keep), key, k);
    }
    if exists x <- s :: keep(x) && key(x) == k {
      var x :| x in s && keep(x) && key(x) == k;
      assert x in Filter(s, keep);
    }
  }

  lemma PairsSnoc<T, K>(front: seq<T>, last: T, keep: T -> bool, key: T -> K)
    ensures var s := front + [last];
      (forall i, j :: 0 <= i < j < |s| && keep(s[i]) && keep(s[j]) ==> key(s[i]) != key(s[j])) <==>
        && (forall i, j :: 0 <= i < j < |front| && keep(front[i]) && keep(front[j]) ==> key(front[i]) != key(front[j]))
        && (keep(last) ==> forall x <- front :: keep(x) ==> key(x) != key(last))
  {
    var s := front + [last];
    if forall i, j :: 0 <= i < j < |s| && keep(s[i]) && keep(s[j]) ==> key(s[i]) != key(s[j]) {
      forall i, j | 0 <= i < j < |front| && keep(front[i]) && keep(front[j]) ensures key(front[i]) != key(front[j]) {
        assert s[i] == front[i] && s[j] == front[j];
      }
      forall x | x in front && keep(x) && keep(last) ensures key(x) != key(last) {
        var i :| 0 <= i < |front| && front[i] == x;
        assert s[i] == x && s[|front|] == last;
      }
    }
  }

  lemma {:induction false} MembersExactly(occurrences: seq<Occurrence>, m: Member)
    ensures m in AllMembers(occurrences) <==> exists o <- occurrences :: m in o.members
  {
    if occurrences != [] {
      var front, last := occurrences[..|occurrences| - 1], occurrences[|occurrences| - 1];
      MembersExactly(front, m);
      assert occurrences == front + [last];
    }
  }

  lemma DigestsExactly(occurrences: seq<Occurrence>)
    ensures Digests(occurrences) == KeysOf(AllMembers(occurrences), ShaOf)
  {
    var all := AllMembers(occurrences);
    KeysOfMeans(all, ShaOf);
    forall m ensures m in all <==> exists o <- occurrences :: m in o.members {
      MembersExactly(occurrences, m);
    }
    forall k ensures k in Digests(occurrences) <==> k in KeysOf(all, ShaOf) {
      if k in Digests(occurrences) {
        var o, m :| o in occurrences && m in o.members && m.nativeSha == k;
        assert m in all && ShaOf(m) == k;
      }
    }
  }

  lemma ConsistentExactly(occurrences: seq<Occurrence>)
    ensures Consistent(AllMembers(occurrences)) <==> OneMemberEach(occurrences)
  {
    var all := AllMembers(occurrences);
    forall m ensures m in all <==> exists o <- occurrences :: m in o.members {
      MembersExactly(occurrences, m);
    }
  }

  lemma IndexesExactly(occurrences: seq<Occurrence>, n: nat)
    ensures KeysOf(occurrences, IndexOf) == Range(n) <==> EachResult(occurrences, n)
  {
    var keys := KeysOf(occurrences, IndexOf);
    KeysOfMeans(occurrences, IndexOf);
    forall i: nat ensures i in keys <==> HasResult(occurrences, i) {
      if i in keys { var o := KeyFrom(occurrences, IndexOf, i); }
      if HasResult(occurrences, i) {
        var o :| o in occurrences && o.resultIndex == i;
        assert IndexOf(o) in keys;
      }
    }
    if keys == Range(n) {
      forall o | o in occurrences ensures o.resultIndex < n { assert IndexOf(o) in keys; }
    }
    if EachResult(occurrences, n) {
      forall i: nat | i in keys ensures i < n { assert HasResult(occurrences, i); }
      assert forall i :: i in keys <==> i in Range(n);
    }
  }

  lemma EligibleExactly(occurrences: seq<Occurrence>)
    ensures |Table(occurrences)| == |EligibleOnes(occurrences)| <==> EligibleApart(occurrences)
  {
    KeysCount(EligibleOnes(occurrences), NativeOf);
    FilterPairs(occurrences, IsEligible, NativeOf);
    assert |Table(occurrences)| == |Table(occurrences).Keys|;
    if EligibleApart(occurrences) {
      forall i, j | 0 <= i < j < |occurrences| && IsEligible(occurrences[i]) && IsEligible(occurrences[j])
        ensures NativeOf(occurrences[i]) != NativeOf(occurrences[j])
      {
      }
    }
    if Distinct(EligibleOnes(occurrences), NativeOf) {
      forall i, j | 0 <= i < j < |occurrences| && occurrences[i].eligible && occurrences[j].eligible
        ensures occurrences[i].nativeSha != occurrences[j].nativeSha
      {
        assert IsEligible(occurrences[i]) && IsEligible(occurrences[j]);
        assert NativeOf(occurrences[i]) != NativeOf(occurrences[j]);
      }
    }
  }

  lemma DigestCount(occurrences: seq<Occurrence>)
    ensures |Index(AllMembers(occurrences), ShaOf)| == |Digests(occurrences)|
  {
    DigestsExactly(occurrences);
    KeysCount(AllMembers(occurrences), ShaOf);
    var index := Index(AllMembers(occurrences), ShaOf);
    assert |index| == |index.Keys|;
  }

  lemma InventoriedExactly(occurrences: seq<Occurrence>, n: nat)
    ensures Inventoried(occurrences, n) <==> Sound(occurrences, n)
  {
    IndexesExactly(occurrences, n);
    EligibleExactly(occurrences);
    ConsistentExactly(occurrences);
    DigestCount(occurrences);
  }

  // ---------- one decision ----------

  /** The decision is complete: a known status, a reason, the evidence of exactly its roles,
      all of it retained, and a package artifact exactly for a fix. */
  ghost predicate Complete(review: Review, d: Decision) {
    && (exists c <- d.rationale :: !IsSpace(c))
    && (forall role <- d.evidence :: d.evidence[role] in review.evidence)
    && ((d.status == "fixed"
         && (forall role :: role in d.evidence <==>
               role == "independent_review" || role == "source" || role == "patch" || role == "regression" || role == "build")
         && d.artifact.Some? && d.artifact.value in review.evidence)
        || (d.status == "not_affected"
            && (forall role :: role in d.evidence <==> role == "independent_review" || role == "applicability")
            && d.artifact.None?))
  }

  predicate IsComponent(review: Review, o: Occurrence) {
    && review.observation.components.Some? && o.sole.Some?
    && o.sole.value.package.id in review.observation.components.value
  }

  /** The decision is of the one package of the occurrence: an inspected component, or an
      installed package with these files, inspected too if it is a fix. */
  predicate AboutPackage(review: Review, d: Decision, o: Occurrence) {
    && o.sole.Some?
    && if IsComponent(review, o) then review.examined(d, o)
       else
         var purl := o.sole.value.package.purl;
         && purl in review.observation.packages && review.observation.packages[purl].package == o.sole.value.package
         && |d.files| > 0
         && (forall path <- d.files ::
               path in review.observation.packages[purl].files && review.observation.packages[purl].files[path] == d.files[path])
         && (d.status != "fixed" || review.examined(d, o))
  }

  lemma DocumentedExactly(review: Review, d: Decision)
    ensures Documented(review, d) <==> Complete(review, d)
  {
    assert Blank(d.rationale) <==> !exists c <- d.rationale :: !IsSpace(c);
    assert d.evidence.Values <= review.evidence <==> forall role <- d.evidence :: d.evidence[role] in review.evidence by {
      if d.evidence.Values <= review.evidence {
        forall role | role in d.evidence ensures d.evidence[role] in review.evidence {
          assert d.evidence[role] in d.evidence.Values;
        }
      }
    }
    RolesExactly(d);
  }

  lemma RolesExactly(d: Decision)
    ensures d.status == "fixed" ==> (d.evidence.Keys == Roles(d.status) <==> forall role :: role in d.evidence <==>
      role == "independent_review" || role == "source" || role == "patch" || role == "regression" || role == "build")
    ensures d.status == "not_affected" ==> (d.evidence.Keys == Roles(d.status) <==> forall role :: role in d.evidence <==>
      role == "independent_review" || role == "applicability")
  {
    assert forall role :: role in Roles("fixed") <==>
      role == "independent_review" || role == "source" || role == "patch" || role == "regression" || role == "build";
    assert "not_affected" != "fixed" by { assert |"not_affected"| != |"fixed"|; }
    assert forall role :: role in Roles("not_affected") <==> role == "independent_review" || role == "applicability";
    if forall role :: role in d.evidence <==> role in Roles(d.status) { assert d.evidence.Keys == Roles(d.status); }
  }

  lemma BoundExactly(review: Review, d: Decision, o: Occurrence)
    ensures Bound(review, d, o) <==> AboutPackage(review, d, o)
  {
    assert |d.files| > 0 <==> d.files != map[];
  }

  /** The decision names the eligible occurrence, fits it, and finds its recorded result. */
  ghost predicate Decides(review: Review, results: seq<Result>, d: Decision, o: Occurrence) {
    && o in review.observation.occurrences && o.eligible && o.nativeSha == d.native
    && Complete(review, d) && AboutPackage(review, d, o)
    && o.resultIndex < |results| && review.resultSha(results[o.resultIndex]) == o.resultSha
  }

  lemma TableExactly(occurrences: seq<Occurrence>, n: nat, k: Option<string>)
    requires Inventoried(occurrences, n)
    ensures k in Table(occurrences) <==> exists o <- occurrences :: o.eligible && o.nativeSha == k
    ensures forall o <- occurrences | o.eligible && o.nativeSha == k :: k in Table(occurrences) && Table(occurrences)[k] == o
  {
    InventoryDistinct(occurrences, n);
    FilterMembers(occurrences, IsEligible);
    var eligible := EligibleOnes(occurrences);
    forall o | o in occurrences && o.eligible && o.nativeSha == k
      ensures k in Table(occurrences) && Table(occurrences)[k] == o
    {
      var i :| 0 <= i < |eligible| && eligible[i] == o;
      IndexAt(eligible, NativeOf, i);
    }
  }

  lemma FitsExactly(review: Review, results: seq<Result>, d: Decision)
    requires Inventoried(review.observation.occurrences, |results|)
    ensures Fits(review, Table(review.observation.occurrences), results, d)
       <==> exists o <- review.observation.occurrences :: Decides(review, results, d, o)
  {
    var occurrences := review.observation.occurrences;
    var table := Table(occurrences);
    TableExactly(occurrences, |results|, d.native);
    InventoryDistinct(occurrences, |results|);
    DocumentedExactly(review, d);
    if d.native in table { BoundExactly(review, d, table[d.native]); }
    if Fits(review, table, results, d) { assert Decides(review, results, d, table[d.native]); }
  }

  // ---------- derive ----------

  ghost predicate AllDecide(review: Review, results: seq<Result>, decisions: seq<Decision>) {
    && (forall i, j :: 0 <= i < j < |decisions| ==> decisions[i].native != decisions[j].native)
    && (forall d <- decisions :: exists o <- review.observation.occurrences :: Decides(review, results, d, o))
  }

  lemma AcceptableExactly(review: Review, results: seq<Result>, decisions: seq<Decision>)
    requires Inventoried(review.observation.occurrences, |results|)
    ensures Acceptable(review, results, decisions) <==> AllDecide(review, results, decisions)
  {
    forall d | d in decisions
      ensures Fits(review, Table(review.observation.occurrences), results, d)
         <==> exists o <- review.observation.occurrences :: Decides(review, results, d, o)
    {
      FitsExactly(review, results, d);
    }
  }

  /**
    `derive` succeeds exactly when no result is suppressed, the inventory is sound, no two
    decisions name the same digest, and each decides an eligible occurrence.
    */
  lemma DerivesExactly(review: Review, results: seq<Result>, decisions: seq<Decision>)
    ensures Derivable(review, results, decisions) <==>
      && (forall r <- results :: r.suppressions == [])
      && Sound(review.observation.occurrences, |results|) && AllDecide(review, results, decisions)
  {
    InventoriedExactly(review.observation.occurrences, |results|);
    if Inventoried(review.observation.occurrences, |results|) {
      DecidedExactly(review, results, decisions);
      AcceptableExactly(review, results, decisions);
    }
  }

  /** What a decision writes on its result: an accepted external suppression with its status,
      its reason and the pinned receipt. */
  predicate Suppressed(review: Review, d: Decision, before: Result, after: Result) {
    && after.ruleId == before.ruleId && after.physical == before.physical && after.rest == before.rest
    && after.suppressions == [Suppression("external", "accepted",
         d.status + ": " + d.rationale + "; approved receipt sha256:" + review.pin)]
  }

  /** After `derive` each result that a decision is about is suppressed by it, and every other
      result is what it was. */
  lemma DerivedResults(review: Review, results: seq<Result>, decisions: seq<Decision>)
    requires Derivable(review, results, decisions)
    ensures var after := DecideAll(review, Table(review.observation.occurrences), results, decisions).value.results;
      && |after| == |results|
      && (forall d <- decisions, o <- review.observation.occurrences | Decides(review, results, d, o) ::
            Suppressed(review, d, results[o.resultIndex], after[o.resultIndex]))
      && (forall i: nat :: i < |results|
            && (forall d <- decisions, o <- review.observation.occurrences ::
                  Decides(review, results, d, o) ==> o.resultIndex != i)
            ==> after[i] == results[i])
  {
    var occurrences := review.observation.occurrences;
    var table := Table(occurrences);
    DecidedExactly(review, results, decisions);
    var after := DecideAll(review, table, results, decisions).value.results;
    forall d, o | d in decisions && o in occurrences && Decides(review, results, d, o)
      ensures Suppressed(review, d, results[o.resultIndex], after[o.resultIndex])
    {
      TableExactly(occurrences, |results|, d.native);
    }
    forall i: nat | i < |results|
      && forall d <- decisions, o <- occurrences :: Decides(review, results, d, o) ==> o.resultIndex != i
      ensures after[i] == results[i]
    {
      forall d | d in decisions ensures d.native in table ==> table[d.native].resultIndex != i {
        FitsExactly(review, results, d);
        TableExactly(occurrences, |results|, d.native);
      }
    }
  }
}
