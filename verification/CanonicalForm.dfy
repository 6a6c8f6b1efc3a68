/**
  The normal form of Canonical is complete: two values have the same one exactly when they
  are equal up to the order of lists, at every depth.
  */
module CanonicalForm {
  import opened JsonText
  import opened Rearrangement
  import opened Sorting
  import opened Canonical

  lemma ByTextOrders()
    ensures Total(ByText) && Antisymmetric(ByText)
  {
    forall a, b ensures ByText(a, b) || ByText(b, a) {
      AtMostTotal(Dumps(a), Dumps(b));
    }
    forall a, b, c | ByText(a, b) && ByText(b, c) ensures ByText(a, c) {
      AtMostTransitive(Dumps(a), Dumps(b), Dumps(c));
    }
    forall a, b | ByText(a, b) && ByText(b, a) ensures a == b {
      AtMostAntisymmetric(Dumps(a), Dumps(b));
      DumpsInjective(a, b);
    }
  }

  lemma {:induction false} EquivNormalizeSame(a: Json, b: Json)
    requires Equiv(a, b)
    ensures Normalize(a) == Normalize(b)
    decreases a
  {
    match a
    case Arr(items) =>
      var p :| Rearranges(p, |items|) && forall i :: 0 <= i < |items| ==> Equiv(items[i], b.items[p[i]]);
      forall i | 0 <= i < |items| ensures NormalizeItems(a)[i] == NormalizeItems(b)[p[i]] {
        EquivNormalizeSame(items[i], b.items[p[i]]);
      }
      RearrangedSame(NormalizeItems(a), NormalizeItems(b), p);
      ByTextOrders();
      SortCanonical(NormalizeItems(a), NormalizeItems(b), ByText);
    case Obj(fields) =>
      forall k | k in fields ensures Normalize(fields[k]) == Normalize(b.fields[k]) {
        EquivNormalizeSame(fields[k], b.fields[k]);
      }
      assert Normalize(a).fields == Normalize(b).fields;
    case _ =>
  }

  lemma {:induction false} NormalizeSameEquiv(a: Json, b: Json)
    requires Normalize(a) == Normalize(b)
    ensures Equiv(a, b)
    decreases a
  {
    match a
    case Arr(items) =>
      ByTextOrders();
      SortCanonical(NormalizeItems(a), NormalizeItems(b), ByText);
      var p := RearrangementOf(NormalizeItems(a), NormalizeItems(b));
      forall i | 0 <= i < |items| ensures Equiv(items[i], b.items[p[i]]) {
        assert NormalizeItems(a)[i] == NormalizeItems(b)[p[i]];
        NormalizeSameEquiv(items[i], b.items[p[i]]);
      }
    case Obj(fields) =>
      assert Normalize(a).fields.Keys == fields.Keys && Normalize(b).fields.Keys == b.fields.Keys;
      forall k | k in fields ensures Equiv(fields[k], b.fields[k]) {
        assert Normalize(a).fields[k] == Normalize(b).fields[k];
        NormalizeSameEquiv(fields[k], b.fields[k]);
      }
    case _ =>
  }

  /** Normal forms are complete: equal exactly for values equal up to the order of lists. */
  lemma NormalFormComplete(a: Json, b: Json)
    ensures Normalize(a) == Normalize(b) <==> Equiv(a, b)
  {
    if Normalize(a) == Normalize(b) { NormalizeSameEquiv(a, b); }
    if Equiv(a, b) { EquivNormalizeSame(a, b); }
  }

  /** A normal form is its own normal form, and only reorders the value. */
  lemma {:induction false} NormalizeIdempotent(a: Json)
    ensures Normalize(Normalize(a)) == Normalize(a)
    ensures Equiv(a, Normalize(a))
    decreases a
  {
    var n := Normalize(a);
    match a {
      case Arr(items) =>
        var s := NormalizeItems(a);
        SortPermutes(s, ByText);
        forall i | 0 <= i < |items| ensures Normalize(s[i]) == s[i] {
          NormalizeIdempotent(items[i]);
        }
        forall i | 0 <= i < |n.items| ensures NormalizeItems(n)[i] == n.items[i] {
          assert n.items[i] in multiset(s);
          var k :| 0 <= k < |s| && s[k] == n.items[i];
        }
        assert NormalizeItems(n) == n.items;
        ByTextOrders();
        SortCanonical(n.items, s, ByText);
      case Obj(fields) =>
        forall k | k in fields ensures Normalize(n.fields[k]) == n.fields[k] {
          NormalizeIdempotent(fields[k]);
        }
        assert Normalize(n).fields == n.fields;
      case _ =>
    }
    NormalFormComplete(a, n);
  }

  /** Being equal up to the order of lists is an equivalence. */
  lemma EquivIsEquivalence(a: Json, b: Json, c: Json)
    ensures Equiv(a, a)
    ensures Equiv(a, b) <==> Equiv(b, a)
    ensures Equiv(a, b) && Equiv(b, c) ==> Equiv(a, c)
  {
    NormalFormComplete(a, a);
    NormalFormComplete(a, b);
    NormalFormComplete(b, a);
    NormalFormComplete(b, c);
    NormalFormComplete(a, c);
  }
}
