/**
  Decoded JSON as Python compares it: `1`, `1.0` and `true` are one value. A reading gives
  the number that a number's text stands for; it is a parameter, since binary floats are
  not modelled. Equality in Python is equality of what is read.
  */
module PythonValues {
  import opened JsonText
  import opened Rearrangement
  import opened Sorting
  import opened Canonical
  import opened CanonicalForm

  datatype Py =
    | PyNull
    | PyNumber(number: real)
    | PyStr(text: string)
    | PyArr(items: seq<Py>)
    | PyObj(fields: map<string, Py>)

  type Reading = Number -> real

  function Read(value: Reading, j: Json): Py
    decreases j
  {
    match j
    case Null => PyNull
    case Bool(on) => PyNumber(if on then 1.0 else 0.0)
    case Num(digits) => PyNumber(value(digits))
    case Str(text) => PyStr(text)
    case Arr(items) => PyArr(seq(|items|, i requires 0 <= i < |items| => Read(value, items[i])))
    case Obj(fields) => PyObj(map k | k in fields :: Read(value, fields[k]))
  }

  /** Comparing normal forms as Python does. */
  predicate SameNormal(value: Reading, a: Json, b: Json) {
    Read(value, Normalize(a)) == Read(value, Normalize(b))
  }

  /** Equal up to the order of lists, with booleans and numbers by value, at every depth. */
  ghost predicate Alike(value: Reading, a: Json, b: Json)
    decreases a
  {
    match a
    case Arr(items) =>
      b.Arr? && |b.items| == |items| &&
      exists p :: Rearranges(p, |items|) && forall i :: 0 <= i < |items| ==> Alike(value, items[i], b.items[p[i]])
    case Obj(fields) =>
      b.Obj? && fields.Keys == b.fields.Keys && forall k <- fields :: Alike(value, fields[k], b.fields[k])
    case _ => !b.Arr? && !b.Obj? && Read(value, a) == Read(value, b)
  }

  function ReadAll(value: Reading, items: seq<Json>): (r: seq<Py>)
    ensures |r| == |items|
    ensures forall i :: 0 <= i < |items| ==> r[i] == Read(value, items[i])
  {
    seq(|items|, i requires 0 <= i < |items| => Read(value, items[i]))
  }

  lemma {:induction false} ReadAllPermutes(value: Reading, s: seq<Json>, t: seq<Json>)
    requires multiset(s) == multiset(t)
    ensures multiset(ReadAll(value, s)) == multiset(ReadAll(value, t))
  {
    var p := RearrangementOf(s, t);
    RearrangedSame(ReadAll(value, s), ReadAll(value, t), p);
  }

  lemma SameNormalItems(value: Reading, a: Json, b: Json) returns (p: seq<nat>)
    requires a.Arr? && b.Arr? && SameNormal(value, a, b)
    ensures |a.items| == |b.items| && Rearranges(p, |a.items|)
    ensures forall i :: 0 <= i < |a.items| ==> SameNormal(value, a.items[i], b.items[p[i]])
  {
    var s, t := NormalizeItems(a), NormalizeItems(b);
    SortPermutes(s, ByText);
    SortPermutes(t, ByText);
    assert ReadAll(value, Sort(s, ByText)) == Read(value, Normalize(a)).items;
    assert ReadAll(value, Sort(t, ByText)) == Read(value, Normalize(b)).items;
    ReadAllPermutes(value, Sort(s, ByText), s);
    ReadAllPermutes(value, Sort(t, ByText), t);
    p := RearrangementOf(ReadAll(value, s), ReadAll(value, t));
    forall i | 0 <= i < |a.items| ensures SameNormal(value, a.items[i], b.items[p[i]]) {
      assert ReadAll(value, s)[i] == ReadAll(value, t)[p[i]];
    }
  }

  /** Equal normal forms mean values that are alike; nothing else can pass. */
  lemma {:induction false} SameNormalIsAlike(value: Reading, a: Json, b: Json)
    requires SameNormal(value, a, b)
    ensures Alike(value, a, b)
    decreases a
  {
    match a
    case Arr(items) =>
      var p := SameNormalItems(value, a, b);
      forall i | 0 <= i < |items| ensures Alike(value, items[i], b.items[p[i]]) {
        SameNormalIsAlike(value, items[i], b.items[p[i]]);
      }
    case Obj(fields) =>
      var x, y := Read(value, Normalize(a)), Read(value, Normalize(b));
      assert x.fields.Keys == fields.Keys && y.fields.Keys == b.fields.Keys;
      forall k | k in fields ensures Alike(value, fields[k], b.fields[k]) {
        assert x.fields[k] == y.fields[k];
        SameNormalIsAlike(value, fields[k], b.fields[k]);
      }
    case _ =>
  }

  // ---------- When equality by value is equality ----------

  /** The booleans and numbers in a value. */
  function Scalars(j: Json): set<Json>
    decreases j
  {
    match j
    case Bool(_) => {j}
    case Num(_) => {j}
    case Arr(items) => set i, s | 0 <= i < |items| && s in Scalars(items[i]) :: s
    case Obj(fields) => set k, s | k in fields && s in Scalars(fields[k]) :: s
    case _ => {}
  }

  predicate IsScalar(j: Json) {
    j.Bool? || j.Num?
  }

  /** No two different booleans or numbers have one value. */
  predicate Apart(value: Reading, scalars: set<Json>) {
    forall x <- scalars, y <- scalars :: Read(value, x) == Read(value, y) ==> x == y
  }

  lemma ItemScalars(j: Json, i: nat)
    requires j.Arr? && i < |j.items|
    ensures Scalars(j.items[i]) <= Scalars(j)
  {
  }

  lemma FieldScalars(j: Json, k: string)
    requires j.Obj? && k in j.fields
    ensures Scalars(j.fields[k]) <= Scalars(j)
  {
  }

  lemma {:induction false} ReadInjective(value: Reading, scalars: set<Json>, a: Json, b: Json)
    requires Apart(value, scalars) && Scalars(a) <= scalars && Scalars(b) <= scalars
    requires Read(value, a) == Read(value, b)
    ensures a == b
    decreases a
  {
    match a
    case Arr(items) =>
      assert |Read(value, a).items| == |items| && |Read(value, b).items| == |b.items|;
      forall i | 0 <= i < |items| ensures items[i] == b.items[i] {
        assert Read(value, a).items[i] == Read(value, b).items[i];
        ItemScalars(a, i);
        ItemScalars(b, i);
        ReadInjective(value, scalars, items[i], b.items[i]);
      }
    case Obj(fields) =>
      assert Read(value, a).fields.Keys == fields.Keys && Read(value, b).fields.Keys == b.fields.Keys;
      forall k | k in fields ensures fields[k] == b.fields[k] {
        assert Read(value, a).fields[k] == Read(value, b).fields[k];
        FieldScalars(a, k);
        FieldScalars(b, k);
        ReadInjective(value, scalars, fields[k], b.fields[k]);
      }
    case Bool(_) => assert a in scalars && b in Scalars(b);
    case Num(_) => assert a in scalars && b in Scalars(b);
    case _ =>
  }

  lemma {:induction false} NormalScalars(j: Json)
    ensures Scalars(Normalize(j)) <= Scalars(j)
    decreases j
  {
    match j
    case Arr(items) =>
      var s, n := NormalizeItems(j), Normalize(j);
      SortPermutes(s, ByText);
      forall i | 0 <= i < |n.items| ensures Scalars(n.items[i]) <= Scalars(j) {
        assert n.items[i] in multiset(s);
        var k :| 0 <= k < |s| && s[k] == n.items[i];
        NormalScalars(items[k]);
        ItemScalars(j, k);
      }
    case Obj(fields) =>
      forall k | k in fields ensures Scalars(Normalize(fields[k])) <= Scalars(j) {
        NormalScalars(fields[k]);
        FieldScalars(j, k);
      }
    case _ =>
  }

  lemma ApartSameNormal(value: Reading, scalars: set<Json>, a: Json, b: Json)
    requires Apart(value, scalars) && Scalars(a) <= scalars && Scalars(b) <= scalars
    ensures SameNormal(value, a, b) <==> Equiv(a, b)
  {
    NormalScalars(a);
    NormalScalars(b);
    NormalFormComplete(a, b);
    if SameNormal(value, a, b) { ReadInjective(value, scalars, Normalize(a), Normalize(b)); }
  }

  /** Comparing normal forms decides equality up to the order of lists. */
  ghost predicate Decides(value: Reading, scalars: set<Json>) {
    forall a, b | Scalars(a) <= scalars && Scalars(b) <= scalars :: SameNormal(value, a, b) <==> Equiv(a, b)
  }

  /** The normal form is complete under Python's equality, over the values with given
      booleans and numbers, exactly when no two different ones have one value. */
  lemma CompleteExactlyApart(value: Reading, scalars: set<Json>)
    requires forall s <- scalars :: IsScalar(s)
    ensures Decides(value, scalars) <==> Apart(value, scalars)
  {
    if Apart(value, scalars) {
      forall a, b | Scalars(a) <= scalars && Scalars(b) <= scalars ensures SameNormal(value, a, b) <==> Equiv(a, b) {
        ApartSameNormal(value, scalars, a, b);
      }
    }
    if Decides(value, scalars) {
      forall x, y | x in scalars && y in scalars && Read(value, x) == Read(value, y) ensures x == y {
        assert Scalars(x) == {x} && Scalars(y) == {y};
        assert Normalize(x) == x && Normalize(y) == y;
        assert SameNormal(value, x, y);
        assert Equiv(x, y);
      }
    }
  }

  /** `1` and `true` compare equal, and are different values. */
  lemma OneIsTrue(value: Reading)
    requires value("1") == 1.0
    ensures SameNormal(value, Num("1"), Bool(true)) && !Equiv(Num("1"), Bool(true))
  {
  }
}
