/**
  Choosing the latest known version of each of many versioned items, as
  modules/insights/projection.py does for relationships and for contributions: one
  pass over the items, keeping for each key the version recorded last, and refusing
  two different versions of one key recorded at the same time.
  */
module Versions {
  import opened Options

  /** The dictionary of the pass: `order` is the order in which its keys first came. */
  datatype Table<K, V> = Table(best: map<K, V>, order: seq<K>)

  function Enter<K(==), V(==)>(t: Table<K, V>, v: V, key: V -> K, at: V -> int, known: int): Option<Table<K, V>> {
    var k := key(v);
    if at(v) > known then Some(t)
    else if k !in t.best then Some(Table(t.best[k := v], t.order + [k]))
    else if at(t.best[k]) == at(v) && t.best[k] != v then None
    else if at(t.best[k]) < at(v) then Some(Table(t.best[k := v], t.order))
    else Some(t)
  }

  function Scan<K(==), V(==)>(items: seq<V>, key: V -> K, at: V -> int, known: int): Option<Table<K, V>> {
    if items == [] then Some(Table(map[], []))
    else
      var before := Scan(items[..|items| - 1], key, at, known);
      if before.None? then None else Enter(before.value, items[|items| - 1], key, at, known)
  }

  /** The selected versions, in the order of the dictionary. */
  function Selected<K(==), V>(t: Table<K, V>): seq<V>
    requires forall k <- t.order :: k in t.best
    decreases |t.order|
  {
    if t.order == [] then []
    else Selected(Table(t.best, t.order[..|t.order| - 1])) + [t.best[t.order[|t.order| - 1]]]
  }

  // ---------- what the pass selects, without a pass ----------

  predicate Rival<K(==), V>(v: V, k: K, key: V -> K, at: V -> int, known: int) {
    key(v) == k && at(v) <= known
  }

  /** `v` is recorded last among the known versions of its key, and alone at that time. */
  ghost predicate StrictlyLatest<K, V(!new)>(items: seq<V>, v: V, key: V -> K, at: V -> int, known: int) {
    && v in items && at(v) <= known
    && forall w | w in items && Rival(w, key(v), key, at, known) :: at(w) < at(v) || w == v
  }

  ghost predicate Chooses<K(!new), V(!new)>(items: seq<V>, t: Table<K, V>, key: V -> K, at: V -> int, known: int) {
    && (forall i, j | 0 <= i < j < |t.order| :: t.order[i] != t.order[j])
    && (forall k :: k in t.order <==> k in t.best)
    && (forall k <- t.best :: key(t.best[k]) == k && StrictlyLatest(items, t.best[k], key, at, known))
    && (forall v <- items | at(v) <= known :: key(v) in t.best)
  }

  lemma EnterChooses<K(!new), V(!new)>(items: seq<V>, t: Table<K, V>, v: V, key: V -> K, at: V -> int, known: int)
    requires Chooses(items, t, key, at, known)
    requires Enter(t, v, key, at, known).Some?
    ensures Chooses(items + [v], Enter(t, v, key, at, known).value, key, at, known)
  {
  }

  /** When the pass returns, it holds for each key exactly the strictly latest version. */
  lemma {:induction false} ScanChooses<K(!new), V(!new)>(items: seq<V>, key: V -> K, at: V -> int, known: int)
    requires Scan(items, key, at, known).Some?
    ensures Chooses(items, Scan(items, key, at, known).value, key, at, known)
  {
    if items != [] {
      var front := items[..|items| - 1];
      ScanChooses(front, key, at, known);
      assert items == front + [items[|items| - 1]];
      EnterChooses(front, Scan(front, key, at, known).value, items[|items| - 1], key, at, known);
    }
  }

  /** Two different versions of one key at one time, with nothing later seen before the
      second of them. */
  ghost predicate Clash<K, V(!new)>(items: seq<V>, i: nat, j: nat, key: V -> K, at: V -> int, known: int) {
    && i < j < |items| && items[i] != items[j]
    && key(items[i]) == key(items[j]) && at(items[i]) == at(items[j]) <= known
    && forall k | 0 <= k < j && Rival(items[k], key(items[i]), key, at, known) :: at(items[k]) <= at(items[i])
  }

  lemma {:induction false} RefusalStays<K, V>(items: seq<V>, n: nat, key: V -> K, at: V -> int, known: int)
    requires n <= |items| && Scan(items[..n], key, at, known).None?
    ensures Scan(items, key, at, known).None?
  {
    if n == |items| {
      assert items[..n] == items;
    } else {
      assert items[..|items| - 1][..n] == items[..n];
      RefusalStays(items[..|items| - 1], n, key, at, known);
    }
  }

  lemma ClashRefuses<K(!new), V(!new)>(items: seq<V>, i: nat, j: nat, key: V -> K, at: V -> int, known: int)
    requires Clash(items, i, j, key, at, known)
    ensures Scan(items, key, at, known).None?
  {
    var front := items[..j];
    if Scan(front, key, at, known).Some? {
      ScanChooses(front, key, at, known);
      var t := Scan(front, key, at, known).value;
      assert front[i] == items[i] && items[i] in front;
      var b := t.best[key(items[i])];
      assert StrictlyLatest(front, b, key, at, known);
      var k :| 0 <= k < j && front[k] == b;
      assert Rival(items[k], key(items[i]), key, at, known);
      assert b == items[i];
      assert items[..j + 1][..j] == front;
      assert Scan(items[..j + 1], key, at, known).None?;
      RefusalStays(items, j + 1, key, at, known);
    } else {
      RefusalStays(items, j, key, at, known);
    }
  }

  lemma {:induction false} RefusalHasClash<K(!new), V(!new)>(items: seq<V>, key: V -> K, at: V -> int, known: int)
    requires Scan(items, key, at, known).None?
    ensures exists i, j: nat :: Clash(items, i, j, key, at, known)
  {
    var front, v := items[..|items| - 1], items[|items| - 1];
    if Scan(front, key, at, known).None? {
      RefusalHasClash(front, key, at, known);
      var i: nat, j: nat :| Clash(front, i, j, key, at, known);
      assert forall k | 0 <= k <= j :: items[k] == front[k];
      assert Clash(items, i, j, key, at, known);
    } else {
      ScanChooses(front, key, at, known);
      var b := Scan(front, key, at, known).value.best[key(v)];
      assert StrictlyLatest(front, b, key, at, known);
      var i :| 0 <= i < |front| && front[i] == b;
      forall k | 0 <= k < |front| && Rival(items[k], key(b), key, at, known) ensures at(items[k]) <= at(b) {
        assert items[k] in front;
      }
      assert Clash(items, i, |front|, key, at, known);
    }
  }

  /** The pass refuses exactly the lists with a clash. */
  lemma RefusesExactlyClashes<K(!new), V(!new)>(items: seq<V>, key: V -> K, at: V -> int, known: int)
    ensures Scan(items, key, at, known).None? <==> exists i, j: nat :: Clash(items, i, j, key, at, known)
  {
    if Scan(items, key, at, known).None? {
      RefusalHasClash(items, key, at, known);
    }
    forall i, j: nat | Clash(items, i, j, key, at, known) ensures Scan(items, key, at, known).None? {
      ClashRefuses(items, i, j, key, at, known);
    }
  }

  /** A tie at the latest known time is refused in every order. */
  lemma LatestTieAlwaysRefused<K(!new), V(!new)>(items: seq<V>, v: V, w: V, key: V -> K, at: V -> int, known: int)
    requires v in items && w in items && v != w && key(v) == key(w) && at(v) == at(w) <= known
    requires forall x | x in items && Rival(x, key(v), key, at, known) :: at(x) <= at(v)
    ensures Scan(items, key, at, known).None?
  {
    if Scan(items, key, at, known).Some? {
      ScanChooses(items, key, at, known);
      var b := Scan(items, key, at, known).value.best[key(v)];
      assert StrictlyLatest(items, b, key, at, known);
      assert Rival(v, key(b), key, at, known) && Rival(w, key(b), key, at, known) && Rival(b, key(v), key, at, known);
    }
  }

  /** A tie below the latest time is refused in one order and not in another. */
  lemma EarlierTieDependsOnOrder<K(!new), V(!new)>(a: V, b: V, c: V, key: V -> K, at: V -> int, known: int)
    requires a != b && key(a) == key(b) == key(c) && at(a) == at(b) < at(c) <= known
    ensures Scan([a, b, c], key, at, known).None?
    ensures Scan([c, a, b], key, at, known).Some?
  {
    assert Clash([a, b, c], 0, 1, key, at, known);
    ClashRefuses([a, b, c], 0, 1, key, at, known);
    assert [c, a, b][..2] == [c, a] && [c, a][..1] == [c] && [c][..0] == [];
    assert [] + [key(c)] == [key(c)];
    assert Scan([c], key, at, known) == Enter(Table(map[], []), c, key, at, known);
    assert Scan([c], key, at, known) == Some(Table(map[key(c) := c], [key(c)]));
    assert Scan([c, a], key, at, known) == Some(Table(map[key(c) := c], [key(c)]));
  }

  /** Any two orders that both return select the same versions. */
  lemma OrderIrrelevant<K(!new), V(!new)>(a: seq<V>, b: seq<V>, key: V -> K, at: V -> int, known: int)
    requires forall v :: v in a <==> v in b
    requires Scan(a, key, at, known).Some? && Scan(b, key, at, known).Some?
    ensures Scan(a, key, at, known).value.best == Scan(b, key, at, known).value.best
  {
    ScanChooses(a, key, at, known);
    ScanChooses(b, key, at, known);
    var s, t := Scan(a, key, at, known).value.best, Scan(b, key, at, known).value.best;
    forall k | k in s ensures k in t && s[k] == t[k] {
      assert StrictlyLatest(a, s[k], key, at, known) && s[k] in b;
      assert StrictlyLatest(b, t[k], key, at, known) && t[k] in a;
      assert Rival(t[k], k, key, at, known) && Rival(s[k], k, key, at, known);
    }
    forall k | k in t ensures k in s {
      assert StrictlyLatest(b, t[k], key, at, known) && t[k] in a;
    }
  }

  lemma {:induction false} SelectedMembers<K(!new), V(!new)>(t: Table<K, V>)
    requires forall k <- t.order :: k in t.best
    ensures |Selected(t)| == |t.order|
    ensures forall i | 0 <= i < |t.order| :: Selected(t)[i] == t.best[t.order[i]]
    decreases |t.order|
  {
    if t.order != [] { SelectedMembers(Table(t.best, t.order[..|t.order| - 1])); }
  }

  /** What the pass returns is exactly the strictly latest versions. */
  lemma SelectedExactly<K(!new), V(!new)>(items: seq<V>, v: V, key: V -> K, at: V -> int, known: int)
    requires Scan(items, key, at, known).Some?
    ensures var t := Scan(items, key, at, known).value;
            && (forall k <- t.order :: k in t.best)
            && (v in Selected(t) <==> StrictlyLatest(items, v, key, at, known))
  {
    ScanChooses(items, key, at, known);
    var t := Scan(items, key, at, known).value;
    SelectedMembers(t);
    if StrictlyLatest(items, v, key, at, known) {
      var b := t.best[key(v)];
      assert StrictlyLatest(items, b, key, at, known);
      assert Rival(b, key(v), key, at, known) && Rival(v, key(b), key, at, known);
      var i :| 0 <= i < |t.order| && t.order[i] == key(v);
      assert Selected(t)[i] == v;
    }
    if v in Selected(t) {
      var i :| 0 <= i < |Selected(t)| && Selected(t)[i] == v;
      assert t.order[i] in t.best;
    }
  }
}
