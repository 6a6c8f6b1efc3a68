/**
  The comparison of policy documents that ignores the order of lists, from
  platform/scripts/shared_runtime_plan_guard.py: `normalized` sorts every list by the text
  of its items.
  */
module Canonical {
  import opened JsonText
  import opened Rearrangement
  import opened Sorting

  // ---------- Sorting by text ----------

  const ByText := (a: Json, b: Json) => AtMost(Dumps(a), Dumps(b))

  // ---------- Normal forms ----------

  function Normalize(j: Json): Json
    decreases j, 1
  {
    match j
    case Arr(items) => Arr(Sort(NormalizeItems(j), ByText))
    case Obj(fields) => Obj(map k | k in fields :: Normalize(fields[k]))
    case _ => j
  }

  function NormalizeItems(j: Json): (r: seq<Json>)
    requires j.Arr?
    decreases j, 0
  {
    seq(|j.items|, i requires 0 <= i < |j.items| => Normalize(j.items[i]))
  }

  /** Equal up to the order of lists, at every depth. */
  ghost predicate Equiv(a: Json, b: Json)
    decreases a
  {
    match a
    case Arr(items) =>
      b.Arr? && |b.items| == |items| &&
      exists p :: Rearranges(p, |items|) && forall i :: 0 <= i < |items| ==> Equiv(items[i], b.items[p[i]])
    case Obj(fields) =>
      b.Obj? && fields.Keys == b.fields.Keys && forall k <- fields :: Equiv(fields[k], b.fields[k])
    case _ => a == b
  }
}
