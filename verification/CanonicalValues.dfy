/** `_canonical_value`: list order is not graph identity, at any depth. */
module CanonicalValues {
  import opened Ordering
  import opened JsonText

  function Canonical(j: Json): Json
    decreases j
  {
    match j
    case Arr(xs) => Arr(Sort(CanonLeq, CanonicalAll(xs)))
    case Obj(m) => Obj(map k | k in m :: Canonical(m[k]))
    case _ => j
  }

  function CanonicalAll(xs: seq<Json>): (r: seq<Json>)
    ensures |r| == |xs| && forall i :: 0 <= i < |xs| ==> r[i] == Canonical(xs[i])
    decreases xs
  {
    if xs == [] then [] else [Canonical(xs[0])] + CanonicalAll(xs[1..])
  }

  /** Equality that ignores the order of lists, stated without sorting or printing:
      one list can be rearranged to match the other item by item. */
  ghost predicate SameUpToListOrder(a: Json, b: Json)
    decreases a
  {
    match (a, b)
    case (Arr(xs), Arr(ys)) =>
      exists zs: seq<Json> :: multiset(zs) == multiset(ys) && Pairwise(xs, zs)
    case (Obj(m), Obj(n)) =>
      m.Keys == n.Keys && forall k :: k in m ==> SameUpToListOrder(m[k], n[k])
    case _ => a == b
  }

  ghost predicate Pairwise(xs: seq<Json>, zs: seq<Json>)
    decreases xs, 0
  {
    |xs| == |zs| && forall i :: 0 <= i < |xs| ==> SameUpToListOrder(xs[i], zs[i])
  }

  /** `_canonical_value` decides that equality: it is a complete invariant. */
  lemma {:induction false} CanonicalDecides(a: Json, b: Json)
    ensures Canonical(a) == Canonical(b) <==> SameUpToListOrder(a, b)
    decreases a
  {
    match (a, b) {
      case (Arr(xs), Arr(ys)) =>
        ListsDecided(xs, ys);
      case (Obj(m), Obj(n)) =>
        forall k | k in m && k in n {
          CanonicalDecides(m[k], n[k]);
        }
        var m', n' := Canonical(a).fields, Canonical(b).fields;
        assert m'.Keys == m.Keys && n'.Keys == n.Keys;
        assert m' == n' ==> forall k :: k in m ==> m'[k] == n'[k];
      case _ =>
    }
  }

  lemma {:induction false} ListsDecided(xs: seq<Json>, ys: seq<Json>)
    ensures Canonical(Arr(xs)) == Canonical(Arr(ys)) <==> SameUpToListOrder(Arr(xs), Arr(ys))
    decreases xs, 1
  {
    CanonOrder();
    SortIff(CanonLeq, CanonicalAll(xs), CanonicalAll(ys));
    if Canonical(Arr(xs)) == Canonical(Arr(ys)) {
      MapCanonical(ys);
      var zs := Rearrange(Canonical, CanonicalAll(xs), ys);
      MapCanonical(zs);
      PairwiseDecided(xs, zs);
    }
    if zs :| multiset(zs) == multiset(ys) && Pairwise(xs, zs) {
      PairwiseDecided(xs, zs);
      MapCanonical(ys);
      MapCanonical(zs);
      RearrangedImage(Canonical, zs, ys);
    }
  }

  lemma MapCanonical(xs: seq<Json>)
    ensures CanonicalAll(xs) == Map(Canonical, xs)
  {
  }

  lemma {:induction false} PairwiseDecided(xs: seq<Json>, zs: seq<Json>)
    ensures CanonicalAll(xs) == CanonicalAll(zs) <==> Pairwise(xs, zs)
    decreases xs, 0
  {
    if |xs| == |zs| {
      forall i | 0 <= i < |xs|
        ensures CanonicalAll(xs)[i] == CanonicalAll(zs)[i] <==> SameUpToListOrder(xs[i], zs[i])
      {
        CanonicalDecides(xs[i], zs[i]);
      }
    }
  }

  /** Normalising a second time changes nothing. */
  lemma {:induction false} CanonicalIdempotent(j: Json)
    ensures Canonical(Canonical(j)) == Canonical(j)
    decreases j, 1
  {
    match j {
      case Arr(xs) =>
        forall i | 0 <= i < |xs| {
          CanonicalIdempotent(xs[i]);
        }
        SortKeepsFixed(CanonicalAll(xs));
      case Obj(m) =>
        forall k | k in m {
          CanonicalIdempotent(m[k]);
        }
        assert Canonical(Canonical(j)).fields == Canonical(j).fields;
      case _ =>
    }
  }

  lemma SortKeepsFixed(c: seq<Json>)
    requires forall i :: 0 <= i < |c| ==> Canonical(c[i]) == c[i]
    ensures Canonical(Arr(Sort(CanonLeq, c))) == Arr(Sort(CanonLeq, c))
  {
    var r := Sort(CanonLeq, c);
    CanonOrder();
    SortMultiset(CanonLeq, c);
    forall i | 0 <= i < |r| ensures Canonical(r[i]) == r[i] {
      assert r[i] in multiset(c);
    }
    assert CanonicalAll(r) == r;
    SortSorted(CanonLeq, c);
    SortOfSorted(CanonLeq, r);
  }
}
