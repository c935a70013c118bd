/** The traversal of internal/cmp/normalize.go, lines 90-126, said without recursion: which slices of
    nested data it reaches, and what a normal form is in terms of them. */
module NormalForms {
  import opened Text
  import opened Sorting
  import opened Normalize

  /** One step of the traversal: to the target of a pointer, to an exported field, or to an element. */
  ghost predicate Below(v: Value, w: Value) {
    || (v.Pointer? && w == v.target)
    || (v.Struct? && w in v.fields)
    || (v.Slice? && w in v.elems)
  }

  ghost predicate Trail(t: seq<Value>) {
    t != [] && forall i, j :: 0 <= i && j == i + 1 < |t| ==> Below(t[i], t[j])
  }

  ghost predicate TrailTo(t: seq<Value>, v: Value, w: Value) {
    Trail(t) && t[0] == v && t[|t| - 1] == w
  }

  /** The traversal of `v` comes to `w`. */
  ghost predicate Reaches(v: Value, w: Value) {
    exists t :: TrailTo(t, v, w)
  }

  lemma ReachesItself(v: Value)
    ensures Reaches(v, v)
  {
    assert TrailTo([v], v, v);
  }

  lemma ReachesFrom(v: Value, u: Value, w: Value)
    requires Below(v, u) && Reaches(u, w)
    ensures Reaches(v, w)
  {
    var t :| TrailTo(t, u, w);
    assert TrailTo([v] + t, v, w);
  }

  lemma FirstStep(v: Value, w: Value)
    requires Reaches(v, w) && v != w
    ensures exists u :: Below(v, u) && Reaches(u, w)
  {
    var t :| TrailTo(t, v, w);
    assert Below(t[0], t[1]);
    assert TrailTo(t[1..], t[1], w);
  }

  type SliceProperty = (bool, seq<Value>) -> bool

  /** `p` holds of every slice that is reached. */
  ghost predicate OfAllReached(p: SliceProperty, v: Value) {
    forall keyed, es :: Reaches(v, Slice(keyed, es)) ==> p(keyed, es)
  }

  lemma OfAllBelow(p: SliceProperty, v: Value, u: Value)
    requires Below(v, u) && OfAllReached(p, v)
    ensures OfAllReached(p, u)
  {
    forall keyed, es | Reaches(u, Slice(keyed, es)) ensures p(keyed, es) {
      ReachesFrom(v, u, Slice(keyed, es));
    }
  }

  lemma {:induction false} AllSlicesIff(p: SliceProperty, v: Value)
    ensures AllSlices(p, v) <==> OfAllReached(p, v)
  {
    if AllSlices(p, v) { AllSlicesReached(p, v); }
    if OfAllReached(p, v) { ReachedAllSlices(p, v); }
  }

  lemma {:induction false} AllSlicesReached(p: SliceProperty, v: Value)
    requires AllSlices(p, v)
    ensures OfAllReached(p, v)
    decreases v
  {
    forall keyed, es | Reaches(v, Slice(keyed, es)) ensures p(keyed, es) {
      var w := Slice(keyed, es);
      if v != w {
        FirstStep(v, w);
        var u :| Below(v, u) && Reaches(u, w);
        AllSlicesReached(p, u);
      }
    }
  }

  lemma {:induction false} ReachedAllSlices(p: SliceProperty, v: Value)
    requires OfAllReached(p, v)
    ensures AllSlices(p, v)
    decreases v
  {
    match v
    case Pointer(t) =>
      OfAllBelow(p, v, t);
      ReachedAllSlices(p, t);
    case Struct(fs) =>
      forall i | 0 <= i < |fs| ensures AllSlices(p, fs[i]) {
        OfAllBelow(p, v, fs[i]);
        ReachedAllSlices(p, fs[i]);
      }
    case Slice(keyed, es) =>
      ReachesItself(v);
      forall i | 0 <= i < |es| ensures AllSlices(p, es[i]) {
        OfAllBelow(p, v, es[i]);
        ReachedAllSlices(p, es[i]);
      }
    case _ =>
  }

  // ---- What the shuffle reaches ----

  ghost predicate AllSame(es: seq<Value>) {
    forall x, y :: x in es && y in es ==> x == y
  }

  lemma {:induction false} OnlyItself(v: Value, w: Value)
    requires AllSlices((k, es) => AllSame(es), v) && Reorders(v, w)
    ensures w == v
    decreases v
  {
    match v
    case Pointer(t) => OnlyItself(t, w.target);
    case Struct(fs) =>
      forall i | 0 <= i < |fs| ensures w.fields[i] == fs[i] {
        OnlyItself(fs[i], w.fields[i]);
      }
      assert w.fields == fs;
    case Slice(keyed, es) =>
      if es != [] {
        var mid :| VisitsAll(Shuffle(), es, mid) && Permutation(mid, w.elems);
        forall i | 0 <= i < |es| ensures mid[i] == es[i] {
          OnlyItself(es[i], mid[i]);
        }
        assert mid == es;
        PermutationFacts(es, w.elems);
        forall i | 0 <= i < |es| ensures w.elems[i] == es[i] {
          assert w.elems[i] in es && es[i] in es;
        }
        assert w.elems == es;
      }
    case _ =>
  }

  lemma {:induction false} Another(v: Value) returns (w: Value)
    requires !AllSlices((k, es) => AllSame(es), v)
    ensures Reorders(v, w) && w != v
    decreases v
  {
    var p: SliceProperty := (k, es) => AllSame(es);
    match v
    case Pointer(t) =>
      var x := Another(t);
      w := Pointer(x);
    case Struct(fs) =>
      var i :| 0 <= i < |fs| && !AllSlices(p, fs[i]);
      var x := Another(fs[i]);
      w := Struct(fs[i := x]);
      forall j | 0 <= j < |fs| ensures Reorders(fs[j], w.fields[j]) {
        ReordersRefl(fs[j]);
      }
      assert w.fields[i] != fs[i];
    case Slice(keyed, es) =>
      if AllSame(es) {
        var i :| 0 <= i < |es| && !AllSlices(p, es[i]);
        var x := Another(es[i]);
        ReorderOne(keyed, es, i, x);
        w := Slice(keyed, es[i := x]);
        assert w.elems[i] != es[i];
      } else {
        var x, y :| x in es && y in es && x != y;
        var i :| 0 <= i < |es| && es[i] == x;
        var j :| 0 <= j < |es| && es[j] == y;
        ReorderTop(keyed, es, i, j);
        w := Slice(keyed, Swap(es, i, j));
        assert w.elems[i] != es[i];
      }
    case _ => assert false;
  }

  /** Shuffling can change a value exactly when it reaches a slice with two different elements. */
  lemma ShuffleChangesIff(v: Value)
    ensures (exists w :: Reorders(v, w) && w != v) <==> exists keyed, es :: Reaches(v, Slice(keyed, es)) && !AllSame(es)
  {
    var p: SliceProperty := (k, es) => AllSame(es);
    AllSlicesIff(p, v);
    if AllSlices(p, v) {
      forall w | Reorders(v, w) ensures w == v {
        OnlyItself(v, w);
      }
    } else {
      var w := Another(v);
    }
  }

  // ---- What a normal form is ----

  /** The texts of the elements ascend in the order of bytes: the keys of keyed element types, JSON
      texts otherwise. */
  ghost predicate Ascends(enc: Encoding, keyed: bool, es: seq<Value>) {
    forall i, j :: 0 <= i < j < |es| ==> InOrder(enc, keyed, es[i], es[j])
  }

  ghost predicate InOrder(enc: Encoding, keyed: bool, x: Value, y: Value) {
    if keyed then !Precedes(enc.key(y), enc.key(x))
    else enc.json(x).Some? && enc.json(y).Some? && !Precedes(enc.json(y).value, enc.json(x).value)
  }

  /** Two or more elements without keys, one of which has no JSON text. */
  ghost predicate Unsortable(enc: Encoding, keyed: bool, es: seq<Value>) {
    !keyed && |es| >= 2 && exists x :: x in es && enc.json(x).None?
  }

  /** In these terms, what one sort leaves. */
  lemma SortedMeansAscends(enc: Encoding, keyed: bool, es: seq<Value>)
    ensures SortFails(enc, keyed, es) <==> Unsortable(enc, keyed, es)
    ensures !SortFails(enc, keyed, es) ==> (Sorted(enc.Order(keyed), es) <==> Ascends(enc, keyed, es))
  {
    if !SortFails(enc, keyed, es) {
      forall i, j | 0 <= i < j < |es| ensures enc.Order(keyed)(es[i], es[j]) <==> InOrder(enc, keyed, es[i], es[j]) {
        assert es[i] in es && es[j] in es;
        CompareIsByteOrder(enc.SortText(keyed, es[i]), enc.SortText(keyed, es[j]));
      }
    }
  }

  ghost predicate LeftBySort(enc: Encoding, keyed: bool, es: seq<Value>) {
    Unsortable(enc, keyed, es) || Ascends(enc, keyed, es)
  }

  lemma {:induction false} NormalFormLeftBySort(enc: Encoding, v: Value, w: Value)
    requires NormalizesTo(enc, v, w)
    ensures AllSlices((k, es) => LeftBySort(enc, k, es), w)
    decreases v
  {
    match v
    case Pointer(t) => NormalFormLeftBySort(enc, t, w.target);
    case Struct(fs) =>
      forall i | 0 <= i < |fs| ensures AllSlices((k, es) => LeftBySort(enc, k, es), w.fields[i]) {
        NormalFormLeftBySort(enc, fs[i], w.fields[i]);
      }
    case Slice(keyed, es) =>
      if es != [] {
        var mid :| VisitsAll(SortStep(enc), es, mid) && SortStep(enc)(keyed, mid, w.elems);
        PermutationFacts(mid, w.elems);
        SortFailsPermutes(enc, keyed, mid, w.elems);
        SortedMeansAscends(enc, keyed, w.elems);
        forall i | 0 <= i < |w.elems| ensures AllSlices((k, es) => LeftBySort(enc, k, es), w.elems[i]) {
          assert w.elems[i] in mid;
          var k :| 0 <= k < |mid| && mid[k] == w.elems[i];
          NormalFormLeftBySort(enc, es[k], mid[k]);
        }
      }
    case _ =>
  }

  lemma {:induction false} LeftBySortIsNormalForm(enc: Encoding, v: Value, w: Value)
    requires Reorders(v, w) && AllSlices((k, es) => LeftBySort(enc, k, es), w)
    ensures NormalizesTo(enc, v, w)
    decreases v
  {
    match v
    case Pointer(t) => LeftBySortIsNormalForm(enc, t, w.target);
    case Struct(fs) =>
      forall i | 0 <= i < |fs| ensures NormalizesTo(enc, fs[i], w.fields[i]) {
        LeftBySortIsNormalForm(enc, fs[i], w.fields[i]);
      }
    case Slice(keyed, es) =>
      if es != [] {
        var mid :| VisitsAll(Shuffle(), es, mid) && Permutation(mid, w.elems);
        PermutationFacts(mid, w.elems);
        SortFailsPermutes(enc, keyed, mid, w.elems);
        SortedMeansAscends(enc, keyed, w.elems);
        forall i | 0 <= i < |es| ensures NormalizesTo(enc, es[i], mid[i]) {
          assert mid[i] in w.elems;
          var k :| 0 <= k < |w.elems| && w.elems[k] == mid[i];
          LeftBySortIsNormalForm(enc, es[i], mid[i]);
        }
        assert VisitsAll(SortStep(enc), es, mid) && SortStep(enc)(keyed, mid, w.elems);
      }
    case _ =>
  }

  /** `Normalize` can turn `v` into `w` exactly when `w` is a reordering of `v` in which every slice
      that the traversal reaches ascends, but for slices with elements that do not marshal. */
  lemma NormalFormIff(enc: Encoding, v: Value, w: Value)
    ensures NormalizesTo(enc, v, w) <==>
      Reorders(v, w) && forall keyed, es :: Reaches(w, Slice(keyed, es)) ==> Unsortable(enc, keyed, es) || Ascends(enc, keyed, es)
  {
    AllSlicesIff((k, es) => LeftBySort(enc, k, es), w);
    if NormalizesTo(enc, v, w) {
      NormalizeOnlyReorders(enc, v, w);
      NormalFormLeftBySort(enc, v, w);
      assert forall keyed, es :: Reaches(w, Slice(keyed, es)) ==> LeftBySort(enc, keyed, es);
    }
    if Reorders(v, w) && forall keyed, es :: Reaches(w, Slice(keyed, es)) ==> Unsortable(enc, keyed, es) || Ascends(enc, keyed, es) {
      assert OfAllReached((k, es) => LeftBySort(enc, k, es), w);
      LeftBySortIsNormalForm(enc, v, w);
    }
  }

  ghost predicate SomeUnsortable(enc: Encoding, w: Value) {
    exists keyed, es :: Reaches(w, Slice(keyed, es)) && Unsortable(enc, keyed, es)
  }

  ghost predicate AllAscend(enc: Encoding, w: Value) {
    forall keyed, es :: Reaches(w, Slice(keyed, es)) ==> Ascends(enc, keyed, es)
  }

  /** An error is returned exactly when some slice that is reached cannot be sorted. */
  lemma FailsIff(enc: Encoding, w: Value)
    ensures Fails(enc, w) <==> SomeUnsortable(enc, w)
  {
    var p: SliceProperty := (keyed, es) => !SortFails(enc, keyed, es);
    AllSlicesIff(p, w);
    forall keyed, es ensures SortFails(enc, keyed, es) <==> Unsortable(enc, keyed, es) {
      SortedMeansAscends(enc, keyed, es);
    }
  }

  /** Without an error every slice that is reached ascends. */
  lemma WithoutErrorAscends(enc: Encoding, v: Value, w: Value)
    requires NormalizesTo(enc, v, w)
    ensures Fails(enc, w) || AllAscend(enc, w)
  {
    FailsIff(enc, w);
    NormalFormIff(enc, v, w);
  }
}
