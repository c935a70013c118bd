/** The canonical form of nested data (internal/cmp/normalize.go).

    A value is a tree of the kinds `traverseValue` tells apart. Neither the shuffle of
    `PermuteOrder` nor the unstable sort of `Normalize` has one determined outcome, so
    a traversal is a relation between the value before and the value after. */
module Normalize {
  import opened Text
  import opened Sorting

  /** `Scalar` stands for every kind the traversal does not enter (strings, numbers, maps,
      interfaces, arrays), and an unexported struct field is not entered either; `keyed` says
      whether the element type of a slice has a `Key` method. */
  datatype Value =
    | Scalar(text: string)
    | Bytes(data: string)
    | NilPointer
    | Pointer(target: Value)
    | Struct(fields: seq<Value>)
    | Unexported(hidden: Value)
    | NilSlice
    | Slice(keyed: bool, elems: seq<Value>)

  /** The two texts elements are compared by. `json` is None where marshalling fails. */
  datatype Encoding = Encoding(key: Value -> string, json: Value -> Option<string>)
  {
    function SortText(keyed: bool, v: Value): string {
      if keyed then key(v) else if json(v).Some? then json(v).value else ""
    }

    /** The comparison reports an error on this element (`ByJSON` failed). */
    predicate Unencodable(keyed: bool, v: Value) {
      !keyed && json(v).None?
    }

    function Order(keyed: bool): (Value, Value) -> bool {
      (x, y) => Compare(SortText(keyed, x), SortText(keyed, y)) <= 0
    }

    lemma OrderIsTotalPreorder(keyed: bool)
      ensures TotalPreorder(Order(keyed))
    {
      var leq := Order(keyed);
      forall x, y ensures leq(x, y) || leq(y, x) {
        CompareAntisymmetric(SortText(keyed, x), SortText(keyed, y));
      }
      forall x, y, z | leq(x, y) && leq(y, z) ensures leq(x, z) {
        CompareTransitive(SortText(keyed, x), SortText(keyed, y), SortText(keyed, z));
      }
    }
  }

  type Step = (bool, seq<Value>, seq<Value>) -> bool

  /** `w` is a possible outcome of `traverse(v, f)`, where `f` may turn the elements `xs` of a
      visited slice into any `ys` with `step(keyed, xs, ys)`. Children come before their slice. */
  ghost predicate Visits(step: Step, v: Value, w: Value)
    decreases v
  {
    match v
    case Pointer(t) => w.Pointer? && Visits(step, t, w.target)
    case Struct(fs) =>
      w.Struct? && |w.fields| == |fs| && forall i :: 0 <= i < |fs| ==> Visits(step, fs[i], w.fields[i])
    case Slice(keyed, es) =>
      && w.Slice? && w.keyed == keyed
      && if es == [] then w.elems == []
         else exists mid: seq<Value> :: VisitsAll(step, es, mid) && step(keyed, mid, w.elems)
    case _ => w == v
  }

  ghost predicate VisitsAll(step: Step, es: seq<Value>, mid: seq<Value>)
    decreases es
  {
    |mid| == |es| && forall i :: 0 <= i < |es| ==> Visits(step, es[i], mid[i])
  }

  ghost function Shuffle(): Step {
    (keyed, xs, ys) => Permutation(xs, ys)
  }

  /** What one `sort.Slice` call leaves: some permutation, sorted unless a comparison failed. */
  ghost function SortStep(enc: Encoding): Step {
    (keyed, xs, ys) => Permutation(xs, ys) && (SortFails(enc, keyed, xs) || Sorted(enc.Order(keyed), ys))
  }

  /** Some comparison of the sort fails: sorting two or more elements looks at each of them. */
  ghost predicate SortFails(enc: Encoding, keyed: bool, xs: seq<Value>) {
    |xs| > 1 && exists x :: x in xs && enc.Unencodable(keyed, x)
  }

  /** `PermuteOrder` can turn `v` into `w`. */
  ghost predicate Reorders(v: Value, w: Value) {
    Visits(Shuffle(), v, w)
  }

  /** `Normalize` can turn `v` into `w`. */
  ghost predicate NormalizesTo(enc: Encoding, v: Value, w: Value) {
    Visits(SortStep(enc), v, w)
  }

  /** `P` holds of every slice the traversal visits. */
  ghost predicate AllSlices(p: (bool, seq<Value>) -> bool, v: Value)
    decreases v
  {
    match v
    case Pointer(t) => AllSlices(p, t)
    case Struct(fs) => forall i :: 0 <= i < |fs| ==> AllSlices(p, fs[i])
    case Slice(keyed, es) => p(keyed, es) && forall i :: 0 <= i < |es| ==> AllSlices(p, es[i])
    case _ => true
  }

  /** Normalizing to `w` returned an error: the error variable is set by any failing comparison. */
  ghost predicate Fails(enc: Encoding, w: Value) {
    !AllSlices((keyed, es) => !SortFails(enc, keyed, es), w)
  }

  /** No slice of `w` holds two different elements that compare equal. */
  ghost predicate TieFree(enc: Encoding, w: Value) {
    AllSlices((keyed, es) => TiesAreEqual(enc.Order(keyed), es), w)
  }

  // ---- Reordering is an equivalence ----

  lemma {:induction false} ReordersRefl(v: Value)
    ensures Reorders(v, v)
    decreases v
  {
    match v
    case Pointer(t) => ReordersRefl(t);
    case Struct(fs) =>
      forall i | 0 <= i < |fs| ensures Reorders(fs[i], fs[i]) {
        ReordersRefl(fs[i]);
      }
    case Slice(keyed, es) =>
      forall i | 0 <= i < |es| ensures Reorders(es[i], es[i]) {
        ReordersRefl(es[i]);
      }
      assert VisitsAll(Shuffle(), es, es);
    case _ =>
  }

  /** A weaker step allows every outcome a stronger one does: whatever `Normalize` does is a
      reordering. */
  lemma {:induction false} NormalizeOnlyReorders(enc: Encoding, v: Value, w: Value)
    requires NormalizesTo(enc, v, w)
    ensures Reorders(v, w)
    decreases v
  {
    match v
    case Pointer(t) => NormalizeOnlyReorders(enc, t, w.target);
    case Struct(fs) =>
      forall i | 0 <= i < |fs| ensures Reorders(fs[i], w.fields[i]) {
        NormalizeOnlyReorders(enc, fs[i], w.fields[i]);
      }
    case Slice(keyed, es) =>
      if es != [] {
        var mid :| VisitsAll(SortStep(enc), es, mid) && SortStep(enc)(keyed, mid, w.elems);
        forall i | 0 <= i < |es| ensures Reorders(es[i], mid[i]) {
          NormalizeOnlyReorders(enc, es[i], mid[i]);
        }
        assert VisitsAll(Shuffle(), es, mid);
      }
    case _ =>
  }

  lemma {:induction false} ReordersSym(v: Value, w: Value)
    requires Reorders(v, w)
    ensures Reorders(w, v)
    decreases v
  {
    match v
    case Pointer(t) => ReordersSym(t, w.target);
    case Struct(fs) =>
      forall i | 0 <= i < |fs| ensures Reorders(w.fields[i], fs[i]) {
        ReordersSym(fs[i], w.fields[i]);
      }
    case Slice(keyed, es) =>
      if es != [] {
        var mid :| VisitsAll(Shuffle(), es, mid) && Permutation(mid, w.elems);
        var p, back := Transport(w.elems, mid, es);
        forall i | 0 <= i < |w.elems| ensures Reorders(w.elems[i], back[i]) {
          ReordersSym(es[p[i]], mid[p[i]]);
        }
        assert VisitsAll(Shuffle(), w.elems, back);
        PermutationFacts(mid, w.elems);
      }
    case _ =>
  }

  lemma {:induction false} ReordersTrans(v: Value, w: Value, u: Value)
    requires Reorders(v, w) && Reorders(w, u)
    ensures Reorders(v, u)
    decreases v
  {
    match v
    case Pointer(t) => ReordersTrans(t, w.target, u.target);
    case Struct(fs) =>
      forall i | 0 <= i < |fs| ensures Reorders(fs[i], u.fields[i]) {
        ReordersTrans(fs[i], w.fields[i], u.fields[i]);
      }
    case Slice(keyed, es) =>
      if es != [] {
        var mid :| VisitsAll(Shuffle(), es, mid) && Permutation(mid, w.elems);
        PermutationFacts(mid, w.elems);
        var next :| VisitsAll(Shuffle(), w.elems, next) && Permutation(next, u.elems);
        var p, far := Transport(mid, w.elems, next);
        forall i | 0 <= i < |es| ensures Reorders(es[i], far[i]) {
          ReordersTrans(es[i], mid[i], far[i]);
        }
        assert VisitsAll(Shuffle(), es, far);
      }
    case _ =>
  }

  // ---- The normal form is canonical ----

  /** Two reorderings of the same data have the same normal form, whatever the unstable sorts
      did, if no slice of the normal form has a tie between different elements. */
  lemma {:induction false} Canonical(enc: Encoding, v: Value, w: Value, v': Value, w': Value)
    requires Reorders(v, w)
    requires NormalizesTo(enc, v, v') && NormalizesTo(enc, w, w')
    requires !Fails(enc, v') && TieFree(enc, v')
    ensures v' == w'
    decreases v
  {
    match v
    case Pointer(t) => Canonical(enc, t, w.target, v'.target, w'.target);
    case Struct(fs) =>
      forall i | 0 <= i < |fs| ensures v'.fields[i] == w'.fields[i] {
        Canonical(enc, fs[i], w.fields[i], v'.fields[i], w'.fields[i]);
      }
      assert v'.fields == w'.fields;
    case Slice(keyed, es) =>
      if es != [] {
        CanonicalSlice(enc, v, w, v', w');
      }
    case _ =>
  }

  lemma {:induction false} CanonicalSlice(enc: Encoding, v: Value, w: Value, v': Value, w': Value)
    requires v.Slice? && v.elems != []
    requires Reorders(v, w)
    requires NormalizesTo(enc, v, v') && NormalizesTo(enc, w, w')
    requires !Fails(enc, v') && TieFree(enc, v')
    ensures v' == w'
    decreases v, 0
  {
    var keyed, es := v.keyed, v.elems;
    var mid :| VisitsAll(Shuffle(), es, mid) && Permutation(mid, w.elems);
    assert w.elems != [] by { PermutationFacts(mid, w.elems); }
    var left :| VisitsAll(SortStep(enc), es, left) && SortStep(enc)(keyed, left, v'.elems);
    var right :| VisitsAll(SortStep(enc), w.elems, right) && SortStep(enc)(keyed, right, w'.elems);
    var p, far := Transport(mid, w.elems, right);
    ElementsInherit(enc, keyed, left, v'.elems);
    forall i | 0 <= i < |es| ensures left[i] == far[i] {
      Canonical(enc, es[i], mid[i], left[i], far[i]);
    }
    assert left == far;
    SortsAlike(enc, keyed, left, right, v'.elems, w'.elems);
  }

  /** The elements before the sort are tie-free and encodable if the sorted slice is. */
  lemma ElementsInherit(enc: Encoding, keyed: bool, xs: seq<Value>, ys: seq<Value>)
    requires Permutation(xs, ys) && !Fails(enc, Slice(keyed, ys)) && TieFree(enc, Slice(keyed, ys))
    ensures forall i :: 0 <= i < |xs| ==> !Fails(enc, xs[i]) && TieFree(enc, xs[i])
  {
    PermutationFacts(xs, ys);
    forall i | 0 <= i < |xs| ensures !Fails(enc, xs[i]) && TieFree(enc, xs[i]) {
      assert xs[i] in ys;
      var k :| 0 <= k < |ys| && ys[k] == xs[i];
    }
  }

  /** Two sorts of the same elements agree where nothing fails and nothing ties. */
  lemma SortsAlike(enc: Encoding, keyed: bool, xs: seq<Value>, ys: seq<Value>, xs': seq<Value>, ys': seq<Value>)
    requires Permutation(xs, ys) && SortStep(enc)(keyed, xs, xs') && SortStep(enc)(keyed, ys, ys')
    requires !SortFails(enc, keyed, xs') && TiesAreEqual(enc.Order(keyed), xs')
    ensures xs' == ys'
  {
    SortFailsPermutes(enc, keyed, xs, xs');
    SortFailsPermutes(enc, keyed, xs, ys);
    SortedUnique(enc.Order(keyed), xs', ys');
  }

  lemma SortFailsPermutes(enc: Encoding, keyed: bool, xs: seq<Value>, ys: seq<Value>)
    requires Permutation(xs, ys)
    ensures SortFails(enc, keyed, xs) <==> SortFails(enc, keyed, ys)
  {
    PermutationFacts(xs, ys);
  }

  /** Normalizing a second time changes nothing. */
  lemma Idempotent(enc: Encoding, v: Value, v': Value, v'': Value)
    requires NormalizesTo(enc, v, v') && NormalizesTo(enc, v', v'')
    requires !Fails(enc, v') && TieFree(enc, v')
    ensures v'' == v'
  {
    NormalizeOnlyReorders(enc, v, v');
    Canonical(enc, v, v', v', v'');
  }

  /** The outcome of `SemanticEqual`: an error of either normalization wins over the comparison. */
  ghost predicate SemanticEqualTo(enc: Encoding, v: Value, w: Value, v': Value, w': Value, result: Option<bool>)
    requires NormalizesTo(enc, v, v') && NormalizesTo(enc, w, w')
  {
    result == if Fails(enc, v') || Fails(enc, w') then None else Some(v' == w')
  }

  /** When it reports no error, `SemanticEqual` decides equality up to the order of slices. */
  lemma SemanticEqualDecidesReordering(enc: Encoding, v: Value, w: Value, v': Value, w': Value, result: Option<bool>)
    requires NormalizesTo(enc, v, v') && NormalizesTo(enc, w, w') && TieFree(enc, v')
    requires SemanticEqualTo(enc, v, w, v', w', result)
    ensures result.Some? ==> (result.value <==> Reorders(v, w))
  {
    if result.Some? {
      NormalizeOnlyReorders(enc, v, v');
      NormalizeOnlyReorders(enc, w, w');
      ReordersSym(w, w');
      if v' == w' {
        ReordersTrans(v, v', w);
      }
      if Reorders(v, w) {
        Canonical(enc, v, w, v', w');
      }
    }
  }

  // ---- Ties are exactly what breaks it ----

  /** A normal form is one of its own normal forms. */
  lemma {:induction false} NormalFormIsFixed(enc: Encoding, v: Value, w: Value)
    requires NormalizesTo(enc, v, w)
    ensures NormalizesTo(enc, w, w)
    decreases v
  {
    match v
    case Pointer(t) => NormalFormIsFixed(enc, t, w.target);
    case Struct(fs) =>
      forall i | 0 <= i < |fs| ensures NormalizesTo(enc, w.fields[i], w.fields[i]) {
        NormalFormIsFixed(enc, fs[i], w.fields[i]);
      }
    case Slice(keyed, es) =>
      if es != [] {
        var mid :| VisitsAll(SortStep(enc), es, mid) && SortStep(enc)(keyed, mid, w.elems);
        PermutationFacts(mid, w.elems);
        forall i | 0 <= i < |w.elems| ensures NormalizesTo(enc, w.elems[i], w.elems[i]) {
          assert w.elems[i] in mid;
          var k :| 0 <= k < |mid| && mid[k] == w.elems[i];
          NormalFormIsFixed(enc, es[k], mid[k]);
        }
        assert VisitsAll(SortStep(enc), w.elems, w.elems);
        SortFailsPermutes(enc, keyed, mid, w.elems);
        assert SortStep(enc)(keyed, w.elems, w.elems);
      }
    case _ =>
  }

  /** A fixed value with a tie somewhere has a reordering with another normal form. */
  lemma {:induction false} TieGivesOtherForm(enc: Encoding, w: Value) returns (u: Value, u': Value)
    requires NormalizesTo(enc, w, w) && !Fails(enc, w) && !TieFree(enc, w)
    ensures Reorders(w, u) && NormalizesTo(enc, u, u') && u' != w
    decreases w
  {
    match w
    case Pointer(t) =>
      var x, x' := TieGivesOtherForm(enc, t);
      u, u' := Pointer(x), Pointer(x');
    case Struct(fs) =>
      var i :| 0 <= i < |fs| && !TieFree(enc, fs[i]);
      var x, x' := TieGivesOtherForm(enc, fs[i]);
      u, u' := Struct(fs[i := x]), Struct(fs[i := x']);
      forall j | 0 <= j < |fs| ensures Reorders(fs[j], u.fields[j]) {
        ReordersRefl(fs[j]);
      }
      assert u'.fields[i] != fs[i];
    case Slice(keyed, es) =>
      if TiesAreEqual(enc.Order(keyed), es) {
        u, u' := TieBelow(enc, w);
      } else {
        u := TieHere(enc, w);
        u' := u;
      }
    case _ =>
      assert false;
  }

  lemma {:induction false} FixedSlice(enc: Encoding, w: Value)
    requires w.Slice? && w.elems != [] && NormalizesTo(enc, w, w) && !Fails(enc, w)
    ensures VisitsAll(SortStep(enc), w.elems, w.elems) && Sorted(enc.Order(w.keyed), w.elems)
  {
    var keyed, es := w.keyed, w.elems;
    var mid :| VisitsAll(SortStep(enc), es, mid) && SortStep(enc)(keyed, mid, es);
    PermutationFacts(mid, es);
    forall i | 0 <= i < |es| ensures NormalizesTo(enc, es[i], es[i]) {
      assert es[i] in mid;
      var k :| 0 <= k < |mid| && mid[k] == es[i];
      NormalFormIsFixed(enc, es[k], mid[k]);
    }
  }

  /** The tie is in an element of the slice. */
  lemma {:induction false} TieBelow(enc: Encoding, w: Value) returns (u: Value, u': Value)
    requires w.Slice? && NormalizesTo(enc, w, w) && !Fails(enc, w) && !TieFree(enc, w)
    requires TiesAreEqual(enc.Order(w.keyed), w.elems)
    ensures Reorders(w, u) && NormalizesTo(enc, u, u') && u' != w
    decreases w, 0
  {
    var keyed, es := w.keyed, w.elems;
    FixedSlice(enc, w);
    var i :| 0 <= i < |es| && !TieFree(enc, es[i]);
    var x, x' := TieGivesOtherForm(enc, es[i]);
    ReorderOne(keyed, es, i, x);
    u := Slice(keyed, es[i := x]);
    u' := SortedReplacement(enc, keyed, es, i, x, x');
  }

  lemma SortedReplacement(enc: Encoding, keyed: bool, es: seq<Value>, i: nat, x: Value, x': Value) returns (u': Value)
    requires i < |es| && VisitsAll(SortStep(enc), es, es) && NormalizesTo(enc, x, x') && x' != es[i]
    ensures NormalizesTo(enc, Slice(keyed, es[i := x]), u') && u' != Slice(keyed, es)
  {
    var mid := es[i := x'];
    VisitsReplaced(SortStep(enc), es, i, x, x');
    var sorted := SortAfterVisit(enc, keyed, es[i := x], mid);
    u' := Slice(keyed, sorted);
    ReplaceChangesMultiset(es, i, x');
  }

  lemma VisitsReplaced(step: Step, es: seq<Value>, i: nat, x: Value, x': Value)
    requires i < |es| && VisitsAll(step, es, es) && Visits(step, x, x')
    ensures VisitsAll(step, es[i := x], es[i := x'])
  {
  }

  /** A slice whose elements are visited can be sorted. */
  lemma SortAfterVisit(enc: Encoding, keyed: bool, es: seq<Value>, mid: seq<Value>) returns (sorted: seq<Value>)
    requires es != [] && VisitsAll(SortStep(enc), es, mid)
    ensures Permutation(sorted, mid) && NormalizesTo(enc, Slice(keyed, es), Slice(keyed, sorted))
  {
    enc.OrderIsTotalPreorder(keyed);
    sorted := Sort(enc.Order(keyed), mid);
    assert Permutation(mid, sorted);
    assert SortStep(enc)(keyed, mid, sorted);
  }

  lemma ReplaceChangesMultiset(s: seq<Value>, i: nat, x: Value)
    requires i < |s| && x != s[i]
    ensures multiset(s[i := x]) != multiset(s)
  {
    assert multiset(s[i := x])[x] == multiset(s)[x] + 1;
  }

  lemma {:induction false} ReorderOne(keyed: bool, es: seq<Value>, i: nat, x: Value)
    requires i < |es| && Reorders(es[i], x)
    ensures Reorders(Slice(keyed, es), Slice(keyed, es[i := x]))
  {
    forall j | 0 <= j < |es| ensures Reorders(es[j], es[i := x][j]) {
      ReordersRefl(es[j]);
    }
    assert VisitsAll(Shuffle(), es, es[i := x]);
  }

  /** The tie is between two elements of the slice: swapping them leaves it sorted. */
  lemma {:induction false} TieHere(enc: Encoding, w: Value) returns (u: Value)
    requires w.Slice? && NormalizesTo(enc, w, w) && !Fails(enc, w)
    requires !TiesAreEqual(enc.Order(w.keyed), w.elems)
    ensures Reorders(w, u) && NormalizesTo(enc, u, u) && u != w
  {
    var keyed, es := w.keyed, w.elems;
    FixedSlice(enc, w);
    var i, j := FindTie(enc, keyed, es);
    u := Slice(keyed, Swap(es, i, j));
    SwapOfTies(enc, keyed, es, i, j);
    ReorderTop(keyed, es, i, j);
    VisitsSwap(enc, es, i, j);
    assert SortStep(enc)(keyed, u.elems, u.elems);
    assert u.elems[i] != es[i];
  }

  lemma FindTie(enc: Encoding, keyed: bool, es: seq<Value>) returns (i: nat, j: nat)
    requires !TiesAreEqual(enc.Order(keyed), es)
    ensures i < |es| && j < |es| && es[i] != es[j]
    ensures enc.Order(keyed)(es[i], es[j]) && enc.Order(keyed)(es[j], es[i])
  {
    var leq := enc.Order(keyed);
    var x, y :| x in es && y in es && leq(x, y) && leq(y, x) && x != y;
    i :| i < |es| && es[i] == x;
    j :| j < |es| && es[j] == y;
  }

  lemma VisitsSwap(enc: Encoding, es: seq<Value>, i: nat, j: nat)
    requires i < |es| && j < |es| && VisitsAll(SortStep(enc), es, es)
    ensures VisitsAll(SortStep(enc), Swap(es, i, j), Swap(es, i, j))
  {
  }

  lemma {:induction false} ReorderTop(keyed: bool, es: seq<Value>, i: nat, j: nat)
    requires i < |es| && j < |es|
    ensures Reorders(Slice(keyed, es), Slice(keyed, Swap(es, i, j)))
  {
    forall k | 0 <= k < |es| ensures Reorders(es[k], es[k]) {
      ReordersRefl(es[k]);
    }
    assert VisitsAll(Shuffle(), es, es);
    SwapPermutes(es, i, j);
    assert Shuffle()(keyed, es, Swap(es, i, j));
  }

  lemma SwapOfTies(enc: Encoding, keyed: bool, es: seq<Value>, i: nat, j: nat)
    requires i < |es| && j < |es| && Sorted(enc.Order(keyed), es)
    requires enc.Order(keyed)(es[i], es[j]) && enc.Order(keyed)(es[j], es[i])
    ensures Sorted(enc.Order(keyed), Swap(es, i, j))
  {
    CompareAntisymmetric(enc.SortText(keyed, es[i]), enc.SortText(keyed, es[j]));
    var swapped := Swap(es, i, j);
    assert forall p :: 0 <= p < |es| ==> enc.SortText(keyed, swapped[p]) == enc.SortText(keyed, es[p]);
    forall p, q | 0 <= p < q < |es| ensures enc.Order(keyed)(swapped[p], swapped[q]) {
      assert enc.Order(keyed)(es[p], es[q]);
    }
  }

  /** The normal form is the same for every reordering and every outcome of the sorts exactly
      when it holds no tie between different elements. */
  lemma CanonicalIffTieFree(enc: Encoding, v: Value, v': Value)
    requires NormalizesTo(enc, v, v') && !Fails(enc, v')
    ensures (forall w, w' :: Reorders(v, w) && NormalizesTo(enc, w, w') ==> w' == v') <==> TieFree(enc, v')
  {
    if TieFree(enc, v') {
      forall w, w' | Reorders(v, w) && NormalizesTo(enc, w, w') ensures w' == v' {
        Canonical(enc, v, w, v', w');
      }
    } else {
      NormalFormIsFixed(enc, v, v');
      var u, u' := TieGivesOtherForm(enc, v');
      NormalizeOnlyReorders(enc, v, v');
      ReordersTrans(v, v', u);
      assert Reorders(v, u) && NormalizesTo(enc, u, u') && u' != v';
    }
  }

  // ---- The condition, said of the value before ----

  /** Normalizing whatever reordering of a value gives a normal form of the value itself. */
  lemma {:induction false} NormalizeAfterReorder(enc: Encoding, v: Value, u: Value, w: Value)
    requires Reorders(v, u) && NormalizesTo(enc, u, w)
    ensures NormalizesTo(enc, v, w)
    decreases v
  {
    match v
    case Pointer(t) => NormalizeAfterReorder(enc, t, u.target, w.target);
    case Struct(fs) =>
      forall i | 0 <= i < |fs| ensures NormalizesTo(enc, fs[i], w.fields[i]) {
        NormalizeAfterReorder(enc, fs[i], u.fields[i], w.fields[i]);
      }
    case Slice(keyed, es) =>
      if es != [] {
        var mid :| VisitsAll(Shuffle(), es, mid) && Permutation(mid, u.elems);
        PermutationFacts(mid, u.elems);
        var next :| VisitsAll(SortStep(enc), u.elems, next) && SortStep(enc)(keyed, next, w.elems);
        var p, far := Transport(mid, u.elems, next);
        forall i | 0 <= i < |es| ensures NormalizesTo(enc, es[i], far[i]) {
          NormalizeAfterReorder(enc, es[i], mid[i], far[i]);
        }
        assert VisitsAll(SortStep(enc), es, far);
        SortFailsPermutes(enc, keyed, far, next);
        assert SortStep(enc)(keyed, far, w.elems);
      }
    case _ =>
  }

  lemma NormalizesTwice(enc: Encoding, v: Value, v': Value, v'': Value)
    requires NormalizesTo(enc, v, v') && NormalizesTo(enc, v', v'')
    ensures NormalizesTo(enc, v, v'')
  {
    NormalizeOnlyReorders(enc, v, v');
    NormalizeAfterReorder(enc, v, v', v'');
  }

  /** `x` and `y` have normal forms with one text. */
  ghost predicate CanTie(enc: Encoding, keyed: bool, x: Value, y: Value) {
    exists x', y' :: NormalizesTo(enc, x, x') && NormalizesTo(enc, y, y') && enc.SortText(keyed, x') == enc.SortText(keyed, y')
  }

  /** Elements of one slice that can tie are reorderings of each other. */
  ghost predicate TiesAreReorderings(enc: Encoding, keyed: bool, es: seq<Value>) {
    forall i, j :: 0 <= i < |es| && 0 <= j < |es| && CanTie(enc, keyed, es[i], es[j]) ==> Reorders(es[i], es[j])
  }

  /** The same of all slices of a value. */
  ghost predicate Unambiguous(enc: Encoding, v: Value)
    decreases v
  {
    match v
    case Pointer(t) => Unambiguous(enc, t)
    case Struct(fs) => forall i :: 0 <= i < |fs| ==> Unambiguous(enc, fs[i])
    case Slice(keyed, es) => TiesAreReorderings(enc, keyed, es) && forall i :: 0 <= i < |es| ==> Unambiguous(enc, es[i])
    case _ => true
  }

  lemma SameTextTies(enc: Encoding, keyed: bool, x: Value, y: Value)
    ensures enc.Order(keyed)(x, y) && enc.Order(keyed)(y, x) <==> enc.SortText(keyed, x) == enc.SortText(keyed, y)
  {
    CompareAntisymmetric(enc.SortText(keyed, x), enc.SortText(keyed, y));
  }

  /** A normal form holds no tie exactly when the value it came from is unambiguous. */
  lemma {:induction false} TieFreeIffUnambiguous(enc: Encoding, v: Value, v': Value)
    requires NormalizesTo(enc, v, v') && !Fails(enc, v')
    ensures TieFree(enc, v') <==> Unambiguous(enc, v)
    decreases v, 1
  {
    match v
    case Pointer(t) => TieFreeIffUnambiguous(enc, t, v'.target);
    case Struct(fs) =>
      forall i | 0 <= i < |fs| ensures TieFree(enc, v'.fields[i]) <==> Unambiguous(enc, fs[i]) {
        TieFreeIffUnambiguous(enc, fs[i], v'.fields[i]);
      }
    case Slice(keyed, es) =>
      if es != [] {
        SliceTieFreeIffUnambiguous(enc, keyed, es, v'.elems);
      }
    case _ =>
  }

  lemma {:induction false} SliceTieFreeIffUnambiguous(enc: Encoding, keyed: bool, es: seq<Value>, ys: seq<Value>)
    requires es != [] && NormalizesTo(enc, Slice(keyed, es), Slice(keyed, ys)) && !Fails(enc, Slice(keyed, ys))
    ensures TieFree(enc, Slice(keyed, ys)) <==> Unambiguous(enc, Slice(keyed, es))
    decreases Slice(keyed, es), 0
  {
    var mid :| VisitsAll(SortStep(enc), es, mid) && SortStep(enc)(keyed, mid, ys);
    ElementsNotFailing(enc, keyed, mid, ys);
    forall i | 0 <= i < |es| ensures TieFree(enc, mid[i]) <==> Unambiguous(enc, es[i]) {
      TieFreeIffUnambiguous(enc, es[i], mid[i]);
    }
    TieFreePermutes(enc, keyed, mid, ys);
    if TieFree(enc, Slice(keyed, ys)) {
      forall i, j | 0 <= i < |es| && 0 <= j < |es| && CanTie(enc, keyed, es[i], es[j]) ensures Reorders(es[i], es[j]) {
        TieOfNormalForms(enc, keyed, es[i], es[j], mid[i], mid[j]);
        assert mid[i] in mid && mid[j] in mid;
      }
    }
    if Unambiguous(enc, Slice(keyed, es)) {
      forall i, j | 0 <= i < |es| && 0 <= j < |es| && enc.SortText(keyed, mid[i]) == enc.SortText(keyed, mid[j])
        ensures mid[i] == mid[j]
      {
        assert CanTie(enc, keyed, es[i], es[j]);
        Canonical(enc, es[i], es[j], mid[i], mid[j]);
      }
      NoTiesByPosition(enc, keyed, mid);
    }
  }

  lemma ElementsNotFailing(enc: Encoding, keyed: bool, mid: seq<Value>, ys: seq<Value>)
    requires Permutation(mid, ys) && !Fails(enc, Slice(keyed, ys))
    ensures forall i :: 0 <= i < |mid| ==> !Fails(enc, mid[i])
  {
    PermutationFacts(mid, ys);
    forall i | 0 <= i < |mid| ensures !Fails(enc, mid[i]) {
      assert mid[i] in ys;
      var k :| 0 <= k < |ys| && ys[k] == mid[i];
    }
  }

  lemma TieFreePermutes(enc: Encoding, keyed: bool, mid: seq<Value>, ys: seq<Value>)
    requires Permutation(mid, ys)
    ensures TieFree(enc, Slice(keyed, ys)) <==>
      TiesAreEqual(enc.Order(keyed), mid) && forall i :: 0 <= i < |mid| ==> TieFree(enc, mid[i])
  {
    PermutationFacts(mid, ys);
    if TieFree(enc, Slice(keyed, ys)) {
      forall i | 0 <= i < |mid| ensures TieFree(enc, mid[i]) {
        assert mid[i] in ys;
        var k :| 0 <= k < |ys| && ys[k] == mid[i];
      }
    }
    if TiesAreEqual(enc.Order(keyed), mid) && forall i :: 0 <= i < |mid| ==> TieFree(enc, mid[i]) {
      forall k | 0 <= k < |ys| ensures TieFree(enc, ys[k]) {
        assert ys[k] in mid;
        var i :| 0 <= i < |mid| && mid[i] == ys[k];
      }
    }
  }

  lemma NoTiesByPosition(enc: Encoding, keyed: bool, mid: seq<Value>)
    requires forall i, j :: 0 <= i < |mid| && 0 <= j < |mid| && enc.SortText(keyed, mid[i]) == enc.SortText(keyed, mid[j]) ==> mid[i] == mid[j]
    ensures TiesAreEqual(enc.Order(keyed), mid)
  {
    forall x, y | x in mid && y in mid && enc.Order(keyed)(x, y) && enc.Order(keyed)(y, x) ensures x == y {
      SameTextTies(enc, keyed, x, y);
      var i :| 0 <= i < |mid| && mid[i] == x;
      var j :| 0 <= j < |mid| && mid[j] == y;
    }
  }

  /** If tie-free normal forms of two values are the same where they tie, the values are reorderings
      of each other where they can. */
  lemma TieOfNormalForms(enc: Encoding, keyed: bool, x: Value, y: Value, x': Value, y': Value)
    requires NormalizesTo(enc, x, x') && NormalizesTo(enc, y, y') && CanTie(enc, keyed, x, y)
    requires !Fails(enc, x') && TieFree(enc, x') && !Fails(enc, y') && TieFree(enc, y')
    requires enc.Order(keyed)(x', y') && enc.Order(keyed)(y', x') ==> x' == y'
    ensures Reorders(x, y)
  {
    var a, b :| NormalizesTo(enc, x, a) && NormalizesTo(enc, y, b) && enc.SortText(keyed, a) == enc.SortText(keyed, b);
    ReordersRefl(x);
    ReordersRefl(y);
    Canonical(enc, x, x, x', a);
    Canonical(enc, y, y, y', b);
    SameTextTies(enc, keyed, x', y');
    NormalizeOnlyReorders(enc, x, x');
    NormalizeOnlyReorders(enc, y, y');
    ReordersSym(y, y');
    ReordersTrans(x, x', y);
  }

  /** All reorderings of a value have one normal form exactly when, in each of its slices, elements
      whose normal forms can have one text are reorderings of each other. */
  lemma CanonicalIffUnambiguous(enc: Encoding, v: Value, v': Value)
    requires NormalizesTo(enc, v, v') && !Fails(enc, v')
    ensures (forall w, w' :: Reorders(v, w) && NormalizesTo(enc, w, w') ==> w' == v') <==> Unambiguous(enc, v)
  {
    TieFreeIffUnambiguous(enc, v, v');
    CanonicalIffTieFree(enc, v, v');
  }

  // ---- Encodings that always work ----

  /** `x` is a normal form, reached without an error. */
  ghost predicate Normal(enc: Encoding, x: Value) {
    NormalizesTo(enc, x, x) && !Fails(enc, x)
  }

  /** Different normal forms that can stand in one slice are compared by different texts. */
  ghost predicate TellsApart(enc: Encoding) {
    forall keyed, x, y :: Normal(enc, x) && Normal(enc, y) ==> ToldApart(enc, keyed, x, y)
  }

  ghost predicate ToldApart(enc: Encoding, keyed: bool, x: Value, y: Value) {
    !enc.Unencodable(keyed, x) && !enc.Unencodable(keyed, y) && enc.SortText(keyed, x) == enc.SortText(keyed, y) ==> x == y
  }

  /** Reorderings always have one normal form, unless an error is reported. */
  ghost predicate AlwaysCanonical(enc: Encoding) {
    forall v, w, v', w' ::
      Reorders(v, w) && NormalizesTo(enc, v, v') && NormalizesTo(enc, w, w') && !Fails(enc, v') ==> v' == w'
  }

  lemma {:induction false} NormalFormsTieFree(enc: Encoding, x: Value)
    requires TellsApart(enc) && Normal(enc, x)
    ensures TieFree(enc, x)
    decreases x
  {
    match x
    case Pointer(t) => NormalFormsTieFree(enc, t);
    case Struct(fs) =>
      forall i | 0 <= i < |fs| ensures TieFree(enc, fs[i]) {
        NormalFormsTieFree(enc, fs[i]);
      }
    case Slice(keyed, es) =>
      if es != [] {
        FixedSlice(enc, x);
        forall i | 0 <= i < |es| ensures Normal(enc, es[i]) && TieFree(enc, es[i]) {
          NormalFormsTieFree(enc, es[i]);
        }
        NoTiesAmongNormal(enc, keyed, es);
      }
    case _ =>
  }

  lemma NoTiesAmongNormal(enc: Encoding, keyed: bool, es: seq<Value>)
    requires TellsApart(enc) && !SortFails(enc, keyed, es)
    requires forall i :: 0 <= i < |es| ==> Normal(enc, es[i])
    ensures TiesAreEqual(enc.Order(keyed), es)
  {
    forall x, y | x in es && y in es && enc.Order(keyed)(x, y) && enc.Order(keyed)(y, x) ensures x == y {
      CompareAntisymmetric(enc.SortText(keyed, x), enc.SortText(keyed, y));
      if |es| > 1 {
        assert ToldApart(enc, keyed, x, y);
      }
    }
  }

  /** Two different normal forms with one text make a slice that two sorts may leave differently. */
  lemma TieMakesDifference(enc: Encoding, keyed: bool, x: Value, y: Value)
    requires Normal(enc, x) && Normal(enc, y) && !ToldApart(enc, keyed, x, y)
    ensures !AlwaysCanonical(enc)
  {
    var es := [x, y];
    var v := Slice(keyed, es);
    assert VisitsAll(SortStep(enc), es, es);
    assert Compare(enc.SortText(keyed, x), enc.SortText(keyed, y)) == 0;
    forall i, j | 0 <= i < j < |es| ensures enc.Order(keyed)(es[i], es[j]) {
      assert i == 0 && j == 1;
    }
    assert Sorted(enc.Order(keyed), es) && Permutation(es, es);
    assert SortStep(enc)(keyed, es, es);
    assert es[0] == x && es[1] == y && x in es && y in es;
    assert !SortFails(enc, keyed, es);
    assert !TiesAreEqual(enc.Order(keyed), es);
    CanonicalIffTieFree(enc, v, v);
  }

  /** Whatever the data, reorderings have one normal form exactly when the encoding tells different
      normal forms apart; an injective encoding does. */
  lemma AlwaysCanonicalIff(enc: Encoding)
    ensures AlwaysCanonical(enc) <==> TellsApart(enc)
  {
    if TellsApart(enc) {
      forall v, w, v', w' | Reorders(v, w) && NormalizesTo(enc, v, v') && NormalizesTo(enc, w, w') && !Fails(enc, v')
        ensures v' == w'
      {
        NormalFormIsFixed(enc, v, v');
        NormalFormsTieFree(enc, v');
        Canonical(enc, v, w, v', w');
      }
    } else {
      var keyed, x, y :| Normal(enc, x) && Normal(enc, y) && !ToldApart(enc, keyed, x, y);
      TieMakesDifference(enc, keyed, x, y);
    }
  }

  ghost predicate InjectiveEncoding(enc: Encoding) {
    && (forall x, y :: enc.key(x) == enc.key(y) ==> x == y)
    && (forall x :: enc.json(x).Some?)
    && (forall x, y :: enc.json(x) == enc.json(y) ==> x == y)
  }

  /** With an injective encoding that never fails no error is reported, and reorderings have one
      normal form. */
  lemma InjectiveIsCanonical(enc: Encoding, v: Value, w: Value, v': Value, w': Value)
    requires InjectiveEncoding(enc)
    requires Reorders(v, w) && NormalizesTo(enc, v, v') && NormalizesTo(enc, w, w')
    ensures v' == w' && !Fails(enc, v')
  {
    NeverFails(enc, v');
    forall keyed, x, y | Normal(enc, x) && Normal(enc, y) ensures ToldApart(enc, keyed, x, y) {
      assert enc.json(x).Some? && enc.json(y).Some?;
    }
    AlwaysCanonicalIff(enc);
  }

  lemma {:induction false} NeverFails(enc: Encoding, w: Value)
    requires forall x :: enc.json(x).Some?
    ensures !Fails(enc, w)
    decreases w
  {
    match w
    case Pointer(t) => NeverFails(enc, t);
    case Struct(fs) =>
      forall i | 0 <= i < |fs| ensures !Fails(enc, fs[i]) {
        NeverFails(enc, fs[i]);
      }
    case Slice(keyed, es) =>
      forall i | 0 <= i < |es| ensures !Fails(enc, es[i]) {
        NeverFails(enc, es[i]);
      }
    case _ =>
  }

  /** Every value has a normal form. */
  lemma {:induction false} NormalFormExists(enc: Encoding, v: Value) returns (w: Value)
    ensures NormalizesTo(enc, v, w)
    decreases v
  {
    match v
    case Pointer(t) =>
      var x := NormalFormExists(enc, t);
      w := Pointer(x);
    case Struct(fs) =>
      var out := NormalForms(enc, fs);
      w := Struct(out);
    case Slice(keyed, es) =>
      var mid := NormalForms(enc, es);
      enc.OrderIsTotalPreorder(keyed);
      w := Slice(keyed, Sort(enc.Order(keyed), mid));
      PermutationFacts(mid, w.elems);
      assert SortStep(enc)(keyed, mid, w.elems);
    case _ => w := v;
  }

  lemma {:induction false} NormalForms(enc: Encoding, es: seq<Value>) returns (mid: seq<Value>)
    ensures VisitsAll(SortStep(enc), es, mid)
    decreases es
  {
    if es == [] {
      mid := [];
    } else {
      var head := NormalFormExists(enc, es[0]);
      var tail := NormalForms(enc, es[1..]);
      mid := [head] + tail;
      assert forall i :: 0 < i < |es| ==> es[i] == es[1..][i - 1] && mid[i] == tail[i - 1];
    }
  }
}
