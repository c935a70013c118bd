/** `Normalize` on the heap: slices are backing arrays, sorted in place during the traversal
    (internal/cmp/normalize.go, lines 50-126). */
module NormalizeInPlace {
  import opened Text
  import opened Sorting
  import opened Normalize
  import opened NormalForms

  /** Go data as it lies in memory. Pointers and struct fields are never written by the
      traversal, only the elements of backing arrays are. */
  datatype Data =
    | DScalar(text: string)
    | DBytes(data: string)
    | DNilPointer
    | DPointer(target: Data)
    | DStruct(fields: seq<Data>)
    | DUnexported(hidden: Data)
    | DNilSlice
    | DSlice(keyed: bool, backing: array<Data>)

  /** The value a piece of data denotes, together with the backing arrays that hold it. */
  datatype Layout =
    | LScalar(text: string)
    | LBytes(data: string)
    | LNilPointer
    | LPointer(target: Layout)
    | LStruct(fields: seq<Layout>)
    | LUnexported(hidden: Layout)
    | LNilSlice
    | LSlice(keyed: bool, backing: array<Data>, elems: seq<Layout>)

  function ValueOf(l: Layout): Value
    decreases l
  {
    match l
    case LScalar(t) => Scalar(t)
    case LBytes(d) => Bytes(d)
    case LNilPointer => NilPointer
    case LPointer(t) => Pointer(ValueOf(t))
    case LStruct(fs) => Struct(ValuesOf(fs))
    case LUnexported(h) => Unexported(ValueOf(h))
    case LNilSlice => NilSlice
    case LSlice(k, _, es) => Slice(k, ValuesOf(es))
  }

  function ValuesOf(es: seq<Layout>): (vs: seq<Value>)
    ensures |vs| == |es| && forall i :: 0 <= i < |es| ==> vs[i] == ValueOf(es[i])
    decreases es
  {
    seq(|es|, i requires 0 <= i < |es| => ValueOf(es[i]))
  }

  /** The backing arrays of a layout. */
  ghost function Arrays(l: Layout): set<array<Data>>
    decreases l
  {
    match l
    case LPointer(t) => Arrays(t)
    case LStruct(fs) => ArraysOf(fs)
    case LUnexported(h) => Arrays(h)
    case LSlice(_, a, es) => {a} + ArraysOf(es)
    case _ => {}
  }

  ghost function ArraysOf(es: seq<Layout>): (r: set<array<Data>>)
    ensures forall i :: 0 <= i < |es| ==> Arrays(es[i]) <= r
    decreases es
  {
    set i, x | 0 <= i < |es| && x in Arrays(es[i]) :: x
  }

  /** No backing array is shared between two places. */
  ghost predicate Separate(l: Layout)
    decreases l
  {
    match l
    case LPointer(t) => Separate(t)
    case LStruct(fs) => SeparateAll(fs)
    case LUnexported(h) => Separate(h)
    case LSlice(_, a, es) => a !in ArraysOf(es) && SeparateAll(es)
    case _ => true
  }

  ghost predicate SeparateAll(es: seq<Layout>)
    decreases es
  {
    && (forall i :: 0 <= i < |es| ==> Separate(es[i]))
    && (forall i, j :: 0 <= i < j < |es| ==> Arrays(es[i]) !! Arrays(es[j]))
  }

  /** `d` is laid out in memory as `l`. */
  ghost predicate Holds(d: Data, l: Layout)
    reads Arrays(l)
    decreases l
  {
    match l
    case LScalar(t) => d == DScalar(t)
    case LBytes(b) => d == DBytes(b)
    case LNilPointer => d == DNilPointer
    case LPointer(t) => d.DPointer? && Holds(d.target, t)
    case LStruct(fs) => d.DStruct? && HoldsEach(d.fields, fs)
    case LUnexported(h) => d.DUnexported? && Holds(d.hidden, h)
    case LNilSlice => d == DNilSlice
    case LSlice(k, a, es) => d == DSlice(k, a) && HoldsEach(a[..], es)
  }

  ghost predicate HoldsEach(ds: seq<Data>, es: seq<Layout>)
    reads ArraysOf(es)
    decreases es
  {
    |ds| == |es| && forall i :: 0 <= i < |es| ==> Holds(ds[i], es[i])
  }

  /** Reads the value of a piece of data off the heap, as marshalling an element does. */
  function Snapshot(d: Data, ghost l: Layout): (v: Value)
    requires Holds(d, l)
    reads Arrays(l)
    ensures v == ValueOf(l)
    decreases l
  {
    match d
    case DScalar(t) => Scalar(t)
    case DBytes(b) => Bytes(b)
    case DNilPointer => NilPointer
    case DPointer(t) => Pointer(Snapshot(t, l.target))
    case DStruct(fs) => Struct(SnapshotEach(fs, l.fields))
    case DUnexported(h) => Unexported(Snapshot(h, l.hidden))
    case DNilSlice => NilSlice
    case DSlice(k, a) => Slice(k, SnapshotEach(a[..], l.elems))
  }

  function SnapshotEach(ds: seq<Data>, ghost es: seq<Layout>): (vs: seq<Value>)
    requires HoldsEach(ds, es)
    reads ArraysOf(es)
    ensures vs == ValuesOf(es)
    decreases es
  {
    seq(|ds|, i requires 0 <= i < |ds| && HoldsEach(ds, es) reads ArraysOf(es) => Snapshot(ds[i], es[i]))
  }

  // ---- In-place sorting of one backing array ----

  /** `a` holds the elements laid out as `es`, and these do not share memory with it. */
  ghost predicate HoldsAll(a: array<Data>, es: seq<Layout>)
    reads a, ArraysOf(es)
  {
    a !in ArraysOf(es) && SeparateAll(es) && HoldsEach(a[..], es)
  }

  /** Where position `k` of a swapped sequence comes from. */
  function Origin(i: nat, j: nat, k: nat): nat {
    if k == i then j else if k == j then i else k
  }

  lemma SwappedArrays(es: seq<Layout>, i: nat, j: nat)
    requires i < |es| && j < |es|
    ensures ArraysOf(Swap(es, i, j)) <= ArraysOf(es)
  {
    var t := Swap(es, i, j);
    forall x | x in ArraysOf(t) ensures x in ArraysOf(es) {
      var k :| 0 <= k < |t| && x in Arrays(t[k]);
      assert t[k] == es[Origin(i, j, k)];
    }
  }

  lemma SwappedSeparate(es: seq<Layout>, i: nat, j: nat)
    requires i < |es| && j < |es| && SeparateAll(es)
    ensures SeparateAll(Swap(es, i, j))
  {
    var t := Swap(es, i, j);
    forall p, q | 0 <= p < q < |t| ensures Arrays(t[p]) !! Arrays(t[q]) {
      var p', q' := Origin(i, j, p), Origin(i, j, q);
      assert t[p] == es[p'] && t[q] == es[q'] && p' != q';
    }
  }

  lemma SwappedArraysBack(es: seq<Layout>, i: nat, j: nat)
    requires i < |es| && j < |es|
    ensures ArraysOf(es) <= ArraysOf(Swap(es, i, j))
  {
    var t := Swap(es, i, j);
    forall x | x in ArraysOf(es) ensures x in ArraysOf(t) {
      var k :| 0 <= k < |es| && x in Arrays(es[k]);
      assert es[k] == t[Origin(i, j, k)];
    }
  }

  lemma SwappedValues(es: seq<Layout>, i: nat, j: nat)
    requires i < |es| && j < |es|
    ensures ValuesOf(Swap(es, i, j)) == Swap(ValuesOf(es), i, j)
  {
    var t, vs := Swap(es, i, j), ValuesOf(es);
    forall k | 0 <= k < |es| ensures ValueOf(t[k]) == Swap(vs, i, j)[k] {
      assert t[k] == es[Origin(i, j, k)] && Swap(vs, i, j)[k] == vs[Origin(i, j, k)];
    }
    assert ValuesOf(t) == Swap(vs, i, j);
  }

  lemma SwapLayouts(es: seq<Layout>, i: nat, j: nat)
    requires i < |es| && j < |es| && SeparateAll(es)
    ensures SeparateAll(Swap(es, i, j)) && ArraysOf(Swap(es, i, j)) == ArraysOf(es)
    ensures ValuesOf(Swap(es, i, j)) == Swap(ValuesOf(es), i, j)
  {
    SwappedSeparate(es, i, j);
    SwappedArrays(es, i, j);
    SwappedArraysBack(es, i, j);
    SwappedValues(es, i, j);
  }

  /** One comparison of the sort: `Key` texts for keyed element types, JSON texts otherwise; a
      marshalling error is recorded and reads as "not less". */
  function Less(enc: Encoding, keyed: bool, x: Data, y: Data, ghost lx: Layout, ghost ly: Layout): (r: Option<bool>)
    requires Holds(x, lx) && Holds(y, ly)
    reads Arrays(lx), Arrays(ly)
    ensures r.None? <==> enc.Unencodable(keyed, ValueOf(lx)) || enc.Unencodable(keyed, ValueOf(ly))
    ensures r.Some? ==> (r.value <==> !enc.Order(keyed)(ValueOf(ly), ValueOf(lx)))
    ensures keyed ==> r == Some(Precedes(enc.key(ValueOf(lx)), enc.key(ValueOf(ly))))
    ensures !keyed && r.Some? ==> (r.value <==> Precedes(enc.json(ValueOf(lx)).value, enc.json(ValueOf(ly)).value))
  {
    var vx, vy := Snapshot(x, lx), Snapshot(y, ly);
    if keyed then
      CompareAntisymmetric(enc.key(vx), enc.key(vy));
      CompareIsByteOrder(enc.key(vx), enc.key(vy));
      Some(Compare(enc.key(vx), enc.key(vy)) < 0)
    else
      var jx, jy := enc.json(vx), enc.json(vy);
      if jx.None? || jy.None? then None
      else
        CompareAntisymmetric(jx.value, jy.value);
        CompareIsByteOrder(jx.value, jy.value);
        Some(Compare(jx.value, jy.value) < 0)
  }

  /** `a` holds data of the values `vs`, laid out as `es` over the arrays `under`. */
  ghost predicate Laid(a: array<Data>, es: seq<Layout>, vs: seq<Value>, under: set<array<Data>>)
    reads a, ArraysOf(es)
  {
    HoldsAll(a, es) && ValuesOf(es) == vs && ArraysOf(es) == under
  }

  function LessThanLeft(enc: Encoding, keyed: bool, a: array<Data>, j: nat,
      ghost es: seq<Layout>, ghost vs: seq<Value>, ghost under: set<array<Data>>): (r: Option<bool>)
    requires 0 < j < a.Length == |vs| && Laid(a, es, vs, under)
    reads a, under
    ensures r.None? <==> enc.Unencodable(keyed, vs[j]) || enc.Unencodable(keyed, vs[j - 1])
    ensures r.Some? ==> (r.value <==> !enc.Order(keyed)(vs[j - 1], vs[j]))
  {
    Less(enc, keyed, a[j], a[j - 1], es[j], es[j - 1])
  }

  /** Compares the element at `j` with its left neighbour and swaps them if it is less. */
  method CompareSwap(enc: Encoding, keyed: bool, a: array<Data>, j: nat,
      ghost es: seq<Layout>, ghost vs: seq<Value>, ghost under: set<array<Data>>)
    returns (less: Option<bool>, ghost es': seq<Layout>)
    requires 0 < j < a.Length == |vs| && Laid(a, es, vs, under)
    modifies a
    ensures less.None? <==> enc.Unencodable(keyed, vs[j]) || enc.Unencodable(keyed, vs[j - 1])
    ensures less.Some? ==> (less.value <==> !enc.Order(keyed)(vs[j - 1], vs[j]))
    ensures Laid(a, es', if less == Some(true) then Swap(vs, j - 1, j) else vs, under)
  {
    less, es' := LessThanLeft(enc, keyed, a, j, es, vs, under), es;
    if less == Some(true) {
      es' := SwapElements(a, j - 1, j, es, vs, under);
    }
  }

  method SwapElements(a: array<Data>, i: nat, j: nat,
      ghost es: seq<Layout>, ghost vs: seq<Value>, ghost under: set<array<Data>>)
    returns (ghost es': seq<Layout>)
    requires i < a.Length && j < a.Length == |vs| && Laid(a, es, vs, under)
    modifies a
    ensures Laid(a, es', Swap(vs, i, j), under)
  {
    SwapLayouts(es, i, j);
    es' := Swap(es, i, j);
    a[i], a[j] := a[j], a[i];
  }

  /** Neighbours up to `i` are in order, but for the pair that ends at `j`. */
  ghost predicate AdjacentBut(leq: (Value, Value) -> bool, vs: seq<Value>, i: nat, j: nat)
    requires j <= i < |vs|
  {
    && (forall p, q :: 0 <= p && q == p + 1 <= i && q != j ==> leq(vs[p], vs[q]))
    && (0 < j < i ==> leq(vs[j - 1], vs[j + 1]))
  }

  lemma AdjacentAfterSwap(leq: (Value, Value) -> bool, vs: seq<Value>, i: nat, j: nat)
    requires 0 < j <= i < |vs| && AdjacentBut(leq, vs, i, j) && leq(vs[j], vs[j - 1])
    ensures AdjacentBut(leq, Swap(vs, j - 1, j), i, j - 1)
  {
    if j > 1 {
      assert leq(vs[j - 2], vs[j - 1]);
    }
  }

  /** The element that was at `i` has moved down to `j`, and no comparison has failed. `ordered`
      says that none had failed before; after a failure the sort goes on, without a promise. */
  ghost predicate Sinking(enc: Encoding, keyed: bool, start: seq<Value>, vs: seq<Value>, i: nat, j: nat, ordered: bool) {
    && 0 < i < |start| && j <= i && |vs| == |start|
    && (forall k :: i < k < |start| ==> vs[k] == start[k])
    && (j == i ==> vs == start)
    && (j < i ==> !enc.Unencodable(keyed, start[i]) && !enc.Unencodable(keyed, start[i - 1]))
    && (ordered ==> AdjacentBut(enc.Order(keyed), vs, i, j))
  }

  lemma SinkingStepOrdered(enc: Encoding, keyed: bool, vs: seq<Value>, i: nat, j: nat)
    requires 0 < j <= i < |vs| && AdjacentBut(enc.Order(keyed), vs, i, j)
    requires !enc.Order(keyed)(vs[j - 1], vs[j])
    ensures AdjacentBut(enc.Order(keyed), Swap(vs, j - 1, j), i, j - 1)
  {
    CompareAntisymmetric(enc.SortText(keyed, vs[j]), enc.SortText(keyed, vs[j - 1]));
    AdjacentAfterSwap(enc.Order(keyed), vs, i, j);
  }

  lemma SinkingStep(enc: Encoding, keyed: bool, start: seq<Value>, vs: seq<Value>, i: nat, j: nat, ordered: bool)
    requires j > 0 && Sinking(enc, keyed, start, vs, i, j, ordered)
    requires !enc.Unencodable(keyed, vs[j]) && !enc.Unencodable(keyed, vs[j - 1])
    requires !enc.Order(keyed)(vs[j - 1], vs[j])
    ensures Sinking(enc, keyed, start, Swap(vs, j - 1, j), i, j - 1, ordered)
  {
    if ordered {
      SinkingStepOrdered(enc, keyed, vs, i, j);
    }
  }

  ghost predicate SinkingPermuted(enc: Encoding, keyed: bool, start: seq<Value>, vs: seq<Value>, i: nat, j: nat, ordered: bool) {
    Sinking(enc, keyed, start, vs, i, j, ordered) && Permutation(vs, start)
  }

  lemma SinkingPermutedStep(enc: Encoding, keyed: bool, start: seq<Value>, vs: seq<Value>, i: nat, j: nat, ordered: bool)
    requires j > 0 && SinkingPermuted(enc, keyed, start, vs, i, j, ordered)
    requires !enc.Unencodable(keyed, vs[j]) && !enc.Unencodable(keyed, vs[j - 1])
    requires !enc.Order(keyed)(vs[j - 1], vs[j])
    ensures SinkingPermuted(enc, keyed, start, Swap(vs, j - 1, j), i, j - 1, ordered)
  {
    SinkingStep(enc, keyed, start, vs, i, j, ordered);
    SwapKeepsPermutation(vs, start, j - 1, j);
  }

  lemma SwapKeepsPermutation(vs: seq<Value>, start: seq<Value>, i: nat, j: nat)
    requires i < |vs| && j < |vs| && Permutation(vs, start)
    ensures Permutation(Swap(vs, i, j), start)
  {
    SwapPermutes(vs, i, j);
  }

  /** What one insertion of the element at `i` leaves. */
  ghost predicate Sunk(enc: Encoding, keyed: bool, start: seq<Value>, vs: seq<Value>, i: nat, ordered: bool, err: bool) {
    && 0 < i < |start| && |vs| == |start|
    && Permutation(vs, start)
    && (forall k :: i < k < |start| ==> vs[k] == start[k])
    && (enc.Unencodable(keyed, start[i]) || (i == 1 && enc.Unencodable(keyed, start[0])) ==> err)
    && (err ==> exists x :: x in start && enc.Unencodable(keyed, x))
    && (ordered && !err ==> AdjacentBut(enc.Order(keyed), vs, i, 0))
  }

  lemma SinkingStops(enc: Encoding, keyed: bool, start: seq<Value>, vs: seq<Value>, i: nat, j: nat, ordered: bool, less: Option<bool>)
    requires SinkingPermuted(enc, keyed, start, vs, i, j, ordered)
    requires j > 0 ==> (less.None? <==> enc.Unencodable(keyed, vs[j]) || enc.Unencodable(keyed, vs[j - 1]))
    requires j > 0 && less.Some? ==> enc.Order(keyed)(vs[j - 1], vs[j])
    ensures Sunk(enc, keyed, start, vs, i, ordered, j > 0 && less.None?)
  {
    PermutationFacts(vs, start);
    if j > 0 {
      assert vs[j] in start && vs[j - 1] in start;
    }
  }

  method Sink(enc: Encoding, keyed: bool, a: array<Data>, i: nat,
      ghost es: seq<Layout>, ghost start: seq<Value>, ghost under: set<array<Data>>, ghost ordered: bool)
    returns (err: bool, ghost es': seq<Layout>, ghost vs: seq<Value>)
    requires 0 < i < a.Length == |start| && Laid(a, es, start, under)
    requires ordered ==> AdjacentBut(enc.Order(keyed), start, i, i)
    modifies a
    ensures Laid(a, es', vs, under) && Sunk(enc, keyed, start, vs, i, ordered, err)
  {
    es', vs := es, start;
    var j := i;
    while j > 0
      invariant SinkingPermuted(enc, keyed, start, vs, i, j, ordered)
      invariant Laid(a, es', vs, under)
    {
      var less;
      less, es' := CompareSwap(enc, keyed, a, j, es', vs, under);
      if less != Some(true) {
        SinkingStops(enc, keyed, start, vs, i, j, ordered, less);
        return less.None?, es', vs;
      }
      SinkingPermutedStep(enc, keyed, start, vs, i, j, ordered);
      vs := Swap(vs, j - 1, j);
      j := j - 1;
    }
    SinkingStops(enc, keyed, start, vs, i, 0, ordered, Some(false));
    return false, es', vs;
  }

  /** What sorting one backing array leaves: `SortStep`, and an error exactly when a comparison failed. */
  method SortElements(enc: Encoding, keyed: bool, a: array<Data>,
      ghost es: seq<Layout>, ghost start: seq<Value>, ghost under: set<array<Data>>)
    returns (err: bool, ghost es': seq<Layout>, ghost vs: seq<Value>)
    requires Laid(a, es, start, under)
    modifies a
    ensures Laid(a, es', vs, under) && SortStep(enc)(keyed, start, vs)
    ensures err <==> SortFails(enc, keyed, start)
    ensures if err then Unsortable(enc, keyed, vs) else Ascends(enc, keyed, vs)
  {
    err, es', vs := false, es, start;
    var i := 1;
    while i < a.Length
      invariant if a.Length <= 1 then i == 1 else 1 <= i <= a.Length
      invariant Laid(a, es', vs, under) && Inserted(enc, keyed, start, vs, i, err)
    {
      var e; ghost var vs';
      e, es', vs' := Sink(enc, keyed, a, i, es', vs, under, !err);
      InsertedStep(enc, keyed, start, vs, vs', i, err, e);
      err, vs := err || e, vs';
      i := i + 1;
    }
    InsertedAll(enc, keyed, start, vs, i, err);
    SortFailsPermutes(enc, keyed, start, vs);
    SortedMeansAscends(enc, keyed, vs);
  }

  /** The first `i` elements have been inserted; `err` says that a comparison has failed. */
  ghost predicate Inserted(enc: Encoding, keyed: bool, start: seq<Value>, vs: seq<Value>, i: nat, err: bool) {
    && |vs| == |start| && i > 0 && Permutation(vs, start)
    && (forall k :: i <= k < |start| ==> vs[k] == start[k])
    && (i == 1 ==> vs == start && !err)
    && (i > 1 ==> forall k :: 0 <= k < i && k < |start| && enc.Unencodable(keyed, start[k]) ==> err)
    && (err ==> exists x :: x in start && enc.Unencodable(keyed, x))
    && (!err && i <= |vs| ==> forall p, q :: 0 <= p && q == p + 1 < i ==> enc.Order(keyed)(vs[p], vs[q]))
  }

  lemma InsertedStep(enc: Encoding, keyed: bool, start: seq<Value>, vs: seq<Value>, vs': seq<Value>, i: nat, err: bool, e: bool)
    requires i < |start| && Inserted(enc, keyed, start, vs, i, err)
    requires Sunk(enc, keyed, vs, vs', i, !err, e)
    ensures Inserted(enc, keyed, start, vs', i + 1, err || e)
  {
    PermutationFacts(vs, start);
  }

  lemma InsertedAll(enc: Encoding, keyed: bool, start: seq<Value>, vs: seq<Value>, i: nat, err: bool)
    requires Inserted(enc, keyed, start, vs, i, err) && (i == |start| || i == 1 >= |start|)
    ensures SortStep(enc)(keyed, start, vs)
    ensures err <==> SortFails(enc, keyed, start)
  {
    PermutationFacts(vs, start);
    if !err {
      enc.OrderIsTotalPreorder(keyed);
      AdjacentSorted(enc.Order(keyed), vs);
    } else {
      assert SortFails(enc, keyed, start);
    }
    assert Permutation(start, vs);
    assert SortFails(enc, keyed, start) || Sorted(enc.Order(keyed), vs);
  }

  // ---- The traversal ----

  /** Another layout over the same arrays can take an element's place. */
  lemma ReplaceLayout(es: seq<Layout>, i: nat, l: Layout)
    requires i < |es| && SeparateAll(es) && Separate(l) && Arrays(l) == Arrays(es[i])
    ensures SeparateAll(es[i := l]) && ArraysOf(es[i := l]) == ArraysOf(es)
    ensures ValuesOf(es[i := l]) == ValuesOf(es)[i := ValueOf(l)]
  {
    var t := es[i := l];
    assert forall k :: 0 <= k < |es| ==> Arrays(t[k]) == Arrays(es[k]);
  }

  /** `Normalize` turned `v` into `w` and returned an error or not. */
  ghost predicate Outcome(enc: Encoding, v: Value, w: Value, err: bool) {
    NormalizesTo(enc, v, w) && (err <==> Fails(enc, w))
  }

  lemma OutcomeAscends(enc: Encoding, v: Value, w: Value, err: bool)
    requires Outcome(enc, v, w, err)
    ensures if err then SomeUnsortable(enc, w) else AllAscend(enc, w)
  {
    FailsIff(enc, w);
    WithoutErrorAscends(enc, v, w);
  }

  ghost predicate AnyFails(enc: Encoding, vs: seq<Value>) {
    exists i :: 0 <= i < |vs| && Fails(enc, vs[i])
  }

  lemma PointerOutcome(enc: Encoding, v: Value, w: Value, err: bool)
    requires Outcome(enc, v, w, err)
    ensures Outcome(enc, Pointer(v), Pointer(w), err)
  {
  }

  lemma StructOutcome(enc: Encoding, vs: seq<Value>, ws: seq<Value>, err: bool)
    requires VisitsAll(SortStep(enc), vs, ws)
    requires err <==> AnyFails(enc, ws)
    ensures Outcome(enc, Struct(vs), Struct(ws), err)
  {
    if err {
      var i :| 0 <= i < |ws| && Fails(enc, ws[i]);
      assert Fails(enc, Struct(ws));
    }
  }

  lemma LeafOutcome(enc: Encoding, v: Value)
    requires !v.Pointer? && !v.Struct? && (v.Slice? ==> v.elems == [])
    ensures Outcome(enc, v, v, false)
  {
  }

  /** `traverseValue` with the sorting visitor. */
  method NormalizeData(enc: Encoding, d: Data, ghost l: Layout) returns (err: bool, ghost l': Layout)
    requires Holds(d, l) && Separate(l)
    modifies Arrays(l)
    ensures Holds(d, l') && Separate(l') && Arrays(l') == Arrays(l)
    ensures Outcome(enc, ValueOf(l), ValueOf(l'), err)
    ensures if err then SomeUnsortable(enc, ValueOf(l')) else AllAscend(enc, ValueOf(l'))
    decreases l, 0
  {
    match d {
      case DPointer(t) =>
        ghost var t';
        err, t' := NormalizeData(enc, t, l.target);
        l' := LPointer(t');
        PointerOutcome(enc, ValueOf(l.target), ValueOf(t'), err);
      case DStruct(fs) =>
        ghost var fs';
        err, fs' := NormalizeParts(enc, fs, l.fields);
        l' := LStruct(fs');
        StructOutcome(enc, ValuesOf(l.fields), ValuesOf(fs'), err);
      case DSlice(keyed, a) =>
        err, l' := NormalizeSlice(enc, keyed, a, l.elems);
      case _ =>
        LeafOutcome(enc, ValueOf(l));
        err, l' := false, l;
    }
    OutcomeAscends(enc, ValueOf(l), ValueOf(l'), err);
  }

  /** Elements first, then the slice itself; zero-length slices are left alone. */
  method NormalizeSlice(enc: Encoding, keyed: bool, a: array<Data>, ghost es: seq<Layout>)
    returns (err: bool, ghost l': Layout)
    requires HoldsAll(a, es)
    modifies a, ArraysOf(es)
    ensures Holds(DSlice(keyed, a), l') && Separate(l') && Arrays(l') == {a} + ArraysOf(es)
    ensures Outcome(enc, Slice(keyed, ValuesOf(es)), ValueOf(l'), err)
    ensures if err then SomeUnsortable(enc, ValueOf(l')) else AllAscend(enc, ValueOf(l'))
    decreases es, 3
  {
    if a.Length == 0 {
      LeafOutcome(enc, Slice(keyed, ValuesOf(es)));
      OutcomeAscends(enc, Slice(keyed, ValuesOf(es)), Slice(keyed, ValuesOf(es)), false);
      return false, LSlice(keyed, a, es);
    }
    ghost var mid, es', vs;
    var here;
    err, mid := NormalizeParts(enc, a[..], es);
    here, es', vs := SortElements(enc, keyed, a, mid, ValuesOf(mid), ArraysOf(es));
    SliceOutcome(enc, keyed, ValuesOf(es), ValuesOf(mid), vs, err, here);
    OutcomeAscends(enc, Slice(keyed, ValuesOf(es)), Slice(keyed, vs), err || here);
    return err || here, LSlice(keyed, a, es');
  }

  lemma SliceOutcome(enc: Encoding, keyed: bool, es: seq<Value>, mid: seq<Value>, vs: seq<Value>, below: bool, here: bool)
    requires es != [] && VisitsAll(SortStep(enc), es, mid) && SortStep(enc)(keyed, mid, vs)
    requires below <==> AnyFails(enc, mid)
    requires here <==> SortFails(enc, keyed, mid)
    ensures Outcome(enc, Slice(keyed, es), Slice(keyed, vs), below || here)
  {
    SortFailsPermutes(enc, keyed, mid, vs);
    PermutationFacts(mid, vs);
    if below {
      var i :| 0 <= i < |mid| && Fails(enc, mid[i]);
      assert mid[i] in vs;
    }
    assert forall k :: 0 <= k < |vs| ==> vs[k] in mid;
  }

  /** The first `i` of the parts have been normalized, over the same arrays. */
  ghost predicate Progress(enc: Encoding, es: seq<Layout>, es': seq<Layout>, i: nat, err: bool) {
    && i <= |es| == |es'|
    && (forall k :: i <= k < |es| ==> es'[k] == es[k])
    && (forall k :: 0 <= k < i ==> NormalizesTo(enc, ValueOf(es[k]), ValueOf(es'[k])))
    && (err <==> exists k :: 0 <= k < i && Fails(enc, ValueOf(es'[k])))
  }

  lemma ProgressStep(enc: Encoding, es: seq<Layout>, es': seq<Layout>, i: nat, err: bool, l: Layout, e: bool)
    requires i < |es| && Progress(enc, es, es', i, err)
    requires Outcome(enc, ValueOf(es[i]), ValueOf(l), e)
    ensures Progress(enc, es, es'[i := l], i + 1, err || e)
  {
    var next := es'[i := l];
    assert forall k :: 0 <= k < i ==> next[k] == es'[k];
    if err {
      var k :| 0 <= k < i && Fails(enc, ValueOf(es'[k]));
      assert Fails(enc, ValueOf(next[k]));
    }
    if e {
      assert Fails(enc, ValueOf(next[i]));
    }
  }

  lemma ProgressDone(enc: Encoding, es: seq<Layout>, es': seq<Layout>, err: bool)
    requires Progress(enc, es, es', |es|, err)
    ensures VisitsAll(SortStep(enc), ValuesOf(es), ValuesOf(es'))
    ensures err <==> AnyFails(enc, ValuesOf(es'))
  {
    if err {
      var k :| 0 <= k < |es| && Fails(enc, ValueOf(es'[k]));
      assert Fails(enc, ValuesOf(es')[k]);
    }
  }

  /** Normalizing one part leaves what the others hold. */
  method NormalizePart(enc: Encoding, ds: seq<Data>, i: nat, ghost es: seq<Layout>, ghost under: set<array<Data>>)
    returns (err: bool, ghost l: Layout)
    requires i < |ds| && HoldsEach(ds, es) && SeparateAll(es) && ArraysOf(es) == under
    modifies Arrays(es[i])
    ensures HoldsEach(ds, es[i := l]) && SeparateAll(es[i := l]) && ArraysOf(es[i := l]) == under
    ensures Outcome(enc, ValueOf(es[i]), ValueOf(l), err)
    decreases es[i], 1
  {
    err, l := NormalizeData(enc, ds[i], es[i]);
    ReplaceLayout(es, i, l);
  }

  /** The parts are the exported and unexported fields of a struct, or the elements of a slice. */
  method NormalizeParts(enc: Encoding, ds: seq<Data>, ghost es: seq<Layout>)
    returns (err: bool, ghost es': seq<Layout>)
    requires HoldsEach(ds, es) && SeparateAll(es)
    modifies ArraysOf(es)
    ensures HoldsEach(ds, es') && SeparateAll(es') && ArraysOf(es') == ArraysOf(es)
    ensures VisitsAll(SortStep(enc), ValuesOf(es), ValuesOf(es'))
    ensures err <==> AnyFails(enc, ValuesOf(es'))
    decreases es, 2
  {
    err, es' := false, es;
    ghost var under := ArraysOf(es);
    var i := 0;
    while i < |ds|
      invariant i <= |ds| == |es|
      invariant HoldsEach(ds, es') && SeparateAll(es') && ArraysOf(es') == under
      invariant Progress(enc, es, es', i, err)
    {
      var e; ghost var l;
      assert es'[i] == es[i];
      e, l := NormalizePart(enc, ds, i, es', under);
      ProgressStep(enc, es, es', i, err, l, e);
      err, es' := err || e, es'[i := l];
      i := i + 1;
    }
    ProgressDone(enc, es, es', err);
  }

  ghost predicate Apart(l: Layout, lo: Layout) {
    Arrays(l) !! Arrays(lo)
  }

  /** Normalizing leaves data in other arrays as it is, and changes the same data alike. */
  method NormalizeBeside(enc: Encoding, d: Data, ghost l: Layout, ghost other: Data, ghost lo: Layout)
    returns (err: bool, ghost l': Layout, ghost lo': Layout)
    requires Holds(d, l) && Separate(l) && Holds(other, lo) && Separate(lo)
    requires Apart(l, lo) || (d == other && l == lo)
    modifies Arrays(l)
    ensures Holds(d, l') && Separate(l') && Arrays(l') == Arrays(l)
    ensures Holds(other, lo') && Separate(lo') && Arrays(lo') == Arrays(lo)
    ensures lo' == if Apart(l, lo) then lo else l'
    ensures Outcome(enc, ValueOf(l), ValueOf(l'), err)
  {
    ghost var own := Arrays(lo);
    assert allocated(own);
    err, l' := NormalizeData(enc, d, l);
    if Apart(l, lo) {
      assert forall o :: o in own ==> o[..] == old(o[..]);
      lo' := lo;
    } else {
      lo' := l';
    }
  }

  /** `SemanticEqual` on two pieces of data that share no backing array, or on a piece of data and
      itself. Both are normalized in place, an error of either wins, and the normal forms are
      compared. */
  method SemanticEqual(enc: Encoding, a: Data, b: Data, ghost la: Layout, ghost lb: Layout)
    returns (equal: Option<bool>, ghost la': Layout, ghost lb': Layout)
    requires Holds(a, la) && Separate(la) && Holds(b, lb) && Separate(lb)
    requires Apart(la, lb) || (a == b && la == lb)
    modifies Arrays(la), Arrays(lb)
    ensures Holds(a, la') && Separate(la') && Arrays(la') == Arrays(la)
    ensures Holds(b, lb') && Separate(lb') && Arrays(lb') == Arrays(lb)
    ensures NormalizesTo(enc, ValueOf(la), ValueOf(la')) && NormalizesTo(enc, ValueOf(lb), ValueOf(lb'))
    ensures Fails(enc, ValueOf(la')) || Fails(enc, ValueOf(lb')) ==> equal.None?
    ensures equal.None? && Apart(la, lb) ==> Fails(enc, ValueOf(la')) || Fails(enc, ValueOf(lb'))
    ensures equal.Some? && (TieFree(enc, ValueOf(la')) || Unambiguous(enc, ValueOf(la))) ==>
      (equal.value <==> Reorders(ValueOf(la), ValueOf(lb)))
    ensures equal.Some? && TellsApart(enc) ==> (equal.value <==> Reorders(ValueOf(la), ValueOf(lb)))
    ensures equal.Some? && !Apart(la, lb) ==> equal.value
  {
    var aFails, bFails; ghost var l1, m1;
    aFails, l1, m1 := NormalizeBeside(enc, a, la, b, lb);
    bFails, lb', la' := NormalizeBeside(enc, b, m1, a, l1);
    if !Apart(la, lb) {
      NormalizesTwice(enc, ValueOf(la), ValueOf(l1), ValueOf(lb'));
    }
    if aFails || bFails {
      return None, la', lb';
    }
    equal := Some(Snapshot(a, la') == Snapshot(b, lb'));
    Decides(enc, ValueOf(la), ValueOf(lb), ValueOf(la'), ValueOf(lb'), equal);
  }

  lemma Decides(enc: Encoding, v: Value, w: Value, v': Value, w': Value, equal: Option<bool>)
    requires NormalizesTo(enc, v, v') && NormalizesTo(enc, w, w') && !Fails(enc, v') && !Fails(enc, w')
    requires equal == Some(v' == w')
    ensures TieFree(enc, v') || Unambiguous(enc, v) || TellsApart(enc) ==> (equal.value <==> Reorders(v, w))
  {
    if TellsApart(enc) {
      NormalFormIsFixed(enc, v, v');
      NormalFormsTieFree(enc, v');
    }
    TieFreeIffUnambiguous(enc, v, v');
    if TieFree(enc, v') {
      SemanticEqualDecidesReordering(enc, v, w, v', w', equal);
    }
  }
}
