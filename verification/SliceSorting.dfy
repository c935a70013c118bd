/** Sorting a slice in place: the library sorts, and `NormalizeSlice` (internal/cmp/normalize.go,
    lines 42-48), whose sort is stable, so that its outcome is determined even where different
    elements tie. */
module SliceSorting {
  import opened Sorting

  /** The elements of `s` that tie with `x`, in their order. */
  function Ties<T(!new)>(leq: (T, T) -> bool, x: T, s: seq<T>): seq<T> {
    if s == [] then []
    else (if leq(x, s[0]) && leq(s[0], x) then [s[0]] else []) + Ties(leq, x, s[1..])
  }

  /** Elements that tie stand in the same order in both. */
  ghost predicate SameTies<T(!new)>(leq: (T, T) -> bool, s: seq<T>, t: seq<T>) {
    forall x :: Ties(leq, x, s) == Ties(leq, x, t)
  }

  lemma {:induction false} TiesConcat<T(!new)>(leq: (T, T) -> bool, x: T, s: seq<T>, t: seq<T>)
    ensures Ties(leq, x, s + t) == Ties(leq, x, s) + Ties(leq, x, t)
  {
    if s == [] {
      assert s + t == t;
    } else {
      assert (s + t)[1..] == s[1..] + t;
      TiesConcat(leq, x, s[1..], t);
    }
  }

  /** Swapping neighbours that do not tie keeps the order of all ties. */
  lemma SwapKeepsTies<T(!new)>(leq: (T, T) -> bool, s: seq<T>, j: nat)
    requires TotalPreorder(leq) && 0 < j < |s| && !leq(s[j - 1], s[j])
    ensures SameTies(leq, s, Swap(s, j - 1, j))
  {
    var a, b, before, after := s[j - 1], s[j], s[..j - 1], s[j + 1..];
    assert s == before + ([a, b] + after) && Swap(s, j - 1, j) == before + ([b, a] + after);
    forall x ensures Ties(leq, x, s) == Ties(leq, x, Swap(s, j - 1, j)) {
      TiesConcat(leq, x, before, [a, b] + after);
      TiesConcat(leq, x, before, [b, a] + after);
      TiesConcat(leq, x, [a, b], after);
      TiesConcat(leq, x, [b, a], after);
      TiesOfTwo(leq, x, a, b);
    }
  }

  lemma TiesOfTwo<T(!new)>(leq: (T, T) -> bool, x: T, a: T, b: T)
    requires TotalPreorder(leq) && !leq(a, b)
    ensures Ties(leq, x, [a, b]) == Ties(leq, x, [b, a])
  {
    assert [a, b][1..] == [b] && [b, a][1..] == [a] && [a][1..] == [] && [b][1..] == [];
    assert !(leq(a, x) && leq(x, b));
  }

  lemma {:induction false} PermutedIfSameTies<T(!new)>(leq: (T, T) -> bool, s: seq<T>, t: seq<T>)
    requires TotalPreorder(leq) && SameTies(leq, s, t)
    ensures Permutation(s, t)
  {
    forall x ensures multiset(s)[x] == multiset(t)[x] {
      CountInTies(leq, x, s);
      CountInTies(leq, x, t);
      assert Ties(leq, x, s) == Ties(leq, x, t);
    }
  }

  lemma {:induction false} CountInTies<T(!new)>(leq: (T, T) -> bool, x: T, s: seq<T>)
    requires TotalPreorder(leq)
    ensures multiset(Ties(leq, x, s))[x] == multiset(s)[x]
  {
    if s != [] {
      CountInTies(leq, x, s[1..]);
      assert s == [s[0]] + s[1..];
    }
  }

  /** One insertion of the library's insertion sort: the element at `i` moves down by neighbour
      swaps to its place among the elements before it. */
  method Sink<T(!new)>(a: array<T>, i: nat, leq: (T, T) -> bool)
    requires i < a.Length && TotalPreorder(leq)
    requires forall p, q :: 0 <= p && q == p + 1 < i ==> leq(a[p], a[q])
    modifies a
    ensures forall p, q :: 0 <= p && q == p + 1 <= i ==> leq(a[p], a[q])
    ensures SameTies(leq, old(a[..]), a[..])
  {
    var j := i;
    while j > 0 && !leq(a[j - 1], a[j])
      invariant 0 <= j <= i
      invariant SameTies(leq, old(a[..]), a[..])
      invariant forall p, q :: 0 <= p && q == p + 1 <= i && q != j ==> leq(a[p], a[q])
      invariant 0 < j < i ==> leq(a[j - 1], a[j + 1])
    {
      ghost var s := a[..];
      SwapKeepsTies(leq, s, j);
      a[j - 1], a[j] := a[j], a[j - 1];
      assert a[..] == Swap(s, j - 1, j);
      j := j - 1;
    }
  }

  method SortStable<T(!new)>(a: array<T>, leq: (T, T) -> bool)
    requires TotalPreorder(leq)
    modifies a
    ensures Sorted(leq, a[..]) && SameTies(leq, old(a[..]), a[..])
  {
    var i := 0;
    while i < a.Length
      invariant 0 <= i <= a.Length
      invariant forall p, q :: 0 <= p && q == p + 1 < i ==> leq(a[p], a[q])
      invariant SameTies(leq, old(a[..]), a[..])
    {
      Sink(a, i, leq);
      i := i + 1;
    }
    AdjacentSorted(leq, a[..]);
  }

  /** `sort.Slice` and `slices.SortFunc` promise less: some sorted permutation. */
  method SortInPlace<T(!new)>(a: array<T>, leq: (T, T) -> bool)
    requires TotalPreorder(leq)
    modifies a
    ensures Sorted(leq, a[..]) && Permutation(a[..], old(a[..]))
  {
    ghost var before := a[..];
    SortStable(a, leq);
    PermutedIfSameTies(leq, before, a[..]);
  }

  /** `NormalizeSlice`: nil for an empty slice, otherwise the slice itself, sorted in place. */
  method NormalizeSlice<T(!new)>(slice: array?<T>, leq: (T, T) -> bool) returns (r: array?<T>)
    requires TotalPreorder(leq)
    modifies slice
    ensures if slice == null || slice.Length == 0 then r == null else r == slice
    ensures slice != null ==>
      Sorted(leq, slice[..]) && SameTies(leq, old(slice[..]), slice[..]) && Permutation(old(slice[..]), slice[..])
  {
    if slice == null || slice.Length == 0 {
      return null;
    }
    ghost var before := slice[..];
    SortStable(slice, leq);
    PermutedIfSameTies(leq, before, slice[..]);
    r := slice;
  }

  lemma DropHeadTies<T(!new)>(leq: (T, T) -> bool, s: seq<T>, t: seq<T>)
    requires s != [] && t != [] && s[0] == t[0] && SameTies(leq, s, t)
    ensures SameTies(leq, s[1..], t[1..])
  {
    forall x ensures Ties(leq, x, s[1..]) == Ties(leq, x, t[1..]) {
      var head := if leq(x, s[0]) && leq(s[0], x) then [s[0]] else [];
      assert head + Ties(leq, x, s[1..]) == Ties(leq, x, s) == Ties(leq, x, t) == head + Ties(leq, x, t[1..]);
      assert (head + Ties(leq, x, s[1..]))[|head|..] == Ties(leq, x, s[1..]);
      assert (head + Ties(leq, x, t[1..]))[|head|..] == Ties(leq, x, t[1..]);
    }
  }

  /** Two slices with their ties in the same order have the same normal form, and only those do:
      the outcome of the stable sort is determined by the order of the ties. */
  lemma {:induction false} StableFormUnique<T(!new)>(leq: (T, T) -> bool, s: seq<T>, t: seq<T>)
    requires TotalPreorder(leq) && Sorted(leq, s) && Sorted(leq, t)
    ensures SameTies(leq, s, t) <==> s == t
    decreases |s|
  {
    if SameTies(leq, s, t) {
      PermutedIfSameTies(leq, s, t);
      PermutationFacts(s, t);
      if s != [] {
        assert s[0] in t && t[0] in s;
        assert Ties(leq, s[0], s) == Ties(leq, s[0], t);
        var i :| 0 <= i < |t| && t[i] == s[0];
        var j :| 0 <= j < |s| && s[j] == t[0];
        assert leq(t[0], t[i]) && leq(s[0], s[j]);
        assert Ties(leq, s[0], s)[0] == s[0] && Ties(leq, s[0], t)[0] == t[0];
        DropHeadTies(leq, s, t);
        StableFormUnique(leq, s[1..], t[1..]);
        assert s == [s[0]] + s[1..] && t == [t[0]] + t[1..];
      }
    }
  }
}
