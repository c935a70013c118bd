/** What the Go sorts promise: the slice afterwards is some sorted permutation of the slice
    before. Neither `sort.Slice` nor `slices.SortFunc` promises which one when there are ties. */
module Sorting {

  ghost predicate TotalPreorder<T(!new)>(leq: (T, T) -> bool) {
    && (forall x, y :: leq(x, y) || leq(y, x))
    && (forall x, y, z :: leq(x, y) && leq(y, z) ==> leq(x, z))
  }

  ghost predicate Sorted<T(!new)>(leq: (T, T) -> bool, s: seq<T>) {
    forall i, j :: 0 <= i < j < |s| ==> leq(s[i], s[j])
  }

  ghost predicate Permutation<T(!new)>(s: seq<T>, t: seq<T>) {
    multiset(s) == multiset(t)
  }

  /** No two different elements of `s` compare equal. */
  ghost predicate TiesAreEqual<T(!new)>(leq: (T, T) -> bool, s: seq<T>) {
    forall x, y :: x in s && y in s && leq(x, y) && leq(y, x) ==> x == y
  }

  lemma PermutationFacts<T(!new)>(s: seq<T>, t: seq<T>)
    requires Permutation(s, t)
    ensures |s| == |t|
    ensures forall x :: x in s <==> x in t
  {
    assert |multiset(s)| == |s| && |multiset(t)| == |t|;
    forall x ensures x in s <==> x in t {
      assert x in s <==> x in multiset(s);
      assert x in t <==> x in multiset(t);
    }
  }

  lemma DropHead<T(!new)>(s: seq<T>, t: seq<T>)
    requires s != [] && t != [] && s[0] == t[0] && Permutation(s, t)
    ensures Permutation(s[1..], t[1..])
  {
    assert s == [s[0]] + s[1..] && t == [t[0]] + t[1..];
    assert multiset(s[1..]) == multiset(s) - multiset{s[0]};
    assert multiset(t[1..]) == multiset(t) - multiset{t[0]};
  }

  /** Without ties a sequence has at most one sorted permutation. */
  lemma {:induction false} SortedUnique<T(!new)>(leq: (T, T) -> bool, s: seq<T>, t: seq<T>)
    requires Sorted(leq, s) && Sorted(leq, t) && Permutation(s, t)
    requires TiesAreEqual(leq, s)
    ensures s == t
  {
    PermutationFacts(s, t);
    if s != [] {
      assert s[0] in t && t[0] in s;
      var i :| 0 <= i < |t| && t[i] == s[0];
      var j :| 0 <= j < |s| && s[j] == t[0];
      assert s[0] == t[0] by {
        if i != 0 && j != 0 {
          assert leq(t[0], t[i]) && leq(s[0], s[j]);
        }
      }
      DropHead(s, t);
      assert forall x :: x in s[1..] ==> x in s;
      SortedUnique(leq, s[1..], t[1..]);
      assert s == [s[0]] + s[1..] && t == [t[0]] + t[1..];
    }
  }

  function Insert<T(!new)>(leq: (T, T) -> bool, x: T, s: seq<T>): seq<T> {
    if s == [] || leq(x, s[0]) then [x] + s else [s[0]] + Insert(leq, x, s[1..])
  }

  lemma {:induction false} InsertPermutes<T(!new)>(leq: (T, T) -> bool, x: T, s: seq<T>)
    ensures Permutation(Insert(leq, x, s), [x] + s)
  {
    if s != [] && !leq(x, s[0]) {
      InsertPermutes(leq, x, s[1..]);
      assert s == [s[0]] + s[1..];
    }
  }

  lemma {:induction false} InsertSorted<T(!new)>(leq: (T, T) -> bool, x: T, s: seq<T>)
    requires TotalPreorder(leq) && Sorted(leq, s)
    ensures Sorted(leq, Insert(leq, x, s)) && Permutation(Insert(leq, x, s), [x] + s)
  {
    InsertPermutes(leq, x, s);
    if s == [] {
    } else if leq(x, s[0]) {
      PrependSorted(leq, x, s);
    } else {
      InsertSorted(leq, x, s[1..]);
      var r := Insert(leq, x, s[1..]);
      PermutationFacts(r, [x] + s[1..]);
      assert leq(s[0], x);
      assert forall k :: 0 <= k < |r| ==> r[k] in r;
    }
  }

  lemma PrependSorted<T(!new)>(leq: (T, T) -> bool, x: T, s: seq<T>)
    requires TotalPreorder(leq) && Sorted(leq, s) && s != [] && leq(x, s[0])
    ensures Sorted(leq, [x] + s)
  {
    forall j | 0 <= j < |s| ensures leq(x, s[j]) {
      if j > 0 {
        assert leq(s[0], s[j]);
      }
    }
  }

  /** A sorted permutation always exists. */
  ghost function Sort<T(!new)>(leq: (T, T) -> bool, s: seq<T>): (r: seq<T>)
    requires TotalPreorder(leq)
    ensures Sorted(leq, r) && Permutation(r, s)
  {
    if s == [] then []
    else
      var rest := Sort(leq, s[1..]);
      InsertSorted(leq, s[0], rest);
      assert s == [s[0]] + s[1..];
      Insert(leq, s[0], rest)
  }

  ghost predicate Adjacent<T(!new)>(leq: (T, T) -> bool, s: seq<T>) {
    forall p, q :: 0 <= p < |s| && q == p + 1 < |s| ==> leq(s[p], s[q])
  }

  lemma {:induction false} AdjacentSorted<T(!new)>(leq: (T, T) -> bool, s: seq<T>)
    requires TotalPreorder(leq) && Adjacent(leq, s)
    ensures Sorted(leq, s)
  {
    if |s| > 1 {
      assert Adjacent(leq, s[1..]) by {
        assert forall p :: 0 <= p < |s[1..]| ==> s[1..][p] == s[p + 1];
      }
      AdjacentSorted(leq, s[1..]);
      forall i, j | 0 <= i < j < |s| ensures leq(s[i], s[j]) {
        if i > 0 {
          assert leq(s[1..][i - 1], s[1..][j - 1]);
        } else if j > 1 {
          assert leq(s[0], s[1]) && leq(s[1..][0], s[1..][j - 1]);
        }
      }
    }
  }

  function Swap<T>(s: seq<T>, i: nat, j: nat): seq<T>
    requires i < |s| && j < |s|
  {
    s[i := s[j]][j := s[i]]
  }

  lemma SwapPermutes<T(!new)>(s: seq<T>, i: nat, j: nat)
    requires i < |s| && j < |s|
    ensures Permutation(Swap(s, i, j), s)
  {
  }

  ghost function Without<T>(s: seq<T>, k: nat): seq<T>
    requires k < |s|
  {
    s[..k] + s[k + 1..]
  }

  lemma WithoutPermutes<T(!new)>(s: seq<T>, k: nat)
    requires k < |s|
    ensures multiset(Without(s, k)) == multiset(s) - multiset{s[k]}
    ensures forall j :: 0 <= j < |s| - 1 ==> Without(s, k)[j] == s[if j < k then j else j + 1]
  {
    CutAt(s, k);
  }

  lemma CutAt<T(!new)>(s: seq<T>, k: nat)
    requires k < |s|
    ensures multiset(s) == multiset(s[..k]) + multiset{s[k]} + multiset(s[k + 1..])
  {
    assert s == s[..k] + [s[k]] + s[k + 1..];
  }

  lemma TakeOut<T(!new)>(a: seq<T>, b: seq<T>) returns (k: nat)
    requires Permutation(a, b) && a != []
    ensures k < |b| && b[k] == a[0] && Permutation(a[1..], Without(b, k))
  {
    PermutationFacts(a, b);
    assert a[0] in b;
    k :| k < |b| && b[k] == a[0];
    WithoutPermutes(a, 0);
    WithoutPermutes(b, k);
    assert a[1..] == Without(a, 0);
  }

  lemma PutBack<T(!new)>(rest: seq<T>, c: seq<T>, k: nat)
    requires k < |c| && Permutation(rest, Without(c, k))
    ensures Permutation([c[k]] + rest, c)
  {
    WithoutPermutes(c, k);
    assert multiset([c[k]] + rest) == multiset{c[k]} + multiset(rest);
  }

  /** `p` sends each position of `a` to a position of `b` holding the same element. */
  ghost predicate Matches<T(!new)>(p: seq<nat>, a: seq<T>, b: seq<T>) {
    |p| == |a| && forall i :: 0 <= i < |a| ==> p[i] < |b| && b[p[i]] == a[i]
  }

  /** The positions of a sequence without its element at `k`, as positions of the whole. */
  function Shift(p: seq<nat>, k: nat): seq<nat> {
    seq(|p|, i requires 0 <= i < |p| => if p[i] < k then p[i] else p[i] + 1)
  }

  lemma MatchesCons<T(!new)>(p: seq<nat>, a: seq<T>, b: seq<T>, k: nat)
    requires k < |b| && Matches(p, a, Without(b, k))
    ensures Matches([k] + Shift(p, k), [b[k]] + a, b)
  {
    WithoutPermutes(b, k);
  }

  /** Values paired with the elements of a sequence can be carried along a permutation of it. */
  lemma {:induction false} Transport<T(!new), U(!new)>(a: seq<T>, b: seq<T>, c: seq<U>)
    returns (p: seq<nat>, d: seq<U>)
    requires Permutation(a, b) && |c| == |b|
    ensures Permutation(d, c)
    ensures Matches(p, a, b) && Matches(p, d, c)
  {
    if a == [] {
      assert |multiset(b)| == |b|;
      p, d := [], [];
    } else {
      var k := TakeOut(a, b);
      assert |Without(b, k)| == |b| - 1;
      var q, rest := Transport(a[1..], Without(b, k), Without(c, k));
      p, d := [k] + Shift(q, k), [c[k]] + rest;
      PutBack(rest, c, k);
      MatchesCons(q, a[1..], b, k);
      MatchesCons(q, rest, c, k);
      assert [a[0]] + a[1..] == a;
    }
  }
}
