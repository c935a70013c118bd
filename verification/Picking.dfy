/** Lists made by a loop that skips: the wanted elements of a list, in their order, each turned into
    one element of another list. */
module Picking {

  /** What `s[i]` adds to `t`: nothing when it is not wanted, otherwise the element at its rank. */
  ghost predicate Adds<A(!new), B(!new)>(wanted: A -> bool, made: (A, B) -> bool, x: A, t: seq<B>, rank: nat, next: nat) {
    if wanted(x) then next == rank + 1 <= |t| && made(x, t[rank]) else next == rank
  }

  /** `t` holds, in order, one element for each wanted element of `s`: the wanted `s[i]` makes
      `t[rank[i]]`, where `rank[i]` counts the wanted elements before it. */
  ghost predicate PicksAt<A(!new), B(!new)>(wanted: A -> bool, made: (A, B) -> bool, s: seq<A>, t: seq<B>, rank: seq<nat>) {
    && |rank| == |s| + 1 && rank[0] == 0 && rank[|s|] == |t|
    && forall i, j :: 0 <= i < |s| && j == i + 1 ==> Adds(wanted, made, s[i], t, rank[i], rank[j])
  }

  ghost predicate Picks<A(!new), B(!new)>(wanted: A -> bool, made: (A, B) -> bool, s: seq<A>, t: seq<B>) {
    exists rank: seq<nat> :: PicksAt(wanted, made, s, t, rank)
  }

  ghost predicate Same<T>(x: T, y: T) {
    x == y
  }

  lemma PicksNothing<A(!new), B(!new)>(wanted: A -> bool, made: (A, B) -> bool)
    ensures Picks(wanted, made, [], [])
  {
    assert PicksAt(wanted, made, [], [], [0]);
  }

  lemma SkipsLast<A(!new), B(!new)>(wanted: A -> bool, made: (A, B) -> bool, s: seq<A>, t: seq<B>, x: A)
    requires Picks(wanted, made, s, t) && !wanted(x)
    ensures Picks(wanted, made, s + [x], t)
  {
    var rank: seq<nat> :| PicksAt(wanted, made, s, t, rank);
    var longer: seq<nat> := rank + [|t|];
    assert PicksAt(wanted, made, s + [x], t, longer);
  }

  lemma PicksLast<A(!new), B(!new)>(wanted: A -> bool, made: (A, B) -> bool, s: seq<A>, t: seq<B>, x: A, y: B)
    requires Picks(wanted, made, s, t) && wanted(x) && made(x, y)
    ensures Picks(wanted, made, s + [x], t + [y])
  {
    var rank: seq<nat> :| PicksAt(wanted, made, s, t, rank);
    var longer: seq<nat> := rank + [|t| + 1];
    forall i, j | 0 <= i < |s + [x]| && j == i + 1 ensures Adds(wanted, made, (s + [x])[i], t + [y], longer[i], longer[j]) {
      if i < |s| {
        assert Adds(wanted, made, s[i], t, rank[i], rank[j]);
      }
    }
    assert PicksAt(wanted, made, s + [x], t + [y], longer);
  }

  lemma SkipsFirst<A(!new), B(!new)>(wanted: A -> bool, made: (A, B) -> bool, s: seq<A>, t: seq<B>, x: A)
    requires Picks(wanted, made, s, t) && !wanted(x)
    ensures Picks(wanted, made, [x] + s, t)
  {
    var rank: seq<nat> :| PicksAt(wanted, made, s, t, rank);
    var longer: seq<nat> := [0] + rank;
    forall i, j | 0 <= i < |[x] + s| && j == i + 1 ensures Adds(wanted, made, ([x] + s)[i], t, longer[i], longer[j]) {
      if i > 0 {
        assert Adds(wanted, made, s[i - 1], t, rank[i - 1], rank[i]);
      }
    }
    assert PicksAt(wanted, made, [x] + s, t, longer);
  }

  function OneMore(rank: seq<nat>): (r: seq<nat>)
    ensures |r| == |rank| && forall k :: 0 <= k < |rank| ==> r[k] == rank[k] + 1
  {
    seq(|rank|, k requires 0 <= k < |rank| => rank[k] + 1)
  }

  lemma PicksFirst<A(!new), B(!new)>(wanted: A -> bool, made: (A, B) -> bool, s: seq<A>, t: seq<B>, x: A, y: B)
    requires Picks(wanted, made, s, t) && wanted(x) && made(x, y)
    ensures Picks(wanted, made, [x] + s, [y] + t)
  {
    var rank: seq<nat> :| PicksAt(wanted, made, s, t, rank);
    var longer: seq<nat> := [0] + OneMore(rank);
    forall i, j | 0 <= i < |[x] + s| && j == i + 1 ensures Adds(wanted, made, ([x] + s)[i], [y] + t, longer[i], longer[j]) {
      if i > 0 {
        assert Adds(wanted, made, s[i - 1], t, rank[i - 1], rank[i]);
      }
    }
    assert PicksAt(wanted, made, [x] + s, [y] + t, longer);
  }

  /** Every element of `t` is made of a wanted element of `s`. */
  lemma HasSource<A(!new), B(!new)>(wanted: A -> bool, made: (A, B) -> bool, s: seq<A>, t: seq<B>, k: nat) returns (i: nat)
    requires Picks(wanted, made, s, t) && k < |t|
    ensures i < |s| && wanted(s[i]) && made(s[i], t[k])
  {
    var rank: seq<nat> :| PicksAt(wanted, made, s, t, rank);
    i := 0;
    while rank[i + 1] <= k
      invariant i < |s| && rank[i] <= k
      decreases |s| - i
    {
      assert Adds(wanted, made, s[i], t, rank[i], rank[i + 1]);
      i := i + 1;
    }
    assert Adds(wanted, made, s[i], t, rank[i], rank[i + 1]);
  }

  /** Every wanted element of `s` makes an element of `t`. */
  lemma HasElement<A(!new), B(!new)>(wanted: A -> bool, made: (A, B) -> bool, s: seq<A>, t: seq<B>, i: nat) returns (k: nat)
    requires Picks(wanted, made, s, t) && i < |s| && wanted(s[i])
    ensures k < |t| && made(s[i], t[k])
  {
    var rank: seq<nat> :| PicksAt(wanted, made, s, t, rank);
    assert Adds(wanted, made, s[i], t, rank[i], rank[i + 1]);
    k := rank[i];
  }

  /** Only what is wanted, and made, of the elements of `s` counts. */
  lemma PicksAlike<A(!new), B(!new)>(wanted: A -> bool, made: (A, B) -> bool, wanted': A -> bool, made': (A, B) -> bool, s: seq<A>, t: seq<B>)
    requires Picks(wanted, made, s, t)
    requires forall i :: 0 <= i < |s| ==> wanted(s[i]) == wanted'(s[i])
    requires forall i, y :: 0 <= i < |s| && made(s[i], y) ==> made'(s[i], y)
    ensures Picks(wanted', made', s, t)
  {
    var rank: seq<nat> :| PicksAt(wanted, made, s, t, rank);
    forall i, j | 0 <= i < |s| && j == i + 1 ensures Adds(wanted', made', s[i], t, rank[i], rank[j]) {
      assert Adds(wanted, made, s[i], t, rank[i], rank[j]);
    }
    assert PicksAt(wanted', made', s, t, rank);
  }

  lemma PicksNone<A(!new), B(!new)>(wanted: A -> bool, made: (A, B) -> bool, s: seq<A>)
    requires forall i :: 0 <= i < |s| ==> !wanted(s[i])
    ensures Picks(wanted, made, s, [])
  {
    assert PicksAt(wanted, made, s, [], seq(|s| + 1, _ => 0));
  }
}
