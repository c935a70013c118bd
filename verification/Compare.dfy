/** Equality of lists regardless of order (internal/compare/comparation.go). */
module Compare {
  import opened Sorting

  /** What `IsEqualWithoutOrder` tests: equal lengths, and nothing in `b` that is not in `a`. */
  ghost predicate EqualWithoutOrder<T>(a: seq<T>, b: seq<T>) {
    |a| == |b| && forall x :: x in b ==> x in a
  }

  method IsEqualWithoutOrder<T(==)>(a: seq<T>, b: seq<T>) returns (equal: bool)
    ensures equal <==> EqualWithoutOrder(a, b)
  {
    if |a| != |b| {
      return false;
    }
    var m: map<T, bool> := map[];
    for i := 0 to |a|
      invariant forall x :: x in m <==> x in a[..i]
    {
      m := m[a[i] := true];
    }
    assert a[..|a|] == a;
    for j := 0 to |b|
      invariant forall x :: x in b[..j] ==> x in a
    {
      if b[j] !in m {
        assert b[j] in b && b[j] !in a;
        return false;
      }
    }
    assert b[..|b|] == b;
    equal := true;
  }

  ghost predicate NoRepeats<T>(s: seq<T>) {
    forall i, j :: 0 <= i < j < |s| ==> s[i] != s[j]
  }

  /** Any rearrangement of a list is equal to it without order. */
  lemma RearrangementsAreEqual<T(!new)>(a: seq<T>, b: seq<T>)
    requires Permutation(a, b)
    ensures EqualWithoutOrder(a, b)
  {
    PermutationFacts(a, b);
  }

  /** Taking the first element of `b` out of `a` leaves the rest of `b` there. */
  lemma RestStays<T(!new)>(a: seq<T>, b: seq<T>, k: nat)
    requires b != [] && NoRepeats(b) && (forall x :: x in b ==> x in a) && k < |a| && a[k] == b[0]
    ensures forall x :: x in b[1..] ==> x in Without(a, k)
  {
    WithoutPermutes(a, k);
    forall j | 0 <= j < |b[1..]| ensures b[1..][j] in Without(a, k) {
      var x := b[j + 1];
      assert x != b[0] && x in b;
      var p :| 0 <= p < |a| && a[p] == x;
      assert Without(a, k)[if p < k then p else p - 1] == x;
    }
  }

  /** The pigeonhole: as many elements, all of `b` among them and `b` without repeats, leaves no
      room for anything else. */
  lemma {:induction false} NoRepeatsMeansRearranged<T(!new)>(a: seq<T>, b: seq<T>)
    requires EqualWithoutOrder(a, b) && NoRepeats(b)
    ensures Permutation(a, b)
  {
    if b != [] {
      assert b[0] in b;
      var k :| 0 <= k < |a| && a[k] == b[0];
      WithoutPermutes(a, k);
      RestStays(a, b, k);
      assert NoRepeats(b[1..]);
      NoRepeatsMeansRearranged(Without(a, k), b[1..]);
      assert b == [b[0]] + b[1..];
    }
  }

  /** Some repeated element makes room for a foreign one. */
  lemma RepeatMakesRoom(b: seq<string>, i: nat, j: nat) returns (a: seq<string>)
    requires i < j < |b| && b[i] == b[j]
    ensures EqualWithoutOrder(a, b) && !Permutation(a, b)
  {
    a := b[j := b[j] + "x"];
    forall x | x in b ensures x in a {
      var p :| 0 <= p < |b| && b[p] == x;
      assert a[if p == j then i else p] == x;
    }
    assert |a[j]| == |b[j]| + 1;
    assert multiset(a)[b[j]] == multiset(b)[b[j]] - 1;
  }

  /** For lists of strings the function tells rearrangements of `b` from everything else exactly
      when `b` has no repeats. */
  lemma DecidesRearrangementIff(b: seq<string>)
    ensures (forall a: seq<string> :: EqualWithoutOrder(a, b) <==> Permutation(a, b)) <==> NoRepeats(b)
  {
    if NoRepeats(b) {
      forall a: seq<string> ensures EqualWithoutOrder(a, b) <==> Permutation(a, b) {
        if Permutation(a, b) { RearrangementsAreEqual(a, b); }
        if EqualWithoutOrder(a, b) { NoRepeatsMeansRearranged(a, b); }
      }
    } else {
      var i, j :| 0 <= i < j < |b| && b[i] == b[j];
      var a := RepeatMakesRoom(b, i, j);
    }
  }

  /** Two lists get the same answer both ways exactly when their lengths differ or each holds the
      other's elements or neither does. */
  lemma SymmetricIff<T(!new)>(a: seq<T>, b: seq<T>)
    ensures (EqualWithoutOrder(a, b) <==> EqualWithoutOrder(b, a)) <==>
      |a| != |b| || ((forall x :: x in a ==> x in b) <==> (forall x :: x in b ==> x in a))
    ensures NoRepeats(a) && NoRepeats(b) ==> (EqualWithoutOrder(a, b) <==> EqualWithoutOrder(b, a))
  {
    if NoRepeats(b) && EqualWithoutOrder(a, b) {
      NoRepeatsMeansRearranged(a, b);
      PermutationFacts(a, b);
    }
    if NoRepeats(a) && EqualWithoutOrder(b, a) {
      NoRepeatsMeansRearranged(b, a);
      PermutationFacts(b, a);
    }
  }

  /** A list of two or more elements has a partner for which the order of the arguments matters. */
  lemma OrderMatters(b: seq<string>) returns (a: seq<string>)
    requires |b| >= 2
    ensures EqualWithoutOrder(a, b) != EqualWithoutOrder(b, a)
  {
    if x :| x in b && x != b[0] {
      a := seq(|b|, _ => b[0]);
      assert x !in a && a[0] in a;
    } else {
      a := b[1 := b[0] + "x"];
      assert |a[1]| == |b[0]| + 1 && a[1] in a && a[0] in a;
      assert a[1] !in b;
    }
  }

  /** The order of the arguments never matters for a list of strings exactly when it has at most
      one element. */
  lemma OrderNeverMattersIff(b: seq<string>)
    ensures (forall a: seq<string> :: EqualWithoutOrder(a, b) <==> EqualWithoutOrder(b, a)) <==> |b| <= 1
  {
    if |b| >= 2 {
      var a := OrderMatters(b);
    } else {
      forall a: seq<string> ensures EqualWithoutOrder(a, b) <==> EqualWithoutOrder(b, a) {
        if |a| == |b| == 1 {
          assert a == [a[0]] && b == [b[0]];
          assert EqualWithoutOrder(a, b) ==> b[0] in b && b[0] in a;
          assert EqualWithoutOrder(b, a) ==> a[0] in a && a[0] in b;
        }
      }
    }
  }
}
