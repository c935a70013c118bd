/** Go strings as sequences of bytes (one `char` per byte): the order of `cmp.Compare`,
    and the split and join of the `strings` package on a one-byte separator. */
module Text {

  datatype Option<+T> = None | Some(value: T)

  function OrDefault<T>(o: Option<T>, default: T): T {
    if o.Some? then o.value else default
  }

  /** `cmp.Compare` on two strings: -1, 0 or 1, byte by byte. */
  function Compare(a: string, b: string): (r: int)
    ensures r == 0 <==> a == b
    ensures -1 <= r <= 1
  {
    if a == [] then (if b == [] then 0 else -1)
    else if b == [] then 1
    else if a[0] != b[0] then (if a[0] < b[0] then -1 else 1)
    else
      var r := Compare(a[1..], b[1..]);
      assert a == [a[0]] + a[1..] && b == [b[0]] + b[1..];
      r
  }

  lemma {:induction false} CompareAntisymmetric(a: string, b: string)
    ensures Compare(a, b) == -Compare(b, a)
  {
    if a != [] && b != [] && a[0] == b[0] {
      CompareAntisymmetric(a[1..], b[1..]);
    }
  }

  lemma {:induction false} CompareTransitive(a: string, b: string, c: string)
    requires Compare(a, b) <= 0 && Compare(b, c) <= 0
    ensures Compare(a, c) <= 0
  {
    if a != [] && b != [] && c != [] && a[0] == b[0] == c[0] {
      CompareTransitive(a[1..], b[1..], c[1..]);
    }
  }

  /** At `i` the two strings differ for the first time: `a` has ended there or has the smaller byte. */
  predicate SmallerAt(a: string, b: string, i: nat) {
    i <= |a| && i < |b| && a[..i] == b[..i] && (i == |a| || a[i] < b[i])
  }

  /** `a` stands before `b` in the order of bytes. */
  ghost predicate Precedes(a: string, b: string) {
    exists i: nat :: SmallerAt(a, b, i)
  }

  /** `Compare` is ascending byte order. */
  lemma {:induction false} CompareIsByteOrder(a: string, b: string)
    ensures Compare(a, b) < 0 <==> Precedes(a, b)
    ensures Compare(a, b) > 0 <==> Precedes(b, a)
  {
    CompareAntisymmetric(a, b);
    NegativeIffPrecedes(a, b);
    NegativeIffPrecedes(b, a);
  }

  lemma {:induction false} NegativeIffPrecedes(a: string, b: string)
    ensures Compare(a, b) < 0 <==> Precedes(a, b)
  {
    if a == [] || b == [] || a[0] != b[0] {
      if b != [] && (a == [] || a[0] < b[0]) {
        assert SmallerAt(a, b, 0);
      }
      if i: nat :| SmallerAt(a, b, i) {
        assert i > 0 ==> a[..i][0] == b[..i][0];
      }
    } else {
      NegativeIffPrecedes(a[1..], b[1..]);
      if i: nat :| SmallerAt(a[1..], b[1..], i) {
        assert a[..i + 1] == [a[0]] + a[1..][..i] && b[..i + 1] == [b[0]] + b[1..][..i];
        assert SmallerAt(a, b, i + 1);
      }
      if i: nat :| SmallerAt(a, b, i) {
        assert a[1..][..i - 1] == a[..i][1..] && b[1..][..i - 1] == b[..i][1..];
        assert SmallerAt(a[1..], b[1..], i - 1);
      }
    }
  }

  predicate Stands<T(==)>(whole: seq<T>, from: nat, piece: seq<T>) {
    from + |piece| <= |whole| && whole[from..from + |piece|] == piece
  }

  /** `whole` is the pieces one after the other, piece `k` starting at `at[k]`. */
  ghost predicate InPieces<T>(whole: seq<T>, pieces: seq<seq<T>>, at: seq<nat>) {
    && |at| == |pieces|
    && (forall k :: 0 <= k < |pieces| ==> Stands(whole, at[k], pieces[k]))
    && (forall k, l :: 0 <= k && l == k + 1 < |pieces| ==> at[l] == at[k] + |pieces[k]|)
    && if pieces == [] then whole == [] else at[0] == 0 && at[|at| - 1] + |pieces[|at| - 1]| == |whole|
  }

  lemma OneMorePiece<T>(whole: seq<T>, pieces: seq<seq<T>>, at: seq<nat>, piece: seq<T>)
    requires InPieces(whole, pieces, at)
    ensures InPieces(whole + piece, pieces + [piece], at + [|whole|])
  {
    forall k | 0 <= k < |pieces| ensures Stands(whole + piece, at[k], pieces[k]) {
      assert Stands(whole, at[k], pieces[k]);
      assert (whole + piece)[at[k]..at[k] + |pieces[k]|] == whole[at[k]..at[k] + |pieces[k]|];
    }
    assert Stands(whole + piece, |whole|, piece);
  }

  /** The positions `at`, `n` further on, after a first piece of length `n`. */
  function Moved(at: seq<nat>, n: nat): seq<nat> {
    [0] + seq(|at|, k requires 0 <= k < |at| => at[k] + n)
  }

  lemma StandsFurther<T>(piece: seq<T>, whole: seq<T>, from: nat, other: seq<T>)
    requires Stands(whole, from, other)
    ensures Stands(piece + whole, from + |piece|, other)
  {
    var longer := piece + whole;
    assert longer[from + |piece|..from + |piece| + |other|] == whole[from..from + |other|];
  }

  lemma OnePieceBefore<T>(piece: seq<T>, whole: seq<T>, pieces: seq<seq<T>>, at: seq<nat>)
    requires InPieces(whole, pieces, at)
    ensures InPieces(piece + whole, [piece] + pieces, Moved(at, |piece|))
  {
    var longer, all, to := piece + whole, [piece] + pieces, Moved(at, |piece|);
    assert Stands(longer, 0, piece);
    forall k | 0 < k < |all| ensures Stands(longer, to[k], all[k]) {
      StandsFurther(piece, whole, at[k - 1], pieces[k - 1]);
    }
    forall k, l | 0 <= k && l == k + 1 < |all| ensures to[l] == to[k] + |all[k]| {
      if k > 0 {
        assert at[l - 1] == at[k - 1] + |pieces[k - 1]|;
      }
    }
  }

  /** The first separator of a string decides where its first part ends. */
  lemma {:induction false} FirstSeparator(u: string, v: string, x: string, y: string, sep: char)
    requires sep !in u && sep !in v
    requires u + [sep] + x == v + [sep] + y
    ensures u == v && x == y
  {
    var s := u + [sep] + x;
    assert s[|u|] == sep && s[|v|] == sep;
    assert forall i :: 0 <= i < |u| ==> s[i] == u[i] && s[i] != sep;
    assert forall i :: 0 <= i < |v| ==> s[i] == v[i] && s[i] != sep;
    assert |u| == |v|;
    assert u == s[..|u|] && v == s[..|v|];
    assert x == s[|u| + 1..] && y == s[|v| + 1..];
  }

  /** `strings.Join` with a one-byte separator. */
  function Join(parts: seq<string>, sep: char): string {
    if parts == [] then ""
    else if |parts| == 1 then parts[0]
    else parts[0] + [sep] + Join(parts[1..], sep)
  }

  /** `strings.Split` with a one-byte separator: never an empty list. */
  function Split(s: string, sep: char): (parts: seq<string>)
    ensures parts != []
  {
    if s == [] then [""]
    else
      var rest := Split(s[1..], sep);
      if s[0] == sep then [""] + rest
      else [[s[0]] + rest[0]] + rest[1..]
  }

  ghost predicate Free(parts: seq<string>, sep: char) {
    forall i :: 0 <= i < |parts| ==> sep !in parts[i]
  }

  function Count(s: string, c: char): nat {
    if s == [] then 0 else (if s[0] == c then 1 else 0) + Count(s[1..], c)
  }

  lemma {:induction false} CountConcat(s: string, t: string, c: char)
    ensures Count(s + t, c) == Count(s, c) + Count(t, c)
  {
    if s == [] {
      assert s + t == t;
    } else {
      assert (s + t)[1..] == s[1..] + t;
      CountConcat(s[1..], t, c);
    }
  }

  lemma {:induction false} CountAbsent(s: string, c: char)
    ensures Count(s, c) == 0 <==> c !in s
  {
    if s != [] {
      CountAbsent(s[1..], c);
      assert s == [s[0]] + s[1..];
    }
  }

  lemma {:induction false} JoinPrepend(head: string, parts: seq<string>, sep: char)
    requires parts != []
    ensures Join([head] + parts, sep) == head + [sep] + Join(parts, sep)
  {
    assert ([head] + parts)[1..] == parts;
  }

  lemma {:induction false} JoinAppend(parts: seq<string>, last: string, sep: char)
    requires parts != []
    ensures Join(parts + [last], sep) == Join(parts, sep) + [sep] + last
  {
    var whole := parts + [last];
    assert whole[1..] == parts[1..] + [last];
    if |parts| > 1 {
      JoinAppend(parts[1..], last, sep);
      var middle := Join(parts[1..], sep);
      assert parts[0] + [sep] + (middle + [sep] + last) == parts[0] + [sep] + middle + [sep] + last;
    }
  }

  /** Splitting gives separator-free parts, one more than there are separators, and joining
      them gives the string back. */
  lemma {:induction false} JoinOfSplit(s: string, sep: char)
    ensures Free(Split(s, sep), sep)
    ensures Join(Split(s, sep), sep) == s
    ensures |Split(s, sep)| == Count(s, sep) + 1
  {
    if s != [] {
      var rest := Split(s[1..], sep);
      JoinOfSplit(s[1..], sep);
      assert s == [s[0]] + s[1..];
      if s[0] == sep {
        JoinPrepend("", rest, sep);
        assert "" + [sep] + Join(rest, sep) == s;
      } else {
        JoinExtendHead(s[0], rest, sep);
      }
    }
  }

  lemma JoinExtendHead(c: char, rest: seq<string>, sep: char)
    requires rest != []
    ensures Join([[c] + rest[0]] + rest[1..], sep) == [c] + Join(rest, sep)
  {
    var parts := [[c] + rest[0]] + rest[1..];
    assert parts[1..] == rest[1..];
    if |rest| > 1 {
      var tail := [sep] + Join(rest[1..], sep);
      assert Join(parts, sep) == ([c] + rest[0]) + [sep] + Join(rest[1..], sep);
      assert Join(rest, sep) == rest[0] + [sep] + Join(rest[1..], sep);
      assert Join(parts, sep) == [c] + (rest[0] + tail);
      assert Join(rest, sep) == rest[0] + tail;
    }
  }

  /** A separator-free list with at least one part is recovered by splitting its join. */
  lemma {:induction false} SplitOfJoin(parts: seq<string>, sep: char)
    requires parts != [] && Free(parts, sep)
    ensures Split(Join(parts, sep), sep) == parts
  {
    JoinOfSplit(Join(parts, sep), sep);
    JoinInjective(Split(Join(parts, sep), sep), parts, sep);
  }

  /** Two non-empty separator-free lists with the same join are the same list. */
  lemma {:induction false} JoinInjective(p: seq<string>, q: seq<string>, sep: char)
    requires p != [] && q != [] && Free(p, sep) && Free(q, sep)
    requires Join(p, sep) == Join(q, sep)
    ensures p == q
  {
    assert |p| > 1 ==> Join(p, sep)[|p[0]|] == sep;
    assert |q| > 1 ==> Join(q, sep)[|q[0]|] == sep;
    if |p| > 1 && |q| > 1 {
      FirstSeparator(p[0], q[0], Join(p[1..], sep), Join(q[1..], sep), sep);
      JoinInjective(p[1..], q[1..], sep);
      assert p == [p[0]] + p[1..] && q == [q[0]] + q[1..];
    }
  }

  lemma {:induction false} CountOfJoin(parts: seq<string>, sep: char)
    requires parts != []
    ensures Count(Join(parts, sep), sep) >= |parts| - 1
    ensures Count(Join(parts, sep), sep) == |parts| - 1 <==> Free(parts, sep)
  {
    if |parts| == 1 {
      CountAbsent(parts[0], sep);
    } else {
      CountOfJoin(parts[1..], sep);
      CountConcat(parts[0] + [sep], Join(parts[1..], sep), sep);
      CountConcat(parts[0], [sep], sep);
      CountAbsent(parts[0], sep);
      assert Free(parts, sep) <==> sep !in parts[0] && Free(parts[1..], sep) by {
        assert parts == [parts[0]] + parts[1..];
      }
    }
  }

  /** Joining two neighbours first changes nothing. */
  lemma {:induction false} MergeParts(parts: seq<string>, i: nat, sep: char)
    requires i + 1 < |parts|
    ensures Join(parts, sep) == Join(parts[..i] + [parts[i] + [sep] + parts[i + 1]] + parts[i + 2..], sep)
  {
    var merged := parts[..i] + [parts[i] + [sep] + parts[i + 1]] + parts[i + 2..];
    if i == 0 {
      assert merged[1..] == parts[2..] && parts[1..][1..] == parts[2..];
      if |parts| > 2 {
        var rest := Join(parts[2..], sep);
        assert (parts[0] + [sep] + parts[1]) + [sep] + rest == parts[0] + [sep] + (parts[1] + [sep] + rest);
      }
    } else {
      MergeParts(parts[1..], i - 1, sep);
      assert merged[1..] == parts[1..][..i - 1] + [parts[1..][i - 1] + [sep] + parts[1..][i]] + parts[1..][i + 1..];
    }
  }

  /** A separator inside one of two or more parts can be moved to their border. */
  lemma SplitElsewhere(parts: seq<string>, sep: char) returns (others: seq<string>)
    requires |parts| >= 2 && !Free(parts, sep)
    ensures |others| == |parts| && others != parts && Join(others, sep) == Join(parts, sep)
  {
    var i :| 0 <= i < |parts| && sep in parts[i];
    var k :| 0 <= k < |parts[i]| && parts[i][k] == sep;
    var u, v := parts[i][..k], parts[i][k + 1..];
    assert parts[i] == u + [sep] + v;
    if i + 1 < |parts| {
      others := parts[i := u][i + 1 := v + [sep] + parts[i + 1]];
      assert others[i] + [sep] + others[i + 1] == parts[i] + [sep] + parts[i + 1];
      SameMerge(parts, others, i, sep);
    } else {
      others := parts[i - 1 := parts[i - 1] + [sep] + u][i := v];
      assert others[i - 1] + [sep] + others[i] == parts[i - 1] + [sep] + parts[i];
      SameMerge(parts, others, i - 1, sep);
    }
    assert others[i] != parts[i];
  }

  lemma SameMerge(p: seq<string>, q: seq<string>, i: nat, sep: char)
    requires i + 1 < |p| == |q| && p[i] + [sep] + p[i + 1] == q[i] + [sep] + q[i + 1]
    requires p[..i] == q[..i] && p[i + 2..] == q[i + 2..]
    ensures Join(p, sep) == Join(q, sep)
  {
    MergeParts(p, i, sep);
    MergeParts(q, i, sep);
  }

  /** Among the lists with as many parts, two or more, a list is determined by its join exactly when
      no part of it holds the separator. */
  lemma JoinUniqueIff(p: seq<string>, sep: char)
    requires |p| >= 2
    ensures (forall q: seq<string> :: |q| == |p| && Join(q, sep) == Join(p, sep) ==> q == p) <==> Free(p, sep)
  {
    if Free(p, sep) {
      forall q: seq<string> | |q| == |p| && Join(q, sep) == Join(p, sep) ensures q == p {
        CountOfJoin(p, sep);
        CountOfJoin(q, sep);
        JoinInjective(q, p, sep);
      }
    } else {
      var q := SplitElsewhere(p, sep);
    }
  }
}
