/** Lists used as maps: entries are found by a key, updated where they stand, appended when they
    are new, and removed. Conditions and the status lists are instances (see StatusLists). */
module KeyedList {
  import opened Picking
  import opened Text

  /** `merge(was, new)` is the entry that replaces `was` when `new` arrives for the same key. */
  datatype Table<!T(!new)> = Table(key: T -> string, merge: (T, T) -> T)
  {
    ghost predicate KeepsKeys() {
      forall a, b :: key(a) == key(b) ==> key(merge(a, b)) == key(b)
    }

    /** The first position of a key, or the length of the list. */
    function IndexOf(s: seq<T>, k: string): (i: nat)
      ensures i <= |s|
      ensures i < |s| ==> key(s[i]) == k
      ensures forall j :: 0 <= j < i ==> key(s[j]) != k
    {
      if s == [] then 0 else if key(s[0]) == k then 0 else 1 + IndexOf(s[1..], k)
    }

    function Find(s: seq<T>, k: string): Option<T> {
      var i := IndexOf(s, k);
      if i < |s| then Some(s[i]) else None
    }

    function Upsert(s: seq<T>, x: T): seq<T> {
      var i := IndexOf(s, key(x));
      if i < |s| then s[i := merge(s[i], x)] else s + [x]
    }

    function Remove(s: seq<T>, k: string): seq<T> {
      var i := IndexOf(s, k);
      if i < |s| then s[..i] + s[i + 1..] else s
    }

    function Filter(s: seq<T>, keep: T -> bool): seq<T> {
      if s == [] then [] else (if keep(s[0]) then [s[0]] else []) + Filter(s[1..], keep)
    }

    ghost predicate Unique(s: seq<T>) {
      forall i, j :: 0 <= i < j < |s| ==> key(s[i]) != key(s[j])
    }

    // ---- Runs ----

    function Apply(s: seq<T>, op: Op<T>): seq<T> {
      match op
      case Put(x) => Upsert(s, x)
      case Drop(k) => Remove(s, k)
      case Prune(keep) => Filter(s, keep)
    }

    function Run(ops: seq<Op<T>>): seq<T> {
      if ops == [] then [] else Apply(Run(ops[..|ops| - 1]), ops[|ops| - 1])
    }

    /** What a map would hold for one key after one operation. */
    function Touch(was: Option<T>, k: string, op: Op<T>): Option<T> {
      match op
      case Put(x) =>
        if key(x) != k then was
        else Some(if was.Some? then merge(was.value, x) else x)
      case Drop(k') => if k' == k then None else was
      case Prune(keep) => if was.Some? && !keep(was.value) then None else was
    }

    /** What a map would hold for a key after a run. */
    function Slot(ops: seq<Op<T>>, k: string): Option<T> {
      if ops == [] then None else Touch(Slot(ops[..|ops| - 1], k), k, ops[|ops| - 1])
    }

    /** The operation that inserted the present entry of a key. */
    function Born(ops: seq<Op<T>>, k: string): (i: nat)
      requires Slot(ops, k).Some?
      ensures i < |ops| && ops[i].Put? && key(ops[i].item) == k
      ensures Slot(ops[..i], k).None?
      ensures forall j :: i < j <= |ops| ==> Slot(ops[..j], k).Some?
    {
      var n := |ops| - 1;
      assert ops[..|ops|] == ops;
      if Slot(ops[..n], k).None? then n
      else
        var i := Born(ops[..n], k);
        assert ops[..n][..i] == ops[..i];
        assert forall j :: i < j <= n ==> ops[..n][..j] == ops[..j];
        i
    }

    lemma FindIs(s: seq<T>, i: nat)
      requires i < |s| && Unique(s)
      ensures Find(s, key(s[i])) == Some(s[i])
    {
    }

    lemma UpsertStep(s: seq<T>, x: T, k: string)
      requires Unique(s) && KeepsKeys()
      ensures Unique(Upsert(s, x)) && Find(Upsert(s, x), k) == Touch(Find(s, k), k, Put(x))
    {
      var t, i, j := Upsert(s, x), IndexOf(s, key(x)), IndexOf(s, k);
      assert Unique(t);
      if key(x) == k {
        FindIs(t, i);
      } else if j < |s| {
        FindIs(t, j);
      }
    }

    /** `t` is `s` with some entries left out: position `i` of `t` comes from position `p[i]`. */
    ghost predicate Thins(p: seq<nat>, t: seq<T>, s: seq<T>) {
      && |p| == |t|
      && (forall i :: 0 <= i < |t| ==> p[i] < |s| && s[p[i]] == t[i])
      && (forall i, j :: 0 <= i < j < |t| ==> p[i] < p[j])
    }

    /** The positions that are left when position `i` of `n + 1` goes. */
    function Around(i: nat, n: nat): (p: seq<nat>)
      ensures |p| == n && forall j :: 0 <= j < n ==> p[j] == if j < i then j else j + 1
    {
      seq(n, j requires 0 <= j < n => if j < i then j else j + 1)
    }

    lemma GapThins(s: seq<T>, i: nat, t: seq<T>)
      requires i < |s| && t == s[..i] + s[i + 1..]
      ensures Thins(Around(i, |s| - 1), t, s)
    {
      var p := Around(i, |s| - 1);
      forall j | 0 <= j < |t| ensures s[p[j]] == t[j] {
      }
    }

    lemma RemoveThins(s: seq<T>, d: string) returns (p: seq<nat>)
      ensures Thins(p, Remove(s, d), s)
    {
      var i := IndexOf(s, d);
      if i < |s| {
        p := Around(i, |s| - 1);
        GapThins(s, i, Remove(s, d));
      } else {
        p := Around(|s|, |s|);
      }
    }

    lemma {:induction false} FilterAppend(s: seq<T>, keep: T -> bool, x: T)
      ensures Filter(s + [x], keep) == Filter(s, keep) + if keep(x) then [x] else []
    {
      if s == [] {
        assert s + [x] == [x] && [x][1..] == [];
      } else {
        assert (s + [x])[1..] == s[1..] + [x];
        FilterAppend(s[1..], keep, x);
      }
    }

    lemma {:induction false} FilterHolds(s: seq<T>, keep: T -> bool, x: T)
      ensures x in Filter(s, keep) <==> x in s && keep(x)
    {
      if s != [] {
        FilterHolds(s[1..], keep, x);
        assert s == [s[0]] + s[1..];
      }
    }

    /** What a filter keeps is what is wanted, in its order. */
    lemma {:induction false} FilterPicks(s: seq<T>, keep: T -> bool)
      ensures Picks(keep, Same, s, Filter(s, keep))
    {
      if s == [] {
        PicksNothing(keep, Same<T>);
      } else {
        var rest := Filter(s[1..], keep);
        FilterPicks(s[1..], keep);
        assert s == [s[0]] + s[1..];
        if keep(s[0]) {
          PicksFirst(keep, Same, s[1..], rest, s[0], s[0]);
        } else {
          SkipsFirst(keep, Same, s[1..], rest, s[0]);
          assert [] + rest == rest;
        }
      }
    }

    function Later(q: seq<nat>): (p: seq<nat>)
      ensures |p| == |q| && forall i :: 0 <= i < |q| ==> p[i] == q[i] + 1
    {
      seq(|q|, i requires 0 <= i < |q| => q[i] + 1)
    }

    lemma ThinsCons(q: seq<nat>, t: seq<T>, s: seq<T>, x: T)
      requires Thins(q, t, s)
      ensures Thins([0] + Later(q), [x] + t, [x] + s) && Thins(Later(q), t, [x] + s)
    {
    }

    lemma {:induction false} FilterThins(s: seq<T>, keep: T -> bool) returns (p: seq<nat>)
      ensures Thins(p, Filter(s, keep), s)
    {
      if s == [] {
        p := [];
      } else {
        var q := FilterThins(s[1..], keep);
        ThinsCons(q, Filter(s[1..], keep), s[1..], s[0]);
        assert [s[0]] + s[1..] == s;
        p := if keep(s[0]) then [0] + Later(q) else Later(q);
        assert !keep(s[0]) ==> Filter(s, keep) == Filter(s[1..], keep);
      }
    }

    lemma ThinnedIsUnique(p: seq<nat>, t: seq<T>, s: seq<T>)
      requires Unique(s) && Thins(p, t, s)
      ensures Unique(t)
    {
    }

    lemma RemoveStep(s: seq<T>, d: string, k: string)
      requires Unique(s)
      ensures Unique(Remove(s, d)) && Find(Remove(s, d), k) == Touch(Find(s, k), k, Drop(d))
    {
      var p := RemoveThins(s, d);
      var t, i, j := Remove(s, d), IndexOf(s, d), IndexOf(s, k);
      ThinnedIsUnique(p, t, s);
      if i < |s| && d != k && j < |s| {
        FindIs(t, if j < i then j else j - 1);
      }
    }

    lemma FilterStep(s: seq<T>, keep: T -> bool, k: string)
      requires Unique(s)
      ensures Unique(Filter(s, keep)) && Find(Filter(s, keep), k) == Touch(Find(s, k), k, Prune(keep))
    {
      var p := FilterThins(s, keep);
      var t, j := Filter(s, keep), IndexOf(s, k);
      ThinnedIsUnique(p, t, s);
      if j < |s| && keep(s[j]) {
        FilterHolds(s, keep, s[j]);
        var i :| 0 <= i < |t| && t[i] == s[j];
        FindIs(t, i);
      } else {
        var i := IndexOf(t, k);
        if i < |t| {
          FilterHolds(s, keep, t[i]);
          FindIs(s, p[i]);
        }
      }
    }

    /** Over every run the list has no key twice, and finding a key in it gives what a map would
        hold for it. */
    lemma {:induction false} ListIsMap(ops: seq<Op<T>>, k: string)
      requires KeepsKeys()
      ensures Unique(Run(ops)) && Find(Run(ops), k) == Slot(ops, k)
    {
      if ops != [] {
        var prev := ops[..|ops| - 1];
        ListIsMap(prev, k);
        match ops[|ops| - 1]
        case Put(x) => UpsertStep(Run(prev), x, k);
        case Drop(d) => RemoveStep(Run(prev), d, k);
        case Prune(keep) => FilterStep(Run(prev), keep, k);
      }
    }

    // ---- Runs from a list that is there already ----

    function RunFrom(start: seq<T>, ops: seq<Op<T>>): seq<T> {
      if ops == [] then start else Apply(RunFrom(start, ops[..|ops| - 1]), ops[|ops| - 1])
    }

    function Puts(s: seq<T>): (ops: seq<Op<T>>)
      ensures |ops| == |s| && forall i :: 0 <= i < |s| ==> ops[i] == Put(s[i])
    {
      seq(|s|, i requires 0 <= i < |s| => Put(s[i]))
    }

    /** A list without repeated keys is what inserting its entries leaves. */
    lemma {:induction false} ListIsRunOfPuts(s: seq<T>)
      requires Unique(s)
      ensures Run(Puts(s)) == s
    {
      if s != [] {
        var n := |s| - 1;
        ListIsRunOfPuts(s[..n]);
        assert Puts(s)[..n] == Puts(s[..n]);
        assert IndexOf(s[..n], key(s[n])) == n;
        assert s == s[..n] + [s[n]];
      }
    }

    lemma RunAppend(ops: seq<Op<T>>, op: Op<T>)
      ensures Run(ops + [op]) == Apply(Run(ops), op)
    {
      assert (ops + [op])[..|ops|] == ops;
    }

    /** So a run from such a list is a run from the empty one. */
    lemma {:induction false} RunFromIsRun(start: seq<T>, ops: seq<Op<T>>)
      requires Unique(start)
      ensures RunFrom(start, ops) == Run(Puts(start) + ops)
    {
      var all := Puts(start) + ops;
      if ops == [] {
        ListIsRunOfPuts(start);
        assert all == Puts(start);
      } else {
        var prev, op := ops[..|ops| - 1], ops[|ops| - 1];
        RunFromIsRun(start, prev);
        RunAppend(Puts(start) + prev, op);
        assert all == Puts(start) + prev + [op];
      }
    }

    lemma EntryHasSlot(ops: seq<Op<T>>, i: nat)
      requires KeepsKeys() && i < |Run(ops)|
      ensures Slot(ops, key(Run(ops)[i])) == Some(Run(ops)[i])
    {
      ListIsMap(ops, key(Run(ops)[i]));
      FindIs(Run(ops), i);
    }

    /** The entries stand in the order in which they were inserted. */
    lemma {:induction false} EntriesInBirthOrder(ops: seq<Op<T>>, i: nat, j: nat)
      requires KeepsKeys() && i < j < |Run(ops)|
      ensures Slot(ops, key(Run(ops)[i])).Some? && Slot(ops, key(Run(ops)[j])).Some?
      ensures Born(ops, key(Run(ops)[i])) < Born(ops, key(Run(ops)[j]))
      decreases |ops|, 1
    {
      var s, prev := Run(ops), ops[..|ops| - 1];
      EntryHasSlot(ops, i);
      EntryHasSlot(ops, j);
      var t := Run(prev);
      ListIsMap(prev, key(s[j]));
      match ops[|ops| - 1]
      case Put(x) =>
        if j < |t| {
          assert key(t[i]) == key(s[i]) && key(t[j]) == key(s[j]);
          BirthKept(ops, i, j, i, j);
        } else {
          EntryHasSlot(prev, i);
        }
      case Drop(d) =>
        var p := RemoveThins(t, d);
        BirthKept(ops, i, j, p[i], p[j]);
      case Prune(keep) =>
        var p := FilterThins(t, keep);
        BirthKept(ops, i, j, p[i], p[j]);
    }

    ghost predicate InBirthOrder(ops: seq<Op<T>>) {
      var s := Run(ops);
      && (forall i :: 0 <= i < |s| ==> Slot(ops, key(s[i])) == Some(s[i]))
      && (forall i, j :: 0 <= i < j < |s| ==> Born(ops, key(s[i])) < Born(ops, key(s[j])))
    }

    lemma {:induction false} RunInBirthOrder(ops: seq<Op<T>>)
      requires KeepsKeys()
      ensures InBirthOrder(ops)
    {
      var s := Run(ops);
      forall i | 0 <= i < |s| ensures Slot(ops, key(s[i])) == Some(s[i]) {
        EntryHasSlot(ops, i);
      }
      forall i, j | 0 <= i < j < |s| ensures Born(ops, key(s[i])) < Born(ops, key(s[j])) {
        EntriesInBirthOrder(ops, i, j);
      }
    }

    /** The item of the last put of a key, unless it was dropped or pruned since. */
    function LastValue(ops: seq<Op<T>>, k: string): Option<T> {
      if ops == [] then None
      else
        var w := LastValue(ops[..|ops| - 1], k);
        match ops[|ops| - 1]
        case Put(x) => if key(x) == k then Some(x) else w
        case Drop(d) => if d == k then None else w
        case Prune(keep) => if w.Some? && !keep(w.value) then None else w
    }

    /** Where merging keeps nothing of the old entry, a slot holds what was last put. */
    lemma {:induction false} SlotIsLastValue(ops: seq<Op<T>>, k: string)
      requires forall a, b :: key(a) == key(b) ==> merge(a, b) == b
      ensures Slot(ops, k) == LastValue(ops, k)
      ensures Slot(ops, k).Some? ==> key(Slot(ops, k).value) == k
    {
      if ops != [] {
        SlotIsLastValue(ops[..|ops| - 1], k);
      }
    }

    lemma {:induction false} BirthKept(ops: seq<Op<T>>, i: nat, j: nat, p: nat, q: nat)
      requires KeepsKeys() && ops != [] && i < j < |Run(ops)|
      requires var t := Run(ops[..|ops| - 1]);
        p < q < |t| && key(t[p]) == key(Run(ops)[i]) && key(t[q]) == key(Run(ops)[j])
      ensures Slot(ops, key(Run(ops)[i])).Some? && Slot(ops, key(Run(ops)[j])).Some?
      ensures Born(ops, key(Run(ops)[i])) < Born(ops, key(Run(ops)[j]))
      decreases |ops|, 0
    {
      var prev := ops[..|ops| - 1];
      EntryHasSlot(ops, i);
      EntryHasSlot(ops, j);
      EntryHasSlot(prev, p);
      EntryHasSlot(prev, q);
      EntriesInBirthOrder(prev, p, q);
    }
  }

  datatype Op<!T> = Put(item: T) | Drop(k: string) | Prune(keep: T -> bool)
}
