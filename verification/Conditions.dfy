/** Status conditions and their transition times (api/condition.go, lines 172-219). A condition
    list is a keyed list; updates work on a copy of the source slice. */
module Conditions {
  import opened Text
  import opened KeyedList
  import opened Picking

  datatype Condition = Condition(kind: string, status: string, lastTransitionTime: int, reason: string, message: string)

  /** A condition arriving with the time of its update keeps the old time if its status did not change. */
  function Table(): Table<Condition> {
    KeyedList.Table.Table(
      (c: Condition) => c.kind,
      (was: Condition, c: Condition) => if c.status == was.status then c.(lastTransitionTime := was.lastTransitionTime) else c)
  }

  predicate OtherKind(kind: string, c: Condition) {
    c.kind != kind
  }

  method HasConditionType(kind: string, source: array<Condition>) returns (found: bool)
    ensures found <==> exists i :: 0 <= i < source.Length && source[i].kind == kind
  {
    var i := 0;
    while i < source.Length
      invariant 0 <= i <= source.Length
      invariant forall j :: 0 <= j < i ==> source[j].kind != kind
    {
      if source[i].kind == kind { return true; }
      i := i + 1;
    }
    return false;
  }

  /** Updates or appends in a copy: the source slice is not modified. `now` is the clock reading. */
  method EnsureConditionExists(condition: Condition, source: array<Condition>, now: int) returns (target: seq<Condition>)
    ensures target == Table().Upsert(source[..], condition.(lastTransitionTime := now))
  {
    var updated := condition.(lastTransitionTime := now);
    var copied := new Condition[source.Length];
    var n := 0;
    while n < source.Length
      invariant 0 <= n <= source.Length
      invariant copied[..n] == source[..n]
    {
      copied[n] := source[n];
      n := n + 1;
    }
    assert copied[..] == copied[..n] && source[..] == source[..n];
    var i := 0;
    while i < source.Length
      invariant 0 <= i <= source.Length && copied[..] == source[..]
      invariant forall j :: 0 <= j < i ==> source[j].kind != condition.kind
    {
      var c := source[i];
      if c.kind == condition.kind {
        if c.status == condition.status {
          updated := updated.(lastTransitionTime := c.lastTransitionTime);
        }
        assert Table().IndexOf(source[..], condition.kind) == i;
        copied[i] := updated;
        return copied[..];
      }
      i := i + 1;
    }
    assert Table().IndexOf(source[..], condition.kind) == source.Length;
    return copied[..] + [updated];
  }

  method RemoveConditionIfExists(kind: string, source: array<Condition>) returns (kept: seq<Condition>)
    ensures kept == Table().Filter(source[..], (c: Condition) => OtherKind(kind, c))
    ensures Picks(NotOf(kind), Same, source[..], kept)
  {
    kept := [];
    ghost var keep := (c: Condition) => OtherKind(kind, c);
    var i := 0;
    while i < source.Length
      invariant 0 <= i <= source.Length
      invariant kept == Table().Filter(source[..i], keep)
    {
      Table().FilterAppend(source[..i], keep, source[i]);
      assert source[..i + 1] == source[..i] + [source[i]];
      if source[i].kind != kind {
        kept := kept + [source[i]];
      }
      i := i + 1;
    }
    assert source[..i] == source[..];
    Table().FilterPicks(source[..], keep);
    PicksAlike(keep, Same, NotOf(kind), Same, source[..], kept);
  }

  ghost function NotOf(kind: string): Condition -> bool {
    (c: Condition) => c.kind != kind
  }

  // ---- Whole runs ----

  /** A call in a run: an update at a clock reading, or a removal. */
  datatype Call = Ensure(condition: Condition, now: int) | Remove(kind: string)

  function OpOf(call: Call): Op<Condition> {
    match call
    case Ensure(c, now) => Put(c.(lastTransitionTime := now))
    case Remove(kind) => Prune((c: Condition) => OtherKind(kind, c))
  }

  function OpsOf(calls: seq<Call>): seq<Op<Condition>> {
    if calls == [] then [] else OpsOf(calls[..|calls| - 1]) + [OpOf(calls[|calls| - 1])]
  }

  /** The list after a run that starts from no conditions. */
  function After(calls: seq<Call>): seq<Condition> {
    Table().Run(OpsOf(calls))
  }

  predicate Touches(call: Call, kind: string) {
    match call
    case Ensure(c, _) => c.kind == kind
    case Remove(k) => k == kind
  }

  /** The status a kind has after a run, read off the last call about it. */
  function StatusAfter(calls: seq<Call>, kind: string): Option<string> {
    if calls == [] then None
    else
      var last := calls[|calls| - 1];
      if !Touches(last, kind) then StatusAfter(calls[..|calls| - 1], kind)
      else if last.Ensure? then Some(last.condition.status) else None
  }

  /** Call `i` changed the status of the kind (or added it), and no later call did. */
  ghost predicate LastChange(calls: seq<Call>, kind: string, i: nat) {
    && i < |calls| && calls[i].Ensure? && calls[i].condition.kind == kind
    && StatusAfter(calls[..i], kind) != Some(calls[i].condition.status)
    && forall j :: i <= j < |calls| && Touches(calls[j], kind) ==>
         calls[j].Ensure? && calls[j].condition.status == calls[i].condition.status
  }

  /** Call `i` is the last one about the kind. */
  ghost predicate LastCall(calls: seq<Call>, kind: string, i: nat) {
    i < |calls| && Touches(calls[i], kind) && forall j :: i < j < |calls| ==> !Touches(calls[j], kind)
  }

  lemma {:induction false} SlotStatus(calls: seq<Call>, kind: string)
    ensures var slot := Table().Slot(OpsOf(calls), kind);
      && (slot.Some? <==> StatusAfter(calls, kind).Some?)
      && (slot.Some? ==> slot.value.kind == kind && slot.value.status == StatusAfter(calls, kind).value)
  {
    if calls != [] {
      var n := |calls| - 1;
      SlotStatus(calls[..n], kind);
      assert OpsOf(calls)[..n] == OpsOf(calls[..n]) by { OpsLength(calls[..n]); }
      OpsLength(calls);
    }
  }

  lemma {:induction false} OpsLength(calls: seq<Call>)
    ensures |OpsOf(calls)| == |calls|
  {
    if calls != [] { OpsLength(calls[..|calls| - 1]); }
  }

  /** A call that leaves the status of a kind as it is leaves its last change where it was. */
  lemma LastChangeStays(calls: seq<Call>, call: Call, kind: string, i: nat)
    requires LastChange(calls, kind, i)
    requires Touches(call, kind) ==> call.Ensure? && call.condition.status == calls[i].condition.status
    ensures LastChange(calls + [call], kind, i)
  {
    var all := calls + [call];
    assert all[..i] == calls[..i];
    assert forall j :: 0 <= j < |calls| ==> all[j] == calls[j];
  }

  lemma {:induction false} StatusIsOfLastChange(calls: seq<Call>, kind: string, i: nat)
    requires LastChange(calls, kind, i)
    ensures StatusAfter(calls, kind) == Some(calls[i].condition.status)
  {
    assert calls[..|calls|] == calls;
    StatusKept(calls, kind, i, |calls|);
  }

  lemma {:induction false} StatusKept(calls: seq<Call>, kind: string, i: nat, j: nat)
    requires LastChange(calls, kind, i) && i < j <= |calls|
    ensures StatusAfter(calls[..j], kind) == Some(calls[i].condition.status)
    decreases j
  {
    assert calls[..j][..j - 1] == calls[..j - 1];
    if i < j - 1 {
      StatusKept(calls, kind, i, j - 1);
    }
  }

  lemma SlotAfterCall(calls: seq<Call>, kind: string)
    requires calls != []
    ensures var n := |calls| - 1;
      Table().Slot(OpsOf(calls), kind) == Table().Touch(Table().Slot(OpsOf(calls[..n]), kind), kind, OpOf(calls[n]))
  {
    var n := |calls| - 1;
    OpsLength(calls[..n]);
    assert OpsOf(calls)[..n] == OpsOf(calls[..n]) && OpsOf(calls)[n] == OpOf(calls[n]);
  }

  lemma {:induction false} SlotTime(calls: seq<Call>, kind: string) returns (i: nat, last: nat)
    requires StatusAfter(calls, kind).Some?
    ensures LastChange(calls, kind, i) && LastCall(calls, kind, last) && calls[last].Ensure?
    ensures Table().Slot(OpsOf(calls), kind) == Some(calls[last].condition.(lastTransitionTime := calls[i].now))
  {
    var n := |calls| - 1;
    var prev := calls[..n];
    SlotStatus(prev, kind);
    SlotAfterCall(calls, kind);
    assert calls == prev + [calls[n]];
    if Touches(calls[n], kind) && StatusAfter(prev, kind) != Some(calls[n].condition.status) {
      i, last := n, n;
    } else {
      i, last := SlotTime(prev, kind);
      StatusIsOfLastChange(prev, kind, i);
      LastChangeStays(prev, calls[n], kind, i);
      if Touches(calls[n], kind) {
        last := n;
      }
    }
  }

  lemma FromNothing(calls: seq<Call>, kind: string) returns (i: nat, last: nat)
    ensures Table().Unique(After(calls))
    ensures Table().Find(After(calls), kind).Some? <==> StatusAfter(calls, kind).Some?
    ensures StatusAfter(calls, kind).Some? ==>
      && LastChange(calls, kind, i) && LastCall(calls, kind, last) && calls[last].Ensure?
      && Table().Find(After(calls), kind) == Some(calls[last].condition.(lastTransitionTime := calls[i].now))
  {
    Table().ListIsMap(OpsOf(calls), kind);
    SlotStatus(calls, kind);
    i, last := 0, 0;
    if StatusAfter(calls, kind).Some? {
      i, last := SlotTime(calls, kind);
    }
  }

  /** The list after a run that starts from a stored list. */
  function AfterFrom(start: seq<Condition>, calls: seq<Call>): seq<Condition> {
    Table().RunFrom(start, OpsOf(calls))
  }

  /** A stored condition counts as an update at its stored time. */
  function AsCalls(start: seq<Condition>): (calls: seq<Call>)
    ensures |calls| == |start| && forall i :: 0 <= i < |start| ==> calls[i] == Ensure(start[i], start[i].lastTransitionTime)
  {
    seq(|start|, i requires 0 <= i < |start| => Ensure(start[i], start[i].lastTransitionTime))
  }

  lemma {:induction false} OpsOfStored(start: seq<Condition>)
    ensures OpsOf(AsCalls(start)) == Table().Puts(start)
  {
    if start != [] {
      var n := |start| - 1;
      OpsOfStored(start[..n]);
      assert AsCalls(start)[..n] == AsCalls(start[..n]);
      assert OpOf(AsCalls(start)[n]) == Put(start[n]);
      assert Table().Puts(start) == Table().Puts(start[..n]) + [Put(start[n])];
    }
  }

  lemma {:induction false} OpsOfConcat(a: seq<Call>, b: seq<Call>)
    ensures OpsOf(a + b) == OpsOf(a) + OpsOf(b)
  {
    if b == [] {
      assert a + b == a;
    } else {
      var n := |b| - 1;
      OpsOfConcat(a, b[..n]);
      assert (a + b)[..|a + b| - 1] == a + b[..n];
    }
  }

  lemma StoredFirst(start: seq<Condition>, calls: seq<Call>)
    requires Table().Unique(start)
    ensures AfterFrom(start, calls) == After(AsCalls(start) + calls)
  {
    OpsOfStored(start);
    OpsOfConcat(AsCalls(start), calls);
    Table().RunFromIsRun(start, OpsOf(calls));
  }

  /** Over every run from any stored list without repeated kinds the kinds stay unique, a kind is
      present exactly when the last call about it was an update, and then its entry is that update's
      condition, with the time of the call that last changed its status. A stored condition counts
      as an update at its stored time. */
  lemma ConditionsRun(start: seq<Condition>, calls: seq<Call>, kind: string) returns (i: nat, last: nat)
    requires Table().Unique(start)
    ensures Table().Unique(AfterFrom(start, calls))
    ensures var all := AsCalls(start) + calls;
      && (Table().Find(AfterFrom(start, calls), kind).Some? <==> StatusAfter(all, kind).Some?)
      && (StatusAfter(all, kind).Some? ==>
        && LastChange(all, kind, i) && LastCall(all, kind, last) && all[last].Ensure?
        && Table().Find(AfterFrom(start, calls), kind) == Some(all[last].condition.(lastTransitionTime := all[i].now)))
  {
    StoredFirst(start, calls);
    i, last := FromNothing(AsCalls(start) + calls, kind);
  }

  /** The updates of a kind come at times that do not decrease. */
  ghost predicate ClockNeverGoesBack(calls: seq<Call>, kind: string) {
    forall i, j :: 0 <= i <= j < |calls| && IsUpdate(calls[i], kind) && IsUpdate(calls[j], kind) ==> calls[i].now <= calls[j].now
  }

  predicate IsUpdate(call: Call, kind: string) {
    call.Ensure? && call.condition.kind == kind
  }

  /** There is only one call that last changed the status, so the stored time is determined. */
  lemma LastChangeUnique(calls: seq<Call>, kind: string, i: nat, j: nat)
    requires LastChange(calls, kind, i) && LastChange(calls, kind, j)
    ensures i == j
  {
    if i < j {
      StatusKept(calls, kind, i, j);
    }
    if j < i {
      StatusKept(calls, kind, j, i);
    }
  }

  /** With a clock that never goes back, transition times never do either while a kind stays. */
  lemma TransitionTimesGrow(start: seq<Condition>, calls: seq<Call>, call: Call, kind: string)
    requires Table().Unique(start) && ClockNeverGoesBack(AsCalls(start) + calls + [call], kind)
    requires Table().Find(AfterFrom(start, calls), kind).Some? && Table().Find(AfterFrom(start, calls + [call]), kind).Some?
    ensures Table().Find(AfterFrom(start, calls), kind).value.lastTransitionTime
      <= Table().Find(AfterFrom(start, calls + [call]), kind).value.lastTransitionTime
  {
    var was := AsCalls(start) + calls;
    var all := AsCalls(start) + (calls + [call]);
    assert all == was + [call];
    var i, _ := ConditionsRun(start, calls, kind);
    var j, _ := ConditionsRun(start, calls + [call], kind);
    LastChangesInOrder(was, call, kind, i, j);
  }

  /** One more call moves the last change forward or leaves it. */
  lemma LastChangesInOrder(calls: seq<Call>, call: Call, kind: string, i: nat, j: nat)
    requires LastChange(calls, kind, i) && LastChange(calls + [call], kind, j)
    requires ClockNeverGoesBack(calls + [call], kind)
    ensures calls[i].now <= (calls + [call])[j].now
  {
    var all := calls + [call];
    assert all[..|calls|] == calls && all[i] == calls[i];
    if j < i {
      assert LastChange(calls, kind, j) by {
        assert all[..j] == calls[..j];
        assert forall k :: 0 <= k < |calls| ==> all[k] == calls[k];
      }
      LastChangeUnique(calls, kind, j, i);
    }
    assert IsUpdate(all[i], kind) && IsUpdate(all[j], kind);
  }
}
