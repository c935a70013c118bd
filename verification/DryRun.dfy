/** The dry-run manager: the global error queue (internal/dryrun/error_queue.go), error trees
    (internal/dryrun/error.go) and the run over reconcilers, namespaces and items
    (internal/dryrun/manager.go). */
module DryRun {
  import opened Picking
  import opened Text

  /** A Go error as `errors.Unwrap` sees it. `Nil` is the nil error, which a wrapping error can
      hold. Only leaves are asked whether they are a `DryRunError`. */
  datatype Err =
    | Nil
    | DryRunError(msg: string)
    | Plain(text: string)
    | Wrap(text: string, inner: Err)
    | Multi(text: string, inners: seq<Err>)

  const DRY_RUN_ERROR_PREFIX := "DryRun event: "

  datatype EventType = Normal | Warning

  datatype Event = Event(obj: string, kind: EventType, message: string)

  /** `strings.Contains`. */
  predicate Contains(s: string, sub: string) {
    sub <= s || (s != [] && Contains(s[1..], sub))
  }

  function ErrorText(e: Err): string {
    match e
    case Nil => ""
    case DryRunError(m) => DRY_RUN_ERROR_PREFIX + m
    case Plain(t) => t
    case Wrap(t, _) => t
    case Multi(t, _) => t
  }

  /** `containsDryRunErrors`: `errors.As` walks the tree, skipping nil errors. */
  predicate ContainsDryRunErrors(e: Err)
    decreases e
  {
    match e
    case DryRunError(_) => true
    case Wrap(_, inner) => ContainsDryRunErrors(inner)
    case Multi(_, es) => exists i :: 0 <= i < |es| && ContainsDryRunErrors(es[i])
    case _ => false
  }

  // ---- What is reported, read off the leaves ----

  /** The leaves of an error tree, left to right. */
  function Leaves(e: Err): seq<Err>
    decreases e
  {
    match e
    case Nil => []
    case Wrap(_, inner) => Leaves(inner)
    case Multi(_, es) => LeavesOf(es)
    case _ => [e]
  }

  function LeavesOf(es: seq<Err>): seq<Err>
    decreases es
  {
    if es == [] then [] else Leaves(es[0]) + LeavesOf(es[1..])
  }

  predicate Reportable(leaf: Err) {
    leaf.DryRunError? || Contains(ErrorText(leaf), DRY_RUN_ERROR_PREFIX)
  }

  function LeafEvent(obj: string, leaf: Err): Event {
    Event(obj, Normal, if leaf.DryRunError? then leaf.msg else ErrorText(leaf))
  }

  /** One event per reportable leaf, in order. */
  function LeafEvents(obj: string, leaves: seq<Err>): seq<Event> {
    if leaves == [] then []
    else (if Reportable(leaves[0]) then [LeafEvent(obj, leaves[0])] else []) + LeafEvents(obj, leaves[1..])
  }

  /** The events `reportError` attempts for an error. */
  function ErrorEvents(obj: string, e: Err): seq<Event> {
    if e.Nil? then []
    else if ContainsDryRunErrors(e) then LeafEvents(obj, Leaves(e))
    else [Event(obj, Warning, ErrorText(e))]
  }

  // ---- The same by positions in the tree ----

  /** The leaf at the end of a path: step 0 to a wrapped error, step `i` to the i-th of several. */
  function LeafAt(e: Err, path: seq<nat>): Option<Err>
    decreases path
  {
    match e
    case Nil => None
    case Wrap(_, inner) => if path != [] && path[0] == 0 then LeafAt(inner, path[1..]) else None
    case Multi(_, es) => if path != [] && path[0] < |es| then LeafAt(es[path[0]], path[1..]) else None
    case _ => if path == [] then Some(e) else None
  }

  /** Where the two paths part, `p` goes further to the left. */
  ghost predicate LeftOf(p: seq<nat>, q: seq<nat>) {
    exists k: nat :: PartsAt(p, q, k)
  }

  predicate PartsAt(p: seq<nat>, q: seq<nat>, k: nat) {
    k < |p| && k < |q| && p[..k] == q[..k] && p[k] < q[k]
  }

  /** `leaves` are all the leaves of `e` from left to right, at `paths`. */
  ghost predicate LeavesAt(e: Err, leaves: seq<Err>, paths: seq<seq<nat>>) {
    && |paths| == |leaves|
    && (forall k :: 0 <= k < |paths| ==> LeafAt(e, paths[k]) == Some(leaves[k]))
    && (forall k, l :: 0 <= k < l < |paths| ==> LeftOf(paths[k], paths[l]))
    && (forall path :: LeafAt(e, path).Some? ==> path in paths)
  }

  /** Every path one step further from the root, by way of child `i`. */
  function Under(i: nat, paths: seq<seq<nat>>): (r: seq<seq<nat>>)
    ensures |r| == |paths| && forall k :: 0 <= k < |paths| ==> r[k] == [i] + paths[k]
  {
    seq(|paths|, k requires 0 <= k < |paths| => [i] + paths[k])
  }

  lemma LeftUnder(i: nat, p: seq<nat>, q: seq<nat>)
    requires LeftOf(p, q)
    ensures LeftOf([i] + p, [i] + q)
  {
    var k: nat :| PartsAt(p, q, k);
    assert ([i] + p)[..k + 1] == [i] + p[..k] && ([i] + q)[..k + 1] == [i] + q[..k];
    assert PartsAt([i] + p, [i] + q, k + 1);
  }

  lemma LeftUnderAll(i: nat, paths: seq<seq<nat>>)
    requires forall k, l :: 0 <= k < l < |paths| ==> LeftOf(paths[k], paths[l])
    ensures forall k, l :: 0 <= k < l < |paths| ==> LeftOf(Under(i, paths)[k], Under(i, paths)[l])
  {
    forall k, l | 0 <= k < l < |paths| ensures LeftOf(Under(i, paths)[k], Under(i, paths)[l]) {
      LeftUnder(i, paths[k], paths[l]);
    }
  }

  lemma InUnder(i: nat, path: seq<nat>, paths: seq<seq<nat>>)
    requires path != [] && path[0] == i && path[1..] in paths
    ensures path in Under(i, paths)
  {
    var k :| 0 <= k < |paths| && paths[k] == path[1..];
    assert Under(i, paths)[k] == path;
  }

  lemma LeavesOfWrapped(text: string, inner: Err, leaves: seq<Err>, paths: seq<seq<nat>>)
    requires LeavesAt(inner, leaves, paths)
    ensures LeavesAt(Wrap(text, inner), leaves, Under(0, paths))
  {
    LeftUnderAll(0, paths);
    forall path | LeafAt(Wrap(text, inner), path).Some? ensures path in Under(0, paths) {
      InUnder(0, path, paths);
    }
  }

  /** One more error at the right end. */
  lemma LeavesOfOneMore(es: seq<Err>, last: Err, leaves: seq<Err>, paths: seq<seq<nat>>, own: seq<Err>, ownPaths: seq<seq<nat>>)
    requires LeavesAt(Multi("", es), leaves, paths) && LeavesAt(last, own, ownPaths)
    ensures LeavesAt(Multi("", es + [last]), leaves + own, paths + Under(|es|, ownPaths))
  {
    var whole, all := Multi("", es + [last]), paths + Under(|es|, ownPaths);
    LeftUnderAll(|es|, ownPaths);
    forall k | 0 <= k < |all| ensures LeafAt(whole, all[k]) == Some((leaves + own)[k]) {
      if k >= |paths| {
        assert all[k][1..] == ownPaths[k - |paths|];
      }
    }
    forall k, l | 0 <= k < l < |all| ensures LeftOf(all[k], all[l]) {
      if k < |paths| <= l {
        assert LeafAt(Multi("", es), paths[k]).Some?;
        assert PartsAt(all[k], all[l], 0);
      }
    }
    forall path | LeafAt(whole, path).Some? ensures path in all {
      if path[0] == |es| {
        InUnder(|es|, path, ownPaths);
      } else {
        assert LeafAt(Multi("", es), path).Some?;
      }
    }
  }

  lemma {:induction false} LeavesOfAppend(es: seq<Err>, last: Err)
    ensures LeavesOf(es + [last]) == LeavesOf(es) + Leaves(last)
  {
    var whole := es + [last];
    if es == [] {
      assert whole[1..] == [] && LeavesOf([]) == [];
    } else {
      assert whole[1..] == es[1..] + [last];
      LeavesOfAppend(es[1..], last);
      assert Leaves(es[0]) + (LeavesOf(es[1..]) + Leaves(last)) == (Leaves(es[0]) + LeavesOf(es[1..])) + Leaves(last);
    }
  }

  /** The leaves are read off the tree from left to right. */
  lemma {:induction false} LeavesByPath(e: Err) returns (paths: seq<seq<nat>>)
    ensures LeavesAt(e, Leaves(e), paths)
    decreases e, 0
  {
    match e
    case Nil => paths := [];
    case Wrap(text, inner) =>
      paths := LeavesByPath(inner);
      LeavesOfWrapped(text, inner, Leaves(inner), paths);
      paths := Under(0, paths);
    case Multi(_, es) =>
      paths := LeavesOfByPath(es, |es|);
      assert es[..|es|] == es;
      assert forall path :: LeafAt(e, path) == LeafAt(Multi("", es), path);
    case _ => paths := [[]];
  }

  lemma {:induction false} LeavesOfByPath(es: seq<Err>, n: nat) returns (paths: seq<seq<nat>>)
    requires n <= |es|
    ensures LeavesAt(Multi("", es[..n]), LeavesOf(es[..n]), paths)
    decreases es, n
  {
    paths := [];
    if n > 0 {
      paths := LeavesOfByPath(es, n - 1);
      var own := LeavesByPath(es[n - 1]);
      assert es[..n] == es[..n - 1] + [es[n - 1]];
      LeavesOfAppend(es[..n - 1], es[n - 1]);
      LeavesOfOneMore(es[..n - 1], es[n - 1], LeavesOf(es[..n - 1]), paths, Leaves(es[n - 1]), own);
      paths := paths + Under(n - 1, own);
    }
  }

  // ---- What is reported, by positions ----

  /** A dry-run error, or one whose text shows that it holds one. */
  ghost predicate Tells(leaf: Err) {
    leaf.DryRunError? || (leaf.Plain? && exists i :: Stands(leaf.text, i, "DryRun event: "))
  }

  /** The event says what the leaf says: of a dry-run error its message, without the prefix. */
  ghost predicate Says(obj: string, leaf: Err, event: Event) {
    && event.obj == obj && event.kind == Normal
    && (leaf.DryRunError? ==> event.message == leaf.msg)
    && (leaf.Plain? ==> event.message == leaf.text)
  }

  ghost function Saying(obj: string): (Err, Event) -> bool {
    (leaf, event) => Says(obj, leaf, event)
  }

  /** The events are those of the leaves of `e` that tell something, from left to right. */
  ghost predicate EventsOfLeaves(obj: string, e: Err, events: seq<Event>) {
    exists leaves, paths ::
      LeavesAt(e, leaves, paths) && Picks(Tells, Saying(obj), leaves, events)
  }

  lemma {:induction false} ContainsIff(s: string, sub: string)
    ensures Contains(s, sub) <==> exists i :: Stands(s, i, sub)
  {
    if sub <= s {
      assert Stands(s, 0, sub);
    } else if s != [] {
      ContainsIff(s[1..], sub);
      if i: nat :| Stands(s[1..], i, sub) {
        assert s[1..][i..i + |sub|] == s[i + 1..i + 1 + |sub|];
        assert Stands(s, i + 1, sub);
      }
      if i: nat :| Stands(s, i, sub) {
        assert i > 0 by { assert s[..|s|] == s; }
        assert s[1..][i - 1..i - 1 + |sub|] == s[i..i + |sub|];
        assert Stands(s[1..], i - 1, sub);
      }
    }
  }

  ghost predicate IsLeaf(e: Err) {
    e.DryRunError? || e.Plain?
  }

  lemma {:induction false} LeafEventsAre(obj: string, leaves: seq<Err>)
    requires forall k :: 0 <= k < |leaves| ==> IsLeaf(leaves[k])
    ensures Picks(Tells, Saying(obj), leaves, LeafEvents(obj, leaves))
  {
    if leaves == [] {
      PicksNothing(Tells, Saying(obj));
    } else {
      var rest := LeafEvents(obj, leaves[1..]);
      LeafEventsAre(obj, leaves[1..]);
      assert leaves == [leaves[0]] + leaves[1..];
      assert IsLeaf(leaves[0]);
      ContainsIff(ErrorText(leaves[0]), DRY_RUN_ERROR_PREFIX);
      if Tells(leaves[0]) {
        PicksFirst(Tells, Saying(obj), leaves[1..], rest, leaves[0], LeafEvent(obj, leaves[0]));
      } else {
        SkipsFirst(Tells, Saying(obj), leaves[1..], rest, leaves[0]);
        assert [] + rest == rest;
      }
    }
  }

  lemma {:induction false} LeafAtIsLeaf(e: Err, path: seq<nat>)
    requires LeafAt(e, path).Some?
    ensures IsLeaf(LeafAt(e, path).value)
    decreases path
  {
    match e
    case Wrap(_, inner) => LeafAtIsLeaf(inner, path[1..]);
    case Multi(_, es) => LeafAtIsLeaf(es[path[0]], path[1..]);
    case _ =>
  }

  lemma LeafEventsOf(obj: string, e: Err)
    ensures EventsOfLeaves(obj, e, LeafEvents(obj, Leaves(e)))
  {
    var paths := LeavesByPath(e);
    forall k | 0 <= k < |paths| ensures IsLeaf(Leaves(e)[k]) {
      LeafAtIsLeaf(e, paths[k]);
    }
    LeafEventsAre(obj, Leaves(e));
  }

  /** What is reported of an error: the events of its leaves if one of them is a dry-run error, and
      otherwise a warning with its text. */
  ghost predicate ReportOf(obj: string, e: Err, events: seq<Event>) {
    if e.Nil? then events == []
    else if exists path :: LeafAt(e, path).Some? && LeafAt(e, path).value.DryRunError? then EventsOfLeaves(obj, e, events)
    else events == [Event(obj, Warning, ErrorText(e))]
  }

  lemma ErrorEventsAre(obj: string, e: Err)
    ensures ReportOf(obj, e, ErrorEvents(obj, e))
  {
    ContainsIffLeaf(e);
    var paths := LeavesByPath(e);
    if path :| LeafAt(e, path).Some? && LeafAt(e, path).value.DryRunError? {
      var k :| 0 <= k < |paths| && paths[k] == path;
      assert Leaves(e)[k] in Leaves(e);
    }
    if l :| l in Leaves(e) && l.DryRunError? {
      var k :| 0 <= k < |paths| && Leaves(e)[k] == l;
      assert LeafAt(e, paths[k]) == Some(l);
    }
    LeafEventsOf(obj, e);
  }

  lemma ConcatAssociative(a: seq<Event>, b: seq<Event>, c: seq<Event>)
    ensures a + (b + c) == (a + b) + c
  {
  }

  lemma {:induction false} LeafEventsConcat(obj: string, a: seq<Err>, b: seq<Err>)
    ensures LeafEvents(obj, a + b) == LeafEvents(obj, a) + LeafEvents(obj, b)
  {
    if a == [] {
      assert a + b == b;
    } else {
      assert (a + b)[1..] == a[1..] + b && (a + b)[0] == a[0];
      LeafEventsConcat(obj, a[1..], b);
      var head := if Reportable(a[0]) then [LeafEvent(obj, a[0])] else [];
      ConcatAssociative(head, LeafEvents(obj, a[1..]), LeafEvents(obj, b));
    }
  }

  /** A tree holds a `DryRunError` exactly when one of its leaves is one. */
  lemma {:induction false} ContainsIffLeaf(e: Err)
    ensures ContainsDryRunErrors(e) <==> exists l :: l in Leaves(e) && l.DryRunError?
    decreases e
  {
    match e
    case Wrap(_, inner) => ContainsIffLeaf(inner);
    case Multi(_, es) => ContainsIffLeafOf(es);
    case DryRunError(m) => assert e in Leaves(e);
    case _ =>
  }

  lemma {:induction false} ContainsIffLeafOf(es: seq<Err>)
    ensures (exists i :: 0 <= i < |es| && ContainsDryRunErrors(es[i])) <==> exists l :: l in LeavesOf(es) && l.DryRunError?
    decreases es
  {
    if es != [] {
      ContainsIffLeaf(es[0]);
      ContainsIffLeafOf(es[1..]);
      assert forall i :: 0 < i < |es| ==> es[i] == es[1..][i - 1];
      if i :| 0 <= i < |es| && ContainsDryRunErrors(es[i]) {
        if i > 0 {
          assert ContainsDryRunErrors(es[1..][i - 1]);
        }
      }
      if j :| 0 <= j < |es[1..]| && ContainsDryRunErrors(es[1..][j]) {
        assert ContainsDryRunErrors(es[j + 1]);
      }
    }
  }

  lemma {:induction false} LeafEventsKinds(obj: string, leaves: seq<Err>)
    ensures forall ev :: ev in LeafEvents(obj, leaves) ==> ev.kind == Normal && ev.obj == obj
    ensures (exists l :: l in leaves && l.DryRunError?) ==> LeafEvents(obj, leaves) != []
  {
    if leaves != [] {
      LeafEventsKinds(obj, leaves[1..]);
      if l :| l in leaves && l.DryRunError? {
        assert l == leaves[0] || l in leaves[1..];
      }
    }
  }

  /** Every error leaves a trace: at least one event, and a warning (then alone) exactly when the
      tree holds no `DryRunError`. */
  lemma ErrorEventsLeaveTrace(obj: string, e: Err)
    requires !e.Nil?
    ensures ErrorEvents(obj, e) != []
    ensures (exists ev :: ev in ErrorEvents(obj, e) && ev.kind == Warning) <==> !ContainsDryRunErrors(e)
    ensures !ContainsDryRunErrors(e) ==> ErrorEvents(obj, e) == [Event(obj, Warning, ErrorText(e))]
  {
    ContainsIffLeaf(e);
    LeafEventsKinds(obj, Leaves(e));
    if !ContainsDryRunErrors(e) {
      assert ErrorEvents(obj, e)[0].kind == Warning;
    }
  }

  // ---- The error queue ----

  class ErrorQueue {
    var active: bool
    var errs: seq<Err>

    constructor ()
      ensures !active && errs == []
    {
      active, errs := false, [];
    }

    method AddTerminationError(e: Err)
      modifies this
      ensures active == old(active)
      ensures errs == if active then old(errs) + [e] else old(errs)
    {
      if !active { return; }
      errs := errs + [e];
    }

    /** Nil when nothing but nil errors is queued, otherwise an error with all the queued leaves. */
    method TerminationError() returns (e: Err)
      ensures Leaves(e) == LeavesOf(errs)
      ensures e.Nil? <==> forall i :: 0 <= i < |errs| ==> errs[i].Nil?
      ensures JoinOf(errs, e) && e == JoinErrors(errs)
    {
      e := JoinErrors(errs);
      JoinErrorsIs(errs);
      JoinKeepsLeaves(errs);
      NonNilIff(errs);
    }

    method ClearTerminationErrors()
      modifies this
      ensures active == old(active) && errs == []
    {
      errs := [];
    }

    method EnableErrors()
      modifies this
      ensures active && errs == old(errs)
    {
      active := true;
    }
  }

  function NonNil(es: seq<Err>): seq<Err> {
    if es == [] then [] else (if es[0].Nil? then [] else [es[0]]) + NonNil(es[1..])
  }

  lemma {:induction false} NonNilIff(es: seq<Err>)
    ensures NonNil(es) == [] <==> forall i :: 0 <= i < |es| ==> es[i].Nil?
  {
    if es != [] {
      NonNilIff(es[1..]);
      assert forall i :: 0 < i < |es| ==> es[i] == es[1..][i - 1];
    }
  }

  function Texts(es: seq<Err>): (texts: seq<string>)
    ensures |texts| == |es| && forall i :: 0 <= i < |es| ==> texts[i] == ErrorText(es[i])
  {
    seq(|es|, i requires 0 <= i < |es| => ErrorText(es[i]))
  }

  /** `errors.Join`: nil errors are dropped, and nothing left gives nil. */
  function JoinErrors(es: seq<Err>): Err {
    var kept := NonNil(es);
    if kept == [] then Nil else Multi(Join(Texts(kept), '\n'), kept)
  }

  ghost predicate NotNil(e: Err) {
    !e.Nil?
  }

  /** `e` is the join of `es`: nil when there is nothing but nil errors, otherwise an error that holds
      the others in their order, with their texts on lines of their own. */
  ghost predicate JoinOf(es: seq<Err>, e: Err) {
    if forall i :: 0 <= i < |es| ==> es[i].Nil? then e.Nil?
    else e.Multi? && Picks(NotNil, Same, es, e.inners) && e.text == Join(Texts(e.inners), '\n')
  }

  lemma {:induction false} NonNilPicks(es: seq<Err>)
    ensures Picks(NotNil, Same, es, NonNil(es))
  {
    if es == [] {
      PicksNothing(NotNil, Same);
    } else {
      var rest := NonNil(es[1..]);
      NonNilPicks(es[1..]);
      assert es == [es[0]] + es[1..];
      if es[0].Nil? {
        SkipsFirst(NotNil, Same, es[1..], rest, es[0]);
        assert [] + rest == rest;
      } else {
        PicksFirst(NotNil, Same, es[1..], rest, es[0], es[0]);
      }
    }
  }

  lemma JoinErrorsIs(es: seq<Err>)
    ensures JoinOf(es, JoinErrors(es))
  {
    NonNilIff(es);
    NonNilPicks(es);
  }

  lemma {:induction false} LeavesOfNonNil(es: seq<Err>)
    ensures LeavesOf(NonNil(es)) == LeavesOf(es)
  {
    if es != [] {
      LeavesOfNonNil(es[1..]);
      if es[0].Nil? {
        assert [] + LeavesOf(es[1..]) == LeavesOf(es[1..]);
        assert [] + NonNil(es[1..]) == NonNil(es[1..]);
      } else {
        assert NonNil(es)[1..] == NonNil(es[1..]);
      }
    }
  }

  /** Joining loses no leaf of the queued errors. */
  lemma JoinKeepsLeaves(es: seq<Err>)
    ensures Leaves(JoinErrors(es)) == LeavesOf(es)
  {
    LeavesOfNonNil(es);
    var kept := NonNil(es);
    if kept == [] {
      assert LeavesOf(kept) == [];
    }
  }

  // ---- What a run attempts ----

  /** The events a piece of the run attempts when no event creation fails, and whether it then
      gets to its end. */
  datatype Trace = Trace(events: seq<Event>, completes: bool)

  function Then(a: Trace, b: Trace): Trace {
    if a.completes then Trace(a.events + b.events, b.completes) else a
  }

  function Chain(ts: seq<Trace>): Trace {
    if ts == [] then Trace([], true) else Then(ts[0], Chain(ts[1..]))
  }

  lemma {:induction false} ChainConcat(ts: seq<Trace>, us: seq<Trace>)
    ensures Chain(ts + us) == Then(Chain(ts), Chain(us))
  {
    if ts == [] {
      assert ts + us == us;
    } else {
      assert (ts + us)[1..] == ts[1..] + us;
      ChainConcat(ts[1..], us);
      ThenAssociative(ts[0], Chain(ts[1..]), Chain(us));
    }
  }

  lemma ThenAssociative(a: Trace, b: Trace, c: Trace)
    ensures Then(Then(a, b), c) == Then(a, Then(b, c))
  {
    ConcatAssociative(a.events, b.events, c.events);
  }

  /** What the wrapped reconciler does with an item: the errors it queues, and the one it returns. */
  datatype Outcome = Outcome(queued: seq<Err>, returned: Err)

  /** A reconciler as the run sees it. `list` is None where the API call fails. What it does with an
      item may depend on how many items the run has reconciled before, so it may keep state. */
  datatype Reconciler = Reconciler(kindKnown: bool, list: string -> Option<seq<string>>, reconcile: (string, nat) -> Outcome)

  /** The error of one item: the returned one if there is one, else the queued ones. */
  function ItemError(o: Outcome): Err {
    if !o.returned.Nil? then o.returned else JoinErrors(o.queued)
  }

  /** `err` is the error of an item: what the reconciler returned, and if it returned none, the join
      of what it queued. */
  ghost predicate ErrorOf(o: Outcome, err: Err) {
    if o.returned.Nil? then JoinOf(o.queued, err) else err == o.returned
  }

  lemma ItemErrorIs(o: Outcome)
    ensures ErrorOf(o, ItemError(o))
  {
    JoinErrorsIs(o.queued);
  }

  function ItemTrace(r: Reconciler, item: string, at: nat): Trace {
    Trace(ErrorEvents(item, ItemError(r.reconcile(item, at))) + [Event(item, Normal, "done")], true)
  }

  /** `at` is the number of items reconciled before these. */
  function ItemTraces(r: Reconciler, items: seq<string>, at: nat): seq<Trace> {
    seq(|items|, i requires 0 <= i < |items| => ItemTrace(r, items[i], at + i))
  }

  /** How many items a reconciler has in a namespace, and in several. */
  function Items(r: Reconciler, namespace: string): nat {
    match r.list(namespace)
    case None => 0
    case Some(items) => |items|
  }

  function ItemsIn(r: Reconciler, namespaces: seq<string>): nat {
    if namespaces == [] then 0
    else ItemsIn(r, namespaces[..|namespaces| - 1]) + Items(r, namespaces[|namespaces| - 1])
  }

  function ItemsOf(rs: seq<Reconciler>, namespaces: seq<string>): nat {
    if rs == [] then 0 else ItemsOf(rs[..|rs| - 1], namespaces) + ItemsIn(rs[|rs| - 1], namespaces)
  }

  function NamespaceTrace(r: Reconciler, namespace: string, at: nat): Trace {
    match r.list(namespace)
    case None => Trace([], false)
    case Some(items) => Chain(ItemTraces(r, items, at))
  }

  function NamespaceTraces(r: Reconciler, namespaces: seq<string>, at: nat): seq<Trace> {
    seq(|namespaces|, i requires 0 <= i < |namespaces| => NamespaceTrace(r, namespaces[i], at + ItemsIn(r, namespaces[..i])))
  }

  function ReconcilerTrace(r: Reconciler, namespaces: seq<string>, at: nat): Trace {
    if r.kindKnown then Chain(NamespaceTraces(r, namespaces, at)) else Trace([], false)
  }

  function ReconcilerTraces(rs: seq<Reconciler>, namespaces: seq<string>, at: nat): seq<Trace> {
    seq(|rs|, i requires 0 <= i < |rs| => ReconcilerTrace(rs[i], namespaces, at + ItemsOf(rs[..i], namespaces)))
  }

  function ReconcilersTrace(synced: bool, rs: seq<Reconciler>, namespaces: seq<string>, at: nat): Trace {
    if synced then Chain(ReconcilerTraces(rs, namespaces, at)) else Trace([], false)
  }

  lemma ItemsOfGrows(rs: seq<Reconciler>, namespaces: seq<string>, i: nat)
    requires i < |rs|
    ensures ItemsOf(rs[..i + 1], namespaces) == ItemsOf(rs[..i], namespaces) + ItemsIn(rs[i], namespaces)
  {
    assert rs[..i + 1][..i] == rs[..i];
  }

  lemma ItemsInGrows(r: Reconciler, namespaces: seq<string>, i: nat)
    requires i < |namespaces|
    ensures ItemsIn(r, namespaces[..i + 1]) == ItemsIn(r, namespaces[..i]) + Items(r, namespaces[i])
  {
    assert namespaces[..i + 1][..i] == namespaces[..i];
  }

  lemma ItemTraceAt(r: Reconciler, items: seq<string>, at: nat, i: nat)
    requires i < |items|
    ensures |ItemTraces(r, items, at)| == |items| && ItemTraces(r, items, at)[i] == ItemTrace(r, items[i], at + i)
  {
  }

  lemma ReconcilerAt(rs: seq<Reconciler>, namespaces: seq<string>, at: nat, i: nat)
    requires i < |rs|
    ensures |ReconcilerTraces(rs, namespaces, at)| == |rs|
    ensures ReconcilerTraces(rs, namespaces, at)[i] == ReconcilerTrace(rs[i], namespaces, at + ItemsOf(rs[..i], namespaces))
  {
  }

  lemma NamespaceAt(r: Reconciler, namespaces: seq<string>, at: nat, j: nat)
    requires j < |namespaces|
    ensures |NamespaceTraces(r, namespaces, at)| == |namespaces|
    ensures NamespaceTraces(r, namespaces, at)[j] == NamespaceTrace(r, namespaces[j], at + ItemsIn(r, namespaces[..j]))
  {
  }

  function RunTrace(synced: bool, rs: seq<Reconciler>, namespaces: seq<string>, at: nat, job: string): Trace {
    Then(ReconcilersTrace(synced, rs, namespaces, at), Trace([Event(job, Normal, "finished")], true))
  }

  // ---- What is delivered when event creations fail ----

  /** How many of `n` attempts succeed before the first that fails; attempt `start + k` fails when
      `fails(start + k)`. */
  function Delivered(n: nat, fails: nat -> bool, start: nat): (k: nat)
    ensures k <= n
    ensures forall i :: start <= i < start + k ==> !fails(i)
    ensures k < n ==> fails(start + k)
  {
    if n == 0 || fails(start) then 0 else 1 + Delivered(n - 1, fails, start + 1)
  }

  datatype Sink = Sink(log: seq<Event>, attempts: nat)

  /** From `before`, a piece of the run with trace `t` leads to `after` and reports `ok`. */
  ghost predicate Ran(fails: nat -> bool, before: Sink, t: Trace, after: Sink, ok: bool) {
    var k := Delivered(|t.events|, fails, before.attempts);
    && after.log == before.log + t.events[..k]
    && after.attempts == before.attempts + (if k < |t.events| then k + 1 else k)
    && (ok <==> k == |t.events| && t.completes)
  }

  /** The log got the events, or, where a creation failed, only the first of them. */
  ghost predicate Delivers(before: seq<Event>, events: seq<Event>, after: seq<Event>, ok: bool) {
    if ok then after == before + events else exists k :: 0 <= k < |events| && after == before + events[..k]
  }

  lemma RanDelivers(fails: nat -> bool, before: Sink, events: seq<Event>, after: Sink, ok: bool)
    requires Ran(fails, before, Trace(events, true), after, ok)
    ensures Delivers(before.log, events, after.log, ok)
  {
    assert events[..|events|] == events;
  }

  /** Of an error, the events of its leaves were delivered, */
  ghost predicate LeavesReported(obj: string, e: Err, before: seq<Event>, after: seq<Event>, ok: bool) {
    exists events :: EventsOfLeaves(obj, e, events) && Delivers(before, events, after, ok)
  }

  /** or all that is reported of it. */
  ghost predicate ErrorReported(obj: string, e: Err, before: seq<Event>, after: seq<Event>, ok: bool) {
    exists events :: ReportOf(obj, e, events) && Delivers(before, events, after, ok)
  }

  lemma LeafEventsCases(obj: string, e: Err)
    ensures e.Nil? ==> LeafEvents(obj, Leaves(e)) == []
    ensures e.DryRunError? ==> LeafEvents(obj, Leaves(e)) == [Event(obj, Normal, e.msg)]
    ensures e.Plain? ==> LeafEvents(obj, Leaves(e)) == if Contains(e.text, DRY_RUN_ERROR_PREFIX) then [Event(obj, Normal, e.text)] else []
    ensures e.Wrap? ==> LeafEvents(obj, Leaves(e)) == LeafEvents(obj, Leaves(e.inner))
    ensures e.Multi? ==> LeafEvents(obj, Leaves(e)) == LeafEvents(obj, LeavesOf(e.inners))
  {
    if e.DryRunError? || e.Plain? {
      assert Leaves(e) == [e] && [e][1..] == [] && LeafEvents(obj, []) == [];
    }
  }

  lemma RanReportsLeaves(fails: nat -> bool, before: Sink, obj: string, e: Err, after: Sink, ok: bool)
    requires Ran(fails, before, Trace(LeafEvents(obj, Leaves(e)), true), after, ok)
    ensures LeavesReported(obj, e, before.log, after.log, ok)
  {
    LeafEventsOf(obj, e);
    RanDelivers(fails, before, LeafEvents(obj, Leaves(e)), after, ok);
  }

  lemma RanReports(fails: nat -> bool, before: Sink, obj: string, e: Err, after: Sink, ok: bool)
    requires Ran(fails, before, Trace(ErrorEvents(obj, e), true), after, ok)
    ensures ErrorReported(obj, e, before.log, after.log, ok)
  {
    ErrorEventsAre(obj, e);
    RanDelivers(fails, before, ErrorEvents(obj, e), after, ok);
  }

  lemma {:induction false} DeliveredSplit(m: nat, n: nat, fails: nat -> bool, start: nat)
    ensures Delivered(m + n, fails, start) ==
      if Delivered(m, fails, start) < m then Delivered(m, fails, start) else m + Delivered(n, fails, start + m)
  {
    if m > 0 && !fails(start) {
      DeliveredSplit(m - 1, n, fails, start + 1);
    }
  }

  lemma RanNothing(fails: nat -> bool, s: Sink)
    ensures Ran(fails, s, Trace([], true), s, true)
  {
  }

  lemma DeliveredAll(t: Trace, fails: nat -> bool, s0: Sink, s1: Sink)
    requires Ran(fails, s0, t, s1, true)
    ensures t.completes && Delivered(|t.events|, fails, s0.attempts) == |t.events|
    ensures s1.log == s0.log + t.events && s1.attempts == s0.attempts + |t.events|
  {
    assert t.events[..|t.events|] == t.events;
  }

  /** After a piece that went well the next one runs. */
  lemma RanThen(fails: nat -> bool, s0: Sink, a: Trace, s1: Sink, b: Trace, s2: Sink, ok: bool)
    requires Ran(fails, s0, a, s1, true) && Ran(fails, s1, b, s2, ok)
    ensures Ran(fails, s0, Then(a, b), s2, ok)
  {
    var m, n := |a.events|, |b.events|;
    DeliveredAll(a, fails, s0, s1);
    var k := Delivered(n, fails, s1.attempts);
    LogsJoin(s0.log, a.events, b.events, k, s1.log, s2.log);
    RanJoined(fails, s0, Trace(a.events + b.events, b.completes), s2, ok, m, n);
  }

  /** A piece in two parts, the first of which was delivered. */
  lemma RanJoined(fails: nat -> bool, s0: Sink, t: Trace, s2: Sink, ok: bool, m: nat, n: nat)
    requires |t.events| == m + n && Delivered(m, fails, s0.attempts) == m
    requires var k := Delivered(n, fails, s0.attempts + m);
      && s2.log == s0.log + t.events[..m + k]
      && s2.attempts == s0.attempts + m + (if k < n then k + 1 else k)
      && (ok <==> k == n && t.completes)
    ensures Ran(fails, s0, t, s2, ok)
  {
    DeliveredSplit(m, n, fails, s0.attempts);
  }

  lemma LogsJoin(l0: seq<Event>, a: seq<Event>, b: seq<Event>, k: nat, l1: seq<Event>, l2: seq<Event>)
    requires k <= |b| && l1 == l0 + a && l2 == l1 + b[..k]
    ensures l2 == l0 + (a + b)[..|a| + k]
  {
    assert (a + b)[..|a| + k] == a + b[..k];
    ConcatAssociative(l0, a, b[..k]);
  }

  /** A piece that failed ends the run. */
  lemma RanStop(fails: nat -> bool, s0: Sink, a: Trace, s1: Sink, b: Trace)
    requires Ran(fails, s0, a, s1, false)
    ensures Ran(fails, s0, Then(a, b), s1, false)
  {
    DeliveredSplit(|a.events|, |b.events|, fails, s0.attempts);
    var k := Delivered(|a.events|, fails, s0.attempts);
    if a.completes {
      assert (a.events + b.events)[..k] == a.events[..k];
    }
  }

  lemma ChainGrows(ts: seq<Trace>, i: nat)
    requires i < |ts|
    ensures Chain(ts[..i + 1]) == Then(Chain(ts[..i]), ts[i])
  {
    assert ts[..i + 1] == ts[..i] + [ts[i]];
    ChainConcat(ts[..i], [ts[i]]);
    assert ts[i].events + [] == ts[i].events;
    assert [ts[i]][1..] == [];
    assert Chain([ts[i]]) == Then(ts[i], Chain([]));
  }

  lemma ChainSplits(ts: seq<Trace>, i: nat)
    requires i <= |ts|
    ensures Chain(ts) == Then(Chain(ts[..i]), Chain(ts[i..]))
  {
    assert ts == ts[..i] + ts[i..];
    ChainConcat(ts[..i], ts[i..]);
  }

  /** The first `i` pieces of a chain have run without failure. */
  ghost predicate RanUpTo(fails: nat -> bool, s0: Sink, ts: seq<Trace>, i: nat, s: Sink)
    requires i <= |ts|
  {
    Ran(fails, s0, Chain(ts[..i]), s, true)
  }

  lemma RanStart(fails: nat -> bool, s: Sink, ts: seq<Trace>)
    ensures RanUpTo(fails, s, ts, 0, s)
  {
  }

  /** One more piece of a chain, with the ones after it still to come. */
  lemma RanPiece(fails: nat -> bool, s0: Sink, ts: seq<Trace>, i: nat, s1: Sink, s2: Sink, ok: bool)
    requires i < |ts| && RanUpTo(fails, s0, ts, i, s1) && Ran(fails, s1, ts[i], s2, ok)
    ensures ok ==> RanUpTo(fails, s0, ts, i + 1, s2)
    ensures !ok ==> Ran(fails, s0, Chain(ts), s2, false)
  {
    RanThen(fails, s0, Chain(ts[..i]), s1, ts[i], s2, ok);
    ChainGrows(ts, i);
    if !ok {
      ChainSplits(ts, i + 1);
      RanStop(fails, s0, Chain(ts[..i + 1]), s2, Chain(ts[i + 1..]));
    }
  }

  lemma RanAll(fails: nat -> bool, s0: Sink, ts: seq<Trace>, s: Sink)
    requires RanUpTo(fails, s0, ts, |ts|, s)
    ensures Ran(fails, s0, Chain(ts), s, true)
  {
    assert ts[..|ts|] == ts;
  }

  // ---- The manager ----

  class Manager {
    /** The k-th event creation fails when `fails(k)` holds. */
    const fails: nat -> bool
    const queue: ErrorQueue
    const job: string
    const namespaces: seq<string>
    var reconcilers: seq<Reconciler>
    var log: seq<Event>
    var attempts: nat
    /** The number of items reconciled so far, on which reconcilers may depend. */
    var reconciled: nat

    constructor (fails: nat -> bool, queue: ErrorQueue, job: string, namespaces: seq<string>)
      ensures this.fails == fails && this.queue == queue && this.job == job
      ensures this.namespaces == if namespaces == [] then [""] else namespaces
      ensures reconcilers == [] && log == [] && attempts == 0 && reconciled == 0
    {
      this.fails, this.queue, this.job := fails, queue, job;
      this.namespaces := if |namespaces| > 0 then namespaces else [""];
      reconcilers, log, attempts, reconciled := [], [], 0, 0;
    }

    ghost function State(): Sink
      reads this
    {
      Sink(log, attempts)
    }

    method SetupReconciler(r: Reconciler)
      modifies this
      ensures reconcilers == old(reconcilers) + [r] && State() == old(State()) && reconciled == old(reconciled)
    {
      reconcilers := reconcilers + [r];
    }

    method Eventf(obj: string, kind: EventType, message: string) returns (ok: bool)
      modifies this
      ensures reconcilers == old(reconcilers) && reconciled == old(reconciled)
      ensures Ran(fails, old(State()), Trace([Event(obj, kind, message)], true), State(), ok)
    {
      ok := !fails(attempts);
      attempts := attempts + 1;
      if ok {
        log := log + [Event(obj, kind, message)];
      }
    }

    /** Walks the error tree and emits an event per dry-run error; a failed creation stops it. */
    method ReportDryRunErrors(obj: string, err: Err) returns (ok: bool)
      modifies this
      ensures reconcilers == old(reconcilers) && reconciled == old(reconciled)
      ensures Ran(fails, old(State()), Trace(LeafEvents(obj, Leaves(err)), true), State(), ok)
      ensures LeavesReported(obj, err, old(log), log, ok)
      decreases err
    {
      LeafEventsCases(obj, err);
      match err {
        case Nil =>
          ok := true;
        case Wrap(_, inner) =>
          ok := ReportDryRunErrors(obj, inner);
        case Multi(_, inners) =>
          ok := ReportEach(obj, inners);
        case DryRunError(msg) =>
          ok := Eventf(obj, Normal, msg);
        case Plain(text) =>
          if Contains(text, DRY_RUN_ERROR_PREFIX) {
            ok := Eventf(obj, Normal, text);
          } else {
            ok := true;
          }
      }
      RanReportsLeaves(fails, old(State()), obj, err, State(), ok);
    }

    method ReportEach(obj: string, errs: seq<Err>) returns (ok: bool)
      modifies this
      ensures reconcilers == old(reconcilers) && reconciled == old(reconciled)
      ensures Ran(fails, old(State()), Trace(LeafEvents(obj, LeavesOf(errs)), true), State(), ok)
      decreases errs
    {
      ghost var ts := LeafTraces(obj, errs);
      ChainOfLeaves(obj, errs);
      RanStart(fails, State(), ts);
      var i := 0;
      while i < |errs|
        invariant 0 <= i <= |errs| && reconcilers == old(reconcilers) && reconciled == old(reconciled)
        invariant RanUpTo(fails, old(State()), ts, i, State())
      {
        ghost var before := State();
        ok := ReportDryRunErrors(obj, errs[i]);
        RanPiece(fails, old(State()), ts, i, before, State(), ok);
        if !ok { return; }
        i := i + 1;
      }
      RanAll(fails, old(State()), ts, State());
      ok := true;
    }

    method ReportError(obj: string, err: Err) returns (ok: bool)
      modifies this
      ensures reconcilers == old(reconcilers) && reconciled == old(reconciled)
      ensures Ran(fails, old(State()), Trace(ErrorEvents(obj, err), true), State(), ok)
      ensures ErrorReported(obj, err, old(log), log, ok)
    {
      ok := true;
      if !err.Nil? {
        if ContainsDryRunErrors(err) {
          ok := ReportDryRunErrors(obj, err);
        } else {
          ok := Eventf(obj, Warning, ErrorText(err));
        }
      }
      RanReports(fails, old(State()), obj, err, State(), ok);
    }

    /** The wrapped reconciler: it queues its errors while it runs. */
    method InnerReconcile(r: Reconciler, item: string) returns (err: Err)
      modifies this`reconciled, queue
      ensures reconciled == old(reconciled) + 1
      ensures err == r.reconcile(item, old(reconciled)).returned
      ensures queue.active == old(queue.active)
      ensures queue.errs == old(queue.errs) + if queue.active then r.reconcile(item, old(reconciled)).queued else []
    {
      var outcome := r.reconcile(item, reconciled);
      reconciled := reconciled + 1;
      var i := 0;
      while i < |outcome.queued|
        invariant 0 <= i <= |outcome.queued| && reconciled == old(reconciled) + 1
        invariant queue.active == old(queue.active)
        invariant queue.errs == old(queue.errs) + if queue.active then outcome.queued[..i] else []
      {
        queue.AddTerminationError(outcome.queued[i]);
        i := i + 1;
      }
      err := outcome.returned;
    }

    /** `terminationAwareReconciler.Reconcile`: whatever the global queue held before, the result
        depends on this item's own reconcile only. */
    method Reconcile(r: Reconciler, item: string) returns (err: Err)
      modifies this`reconciled, queue
      ensures reconciled == old(reconciled) + 1
      ensures queue.active == old(queue.active)
      ensures queue.active ==> ErrorOf(r.reconcile(item, old(reconciled)), err)
      ensures queue.active ==> err == ItemError(r.reconcile(item, old(reconciled)))
      ensures !queue.active ==> err == r.reconcile(item, old(reconciled)).returned
    {
      ghost var queued := r.reconcile(item, reconciled).queued;
      queue.ClearTerminationErrors();
      assert queue.errs + queued == queued;
      err := InnerReconcile(r, item);
      if !err.Nil? { return; }
      err := queue.TerminationError();
    }

    method DryRunItem(r: Reconciler, item: string) returns (ok: bool)
      requires queue.active
      modifies this, queue
      ensures queue.active && reconcilers == old(reconcilers) && reconciled == old(reconciled) + 1
      ensures Ran(fails, old(State()), ItemTrace(r, item, old(reconciled)), State(), ok)
    {
      var err := Reconcile(r, item);
      ghost var reports, done := Trace(ErrorEvents(item, err), true), Trace([Event(item, Normal, "done")], true);
      ok := true;
      if !err.Nil? {
        ok := ReportError(item, err);
        if !ok {
          RanStop(fails, old(State()), reports, State(), done);
          return;
        }
      } else {
        RanNothing(fails, old(State()));
      }
      ghost var reported := State();
      ok := Eventf(item, Normal, "done");
      RanThen(fails, old(State()), reports, reported, done, State(), ok);
    }

    /** The three nested loops: reconcilers, namespaces, items. */
    method DryRunReconcilers(synced: bool) returns (ok: bool)
      modifies this, queue
      ensures queue.active && reconcilers == old(reconcilers)
      ensures Ran(fails, old(State()), ReconcilersTrace(synced, reconcilers, namespaces, old(reconciled)), State(), ok)
    {
      queue.EnableErrors();
      if !synced { return false; }
      ghost var at := reconciled;
      ghost var ts := ReconcilerTraces(reconcilers, namespaces, at);
      RanStart(fails, State(), ts);
      var i := 0;
      while i < |reconcilers|
        invariant 0 <= i <= |reconcilers| && queue.active && reconcilers == old(reconcilers)
        invariant reconciled == at + ItemsOf(reconcilers[..i], namespaces)
        invariant RanUpTo(fails, old(State()), ts, i, State())
      {
        ReconcilerAt(reconcilers, namespaces, at, i);
        ok := NextReconciler(i, old(State()), ts);
        if !ok { return; }
        ItemsOfGrows(reconcilers, namespaces, i);
        i := i + 1;
      }
      RanAll(fails, old(State()), ts, State());
      ok := true;
    }

    /** Piece `i` of the run over the reconcilers, whose pieces have the traces `ts`. */
    method NextReconciler(i: nat, ghost start: Sink, ghost ts: seq<Trace>) returns (ok: bool)
      requires queue.active && i < |reconcilers| && i < |ts|
      requires RanUpTo(fails, start, ts, i, State()) && ts[i] == ReconcilerTrace(reconcilers[i], namespaces, reconciled)
      modifies this, queue
      ensures queue.active && reconcilers == old(reconcilers)
      ensures ok ==> reconciled == old(reconciled) + ItemsIn(reconcilers[i], namespaces) && RanUpTo(fails, start, ts, i + 1, State())
      ensures !ok ==> Ran(fails, start, Chain(ts), State(), false)
    {
      ghost var before := State();
      ok := DryRunReconciler(reconcilers[i]);
      RanPiece(fails, start, ts, i, before, State(), ok);
    }

    method NextNamespace(r: Reconciler, i: nat, ghost start: Sink, ghost ts: seq<Trace>) returns (ok: bool)
      requires queue.active && i < |namespaces| && i < |ts|
      requires RanUpTo(fails, start, ts, i, State()) && ts[i] == NamespaceTrace(r, namespaces[i], reconciled)
      modifies this, queue
      ensures queue.active && reconcilers == old(reconcilers)
      ensures ok ==> reconciled == old(reconciled) + Items(r, namespaces[i]) && RanUpTo(fails, start, ts, i + 1, State())
      ensures !ok ==> Ran(fails, start, Chain(ts), State(), false)
    {
      ghost var before := State();
      ok := DryRunNamespace(r, namespaces[i]);
      RanPiece(fails, start, ts, i, before, State(), ok);
    }

    method NextItem(r: Reconciler, item: string, i: nat, ghost start: Sink, ghost ts: seq<Trace>) returns (ok: bool)
      requires queue.active && i < |ts|
      requires RanUpTo(fails, start, ts, i, State()) && ts[i] == ItemTrace(r, item, reconciled)
      modifies this, queue
      ensures queue.active && reconcilers == old(reconcilers) && reconciled == old(reconciled) + 1
      ensures ok ==> RanUpTo(fails, start, ts, i + 1, State())
      ensures !ok ==> Ran(fails, start, Chain(ts), State(), false)
    {
      ghost var before := State();
      ok := DryRunItem(r, item);
      RanPiece(fails, start, ts, i, before, State(), ok);
    }

    method DryRunReconciler(r: Reconciler) returns (ok: bool)
      requires queue.active
      modifies this, queue
      ensures queue.active && reconcilers == old(reconcilers)
      ensures ok ==> reconciled == old(reconciled) + ItemsIn(r, namespaces)
      ensures Ran(fails, old(State()), ReconcilerTrace(r, namespaces, old(reconciled)), State(), ok)
    {
      if !r.kindKnown { return false; }
      ghost var at := reconciled;
      ghost var ts := NamespaceTraces(r, namespaces, at);
      RanStart(fails, State(), ts);
      var i := 0;
      while i < |namespaces|
        invariant 0 <= i <= |namespaces| && queue.active && reconcilers == old(reconcilers)
        invariant reconciled == at + ItemsIn(r, namespaces[..i])
        invariant RanUpTo(fails, old(State()), ts, i, State())
      {
        NamespaceAt(r, namespaces, at, i);
        ok := NextNamespace(r, i, old(State()), ts);
        if !ok { return; }
        ItemsInGrows(r, namespaces, i);
        i := i + 1;
      }
      RanAll(fails, old(State()), ts, State());
      assert namespaces[..i] == namespaces;
      ok := true;
    }

    method DryRunNamespace(r: Reconciler, namespace: string) returns (ok: bool)
      requires queue.active
      modifies this, queue
      ensures queue.active && reconcilers == old(reconcilers)
      ensures ok ==> reconciled == old(reconciled) + Items(r, namespace)
      ensures Ran(fails, old(State()), NamespaceTrace(r, namespace, old(reconciled)), State(), ok)
    {
      var listed := r.list(namespace);
      if listed.None? { return false; }
      var items := listed.value;
      ghost var at := reconciled;
      ghost var ts := ItemTraces(r, items, at);
      RanStart(fails, State(), ts);
      var i := 0;
      while i < |items|
        invariant 0 <= i <= |items| && queue.active && reconcilers == old(reconcilers) && reconciled == at + i
        invariant RanUpTo(fails, old(State()), ts, i, State())
      {
        ItemTraceAt(r, items, at, i);
        ok := NextItem(r, items[i], i, old(State()), ts);
        if !ok { return; }
        i := i + 1;
      }
      RanAll(fails, old(State()), ts, State());
      ok := true;
    }

    /** `executeDryRun`: the whole run, "finished" last. */
    method ExecuteDryRun(synced: bool) returns (ok: bool)
      modifies this, queue
      ensures reconcilers == old(reconcilers)
      ensures Ran(fails, old(State()), RunTrace(synced, reconcilers, namespaces, old(reconciled), job), State(), ok)
    {
      ghost var run := ReconcilersTrace(synced, reconcilers, namespaces, reconciled);
      ghost var finished := Trace([Event(job, Normal, "finished")], true);
      ok := DryRunReconcilers(synced);
      if !ok {
        RanStop(fails, old(State()), run, State(), finished);
        return;
      }
      ghost var done := State();
      ok := Eventf(job, Normal, "finished");
      RanThen(fails, old(State()), run, done, finished, State(), ok);
    }
  }

  function LeafTraces(obj: string, es: seq<Err>): seq<Trace> {
    seq(|es|, i requires 0 <= i < |es| => Trace(LeafEvents(obj, Leaves(es[i])), true))
  }

  lemma {:induction false} ChainOfLeaves(obj: string, es: seq<Err>)
    ensures Chain(LeafTraces(obj, es)) == Trace(LeafEvents(obj, LeavesOf(es)), true)
  {
    if es != [] {
      assert LeafTraces(obj, es)[1..] == LeafTraces(obj, es[1..]);
      ChainOfLeaves(obj, es[1..]);
      LeafEventsConcat(obj, Leaves(es[0]), LeavesOf(es[1..]));
    }
  }

  // ---- Consequences for whole runs ----

  /** If the k-th event creation of a run fails first, the log holds exactly the first k events of
      the fault-free log, and the run is not reported as finished. */
  lemma FailureCutsTheLog(fails: nat -> bool, before: Sink, t: Trace, after: Sink, ok: bool, clean: Sink, k: nat)
    requires Ran(fails, before, t, after, ok)
    requires Ran(_ => false, before, t, clean, t.completes)
    requires k < |t.events| && fails(before.attempts + k) && forall i :: before.attempts <= i < before.attempts + k ==> !fails(i)
    ensures clean.log == before.log + t.events
    ensures !ok && after.log == clean.log[..|before.log| + k]
  {
    var n := Delivered(|t.events|, _ => false, before.attempts);
    assert n == |t.events| && t.events[..n] == t.events;
    var d := Delivered(|t.events|, fails, before.attempts);
    assert d == k;
  }

  /** A run that reports success has delivered every event of its trace, "finished" last, and
      nothing kept it from listing any namespace. */
  lemma SuccessMeansFinished(fails: nat -> bool, before: Sink, synced: bool, rs: seq<Reconciler>,
      namespaces: seq<string>, at: nat, job: string, after: Sink)
    requires Ran(fails, before, RunTrace(synced, rs, namespaces, at, job), after, true)
    ensures synced && Chain(ReconcilerTraces(rs, namespaces, at)).completes
    ensures after.log == before.log + Chain(ReconcilerTraces(rs, namespaces, at)).events + [Event(job, Normal, "finished")]
  {
    var t := RunTrace(synced, rs, namespaces, at, job);
    assert t.events[..|t.events|] == t.events;
    var run := ReconcilersTrace(synced, rs, namespaces, at);
    assert run.completes;
    ConcatAssociative(before.log, run.events, [Event(job, Normal, "finished")]);
  }

  /** The pieces of a chain stand in its log one after the other, and all of them completed. */
  lemma {:induction false} ChainHoldsEachPiece(ts: seq<Trace>, i: nat)
    requires i < |ts| && Chain(ts).completes
    ensures ts[i].completes && Chain(ts[..i]).completes
    ensures Chain(ts[..i]).events + ts[i].events <= Chain(ts).events
  {
    assert ts == ts[..i] + ts[i..];
    ChainConcat(ts[..i], ts[i..]);
    var a, b, c := Chain(ts[..i]).events, ts[i].events, Chain(ts[i + 1..]).events;
    assert ts[i..][1..] == ts[i + 1..];
    ConcatAssociative(a, b, c);
  }

  /** How many items a run that started at `at` has reconciled before namespace `j` of reconciler `i`. */
  function ItemsBefore(rs: seq<Reconciler>, namespaces: seq<string>, at: nat, i: nat, j: nat): nat
    requires i < |rs| && j < |namespaces|
  {
    at + ItemsOf(rs[..i], namespaces) + ItemsIn(rs[i], namespaces[..j])
  }

  /** The traces of three nested loops. */
  datatype Loops = Loops(outer: seq<Trace>, middle: seq<Trace>, inner: seq<Trace>)

  /** The loops around the items of namespace `j` of reconciler `i`. */
  function LoopsAt(rs: seq<Reconciler>, namespaces: seq<string>, at: nat, i: nat, j: nat, items: seq<string>): Loops
    requires i < |rs| && j < |namespaces|
  {
    Loops(ReconcilerTraces(rs, namespaces, at),
          NamespaceTraces(rs[i], namespaces, at + ItemsOf(rs[..i], namespaces)),
          ItemTraces(rs[i], items, ItemsBefore(rs, namespaces, at, i, j)))
  }

  /** Each loop is a piece of the one around it. */
  lemma MiddleInOuter(rs: seq<Reconciler>, namespaces: seq<string>, at: nat, i: nat)
    requires i < |rs| && rs[i].kindKnown
    ensures |ReconcilerTraces(rs, namespaces, at)| == |rs|
    ensures ReconcilerTraces(rs, namespaces, at)[i] == Chain(NamespaceTraces(rs[i], namespaces, at + ItemsOf(rs[..i], namespaces)))
  {
    ReconcilerAt(rs, namespaces, at, i);
  }

  lemma InnerInMiddle(r: Reconciler, namespaces: seq<string>, at: nat, j: nat, items: seq<string>)
    requires j < |namespaces| && r.list(namespaces[j]) == Some(items)
    ensures |NamespaceTraces(r, namespaces, at)| == |namespaces|
    ensures NamespaceTraces(r, namespaces, at)[j] == Chain(ItemTraces(r, items, at + ItemsIn(r, namespaces[..j])))
  {
    NamespaceAt(r, namespaces, at, j);
  }

  lemma LoopsNest(rs: seq<Reconciler>, namespaces: seq<string>, at: nat, i: nat, j: nat, items: seq<string>)
    requires i < |rs| && j < |namespaces| && rs[i].kindKnown && rs[i].list(namespaces[j]) == Some(items)
    ensures var l := LoopsAt(rs, namespaces, at, i, j, items);
      && |l.outer| == |rs| && |l.middle| == |namespaces| && |l.inner| == |items|
      && l.outer[i] == Chain(l.middle) && l.middle[j] == Chain(l.inner)
  {
    MiddleInOuter(rs, namespaces, at, i);
    InnerInMiddle(rs[i], namespaces, at + ItemsOf(rs[..i], namespaces), j, items);
  }

  /** The log starts with what was there, the events of all reconcilers, namespaces and items before,
      the reports of item `k`, and its "done". */
  ghost predicate ItemStands(was: seq<Event>, log: seq<Event>, rs: seq<Reconciler>, namespaces: seq<string>, at: nat,
      i: nat, j: nat, items: seq<string>, k: nat)
    requires i < |rs| && j < |namespaces| && k < |items|
  {
    var l, item := LoopsAt(rs, namespaces, at, i, j, items), items[k];
    exists err, own ::
      && ErrorOf(rs[i].reconcile(item, ItemsBefore(rs, namespaces, at, i, j) + k), err) && ReportOf(item, err, own)
      && was + (Chain(l.outer[..i]).events + (Chain(l.middle[..j]).events
           + (Chain(l.inner[..k]).events + (own + [Event(item, Normal, "done")])))) <= log
  }

  lemma PrefixInPrefix(a: seq<Event>, b: seq<Event>, c: seq<Event>, d: seq<Event>)
    requires a + b <= d && c <= b
    ensures a + c <= d
  {
    assert (a + b)[..|a| + |c|] == a + c;
  }

  lemma PrefixOfFour(w: seq<Event>, a: seq<Event>, b: seq<Event>, c: seq<Event>, d: seq<Event>,
      outer: seq<Event>, middle: seq<Event>, inner: seq<Event>, log: seq<Event>)
    requires w + outer <= log && a + middle <= outer && b + inner <= middle && c + d <= inner
    ensures w + (a + (b + (c + d))) <= log
  {
    PrefixInPrefix(b, inner, c + d, middle);
    PrefixInPrefix(a, middle, b + (c + d), outer);
    PrefixInPrefix(w, outer, a + (b + (c + d)), log);
  }

  /** Three nested chains: the log starts with the pieces before, in each loop, and then piece `k`. */
  lemma ThreeLoops(w: seq<Event>, log: seq<Event>, l: Loops, i: nat, j: nat, k: nat)
    requires i < |l.outer| && j < |l.middle| && k < |l.inner|
    requires l.outer[i] == Chain(l.middle) && l.middle[j] == Chain(l.inner)
    requires Chain(l.outer).completes && w + Chain(l.outer).events <= log
    ensures w + (Chain(l.outer[..i]).events + (Chain(l.middle[..j]).events
      + (Chain(l.inner[..k]).events + l.inner[k].events))) <= log
  {
    ChainHoldsEachPiece(l.outer, i);
    ChainHoldsEachPiece(l.middle, j);
    ChainHoldsEachPiece(l.inner, k);
    PrefixOfFour(w, Chain(l.outer[..i]).events, Chain(l.middle[..j]).events, Chain(l.inner[..k]).events, l.inner[k].events,
                 Chain(l.outer).events, Chain(l.middle).events, Chain(l.inner).events, log);
  }

  lemma ItemAt(rs: seq<Reconciler>, namespaces: seq<string>, at: nat, i: nat, j: nat, items: seq<string>, k: nat)
    requires i < |rs| && j < |namespaces| && k < |items|
    ensures LoopsAt(rs, namespaces, at, i, j, items).inner[k] == ItemTrace(rs[i], items[k], ItemsBefore(rs, namespaces, at, i, j) + k)
  {
  }

  /** In the log of a run that reports success, every namespace of every reconciler was listed, and
      every listed item has its place: right after the events of all before it stand its own reports
      and then its "done". */
  lemma EachItemIsDone(fails: nat -> bool, before: Sink, synced: bool, rs: seq<Reconciler>,
      namespaces: seq<string>, at: nat, job: string, after: Sink, i: nat, j: nat)
    requires Ran(fails, before, RunTrace(synced, rs, namespaces, at, job), after, true)
    requires i < |rs| && j < |namespaces|
    ensures rs[i].kindKnown && rs[i].list(namespaces[j]).Some?
    ensures forall k: nat :: k < |rs[i].list(namespaces[j]).value| ==>
      ItemStands(before.log, after.log, rs, namespaces, at, i, j, rs[i].list(namespaces[j]).value, k)
  {
    SuccessMeansFinished(fails, before, synced, rs, namespaces, at, job, after);
    EverythingListed(rs, namespaces, at, i, j);
    var items := rs[i].list(namespaces[j]).value;
    var l := LoopsAt(rs, namespaces, at, i, j, items);
    LoopsNest(rs, namespaces, at, i, j, items);
    forall k: nat | k < |items| ensures ItemStands(before.log, after.log, rs, namespaces, at, i, j, items, k) {
      ThreeLoops(before.log, after.log, l, i, j, k);
      ItemAt(rs, namespaces, at, i, j, items, k);
      var outcome := rs[i].reconcile(items[k], ItemsBefore(rs, namespaces, at, i, j) + k);
      ItemErrorIs(outcome);
      ErrorEventsAre(items[k], ItemError(outcome));
    }
  }

  lemma EverythingListed(rs: seq<Reconciler>, namespaces: seq<string>, at: nat, i: nat, j: nat)
    requires i < |rs| && j < |namespaces| && Chain(ReconcilerTraces(rs, namespaces, at)).completes
    ensures rs[i].kindKnown && rs[i].list(namespaces[j]).Some?
  {
    var start := at + ItemsOf(rs[..i], namespaces);
    ReconcilerAt(rs, namespaces, at, i);
    ChainHoldsEachPiece(ReconcilerTraces(rs, namespaces, at), i);
    NamespaceAt(rs[i], namespaces, start, j);
    ChainHoldsEachPiece(NamespaceTraces(rs[i], namespaces, start), j);
  }
}
