/** When the alert configurations of a spec have a canonical form, said of the configurations as they
    are given (internal/cmp/normalize.go with the keys of api/v1/alert_configurations.go). */
module AlertCanonical {
  import opened Text
  import opened Sorting
  import opened Normalize
  import opened AlertKeys
  import opened AlertOrder
  import P = ProjectRedaction

  // ---- Being like each other is being reorderings of each other ----

  /** Encoding keeps permutations. */
  lemma EncodedPermuted<T(!new)>(ts: seq<T>, us: seq<T>, es: seq<Value>, ws: seq<Value>, f: T -> Value)
    requires |es| == |ts| && forall i :: 0 <= i < |ts| ==> es[i] == f(ts[i])
    requires |ws| == |us| && forall i :: 0 <= i < |us| ==> ws[i] == f(us[i])
    requires Permutation(us, ts)
    ensures Permutation(es, ws)
  {
    PermutationFacts(us, ts);
    var p, d := Transport(us, ts, es);
    forall i | 0 <= i < |ws| ensures d[i] == ws[i] {
      assert es[p[i]] == d[i] && ts[p[i]] == us[i];
    }
    assert d == ws;
  }

  /** Alike things are encoded as reorderings of each other. */
  ghost predicate LikeReorders<T(!new)>(f: T -> Value, like: (T, T) -> bool) {
    forall t, u :: like(t, u) ==> Reorders(f(t), f(u))
  }

  lemma SliceReorders<T(!new)>(ts: seq<T>, us: seq<T>, keyed: bool, es: seq<Value>, ws: seq<Value>, f: T -> Value, like: (T, T) -> bool)
    requires LikeReorders(f, like) && AllLike(like, ts, us)
    requires |es| == |ts| && forall i :: 0 <= i < |ts| ==> es[i] == f(ts[i])
    requires |ws| == |us| && forall i :: 0 <= i < |us| ==> ws[i] == f(us[i])
    ensures Reorders(Slice(keyed, es), Slice(keyed, ws))
  {
    var each :| EachLike(like, ts, each) && Permutation(us, each);
    PermutationFacts(us, each);
    var mid := seq(|each|, i requires 0 <= i < |each| => f(each[i]));
    EncodedPermuted(each, us, mid, ws, f);
    forall i | 0 <= i < |es| ensures Reorders(es[i], mid[i]) {
      assert like(ts[i], each[i]);
    }
    assert VisitsAll(Shuffle(), es, mid);
  }

  lemma RolesReorder(n: P.NotificationView, m: P.NotificationView)
    requires LikeNotification(n, m)
    ensures Reorders(OptSlice(false, MapOption(n.roles, Scalars)), OptSlice(false, MapOption(m.roles, Scalars)))
  {
    if n.roles.Some? {
      var ts, us := n.roles.value, m.roles.value;
      var es, ws := Scalars(ts), Scalars(us);
      EncodedPermuted(ts, us, es, ws, (t: string) => Scalar(t));
      PermutationFacts(ts, us);
      forall i | 0 <= i < |es| ensures Reorders(es[i], es[i]) {
        ReordersRefl(es[i]);
      }
      assert VisitsAll(Shuffle(), es, es);
    }
  }

  /** Structs with reordered fields. */
  lemma StructReorders(fs: seq<Value>, gs: seq<Value>)
    requires |fs| == |gs| && forall i :: 0 <= i < |fs| ==> fs[i] == gs[i] || Reorders(fs[i], gs[i])
    ensures Reorders(Struct(fs), Struct(gs))
  {
    forall i | 0 <= i < |fs| ensures Reorders(fs[i], gs[i]) {
      ReordersRefl(fs[i]);
    }
  }

  lemma LikeNotificationReorders(n: P.NotificationView, m: P.NotificationView)
    requires LikeNotification(n, m)
    ensures Reorders(NotificationValue(n), NotificationValue(m))
  {
    RolesReorder(n, m);
    assert PlainTexts(m) == PlainTexts(n) && HiddenTexts(m) == HiddenTexts(n);
    StructReorders(NotificationValue(n).fields, NotificationValue(m).fields);
  }

  lemma LikeNotificationIff(n: P.NotificationView, m: P.NotificationView)
    ensures LikeNotification(n, m) <==> Reorders(NotificationValue(n), NotificationValue(m))
  {
    if LikeNotification(n, m) {
      LikeNotificationReorders(n, m);
    }
    if Reorders(NotificationValue(n), NotificationValue(m)) {
      var o := NotificationReordered(n, NotificationValue(m));
      NotificationInjective(m, o);
    }
  }

  lemma NotificationsReorder()
    ensures LikeReorders(NotificationValue, LikeNotification)
  {
    forall n, m | LikeNotification(n, m) ensures Reorders(NotificationValue(n), NotificationValue(m)) {
      LikeNotificationReorders(n, m);
    }
  }

  lemma MatchersReorder()
    ensures LikeReorders(MatcherValue, SameMatcher)
  {
    forall m, n | SameMatcher(m, n) ensures Reorders(MatcherValue(m), MatcherValue(n)) {
      ReordersRefl(MatcherValue(m));
    }
  }

  lemma MatcherListsReorder(c: P.AlertView, d: P.AlertView)
    requires LikeAlert(c, d)
    ensures Reorders(OptSlice(true, MapOption(c.matchers, MatcherValues)), OptSlice(true, MapOption(d.matchers, MatcherValues)))
  {
    if c.matchers.Some? {
      MatchersReorder();
      var ts, us := c.matchers.value, d.matchers.value;
      assert Elements(c.matchers) == ts && Elements(d.matchers) == us;
      SliceReorders(ts, us, true, MatcherValues(ts), MatcherValues(us), MatcherValue, SameMatcher);
    }
  }

  lemma NotificationListsReorder(c: P.AlertView, d: P.AlertView)
    requires LikeAlert(c, d)
    ensures Reorders(OptSlice(true, MapOption(c.notifications, NotificationValues)), OptSlice(true, MapOption(d.notifications, NotificationValues)))
  {
    if c.notifications.Some? {
      NotificationsReorder();
      var ts, us := c.notifications.value, d.notifications.value;
      assert Elements(c.notifications) == ts && Elements(d.notifications) == us;
      SliceReorders(ts, us, true, NotificationValues(ts), NotificationValues(us), NotificationValue, LikeNotification);
    }
  }

  lemma LikeAlertReorders(c: P.AlertView, d: P.AlertView)
    requires LikeAlert(c, d)
    ensures Reorders(AlertValue(c), AlertValue(d))
  {
    MatcherListsReorder(c, d);
    NotificationListsReorder(c, d);
    StructReorders(AlertValue(c).fields, AlertValue(d).fields);
  }

  lemma LikeAlertIff(c: P.AlertView, d: P.AlertView)
    ensures LikeAlert(c, d) <==> Reorders(AlertValue(c), AlertValue(d))
  {
    if LikeAlert(c, d) {
      LikeAlertReorders(c, d);
    }
    if Reorders(AlertValue(c), AlertValue(d)) {
      var o := AlertReordered(c, AlertValue(d));
      AlertInjective(d, o);
    }
  }

  lemma LikeAlertEquivalence(a: P.AlertView, b: P.AlertView, c: P.AlertView)
    ensures LikeAlert(a, a)
    ensures LikeAlert(a, b) ==> LikeAlert(b, a)
    ensures LikeAlert(a, b) && LikeAlert(b, c) ==> LikeAlert(a, c)
  {
    LikeAlertIff(a, a);
    LikeAlertIff(a, b);
    LikeAlertIff(b, a);
    LikeAlertIff(b, c);
    LikeAlertIff(a, c);
    ReordersRefl(AlertValue(a));
    if LikeAlert(a, b) {
      ReordersSym(AlertValue(a), AlertValue(b));
      if LikeAlert(b, c) {
        ReordersTrans(AlertValue(a), AlertValue(b), AlertValue(c));
      }
    }
  }

  // ---- What is shown of alike things is alike ----

  lemma SingletonPermutation(s: seq<string>, t: seq<string>)
    requires Permutation(s, t)
    ensures s == [""] <==> t == [""]
  {
    PermutationFacts(s, t);
    if |s| == 1 {
      assert s == [s[0]] && t == [t[0]] && s[0] in t;
    }
  }

  lemma ShownLikeNotification(n: P.NotificationView, m: P.NotificationView)
    requires LikeNotification(n, m)
    ensures LikeNotification(ShownNotification(n), ShownNotification(m))
  {
    if n.roles.Some? {
      SingletonPermutation(m.roles.value, n.roles.value);
    }
  }

  /** A mapping keeps permutations. */
  lemma MappedPermutation(ts: seq<P.NotificationView>, us: seq<P.NotificationView>)
    requires Permutation(us, ts)
    ensures Permutation(ShownNotifications(us), ShownNotifications(ts))
  {
    PermutationFacts(us, ts);
    var ss := ShownNotifications(ts);
    var p, d := Transport(us, ts, ss);
    forall i | 0 <= i < |us| ensures d[i] == ShownNotifications(us)[i] {
      assert ss[p[i]] == d[i] && ts[p[i]] == us[i];
    }
    assert d == ShownNotifications(us);
  }

  lemma ShownLikeNotifications(ns: seq<P.NotificationView>, ms: seq<P.NotificationView>)
    requires AllLike(LikeNotification, ns, ms)
    ensures AllLike(LikeNotification, ShownNotifications(ns), ShownNotifications(ms))
  {
    var each :| EachLike(LikeNotification, ns, each) && Permutation(ms, each);
    MappedPermutation(each, ms);
    var shown := ShownNotifications(each);
    forall i | 0 <= i < |ns| ensures LikeNotification(ShownNotifications(ns)[i], shown[i]) {
      ShownLikeNotification(ns[i], each[i]);
    }
    assert EachLike(LikeNotification, ShownNotifications(ns), shown);
  }

  lemma ShownLikeAlert(c: P.AlertView, d: P.AlertView)
    requires LikeAlert(c, d)
    ensures LikeAlert(Shown(c), Shown(d))
  {
    ShownLikeNotifications(Elements(c.notifications), Elements(d.notifications));
  }

  // ---- What is shown of a normal form is a normal form ----

  ghost predicate Fixed(enc: Encoding, v: Value) {
    NormalizesTo(enc, v, v)
  }

  lemma StructFixedIff(enc: Encoding, fs: seq<Value>)
    ensures Fixed(enc, Struct(fs)) <==> forall i :: 0 <= i < |fs| ==> Fixed(enc, fs[i])
  {
  }

  lemma SliceFixed(enc: Encoding, keyed: bool, es: seq<Value>)
    requires (forall i :: 0 <= i < |es| ==> Fixed(enc, es[i])) && Sorted(enc.Order(keyed), es)
    ensures Fixed(enc, Slice(keyed, es))
  {
    if es != [] {
      assert VisitsAll(SortStep(enc), es, es);
      assert Permutation(es, es);
      assert SortStep(enc)(keyed, es, es);
    }
  }

  lemma FlatFixed(enc: Encoding, v: Value)
    requires Flat(v)
    ensures Fixed(enc, v)
  {
    FlatVisits(SortStep(enc), v, v);
  }

  lemma SixFixed(enc: Encoding, a: Value, b: Value, c: Value, d: Value, e: Value, f: Value)
    requires Fixed(enc, a) && Fixed(enc, b) && Fixed(enc, c) && Fixed(enc, d) && Fixed(enc, e) && Fixed(enc, f)
    ensures Fixed(enc, Struct([a, b, c, d, e, f]))
  {
    StructFixedIff(enc, [a, b, c, d, e, f]);
  }

  lemma OptTextFixed(enc: Encoding, t: Option<string>)
    ensures Fixed(enc, OptText(t))
  {
    OptTextFlat(t);
    FlatFixed(enc, OptText(t));
  }

  lemma ShownNotificationFixed(enc: Encoding, n: P.NotificationView)
    requires Fixed(enc, NotificationValue(n))
    ensures Fixed(enc, NotificationValue(ShownNotification(n)))
  {
    var m := ShownNotification(n);
    TextsFixed(enc, PlainTexts(m));
    OptTextFixed(enc, MapOption(m.delayMin, Itoa));
    OptTextFixed(enc, MapOption(m.emailEnabled, FormatBool));
    OptTextFixed(enc, MapOption(m.smsEnabled, FormatBool));
    ShownRolesFixed(enc, n);
    FlatFixed(enc, Unexported(Texts(HiddenTexts(m))));
    SixFixed(enc, Texts(PlainTexts(m)), OptText(MapOption(m.delayMin, Itoa)), OptText(MapOption(m.emailEnabled, FormatBool)),
             OptText(MapOption(m.smsEnabled, FormatBool)), OptSlice(false, MapOption(m.roles, Scalars)),
             Unexported(Texts(HiddenTexts(m))));
  }

  lemma ShownRolesFixed(enc: Encoding, n: P.NotificationView)
    requires Fixed(enc, NotificationValue(n))
    ensures Fixed(enc, OptSlice(false, MapOption(ShownNotification(n).roles, Scalars)))
  {
    assert Fixed(enc, NotificationValue(n).fields[4]);
    if n.roles.None? || n.roles.value == [""] {
      assert Scalars([]) == [];
    }
  }

  lemma ShownSorted(enc: Encoding, ns: seq<P.NotificationView>)
    requires UsesKeys(enc) && Sorted(enc.Order(true), NotificationValues(ns))
    ensures Sorted(enc.Order(true), NotificationValues(ShownNotifications(ns)))
  {
    var vs, ws := NotificationValues(ns), NotificationValues(ShownNotifications(ns));
    forall i | 0 <= i < |ns| ensures enc.SortText(true, ws[i]) == enc.SortText(true, vs[i]) {
      NotificationKeyOfShown(ns[i]);
      assert enc.key(NotificationValue(ns[i])) == NotificationKey(ns[i]);
      assert enc.key(NotificationValue(ShownNotification(ns[i]))) == NotificationKey(ShownNotification(ns[i]));
    }
    forall i, j | 0 <= i < j < |ws| ensures enc.Order(true)(ws[i], ws[j]) {
      assert enc.Order(true)(vs[i], vs[j]);
    }
  }

  ghost predicate AllCleanNotifications(ns: seq<P.NotificationView>) {
    forall i :: 0 <= i < |ns| ==> CleanNotification(ns[i])
  }

  /** The notifications of a normal form are normal forms, in order. */
  lemma NotificationsOfFixed(enc: Encoding, ns: seq<P.NotificationView>)
    requires UsesKeys(enc) && AllCleanNotifications(ns) && Fixed(enc, Slice(true, NotificationValues(ns)))
    ensures Sorted(enc.Order(true), NotificationValues(ns))
    ensures forall i :: 0 <= i < |ns| ==> Fixed(enc, NotificationValue(ns[i]))
  {
    if ns != [] {
      NotificationsTieFreeIff(enc, ns);
      FixedSlice(enc, Slice(true, NotificationValues(ns)));
      forall i | 0 <= i < |ns| ensures Fixed(enc, NotificationValue(ns[i])) {
        assert Fixed(enc, NotificationValues(ns)[i]);
      }
    }
  }

  lemma ShownNotificationsFixed(enc: Encoding, ns: seq<P.NotificationView>)
    requires UsesKeys(enc) && AllCleanNotifications(ns) && Fixed(enc, Slice(true, NotificationValues(ns)))
    ensures Fixed(enc, Slice(true, NotificationValues(ShownNotifications(ns))))
  {
    NotificationsOfFixed(enc, ns);
    var ws := NotificationValues(ShownNotifications(ns));
    forall i | 0 <= i < |ws| ensures Fixed(enc, ws[i]) {
      ShownNotificationFixed(enc, ns[i]);
    }
    ShownSorted(enc, ns);
    SliceFixed(enc, true, ws);
  }

  lemma ListFieldsFixed(enc: Encoding, c: P.AlertView)
    requires Fixed(enc, AlertValue(c))
    ensures Fixed(enc, OptSlice(true, MapOption(c.matchers, MatcherValues)))
    ensures Fixed(enc, Slice(true, NotificationValues(Elements(c.notifications))))
  {
    assert Fixed(enc, AlertValue(c).fields[1]) && Fixed(enc, AlertValue(c).fields[3]);
    assert NotificationValues([]) == [];
  }

  lemma CleanNotificationsOf(c: P.AlertView)
    requires CleanAlert(c)
    ensures AllCleanNotifications(Elements(c.notifications))
  {
  }

  lemma FiveFixed(enc: Encoding, a: Value, b: Value, c: Value, d: Value, e: Value)
    requires Fixed(enc, a) && Fixed(enc, b) && Fixed(enc, c) && Fixed(enc, d) && Fixed(enc, e)
    ensures Fixed(enc, Struct([a, b, c, d, e]))
  {
    StructFixedIff(enc, [a, b, c, d, e]);
  }

  lemma TextsFixed(enc: Encoding, ts: seq<string>)
    ensures Fixed(enc, Texts(ts))
  {
    TextsFlat(ts);
    FlatFixed(enc, Texts(ts));
  }

  lemma OptTextsFixed(enc: Encoding, ts: Option<seq<string>>)
    ensures Fixed(enc, OptTexts(ts))
  {
    OptTextsFlat(ts);
    FlatFixed(enc, OptTexts(ts));
  }

  lemma ShownAlertFixed(enc: Encoding, c: P.AlertView)
    requires UsesKeys(enc) && CleanAlert(c) && Fixed(enc, AlertValue(c))
    ensures Fixed(enc, AlertValue(Shown(c)))
  {
    var ns := Elements(c.notifications);
    ListFieldsFixed(enc, c);
    CleanNotificationsOf(c);
    ShownNotificationsFixed(enc, ns);
    MatchersFixed(enc, c);
    TextsFixed(enc, [FormatBool(c.enabled), c.eventTypeName, c.severityOverride]);
    OptTextsFixed(enc, MapOption(c.threshold, ThresholdParts));
    OptTextsFixed(enc, MapOption(c.metricThreshold, MetricThresholdParts));
    FiveFixed(enc, Texts([FormatBool(c.enabled), c.eventTypeName, c.severityOverride]),
              Slice(true, MatcherValues(Elements(c.matchers))), OptTexts(MapOption(c.threshold, ThresholdParts)),
              Slice(true, NotificationValues(ShownNotifications(ns))),
              OptTexts(MapOption(c.metricThreshold, MetricThresholdParts)));
  }

  lemma MatchersFixed(enc: Encoding, c: P.AlertView)
    requires Fixed(enc, OptSlice(true, MapOption(c.matchers, MatcherValues)))
    ensures Fixed(enc, Slice(true, MatcherValues(Elements(c.matchers))))
  {
    assert MatcherValues([]) == [];
  }

  // ---- Normal forms that show the same up to order show the same ----

  lemma ShownTwice(c: P.AlertView)
    ensures forall i :: 0 <= i < |Elements(c.notifications)| ==>
      ShownNotification(ShownNotification(Elements(c.notifications)[i])) == ShownNotification(Elements(c.notifications)[i])
    ensures NotificationsTold(ShownNotifications(Elements(c.notifications)))
  {
    var ns := Elements(c.notifications);
    forall i | 0 <= i < |ns| ensures ShownNotification(ShownNotification(ns[i])) == ShownNotification(ns[i]) {
    }
  }

  lemma ShownNotificationClean(n: P.NotificationView)
    requires CleanNotification(n)
    ensures CleanNotification(ShownNotification(n))
  {
    assert NotificationParts(ShownNotification(n)) == NotificationParts(n);
  }

  lemma ShownClean(c: P.AlertView)
    requires CleanAlert(c)
    ensures CleanAlert(Shown(c))
  {
    var ns := Elements(c.notifications);
    forall i | 0 <= i < |ns| ensures CleanNotification(ShownNotifications(ns)[i]) {
      ShownNotificationClean(ns[i]);
    }
  }

  /** For two normal forms of notifications. */
  lemma FixedNotificationsShow(enc: Encoding, a: P.NotificationView, b: P.NotificationView)
    requires UsesKeys(enc) && Fixed(enc, NotificationValue(a)) && Fixed(enc, NotificationValue(b))
    requires LikeNotification(ShownNotification(a), ShownNotification(b))
    ensures ShownNotification(a) == ShownNotification(b)
  {
    var x, y := ShownNotification(a), ShownNotification(b);
    ShownNotificationFixed(enc, a);
    ShownNotificationFixed(enc, b);
    FixedNotificationsEqual(enc, x, y);
  }

  lemma FixedNotificationsEqual(enc: Encoding, x: P.NotificationView, y: P.NotificationView)
    requires UsesKeys(enc) && Fixed(enc, NotificationValue(x)) && Fixed(enc, NotificationValue(y)) && LikeNotification(x, y)
    ensures x == y
  {
    LikeNotificationReorders(x, y);
    NotificationTieFree(enc, x);
    Canonical(enc, NotificationValue(x), NotificationValue(y), NotificationValue(x), NotificationValue(y));
    NotificationInjective(x, y);
  }

  /** For two normal forms of configurations. */
  lemma FixedAlertsShow(enc: Encoding, a: P.AlertView, b: P.AlertView)
    requires UsesKeys(enc) && CleanAlert(a) && CleanAlert(b)
    requires Fixed(enc, AlertValue(a)) && Fixed(enc, AlertValue(b)) && LikeAlert(Shown(a), Shown(b))
    ensures Shown(a) == Shown(b)
  {
    ShownAlertFixed(enc, a);
    ShownAlertFixed(enc, b);
    ShownClean(a);
    ShownTwice(a);
    assert Elements(Shown(a).notifications) == ShownNotifications(Elements(a.notifications));
    FixedAlertsEqual(enc, Shown(a), Shown(b));
  }

  lemma FixedAlertsEqual(enc: Encoding, x: P.AlertView, y: P.AlertView)
    requires UsesKeys(enc) && CleanAlert(x) && NotificationsTold(Elements(x.notifications))
    requires Fixed(enc, AlertValue(x)) && Fixed(enc, AlertValue(y)) && LikeAlert(x, y)
    ensures x == y
  {
    LikeAlertReorders(x, y);
    AlertTieFreeIff(enc, x);
    Canonical(enc, AlertValue(x), AlertValue(y), AlertValue(x), AlertValue(y));
    AlertInjective(x, y);
  }

  // ---- The condition ----

  ghost predicate TellableNotification(a: P.NotificationView, b: P.NotificationView) {
    LikeNotification(ShownNotification(a), ShownNotification(b)) ==> LikeNotification(a, b)
  }

  /** Notifications whose keys show the same up to order are the same up to order. */
  ghost predicate NotificationsTellable(ns: seq<P.NotificationView>) {
    forall i, j :: 0 <= i < |ns| && 0 <= j < |ns| ==> TellableNotification(ns[i], ns[j])
  }

  ghost predicate Tellable(a: P.AlertView, b: P.AlertView) {
    LikeAlert(Shown(a), Shown(b)) ==> LikeAlert(a, b)
  }

  /** Configurations, and notifications of one configuration, whose keys show the same up to order
      are the same up to order. */
  ghost predicate AlertsTellable(cs: seq<P.AlertView>) {
    && (forall i, j :: 0 <= i < |cs| && 0 <= j < |cs| ==> Tellable(cs[i], cs[j]))
    && (forall i :: 0 <= i < |cs| ==> NotificationsTellable(Elements(cs[i].notifications)))
  }

  lemma LikeNotificationEquivalence(a: P.NotificationView, b: P.NotificationView, c: P.NotificationView)
    ensures LikeNotification(a, a)
    ensures LikeNotification(a, b) ==> LikeNotification(b, a)
    ensures LikeNotification(a, b) && LikeNotification(b, c) ==> LikeNotification(a, c)
  {
  }

  /** Two notifications and their normal forms. */
  lemma NotificationToldIffTellable(enc: Encoding, a: P.NotificationView, b: P.NotificationView, x: P.NotificationView, y: P.NotificationView)
    requires UsesKeys(enc) && LikeNotification(a, x) && LikeNotification(b, y)
    requires Fixed(enc, NotificationValue(x)) && Fixed(enc, NotificationValue(y))
    ensures SameShownNotification(x, y) <==> TellableNotification(a, b)
  {
    ShownLikeNotification(a, x);
    ShownLikeNotification(b, y);
    var sa, sb, sx, sy := ShownNotification(a), ShownNotification(b), ShownNotification(x), ShownNotification(y);
    LikeAlong(sa, sx, sb, sy);
    LikeAlong(a, x, b, y);
    if LikeNotification(sx, sy) { FixedNotificationsShow(enc, x, y); }
    if LikeNotification(x, y) { FixedNotificationsEqual(enc, x, y); }
    LikeNotificationEquivalence(sx, sx, sx);
    LikeNotificationEquivalence(x, x, x);
  }

  lemma LikeAlong(a: P.NotificationView, x: P.NotificationView, b: P.NotificationView, y: P.NotificationView)
    requires LikeNotification(a, x) && LikeNotification(b, y)
    ensures LikeNotification(a, b) <==> LikeNotification(x, y)
  {
    LikeNotificationEquivalence(a, x, y);
    LikeNotificationEquivalence(x, a, b);
    LikeNotificationEquivalence(x, b, y);
    LikeNotificationEquivalence(b, y, y);
    LikeNotificationEquivalence(a, y, b);
  }

  /** `ms`, a normal form of `ns`, tells its members apart exactly when `ns` does. */
  lemma NotificationsToldIff(enc: Encoding, ns: seq<P.NotificationView>, ms: seq<P.NotificationView>)
    requires UsesKeys(enc) && AllLike(LikeNotification, ns, ms)
    requires forall i :: 0 <= i < |ms| ==> Fixed(enc, NotificationValue(ms[i]))
    ensures NotificationsTold(ms) <==> NotificationsTellable(ns)
  {
    if NotificationsTold(ms) {
      forall i, j | 0 <= i < |ns| && 0 <= j < |ns| ensures TellableNotification(ns[i], ns[j]) {
        var k := MemberLike(LikeNotification, ns, ms, i);
        var l := MemberLike(LikeNotification, ns, ms, j);
        NotificationToldIffTellable(enc, ns[i], ns[j], ms[k], ms[l]);
      }
    }
    if NotificationsTellable(ns) {
      forall k, l | 0 <= k < |ms| && 0 <= l < |ms| ensures SameShownNotification(ms[k], ms[l]) {
        var i := LikeMember(LikeNotification, ns, ms, k);
        var j := LikeMember(LikeNotification, ns, ms, l);
        NotificationToldIffTellable(enc, ns[i], ns[j], ms[k], ms[l]);
      }
    }
  }

  /** `ds` is a normal form, element by element. */
  ghost predicate AllFixed(enc: Encoding, ds: seq<P.AlertView>) {
    forall k :: 0 <= k < |ds| ==> Fixed(enc, AlertValue(ds[k]))
  }

  lemma InnerToldIff(enc: Encoding, c: P.AlertView, d: P.AlertView)
    requires UsesKeys(enc) && CleanAlert(d) && LikeAlert(c, d) && Fixed(enc, AlertValue(d))
    ensures NotificationsTold(Elements(d.notifications)) <==> NotificationsTellable(Elements(c.notifications))
  {
    ListFieldsFixed(enc, d);
    CleanNotificationsOf(d);
    NotificationsOfFixed(enc, Elements(d.notifications));
    NotificationsToldIff(enc, Elements(c.notifications), Elements(d.notifications));
  }

  /** Two configurations and their normal forms, the first without ties among its notifications. */
  lemma AlertToldIffTellable(enc: Encoding, a: P.AlertView, b: P.AlertView, x: P.AlertView, y: P.AlertView)
    requires UsesKeys(enc) && LikeAlert(a, x) && LikeAlert(b, y) && CleanAlert(x) && CleanAlert(y)
    requires Fixed(enc, AlertValue(x)) && Fixed(enc, AlertValue(y)) && NotificationsTold(Elements(x.notifications))
    ensures SameShownSame(x, y) <==> Tellable(a, b)
  {
    ShownLikeAlert(a, x);
    ShownLikeAlert(b, y);
    LikeAlertAlong(Shown(a), Shown(x), Shown(b), Shown(y));
    LikeAlertAlong(a, x, b, y);
    if LikeAlert(Shown(x), Shown(y)) { FixedAlertsShow(enc, x, y); }
    if LikeAlert(x, y) { FixedAlertsEqual(enc, x, y); }
    LikeAlertEquivalence(Shown(x), Shown(x), Shown(x));
    LikeAlertEquivalence(x, x, x);
  }

  lemma LikeAlertAlong(a: P.AlertView, x: P.AlertView, b: P.AlertView, y: P.AlertView)
    requires LikeAlert(a, x) && LikeAlert(b, y)
    ensures LikeAlert(a, b) <==> LikeAlert(x, y)
  {
    LikeAlertEquivalence(a, x, y);
    LikeAlertEquivalence(x, a, b);
    LikeAlertEquivalence(x, b, y);
    LikeAlertEquivalence(b, y, y);
    LikeAlertEquivalence(a, y, b);
  }

  lemma InnerToldIffTellable(enc: Encoding, cs: seq<P.AlertView>, ds: seq<P.AlertView>)
    requires UsesKeys(enc) && AllCleanAlerts(ds) && LikeAlerts(cs, ds) && AllFixed(enc, ds)
    ensures (forall k :: 0 <= k < |ds| ==> NotificationsTold(Elements(ds[k].notifications))) <==>
      forall i :: 0 <= i < |cs| ==> NotificationsTellable(Elements(cs[i].notifications))
  {
    if forall k :: 0 <= k < |ds| ==> NotificationsTold(Elements(ds[k].notifications)) {
      forall i | 0 <= i < |cs| ensures NotificationsTellable(Elements(cs[i].notifications)) {
        var k := MemberLike(LikeAlert, cs, ds, i);
        InnerToldIff(enc, cs[i], ds[k]);
      }
    }
    if forall i :: 0 <= i < |cs| ==> NotificationsTellable(Elements(cs[i].notifications)) {
      forall k | 0 <= k < |ds| ensures NotificationsTold(Elements(ds[k].notifications)) {
        var i := LikeMember(LikeAlert, cs, ds, k);
        InnerToldIff(enc, cs[i], ds[k]);
      }
    }
  }

  /** `ds`, a normal form of `cs`, tells its members apart exactly when `cs` does. */
  lemma AlertsToldIffTellable(enc: Encoding, cs: seq<P.AlertView>, ds: seq<P.AlertView>)
    requires UsesKeys(enc) && AllCleanAlerts(ds) && LikeAlerts(cs, ds) && AllFixed(enc, ds)
    ensures AlertsTold(ds) <==> AlertsTellable(cs)
  {
    InnerToldIffTellable(enc, cs, ds);
    if AlertsTold(ds) {
      forall i, j | 0 <= i < |cs| && 0 <= j < |cs| ensures Tellable(cs[i], cs[j]) {
        var k := MemberLike(LikeAlert, cs, ds, i);
        var l := MemberLike(LikeAlert, cs, ds, j);
        AlertToldIffTellable(enc, cs[i], cs[j], ds[k], ds[l]);
      }
    }
    if AlertsTellable(cs) {
      forall k, l | 0 <= k < |ds| && 0 <= l < |ds| ensures SameShownSame(ds[k], ds[l]) {
        var i := LikeMember(LikeAlert, cs, ds, k);
        var j := LikeMember(LikeAlert, cs, ds, l);
        AlertToldIffTellable(enc, cs[i], cs[j], ds[k], ds[l]);
      }
    }
  }

  lemma AlertsOfFixed(enc: Encoding, ds: seq<P.AlertView>)
    requires UsesKeys(enc) && AllCleanAlerts(ds) && Fixed(enc, AlertsValue(ds))
    ensures AllFixed(enc, ds)
  {
    if ds != [] {
      AlertsTieFreeIff(enc, ds);
      FixedSlice(enc, AlertsValue(ds));
      forall k | 0 <= k < |ds| ensures Fixed(enc, AlertValue(ds[k])) {
        assert Fixed(enc, AlertValues(ds)[k]);
      }
    }
  }

  // ---- The canonical form of a spec's alert configurations ----

  /** Normalizing alert configurations without separators reports no error and gives a reordering of
      them; and all reorderings have this one normal form exactly when configurations, and
      notifications of one configuration, whose keys show the same up to order are the same up to
      order. In terms of the normal form: none of its members show the same without being the same. */
  lemma AlertsCanonicalIff(enc: Encoding, cs: seq<P.AlertView>, v': Value) returns (ds: seq<P.AlertView>)
    requires UsesKeys(enc) && AllCleanAlerts(cs) && NormalizesTo(enc, AlertsValue(cs), v')
    ensures v' == AlertsValue(ds) && LikeAlerts(cs, ds) && !Fails(enc, v')
    ensures (forall w, w' :: Reorders(AlertsValue(cs), w) && NormalizesTo(enc, w, w') ==> w' == v') <==> AlertsTellable(cs)
    ensures AlertsTellable(cs) <==> AlertsTold(ds)
  {
    NormalizeOnlyReorders(enc, AlertsValue(cs), v');
    ds := AlertsReordered(cs, v');
    CleanAlertsLike(cs, ds);
    AlertsTieFreeIff(enc, ds);
    CanonicalIffTieFree(enc, AlertsValue(cs), v');
    NormalFormIsFixed(enc, AlertsValue(cs), v');
    AlertsOfFixed(enc, ds);
    AlertsToldIffTellable(enc, cs, ds);
  }

  /** The key shows all of the configuration: no secret tokens, no nil pointers, no nil lists and not
      a single empty role. */
  predicate NothingHidden(c: P.AlertView) {
    Shown(c) == c
  }

  /** For such configurations the normal form is always canonical. */
  lemma NothingHiddenIsCanonical(enc: Encoding, cs: seq<P.AlertView>, v': Value, w: Value, w': Value)
    requires UsesKeys(enc) && AllCleanAlerts(cs) && forall i :: 0 <= i < |cs| ==> NothingHidden(cs[i])
    requires NormalizesTo(enc, AlertsValue(cs), v') && Reorders(AlertsValue(cs), w) && NormalizesTo(enc, w, w')
    ensures w' == v' && !Fails(enc, v')
  {
    var ds := AlertsCanonicalIff(enc, cs, v');
    forall i | 0 <= i < |cs| ensures NotificationsTellable(Elements(cs[i].notifications)) {
      NothingHiddenTells(cs[i]);
    }
    forall i, j | 0 <= i < |cs| && 0 <= j < |cs| ensures Tellable(cs[i], cs[j]) {
      assert NothingHidden(cs[i]) && NothingHidden(cs[j]);
    }
  }

  lemma NothingHiddenTells(c: P.AlertView)
    requires NothingHidden(c)
    ensures NotificationsTellable(Elements(c.notifications))
  {
    var ns := Elements(c.notifications);
    assert ShownNotifications(ns) == ns;
    forall i, j | 0 <= i < |ns| && 0 <= j < |ns| ensures TellableNotification(ns[i], ns[j]) {
      assert ShownNotifications(ns)[i] == ns[i] && ShownNotifications(ns)[j] == ns[j];
    }
  }

  /** Two notifications that differ only in a secret token show the same: whatever form normalizing
      gives their configuration, another order gives another. */
  lemma SecretTokensBreakIt(enc: Encoding, c: P.AlertView, n: P.NotificationView, token: string, v': Value)
    requires UsesKeys(enc) && CleanAlert(c) && token != n.secrets.apiToken
    requires c.notifications == Some([n, n.(secrets := n.secrets.(apiToken := token))])
    requires NormalizesTo(enc, AlertsValue([c]), v')
    ensures exists w, w' :: Reorders(AlertsValue([c]), w) && NormalizesTo(enc, w, w') && w' != v'
  {
    var ds := AlertsCanonicalIff(enc, [c], v');
    var other := n.(secrets := n.secrets.(apiToken := token));
    var ns := Elements(c.notifications);
    assert ns[0] == n && ns[1] == other;
    LikeNotificationEquivalence(ShownNotification(n), ShownNotification(n), ShownNotification(n));
    assert ShownNotification(n) == ShownNotification(other);
    assert !TellableNotification(ns[0], ns[1]);
    assert !NotificationsTellable(Elements([c][0].notifications));
  }
}
