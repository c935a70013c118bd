/** Where the alert keys meet the canonical form: alert configurations as data of
    internal/cmp/normalize.go, their slices sorted by the keys of api/v1/alert_configurations.go. */
module AlertOrder {
  import opened Text
  import opened Sorting
  import opened Normalize
  import opened AlertKeys
  import P = ProjectRedaction

  // ---- Alert configurations as data ----

  /** A struct of plain fields. */
  function Texts(ts: seq<string>): Value {
    Struct(Scalars(ts))
  }

  function Scalars(ts: seq<string>): (vs: seq<Value>)
    ensures |vs| == |ts| && forall i :: 0 <= i < |ts| ==> vs[i] == Scalar(ts[i])
  {
    seq(|ts|, i requires 0 <= i < |ts| => Scalar(ts[i]))
  }

  function OptText(t: Option<string>): Value {
    if t.None? then NilPointer else Pointer(Scalar(t.value))
  }

  function OptTexts(ts: Option<seq<string>>): Value {
    if ts.None? then NilPointer else Pointer(Texts(ts.value))
  }

  function OptSlice(keyed: bool, vs: Option<seq<Value>>): Value {
    if vs.None? then NilSlice else Slice(keyed, vs.value)
  }

  /** The plain exported fields of a notification. */
  function PlainTexts(n: P.NotificationView): seq<string> {
    var r := n.routing;
    [r.apiTokenRef.name, r.apiTokenRef.namespace, r.channelName,
     r.datadogAPIKeyRef.name, r.datadogAPIKeyRef.namespace, r.datadogRegion, r.emailAddress,
     r.flowdockAPITokenRef.name, r.flowdockAPITokenRef.namespace, r.flowName,
     Itoa(r.intervalMin), n.secrets.mobileNumber,
     r.opsGenieAPIKeyRef.name, r.opsGenieAPIKeyRef.namespace, r.opsGenieRegion, r.orgName,
     r.serviceKeyRef.name, r.serviceKeyRef.namespace, r.teamID, r.teamName, r.typeName, r.username,
     r.victorOpsSecretRef.name, r.victorOpsSecretRef.namespace]
  }

  /** Its unexported fields. */
  function HiddenTexts(n: P.NotificationView): seq<string> {
    var s := n.secrets;
    [s.apiToken, s.datadogAPIKey, s.flowdockAPIToken, s.opsGenieAPIKey, s.serviceKey, s.victorOpsAPIKey, s.victorOpsRoutingKey]
  }

  function MapOption<T, U>(o: Option<T>, f: T -> U): Option<U> {
    if o.None? then None else Some(f(o.value))
  }

  /** A notification: plain fields together, pointers, roles, unexported fields together. */
  function NotificationValue(n: P.NotificationView): Value {
    Struct([
      Texts(PlainTexts(n)), OptText(MapOption(n.delayMin, Itoa)), OptText(MapOption(n.emailEnabled, FormatBool)),
      OptText(MapOption(n.smsEnabled, FormatBool)), OptSlice(false, MapOption(n.roles, Scalars)), Unexported(Texts(HiddenTexts(n)))])
  }

  function MatcherValue(m: P.Matcher): Value {
    Texts(MatcherParts(m))
  }

  function MatcherValues(ms: seq<P.Matcher>): (vs: seq<Value>)
    ensures |vs| == |ms| && forall i :: 0 <= i < |ms| ==> vs[i] == MatcherValue(ms[i])
  {
    seq(|ms|, i requires 0 <= i < |ms| => MatcherValue(ms[i]))
  }

  function NotificationValues(ns: seq<P.NotificationView>): (vs: seq<Value>)
    ensures |vs| == |ns| && forall i :: 0 <= i < |ns| ==> vs[i] == NotificationValue(ns[i])
  {
    seq(|ns|, i requires 0 <= i < |ns| => NotificationValue(ns[i]))
  }

  function AlertValue(c: P.AlertView): Value {
    Struct([
      Texts([FormatBool(c.enabled), c.eventTypeName, c.severityOverride]), OptSlice(true, MapOption(c.matchers, MatcherValues)),
      OptTexts(MapOption(c.threshold, ThresholdParts)), OptSlice(true, MapOption(c.notifications, NotificationValues)),
      OptTexts(MapOption(c.metricThreshold, MetricThresholdParts))])
  }

  function AlertValues(cs: seq<P.AlertView>): (vs: seq<Value>)
    ensures |vs| == |cs| && forall i :: 0 <= i < |cs| ==> vs[i] == AlertValue(cs[i])
  {
    seq(|cs|, i requires 0 <= i < |cs| => AlertValue(cs[i]))
  }

  /** The slice of alert configurations of a spec. */
  function AlertsValue(cs: seq<P.AlertView>): Value {
    Slice(true, AlertValues(cs))
  }

  /** The encoding uses the `Key` methods, and strings marshal to different texts. */
  ghost predicate UsesKeys(enc: Encoding) {
    && (forall m {:trigger enc.key(MatcherValue(m))} :: enc.key(MatcherValue(m)) == MatcherKey(m))
    && (forall n {:trigger enc.key(NotificationValue(n))} :: enc.key(NotificationValue(n)) == NotificationKey(n))
    && (forall c {:trigger enc.key(AlertValue(c))} :: enc.key(AlertValue(c)) == Key(c))
    && (forall t: string :: enc.json(Scalar(t)).Some?)
    && (forall t: string, u: string :: enc.json(Scalar(t)) == enc.json(Scalar(u)) ==> t == u)
  }

  // ---- The data determine the configuration ----

  lemma TextsInjective(a: seq<string>, b: seq<string>)
    requires Texts(a) == Texts(b)
    ensures a == b
  {
    assert |Scalars(a)| == |Scalars(b)|;
    forall i | 0 <= i < |a| ensures a[i] == b[i] {
      assert Scalars(a)[i] == Scalars(b)[i];
    }
  }

  lemma RoutingInjective(a: P.NotificationView, b: P.NotificationView)
    requires PlainTexts(a) == PlainTexts(b)
    ensures a.routing == b.routing && a.secrets.mobileNumber == b.secrets.mobileNumber
  {
    var p, q := PlainTexts(a), PlainTexts(b);
    assert p[0] == q[0] && p[1] == q[1] && p[2] == q[2] && p[3] == q[3] && p[4] == q[4] && p[5] == q[5] && p[6] == q[6];
    assert p[7] == q[7] && p[8] == q[8] && p[9] == q[9] && p[10] == q[10] && p[11] == q[11] && p[12] == q[12] && p[13] == q[13];
    assert p[14] == q[14] && p[15] == q[15] && p[16] == q[16] && p[17] == q[17] && p[18] == q[18] && p[19] == q[19];
    assert p[20] == q[20] && p[21] == q[21] && p[22] == q[22] && p[23] == q[23];
    ItoaInjective(a.routing.intervalMin, b.routing.intervalMin);
  }

  lemma SecretsInjective(a: P.NotificationView, b: P.NotificationView)
    requires HiddenTexts(a) == HiddenTexts(b) && a.secrets.mobileNumber == b.secrets.mobileNumber
    ensures a.secrets == b.secrets
  {
    var p, q := HiddenTexts(a), HiddenTexts(b);
    assert p[0] == q[0] && p[1] == q[1] && p[2] == q[2] && p[3] == q[3] && p[4] == q[4] && p[5] == q[5] && p[6] == q[6];
  }

  lemma RolesInjective(a: Option<seq<string>>, b: Option<seq<string>>)
    requires OptSlice(false, MapOption(a, Scalars)) == OptSlice(false, MapOption(b, Scalars))
    ensures a == b
  {
    if a.Some? && b.Some? {
      TextsInjective(a.value, b.value);
    }
  }

  lemma NotificationInjective(a: P.NotificationView, b: P.NotificationView)
    requires NotificationValue(a) == NotificationValue(b)
    ensures a == b
  {
    var p, q := NotificationValue(a).fields, NotificationValue(b).fields;
    assert p[0] == q[0] && p[1] == q[1] && p[2] == q[2] && p[3] == q[3] && p[4] == q[4] && p[5] == q[5];
    TextsInjective(PlainTexts(a), PlainTexts(b));
    RoutingInjective(a, b);
    TextsInjective(HiddenTexts(a), HiddenTexts(b));
    SecretsInjective(a, b);
    RolesInjective(a.roles, b.roles);
    if a.delayMin.Some? && b.delayMin.Some? {
      ItoaInjective(a.delayMin.value, b.delayMin.value);
    }
  }

  lemma MatcherInjective(a: P.Matcher, b: P.Matcher)
    requires MatcherValue(a) == MatcherValue(b)
    ensures a == b
  {
    TextsInjective(MatcherParts(a), MatcherParts(b));
    var p, q := MatcherParts(a), MatcherParts(b);
    assert p[0] == q[0] && p[1] == q[1] && p[2] == q[2];
  }

  lemma ThresholdsInjective(a: P.AlertView, b: P.AlertView)
    requires OptTexts(MapOption(a.threshold, ThresholdParts)) == OptTexts(MapOption(b.threshold, ThresholdParts))
    requires OptTexts(MapOption(a.metricThreshold, MetricThresholdParts)) == OptTexts(MapOption(b.metricThreshold, MetricThresholdParts))
    ensures a.threshold == b.threshold && a.metricThreshold == b.metricThreshold
  {
    if a.threshold.Some? && b.threshold.Some? {
      var p, q := ThresholdParts(a.threshold.value), ThresholdParts(b.threshold.value);
      TextsInjective(p, q);
      assert p[0] == q[0] && p[1] == q[1] && p[2] == q[2];
    }
    if a.metricThreshold.Some? && b.metricThreshold.Some? {
      var p, q := MetricThresholdParts(a.metricThreshold.value), MetricThresholdParts(b.metricThreshold.value);
      TextsInjective(p, q);
      assert p[0] == q[0] && p[1] == q[1] && p[2] == q[2] && p[3] == q[3] && p[4] == q[4];
    }
  }

  lemma MatchersInjective(a: Option<seq<P.Matcher>>, b: Option<seq<P.Matcher>>)
    requires OptSlice(true, MapOption(a, MatcherValues)) == OptSlice(true, MapOption(b, MatcherValues))
    ensures a == b
  {
    if a.Some? && b.Some? {
      assert MatcherValues(a.value) == MatcherValues(b.value);
      forall i | 0 <= i < |a.value| ensures a.value[i] == b.value[i] {
        assert MatcherValues(a.value)[i] == MatcherValues(b.value)[i];
        MatcherInjective(a.value[i], b.value[i]);
      }
      assert a.value == b.value;
    }
  }

  lemma NotificationsInjective(a: Option<seq<P.NotificationView>>, b: Option<seq<P.NotificationView>>)
    requires OptSlice(true, MapOption(a, NotificationValues)) == OptSlice(true, MapOption(b, NotificationValues))
    ensures a == b
  {
    if a.Some? && b.Some? {
      assert NotificationValues(a.value) == NotificationValues(b.value);
      forall i | 0 <= i < |a.value| ensures a.value[i] == b.value[i] {
        assert NotificationValues(a.value)[i] == NotificationValues(b.value)[i];
        NotificationInjective(a.value[i], b.value[i]);
      }
      assert a.value == b.value;
    }
  }

  lemma AlertInjective(a: P.AlertView, b: P.AlertView)
    requires AlertValue(a) == AlertValue(b)
    ensures a == b
  {
    var p, q := AlertValue(a).fields, AlertValue(b).fields;
    assert p[0] == q[0] && p[1] == q[1] && p[2] == q[2] && p[3] == q[3] && p[4] == q[4];
    var s, t := [FormatBool(a.enabled), a.eventTypeName, a.severityOverride], [FormatBool(b.enabled), b.eventTypeName, b.severityOverride];
    TextsInjective(s, t);
    assert s[0] == t[0] && s[1] == t[1] && s[2] == t[2];
    MatchersInjective(a.matchers, b.matchers);
    NotificationsInjective(a.notifications, b.notifications);
    ThresholdsInjective(a, b);
  }

  ghost function MatcherText(v: Value): string {
    if m :| v == MatcherValue(m) then MatcherKey(m) else ""
  }

  ghost function NotificationText(v: Value): string {
    if n :| v == NotificationValue(n) then NotificationKey(n) else ""
  }

  ghost function AlertText(v: Value): string {
    if c :| v == AlertValue(c) then Key(c) else ""
  }

  /** Matchers, notifications and configurations are told apart by their number of fields. */
  ghost function KeyText(v: Value): string {
    if !v.Struct? then ""
    else if |v.fields| == 3 then MatcherText(v)
    else if |v.fields| == 6 then NotificationText(v)
    else AlertText(v)
  }

  lemma MatcherTextIsKey(m: P.Matcher)
    ensures MatcherText(MatcherValue(m)) == MatcherKey(m)
  {
    var v := MatcherValue(m);
    var o :| v == MatcherValue(o) && MatcherText(v) == MatcherKey(o);
    MatcherInjective(m, o);
  }

  lemma NotificationTextIsKey(n: P.NotificationView)
    ensures NotificationText(NotificationValue(n)) == NotificationKey(n)
  {
    var v := NotificationValue(n);
    var o :| v == NotificationValue(o) && NotificationText(v) == NotificationKey(o);
    NotificationInjective(n, o);
  }

  lemma AlertTextIsKey(c: P.AlertView)
    ensures AlertText(AlertValue(c)) == Key(c)
  {
    var v := AlertValue(c);
    var o :| v == AlertValue(o) && AlertText(v) == Key(o);
    AlertInjective(c, o);
  }

  /** There is an encoding that uses the keys. */
  lemma KeyedEncoding() returns (enc: Encoding)
    ensures UsesKeys(enc)
  {
    enc := Encoding((v: Value) => KeyText(v), (v: Value) => Some(if v.Scalar? then v.text else ""));
    forall m ensures enc.key(MatcherValue(m)) == MatcherKey(m) {
      MatcherTextIsKey(m);
    }
    forall n ensures enc.key(NotificationValue(n)) == NotificationKey(n) {
      NotificationTextIsKey(n);
    }
    forall c ensures enc.key(AlertValue(c)) == Key(c) {
      AlertTextIsKey(c);
    }
  }

  // ---- Ties ----

  ghost predicate SameShownSame(a: P.AlertView, b: P.AlertView) {
    Shown(a) == Shown(b) ==> a == b
  }

  ghost predicate SameShownNotification(a: P.NotificationView, b: P.NotificationView) {
    ShownNotification(a) == ShownNotification(b) ==> a == b
  }

  /** Notifications that show the same are the same. */
  ghost predicate NotificationsTold(ns: seq<P.NotificationView>) {
    forall i, j :: 0 <= i < |ns| && 0 <= j < |ns| ==> SameShownNotification(ns[i], ns[j])
  }

  /** No two different configurations, and within none of them two different notifications, show the
      same in their keys. */
  ghost predicate AlertsTold(cs: seq<P.AlertView>) {
    && (forall i, j :: 0 <= i < |cs| && 0 <= j < |cs| ==> SameShownSame(cs[i], cs[j]))
    && (forall i :: 0 <= i < |cs| ==> NotificationsTold(Elements(cs[i].notifications)))
  }

  ghost predicate AllCleanAlerts(cs: seq<P.AlertView>) {
    forall i :: 0 <= i < |cs| ==> CleanAlert(cs[i])
  }

  ghost predicate SameTextSame(enc: Encoding, keyed: bool, x: Value, y: Value) {
    enc.SortText(keyed, x) == enc.SortText(keyed, y) ==> x == y
  }

  /** Ties, position by position. */
  lemma TiesByPosition(enc: Encoding, keyed: bool, vs: seq<Value>)
    ensures TiesAreEqual(enc.Order(keyed), vs) <==>
      forall i, j :: 0 <= i < |vs| && 0 <= j < |vs| ==> SameTextSame(enc, keyed, vs[i], vs[j])
  {
    if TiesAreEqual(enc.Order(keyed), vs) {
      forall i, j | 0 <= i < |vs| && 0 <= j < |vs| ensures SameTextSame(enc, keyed, vs[i], vs[j]) {
        SameTextTies(enc, keyed, vs[i], vs[j]);
        assert vs[i] in vs && vs[j] in vs;
      }
    }
    if forall i, j :: 0 <= i < |vs| && 0 <= j < |vs| ==> SameTextSame(enc, keyed, vs[i], vs[j]) {
      forall i, j | 0 <= i < |vs| && 0 <= j < |vs| && enc.SortText(keyed, vs[i]) == enc.SortText(keyed, vs[j]) ensures vs[i] == vs[j] {
        assert SameTextSame(enc, keyed, vs[i], vs[j]);
      }
      NoTiesByPosition(enc, keyed, vs);
    }
  }

  /** What `TieFree` and `Fails` say of a slice. */
  lemma SliceVerdict(enc: Encoding, keyed: bool, vs: seq<Value>)
    ensures TieFree(enc, Slice(keyed, vs)) <==>
      TiesAreEqual(enc.Order(keyed), vs) && forall i :: 0 <= i < |vs| ==> TieFree(enc, vs[i])
    ensures Fails(enc, Slice(keyed, vs)) <==>
      SortFails(enc, keyed, vs) || exists i :: 0 <= i < |vs| && Fails(enc, vs[i])
  {
    var p: (bool, seq<Value>) -> bool := (k, es) => !SortFails(enc, k, es);
    assert AllSlices(p, Slice(keyed, vs)) <==> p(keyed, vs) && forall i :: 0 <= i < |vs| ==> AllSlices(p, vs[i]);
  }

  ghost predicate Untroubled(enc: Encoding, v: Value) {
    TieFree(enc, v) && !Fails(enc, v)
  }

  /** The same of a struct in which only the field `k` can hold ties. */
  lemma StructVerdict(enc: Encoding, fs: seq<Value>, k: nat)
    requires k < |fs| && !Fails(enc, fs[k]) && forall i :: 0 <= i < |fs| && i != k ==> Untroubled(enc, fs[i])
    ensures TieFree(enc, Struct(fs)) <==> TieFree(enc, fs[k])
    ensures !Fails(enc, Struct(fs))
  {
    var p: (bool, seq<Value>) -> bool := (k, es) => !SortFails(enc, k, es);
    forall i | 0 <= i < |fs| ensures AllSlices(p, fs[i]) {
      assert i != k ==> Untroubled(enc, fs[i]);
      assert !Fails(enc, fs[i]);
    }
    if TieFree(enc, fs[k]) {
      forall i | 0 <= i < |fs| ensures TieFree(enc, fs[i]) {
        assert i != k ==> Untroubled(enc, fs[i]);
      }
    }
  }

  lemma TextsVerdict(enc: Encoding, ts: seq<string>)
    ensures Untroubled(enc, Texts(ts))
  {
    var fs := Scalars(ts);
    forall i | 0 <= i < |fs| ensures Untroubled(enc, fs[i]) {
    }
    if |fs| > 0 {
      StructVerdict(enc, fs, 0);
    }
  }

  /** A list of strings is sorted by their JSON texts, without ties and errors. */
  lemma ScalarsTieFree(enc: Encoding, ts: seq<string>)
    requires UsesKeys(enc)
    ensures TieFree(enc, Slice(false, Scalars(ts))) && !Fails(enc, Slice(false, Scalars(ts)))
  {
    var vs := Scalars(ts);
    TiesByPosition(enc, false, vs);
    SliceVerdict(enc, false, vs);
    forall i, j | 0 <= i < |vs| && 0 <= j < |vs| ensures SameTextSame(enc, false, vs[i], vs[j]) {
      assert enc.json(Scalar(ts[i])).Some? && enc.json(Scalar(ts[j])).Some?;
    }
    forall x | x in vs ensures !enc.Unencodable(false, x) {
      var i :| 0 <= i < |vs| && vs[i] == x;
      assert enc.json(Scalar(ts[i])).Some?;
    }
  }

  lemma RolesTieFree(enc: Encoding, roles: Option<seq<string>>)
    requires UsesKeys(enc)
    ensures TieFree(enc, OptSlice(false, MapOption(roles, Scalars))) && !Fails(enc, OptSlice(false, MapOption(roles, Scalars)))
  {
    if roles.Some? {
      ScalarsTieFree(enc, roles.value);
    }
  }

  lemma OptTextVerdict(enc: Encoding, t: Option<string>)
    ensures Untroubled(enc, OptText(t))
  {
    if t.Some? {
      assert Untroubled(enc, Scalar(t.value));
    }
  }

  lemma UnexportedVerdict(enc: Encoding, v: Value)
    ensures Untroubled(enc, Unexported(v))
  {
  }

  lemma SixFields(enc: Encoding, a: Value, b: Value, c: Value, d: Value, e: Value, f: Value)
    requires Untroubled(enc, a) && Untroubled(enc, b) && Untroubled(enc, c)
    requires Untroubled(enc, d) && Untroubled(enc, e) && Untroubled(enc, f)
    ensures Untroubled(enc, Struct([a, b, c, d, e, f]))
  {
    StructVerdict(enc, [a, b, c, d, e, f], 0);
  }

  lemma FiveFields(enc: Encoding, a: Value, b: Value, c: Value, d: Value, e: Value)
    requires Untroubled(enc, a) && Untroubled(enc, b) && Untroubled(enc, c) && Untroubled(enc, e)
    requires !Fails(enc, d)
    ensures TieFree(enc, Struct([a, b, c, d, e])) <==> TieFree(enc, d)
    ensures !Fails(enc, Struct([a, b, c, d, e]))
  {
    StructVerdict(enc, [a, b, c, d, e], 3);
  }

  lemma NotificationTieFree(enc: Encoding, n: P.NotificationView)
    requires UsesKeys(enc)
    ensures Untroubled(enc, NotificationValue(n))
  {
    TextsVerdict(enc, PlainTexts(n));
    OptTextVerdict(enc, MapOption(n.delayMin, Itoa));
    OptTextVerdict(enc, MapOption(n.emailEnabled, FormatBool));
    OptTextVerdict(enc, MapOption(n.smsEnabled, FormatBool));
    RolesTieFree(enc, n.roles);
    UnexportedVerdict(enc, Texts(HiddenTexts(n)));
    SixFields(enc, Texts(PlainTexts(n)), OptText(MapOption(n.delayMin, Itoa)), OptText(MapOption(n.emailEnabled, FormatBool)),
              OptText(MapOption(n.smsEnabled, FormatBool)), OptSlice(false, MapOption(n.roles, Scalars)),
              Unexported(Texts(HiddenTexts(n))));
  }

  /** Matchers without separators never tie. */
  lemma MatchersTieFree(enc: Encoding, ms: seq<P.Matcher>)
    requires UsesKeys(enc) && forall i :: 0 <= i < |ms| ==> AllClean(MatcherParts(ms[i]))
    ensures TieFree(enc, Slice(true, MatcherValues(ms))) && !Fails(enc, Slice(true, MatcherValues(ms)))
  {
    var vs := MatcherValues(ms);
    TiesByPosition(enc, true, vs);
    SliceVerdict(enc, true, vs);
    forall i, j | 0 <= i < |vs| && 0 <= j < |vs| ensures SameTextSame(enc, true, vs[i], vs[j]) {
      assert enc.key(MatcherValue(ms[i])) == MatcherKey(ms[i]) && enc.key(MatcherValue(ms[j])) == MatcherKey(ms[j]);
      if MatcherKey(ms[i]) == MatcherKey(ms[j]) {
        PartsShown(MatcherParts(ms[i]), MatcherParts(ms[j]));
      }
    }
    forall i | 0 <= i < |vs| ensures TieFree(enc, vs[i]) && !Fails(enc, vs[i]) {
      TextsVerdict(enc, MatcherParts(ms[i]));
    }
  }

  lemma NotificationToldIff(enc: Encoding, a: P.NotificationView, b: P.NotificationView)
    requires UsesKeys(enc) && CleanNotification(a) && CleanNotification(b)
    ensures SameTextSame(enc, true, NotificationValue(a), NotificationValue(b)) <==> SameShownNotification(a, b)
  {
    assert enc.key(NotificationValue(a)) == NotificationKey(a) && enc.key(NotificationValue(b)) == NotificationKey(b);
    NotificationKeyOfShown(a);
    NotificationKeyOfShown(b);
    if NotificationKey(a) == NotificationKey(b) {
      NotificationShown(a, b, "", "");
    }
    if NotificationValue(a) == NotificationValue(b) {
      NotificationInjective(a, b);
    }
  }

  lemma NotificationTies(enc: Encoding, ns: seq<P.NotificationView>)
    requires UsesKeys(enc) && forall i :: 0 <= i < |ns| ==> CleanNotification(ns[i])
    ensures TiesAreEqual(enc.Order(true), NotificationValues(ns)) <==> NotificationsTold(ns)
  {
    var vs := NotificationValues(ns);
    TiesByPosition(enc, true, vs);
    forall i, j | 0 <= i < |vs| && 0 <= j < |vs|
      ensures SameTextSame(enc, true, vs[i], vs[j]) <==> SameShownNotification(ns[i], ns[j])
    {
      NotificationToldIff(enc, ns[i], ns[j]);
    }
  }

  lemma NotificationsTieFreeIff(enc: Encoding, ns: seq<P.NotificationView>)
    requires UsesKeys(enc) && forall i :: 0 <= i < |ns| ==> CleanNotification(ns[i])
    ensures TieFree(enc, Slice(true, NotificationValues(ns))) <==> NotificationsTold(ns)
    ensures !Fails(enc, Slice(true, NotificationValues(ns)))
  {
    var vs := NotificationValues(ns);
    NotificationTies(enc, ns);
    SliceVerdict(enc, true, vs);
    forall i | 0 <= i < |vs| ensures Untroubled(enc, vs[i]) {
      NotificationTieFree(enc, ns[i]);
    }
  }

  lemma MatchersVerdict(enc: Encoding, ms: Option<seq<P.Matcher>>)
    requires UsesKeys(enc) && forall i :: 0 <= i < |Elements(ms)| ==> AllClean(MatcherParts(Elements(ms)[i]))
    ensures Untroubled(enc, OptSlice(true, MapOption(ms, MatcherValues)))
  {
    if ms.Some? {
      forall i | 0 <= i < |ms.value| ensures AllClean(MatcherParts(ms.value[i])) {
        assert Elements(ms)[i] == ms.value[i];
      }
      MatchersTieFree(enc, ms.value);
    }
  }

  lemma NotificationsVerdict(enc: Encoding, ns: Option<seq<P.NotificationView>>)
    requires UsesKeys(enc) && forall i :: 0 <= i < |Elements(ns)| ==> CleanNotification(Elements(ns)[i])
    ensures TieFree(enc, OptSlice(true, MapOption(ns, NotificationValues))) <==> NotificationsTold(Elements(ns))
    ensures !Fails(enc, OptSlice(true, MapOption(ns, NotificationValues)))
  {
    if ns.Some? {
      forall i | 0 <= i < |ns.value| ensures CleanNotification(ns.value[i]) {
        assert Elements(ns)[i] == ns.value[i];
      }
      NotificationsTieFreeIff(enc, ns.value);
    }
  }

  /** In the data of one configuration only its notifications can tie. */
  lemma AlertTieFreeIff(enc: Encoding, c: P.AlertView)
    requires UsesKeys(enc) && CleanAlert(c)
    ensures TieFree(enc, AlertValue(c)) <==> NotificationsTold(Elements(c.notifications))
    ensures !Fails(enc, AlertValue(c))
  {
    TextsVerdict(enc, [FormatBool(c.enabled), c.eventTypeName, c.severityOverride]);
    MatchersVerdict(enc, c.matchers);
    ThresholdsVerdict(enc, MapOption(c.threshold, ThresholdParts));
    NotificationsVerdict(enc, c.notifications);
    ThresholdsVerdict(enc, MapOption(c.metricThreshold, MetricThresholdParts));
    FiveFields(enc, Texts([FormatBool(c.enabled), c.eventTypeName, c.severityOverride]),
               OptSlice(true, MapOption(c.matchers, MatcherValues)), OptTexts(MapOption(c.threshold, ThresholdParts)),
               OptSlice(true, MapOption(c.notifications, NotificationValues)),
               OptTexts(MapOption(c.metricThreshold, MetricThresholdParts)));
  }

  lemma ThresholdsVerdict(enc: Encoding, ts: Option<seq<string>>)
    ensures TieFree(enc, OptTexts(ts)) && !Fails(enc, OptTexts(ts))
  {
    if ts.Some? {
      TextsVerdict(enc, ts.value);
    }
  }

  lemma AlertToldIff(enc: Encoding, a: P.AlertView, b: P.AlertView)
    requires UsesKeys(enc) && CleanAlert(a) && CleanAlert(b)
    ensures SameTextSame(enc, true, AlertValue(a), AlertValue(b)) <==> SameShownSame(a, b)
  {
    assert enc.key(AlertValue(a)) == Key(a) && enc.key(AlertValue(b)) == Key(b);
    SameKeyIffSameShown(a, b);
    if AlertValue(a) == AlertValue(b) {
      AlertInjective(a, b);
    }
  }

  /** The data of configurations without separators never fail to sort, and hold a tie exactly when
      two configurations or two notifications show the same without being the same. */
  lemma AlertsTieFreeIff(enc: Encoding, cs: seq<P.AlertView>)
    requires UsesKeys(enc) && AllCleanAlerts(cs)
    ensures TieFree(enc, AlertsValue(cs)) <==> AlertsTold(cs)
    ensures !Fails(enc, AlertsValue(cs))
  {
    var vs := AlertValues(cs);
    TiesByPosition(enc, true, vs);
    SliceVerdict(enc, true, vs);
    forall i, j | 0 <= i < |vs| && 0 <= j < |vs|
      ensures SameTextSame(enc, true, vs[i], vs[j]) <==> SameShownSame(cs[i], cs[j])
    {
      AlertToldIff(enc, cs[i], cs[j]);
    }
    forall i | 0 <= i < |vs|
      ensures (TieFree(enc, vs[i]) <==> NotificationsTold(Elements(cs[i].notifications))) && !Fails(enc, vs[i])
    {
      AlertTieFreeIff(enc, cs[i]);
    }
  }

  // ---- Reordering stays among configurations ----

  /** Nothing in the value is reordered by a traversal. */
  predicate Flat(v: Value)
    decreases v
  {
    match v
    case Pointer(t) => Flat(t)
    case Struct(fs) => forall i :: 0 <= i < |fs| ==> Flat(fs[i])
    case Slice(_, es) => es == []
    case _ => true
  }

  lemma {:induction false} FlatVisits(step: Step, v: Value, w: Value)
    requires Flat(v)
    ensures Visits(step, v, w) <==> w == v
    decreases v
  {
    match v
    case Pointer(t) =>
      if w.Pointer? { FlatVisits(step, t, w.target); }
    case Struct(fs) =>
      if w.Struct? && |w.fields| == |fs| {
        forall i | 0 <= i < |fs| ensures Visits(step, fs[i], w.fields[i]) <==> w.fields[i] == fs[i] {
          FlatVisits(step, fs[i], w.fields[i]);
        }
        assert w.fields == fs <==> forall i :: 0 <= i < |fs| ==> w.fields[i] == fs[i];
      }
    case _ =>
  }

  lemma FlatElements(step: Step, es: seq<Value>, mid: seq<Value>)
    requires VisitsAll(step, es, mid) && forall i :: 0 <= i < |es| ==> Flat(es[i])
    ensures mid == es
  {
    forall i | 0 <= i < |es| ensures mid[i] == es[i] {
      FlatVisits(step, es[i], mid[i]);
    }
  }

  /** A reordered slice of encoded things is the slice of the reordered things. */
  lemma EncodedPermutation<T(!new)>(ts: seq<T>, es: seq<Value>, ws: seq<Value>, f: T -> Value) returns (us: seq<T>)
    requires |es| == |ts| && forall i :: 0 <= i < |ts| ==> es[i] == f(ts[i])
    requires Permutation(es, ws)
    ensures Permutation(us, ts) && |ws| == |us| && forall i :: 0 <= i < |us| ==> ws[i] == f(us[i])
  {
    PermutationFacts(es, ws);
    var p, d := Transport(ws, es, ts);
    us := d;
    forall i | 0 <= i < |ws| ensures ws[i] == f(us[i]) {
      assert ws[i] == es[p[i]] && us[i] == ts[p[i]];
    }
  }

  ghost predicate EachLike<T(!new)>(like: (T, T) -> bool, ts: seq<T>, each: seq<T>) {
    |each| == |ts| && forall i :: 0 <= i < |ts| ==> like(ts[i], each[i])
  }

  /** `us` is `ts` in another order, each element replaced by one like it. */
  ghost predicate AllLike<T(!new)>(like: (T, T) -> bool, ts: seq<T>, us: seq<T>) {
    exists each :: EachLike(like, ts, each) && Permutation(us, each)
  }

  /** A member of one list is like a member of the other, */
  lemma LikeMember<T(!new)>(like: (T, T) -> bool, ts: seq<T>, us: seq<T>, j: nat) returns (i: nat)
    requires AllLike(like, ts, us) && j < |us|
    ensures |us| == |ts| && i < |ts| && like(ts[i], us[j])
  {
    var each :| EachLike(like, ts, each) && Permutation(us, each);
    PermutationFacts(us, each);
    assert us[j] in each;
    i :| i < |each| && each[i] == us[j];
  }

  /** and the other way round. */
  lemma MemberLike<T(!new)>(like: (T, T) -> bool, ts: seq<T>, us: seq<T>, i: nat) returns (j: nat)
    requires AllLike(like, ts, us) && i < |ts|
    ensures |us| == |ts| && j < |us| && like(ts[i], us[j])
  {
    var each :| EachLike(like, ts, each) && Permutation(us, each);
    PermutationFacts(us, each);
    assert each[i] in us;
    j :| j < |us| && us[j] == each[i];
  }

  ghost predicate EncodesLike<T(!new)>(f: T -> Value, like: (T, T) -> bool, t: T, v: Value) {
    exists u :: v == f(u) && like(t, u)
  }

  /** What reordering makes of one encoded thing encodes a thing like it. */
  ghost predicate StaysEncoded<T(!new)>(f: T -> Value, like: (T, T) -> bool) {
    forall t, v :: Reorders(f(t), v) ==> EncodesLike(f, like, t, v)
  }

  lemma {:induction false} ChooseEach<T(!new)>(ts: seq<T>, mid: seq<Value>, f: T -> Value, like: (T, T) -> bool) returns (each: seq<T>)
    requires |mid| == |ts| && forall i :: 0 <= i < |ts| ==> EncodesLike(f, like, ts[i], mid[i])
    ensures EachLike(like, ts, each) && forall i :: 0 <= i < |ts| ==> mid[i] == f(each[i])
  {
    if ts == [] {
      each := [];
    } else {
      var u :| mid[0] == f(u) && like(ts[0], u);
      var rest := ChooseEach(ts[1..], mid[1..], f, like);
      each := [u] + rest;
    }
  }

  /** A reordered slice of encoded things encodes things like them in another order. */
  lemma SliceStaysEncoded<T(!new)>(ts: seq<T>, keyed: bool, es: seq<Value>, w: Value, f: T -> Value, like: (T, T) -> bool)
    returns (us: seq<T>)
    requires StaysEncoded(f, like) && |es| == |ts| && forall i :: 0 <= i < |ts| ==> es[i] == f(ts[i])
    requires Reorders(Slice(keyed, es), w)
    ensures w.Slice? && w.keyed == keyed && |w.elems| == |us| && forall i :: 0 <= i < |us| ==> w.elems[i] == f(us[i])
    ensures AllLike(like, ts, us)
  {
    us := [];
    if es != [] {
      var mid :| VisitsAll(Shuffle(), es, mid) && Permutation(mid, w.elems);
      forall i | 0 <= i < |ts| ensures EncodesLike(f, like, ts[i], mid[i]) {
        assert Reorders(f(ts[i]), mid[i]);
      }
      var each := ChooseEach(ts, mid, f, like);
      us := EncodedPermutation(each, mid, w.elems, f);
      assert EachLike(like, ts, each) && Permutation(us, each);
    } else {
      assert EachLike(like, ts, []) && Permutation(us, []);
    }
  }

  lemma RolesReordered(roles: Option<seq<string>>, w: Value) returns (r: Option<seq<string>>)
    requires Reorders(OptSlice(false, MapOption(roles, Scalars)), w)
    ensures w == OptSlice(false, MapOption(r, Scalars)) && (r.None? <==> roles.None?)
    ensures roles.Some? ==> Permutation(r.value, roles.value)
  {
    r := roles;
    if roles.Some? && roles.value != [] {
      var es := Scalars(roles.value);
      var mid :| VisitsAll(Shuffle(), es, mid) && Permutation(mid, w.elems);
      FlatElements(Shuffle(), es, mid);
      var us := EncodedPermutation(roles.value, es, w.elems, (t: string) => Scalar(t));
      r := Some(us);
      assert w.elems == Scalars(us);
    }
  }

  /** `m` is `n` with its roles reordered. */
  ghost predicate LikeNotification(n: P.NotificationView, m: P.NotificationView) {
    m == n.(roles := m.roles) && (m.roles.None? <==> n.roles.None?)
    && (n.roles.Some? ==> Permutation(m.roles.value, n.roles.value))
  }

  lemma TextsFlat(ts: seq<string>)
    ensures Flat(Texts(ts))
  {
  }

  lemma OptTextFlat(t: Option<string>)
    ensures Flat(OptText(t))
  {
    if t.Some? { assert Flat(Scalar(t.value)); }
  }

  lemma OptTextsFlat(ts: Option<seq<string>>)
    ensures Flat(OptTexts(ts))
  {
    if ts.Some? { TextsFlat(ts.value); }
  }

  lemma NotificationReordered(n: P.NotificationView, w: Value) returns (m: P.NotificationView)
    requires Reorders(NotificationValue(n), w)
    ensures w == NotificationValue(m) && LikeNotification(n, m)
  {
    var fs, gs := NotificationValue(n).fields, w.fields;
    TextsFlat(PlainTexts(n));
    OptTextFlat(MapOption(n.delayMin, Itoa));
    OptTextFlat(MapOption(n.emailEnabled, FormatBool));
    OptTextFlat(MapOption(n.smsEnabled, FormatBool));
    FlatVisits(Shuffle(), fs[0], gs[0]);
    FlatVisits(Shuffle(), fs[1], gs[1]);
    FlatVisits(Shuffle(), fs[2], gs[2]);
    FlatVisits(Shuffle(), fs[3], gs[3]);
    FlatVisits(Shuffle(), fs[5], gs[5]);
    assert Reorders(fs[4], gs[4]);
    var roles := RolesReordered(n.roles, gs[4]);
    m := n.(roles := roles);
    assert PlainTexts(m) == PlainTexts(n) && HiddenTexts(m) == HiddenTexts(n);
    assert w.fields == NotificationValue(m).fields;
  }

  lemma NotificationsStay()
    ensures StaysEncoded(NotificationValue, LikeNotification)
  {
    forall n, v | Reorders(NotificationValue(n), v) ensures EncodesLike(NotificationValue, LikeNotification, n, v) {
      var m := NotificationReordered(n, v);
    }
  }

  ghost predicate SameMatcher(m: P.Matcher, n: P.Matcher) {
    m == n
  }

  lemma MatchersStay()
    ensures StaysEncoded(MatcherValue, SameMatcher)
  {
    forall m, v | Reorders(MatcherValue(m), v) ensures EncodesLike(MatcherValue, SameMatcher, m, v) {
      TextsFlat(MatcherParts(m));
      FlatVisits(Shuffle(), MatcherValue(m), v);
      assert v == MatcherValue(m) && SameMatcher(m, m);
    }
  }

  /** `d` is `c` with its matchers, its notifications and their roles reordered. */
  ghost predicate LikeAlert(c: P.AlertView, d: P.AlertView) {
    && d == c.(matchers := d.matchers, notifications := d.notifications)
    && (d.matchers.None? <==> c.matchers.None?) && (d.notifications.None? <==> c.notifications.None?)
    && AllLike(SameMatcher, Elements(c.matchers), Elements(d.matchers))
    && AllLike(LikeNotification, Elements(c.notifications), Elements(d.notifications))
  }

  lemma MatchersOf(ms: Option<seq<P.Matcher>>, w: Value) returns (r: Option<seq<P.Matcher>>)
    requires Reorders(OptSlice(true, MapOption(ms, MatcherValues)), w)
    ensures w == OptSlice(true, MapOption(r, MatcherValues)) && (r.None? <==> ms.None?)
    ensures AllLike(SameMatcher, Elements(ms), Elements(r))
  {
    r := None;
    if ms.Some? {
      MatchersStay();
      var us := SliceStaysEncoded(ms.value, true, MatcherValues(ms.value), w, MatcherValue, SameMatcher);
      r := Some(us);
      assert w.elems == MatcherValues(us);
    } else {
      assert EachLike(SameMatcher, [], []) && Permutation<P.Matcher>([], []);
    }
  }

  lemma NotificationsOf(ns: Option<seq<P.NotificationView>>, w: Value) returns (r: Option<seq<P.NotificationView>>)
    requires Reorders(OptSlice(true, MapOption(ns, NotificationValues)), w)
    ensures w == OptSlice(true, MapOption(r, NotificationValues)) && (r.None? <==> ns.None?)
    ensures AllLike(LikeNotification, Elements(ns), Elements(r))
  {
    r := None;
    if ns.Some? {
      NotificationsStay();
      var us := SliceStaysEncoded(ns.value, true, NotificationValues(ns.value), w, NotificationValue, LikeNotification);
      r := Some(us);
      assert w.elems == NotificationValues(us);
    } else {
      assert EachLike(LikeNotification, [], []) && Permutation<P.NotificationView>([], []);
    }
  }

  lemma AlertFields(c: P.AlertView, w: Value)
    requires Reorders(AlertValue(c), w)
    ensures w.Struct? && |w.fields| == 5
    ensures var fs := AlertValue(c).fields;
      && w.fields[0] == fs[0] && w.fields[2] == fs[2] && w.fields[4] == fs[4]
      && Reorders(OptSlice(true, MapOption(c.matchers, MatcherValues)), w.fields[1])
      && Reorders(OptSlice(true, MapOption(c.notifications, NotificationValues)), w.fields[3])
  {
    var fs := AlertValue(c).fields;
    TextsFlat([FormatBool(c.enabled), c.eventTypeName, c.severityOverride]);
    OptTextsFlat(MapOption(c.threshold, ThresholdParts));
    OptTextsFlat(MapOption(c.metricThreshold, MetricThresholdParts));
    FlatField(fs, w, 0);
    FlatField(fs, w, 2);
    FlatField(fs, w, 4);
    assert Reorders(fs[1], w.fields[1]) && Reorders(fs[3], w.fields[3]);
  }

  lemma FlatField(fs: seq<Value>, w: Value, i: nat)
    requires Reorders(Struct(fs), w) && i < |fs| && Flat(fs[i])
    ensures w.Struct? && |w.fields| == |fs| && w.fields[i] == fs[i]
  {
    FlatVisits(Shuffle(), fs[i], w.fields[i]);
  }

  lemma AlertReordered(c: P.AlertView, w: Value) returns (d: P.AlertView)
    requires Reorders(AlertValue(c), w)
    ensures w == AlertValue(d) && LikeAlert(c, d)
  {
    AlertFields(c, w);
    var matchers := MatchersOf(c.matchers, w.fields[1]);
    var notifications := NotificationsOf(c.notifications, w.fields[3]);
    d := c.(matchers := matchers, notifications := notifications);
    WithLists(c, d);
    SameFields(w, AlertValue(d));
  }

  lemma WithLists(c: P.AlertView, d: P.AlertView)
    requires d == c.(matchers := d.matchers, notifications := d.notifications)
    ensures AlertValue(d) == Struct(AlertValue(c).fields[
      1 := OptSlice(true, MapOption(d.matchers, MatcherValues))][3 := OptSlice(true, MapOption(d.notifications, NotificationValues))])
  {
  }

  lemma SameFields(v: Value, w: Value)
    requires v.Struct? && w.Struct? && |v.fields| == |w.fields| == 5
    requires v.fields[0] == w.fields[0] && v.fields[1] == w.fields[1] && v.fields[2] == w.fields[2]
    requires v.fields[3] == w.fields[3] && v.fields[4] == w.fields[4]
    ensures v == w
  {
    assert v.fields == w.fields;
  }

  lemma AlertsStay()
    ensures StaysEncoded(AlertValue, LikeAlert)
  {
    forall c, v | Reorders(AlertValue(c), v) ensures EncodesLike(AlertValue, LikeAlert, c, v) {
      var d := AlertReordered(c, v);
    }
  }

  /** `ds` is `cs` reordered, inside and out. */
  ghost predicate LikeAlerts(cs: seq<P.AlertView>, ds: seq<P.AlertView>) {
    AllLike(LikeAlert, cs, ds)
  }

  /** Reordered data of alert configurations are data of reordered configurations. */
  lemma AlertsReordered(cs: seq<P.AlertView>, w: Value) returns (ds: seq<P.AlertView>)
    requires Reorders(AlertsValue(cs), w)
    ensures w == AlertsValue(ds) && LikeAlerts(cs, ds)
  {
    AlertsStay();
    ds := SliceStaysEncoded(cs, true, AlertValues(cs), w, AlertValue, LikeAlert);
    assert w.elems == AlertValues(ds);
  }

  lemma CleanLike(n: P.NotificationView, m: P.NotificationView)
    requires LikeNotification(n, m) && CleanNotification(n)
    ensures CleanNotification(m)
  {
    assert NotificationParts(m) == NotificationParts(n);
    if n.roles.Some? {
      PermutationFacts(m.roles.value, n.roles.value);
      forall i | 0 <= i < |m.roles.value| ensures Clean(m.roles.value[i]) {
        assert m.roles.value[i] in n.roles.value;
        var j :| 0 <= j < |n.roles.value| && n.roles.value[j] == m.roles.value[i];
        assert Clean(Elements(n.roles)[j]);
      }
    }
  }

  lemma CleanAlertLike(c: P.AlertView, d: P.AlertView)
    requires LikeAlert(c, d) && CleanAlert(c)
    ensures CleanAlert(d)
  {
    var ms, ns := Elements(d.matchers), Elements(d.notifications);
    forall i | 0 <= i < |ms| ensures AllClean(MatcherParts(ms[i])) {
      var j := LikeMember(SameMatcher, Elements(c.matchers), ms, i);
      assert Elements(c.matchers)[j] == ms[i];
    }
    forall i | 0 <= i < |ns| ensures CleanNotification(ns[i]) {
      var j := LikeMember(LikeNotification, Elements(c.notifications), ns, i);
      CleanLike(Elements(c.notifications)[j], ns[i]);
    }
  }

  lemma CleanAlertsLike(cs: seq<P.AlertView>, ds: seq<P.AlertView>)
    requires LikeAlerts(cs, ds) && AllCleanAlerts(cs)
    ensures AllCleanAlerts(ds)
  {
    forall j | 0 <= j < |ds| ensures CleanAlert(ds[j]) {
      var i := LikeMember(LikeAlert, cs, ds, j);
      CleanAlertLike(cs[i], ds[j]);
    }
  }
}
