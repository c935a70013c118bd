/** The sort keys of alert configurations (api/v1/alert_configurations.go) and their helpers
    `SliceKey` and `PointerKey` (internal/cmp/sort.go): what a key tells about its configuration. */
module AlertKeys {
  import opened Text
  import P = ProjectRedaction

  // ---- Building keys ----

  /** `strconv.FormatBool`. */
  function FormatBool(b: bool): string {
    if b then "true" else "false"
  }

  function Digit(d: nat): char
    requires d < 10
  {
    "0123456789"[d]
  }

  function Digits(n: nat): string {
    if n < 10 then [Digit(n)] else Digits(n / 10) + [Digit(n % 10)]
  }

  /** `strconv.Itoa`. */
  function Itoa(n: int): string {
    if n < 0 then "-" + Digits(-n) else Digits(n)
  }

  function Elements<T>(o: Option<seq<T>>): seq<T> {
    OrDefault(o, [])
  }

  function SliceKey(keys: seq<string>): string {
    "[" + Join(keys, ',') + "]"
  }

  /** The loop of `SliceKey`: one key per element, in order. */
  method SliceKeyOf<K>(elements: seq<K>, key: K -> string) returns (r: string)
    ensures r == SliceKey(seq(|elements|, i requires 0 <= i < |elements| => key(elements[i])))
  {
    var result := [];
    var i := 0;
    while i < |elements|
      invariant 0 <= i <= |elements|
      invariant result == seq(i, j requires 0 <= j < i => key(elements[j]))
    {
      result := result + [key(elements[i])];
      i := i + 1;
    }
    r := "[" + Join(result, ',') + "]";
  }

  /** `PointerKey`, given the key of the target if there is one. */
  function PointerKey(key: Option<string>): string {
    if key.None? then "nil" else key.value
  }

  function MatcherParts(m: P.Matcher): seq<string> {
    [m.fieldName, m.operator, m.value]
  }

  function MatcherKey(m: P.Matcher): string {
    Join(MatcherParts(m), '|')
  }

  function ThresholdParts(t: P.Threshold): seq<string> {
    [t.operator, t.units, t.threshold]
  }

  function ThresholdKey(t: P.Threshold): string {
    Join(ThresholdParts(t), '|')
  }

  function MetricThresholdParts(m: P.MetricThreshold): seq<string> {
    [m.metricName, m.operator, m.threshold, m.units, m.mode]
  }

  function MetricThresholdKey(m: P.MetricThreshold): string {
    Join(MetricThresholdParts(m), '|')
  }

  /** The parts of a notification key before the roles; the key of a reference is two parts. */
  function NotificationParts(n: P.NotificationView): seq<string> {
    var r := n.routing;
    [r.apiTokenRef.name, r.apiTokenRef.namespace, r.channelName,
     r.datadogAPIKeyRef.name, r.datadogAPIKeyRef.namespace, r.datadogRegion,
     Itoa(OrDefault(n.delayMin, 0)), r.emailAddress, FormatBool(OrDefault(n.emailEnabled, false)),
     r.flowdockAPITokenRef.name, r.flowdockAPITokenRef.namespace, r.flowName,
     Itoa(r.intervalMin), n.secrets.mobileNumber,
     r.opsGenieAPIKeyRef.name, r.opsGenieAPIKeyRef.namespace, r.opsGenieRegion, r.orgName,
     r.serviceKeyRef.name, r.serviceKeyRef.namespace, FormatBool(OrDefault(n.smsEnabled, false)),
     r.teamID, r.teamName, r.typeName, r.username,
     r.victorOpsSecretRef.name, r.victorOpsSecretRef.namespace]
  }

  function NotificationKey(n: P.NotificationView): string {
    Join(NotificationParts(n), '|') + "|" + "[" + Join(Elements(n.roles), ',') + "]"
  }

  function MatcherKeys(ms: seq<P.Matcher>): seq<string> {
    seq(|ms|, i requires 0 <= i < |ms| => MatcherKey(ms[i]))
  }

  function NotificationKeys(ns: seq<P.NotificationView>): seq<string> {
    seq(|ns|, i requires 0 <= i < |ns| => NotificationKey(ns[i]))
  }

  function OptionKey<T>(o: Option<T>, key: T -> string): Option<string> {
    if o.None? then None else Some(key(o.value))
  }

  function Key(c: P.AlertView): string {
    FormatBool(c.enabled) +
    c.eventTypeName + "|" +
    c.severityOverride + "|" +
    SliceKey(MatcherKeys(Elements(c.matchers))) + "|" +
    PointerKey(OptionKey(c.threshold, ThresholdKey)) + "|" +
    SliceKey(NotificationKeys(Elements(c.notifications))) + "|" +
    PointerKey(OptionKey(c.metricThreshold, MetricThresholdKey))
  }

  // ---- What a key shows ----

  /** What the key of a notification shows of it: not the secret tokens, not whether an absent
      number or flag was nil, not nil roles from none (or from one empty role). */
  function ShownNotification(n: P.NotificationView): P.NotificationView {
    P.NotificationView(
      n.routing, P.Secrets("", "", "", n.secrets.mobileNumber, "", "", "", ""),
      Some(OrDefault(n.delayMin, 0)), Some(OrDefault(n.emailEnabled, false)), Some(OrDefault(n.smsEnabled, false)),
      Some(if Elements(n.roles) == [""] then [] else Elements(n.roles)))
  }

  function ShownNotifications(ns: seq<P.NotificationView>): seq<P.NotificationView> {
    seq(|ns|, i requires 0 <= i < |ns| => ShownNotification(ns[i]))
  }

  function Shown(c: P.AlertView): P.AlertView {
    c.(matchers := Some(Elements(c.matchers)), notifications := Some(ShownNotifications(Elements(c.notifications))))
  }

  /** No separator of the key format occurs in the text. */
  predicate Clean(s: string) {
    '|' !in s && ',' !in s && '[' !in s && ']' !in s
  }

  predicate AllClean(parts: seq<string>) {
    forall i :: 0 <= i < |parts| ==> Clean(parts[i])
  }

  predicate CleanNotification(n: P.NotificationView) {
    AllClean(NotificationParts(n)) && AllClean(Elements(n.roles))
  }

  predicate CleanAlert(c: P.AlertView) {
    && Clean(c.eventTypeName) && Clean(c.severityOverride)
    && (forall i :: 0 <= i < |Elements(c.matchers)| ==> AllClean(MatcherParts(Elements(c.matchers)[i])))
    && (c.threshold.Some? ==> AllClean(ThresholdParts(c.threshold.value)))
    && (c.metricThreshold.Some? ==> AllClean(MetricThresholdParts(c.metricThreshold.value)))
    && (forall i :: 0 <= i < |Elements(c.notifications)| ==> CleanNotification(Elements(c.notifications)[i]))
  }

  // ---- Numbers ----

  function DigitValue(c: char): int {
    c as int - '0' as int
  }

  function ValueOf(s: string): int {
    if s == [] then 0 else ValueOf(s[..|s| - 1]) * 10 + DigitValue(s[|s| - 1])
  }

  lemma {:induction false} DigitsHaveValue(n: nat)
    ensures Digits(n) != "" && ValueOf(Digits(n)) == n && '-' !in Digits(n)
  {
    if n >= 10 {
      DigitsHaveValue(n / 10);
      assert Digits(n)[..|Digits(n)| - 1] == Digits(n / 10);
    } else {
      assert Digits(n)[..0] == [];
    }
  }

  lemma {:induction false} ItoaInjective(m: int, n: int)
    requires Itoa(m) == Itoa(n)
    ensures m == n
  {
    DigitsHaveValue(if m < 0 then -m else m);
    DigitsHaveValue(if n < 0 then -n else n);
    assert m < 0 <==> Itoa(m)[0] == '-';
    assert n < 0 <==> Itoa(n)[0] == '-';
    if m < 0 {
      assert Itoa(m)[1..] == Digits(-m) && Itoa(n)[1..] == Digits(-n);
    }
  }

  // ---- Reading keys back ----

  lemma {:induction false} JoinAvoids(parts: seq<string>, sep: char, c: char)
    requires c != sep && Free(parts, c)
    ensures c !in Join(parts, sep)
  {
    if |parts| > 1 {
      JoinAvoids(parts[1..], sep, c);
    }
  }

  /** A key of two or more clean parts shows its parts. */
  lemma PartsShown(p: seq<string>, q: seq<string>)
    requires p != [] && q != [] && AllClean(p) && AllClean(q) && Join(p, '|') == Join(q, '|')
    ensures p == q
  {
    JoinInjective(p, q, '|');
  }

  lemma JoinHasSeparator(p: seq<string>, sep: char)
    requires |p| > 1
    ensures sep in Join(p, sep)
  {
    assert Join(p, sep)[|p[0]|] == sep;
  }

  lemma PointerShown(p: Option<seq<string>>, q: Option<seq<string>>)
    requires p.Some? ==> |p.value| > 1 && AllClean(p.value)
    requires q.Some? ==> |q.value| > 1 && AllClean(q.value)
    requires PointerKey(OptionKey(p, x => Join(x, '|'))) == PointerKey(OptionKey(q, x => Join(x, '|')))
    ensures p == q
  {
    if p.Some? { JoinHasSeparator(p.value, '|'); }
    if q.Some? { JoinHasSeparator(q.value, '|'); }
    if p.Some? && q.Some? {
      PartsShown(p.value, q.value);
    }
  }

  lemma {:induction false} MatchersShown(a: seq<P.Matcher>, b: seq<P.Matcher>)
    requires forall i :: 0 <= i < |a| ==> AllClean(MatcherParts(a[i]))
    requires forall i :: 0 <= i < |b| ==> AllClean(MatcherParts(b[i]))
    requires Join(MatcherKeys(a), ',') == Join(MatcherKeys(b), ',')
    ensures a == b
  {
    MatcherKeysClean(a);
    MatcherKeysClean(b);
    if a != [] && b != [] {
      JoinInjective(MatcherKeys(a), MatcherKeys(b), ',');
      forall i | 0 <= i < |a| ensures a[i] == b[i] {
        assert MatcherKeys(a)[i] == MatcherKey(a[i]) && MatcherKeys(b)[i] == MatcherKey(b[i]);
        PartsShown(MatcherParts(a[i]), MatcherParts(b[i]));
        assert MatcherParts(a[i])[0] == a[i].fieldName && MatcherParts(a[i])[1] == a[i].operator && MatcherParts(a[i])[2] == a[i].value;
        assert MatcherParts(b[i])[0] == b[i].fieldName && MatcherParts(b[i])[1] == b[i].operator && MatcherParts(b[i])[2] == b[i].value;
      }
    }
  }

  lemma {:induction false} MatcherKeysClean(a: seq<P.Matcher>)
    requires forall i :: 0 <= i < |a| ==> AllClean(MatcherParts(a[i]))
    ensures Free(MatcherKeys(a), ',') && ']' !in Join(MatcherKeys(a), ',')
    ensures a != [] ==> Join(MatcherKeys(a), ',') != ""
  {
    var keys := MatcherKeys(a);
    forall i | 0 <= i < |a| ensures ',' !in keys[i] && ']' !in keys[i] && keys[i] != "" {
      JoinAvoids(MatcherParts(a[i]), '|', ',');
      JoinAvoids(MatcherParts(a[i]), '|', ']');
      JoinHasSeparator(MatcherParts(a[i]), '|');
    }
    JoinAvoids(keys, ',', ']');
    if a != [] {
      assert keys[0] != "";
    }
  }

  lemma {:induction false} RolesShown(a: seq<string>, b: seq<string>)
    requires AllClean(a) && AllClean(b) && Join(a, ',') == Join(b, ',')
    ensures (if a == [""] then [] else a) == (if b == [""] then [] else b)
  {
    assert a == [""] || a == [] || Join(a, ',') != "" by {
      if |a| > 1 { JoinHasSeparator(a, ','); }
    }
    assert b == [""] || b == [] || Join(b, ',') != "" by {
      if |b| > 1 { JoinHasSeparator(b, ','); }
    }
    if a != [] && b != [] {
      JoinInjective(a, b, ',');
    }
  }

  lemma {:induction false} NotificationPartsShow(a: P.NotificationView, b: P.NotificationView)
    requires NotificationParts(a) == NotificationParts(b)
    ensures a.routing == b.routing && a.secrets.mobileNumber == b.secrets.mobileNumber
    ensures OrDefault(a.delayMin, 0) == OrDefault(b.delayMin, 0)
    ensures OrDefault(a.emailEnabled, false) == OrDefault(b.emailEnabled, false)
    ensures OrDefault(a.smsEnabled, false) == OrDefault(b.smsEnabled, false)
  {
    var p, q := NotificationParts(a), NotificationParts(b);
    assert p[0] == q[0] && p[1] == q[1] && p[2] == q[2] && p[3] == q[3] && p[4] == q[4] && p[5] == q[5] && p[6] == q[6];
    assert p[7] == q[7] && p[8] == q[8] && p[9] == q[9] && p[10] == q[10] && p[11] == q[11] && p[12] == q[12] && p[13] == q[13];
    assert p[14] == q[14] && p[15] == q[15] && p[16] == q[16] && p[17] == q[17] && p[18] == q[18] && p[19] == q[19];
    assert p[20] == q[20] && p[21] == q[21] && p[22] == q[22] && p[23] == q[23] && p[24] == q[24] && p[25] == q[25] && p[26] == q[26];
    ItoaInjective(OrDefault(a.delayMin, 0), OrDefault(b.delayMin, 0));
    ItoaInjective(a.routing.intervalMin, b.routing.intervalMin);
  }

  /** The parts before the roles, the roles, and what follows a notification key. */
  lemma NotificationCut(p: seq<string>, q: seq<string>, r: seq<string>, t: seq<string>, x: string, y: string)
    requires p != [] && q != [] && AllClean(p) && AllClean(q) && AllClean(r) && AllClean(t)
    requires Join(p, '|') + "|" + "[" + Join(r, ',') + "]" + x == Join(q, '|') + "|" + "[" + Join(t, ',') + "]" + y
    ensures p == q && Join(r, ',') == Join(t, ',') && x == y
  {
    var hp, hq, jr, jt := Join(p, '|') + "|", Join(q, '|') + "|", Join(r, ','), Join(t, ',');
    JoinAvoids(p, '|', '[');
    JoinAvoids(q, '|', '[');
    Assoc(hp + "[" + jr, "]", x);
    Assoc(hp + "[", jr, "]" + x);
    Assoc(hq + "[" + jt, "]", y);
    Assoc(hq + "[", jt, "]" + y);
    Assoc(jr, "]", x);
    Assoc(jt, "]", y);
    FirstSeparator(hp, hq, jr + "]" + x, jt + "]" + y, '[');
    JoinAvoids(r, ',', ']');
    JoinAvoids(t, ',', ']');
    FirstSeparator(jr, jt, x, y, ']');
    assert Join(p, '|') == hp[..|hp| - 1] && Join(q, '|') == hq[..|hq| - 1];
    PartsShown(p, q);
  }

  lemma NotificationKeyParts(n: P.NotificationView, x: string)
    ensures NotificationKey(n) + x == Join(NotificationParts(n), '|') + "|" + "[" + Join(Elements(n.roles), ',') + "]" + x
  {
    var h, r := Join(NotificationParts(n), '|') + "|", Join(Elements(n.roles), ',');
    Assoc(h, "[" + r, "]");
    Assoc(h, "[", r);
  }

  /** A notification key followed by anything shows its notification and what follows. */
  lemma {:induction false} NotificationShown(a: P.NotificationView, b: P.NotificationView, x: string, y: string)
    requires CleanNotification(a) && CleanNotification(b)
    requires NotificationKey(a) + x == NotificationKey(b) + y
    ensures ShownNotification(a) == ShownNotification(b) && x == y
  {
    NotificationKeyParts(a, x);
    NotificationKeyParts(b, y);
    NotificationCut(NotificationParts(a), NotificationParts(b), Elements(a.roles), Elements(b.roles), x, y);
    RolesShown(Elements(a.roles), Elements(b.roles));
    NotificationPartsShow(a, b);
  }

  /** The body of a notification slice key, up to its closing bracket and what follows. */
  function SliceBody(ns: seq<P.NotificationView>, rest: string): string {
    Join(NotificationKeys(ns), ',') + "]" + rest
  }

  /** The separator after the first notification of a slice, and the rest of the key. */
  function AfterFirst(ns: seq<P.NotificationView>, rest: string): string
    requires ns != []
  {
    if |ns| == 1 then "]" + rest else "," + SliceBody(ns[1..], rest)
  }

  lemma {:induction false} SliceBodyUnfolds(ns: seq<P.NotificationView>, rest: string)
    requires ns != []
    ensures SliceBody(ns, rest) == NotificationKey(ns[0]) + AfterFirst(ns, rest)
  {
    var keys := NotificationKeys(ns);
    var first, body := keys[0], Join(keys[1..], ',');
    assert keys[1..] == NotificationKeys(ns[1..]);
    if |ns| > 1 {
      Assoc(first + [','] + body, "]", rest);
      Assoc(first + ",", body, "]" + rest);
      Assoc(first, ",", body + ("]" + rest));
      Assoc(body, "]", rest);
    } else {
      Assoc(first, "]", rest);
    }
  }

  /** A notification key does not start with a closing bracket. */
  lemma KeyStart(n: P.NotificationView, x: string)
    requires CleanNotification(n)
    ensures NotificationKey(n) + x != "" && (NotificationKey(n) + x)[0] != ']'
  {
    var p := NotificationParts(n);
    JoinAvoids(p, '|', ']');
    JoinHasSeparator(p, '|');
    assert (NotificationKey(n) + x)[0] == Join(p, '|')[0];
  }

  /** The body of a slice starts with the closing bracket exactly when the slice is empty. */
  lemma {:induction false} SliceBodyStart(ns: seq<P.NotificationView>, rest: string)
    requires forall i :: 0 <= i < |ns| ==> CleanNotification(ns[i])
    ensures SliceBody(ns, rest) != "" && (SliceBody(ns, rest)[0] == ']' <==> ns == [])
  {
    if ns != [] {
      SliceBodyUnfolds(ns, rest);
      KeyStart(ns[0], AfterFirst(ns, rest));
    }
  }

  lemma {:induction false} NotificationsShown(a: seq<P.NotificationView>, b: seq<P.NotificationView>, x: string, y: string)
    requires forall i :: 0 <= i < |a| ==> CleanNotification(a[i])
    requires forall i :: 0 <= i < |b| ==> CleanNotification(b[i])
    requires SliceBody(a, x) == SliceBody(b, y)
    ensures ShownNotifications(a) == ShownNotifications(b) && x == y
    decreases |a|
  {
    if a == [] && b == [] {
      assert SliceBody(a, x)[1..] == x && SliceBody(b, y)[1..] == y;
    } else if a == [] {
      SliceBodyStart(a, x);
      SliceBodyStart(b, y);
    } else if b == [] {
      SliceBodyStart(a, x);
      SliceBodyStart(b, y);
    } else {
      SliceBodyUnfolds(a, x);
      SliceBodyUnfolds(b, y);
      NotificationShown(a[0], b[0], AfterFirst(a, x), AfterFirst(b, y));
      assert AfterFirst(a, x)[0] == AfterFirst(b, y)[0];
      if |a| == 1 {
        assert AfterFirst(a, x)[1..] == x && AfterFirst(b, y)[1..] == y;
      } else {
        assert AfterFirst(a, x)[1..] == SliceBody(a[1..], x) && AfterFirst(b, y)[1..] == SliceBody(b[1..], y);
        NotificationsShown(a[1..], b[1..], x, y);
        ShownNotificationsCons(a);
        ShownNotificationsCons(b);
      }
    }
  }

  lemma ShownNotificationsCons(ns: seq<P.NotificationView>)
    requires ns != []
    ensures ShownNotifications(ns) == [ShownNotification(ns[0])] + ShownNotifications(ns[1..])
  {
  }

  // ---- The whole key ----

  lemma NotificationKeyOfShown(n: P.NotificationView)
    ensures NotificationKey(ShownNotification(n)) == NotificationKey(n)
  {
    assert NotificationParts(ShownNotification(n)) == NotificationParts(n);
    assert Join([""], ',') == "" && Join([], ',') == "";
  }

  /** The key of what is shown is the key: nothing else of the configuration enters it. */
  lemma KeyOfShown(c: P.AlertView)
    ensures Key(Shown(c)) == Key(c)
  {
    var ns := Elements(c.notifications);
    forall i | 0 <= i < |ns| ensures NotificationKey(ShownNotification(ns[i])) == NotificationKey(ns[i]) {
      NotificationKeyOfShown(ns[i]);
    }
    assert NotificationKeys(ShownNotifications(ns)) == NotificationKeys(ns);
  }

  function AfterThreshold(c: P.AlertView): string {
    SliceBody(Elements(c.notifications), "|" + PointerKey(OptionKey(c.metricThreshold, MetricThresholdKey)))
  }

  function AfterMatchers(c: P.AlertView): string {
    PointerKey(OptionKey(c.threshold, ThresholdKey)) + "|" + ("[" + AfterThreshold(c))
  }

  function AfterSeverity(c: P.AlertView): string {
    SliceKey(MatcherKeys(Elements(c.matchers))) + ("|" + AfterMatchers(c))
  }

  lemma Assoc(a: string, b: string, c: string)
    ensures (a + b) + c == a + (b + c)
  {
  }

  lemma BracketsAssoc(body: string, rest: string)
    ensures ("[" + body + "]") + rest == "[" + (body + "]" + rest)
  {
    Assoc("[", body, "]");
    Assoc("[", body + "]", rest);
  }

  /** The seven parts of a key, grouped from the right. */
  lemma SevenParts(e: string, s: string, m: string, t: string, n: string, q: string)
    ensures e + "|" + s + "|" + m + "|" + t + "|" + n + "|" + q
      == e + "|" + (s + "|" + (m + ("|" + (t + "|" + (n + ("|" + q))))))
  {
    var r := "|" + q;
    Assoc(e + "|" + s + "|" + m + "|" + t + "|" + n, "|", q);
    Assoc(e + "|" + s + "|" + m + "|" + t + "|", n, r);
    Assoc(e + "|" + s + "|" + m + "|" + t, "|", n + r);
    Assoc(e + "|" + s + "|" + m + "|", t, "|" + (n + r));
    Assoc(t, "|", n + r);
    Assoc(e + "|" + s + "|" + m, "|", t + "|" + (n + r));
    Assoc(e + "|" + s + "|", m, "|" + (t + "|" + (n + r)));
    Assoc(e + "|" + s, "|", m + ("|" + (t + "|" + (n + r))));
    Assoc(e + "|", s, "|" + (m + ("|" + (t + "|" + (n + r)))));
    Assoc(s, "|", m + ("|" + (t + "|" + (n + r))));
  }

  lemma KeyUnfolds(c: P.AlertView)
    ensures Key(c) == FirstPart(c) + "|" + (c.severityOverride + "|" + AfterSeverity(c))
  {
    var m, n := Join(MatcherKeys(Elements(c.matchers)), ','), Join(NotificationKeys(Elements(c.notifications)), ',');
    var t, q := PointerKey(OptionKey(c.threshold, ThresholdKey)), PointerKey(OptionKey(c.metricThreshold, MetricThresholdKey));
    var e, s := FormatBool(c.enabled) + c.eventTypeName, c.severityOverride;
    SevenParts(e, s, "[" + m + "]", t, "[" + n + "]", q);
    BracketsAssoc(n, "|" + q);
    assert AfterThreshold(c) == n + "]" + ("|" + q);
    assert AfterMatchers(c) == t + "|" + ("[" + n + "]" + ("|" + q));
  }

  lemma FirstPartShown(a: P.AlertView, b: P.AlertView)
    requires FirstPart(a) == FirstPart(b)
    ensures a.enabled == b.enabled && a.eventTypeName == b.eventTypeName
  {
    assert (FormatBool(a.enabled) + a.eventTypeName)[0] == FormatBool(a.enabled)[0];
    assert (FormatBool(b.enabled) + b.eventTypeName)[0] == FormatBool(b.enabled)[0];
    var k := |FormatBool(a.enabled)|;
    assert (FormatBool(a.enabled) + a.eventTypeName)[k..] == a.eventTypeName;
    assert (FormatBool(b.enabled) + b.eventTypeName)[k..] == b.eventTypeName;
  }

  lemma PointerAvoids(parts: Option<seq<string>>, c: char)
    requires c == '[' && (parts.Some? ==> AllClean(parts.value))
    ensures c !in PointerKey(OptionKey(parts, x => Join(x, '|')))
  {
    if parts.Some? { JoinAvoids(parts.value, '|', c); }
  }

  lemma ThresholdShown(a: Option<P.Threshold>, b: Option<P.Threshold>)
    requires a.Some? ==> AllClean(ThresholdParts(a.value))
    requires b.Some? ==> AllClean(ThresholdParts(b.value))
    ensures '[' !in PointerKey(OptionKey(a, ThresholdKey))
    ensures PointerKey(OptionKey(a, ThresholdKey)) == PointerKey(OptionKey(b, ThresholdKey)) ==> a == b
  {
    var p, q := OptionParts(a, ThresholdParts), OptionParts(b, ThresholdParts);
    PointerAvoids(p, '[');
    if PointerKey(OptionKey(a, ThresholdKey)) == PointerKey(OptionKey(b, ThresholdKey)) {
      PointerShown(p, q);
      if a.Some? {
        var s, t := p.value, q.value;
        assert s[0] == t[0] && s[1] == t[1] && s[2] == t[2];
      }
    }
  }

  function OptionParts<T>(o: Option<T>, parts: T -> seq<string>): Option<seq<string>> {
    if o.None? then None else Some(parts(o.value))
  }

  lemma MetricThresholdShown(a: Option<P.MetricThreshold>, b: Option<P.MetricThreshold>)
    requires a.Some? ==> AllClean(MetricThresholdParts(a.value))
    requires b.Some? ==> AllClean(MetricThresholdParts(b.value))
    requires PointerKey(OptionKey(a, MetricThresholdKey)) == PointerKey(OptionKey(b, MetricThresholdKey))
    ensures a == b
  {
    var p, q := OptionParts(a, MetricThresholdParts), OptionParts(b, MetricThresholdParts);
    PointerShown(p, q);
    if a.Some? {
      var s, t := p.value, q.value;
      assert s[0] == t[0] && s[1] == t[1] && s[2] == t[2] && s[3] == t[3] && s[4] == t[4];
    }
  }

  /** Two configurations whose texts hold no separators have the same key exactly when they are the
      same in everything a key shows. */
  lemma SameKeyIffSameShown(a: P.AlertView, b: P.AlertView)
    requires CleanAlert(a) && CleanAlert(b)
    ensures Key(a) == Key(b) <==> Shown(a) == Shown(b)
  {
    if Shown(a) == Shown(b) {
      KeyOfShown(a);
      KeyOfShown(b);
    }
    if Key(a) == Key(b) {
      KeyShows(a, b);
    }
  }

  lemma KeyShows(a: P.AlertView, b: P.AlertView)
    requires CleanAlert(a) && CleanAlert(b) && Key(a) == Key(b)
    ensures Shown(a) == Shown(b)
  {
    KeyStartShown(a, b);
    AfterSeverityShown(a, b);
    SameShown(a, b);
  }

  function FirstPart(c: P.AlertView): string {
    FormatBool(c.enabled) + c.eventTypeName
  }

  lemma FirstPartsFree(c: P.AlertView)
    requires CleanAlert(c)
    ensures '|' !in FirstPart(c) && '|' !in c.severityOverride
  {
  }

  lemma KeyStartShown(a: P.AlertView, b: P.AlertView)
    requires CleanAlert(a) && CleanAlert(b) && Key(a) == Key(b)
    ensures a.enabled == b.enabled && a.eventTypeName == b.eventTypeName && a.severityOverride == b.severityOverride
    ensures AfterSeverity(a) == AfterSeverity(b)
  {
    KeyUnfolds(a);
    KeyUnfolds(b);
    FirstPartsFree(a);
    FirstPartsFree(b);
    TwoPartsShown(FirstPart(a), FirstPart(b), a.severityOverride, b.severityOverride, AfterSeverity(a), AfterSeverity(b));
    FirstPartShown(a, b);
  }

  lemma SameShown(a: P.AlertView, b: P.AlertView)
    requires a.enabled == b.enabled && a.eventTypeName == b.eventTypeName && a.severityOverride == b.severityOverride
    requires Elements(a.matchers) == Elements(b.matchers) && a.threshold == b.threshold
    requires a.metricThreshold == b.metricThreshold
    requires ShownNotifications(Elements(a.notifications)) == ShownNotifications(Elements(b.notifications))
    ensures Shown(a) == Shown(b)
  {
  }

  lemma TwoPartsShown(a: string, b: string, s: string, t: string, x: string, y: string)
    requires '|' !in a && '|' !in b && '|' !in s && '|' !in t
    requires a + "|" + (s + "|" + x) == b + "|" + (t + "|" + y)
    ensures a == b && s == t && x == y
  {
    FirstSeparator(a, b, s + "|" + x, t + "|" + y, '|');
    FirstSeparator(s, t, x, y, '|');
  }

  lemma AfterSeverityShown(a: P.AlertView, b: P.AlertView)
    requires CleanAlert(a) && CleanAlert(b) && AfterSeverity(a) == AfterSeverity(b)
    ensures Elements(a.matchers) == Elements(b.matchers) && a.threshold == b.threshold
    ensures a.metricThreshold == b.metricThreshold
    ensures ShownNotifications(Elements(a.notifications)) == ShownNotifications(Elements(b.notifications))
  {
    var ma, mb := Join(MatcherKeys(Elements(a.matchers)), ','), Join(MatcherKeys(Elements(b.matchers)), ',');
    var ra, rb := "|" + AfterMatchers(a), "|" + AfterMatchers(b);
    MatcherKeysClean(Elements(a.matchers));
    MatcherKeysClean(Elements(b.matchers));
    BracketsAssoc(ma, ra);
    BracketsAssoc(mb, rb);
    DropFirst('[', ma + "]" + ra, mb + "]" + rb);
    FirstSeparator(ma, mb, ra, rb, ']');
    MatchersShown(Elements(a.matchers), Elements(b.matchers));
    DropFirst('|', AfterMatchers(a), AfterMatchers(b));
    AfterMatchersShown(a, b);
  }

  lemma DropFirst(c: char, x: string, y: string)
    requires [c] + x == [c] + y
    ensures x == y
  {
    assert ([c] + x)[1..] == x && ([c] + y)[1..] == y;
  }

  lemma AfterMatchersShown(a: P.AlertView, b: P.AlertView)
    requires CleanAlert(a) && CleanAlert(b) && AfterMatchers(a) == AfterMatchers(b)
    ensures a.threshold == b.threshold && a.metricThreshold == b.metricThreshold
    ensures ShownNotifications(Elements(a.notifications)) == ShownNotifications(Elements(b.notifications))
  {
    var ta, tb := PointerKey(OptionKey(a.threshold, ThresholdKey)), PointerKey(OptionKey(b.threshold, ThresholdKey));
    var qa := PointerKey(OptionKey(a.metricThreshold, MetricThresholdKey));
    var qb := PointerKey(OptionKey(b.metricThreshold, MetricThresholdKey));
    ThresholdShown(a.threshold, b.threshold);
    ThresholdShown(b.threshold, a.threshold);
    Assoc(ta + "|", "[", AfterThreshold(a));
    Assoc(tb + "|", "[", AfterThreshold(b));
    FirstSeparator(ta + "|", tb + "|", AfterThreshold(a), AfterThreshold(b), '[');
    assert (ta + "|")[..|ta|] == ta && (tb + "|")[..|tb|] == tb;
    NotificationsShown(Elements(a.notifications), Elements(b.notifications), "|" + qa, "|" + qb);
    assert ("|" + qa)[1..] == qa && ("|" + qb)[1..] == qb;
    MetricThresholdShown(a.metricThreshold, b.metricThreshold);
  }

  /** Without notifications only nil and empty matcher or notification lists are confused. */
  lemma KeysWithoutNotifications(a: P.AlertView, b: P.AlertView)
    requires CleanAlert(a) && CleanAlert(b)
    requires Elements(a.notifications) == [] && Elements(b.notifications) == []
    ensures Key(a) == Key(b) <==>
      a.(matchers := Some(Elements(a.matchers)), notifications := None) == b.(matchers := Some(Elements(b.matchers)), notifications := None)
  {
    SameKeyIffSameShown(a, b);
    assert ShownNotifications([]) == [];
  }

  /** A notification whose texts hold no bar shares its key with one that shows otherwise exactly
      when there is a comma between or in its roles: the roles can be cut elsewhere. */
  lemma NotificationKeyUniqueIff(n: P.NotificationView)
    requires Free(NotificationParts(n), '|') && Free(Elements(n.roles), '|')
    ensures (forall m :: NotificationKey(m) == NotificationKey(n) ==> ShownNotification(m) == ShownNotification(n)) <==>
      ',' !in Join(Elements(n.roles), ',')
  {
    var roles := Join(Elements(n.roles), ',');
    if ',' !in roles {
      forall m | NotificationKey(m) == NotificationKey(n) ensures ShownNotification(m) == ShownNotification(n) {
        SameKeyWithoutBars(m, n);
        OneRole(Elements(m.roles), roles);
        OneRole(Elements(n.roles), roles);
      }
    } else {
      var m := RolesCutElsewhere(n);
    }
  }

  function RolesText(n: P.NotificationView): string {
    "[" + Join(Elements(n.roles), ',') + "]"
  }

  lemma KeyIsJoin(n: P.NotificationView)
    ensures NotificationKey(n) == Join(NotificationParts(n) + [RolesText(n)], '|')
  {
    JoinAppend(NotificationParts(n), RolesText(n), '|');
  }

  /** With no bar in the texts of `n`, any notification with its key agrees with it up to the roles,
      and their roles join to one text. */
  lemma SameKeyWithoutBars(m: P.NotificationView, n: P.NotificationView)
    requires Free(NotificationParts(n), '|') && Free(Elements(n.roles), '|') && NotificationKey(m) == NotificationKey(n)
    ensures ShownNotification(m).(roles := None) == ShownNotification(n).(roles := None)
    ensures Join(Elements(m.roles), ',') == Join(Elements(n.roles), ',')
  {
    KeyIsJoin(m);
    KeyIsJoin(n);
    var p, q := NotificationParts(m) + [RolesText(m)], NotificationParts(n) + [RolesText(n)];
    JoinAvoids(Elements(n.roles), ',', '|');
    CountOfJoin(q, '|');
    CountOfJoin(p, '|');
    JoinInjective(p, q, '|');
    assert NotificationParts(m) == p[..|p| - 1] && NotificationParts(n) == q[..|q| - 1];
    NotificationPartsShow(m, n);
    assert RolesText(m) == p[|p| - 1] && RolesText(n) == q[|q| - 1];
    BracketsShow(Join(Elements(m.roles), ','), Join(Elements(n.roles), ','));
  }

  lemma BracketsShow(a: string, b: string)
    requires "[" + a + "]" == "[" + b + "]"
    ensures a == b
  {
    assert ("[" + a + "]")[1..|a| + 1] == a && ("[" + b + "]")[1..|b| + 1] == b;
  }

  /** Roles that join to a text without commas are that one role, or none. */
  lemma OneRole(roles: seq<string>, text: string)
    requires Join(roles, ',') == text && ',' !in text
    ensures (if roles == [""] then [] else roles) == if text == "" then [] else [text]
  {
    if |roles| > 1 {
      JoinHasSeparator(roles, ',');
    } else if |roles| == 1 {
      assert roles == [text];
    }
  }

  /** Another notification with the same key, whose roles are cut elsewhere. */
  lemma RolesCutElsewhere(n: P.NotificationView) returns (m: P.NotificationView)
    requires ',' in Join(Elements(n.roles), ',')
    ensures NotificationKey(m) == NotificationKey(n) && ShownNotification(m) != ShownNotification(n)
  {
    var roles := Elements(n.roles);
    var others := if |roles| > 1 then [Join(roles, ',')] else Split(roles[0], ',');
    if |roles| == 1 {
      JoinOfSplit(roles[0], ',');
      CountAbsent(roles[0], ',');
      assert |others| >= 2;
    }
    m := n.(roles := Some(others));
    assert Join(others, ',') == Join(roles, ',');
    assert NotificationParts(m) == NotificationParts(n);
    assert others != roles && others != [""] && roles != [""];
  }

  /** A matcher's key is the key of no other matcher exactly when none of its texts holds a bar. */
  lemma MatcherKeyUniqueIff(m: P.Matcher)
    ensures (forall n :: MatcherKey(n) == MatcherKey(m) ==> n == m) <==> Free(MatcherParts(m), '|')
  {
    var p := MatcherParts(m);
    JoinUniqueIff(p, '|');
    if forall n :: MatcherKey(n) == MatcherKey(m) ==> n == m {
      forall q: seq<string> | |q| == |p| && Join(q, '|') == Join(p, '|') ensures q == p {
        var n := P.Matcher(q[0], q[1], q[2]);
        assert q == MatcherParts(n) && MatcherKey(n) == MatcherKey(m);
      }
    }
    if Free(p, '|') {
      forall n | MatcherKey(n) == MatcherKey(m) ensures n == m {
        var q := MatcherParts(n);
        assert |q| == |p| && q == p;
        assert q[0] == p[0] && q[1] == p[1] && q[2] == p[2];
      }
    }
  }

  lemma {:induction false} BarsInMatcherKeys(ms: seq<P.Matcher>)
    ensures Count(Join(MatcherKeys(ms), ','), '|') >= 2 * |ms|
  {
    if ms != [] {
      var keys := MatcherKeys(ms);
      CountOfJoin(MatcherParts(ms[0]), '|');
      if |ms| > 1 {
        BarsInMatcherKeys(ms[1..]);
        assert keys[1..] == MatcherKeys(ms[1..]);
        CountConcat(keys[0] + [','], Join(keys[1..], ','), '|');
        CountConcat(keys[0], [','], '|');
      }
    }
  }

  /** Two matchers share the key of one whose value swallows the second. */
  lemma MergedMatchers(ms: seq<P.Matcher>) returns (ns: seq<P.Matcher>)
    requires |ms| >= 2
    ensures |ns| == |ms| - 1 && SliceKey(MatcherKeys(ns)) == SliceKey(MatcherKeys(ms))
  {
    var m := ms[0];
    var merged := P.Matcher(m.fieldName, m.operator, m.value + "," + MatcherKey(ms[1]));
    ns := [merged] + ms[2..];
    var keys := MatcherKeys(ms);
    MergeParts(keys, 0, ',');
    assert MatcherKey(merged) == MatcherKey(m) + "," + MatcherKey(ms[1]) by {
      MatcherKeyIs(merged);
      MatcherKeyIs(m);
    }
    assert keys[..0] + [keys[0] + [','] + keys[1]] + keys[2..] == MatcherKeys(ns);
  }

  lemma MatcherKeyIs(m: P.Matcher)
    ensures MatcherKey(m) == m.fieldName + "|" + m.operator + "|" + m.value
  {
    var p := MatcherParts(m);
    assert p[1..] == [m.operator, m.value] && p[1..][1..] == [m.value];
    assert Join(p[1..], '|') == m.operator + "|" + m.value;
    assert m.fieldName + "|" + (m.operator + "|" + m.value) == m.fieldName + "|" + m.operator + "|" + m.value;
  }

  /** The key of a list of matchers is the key of no other list exactly when there is at most one
      matcher, without bars in its texts. */
  lemma MatcherListKeyUniqueIff(ms: seq<P.Matcher>)
    ensures (forall ns :: SliceKey(MatcherKeys(ns)) == SliceKey(MatcherKeys(ms)) ==> ns == ms) <==>
      ms == [] || (|ms| == 1 && Free(MatcherParts(ms[0]), '|'))
  {
    if |ms| >= 2 {
      var ns := MergedMatchers(ms);
    } else {
      forall ns | SliceKey(MatcherKeys(ns)) == SliceKey(MatcherKeys(ms)) && (ms == [] || Free(MatcherParts(ms[0]), '|')) ensures ns == ms {
        BracketsShow(Join(MatcherKeys(ns), ','), Join(MatcherKeys(ms), ','));
        BarsInMatcherKeys(ns);
        if |ms| == 1 { CountOfJoin(MatcherParts(ms[0]), '|'); }
        OneMatcherShown(ns, ms);
      }
      if |ms| == 1 && !Free(MatcherParts(ms[0]), '|') {
        MatcherKeyUniqueIff(ms[0]);
        var n :| MatcherKey(n) == MatcherKey(ms[0]) && n != ms[0];
        assert MatcherKeys([n]) == MatcherKeys(ms) && [n][0] != ms[0];
      }
    }
  }

  lemma OneMatcherShown(ns: seq<P.Matcher>, ms: seq<P.Matcher>)
    requires |ns| <= |ms| <= 1 && Join(MatcherKeys(ns), ',') == Join(MatcherKeys(ms), ',')
    requires ms != [] ==> Free(MatcherParts(ms[0]), '|')
    ensures ns == ms
  {
    if |ms| == 1 {
      CountOfJoin(MatcherParts(ms[0]), '|');
      if |ns| == 1 {
        MatcherKeyUniqueIff(ms[0]);
        assert MatcherKey(ns[0]) == MatcherKey(ms[0]);
      }
    }
  }

  /** The same for thresholds, which have three texts, */
  lemma ThresholdKeyUniqueIff(t: P.Threshold)
    ensures (forall u :: ThresholdKey(u) == ThresholdKey(t) ==> u == t) <==> Free(ThresholdParts(t), '|')
  {
    var p := ThresholdParts(t);
    JoinUniqueIff(p, '|');
    if forall u :: ThresholdKey(u) == ThresholdKey(t) ==> u == t {
      forall q: seq<string> | |q| == |p| && Join(q, '|') == Join(p, '|') ensures q == p {
        var u := P.Threshold(q[0], q[1], q[2]);
        assert q == ThresholdParts(u) && ThresholdKey(u) == ThresholdKey(t);
      }
    }
    if Free(p, '|') {
      forall u | ThresholdKey(u) == ThresholdKey(t) ensures u == t {
        var q := ThresholdParts(u);
        assert |q| == |p| && q == p;
        assert q[0] == p[0] && q[1] == p[1] && q[2] == p[2];
      }
    }
  }

  /** and for metric thresholds, which have five. */
  lemma MetricThresholdKeyUniqueIff(t: P.MetricThreshold)
    ensures (forall u :: MetricThresholdKey(u) == MetricThresholdKey(t) ==> u == t) <==> Free(MetricThresholdParts(t), '|')
  {
    var p := MetricThresholdParts(t);
    JoinUniqueIff(p, '|');
    if forall u :: MetricThresholdKey(u) == MetricThresholdKey(t) ==> u == t {
      forall q: seq<string> | |q| == |p| && Join(q, '|') == Join(p, '|') ensures q == p {
        var u := P.MetricThreshold(q[0], q[1], q[2], q[3], q[4]);
        assert q == MetricThresholdParts(u) && MetricThresholdKey(u) == MetricThresholdKey(t);
      }
    }
    if Free(p, '|') {
      forall u | MetricThresholdKey(u) == MetricThresholdKey(t) ensures u == t {
        var q := MetricThresholdParts(u);
        assert |q| == |p| && q == p;
        assert q[0] == p[0] && q[1] == p[1] && q[2] == p[2] && q[3] == p[3] && q[4] == p[4];
      }
    }
  }
}
