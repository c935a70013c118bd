/** The keys of alert configurations written out field by field (api/v1/alert_configurations.go), and
    what two configurations that show the same agree in. */
module KeyTexts {
  import opened AlertKeys
  import opened Common
  import opened Text
  import P = ProjectRedaction

  /** The key of a reference (api/v1/common/common.go). */
  function RefKey(r: ResourceRef): string {
    r.name + "|" + r.namespace
  }

  lemma JoinTwo(a: string, b: string)
    ensures Join([a, b], '|') == a + "|" + b
  {
    assert [a, b][1..] == [b];
  }

  lemma JoinFirst(a: string, rest: seq<string>)
    requires rest != []
    ensures Join([a] + rest, '|') == a + "|" + Join(rest, '|')
  {
    assert ([a] + rest)[1..] == rest;
  }

  lemma Regroup(a: string, b: string, c: string)
    ensures a + "|" + (b + "|" + c) == a + "|" + b + "|" + c
  {
  }

  lemma JoinThree(a: string, b: string, c: string)
    ensures Join([a, b, c], '|') == a + "|" + b + "|" + c
  {
    JoinTwo(b, c);
    JoinFirst(a, [b, c]);
    assert [a] + [b, c] == [a, b, c];
    Regroup(a, b, c);
  }

  lemma {:induction false} JoinParts(p: seq<string>, q: seq<string>)
    requires p != [] && q != []
    ensures Join(p + q, '|') == Join(p, '|') + "|" + Join(q, '|')
  {
    if |p| == 1 {
      JoinFirst(p[0], q);
      assert p == [p[0]];
    } else {
      JoinParts(p[1..], q);
      assert p + q == [p[0]] + (p[1..] + q) && p == [p[0]] + p[1..];
      JoinFirst(p[0], p[1..] + q);
      JoinFirst(p[0], p[1..]);
      Regroup(p[0], Join(p[1..], '|'), Join(q, '|'));
    }
  }

  lemma ThresholdKeyIs(t: P.Threshold)
    ensures ThresholdKey(t) == t.operator + "|" + t.units + "|" + t.threshold
  {
    JoinThree(t.operator, t.units, t.threshold);
  }

  lemma MetricThresholdKeyIs(m: P.MetricThreshold)
    ensures MetricThresholdKey(m) == m.metricName + "|" + m.operator + "|" + m.threshold + "|" + (m.units + "|" + m.mode)
  {
    JoinThree(m.metricName, m.operator, m.threshold);
    JoinTwo(m.units, m.mode);
    JoinParts([m.metricName, m.operator, m.threshold], [m.units, m.mode]);
    assert MetricThresholdParts(m) == [m.metricName, m.operator, m.threshold] + [m.units, m.mode];
  }

  /** A reference and a text after it. */
  lemma JoinRef(r: ResourceRef, text: string)
    ensures Join([r.name, r.namespace, text], '|') == RefKey(r) + "|" + text
  {
    JoinThree(r.name, r.namespace, text);
  }

  /** The fields of a notification in the order of its key, in five groups. */
  function First(n: P.NotificationView): string {
    var r := n.routing;
    RefKey(r.apiTokenRef) + "|" + r.channelName + "|" + (RefKey(r.datadogAPIKeyRef) + "|" + r.datadogRegion)
  }

  function Second(n: P.NotificationView): string {
    var r := n.routing;
    Itoa(if n.delayMin.Some? then n.delayMin.value else 0) + "|" + r.emailAddress + "|" +
    FormatBool(n.emailEnabled.Some? && n.emailEnabled.value) + "|" + (RefKey(r.flowdockAPITokenRef) + "|" + r.flowName)
  }

  function Third(n: P.NotificationView): string {
    var r := n.routing;
    Itoa(r.intervalMin) + "|" + n.secrets.mobileNumber + "|" + (RefKey(r.opsGenieAPIKeyRef) + "|" + r.opsGenieRegion)
  }

  function Fourth(n: P.NotificationView): string {
    var r := n.routing;
    r.orgName + "|" + RefKey(r.serviceKeyRef) + "|" + FormatBool(n.smsEnabled.Some? && n.smsEnabled.value)
  }

  function Fifth(n: P.NotificationView): string {
    var r := n.routing;
    r.teamID + "|" + r.teamName + "|" + r.typeName + "|" + (r.username + "|" + RefKey(r.victorOpsSecretRef))
  }

  function Groups(n: P.NotificationView): seq<seq<string>> {
    var r := n.routing;
    [[r.apiTokenRef.name, r.apiTokenRef.namespace, r.channelName],
     [r.datadogAPIKeyRef.name, r.datadogAPIKeyRef.namespace, r.datadogRegion],
     [Itoa(OrDefault(n.delayMin, 0)), r.emailAddress, FormatBool(OrDefault(n.emailEnabled, false))],
     [r.flowdockAPITokenRef.name, r.flowdockAPITokenRef.namespace, r.flowName],
     [Itoa(r.intervalMin), n.secrets.mobileNumber],
     [r.opsGenieAPIKeyRef.name, r.opsGenieAPIKeyRef.namespace, r.opsGenieRegion],
     [r.orgName], [r.serviceKeyRef.name, r.serviceKeyRef.namespace, FormatBool(OrDefault(n.smsEnabled, false))],
     [r.teamID, r.teamName, r.typeName],
     [r.username], [r.victorOpsSecretRef.name, r.victorOpsSecretRef.namespace]]
  }

  lemma FirstIs(n: P.NotificationView)
    ensures Join(Groups(n)[0] + Groups(n)[1], '|') == First(n)
  {
    var r := n.routing;
    JoinParts(Groups(n)[0], Groups(n)[1]);
    JoinRef(r.apiTokenRef, r.channelName);
    JoinRef(r.datadogAPIKeyRef, r.datadogRegion);
  }

  lemma SecondIs(n: P.NotificationView)
    ensures Join(Groups(n)[2] + Groups(n)[3], '|') == Second(n)
  {
    var r := n.routing;
    JoinParts(Groups(n)[2], Groups(n)[3]);
    JoinThree(Itoa(OrDefault(n.delayMin, 0)), r.emailAddress, FormatBool(OrDefault(n.emailEnabled, false)));
    JoinRef(r.flowdockAPITokenRef, r.flowName);
  }

  lemma ThirdIs(n: P.NotificationView)
    ensures Join(Groups(n)[4] + Groups(n)[5], '|') == Third(n)
  {
    var r := n.routing;
    JoinParts(Groups(n)[4], Groups(n)[5]);
    JoinTwo(Itoa(r.intervalMin), n.secrets.mobileNumber);
    JoinRef(r.opsGenieAPIKeyRef, r.opsGenieRegion);
  }

  lemma FourthIs(n: P.NotificationView)
    ensures Join(Groups(n)[6] + Groups(n)[7], '|') == Fourth(n)
  {
    var r := n.routing;
    var sms := FormatBool(OrDefault(n.smsEnabled, false));
    JoinFirst(r.orgName, Groups(n)[7]);
    JoinRef(r.serviceKeyRef, sms);
    Regroup(r.orgName, RefKey(r.serviceKeyRef), sms);
  }

  lemma FifthIs(n: P.NotificationView)
    ensures Join(Groups(n)[8] + (Groups(n)[9] + Groups(n)[10]), '|') == Fifth(n)
  {
    var r := n.routing;
    JoinParts(Groups(n)[8], Groups(n)[9] + Groups(n)[10]);
    JoinThree(r.teamID, r.teamName, r.typeName);
    JoinFirst(r.username, Groups(n)[10]);
    JoinTwo(r.victorOpsSecretRef.name, r.victorOpsSecretRef.namespace);
  }

  lemma GroupsAreParts(n: P.NotificationView)
    ensures var g := Groups(n);
      NotificationParts(n) == (g[0] + g[1]) + ((g[2] + g[3]) + ((g[4] + g[5]) + ((g[6] + g[7]) + (g[8] + (g[9] + g[10])))))
  {
  }

  /** The key of a notification: its fields in this order, with bars between them, and its roles in brackets. */
  lemma NotificationKeyIs(n: P.NotificationView)
    ensures NotificationKey(n) ==
      First(n) + "|" + (Second(n) + "|" + (Third(n) + "|" + (Fourth(n) + "|" + Fifth(n)))) + "|" +
      "[" + Join(Elements(n.roles), ',') + "]"
  {
    var g := Groups(n);
    var a, b, c, d, e := g[0] + g[1], g[2] + g[3], g[4] + g[5], g[6] + g[7], g[8] + (g[9] + g[10]);
    FirstIs(n);
    SecondIs(n);
    ThirdIs(n);
    FourthIs(n);
    FifthIs(n);
    JoinParts(d, e);
    JoinParts(c, d + e);
    JoinParts(b, c + (d + e));
    JoinParts(a, b + (c + (d + e)));
    GroupsAreParts(n);
  }

  // ---- Showing the same ----

  /** Two notifications that agree in all but secret tokens, and whether an absent number, flag or
      list of roles was nil. One empty role shows like none. */
  ghost predicate NotificationsAgree(a: P.NotificationView, b: P.NotificationView) {
    && a.routing == b.routing && a.secrets.mobileNumber == b.secrets.mobileNumber
    && (if a.delayMin.Some? then a.delayMin.value else 0) == (if b.delayMin.Some? then b.delayMin.value else 0)
    && (IsSet(a.emailEnabled) <==> IsSet(b.emailEnabled)) && (IsSet(a.smsEnabled) <==> IsSet(b.smsEnabled))
    && RolesAgree(Elements(a.roles), Elements(b.roles))
  }

  predicate IsSet(flag: Option<bool>) {
    flag.Some? && flag.value
  }

  ghost predicate RolesAgree(a: seq<string>, b: seq<string>) {
    a == b || ((a == [] || a == [""]) && (b == [] || b == [""]))
  }

  lemma NotificationsAgreeIff(a: P.NotificationView, b: P.NotificationView)
    ensures ShownNotification(a) == ShownNotification(b) <==> NotificationsAgree(a, b)
  {
    var s, t := ShownNotification(a), ShownNotification(b);
    assert s.roles == t.roles <==> RolesAgree(Elements(a.roles), Elements(b.roles));
    assert s.emailEnabled == t.emailEnabled <==> (IsSet(a.emailEnabled) <==> IsSet(b.emailEnabled));
    assert s.smsEnabled == t.smsEnabled <==> (IsSet(a.smsEnabled) <==> IsSet(b.smsEnabled));
  }

  ghost predicate ListsAgree(a: seq<P.NotificationView>, b: seq<P.NotificationView>) {
    |a| == |b| && forall i :: 0 <= i < |a| ==> NotificationsAgree(a[i], b[i])
  }

  lemma ListsAgreeIff(a: seq<P.NotificationView>, b: seq<P.NotificationView>)
    ensures ShownNotifications(a) == ShownNotifications(b) <==> ListsAgree(a, b)
  {
    var s, t := ShownNotifications(a), ShownNotifications(b);
    assert |s| == |a| && |t| == |b|;
    if s == t {
      forall i | 0 <= i < |s| ensures NotificationsAgree(a[i], b[i]) {
        assert s[i] == t[i];
        NotificationsAgreeIff(a[i], b[i]);
      }
    }
    if ListsAgree(a, b) {
      forall i | 0 <= i < |s| ensures s[i] == t[i] {
        assert NotificationsAgree(a[i], b[i]);
        NotificationsAgreeIff(a[i], b[i]);
      }
    }
  }

  /** What two configurations that show the same agree in. */
  lemma SameShownIff(a: P.AlertView, b: P.AlertView)
    ensures Shown(a) == Shown(b) <==>
      && a.enabled == b.enabled && a.eventTypeName == b.eventTypeName && a.severityOverride == b.severityOverride
      && Elements(a.matchers) == Elements(b.matchers)
      && a.threshold == b.threshold && a.metricThreshold == b.metricThreshold
      && ListsAgree(Elements(a.notifications), Elements(b.notifications))
  {
    ListsAgreeIff(Elements(a.notifications), Elements(b.notifications));
  }
}
