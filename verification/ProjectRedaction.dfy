/** Logging a project spec: the generated deep copy (api/v1/zz_generated.deepcopy.go) and the
    redaction of the copy (`MarshalLogObject` in api/v1/atlasproject_types.go). */
module ProjectRedaction {
  import opened Common
  import opened Text
  import opened DeepCopying

  datatype Matcher = Matcher(fieldName: string, operator: string, value: string)

  datatype Threshold = Threshold(operator: string, units: string, threshold: string)

  datatype MetricThreshold =
    MetricThreshold(metricName: string, operator: string, threshold: string, units: string, mode: string)

  /** The fields of a notification that hold neither pointers nor secrets. */
  datatype Routing = Routing(
    apiTokenRef: ResourceRef, channelName: string, datadogAPIKeyRef: ResourceRef, datadogRegion: string,
    emailAddress: string, flowdockAPITokenRef: ResourceRef, flowName: string, intervalMin: int,
    opsGenieAPIKeyRef: ResourceRef, opsGenieRegion: string, orgName: string, serviceKeyRef: ResourceRef,
    teamID: string, teamName: string, typeName: string, username: string, victorOpsSecretRef: ResourceRef)

  /** The fields `MarshalLogObject` hides. */
  datatype Secrets = Secrets(
    apiToken: string, datadogAPIKey: string, flowdockAPIToken: string, mobileNumber: string,
    opsGenieAPIKey: string, serviceKey: string, victorOpsAPIKey: string, victorOpsRoutingKey: string)

  datatype Notification = Notification(
    routing: Routing, secrets: Secrets,
    delayMin: Cell?<int>, emailEnabled: Cell?<bool>, smsEnabled: Cell?<bool>, roles: array?<string>)

  datatype AlertConfiguration = AlertConfiguration(
    enabled: bool, eventTypeName: string, matchers: array?<Matcher>, threshold: Cell?<Threshold>,
    notifications: array?<Notification>, metricThreshold: Cell?<MetricThreshold>, severityOverride: string)

  /** The fields of a project spec, grouped by shape. */
  datatype Values = Values(
    name: string, regionUsageRestrictions: string, maintenanceWindow: Plain,
    alertConfigurationSyncEnabled: bool, withDefaultAlertsSettings: bool)

  datatype Pointers = Pointers(
    connectionSecret: Cell?<ResourceRef>, x509CertRef: Cell?<ResourceRef>,
    auditing: Cell?<Plain>, backupCompliancePolicyRef: Cell?<ResourceRef>)

  datatype PlainLists = PlainLists(
    projectIPAccessList: array?<Plain>, cloudProviderAccessRoles: array?<Plain>,
    cloudProviderIntegrations: array?<Plain>, networkPeers: array?<Plain>, integrations: array?<Plain>)

  datatype Groups = Groups(privateEndpoints: array?<Group>, teams: array?<Group>)

  datatype Spec = Spec(
    values: Values, pointers: Pointers, lists: PlainLists, groups: Groups, nested: Nested,
    alertConfigurations: array?<AlertConfiguration>)

  const HIDDEN_FIELD := "*** redacted ***"

  // ---- What the data denotes, without memory ----

  datatype NotificationView = NotificationView(
    routing: Routing, secrets: Secrets, delayMin: Option<int>, emailEnabled: Option<bool>,
    smsEnabled: Option<bool>, roles: Option<seq<string>>)

  datatype AlertView = AlertView(
    enabled: bool, eventTypeName: string, matchers: Option<seq<Matcher>>, threshold: Option<Threshold>,
    notifications: Option<seq<NotificationView>>, metricThreshold: Option<MetricThreshold>, severityOverride: string)

  /** `n` denotes `v`, with all it points to in `own`. */
  ghost predicate IsNotification(n: Notification, v: NotificationView, own: set<object>)
    reads own
  {
    && (n.delayMin == null || n.delayMin in own) && (n.emailEnabled == null || n.emailEnabled in own)
    && (n.smsEnabled == null || n.smsEnabled in own) && (n.roles == null || n.roles in own)
    && n.routing == v.routing && n.secrets == v.secrets
    && Points(n.delayMin, v.delayMin) && Points(n.emailEnabled, v.emailEnabled)
    && Points(n.smsEnabled, v.smsEnabled) && Lists(n.roles, v.roles)
  }

  ghost predicate AreNotifications(ns: array?<Notification>, v: Option<seq<NotificationView>>, own: set<object>)
    reads ns, own
  {
    if ns == null then v == None
    else v.Some? && |v.value| == ns.Length && forall j :: 0 <= j < ns.Length ==> IsNotification(ns[j], v.value[j], own)
  }

  /** `c` denotes `v`, with all it points to, directly or through its notifications, in `own`. */
  ghost predicate IsAlert(c: AlertConfiguration, v: AlertView, own: set<object>)
    reads own
  {
    && (c.matchers == null || c.matchers in own) && (c.threshold == null || c.threshold in own)
    && (c.notifications == null || c.notifications in own) && (c.metricThreshold == null || c.metricThreshold in own)
    && c.enabled == v.enabled && c.eventTypeName == v.eventTypeName && c.severityOverride == v.severityOverride
    && Lists(c.matchers, v.matchers) && Points(c.threshold, v.threshold)
    && Points(c.metricThreshold, v.metricThreshold)
    && AreNotifications(c.notifications, v.notifications, own)
  }

  // ---- Deep copies ----

  method CopyNotification(n: Notification, ghost v: NotificationView, ghost from: set<object>)
    returns (r: Notification, ghost own: set<object>)
    requires IsNotification(n, v, from)
    ensures IsNotification(r, v, own) && fresh(own)
  {
    var delayMin := CopyCell(n.delayMin, v.delayMin);
    var emailEnabled := CopyCell(n.emailEnabled, v.emailEnabled);
    var smsEnabled := CopyCell(n.smsEnabled, v.smsEnabled);
    var roles := CopySlice(n.roles, v.roles);
    r := n.(delayMin := delayMin, emailEnabled := emailEnabled, smsEnabled := smsEnabled, roles := roles);
    own := NonNull({r.delayMin, r.emailEnabled, r.smsEnabled, r.roles});
  }

  lemma NotificationGrows(n: Notification, v: NotificationView, own: set<object>, more: set<object>)
    requires IsNotification(n, v, own) && own <= more
    ensures IsNotification(n, v, more)
  {
  }

  method CopyNotifications(a: array?<Notification>, ghost v: Option<seq<NotificationView>>, ghost from: set<object>)
    returns (r: array?<Notification>, ghost own: set<object>)
    requires AreNotifications(a, v, from)
    ensures AreNotifications(r, v, own) && fresh(own) && (r != null ==> fresh(r) && r !in own)
  {
    own := {};
    if a == null { return null, own; }
    r := new Notification[a.Length];
    var i := 0;
    while i < a.Length
      invariant 0 <= i <= a.Length == r.Length && fresh(r) && fresh(own) && r !in own
      invariant forall k :: 0 <= k < i ==> IsNotification(r[k], v.value[k], own)
    {
      ghost var more;
      r[i], more := CopyNotification(a[i], v.value[i], from);
      own := own + more;
      i := i + 1;
    }
  }

  method CopyAlert(c: AlertConfiguration, ghost v: AlertView, ghost from: set<object>)
    returns (r: AlertConfiguration, ghost own: set<object>)
    requires IsAlert(c, v, from)
    ensures IsAlert(r, v, own) && fresh(own)
  {
    var matchers := CopySlice(c.matchers, v.matchers);
    var threshold := CopyCell(c.threshold, v.threshold);
    var notifications;
    notifications, own := CopyNotifications(c.notifications, v.notifications, from);
    var metricThreshold := CopyCell(c.metricThreshold, v.metricThreshold);
    r := c.(matchers := matchers, threshold := threshold, notifications := notifications, metricThreshold := metricThreshold);
    own := own + NonNull({matchers, threshold, notifications, metricThreshold});
  }

  /** The alert configurations of `cs` denote `vs`, each in memory of its own. */
  ghost predicate OwnAlerts(cs: seq<AlertConfiguration>, vs: seq<AlertView>, owns: seq<set<object>>)
    reads set i, o | 0 <= i < |owns| && o in owns[i] :: o
  {
    && |cs| == |vs| == |owns|
    && (forall k :: 0 <= k < |cs| ==> IsAlert(cs[k], vs[k], owns[k]))
    && (forall k, l :: 0 <= k < l < |cs| ==> owns[k] !! owns[l])
  }

  lemma OneMoreOwn(cs: seq<AlertConfiguration>, vs: seq<AlertView>, owns: seq<set<object>>,
      c: AlertConfiguration, v: AlertView, own: set<object>)
    requires OwnAlerts(cs, vs, owns) && IsAlert(c, v, own) && forall k :: 0 <= k < |owns| ==> owns[k] !! own
    ensures OwnAlerts(cs + [c], vs + [v], owns + [own])
  {
  }

  method CopyAlerts(a: array<AlertConfiguration>, ghost vs: seq<AlertView>, ghost from: set<object>)
    returns (r: array<AlertConfiguration>, ghost owns: seq<set<object>>)
    requires a.Length == |vs| && forall k :: 0 <= k < |vs| ==> IsAlert(a[k], vs[k], from)
    ensures fresh(r) && OwnAlerts(r[..], vs, owns)
    ensures forall k :: 0 <= k < |owns| ==> fresh(owns[k]) && r !in owns[k]
  {
    r := new AlertConfiguration[a.Length];
    owns := [];
    var i := 0;
    while i < a.Length
      invariant 0 <= i <= a.Length == r.Length && fresh(r) && |owns| == i
      invariant forall k :: 0 <= k < i ==> fresh(owns[k]) && r !in owns[k]
      invariant OwnAlerts(r[..i], vs[..i], owns)
    {
      var copy; ghost var own;
      copy, own := CopyAlert(a[i], vs[i], from);
      OneMoreOwn(r[..i], vs[..i], owns, copy, vs[i], own);
      r[i] := copy;
      owns := owns + [own];
      i := i + 1;
      assert r[..i] == r[..i - 1] + [copy] && vs[..i] == vs[..i - 1] + [vs[i - 1]];
    }
    assert r[..i] == r[..] && vs[..i] == vs;
  }

  // ---- Redaction ----

  function SetAPIToken(n: Notification, token: string): Notification {
    n.(secrets := n.secrets.(apiToken := token))
  }

  function SetDatadogAPIKey(n: Notification, token: string): Notification {
    n.(secrets := n.secrets.(datadogAPIKey := token))
  }

  function SetFlowdockAPIToken(n: Notification, token: string): Notification {
    n.(secrets := n.secrets.(flowdockAPIToken := token))
  }

  function SetMobileNumber(n: Notification, number: string): Notification {
    n.(secrets := n.secrets.(mobileNumber := number))
  }

  function SetOpsGenieAPIKey(n: Notification, token: string): Notification {
    n.(secrets := n.secrets.(opsGenieAPIKey := token))
  }

  function SetServiceKey(n: Notification, token: string): Notification {
    n.(secrets := n.secrets.(serviceKey := token))
  }

  function SetVictorOpsAPIKey(n: Notification, token: string): Notification {
    n.(secrets := n.secrets.(victorOpsAPIKey := token))
  }

  function SetVictorOpsRoutingKey(n: Notification, token: string): Notification {
    n.(secrets := n.secrets.(victorOpsRoutingKey := token))
  }

  /** Every secret hidden, and nothing else touched. */
  const ALL_HIDDEN := Secrets(HIDDEN_FIELD, HIDDEN_FIELD, HIDDEN_FIELD, HIDDEN_FIELD,
                              HIDDEN_FIELD, HIDDEN_FIELD, HIDDEN_FIELD, HIDDEN_FIELD)

  function Redacted(v: NotificationView): NotificationView {
    v.(secrets := ALL_HIDDEN)
  }

  function RedactedAlert(v: AlertView): AlertView {
    match v.notifications
    case None => v
    case Some(ns) => v.(notifications := Some(seq(|ns|, j requires 0 <= j < |ns| => Redacted(ns[j]))))
  }

  function RedactedAlerts(vs: seq<AlertView>): (rs: seq<AlertView>)
    ensures |rs| == |vs| && forall k :: 0 <= k < |vs| ==> rs[k] == RedactedAlert(vs[k])
  {
    seq(|vs|, k requires 0 <= k < |vs| => RedactedAlert(vs[k]))
  }

  /** The inner loop of `MarshalLogObject`, over the notifications of one alert configuration. */
  method RedactNotifications(ns: array<Notification>)
    modifies ns
    ensures forall j :: 0 <= j < ns.Length ==> ns[j] == old(ns[j]).(secrets := ALL_HIDDEN)
  {
    var j := 0;
    while j < ns.Length
      invariant 0 <= j <= ns.Length
      invariant forall k :: 0 <= k < j ==> ns[k] == old(ns[k]).(secrets := ALL_HIDDEN)
      invariant forall k :: j <= k < ns.Length ==> ns[k] == old(ns[k])
    {
      ns[j] := SetAPIToken(ns[j], HIDDEN_FIELD);
      ns[j] := SetDatadogAPIKey(ns[j], HIDDEN_FIELD);
      ns[j] := SetFlowdockAPIToken(ns[j], HIDDEN_FIELD);
      ns[j] := SetDatadogAPIKey(ns[j], HIDDEN_FIELD);
      ns[j] := SetMobileNumber(ns[j], HIDDEN_FIELD);
      ns[j] := SetOpsGenieAPIKey(ns[j], HIDDEN_FIELD);
      ns[j] := SetServiceKey(ns[j], HIDDEN_FIELD);
      ns[j] := SetVictorOpsAPIKey(ns[j], HIDDEN_FIELD);
      ns[j] := SetVictorOpsRoutingKey(ns[j], HIDDEN_FIELD);
      j := j + 1;
    }
  }

  method RedactAlert(c: AlertConfiguration, ghost v: AlertView, ghost own: set<object>)
    requires IsAlert(c, v, own)
    modifies own
    ensures IsAlert(c, RedactedAlert(v), own)
  {
    if c.notifications != null {
      RedactNotifications(c.notifications);
    }
  }

  /** Redacting one alert configuration leaves what the others denote. */
  method RedactOne(cs: seq<AlertConfiguration>, i: nat, ghost views: seq<AlertView>, ghost owns: seq<set<object>>)
    requires i < |cs| && OwnAlerts(cs, views, owns)
    modifies owns[i]
    ensures OwnAlerts(cs, views[i := RedactedAlert(views[i])], owns)
  {
    RedactAlert(cs[i], views[i], owns[i]);
  }

  /** The first `i` views are redacted. */
  ghost predicate RedactedUpTo(vs: seq<AlertView>, views: seq<AlertView>, i: nat) {
    && i <= |vs| == |views|
    && (forall k :: 0 <= k < i ==> views[k] == RedactedAlert(vs[k])) && (forall k :: i <= k < |vs| ==> views[k] == vs[k])
  }

  /** The outer loop, over the alert configurations. */
  method RedactAlerts(cs: array<AlertConfiguration>, ghost vs: seq<AlertView>, ghost owns: seq<set<object>>)
    requires OwnAlerts(cs[..], vs, owns) && forall k :: 0 <= k < |owns| ==> cs !in owns[k]
    modifies set i, o | 0 <= i < |owns| && o in owns[i] :: o
    ensures OwnAlerts(cs[..], RedactedAlerts(vs), owns)
  {
    ghost var views, was := vs, cs[..];
    var i := 0;
    while i < cs.Length
      invariant 0 <= i <= cs.Length && cs[..] == was
      invariant OwnAlerts(was, views, owns) && RedactedUpTo(vs, views, i)
    {
      RedactOne(cs[..], i, views, owns);
      views := views[i := RedactedAlert(views[i])];
      i := i + 1;
    }
    assert views == RedactedAlerts(vs);
  }

  // ---- The whole spec ----

  datatype PointersView = PointersView(
    connectionSecret: Option<ResourceRef>, x509CertRef: Option<ResourceRef>,
    auditing: Option<Plain>, backupCompliancePolicyRef: Option<ResourceRef>)

  datatype PlainListsView = PlainListsView(
    projectIPAccessList: Option<seq<Plain>>, cloudProviderAccessRoles: Option<seq<Plain>>,
    cloudProviderIntegrations: Option<seq<Plain>>, networkPeers: Option<seq<Plain>>, integrations: Option<seq<Plain>>)

  datatype GroupsView = GroupsView(privateEndpoints: Option<seq<GroupView>>, teams: Option<seq<GroupView>>)

  datatype SpecView = SpecView(
    values: Values, pointers: PointersView, lists: PlainListsView, groups: GroupsView, nested: NestedView,
    alertConfigurations: Option<seq<AlertView>>)

  ghost predicate ArePointers(p: Pointers, v: PointersView, own: set<object>)
    reads own
  {
    && NonNull({p.auditing, p.connectionSecret as object?, p.x509CertRef, p.backupCompliancePolicyRef}) <= own
    && Points(p.connectionSecret, v.connectionSecret) && Points(p.x509CertRef, v.x509CertRef)
    && Points(p.auditing, v.auditing) && Points(p.backupCompliancePolicyRef, v.backupCompliancePolicyRef)
  }

  method CopyPointers(p: Pointers, ghost v: PointersView, ghost from: set<object>)
    returns (r: Pointers, ghost own: set<object>)
    requires ArePointers(p, v, from)
    ensures ArePointers(r, v, own) && fresh(own)
  {
    var connectionSecret := CopyCell(p.connectionSecret, v.connectionSecret);
    var x509CertRef := CopyCell(p.x509CertRef, v.x509CertRef);
    var auditing := CopyCell(p.auditing, v.auditing);
    var backupCompliancePolicyRef := CopyCell(p.backupCompliancePolicyRef, v.backupCompliancePolicyRef);
    r := Pointers(connectionSecret, x509CertRef, auditing, backupCompliancePolicyRef);
    own := NonNull({connectionSecret as object?, x509CertRef, auditing, backupCompliancePolicyRef});
  }

  ghost predicate ArePlainLists(p: PlainLists, v: PlainListsView, own: set<object>)
    reads own
  {
    && NonNull({p.projectIPAccessList, p.cloudProviderAccessRoles, p.cloudProviderIntegrations,
                p.networkPeers, p.integrations}) <= own
    && Lists(p.projectIPAccessList, v.projectIPAccessList)
    && Lists(p.cloudProviderAccessRoles, v.cloudProviderAccessRoles)
    && Lists(p.cloudProviderIntegrations, v.cloudProviderIntegrations)
    && Lists(p.networkPeers, v.networkPeers) && Lists(p.integrations, v.integrations)
  }

  method CopyPlainLists(p: PlainLists, ghost v: PlainListsView, ghost from: set<object>)
    returns (r: PlainLists, ghost own: set<object>)
    requires ArePlainLists(p, v, from)
    ensures ArePlainLists(r, v, own) && fresh(own)
  {
    var projectIPAccessList := CopySlice(p.projectIPAccessList, v.projectIPAccessList);
    var cloudProviderAccessRoles := CopySlice(p.cloudProviderAccessRoles, v.cloudProviderAccessRoles);
    var cloudProviderIntegrations := CopySlice(p.cloudProviderIntegrations, v.cloudProviderIntegrations);
    var networkPeers := CopySlice(p.networkPeers, v.networkPeers);
    var integrations := CopySlice(p.integrations, v.integrations);
    r := PlainLists(projectIPAccessList, cloudProviderAccessRoles, cloudProviderIntegrations, networkPeers, integrations);
    own := NonNull({projectIPAccessList, cloudProviderAccessRoles, cloudProviderIntegrations, networkPeers, integrations});
  }

  ghost predicate AreGroupLists(p: Groups, v: GroupsView, own: set<object>)
    reads own
  {
    && NonNull({p.privateEndpoints, p.teams}) <= own
    && AreGroups(p.privateEndpoints, v.privateEndpoints, own) && AreGroups(p.teams, v.teams, own)
  }

  method CopyGroupLists(p: Groups, ghost v: GroupsView, ghost from: set<object>)
    returns (r: Groups, ghost own: set<object>)
    requires AreGroupLists(p, v, from)
    ensures AreGroupLists(r, v, own) && fresh(own)
  {
    var privateEndpoints, teams; ghost var ownEndpoints, ownTeams;
    privateEndpoints, ownEndpoints := CopyGroups(p.privateEndpoints, v.privateEndpoints, from);
    teams, ownTeams := CopyGroups(p.teams, v.teams, from);
    r := Groups(privateEndpoints, teams);
    own := ownEndpoints + ownTeams + NonNull({privateEndpoints, teams});
  }

  ghost predicate AreAlerts(cs: array?<AlertConfiguration>, v: Option<seq<AlertView>>, own: set<object>)
    reads cs, own
  {
    if cs == null then v == None
    else v.Some? && |v.value| == cs.Length && forall k :: 0 <= k < cs.Length ==> IsAlert(cs[k], v.value[k], own)
  }

  /** `p` denotes `v`, its alert configurations aside, with all it points to in `own`. */
  ghost predicate IsRest(p: Spec, v: SpecView, own: set<object>)
    reads own
  {
    && p.values == v.values
    && ArePointers(p.pointers, v.pointers, own) && ArePlainLists(p.lists, v.lists, own)
    && AreGroupLists(p.groups, v.groups, own) && IsNested(p.nested, v.nested, own)
  }

  /** `p` denotes `v`, with all it points to in `own`. */
  ghost predicate IsSpec(p: Spec, v: SpecView, own: set<object>)
    reads own
  {
    && IsRest(p, v, own)
    && (p.alertConfigurations == null || p.alertConfigurations in own)
    && AreAlerts(p.alertConfigurations, v.alertConfigurations, own)
  }

  lemma PointersGrow(p: Pointers, v: PointersView, own: set<object>, more: set<object>)
    requires ArePointers(p, v, own) && own <= more
    ensures ArePointers(p, v, more)
  {
  }

  lemma ListsGrow(p: PlainLists, v: PlainListsView, own: set<object>, more: set<object>)
    requires ArePlainLists(p, v, own) && own <= more
    ensures ArePlainLists(p, v, more)
  {
  }

  lemma GroupsGrow(p: Groups, v: GroupsView, own: set<object>, more: set<object>)
    requires AreGroupLists(p, v, own) && own <= more
    ensures AreGroupLists(p, v, more)
  {
  }

  lemma RestGrows(p: Spec, v: SpecView, own: set<object>, more: set<object>)
    requires IsRest(p, v, own) && own <= more
    ensures IsRest(p, v, more)
  {
    PointersGrow(p.pointers, v.pointers, own, more);
    ListsGrow(p.lists, v.lists, own, more);
    GroupsGrow(p.groups, v.groups, own, more);
    NestedGrows(p.nested, v.nested, own, more);
  }

  lemma AlertsGrow(cs: array?<AlertConfiguration>, v: Option<seq<AlertView>>, own: set<object>, more: set<object>)
    requires AreAlerts(cs, v, own) && own <= more
    ensures AreAlerts(cs, v, more)
  {
  }

  ghost function Union(owns: seq<set<object>>): (r: set<object>)
    ensures forall i :: 0 <= i < |owns| ==> owns[i] <= r
  {
    set i, o | 0 <= i < |owns| && o in owns[i] :: o
  }

  /** The copied alert configurations, each in memory of its own. */
  ghost predicate OwnSpecAlerts(cs: array?<AlertConfiguration>, v: Option<seq<AlertView>>, owns: seq<set<object>>)
    reads cs, Union(owns)
  {
    if cs == null then v == None && owns == []
    else v.Some? && OwnAlerts(cs[..], v.value, owns) && cs !in Union(owns)
  }

  method CopySpecAlerts(cs: array?<AlertConfiguration>, ghost v: Option<seq<AlertView>>, ghost from: set<object>)
    returns (r: array?<AlertConfiguration>, ghost owns: seq<set<object>>)
    requires AreAlerts(cs, v, from)
    ensures OwnSpecAlerts(r, v, owns) && fresh(Union(owns)) && (r != null ==> fresh(r))
  {
    if cs == null { return null, []; }
    r, owns := CopyAlerts(cs, v.value, from);
  }

  method CopyFlat(p: Spec, ghost v: SpecView, ghost from: set<object>)
    returns (pointers: Pointers, lists: PlainLists, ghost own: set<object>)
    requires ArePointers(p.pointers, v.pointers, from) && ArePlainLists(p.lists, v.lists, from)
    ensures ArePointers(pointers, v.pointers, own) && ArePlainLists(lists, v.lists, own) && fresh(own)
  {
    ghost var o1, o2;
    pointers, o1 := CopyPointers(p.pointers, v.pointers, from);
    lists, o2 := CopyPlainLists(p.lists, v.lists, from);
    own := o1 + o2;
    PointersGrow(pointers, v.pointers, o1, own);
    ListsGrow(lists, v.lists, o2, own);
  }

  method CopyDeep(p: Spec, ghost v: SpecView, ghost from: set<object>)
    returns (groups: Groups, nested: Nested, ghost own: set<object>)
    requires AreGroupLists(p.groups, v.groups, from) && IsNested(p.nested, v.nested, from)
    ensures AreGroupLists(groups, v.groups, own) && IsNested(nested, v.nested, own) && fresh(own)
  {
    ghost var o1, o2;
    groups, o1 := CopyGroupLists(p.groups, v.groups, from);
    nested, o2 := CopyNested(p.nested, v.nested, from);
    own := o1 + o2;
    GroupsGrow(groups, v.groups, o1, own);
    NestedGrows(nested, v.nested, o2, own);
  }

  method CopyParts(p: Spec, ghost v: SpecView, ghost from: set<object>)
    returns (pointers: Pointers, lists: PlainLists, groups: Groups, nested: Nested, ghost flat: set<object>, ghost deep: set<object>)
    requires IsRest(p, v, from)
    ensures ArePointers(pointers, v.pointers, flat) && ArePlainLists(lists, v.lists, flat)
    ensures AreGroupLists(groups, v.groups, deep) && IsNested(nested, v.nested, deep)
    ensures fresh(flat) && fresh(deep)
  {
    groups, nested, deep := CopyDeep(p, v, from);
    pointers, lists, flat := CopyFlat(p, v, from);
  }

  method DeepCopyRest(p: Spec, ghost v: SpecView, ghost from: set<object>)
    returns (r: Spec, ghost own: set<object>)
    requires IsRest(p, v, from)
    ensures IsRest(r, v, own) && fresh(own) && r.alertConfigurations == p.alertConfigurations
  {
    var pointers, lists, groups, nested; ghost var flat, deep;
    pointers, lists, groups, nested, flat, deep := CopyParts(p, v, from);
    r := Spec(p.values, pointers, lists, groups, nested, p.alertConfigurations);
    own := flat + deep;
    PackRest(r, v, flat, deep);
  }

  lemma PackRest(p: Spec, v: SpecView, flat: set<object>, deep: set<object>)
    requires p.values == v.values && ArePointers(p.pointers, v.pointers, flat) && ArePlainLists(p.lists, v.lists, flat)
    requires AreGroupLists(p.groups, v.groups, deep) && IsNested(p.nested, v.nested, deep)
    ensures IsRest(p, v, flat + deep)
  {
    PointersGrow(p.pointers, v.pointers, flat, flat + deep);
    ListsGrow(p.lists, v.lists, flat, flat + deep);
    GroupsGrow(p.groups, v.groups, deep, flat + deep);
    NestedGrows(p.nested, v.nested, deep, flat + deep);
  }

  /** `AtlasProjectSpec.DeepCopy`: an equal spec in fresh memory. */
  method DeepCopy(p: Spec, ghost v: SpecView, ghost from: set<object>)
    returns (r: Spec, ghost own: set<object>, ghost owns: seq<set<object>>)
    requires IsSpec(p, v, from)
    ensures IsRest(r, v, own) && OwnSpecAlerts(r.alertConfigurations, v.alertConfigurations, owns)
    ensures fresh(own) && fresh(Union(owns)) && own !! Union(owns)
    ensures r.alertConfigurations != null ==> fresh(r.alertConfigurations)
  {
    r, own := DeepCopyRest(p, v, from);
    var alerts;
    alerts, owns := CopySpecAlerts(p.alertConfigurations, v.alertConfigurations, from);
    r := r.(alertConfigurations := alerts);
  }

  lemma PackSpec(p: Spec, v: SpecView, rest: set<object>, alerts: set<object>, own: set<object>)
    requires IsRest(p, v, rest) && AreAlerts(p.alertConfigurations, v.alertConfigurations, alerts)
    requires own == rest + alerts + NonNull({p.alertConfigurations})
    ensures IsSpec(p, v, own)
  {
    RestGrows(p, v, rest, own);
    AlertsGrow(p.alertConfigurations, v.alertConfigurations, alerts, own);
  }

  function RedactedSpec(v: SpecView): SpecView {
    match v.alertConfigurations
    case None => v
    case Some(vs) => v.(alertConfigurations := Some(RedactedAlerts(vs)))
  }

  lemma RestOfRedacted(p: Spec, v: SpecView, rest: set<object>)
    requires IsRest(p, v, rest)
    ensures IsRest(p, RedactedSpec(v), rest)
  {
  }

  /** Redacting the alert configurations leaves the rest of the copy alone. */
  method RedactCopied(p: Spec, ghost v: SpecView, ghost rest: set<object>, ghost owns: seq<set<object>>)
    requires IsRest(p, v, rest) && OwnSpecAlerts(p.alertConfigurations, v.alertConfigurations, owns) && rest !! Union(owns)
    modifies Union(owns)
    ensures IsRest(p, v, rest)
    ensures AreAlerts(p.alertConfigurations, RedactedSpec(v).alertConfigurations, Union(owns))
  {
    ghost var held := IsRest(p, v, rest);
    RedactSpecAlerts(p.alertConfigurations, v.alertConfigurations, owns);
    assert held == IsRest(p, v, rest);
  }

  /** The redacted deep copy. */
  method RedactedCopy(p: Spec, ghost v: SpecView, ghost from: set<object>)
    returns (printable: Spec, ghost own: set<object>)
    requires IsSpec(p, v, from)
    ensures IsSpec(printable, RedactedSpec(v), own) && fresh(own)
  {
    ghost var rest, owns;
    printable, rest, owns := DeepCopy(p, v, from);
    RedactCopied(printable, v, rest, owns);
    RestOfRedacted(printable, v, rest);
    own := rest + Union(owns) + NonNull({printable.alertConfigurations});
    PackSpec(printable, RedactedSpec(v), rest, Union(owns), own);
  }

  /** `MarshalLogObject`: what is logged is the spec with the secrets of every notification hidden,
      all in fresh memory. It modifies nothing, so the original still denotes what it did. */
  method MarshalLogObject(p: Spec, ghost v: SpecView, ghost from: set<object>)
    returns (logged: Spec, ghost own: set<object>)
    requires IsSpec(p, v, from)
    ensures IsSpec(p, v, from)
    ensures IsSpec(logged, RedactedSpec(v), own) && fresh(own)
  {
    logged, own := RedactedCopy(p, v, from);
  }

  method RedactSpecAlerts(cs: array?<AlertConfiguration>, ghost v: Option<seq<AlertView>>, ghost owns: seq<set<object>>)
    requires OwnSpecAlerts(cs, v, owns)
    modifies Union(owns)
    ensures AreAlerts(cs, if v.Some? then Some(RedactedAlerts(v.value)) else None, Union(owns))
  {
    if cs != null {
      RedactAlerts(cs, v.value, owns);
    }
  }

  /** In the logged value every listed secret reads as the redaction text, nil-ness and lengths are
      kept, and every other field is the original one. */
  lemma {:induction false} RedactionHidesExactlyTheSecrets(v: SpecView, i: nat, j: nat)
    requires v.alertConfigurations.Some? && i < |v.alertConfigurations.value|
    requires v.alertConfigurations.value[i].notifications.Some?
    requires j < |v.alertConfigurations.value[i].notifications.value|
    ensures var r := RedactedSpec(v);
      && r == v.(alertConfigurations := r.alertConfigurations)
      && r.alertConfigurations.Some? && |r.alertConfigurations.value| == |v.alertConfigurations.value|
      && var (c, d) := (v.alertConfigurations.value[i], r.alertConfigurations.value[i]);
      && d == c.(notifications := d.notifications)
      && d.notifications.Some? && |d.notifications.value| == |c.notifications.value|
      && var (n, m) := (c.notifications.value[j], d.notifications.value[j]);
      && m == n.(secrets := m.secrets)
      && m.secrets.apiToken == m.secrets.datadogAPIKey == m.secrets.flowdockAPIToken == HIDDEN_FIELD
      && m.secrets.mobileNumber == m.secrets.opsGenieAPIKey == m.secrets.serviceKey == HIDDEN_FIELD
      && m.secrets.victorOpsAPIKey == m.secrets.victorOpsRoutingKey == HIDDEN_FIELD
  {
    var c, d := v.alertConfigurations.value[i], RedactedSpec(v).alertConfigurations.value[i];
    assert d == RedactedAlert(c) && d.notifications.value[j] == Redacted(c.notifications.value[j]);
  }

  // ---- Every spec denotes something ----

  lemma NotificationsDenote(a: array?<Notification>) returns (v: Option<seq<NotificationView>>, own: set<object>)
    ensures AreNotifications(a, v, own)
  {
    v, own := None, {};
    if a != null {
      var vs, i := [], 0;
      while i < a.Length
        invariant 0 <= i <= a.Length && |vs| == i
        invariant forall k :: 0 <= k < i ==> IsNotification(a[k], vs[k], own)
      {
        var n := a[i];
        var more := own + NonNull({n.delayMin, n.emailEnabled, n.smsEnabled, n.roles});
        forall k | 0 <= k < i ensures IsNotification(a[k], vs[k], more) {
          NotificationGrows(a[k], vs[k], own, more);
        }
        vs := vs + [NotificationView(n.routing, n.secrets, Target(n.delayMin), Target(n.emailEnabled),
                                     Target(n.smsEnabled), Listed(n.roles))];
        i, own := i + 1, more;
      }
      v := Some(vs);
    }
  }

  lemma AlertDenotes(c: AlertConfiguration) returns (v: AlertView, own: set<object>)
    ensures IsAlert(c, v, own)
  {
    var ns, inner := NotificationsDenote(c.notifications);
    own := inner + NonNull({c.matchers, c.threshold, c.notifications, c.metricThreshold});
    v := AlertView(c.enabled, c.eventTypeName, Listed(c.matchers), Target(c.threshold), ns, Target(c.metricThreshold), c.severityOverride);
    if c.notifications != null {
      forall k | 0 <= k < c.notifications.Length ensures IsNotification(c.notifications[k], ns.value[k], own) {
        NotificationGrows(c.notifications[k], ns.value[k], inner, own);
      }
    }
  }

  lemma AlertGrows(c: AlertConfiguration, v: AlertView, own: set<object>, more: set<object>)
    requires IsAlert(c, v, own) && own <= more
    ensures IsAlert(c, v, more)
  {
  }

  lemma AlertsDenote(a: array?<AlertConfiguration>) returns (v: Option<seq<AlertView>>, own: set<object>)
    ensures AreAlerts(a, v, own)
  {
    v, own := None, {};
    if a != null {
      var vs, i := [], 0;
      while i < a.Length
        invariant 0 <= i <= a.Length && |vs| == i
        invariant forall k :: 0 <= k < i ==> IsAlert(a[k], vs[k], own)
      {
        var w, inner := AlertDenotes(a[i]);
        forall k | 0 <= k < i ensures IsAlert(a[k], vs[k], own + inner) {
          AlertGrows(a[k], vs[k], own, own + inner);
        }
        AlertGrows(a[i], w, inner, own + inner);
        vs, own, i := vs + [w], own + inner, i + 1;
      }
      v := Some(vs);
    }
  }

  /** So `MarshalLogObject` can be called on every spec. */
  lemma EverySpecDenotes(p: Spec) returns (v: SpecView, own: set<object>)
    ensures IsSpec(p, v, own)
  {
    var alerts, o1 := AlertsDenote(p.alertConfigurations);
    var endpoints, o2 := GroupsDenote(p.groups.privateEndpoints);
    var teams, o3 := GroupsDenote(p.groups.teams);
    var nested, o7 := NestedDenotes(p.nested);
    var q, l := p.pointers, p.lists;
    var o4 := NonNull({q.connectionSecret as object?, q.x509CertRef, q.auditing, q.backupCompliancePolicyRef});
    var o5 := NonNull({l.projectIPAccessList, l.cloudProviderAccessRoles, l.cloudProviderIntegrations, l.networkPeers, l.integrations});
    var o6 := NonNull({p.groups.privateEndpoints, p.groups.teams});
    v := SpecView(
      p.values,
      PointersView(Target(q.connectionSecret), Target(q.x509CertRef), Target(q.auditing), Target(q.backupCompliancePolicyRef)),
      PlainListsView(Listed(l.projectIPAccessList), Listed(l.cloudProviderAccessRoles), Listed(l.cloudProviderIntegrations),
                     Listed(l.networkPeers), Listed(l.integrations)),
      GroupsView(endpoints, teams), nested, alerts);
    var lists, rest := o2 + o3 + o6, o4 + o5 + o7 + (o2 + o3 + o6);
    own := rest + o1 + NonNull({p.alertConfigurations});
    PointersGrow(q, v.pointers, o4, rest);
    ListsGrow(l, v.lists, o5, rest);
    GroupsGrow(p.groups, v.groups, lists, rest);
    NestedGrows(p.nested, nested, o7, rest);
    PackSpec(p, v, rest, o1, own);
  }
}
