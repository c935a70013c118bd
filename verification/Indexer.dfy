/** Watch indexes: `Keys` functions and the mappers that look a changed object up
    (internal/indexer). */
module Indexer {
  import opened Common
  import opened Text

  /** `NamespacedName.String`. */
  function KeyString(n: NamespacedName): string {
    n.namespace + "/" + n.name
  }

  predicate SlashFree(n: NamespacedName) {
    '/' !in n.namespace && '/' !in n.name
  }

  /** Split at its slash, the key of a name reads as the namespace and then the name. */
  lemma KeyReadsBack(n: NamespacedName)
    requires SlashFree(n)
    ensures Split(KeyString(n), '/') == [n.namespace, n.name]
  {
    var parts := [n.namespace, n.name];
    assert parts[1..] == [n.name];
    assert Join(parts, '/') == KeyString(n);
    SplitOfJoin(parts, '/');
  }

  /** The key of a name without slashes is the key of no other name, slashes or not. */
  lemma KeyOfSlashFreeNameIsUnique(a: NamespacedName, b: NamespacedName)
    requires SlashFree(b) && KeyString(a) == KeyString(b)
    ensures a == b
  {
    CountConcat(a.namespace + "/", a.name, '/');
    CountConcat(a.namespace, "/", '/');
    CountConcat(b.namespace + "/", b.name, '/');
    CountConcat(b.namespace, "/", '/');
    CountAbsent(a.namespace, '/');
    CountAbsent(a.name, '/');
    CountAbsent(b.namespace, '/');
    CountAbsent(b.name, '/');
    FirstSeparator(a.namespace, b.namespace, a.name, b.name, '/');
  }

  /** A name with a slash can be cut elsewhere. */
  lemma SlashedNameHasDouble(b: NamespacedName) returns (a: NamespacedName)
    requires !SlashFree(b)
    ensures a != b && KeyString(a) == KeyString(b)
  {
    if '/' in b.namespace {
      var i :| 0 <= i < |b.namespace| && b.namespace[i] == '/';
      a := NamespacedName(b.namespace[..i], b.namespace[i + 1..] + "/" + b.name);
      assert b.namespace == b.namespace[..i] + "/" + b.namespace[i + 1..];
    } else {
      var i :| 0 <= i < |b.name| && b.name[i] == '/';
      a := NamespacedName(b.namespace + "/" + b.name[..i], b.name[i + 1..]);
      assert b.name == b.name[..i] + "/" + b.name[i + 1..];
    }
  }

  /** A name is determined by its key exactly when it has no slash, as Kubernetes demands of stored
      objects. */
  lemma KeyDeterminesNameIff(b: NamespacedName)
    ensures (forall a :: KeyString(a) == KeyString(b) ==> a == b) <==> SlashFree(b)
  {
    if SlashFree(b) {
      forall a | KeyString(a) == KeyString(b) ensures a == b {
        KeyOfSlashFreeNameIsUnique(a, b);
      }
    } else {
      var a := SlashedNameHasDouble(b);
    }
  }

  // ---- Objects and their index keys ----

  datatype EncryptionRefs = EncryptionRefs(aws: ResourceRef, azure: ResourceRef, gcp: ResourceRef)

  datatype NotificationRefs = NotificationRefs(
    apiToken: ResourceRef, datadogAPIKey: ResourceRef, flowdockAPIToken: ResourceRef,
    opsGenieAPIKey: ResourceRef, serviceKey: ResourceRef, victorOpsSecret: ResourceRef)

  /** An object as the indexers see it. `dualRef` is None for kinds that do not refer to projects,
      and Some(None) without a project reference; `credentials` likewise. */
  datatype Resource = Resource(
    kind: string, id: NamespacedName,
    dualRef: Option<Option<ResourceRef>>, credentials: Option<Option<string>>, secrets: ProjectSecrets)

  datatype ProjectSecrets = ProjectSecrets(
    connectionSecret: Option<ResourceRef>, encryption: Option<EncryptionRefs>, alerts: seq<seq<NotificationRefs>>)

  /** `AtlasReferrerByProjectIndexerBase.Keys`. */
  function ProjectKeys(o: Resource): seq<string> {
    if o.dualRef.None? || o.dualRef.value.None? || o.dualRef.value.value.name == "" then []
    else [KeyString(GetObject(o.dualRef.value, o.id.namespace).value)]
  }

  /** `LocalCredentialIndexer.Keys` of an indexer for objects of a kind. */
  function CredentialKeys(kind: string, o: Resource): seq<string> {
    if o.kind != kind || o.credentials.None? then []
    else if o.credentials.value.Some? && o.credentials.value.value != "" then
      [KeyString(NamespacedName(o.id.namespace, o.credentials.value.value))]
    else []
  }

  const PROJECT_KIND := "AtlasProject"
  const SECRET_KIND := "Secret"

  function NotificationRefList(n: NotificationRefs): seq<ResourceRef> {
    [n.apiToken, n.datadogAPIKey, n.flowdockAPIToken, n.opsGenieAPIKey, n.serviceKey, n.victorOpsSecret]
  }

  /** `r` stands in some place of the spec that refers to a secret. */
  ghost predicate HoldsRef(s: ProjectSecrets, r: ResourceRef) {
    || s.connectionSecret == Some(r)
    || (s.encryption.Some? && (r == s.encryption.value.aws || r == s.encryption.value.azure || r == s.encryption.value.gcp))
    || exists i, j :: 0 <= i < |s.alerts| && 0 <= j < |s.alerts[i]| && NotificationHolds(s.alerts[i][j], r)
  }

  predicate NotificationHolds(n: NotificationRefs, r: ResourceRef) {
    || r == n.apiToken || r == n.datadogAPIKey || r == n.flowdockAPIToken
    || r == n.opsGenieAPIKey || r == n.serviceKey || r == n.victorOpsSecret
  }

  ghost predicate IsSecretKey(o: Resource, k: string) {
    o.kind == PROJECT_KIND && exists r :: HoldsRef(o.secrets, r) && !r.IsEmpty() && k == KeyString(Resolve(r, o.id.namespace))
  }

  function EncryptionRefList(e: EncryptionRefs): seq<ResourceRef> {
    [e.aws, e.azure, e.gcp]
  }

  function FixedRefs(s: ProjectSecrets): seq<ResourceRef> {
    (if s.connectionSecret.Some? then [s.connectionSecret.value] else [])
    + (if s.encryption.Some? then EncryptionRefList(s.encryption.value) else [])
  }

  /** All secret references of a spec, in the order they are visited. */
  function AllRefs(s: ProjectSecrets): seq<ResourceRef> {
    FixedRefs(s) + AlertRefs(s.alerts)
  }

  function AlertRefs(alerts: seq<seq<NotificationRefs>>): seq<ResourceRef> {
    if alerts == [] then [] else AlertRefs(alerts[..|alerts| - 1]) + RefsOfAlert(alerts[|alerts| - 1])
  }

  function RefsOfAlert(ns: seq<NotificationRefs>): seq<ResourceRef> {
    if ns == [] then [] else RefsOfAlert(ns[..|ns| - 1]) + NotificationRefList(ns[|ns| - 1])
  }

  function KeysOf(refs: seq<ResourceRef>, namespace: string): set<string> {
    set r | r in refs && !r.IsEmpty() :: KeyString(Resolve(r, namespace))
  }

  function SecretKeys(o: Resource): set<string> {
    if o.kind == PROJECT_KIND then KeysOf(AllRefs(o.secrets), o.id.namespace) else {}
  }

  lemma KeysOfConcat(a: seq<ResourceRef>, b: seq<ResourceRef>, namespace: string)
    ensures KeysOf(a + b, namespace) == KeysOf(a, namespace) + KeysOf(b, namespace)
  {
  }

  function AddIfNotEmpty(keys: set<string>, ref: ResourceRef, namespace: string): (r: set<string>)
    ensures r == keys + KeysOf([ref], namespace)
  {
    if ref.IsEmpty() then keys else keys + {KeyString(Resolve(ref, namespace))}
  }

  lemma {:induction false} InRefsOfAlert(ns: seq<NotificationRefs>, r: ResourceRef)
    ensures r in RefsOfAlert(ns) <==> exists j :: 0 <= j < |ns| && NotificationHolds(ns[j], r)
  {
    if ns != [] {
      InRefsOfAlert(ns[..|ns| - 1], r);
      if j :| 0 <= j < |ns| && NotificationHolds(ns[j], r) {
        if j < |ns| - 1 {
          assert ns[..|ns| - 1][j] == ns[j];
        }
      }
    }
  }

  lemma {:induction false} InAlertRefs(alerts: seq<seq<NotificationRefs>>, r: ResourceRef)
    ensures r in AlertRefs(alerts) <==>
      exists i, j :: 0 <= i < |alerts| && 0 <= j < |alerts[i]| && NotificationHolds(alerts[i][j], r)
  {
    if alerts != [] {
      var n := |alerts| - 1;
      InAlertRefs(alerts[..n], r);
      InRefsOfAlert(alerts[n], r);
      if i, j :| 0 <= i < |alerts| && 0 <= j < |alerts[i]| && NotificationHolds(alerts[i][j], r) {
        if i < n {
          assert alerts[..n][i] == alerts[i];
        }
      }
      if i, j :| 0 <= i < n && 0 <= j < |alerts[..n][i]| && NotificationHolds(alerts[..n][i][j], r) {
        assert NotificationHolds(alerts[i][j], r);
      }
    }
  }

  lemma SecretKeysAreSecretKeys(o: Resource, k: string)
    ensures k in SecretKeys(o) <==> IsSecretKey(o, k)
  {
    if o.kind == PROJECT_KIND {
      forall r ensures r in AllRefs(o.secrets) <==> HoldsRef(o.secrets, r) {
        InAlertRefs(o.secrets.alerts, r);
      }
    }
  }

  /** `AtlasProjectByConnectionSecretIndexer.Keys`: the resolved references gathered in a set by
      nested loops over alert configurations and notifications. */
  method ProjectSecretKeys(o: Resource) returns (keys: set<string>)
    ensures keys == SecretKeys(o)
    ensures forall k :: k in keys <==> IsSecretKey(o, k)
  {
    forall k ensures k in SecretKeys(o) <==> IsSecretKey(o, k) {
      SecretKeysAreSecretKeys(o, k);
    }
    if o.kind != PROJECT_KIND { return {}; }
    var s, ns := o.secrets, o.id.namespace;
    keys := AddFixed(s, ns);
    ghost var start := keys;
    var i := 0;
    while i < |s.alerts|
      invariant 0 <= i <= |s.alerts|
      invariant keys == start + KeysOf(AlertRefs(s.alerts[..i]), ns)
    {
      keys := AddAlert(keys, s.alerts[i], ns);
      assert s.alerts[..i + 1][..i] == s.alerts[..i];
      KeysOfConcat(AlertRefs(s.alerts[..i]), RefsOfAlert(s.alerts[i]), ns);
      i := i + 1;
    }
    assert s.alerts[..i] == s.alerts;
    KeysOfConcat(FixedRefs(s), AlertRefs(s.alerts), ns);
  }

  method AddFixed(s: ProjectSecrets, ns: string) returns (keys: set<string>)
    ensures keys == KeysOf(FixedRefs(s), ns)
  {
    keys := {};
    if s.connectionSecret.Some? {
      keys := AddIfNotEmpty(keys, s.connectionSecret.value, ns);
    }
    if s.encryption.Some? {
      var e := s.encryption.value;
      ghost var start, refs := keys, [e.aws];
      keys := AddIfNotEmpty(keys, e.aws, ns);
      keys, refs := AddNext(keys, start, refs, e.azure, ns);
      keys, refs := AddNext(keys, start, refs, e.gcp, ns);
      assert refs == EncryptionRefList(e);
      KeysOfConcat(if s.connectionSecret.Some? then [s.connectionSecret.value] else [], EncryptionRefList(e), ns);
    }
  }

  method AddAlert(keys: set<string>, notifications: seq<NotificationRefs>, ns: string) returns (r: set<string>)
    ensures r == keys + KeysOf(RefsOfAlert(notifications), ns)
  {
    r := keys;
    var j := 0;
    while j < |notifications|
      invariant 0 <= j <= |notifications|
      invariant r == keys + KeysOf(RefsOfAlert(notifications[..j]), ns)
    {
      r := AddNotification(r, notifications[j], ns);
      assert notifications[..j + 1][..j] == notifications[..j];
      KeysOfConcat(RefsOfAlert(notifications[..j]), NotificationRefList(notifications[j]), ns);
      j := j + 1;
    }
    assert notifications[..j] == notifications;
  }

  method AddNotification(keys: set<string>, n: NotificationRefs, ns: string) returns (r: set<string>)
    ensures r == keys + KeysOf(NotificationRefList(n), ns)
  {
    ghost var refs := [n.apiToken];
    r := AddIfNotEmpty(keys, n.apiToken, ns);
    r, refs := AddNext(r, keys, refs, n.datadogAPIKey, ns);
    r, refs := AddNext(r, keys, refs, n.flowdockAPIToken, ns);
    r, refs := AddNext(r, keys, refs, n.opsGenieAPIKey, ns);
    r, refs := AddNext(r, keys, refs, n.serviceKey, ns);
    r, refs := AddNext(r, keys, refs, n.victorOpsSecret, ns);
    assert refs == NotificationRefList(n);
  }

  /** `addIfNotEmpty`: adds a reference to the keys of those before it. */
  method AddNext(keys: set<string>, ghost start: set<string>, ghost refs: seq<ResourceRef>, ref: ResourceRef, ns: string)
    returns (r: set<string>, ghost refs': seq<ResourceRef>)
    requires keys == start + KeysOf(refs, ns)
    ensures r == start + KeysOf(refs', ns) && refs' == refs + [ref]
  {
    r, refs' := AddIfNotEmpty(keys, ref, ns), refs + [ref];
    KeysOfConcat(refs, [ref], ns);
  }

  // ---- The index over a run ----

  /** The informer's store of one kind and the field index beside it. */
  datatype Store = Store(objects: map<NamespacedName, Resource>, index: map<string, set<NamespacedName>>)

  datatype Op = Put(o: Resource) | Delete(id: NamespacedName)

  type KeysFunc = Resource -> set<string>

  function ToSet(keys: seq<string>): set<string> {
    set k | k in keys
  }

  function Bucket(index: map<string, set<NamespacedName>>, k: string): set<NamespacedName> {
    if k in index then index[k] else {}
  }

  /** Takes an object out under its old keys and puts it in under its new ones. */
  function Reindex(index: map<string, set<NamespacedName>>, id: NamespacedName, oldKeys: set<string>, newKeys: set<string>):
    map<string, set<NamespacedName>>
  {
    map k | k in index.Keys + newKeys ::
      (Bucket(index, k) - (if k in oldKeys then {id} else {})) + (if k in newKeys then {id} else {})
  }

  function OldKeys(keys: KeysFunc, s: Store, id: NamespacedName): set<string> {
    if id in s.objects then keys(s.objects[id]) else {}
  }

  function Apply(keys: KeysFunc, s: Store, op: Op): Store {
    match op
    case Put(o) => Store(s.objects[o.id := o], Reindex(s.index, o.id, OldKeys(keys, s, o.id), keys(o)))
    case Delete(id) => Store(s.objects - {id}, Reindex(s.index, id, OldKeys(keys, s, id), {}))
  }

  function Run(keys: KeysFunc, ops: seq<Op>): Store {
    if ops == [] then Store(map[], map[]) else Apply(keys, Run(keys, ops[..|ops| - 1]), ops[|ops| - 1])
  }

  /** The object stored under an id is the one of its last put, unless it was deleted since. */
  function LastPut(ops: seq<Op>, id: NamespacedName): Option<Resource> {
    if ops == [] then None
    else match ops[|ops| - 1]
      case Put(o) => if o.id == id then Some(o) else LastPut(ops[..|ops| - 1], id)
      case Delete(d) => if d == id then None else LastPut(ops[..|ops| - 1], id)
  }

  /** Over every run, the store holds each object's last version, and the bucket of a key is
      exactly what a scan of the store for that key would find. */
  lemma {:induction false} IndexIsScan(keys: KeysFunc, ops: seq<Op>, id: NamespacedName, k: string)
    ensures var s := Run(keys, ops);
      && (id in s.objects <==> LastPut(ops, id).Some?)
      && (id in s.objects ==> s.objects[id] == LastPut(ops, id).value && s.objects[id].id == id)
      && (id in Bucket(s.index, k) <==> id in s.objects && k in keys(s.objects[id]))
  {
    if ops != [] {
      IndexIsScan(keys, ops[..|ops| - 1], id, k);
    }
  }

  // ---- The mappers ----

  /** What a watch hands to a mapper. */
  datatype Watched = Watched(kind: string, id: NamespacedName)

  function ToRequest(o: Resource): NamespacedName {
    NamespacedName(o.id.namespace, o.id.name)
  }

  /** The mapper of an index for a watched kind: nothing for other kinds or when listing fails. */
  function MapperFunc(s: Store, kind: string, watched: Watched, listFails: bool): set<NamespacedName> {
    if watched.kind != kind || listFails then {}
    else set id | id in Bucket(s.index, KeyString(watched.id)) && id in s.objects :: ToRequest(s.objects[id])
  }

  /** The stored object refers to the project: by name and, explicitly or by default, namespace. */
  predicate RefersToProject(o: Resource, project: NamespacedName) {
    && o.dualRef.Some? && o.dualRef.value.Some? && o.dualRef.value.value.name != ""
    && RefersTo(o.dualRef.value.value, o.id.namespace, project)
  }

  predicate UsesCredentials(kind: string, o: Resource, secret: NamespacedName) {
    && o.kind == kind && o.credentials.Some?
    && o.credentials.value == Some(secret.name) && secret.name != "" && o.id.namespace == secret.namespace
  }

  ghost predicate UsesSecret(o: Resource, secret: NamespacedName) {
    o.kind == PROJECT_KIND && exists r :: HoldsRef(o.secrets, r) && RefersTo(r, o.id.namespace, secret)
  }

  lemma {:induction false} MapperIsScan(keys: KeysFunc, ops: seq<Op>, kind: string, watched: Watched, id: NamespacedName)
    requires watched.kind == kind
    ensures id in MapperFunc(Run(keys, ops), kind, watched, false) <==>
      LastPut(ops, id).Some? && KeyString(watched.id) in keys(LastPut(ops, id).value)
  {
    var s, k := Run(keys, ops), KeyString(watched.id);
    IndexIsScan(keys, ops, id, k);
    if id in MapperFunc(s, kind, watched, false) {
      var other :| other in Bucket(s.index, k) && other in s.objects && ToRequest(s.objects[other]) == id;
      IndexIsScan(keys, ops, other, k);
    }
    if id in Bucket(s.index, k) {
      assert ToRequest(s.objects[id]) == id;
    }
  }

  lemma ProjectKeyMeansReference(o: Resource, project: NamespacedName)
    requires SlashFree(project)
    ensures KeyString(project) in ToSet(ProjectKeys(o)) <==> RefersToProject(o, project)
  {
    if ProjectKeys(o) != [] {
      var ref := o.dualRef.value.value;
      ResolveIsRefersTo(ref, o.id.namespace, project);
      if KeyString(Resolve(ref, o.id.namespace)) == KeyString(project) {
        KeyOfSlashFreeNameIsUnique(Resolve(ref, o.id.namespace), project);
      }
    }
  }

  /** For a changed project, the mapper requests exactly the stored objects that refer to it. */
  lemma {:induction false} ProjectMapperFindsReferrers(ops: seq<Op>, project: NamespacedName, id: NamespacedName)
    requires SlashFree(project)
    ensures id in MapperFunc(Run(o => ToSet(ProjectKeys(o)), ops), PROJECT_KIND, Watched(PROJECT_KIND, project), false) <==>
      LastPut(ops, id).Some? && RefersToProject(LastPut(ops, id).value, project)
  {
    MapperIsScan(o => ToSet(ProjectKeys(o)), ops, PROJECT_KIND, Watched(PROJECT_KIND, project), id);
    if LastPut(ops, id).Some? {
      ProjectKeyMeansReference(LastPut(ops, id).value, project);
    }
  }

  /** For a changed secret, the mapper requests exactly the stored objects with these credentials. */
  lemma {:induction false} CredentialsMapperFindsUsers(kind: string, ops: seq<Op>, secret: NamespacedName, id: NamespacedName)
    requires SlashFree(secret)
    ensures id in MapperFunc(Run(o => ToSet(CredentialKeys(kind, o)), ops), SECRET_KIND, Watched(SECRET_KIND, secret), false) <==>
      LastPut(ops, id).Some? && UsesCredentials(kind, LastPut(ops, id).value, secret)
  {
    MapperIsScan(o => ToSet(CredentialKeys(kind, o)), ops, SECRET_KIND, Watched(SECRET_KIND, secret), id);
    if LastPut(ops, id).Some? {
      var o := LastPut(ops, id).value;
      if CredentialKeys(kind, o) != [] {
        var key := NamespacedName(o.id.namespace, o.credentials.value.value);
        if KeyString(key) == KeyString(secret) {
          KeyOfSlashFreeNameIsUnique(key, secret);
        }
      }
    }
  }

  /** For a changed secret, the project mapper requests exactly the stored projects that refer to it
      anywhere in their specs. */
  lemma {:induction false} SecretMapperFindsProjects(ops: seq<Op>, secret: NamespacedName, id: NamespacedName)
    requires SlashFree(secret) && secret.name != ""
    ensures id in MapperFunc(Run(SecretKeys, ops), SECRET_KIND, Watched(SECRET_KIND, secret), false) <==>
      LastPut(ops, id).Some? && UsesSecret(LastPut(ops, id).value, secret)
  {
    MapperIsScan(SecretKeys, ops, SECRET_KIND, Watched(SECRET_KIND, secret), id);
    if LastPut(ops, id).Some? {
      SecretKeyMeansUse(LastPut(ops, id).value, secret);
    }
  }

  lemma SecretKeyMeansUse(o: Resource, secret: NamespacedName)
    requires SlashFree(secret) && secret.name != ""
    ensures KeyString(secret) in SecretKeys(o) <==> UsesSecret(o, secret)
  {
    SecretKeysAreSecretKeys(o, KeyString(secret));
    if IsSecretKey(o, KeyString(secret)) {
      var r :| HoldsRef(o.secrets, r) && !r.IsEmpty() && KeyString(secret) == KeyString(Resolve(r, o.id.namespace));
      KeyOfSlashFreeNameIsUnique(Resolve(r, o.id.namespace), secret);
      ResolveIsRefersTo(r, o.id.namespace, secret);
    }
    if UsesSecret(o, secret) {
      var r :| HoldsRef(o.secrets, r) && RefersTo(r, o.id.namespace, secret);
      ResolveIsRefersTo(r, o.id.namespace, secret);
    }
  }
}
