/** Backup compliance policies: normalizing, comparing and converting the spec
    (api/v1/atlasbackupcompliancepolicy_types.go), and the two comparisons of the controller
    (internal/controller/atlasproject/backupcompliancepolicy.go). */
module BackupCompliance {
  import opened DeepCopying
  import opened SliceSorting
  import opened Sorting
  import opened Text

  datatype Item = Item(frequencyType: string, frequencyInterval: int, retentionUnit: string, retentionValue: int)

  datatype OnDemandPolicy = OnDemandPolicy(retentionUnit: string, retentionValue: int)

  const EMPTY_POLICY := OnDemandPolicy("", 0)

  /** The spec's fields apart from the item list and the overwrite flag. */
  datatype Fields = Fields(
    authorizedEmail: string,
    authorizedUserFirstName: string,
    authorizedUserLastName: string,
    copyProtectionEnabled: bool,
    encryptionAtRestEnabled: bool,
    pitEnabled: bool,
    restoreWindowDays: int,
    onDemandPolicy: OnDemandPolicy)

  /** What a spec pointer shows; `items` is None for a nil slice. */
  datatype View =
    | NilView
    | SpecView(fields: Fields, overwriteBackupPolicies: bool, items: Option<seq<Item>>)

  /** The three flags that `ToAtlas` takes the addresses of are cells of the spec's memory. */
  class Spec {
    var authorizedEmail: string
    var authorizedUserFirstName: string
    var authorizedUserLastName: string
    const copyProtectionEnabled: Cell<bool>
    const encryptionAtRestEnabled: Cell<bool>
    var overwriteBackupPolicies: bool
    const pitEnabled: Cell<bool>
    var restoreWindowDays: int
    var scheduledPolicyItems: array?<Item>
    var onDemandPolicy: OnDemandPolicy

    function Flags(): set<object> {
      {copyProtectionEnabled, encryptionAtRestEnabled, pitEnabled}
    }

    function Shown(): Fields
      reads this, Flags()
    {
      Fields(
        authorizedEmail, authorizedUserFirstName, authorizedUserLastName, copyProtectionEnabled.value,
        encryptionAtRestEnabled.value, pitEnabled.value, restoreWindowDays, onDemandPolicy)
    }

    constructor (fields: Fields, overwrite: bool, items: array?<Item>)
      ensures Shown() == fields && overwriteBackupPolicies == overwrite && scheduledPolicyItems == items
      ensures fresh(Flags())
    {
      authorizedEmail := fields.authorizedEmail;
      authorizedUserFirstName := fields.authorizedUserFirstName;
      authorizedUserLastName := fields.authorizedUserLastName;
      copyProtectionEnabled := new Cell(fields.copyProtectionEnabled);
      encryptionAtRestEnabled := new Cell(fields.encryptionAtRestEnabled);
      pitEnabled := new Cell(fields.pitEnabled);
      restoreWindowDays := fields.restoreWindowDays;
      onDemandPolicy := fields.onDemandPolicy;
      overwriteBackupPolicies := overwrite;
      scheduledPolicyItems := items;
    }
  }

  /** The flag cells of a spec pointer. */
  function FlagsOf(s: Spec?): set<object> {
    if s == null then {} else s.Flags()
  }

  function Slice(a: array?<Item>): Option<seq<Item>>
    reads a
  {
    if a == null then None else Some(a[..])
  }

  /** The objects of a spec pointer that normalizing writes to. */
  function Reach(s: Spec?): set<object>
    reads s
  {
    if s == null then {} else if s.scheduledPolicyItems == null then {s} else {s, s.scheduledPolicyItems}
  }

  function ViewOf(s: Spec?): View
    reads s, Reach(s), FlagsOf(s)
  {
    if s == null then NilView
    else SpecView(s.Shown(), s.overwriteBackupPolicies, Slice(s.scheduledPolicyItems))
  }

  /** Two specs show the same exactly when they agree in every field but the flag and the items. */
  lemma ShowTheSameIff(a: Spec, b: Spec)
    ensures a.Shown() == b.Shown() <==>
      && a.authorizedEmail == b.authorizedEmail
      && a.authorizedUserFirstName == b.authorizedUserFirstName
      && a.authorizedUserLastName == b.authorizedUserLastName
      && a.copyProtectionEnabled.value == b.copyProtectionEnabled.value
      && a.encryptionAtRestEnabled.value == b.encryptionAtRestEnabled.value
      && a.pitEnabled.value == b.pitEnabled.value
      && a.restoreWindowDays == b.restoreWindowDays
      && a.onDemandPolicy == b.onDemandPolicy
  {
  }

  // ---- Normalizing ----

  ghost predicate Injective(json: Item -> string) {
    forall x, y :: json(x) == json(y) ==> x == y
  }

  function ByJSON(json: Item -> string): (Item, Item) -> bool {
    (x, y) => Compare(json(x), json(y)) <= 0
  }

  lemma ByJSONIsTotalPreorder(json: Item -> string)
    ensures TotalPreorder(ByJSON(json))
  {
    var leq := ByJSON(json);
    forall x, y ensures leq(x, y) || leq(y, x) {
      CompareAntisymmetric(json(x), json(y));
    }
    forall x, y, z | leq(x, y) && leq(y, z) ensures leq(x, z) {
      CompareTransitive(json(x), json(y), json(z));
    }
  }

  lemma NoTies(json: Item -> string, s: seq<Item>)
    requires Injective(json)
    ensures TiesAreEqual(ByJSON(json), s)
  {
    forall x, y | x in s && y in s && ByJSON(json)(x, y) && ByJSON(json)(y, x) ensures x == y {
      CompareAntisymmetric(json(x), json(y));
    }
  }

  /** `after` is the normal form of `before`: items sorted, flag cleared, the rest as it was. */
  ghost predicate NormalFormOf(json: Item -> string, before: View, after: View) {
    match before
    case NilView => after == NilView
    case SpecView(fields, _, items) =>
      && after.SpecView? && after.fields == fields && !after.overwriteBackupPolicies
      && SortedItems(json, items, after.items)
  }

  ghost predicate SortedItems(json: Item -> string, before: Option<seq<Item>>, after: Option<seq<Item>>) {
    match before
    case None => after == None
    case Some(items) => after.Some? && Permutation(after.value, items) && Ascends(json, after.value)
  }

  /** The JSON texts ascend in the order of bytes. */
  ghost predicate Ascends(json: Item -> string, s: seq<Item>) {
    forall i, j :: 0 <= i < j < |s| ==> !Precedes(json(s[j]), json(s[i]))
  }

  lemma SortedMeansAscends(json: Item -> string, s: seq<Item>)
    ensures Sorted(ByJSON(json), s) <==> Ascends(json, s)
  {
    forall i, j | 0 <= i < j < |s| ensures ByJSON(json)(s[i], s[j]) <==> !Precedes(json(s[j]), json(s[i])) {
      CompareIsByteOrder(json(s[i]), json(s[j]));
    }
  }

  /** `Normalize`: the receiver itself is changed and returned. */
  method Normalize(s: Spec?, json: Item -> string) returns (r: Spec?)
    modifies Reach(s)
    ensures r == s && Reach(s) == old(Reach(s))
    ensures NormalFormOf(json, old(ViewOf(s)), ViewOf(s))
  {
    if s != null {
      ghost var before := ViewOf(s);
      var items := s.scheduledPolicyItems;
      if items != null {
        ByJSONIsTotalPreorder(json);
        SortInPlace(items, ByJSON(json));
        SortedMeansAscends(json, items[..]);
      }
      s.overwriteBackupPolicies := false;
    }
    r := s;
  }

  /** Equality of two specs as the operator means it: the overwrite flag and the order of the
      scheduled items do not count, whether the list is nil does. */
  ghost predicate SameSpec(v: View, w: View) {
    match v
    case NilView => w.NilView?
    case SpecView(fields, _, items) =>
      && w.SpecView? && w.fields == fields
      && (items.None? <==> w.items.None?)
      && (items.Some? && w.items.Some? ==> multiset(items.value) == multiset(w.items.value))
  }

  /** Normal forms agree exactly on the same specs. */
  lemma NormalFormsAgreeIff(json: Item -> string, v: View, w: View, v': View, w': View)
    requires Injective(json) && NormalFormOf(json, v, v') && NormalFormOf(json, w, w')
    ensures v' == w' <==> SameSpec(v, w)
  {
    if SameSpec(v, w) && v.SpecView? && v.items.Some? {
      NoTies(json, v'.items.value);
      SortedMeansAscends(json, v'.items.value);
      SortedMeansAscends(json, w'.items.value);
      SortedUnique(ByJSON(json), v'.items.value, w'.items.value);
    }
  }

  /** The sequences a sort may leave make no difference to what a spec's normal form is. */
  lemma SameSpecNormalizesAlike(json: Item -> string, v: View, mid: View, v': View)
    requires SameSpec(v, mid) && NormalFormOf(json, mid, v')
    ensures NormalFormOf(json, v, v')
  {
  }

  /** Normalizing leaves any other spec the same spec, and normal if it was, even one that shares
      the items. */
  method NormalizeBeside(s: Spec?, json: Item -> string, ghost other: Spec?, ghost v: View) returns (r: Spec?)
    modifies Reach(s)
    ensures r == s && Reach(s) == old(Reach(s)) && Reach(other) == old(Reach(other))
    ensures NormalFormOf(json, old(ViewOf(s)), ViewOf(s))
    ensures SameSpec(old(ViewOf(other)), ViewOf(other))
    ensures NormalFormOf(json, v, old(ViewOf(other))) ==> NormalFormOf(json, v, ViewOf(other))
  {
    r := Normalize(s, json);
  }

  /** `SemanticEqual` on two specs, which may be nil, the same, or share their items. Both are
      left normalized. */
  method SemanticEqual(a: Spec?, b: Spec?, json: Item -> string) returns (equal: bool)
    requires Injective(json)
    modifies Reach(a), Reach(b)
    ensures equal <==> SameSpec(old(ViewOf(a)), old(ViewOf(b)))
    ensures NormalFormOf(json, old(ViewOf(a)), ViewOf(a)) && NormalFormOf(json, old(ViewOf(b)), ViewOf(b))
    ensures Reach(a) == old(Reach(a)) && Reach(b) == old(Reach(b))
  {
    ghost var v, w := ViewOf(a), ViewOf(b);
    var aResult := NormalizeBeside(a, json, b, w);
    ghost var mid := ViewOf(b);
    var bResult := NormalizeBeside(b, json, a, v);
    SameSpecNormalizesAlike(json, w, mid, ViewOf(b));
    NormalFormsAgreeIff(json, v, w, ViewOf(a), ViewOf(b));
    equal := ViewOf(aResult) == ViewOf(bResult);
  }

  /** Being the same spec is an equivalence. */
  lemma SameSpecIsEquivalence(u: View, v: View, w: View)
    ensures SameSpec(v, v)
    ensures SameSpec(v, w) <==> SameSpec(w, v)
    ensures SameSpec(u, v) && SameSpec(v, w) ==> SameSpec(u, w)
  {
  }

  method DeepCopy(s: Spec?) returns (copy: Spec?)
    ensures fresh(Reach(copy)) && fresh(FlagsOf(copy)) && ViewOf(copy) == ViewOf(s)
  {
    if s == null {
      return null;
    }
    var items: array?<Item> := null;
    var source := s.scheduledPolicyItems;
    if source != null {
      var copied := new Item[source.Length](i requires 0 <= i < source.Length reads source => source[i]);
      assert copied[..] == source[..];
      items := copied;
    }
    copy := new Spec(s.Shown(), s.overwriteBackupPolicies, items);
  }

  // ---- Conversion ----

  datatype AtlasItem = AtlasItem(frequencyInterval: int, frequencyType: string, retentionUnit: string, retentionValue: int)

  datatype AtlasOnDemandItem = AtlasOnDemandItem(
    frequencyInterval: int, frequencyType: string, retentionValue: int, retentionUnit: string)

  /** The settings object of the Atlas API; flags are pointers, the item list a pointer to a slice. */
  datatype DataProtectionSettings = DataProtectionSettings(
    authorizedEmail: string,
    authorizedUserFirstName: string,
    authorizedUserLastName: string,
    copyProtectionEnabled: Cell?<bool>,
    encryptionAtRestEnabled: Cell?<bool>,
    pitEnabled: Cell?<bool>,
    projectID: Option<string>,
    restoreWindowDays: Option<int>,
    onDemandPolicyItem: Option<AtlasOnDemandItem>,
    scheduledPolicyItems: array?<AtlasItem>)

  /** The four fields of an item in the two forms. */
  predicate SameItem(i: Item, a: AtlasItem) {
    && a.frequencyInterval == i.frequencyInterval && a.frequencyType == i.frequencyType
    && a.retentionUnit == i.retentionUnit && a.retentionValue == i.retentionValue
  }

  ghost predicate ItemsConverted(items: seq<Item>, atlas: seq<AtlasItem>) {
    |atlas| == |items| && forall i :: 0 <= i < |items| ==> SameItem(items[i], atlas[i])
  }

  /** The fields that come back from Atlas: an on-demand policy that is not empty has its unit
      lowered, an empty one is left out. */
  function Returned(fields: Fields, lower: string -> string): Fields {
    var policy := fields.onDemandPolicy;
    if policy == EMPTY_POLICY then fields
    else fields.(onDemandPolicy := policy.(retentionUnit := lower(policy.retentionUnit)))
  }

  predicate IsSet(flag: Cell?<bool>)
    reads flag
  {
    flag != null && flag.value
  }

  function FlagOr(c: Cell?<bool>, default: bool): bool
    reads c
  {
    if c == null then default else c.value
  }

  /** The fields of a settings object, with its optional ones defaulted. */
  function AtlasFields(d: DataProtectionSettings): Fields
    reads d.copyProtectionEnabled, d.encryptionAtRestEnabled, d.pitEnabled
  {
    Fields(
      d.authorizedEmail, d.authorizedUserFirstName, d.authorizedUserLastName,
      FlagOr(d.copyProtectionEnabled, false), FlagOr(d.encryptionAtRestEnabled, false),
      FlagOr(d.pitEnabled, false), OrDefault(d.restoreWindowDays, 0),
      if d.onDemandPolicyItem.Some?
        then OnDemandPolicy(d.onDemandPolicyItem.value.retentionUnit, d.onDemandPolicyItem.value.retentionValue)
        else EMPTY_POLICY)
  }

  /** `ToAtlas`; a nil item list becomes an empty one, and the flags of the result are those of the
      spec itself. */
  method ToAtlas(s: Spec, projectID: string, lower: string -> string) returns (result: DataProtectionSettings)
    ensures result.scheduledPolicyItems != null && fresh(result.scheduledPolicyItems)
    ensures ItemsConverted(OrDefault(Slice(s.scheduledPolicyItems), []), result.scheduledPolicyItems[..])
    ensures result.authorizedEmail == s.authorizedEmail
    ensures result.authorizedUserFirstName == s.authorizedUserFirstName
    ensures result.authorizedUserLastName == s.authorizedUserLastName
    ensures result.copyProtectionEnabled == s.copyProtectionEnabled
    ensures result.encryptionAtRestEnabled == s.encryptionAtRestEnabled
    ensures result.pitEnabled == s.pitEnabled
    ensures result.projectID == Some(projectID)
    ensures result.restoreWindowDays == Some(s.restoreWindowDays)
    ensures result.onDemandPolicyItem.None? <==> s.onDemandPolicy.retentionUnit == "" && s.onDemandPolicy.retentionValue == 0
    ensures result.onDemandPolicyItem.Some? ==>
      var item := result.onDemandPolicyItem.value;
      && item.frequencyType == "ondemand" && item.frequencyInterval == 0
      && item.retentionValue == s.onDemandPolicy.retentionValue && item.retentionUnit == lower(s.onDemandPolicy.retentionUnit)
    ensures AtlasFields(result) == Returned(s.Shown(), lower)
  {
    var onDemand: Option<AtlasOnDemandItem> := None;
    if s.onDemandPolicy != EMPTY_POLICY {
      onDemand := Some(AtlasOnDemandItem(0, "ondemand", s.onDemandPolicy.retentionValue, lower(s.onDemandPolicy.retentionUnit)));
    }
    var items := s.scheduledPolicyItems;
    var length := if items == null then 0 else items.Length;
    var temp := new AtlasItem[length](_ => AtlasItem(0, "", "", 0));
    for i := 0 to length
      invariant forall j :: 0 <= j < i ==> SameItem(items[j], temp[j])
    {
      var policy := items[i];
      temp[i] := AtlasItem(policy.frequencyInterval, policy.frequencyType, policy.retentionUnit, policy.retentionValue);
    }
    result := DataProtectionSettings(
      s.authorizedEmail, s.authorizedUserFirstName, s.authorizedUserLastName, s.copyProtectionEnabled,
      s.encryptionAtRestEnabled, s.pitEnabled, Some(projectID), Some(s.restoreWindowDays), onDemand, temp);
  }

  function ItemsFromAtlas(items: seq<AtlasItem>): (r: seq<Item>)
    ensures |r| == |items| && ItemsConverted(r, items)
  {
    seq(|items|, i requires 0 <= i < |items| =>
      Item(items[i].frequencyType, items[i].frequencyInterval, items[i].retentionUnit, items[i].retentionValue))
  }

  /** What a spec made from the settings shows; they may be nil. */
  function FromAtlas(d: Option<DataProtectionSettings>): View
    requires d.Some? ==> d.value.scheduledPolicyItems != null
    reads if d.Some? then {d.value.scheduledPolicyItems} else {}
    reads if d.Some? then
      {d.value.copyProtectionEnabled, d.value.encryptionAtRestEnabled, d.value.pitEnabled} else {}
  {
    if d.None? then NilView
    else SpecView(AtlasFields(d.value), false, Some(ItemsFromAtlas(d.value.scheduledPolicyItems[..])))
  }

  /** `NewBCPFromAtlas`: nil for nil; it dereferences the item list without a check. */
  method NewBCPFromAtlas(d: Option<DataProtectionSettings>) returns (out: Spec?)
    requires d.Some? ==> d.value.scheduledPolicyItems != null
    ensures fresh(Reach(out)) && fresh(FlagsOf(out)) && ViewOf(out) == FromAtlas(d)
    ensures out == null <==> d.None?
    ensures out != null ==>
      && out.authorizedEmail == d.value.authorizedEmail
      && out.authorizedUserFirstName == d.value.authorizedUserFirstName
      && out.authorizedUserLastName == d.value.authorizedUserLastName
      && (out.copyProtectionEnabled.value <==> IsSet(d.value.copyProtectionEnabled))
      && (out.encryptionAtRestEnabled.value <==> IsSet(d.value.encryptionAtRestEnabled))
      && (out.pitEnabled.value <==> IsSet(d.value.pitEnabled))
      && out.restoreWindowDays == (if d.value.restoreWindowDays == None then 0 else d.value.restoreWindowDays.value)
      && !out.overwriteBackupPolicies
    ensures out != null ==>
      var policy, item := out.onDemandPolicy, d.value.onDemandPolicyItem;
      && policy.retentionUnit == (if item.Some? then item.value.retentionUnit else "")
      && policy.retentionValue == (if item.Some? then item.value.retentionValue else 0)
    ensures out != null ==>
      out.scheduledPolicyItems != null && ItemsConverted(out.scheduledPolicyItems[..], d.value.scheduledPolicyItems[..])
  {
    if d.None? {
      return null;
    }
    var items := d.value.scheduledPolicyItems;
    var temp := new Item[items.Length](_ => Item("", 0, "", 0));
    for i := 0 to items.Length
      invariant forall j :: 0 <= j < i ==> SameItem(temp[j], items[j])
    {
      var policy := items[i];
      temp[i] := Item(policy.frequencyType, policy.frequencyInterval, policy.retentionUnit, policy.retentionValue);
    }
    assert temp[..] == ItemsFromAtlas(items[..]);
    out := new Spec(AtlasFields(d.value), false, temp);
  }

  /** Converted lists determine each other. */
  lemma ConvertedBack(items: seq<Item>, atlas: seq<AtlasItem>, back: seq<Item>)
    requires ItemsConverted(items, atlas) && ItemsConverted(back, atlas)
    ensures back == items
  {
    forall i | 0 <= i < |items| ensures back[i] == items[i] {
      assert SameItem(back[i], atlas[i]) && SameItem(items[i], atlas[i]);
    }
  }

  /** To Atlas and back gives the same spec exactly when the item list is not nil and the on-demand
      policy is empty or its unit in lower case. */
  lemma RoundTripIff(v: View, lower: string -> string, d: DataProtectionSettings)
    requires v.SpecView? && AtlasFields(d) == Returned(v.fields, lower) && d.scheduledPolicyItems != null
    requires ItemsConverted(OrDefault(v.items, []), d.scheduledPolicyItems[..])
    ensures SameSpec(v, FromAtlas(Some(d))) <==> v.items.Some? && LowerCaseUnit(v.fields.onDemandPolicy, lower)
  {
    ConvertedBack(OrDefault(v.items, []), d.scheduledPolicyItems[..], ItemsFromAtlas(d.scheduledPolicyItems[..]));
  }

  predicate LowerCaseUnit(policy: OnDemandPolicy, lower: string -> string) {
    policy == EMPTY_POLICY || lower(policy.retentionUnit) == policy.retentionUnit
  }

  /** The same of the code: a spec that Atlas reports back as it was sent. */
  method RoundTrip(s: Spec, projectID: string, lower: string -> string, json: Item -> string) returns (equal: bool)
    requires Injective(json)
    modifies Reach(s)
    ensures equal <==> old(s.scheduledPolicyItems) != null && LowerCaseUnit(old(s.onDemandPolicy), lower)
  {
    var settings := ToAtlas(s, projectID, lower);
    var back := NewBCPFromAtlas(Some(settings));
    RoundTripIff(ViewOf(s), lower, settings);
    equal := SemanticEqual(s, back, json);
  }

  // ---- The controller's comparisons ----

  /** What the last-applied annotation says about the overwrite flag. */
  datatype LastApplied = NoAnnotation | Malformed | Applied(overwriteBackupPolicies: bool)

  /** The answer once the specs are compared: a difference is one, a missing annotation says nothing
      about the flag, one that cannot be read is an error (None), and otherwise the flags decide. */
  predicate Answers(same: bool, lastApplied: LastApplied, overwrite: bool, equal: Option<bool>) {
    && (!same ==> equal == Some(false))
    && (same && lastApplied.NoAnnotation? ==> equal == Some(true))
    && (same && lastApplied.Malformed? ==> equal == None)
    && (same && lastApplied.Applied? ==> equal == Some(overwrite == lastApplied.overwriteBackupPolicies))
  }

  method CopyIsEqual(live: Spec, atlas: Option<DataProtectionSettings>, json: Item -> string) returns (same: bool)
    requires Injective(json) && (atlas.Some? ==> atlas.value.scheduledPolicyItems != null)
    ensures same <==> SameSpec(ViewOf(live), FromAtlas(atlas))
  {
    ghost var v, w := ViewOf(live), FromAtlas(atlas);
    var copy := DeepCopy(live);
    var other := NewBCPFromAtlas(atlas);
    assert ViewOf(copy) == v && ViewOf(other) == w;
    same := SemanticEqual(copy, other, json);
    assert same <==> SameSpec(v, w);
    assert ViewOf(live) == v && FromAtlas(atlas) == w;
  }

  /** The comparison of `upsert`, on a deep copy: the live spec is untouched, and its own flag is
      held against the one last applied. */
  method UpsertUnchanged(live: Spec, atlas: Option<DataProtectionSettings>, lastApplied: LastApplied, json: Item -> string)
    returns (equal: Option<bool>)
    requires Injective(json) && (atlas.Some? ==> atlas.value.scheduledPolicyItems != null)
    ensures Answers(SameSpec(ViewOf(live), FromAtlas(atlas)), lastApplied, live.overwriteBackupPolicies, equal)
  {
    var same := CopyIsEqual(live, atlas, json);
    equal := Some(same);
    if same {
      match lastApplied
      case NoAnnotation =>
      case Malformed => equal := None;
      case Applied(flag) => equal := Some(live.overwriteBackupPolicies == flag);
    }
  }

  /** The comparison of `handleUpserting`, on the live spec: normalizing has cleared its flag by the
      time the flags are compared, so the spec's own flag makes no difference to the answer. */
  method UpsertingUnchanged(live: Spec, atlas: Option<DataProtectionSettings>, lastApplied: LastApplied, json: Item -> string)
    returns (equal: Option<bool>)
    requires Injective(json) && (atlas.Some? ==> atlas.value.scheduledPolicyItems != null)
    modifies Reach(live)
    ensures Answers(SameSpec(old(ViewOf(live)), old(FromAtlas(atlas))), lastApplied, false, equal)
    ensures NormalFormOf(json, old(ViewOf(live)), ViewOf(live))
  {
    var other := NewBCPFromAtlas(atlas);
    var same := SemanticEqual(live, other, json);
    equal := Some(same);
    if same {
      match lastApplied
      case NoAnnotation =>
      case Malformed => equal := None;
      case Applied(flag) => equal := Some(live.overwriteBackupPolicies == flag);
    }
  }

  /** One comparison after the other on one spec: they answer alike exactly when the specs differ,
      nothing is recorded as applied, or the live spec's flag is not set. */
  method BothComparisons(live: Spec, atlas: Option<DataProtectionSettings>, lastApplied: LastApplied, json: Item -> string)
    returns (upsert: Option<bool>, upserting: Option<bool>)
    requires Injective(json) && (atlas.Some? ==> atlas.value.scheduledPolicyItems != null)
    modifies Reach(live)
    ensures upsert == upserting <==>
      !SameSpec(old(ViewOf(live)), old(FromAtlas(atlas))) || !lastApplied.Applied? || !old(live.overwriteBackupPolicies)
  {
    upsert := UpsertUnchanged(live, atlas, lastApplied, json);
    upserting := UpsertingUnchanged(live, atlas, lastApplied, json);
  }

  /** A spec that asks for overwriting, is in Atlas as it stands, and was last applied as it is: one
      comparison says unchanged, the other says changed. */
  method ComparisonsDiffer(json: Item -> string) returns (upsert: Option<bool>, upserting: Option<bool>)
    requires Injective(json)
    ensures upsert == Some(true) && upserting == Some(false)
  {
    var items := new Item[0];
    var live := new Spec(Fields("", "", "", false, false, false, 0, EMPTY_POLICY), true, items);
    var settings := ToAtlas(live, "", s => s);
    RoundTripIff(ViewOf(live), s => s, settings);
    upsert := UpsertUnchanged(live, Some(settings), Applied(true), json);
    upserting := UpsertingUnchanged(live, Some(settings), Applied(true), json);
  }

  /** A nil item list does not survive the round trip. */
  method NilListComesBackEmpty(fields: Fields, projectID: string, lower: string -> string, json: Item -> string)
    returns (equal: bool)
    requires Injective(json)
    ensures !equal
  {
    var s := new Spec(fields, false, null);
    equal := RoundTrip(s, projectID, lower, json);
  }

  /** Nor does a unit with a capital letter, even with a list. */
  method CapitalUnitComesBackLowered(lower: string -> string, json: Item -> string) returns (equal: bool)
    requires Injective(json) && lower("Days") == "days"
    ensures !equal
  {
    var items := new Item[0];
    var s := new Spec(Fields("", "", "", false, false, false, 0, OnDemandPolicy("Days", 1)), false, items);
    assert "Days"[0] != "days"[0];
    equal := RoundTrip(s, "", lower, json);
  }
}
