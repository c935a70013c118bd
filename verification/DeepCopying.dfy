/** The building blocks of the generated deep copies (api/v1/zz_generated.deepcopy.go) and the
    nested structs of a project spec they copy. Structs are values, pointers are `Cell`s and slices
    are arrays, null where Go has nil. A predicate `IsX(x, v, own)` says that `x` denotes the
    memory-free value `v` with all it points to in `own`. */
module DeepCopying {
  import opened Text

  class Cell<T> {
    var value: T

    constructor (v: T)
      ensures value == v
    {
      value := v;
    }
  }

  ghost function NonNull(s: set<object?>): set<object> {
    set o: object | o in s
  }

  /** A pointer is nil or points to the value. */
  ghost predicate Points<T>(c: Cell?<T>, v: Option<T>)
    reads c
  {
    if c == null then v == None else v == Some(c.value)
  }

  /** A slice of plain values is nil or holds them. */
  ghost predicate Lists<T>(a: array?<T>, v: Option<seq<T>>)
    reads a
  {
    if a == null then v == None else v == Some(a[..])
  }

  ghost function Target<T>(c: Cell?<T>): (v: Option<T>)
    reads c
    ensures Points(c, v)
  {
    if c == null then None else Some(c.value)
  }

  ghost function Listed<T>(a: array?<T>): (v: Option<seq<T>>)
    reads a
    ensures Lists(a, v)
  {
    if a == null then None else Some(a[..])
  }

  method CopyCell<T>(c: Cell?<T>, ghost v: Option<T>) returns (r: Cell?<T>)
    requires Points(c, v)
    ensures Points(r, v) && (r != null ==> fresh(r))
  {
    if c == null { return null; }
    r := new Cell(c.value);
  }

  method CopySlice<T(0)>(a: array?<T>, ghost v: Option<seq<T>>) returns (r: array?<T>)
    requires Lists(a, v)
    ensures Lists(r, v) && (r != null ==> fresh(r))
  {
    if a == null { return null; }
    r := new T[a.Length];
    var i := 0;
    while i < a.Length
      invariant 0 <= i <= a.Length
      invariant r[..i] == a[..i]
    {
      r[i] := a[i];
      i := i + 1;
    }
    assert r[..] == r[..i] && a[..] == a[..i];
  }

  // ---- Structs ----

  /** A struct without pointers and slices. */
  datatype Plain = Plain(fields: seq<string>)

  /** A struct with one slice of such structs: a private endpoint with its GCP endpoints, a team
      with its roles. */
  datatype Group = Group(fields: Plain, items: array?<Plain>)

  /** A struct with pointers to plain values: a resource of a custom role, the project settings,
      the key management of one cloud provider. */
  datatype Record = Record(fields: Plain, pointers: seq<Cell?<string>>)

  /** An action of a custom role, with its resources. */
  datatype Action = Action(name: string, resources: array?<Record>)

  datatype CustomRole = CustomRole(name: string, inheritedRoles: array?<Plain>, actions: array?<Action>)

  datatype GroupView = GroupView(fields: Plain, items: Option<seq<Plain>>)

  datatype RecordView = RecordView(fields: Plain, pointers: seq<Option<string>>)

  datatype ActionView = ActionView(name: string, resources: Option<seq<RecordView>>)

  datatype CustomRoleView = CustomRoleView(name: string, inheritedRoles: Option<seq<Plain>>, actions: Option<seq<ActionView>>)

  ghost predicate IsGroup(g: Group, v: GroupView, own: set<object>)
    reads own
  {
    g.fields == v.fields && (g.items == null || g.items in own) && Lists(g.items, v.items)
  }

  ghost predicate AreGroups(gs: array?<Group>, v: Option<seq<GroupView>>, own: set<object>)
    reads gs, own
  {
    if gs == null then v == None
    else v.Some? && |v.value| == gs.Length && forall j :: 0 <= j < gs.Length ==> IsGroup(gs[j], v.value[j], own)
  }

  ghost predicate IsRecord(r: Record, v: RecordView, own: set<object>)
    reads own
  {
    && r.fields == v.fields && |r.pointers| == |v.pointers|
    && forall i :: 0 <= i < |r.pointers| ==>
      (r.pointers[i] == null || r.pointers[i] in own) && Points(r.pointers[i], v.pointers[i])
  }

  ghost predicate AreRecords(rs: array?<Record>, v: Option<seq<RecordView>>, own: set<object>)
    reads rs, own
  {
    if rs == null then v == None else v.Some? && EachRecord(rs[..], v.value, own)
  }

  ghost predicate EachRecord(rs: seq<Record>, vs: seq<RecordView>, own: set<object>)
    reads own
  {
    |vs| == |rs| && forall j :: 0 <= j < |rs| ==> IsRecord(rs[j], vs[j], own)
  }

  ghost predicate IsAction(a: Action, v: ActionView, own: set<object>)
    reads own
  {
    a.name == v.name && (a.resources == null || a.resources in own) && AreRecords(a.resources, v.resources, own)
  }

  ghost predicate AreActions(actions: array?<Action>, v: Option<seq<ActionView>>, own: set<object>)
    reads actions, own
  {
    if actions == null then v == None
    else v.Some? && |v.value| == actions.Length && forall j :: 0 <= j < actions.Length ==> IsAction(actions[j], v.value[j], own)
  }

  ghost predicate IsCustomRole(c: CustomRole, v: CustomRoleView, own: set<object>)
    reads own
  {
    && c.name == v.name
    && (c.inheritedRoles == null || c.inheritedRoles in own) && (c.actions == null || c.actions in own)
    && Lists(c.inheritedRoles, v.inheritedRoles) && AreActions(c.actions, v.actions, own)
  }

  ghost predicate AreCustomRoles(cs: array?<CustomRole>, v: Option<seq<CustomRoleView>>, own: set<object>)
    reads cs, own
  {
    if cs == null then v == None
    else v.Some? && EachCustomRole(cs[..], v.value, own)
  }

  ghost predicate EachCustomRole(cs: seq<CustomRole>, vs: seq<CustomRoleView>, own: set<object>)
    reads own
  {
    |vs| == |cs| && forall j :: 0 <= j < |cs| ==> IsCustomRole(cs[j], vs[j], own)
  }

  // ---- Copies ----

  method CopyGroups(a: array?<Group>, ghost v: Option<seq<GroupView>>, ghost from: set<object>)
    returns (r: array?<Group>, ghost own: set<object>)
    requires AreGroups(a, v, from)
    ensures AreGroups(r, v, own) && fresh(own) && (r != null ==> fresh(r) && r !in own)
  {
    own := {};
    if a == null { return null, own; }
    r := new Group[a.Length];
    var i := 0;
    while i < a.Length
      invariant 0 <= i <= a.Length == r.Length && fresh(r) && fresh(own) && r !in own
      invariant forall k :: 0 <= k < i ==> IsGroup(r[k], v.value[k], own)
    {
      var items := CopySlice(a[i].items, v.value[i].items);
      r[i] := a[i].(items := items);
      own := own + NonNull({items});
      i := i + 1;
    }
  }

  method CopyRecord(c: Record, ghost v: RecordView, ghost from: set<object>)
    returns (r: Record, ghost own: set<object>)
    requires IsRecord(c, v, from)
    ensures IsRecord(r, v, own) && fresh(own)
  {
    var pointers: seq<Cell?<string>> := [];
    own := {};
    while |pointers| < |c.pointers|
      invariant |pointers| <= |c.pointers| && fresh(own)
      invariant forall i :: 0 <= i < |pointers| ==>
        (pointers[i] == null || pointers[i] in own) && Points(pointers[i], v.pointers[i])
    {
      var p := CopyCell(c.pointers[|pointers|], v.pointers[|pointers|]);
      pointers := pointers + [p];
      own := own + NonNull({p});
    }
    r := c.(pointers := pointers);
  }

  /** Copies of records that are held by value, one after the other. */
  method CopyEachRecord(c: seq<Record>, ghost v: seq<RecordView>, ghost from: set<object>)
    returns (r: seq<Record>, ghost own: set<object>)
    requires EachRecord(c, v, from)
    ensures EachRecord(r, v, own) && fresh(own)
  {
    r, own := [], {};
    while |r| < |c|
      invariant |r| <= |c| && fresh(own)
      invariant EachRecord(r, v[..|r|], own)
    {
      var d; ghost var more;
      d, more := CopyRecord(c[|r|], v[|r|], from);
      r, own := r + [d], own + more;
    }
    assert v[..|r|] == v;
  }

  method CopyRecords(a: array?<Record>, ghost v: Option<seq<RecordView>>, ghost from: set<object>)
    returns (r: array?<Record>, ghost own: set<object>)
    requires AreRecords(a, v, from)
    ensures AreRecords(r, v, own) && fresh(own) && (r != null ==> fresh(r) && r !in own)
  {
    own := {};
    if a == null { return null, own; }
    r := new Record[a.Length];
    var i := 0;
    while i < a.Length
      invariant 0 <= i <= a.Length == r.Length && fresh(r) && fresh(own) && r !in own
      invariant forall k :: 0 <= k < i ==> IsRecord(r[k], v.value[k], own)
    {
      ghost var more;
      r[i], more := CopyRecord(a[i], v.value[i], from);
      own := own + more;
      i := i + 1;
    }
  }

  method CopyActions(a: array?<Action>, ghost v: Option<seq<ActionView>>, ghost from: set<object>)
    returns (r: array?<Action>, ghost own: set<object>)
    requires AreActions(a, v, from)
    ensures AreActions(r, v, own) && fresh(own) && (r != null ==> fresh(r) && r !in own)
  {
    own := {};
    if a == null { return null, own; }
    r := new Action[a.Length];
    var i := 0;
    while i < a.Length
      invariant 0 <= i <= a.Length == r.Length && fresh(r) && fresh(own) && r !in own
      invariant forall k :: 0 <= k < i ==> IsAction(r[k], v.value[k], own)
    {
      var resources; ghost var more;
      resources, more := CopyRecords(a[i].resources, v.value[i].resources, from);
      r[i] := a[i].(resources := resources);
      own := own + more + NonNull({resources});
      i := i + 1;
    }
  }

  lemma CustomRoleGrows(c: CustomRole, v: CustomRoleView, own: set<object>, more: set<object>)
    requires IsCustomRole(c, v, own) && own <= more
    ensures IsCustomRole(c, v, more)
  {
    ActionsGrow(c.actions, v.actions, own, more);
  }

  lemma OneMoreCustomRole(cs: seq<CustomRole>, vs: seq<CustomRoleView>, own: set<object>,
      c: CustomRole, v: CustomRoleView, more: set<object>)
    requires EachCustomRole(cs, vs, own) && IsCustomRole(c, v, more)
    ensures EachCustomRole(cs + [c], vs + [v], own + more)
  {
    forall k | 0 <= k < |cs| ensures IsCustomRole(cs[k], vs[k], own + more) {
      CustomRoleGrows(cs[k], vs[k], own, own + more);
    }
    CustomRoleGrows(c, v, more, own + more);
  }

  method CopyCustomRole(c: CustomRole, ghost v: CustomRoleView, ghost from: set<object>)
    returns (r: CustomRole, ghost own: set<object>)
    requires IsCustomRole(c, v, from)
    ensures IsCustomRole(r, v, own) && fresh(own)
  {
    var inheritedRoles := CopySlice(c.inheritedRoles, v.inheritedRoles);
    var actions; ghost var inner;
    actions, inner := CopyActions(c.actions, v.actions, from);
    r := c.(inheritedRoles := inheritedRoles, actions := actions);
    own := inner + NonNull({inheritedRoles as object?, actions});
    ActionsGrow(actions, v.actions, inner, own);
  }

  method CopyCustomRoles(a: array?<CustomRole>, ghost v: Option<seq<CustomRoleView>>, ghost from: set<object>)
    returns (r: array?<CustomRole>, ghost own: set<object>)
    requires AreCustomRoles(a, v, from)
    ensures AreCustomRoles(r, v, own) && fresh(own) && (r != null ==> fresh(r) && r !in own)
  {
    own := {};
    if a == null { return null, own; }
    r := new CustomRole[a.Length];
    var i := 0;
    while i < a.Length
      invariant 0 <= i <= a.Length == r.Length && fresh(r) && fresh(own) && r !in own
      invariant EachCustomRole(r[..i], v.value[..i], own)
    {
      var copy; ghost var more;
      copy, more := CopyCustomRole(a[i], v.value[i], from);
      OneMoreCustomRole(r[..i], v.value[..i], own, copy, v.value[i], more);
      r[i] := copy;
      own := own + more;
      i := i + 1;
      assert r[..i] == r[..i - 1] + [copy];
    }
    assert r[..i] == r[..] && v.value[..i] == v.value;
  }

  // ---- Every piece of data denotes something ----

  lemma GroupsDenote(a: array?<Group>) returns (v: Option<seq<GroupView>>, own: set<object>)
    ensures AreGroups(a, v, own)
  {
    v, own := None, {};
    if a != null {
      var vs, i := [], 0;
      while i < a.Length
        invariant 0 <= i <= a.Length && |vs| == i
        invariant forall k :: 0 <= k < i ==> IsGroup(a[k], vs[k], own)
      {
        vs := vs + [GroupView(a[i].fields, Listed(a[i].items))];
        own := own + NonNull({a[i].items});
        i := i + 1;
      }
      v := Some(vs);
    }
  }

  ghost function RecordOf(r: Record): (v: RecordView)
    reads r.pointers
    ensures IsRecord(r, v, NonNull(set p | p in r.pointers))
  {
    RecordView(r.fields, seq(|r.pointers|, i requires 0 <= i < |r.pointers| reads r.pointers => Target(r.pointers[i])))
  }

  lemma RecordGrows(r: Record, v: RecordView, own: set<object>, more: set<object>)
    requires IsRecord(r, v, own) && own <= more
    ensures IsRecord(r, v, more)
  {
  }

  lemma {:induction false} EachRecordDenotes(rs: seq<Record>) returns (vs: seq<RecordView>, own: set<object>)
    ensures EachRecord(rs, vs, own)
  {
    vs, own := [], {};
    while |vs| < |rs|
      invariant |vs| <= |rs| && EachRecord(rs[..|vs|], vs, own)
    {
      var r := rs[|vs|];
      var inner := NonNull(set p | p in r.pointers);
      forall k | 0 <= k < |vs| ensures IsRecord(rs[k], vs[k], own + inner) {
        RecordGrows(rs[k], vs[k], own, own + inner);
      }
      RecordGrows(r, RecordOf(r), inner, own + inner);
      vs, own := vs + [RecordOf(r)], own + inner;
    }
    assert rs[..|vs|] == rs;
  }

  lemma ActionGrows(a: Action, v: ActionView, own: set<object>, more: set<object>)
    requires IsAction(a, v, own) && own <= more
    ensures IsAction(a, v, more)
  {
  }

  lemma ActionDenotes(a: Action) returns (v: ActionView, own: set<object>)
    ensures IsAction(a, v, own)
  {
    if a.resources == null {
      v, own := ActionView(a.name, None), {};
    } else {
      var vs, inner := EachRecordDenotes(a.resources[..]);
      v, own := ActionView(a.name, Some(vs)), inner + {a.resources};
      forall k | 0 <= k < |vs| ensures IsRecord(a.resources[k], vs[k], own) {
        RecordGrows(a.resources[k], vs[k], inner, own);
      }
    }
  }

  lemma ActionsDenote(a: array?<Action>) returns (v: Option<seq<ActionView>>, own: set<object>)
    ensures AreActions(a, v, own)
  {
    v, own := None, {};
    if a != null {
      var vs, i := [], 0;
      while i < a.Length
        invariant 0 <= i <= a.Length && |vs| == i
        invariant forall k :: 0 <= k < i ==> IsAction(a[k], vs[k], own)
      {
        var w, inner := ActionDenotes(a[i]);
        forall k | 0 <= k < i ensures IsAction(a[k], vs[k], own + inner) {
          ActionGrows(a[k], vs[k], own, own + inner);
        }
        ActionGrows(a[i], w, inner, own + inner);
        vs, own, i := vs + [w], own + inner, i + 1;
      }
      v := Some(vs);
    }
  }

  lemma ActionsGrow(a: array?<Action>, v: Option<seq<ActionView>>, own: set<object>, more: set<object>)
    requires AreActions(a, v, own) && own <= more
    ensures AreActions(a, v, more)
  {
    if a != null {
      forall k | 0 <= k < a.Length ensures IsAction(a[k], v.value[k], more) {
        ActionGrows(a[k], v.value[k], own, more);
      }
    }
  }

  lemma CustomRoleDenotes(c: CustomRole) returns (v: CustomRoleView, own: set<object>)
    ensures IsCustomRole(c, v, own)
  {
    var actions, inner := ActionsDenote(c.actions);
    own := inner + NonNull({c.inheritedRoles as object?, c.actions});
    v := CustomRoleView(c.name, Listed(c.inheritedRoles), actions);
    ActionsGrow(c.actions, actions, inner, own);
  }

  lemma CustomRolesDenote(a: array?<CustomRole>) returns (v: Option<seq<CustomRoleView>>, own: set<object>)
    ensures AreCustomRoles(a, v, own)
  {
    v, own := None, {};
    if a != null {
      var vs, i := [], 0;
      while i < a.Length
        invariant 0 <= i <= a.Length && |vs| == i
        invariant EachCustomRole(a[..i], vs, own)
      {
        var w, inner := CustomRoleDenotes(a[i]);
        OneMoreCustomRole(a[..i], vs, own, a[i], w, inner);
        vs, own, i := vs + [w], own + inner, i + 1;
        assert a[..i] == a[..i - 1] + [a[i - 1]];
      }
      assert a[..i] == a[..];
      v := Some(vs);
    }
  }

  // ---- The nested fields of a spec together ----

  /** Encryption at rest is a pointer to the key management records of the three providers. */
  datatype Nested = Nested(encryptionAtRest: Cell?<seq<Record>>, settings: Cell?<Record>, customRoles: array?<CustomRole>)

  datatype NestedView = NestedView(
    encryptionAtRest: Option<seq<RecordView>>, settings: Option<RecordView>, customRoles: Option<seq<CustomRoleView>>)

  ghost predicate IsEncryption(c: Cell?<seq<Record>>, v: Option<seq<RecordView>>, own: set<object>)
    reads c, own
  {
    if c == null then v == None else v.Some? && EachRecord(c.value, v.value, own)
  }

  ghost predicate IsSettings(c: Cell?<Record>, v: Option<RecordView>, own: set<object>)
    reads c, own
  {
    if c == null then v == None else v.Some? && IsRecord(c.value, v.value, own)
  }

  ghost predicate IsNested(p: Nested, v: NestedView, own: set<object>)
    reads own
  {
    && NonNull({p.encryptionAtRest as object?, p.settings, p.customRoles}) <= own
    && (p.encryptionAtRest == null || p.encryptionAtRest in own) && (p.settings == null || p.settings in own)
    && (p.customRoles == null || p.customRoles in own)
    && IsEncryption(p.encryptionAtRest, v.encryptionAtRest, own)
    && IsSettings(p.settings, v.settings, own)
    && AreCustomRoles(p.customRoles, v.customRoles, own)
  }

  method CopyEncryption(c: Cell?<seq<Record>>, ghost v: Option<seq<RecordView>>, ghost from: set<object>)
    returns (r: Cell?<seq<Record>>, ghost own: set<object>)
    requires IsEncryption(c, v, from)
    ensures IsEncryption(r, v, own) && fresh(own) && (r != null ==> fresh(r))
  {
    own := {};
    if c == null { return null, own; }
    var records;
    records, own := CopyEachRecord(c.value, v.value, from);
    r := new Cell(records);
  }

  method CopySettings(c: Cell?<Record>, ghost v: Option<RecordView>, ghost from: set<object>)
    returns (r: Cell?<Record>, ghost own: set<object>)
    requires IsSettings(c, v, from)
    ensures IsSettings(r, v, own) && fresh(own) && (r != null ==> fresh(r))
  {
    own := {};
    if c == null { return null, own; }
    var record;
    record, own := CopyRecord(c.value, v.value, from);
    r := new Cell(record);
  }

  lemma EncryptionGrows(c: Cell?<seq<Record>>, v: Option<seq<RecordView>>, own: set<object>, more: set<object>)
    requires IsEncryption(c, v, own) && own <= more
    ensures IsEncryption(c, v, more)
  {
  }

  lemma SettingsGrow(c: Cell?<Record>, v: Option<RecordView>, own: set<object>, more: set<object>)
    requires IsSettings(c, v, own) && own <= more
    ensures IsSettings(c, v, more)
  {
  }

  lemma CustomRolesGrow(a: array?<CustomRole>, v: Option<seq<CustomRoleView>>, own: set<object>, more: set<object>)
    requires AreCustomRoles(a, v, own) && own <= more
    ensures AreCustomRoles(a, v, more)
  {
    if a != null {
      forall k | 0 <= k < a.Length ensures IsCustomRole(a[..][k], v.value[k], more) {
        CustomRoleGrows(a[k], v.value[k], own, more);
      }
    }
  }

  lemma NestedGrows(p: Nested, v: NestedView, own: set<object>, more: set<object>)
    requires IsNested(p, v, own) && own <= more
    ensures IsNested(p, v, more)
  {
    EncryptionGrows(p.encryptionAtRest, v.encryptionAtRest, own, more);
    SettingsGrow(p.settings, v.settings, own, more);
    CustomRolesGrow(p.customRoles, v.customRoles, own, more);
  }

  /** Puts the parts of the nested fields together. */
  lemma PackNested(p: Nested, v: NestedView, o1: set<object>, o2: set<object>, o3: set<object>, own: set<object>)
    requires IsEncryption(p.encryptionAtRest, v.encryptionAtRest, o1) && IsSettings(p.settings, v.settings, o2)
    requires AreCustomRoles(p.customRoles, v.customRoles, o3)
    requires own == o1 + o2 + o3 + NonNull({p.encryptionAtRest as object?, p.settings, p.customRoles})
    ensures IsNested(p, v, own)
  {
    EncryptionGrows(p.encryptionAtRest, v.encryptionAtRest, o1, own);
    SettingsGrow(p.settings, v.settings, o2, own);
    CustomRolesGrow(p.customRoles, v.customRoles, o3, own);
  }

  method CopyNested(p: Nested, ghost v: NestedView, ghost from: set<object>)
    returns (r: Nested, ghost own: set<object>)
    requires IsNested(p, v, from)
    ensures IsNested(r, v, own) && fresh(own)
  {
    ghost var o1, o2, o3;
    var encryptionAtRest, settings, customRoles;
    encryptionAtRest, o1 := CopyEncryption(p.encryptionAtRest, v.encryptionAtRest, from);
    settings, o2 := CopySettings(p.settings, v.settings, from);
    customRoles, o3 := CopyCustomRoles(p.customRoles, v.customRoles, from);
    r := Nested(encryptionAtRest, settings, customRoles);
    own := o1 + o2 + o3 + NonNull({encryptionAtRest as object?, settings, customRoles});
    PackNested(r, v, o1, o2, o3, own);
  }

  lemma NestedDenotes(p: Nested) returns (v: NestedView, own: set<object>)
    ensures IsNested(p, v, own)
  {
    var roles, o3 := CustomRolesDenote(p.customRoles);
    var encryption, o1: set<object> := None, {};
    if p.encryptionAtRest != null {
      var vs;
      vs, o1 := EachRecordDenotes(p.encryptionAtRest.value);
      encryption := Some(vs);
    }
    var settings, o2: set<object> := None, {};
    if p.settings != null {
      settings, o2 := Some(RecordOf(p.settings.value)), NonNull(set c | c in p.settings.value.pointers);
    }
    v := NestedView(encryption, settings, roles);
    own := o1 + o2 + o3 + NonNull({p.encryptionAtRest as object?, p.settings, p.customRoles});
    PackNested(p, v, o1, o2, o3, own);
  }
}
