/** Turning federated-auth role mappings into Atlas' form (api/v1/atlasfederatedauth_types.go). */
module FederatedAuth {
  import opened Picking
  import opened Text

  datatype RoleAssignment = RoleAssignment(projectName: string, role: string)

  datatype RoleMapping = RoleMapping(externalGroupName: string, roleAssignments: seq<RoleAssignment>)

  /** The spec; `domainRestrictionEnabled` is dereferenced without a check. */
  datatype Spec = Spec(
    domainAllowList: seq<string>,
    domainRestrictionEnabled: Option<bool>,
    postAuthRoleGrants: seq<string>,
    roleMappings: seq<RoleMapping>,
    dataAccessIdentityProviders: Option<seq<string>>)

  datatype AtlasAssignment = AtlasAssignment(groupID: Option<string>, orgID: Option<string>, role: Option<string>)

  datatype AtlasMapping = AtlasMapping(externalGroupName: string, roleAssignments: seq<AtlasAssignment>)

  datatype ConnectedOrgConfig = ConnectedOrgConfig(
    dataAccessIdentityProviderIDs: Option<seq<string>>,
    domainRestrictionEnabled: bool,
    orgID: string,
    domainAllowList: Option<seq<string>>,
    identityProviderID: Option<string>,
    postAuthRoleGrants: Option<seq<string>>,
    roleMappings: Option<seq<AtlasMapping>>)

  type ProjectIDs = map<string, string>

  /** Names no project, or a project of the organization. */
  predicate Resolves(ids: ProjectIDs, a: RoleAssignment) {
    a.projectName == "" || a.projectName in ids
  }

  /** An assignment goes to the named project's group, or to the organization when it names none. */
  function Assigned(orgID: string, ids: ProjectIDs, a: RoleAssignment): AtlasAssignment
    requires Resolves(ids, a)
  {
    if a.projectName != "" then AtlasAssignment(Some(ids[a.projectName]), None, Some(a.role))
    else AtlasAssignment(None, Some(orgID), Some(a.role))
  }

  function Kept(orgID: string, ids: ProjectIDs, assignments: seq<RoleAssignment>): seq<AtlasAssignment> {
    if assignments == [] then []
    else
      var n := |assignments| - 1;
      Kept(orgID, ids, assignments[..n]) +
      if Resolves(ids, assignments[n]) then [Assigned(orgID, ids, assignments[n])] else []
  }

  /** The project names of the assignments that are reported, in order. */
  function Reported(ids: ProjectIDs, assignments: seq<RoleAssignment>): seq<string> {
    if assignments == [] then []
    else
      var n := |assignments| - 1;
      Reported(ids, assignments[..n]) + if Resolves(ids, assignments[n]) then [] else [assignments[n].projectName]
  }

  function ReportedOfAll(ids: ProjectIDs, mappings: seq<RoleMapping>): seq<string> {
    if mappings == [] then []
    else
      var n := |mappings| - 1;
      ReportedOfAll(ids, mappings[..n]) + Reported(ids, mappings[n].roleAssignments)
  }

  /** Every mapping survives, at its place, with its kept assignments. */
  ghost predicate Mapped(orgID: string, ids: ProjectIDs, mappings: seq<RoleMapping>, out: seq<AtlasMapping>) {
    && |out| == |mappings|
    && forall i :: 0 <= i < |out| ==>
      out[i] == AtlasMapping(mappings[i].externalGroupName, Kept(orgID, ids, mappings[i].roleAssignments))
  }

  lemma OneMoreAssignment(orgID: string, ids: ProjectIDs, assignments: seq<RoleAssignment>, j: nat)
    requires j < |assignments|
    ensures var a, kept, reported := assignments[j], Kept(orgID, ids, assignments[..j]), Reported(ids, assignments[..j]);
      && Kept(orgID, ids, assignments[..j + 1]) == (if Resolves(ids, a) then kept + [Assigned(orgID, ids, a)] else kept)
      && Reported(ids, assignments[..j + 1]) == (if Resolves(ids, a) then reported else reported + [a.projectName])
  {
    assert assignments[..j + 1][..j] == assignments[..j];
  }

  lemma OneMoreMapped(orgID: string, ids: ProjectIDs, mappings: seq<RoleMapping>, i: nat, out: seq<AtlasMapping>)
    requires i < |mappings| && Mapped(orgID, ids, mappings[..i], out)
    ensures Mapped(orgID, ids, mappings[..i + 1],
      out + [AtlasMapping(mappings[i].externalGroupName, Kept(orgID, ids, mappings[i].roleAssignments))])
    ensures ReportedOfAll(ids, mappings[..i + 1]) == ReportedOfAll(ids, mappings[..i]) + Reported(ids, mappings[i].roleAssignments)
  {
    assert mappings[..i + 1][..i] == mappings[..i];
  }

  /** The nested loops: `errs` holds the name of each project that is not found. */
  method ToAtlas(f: Spec, orgID: string, idpID: string, projectNameToID: ProjectIDs)
    returns (result: ConnectedOrgConfig, errs: seq<string>)
    requires f.domainRestrictionEnabled.Some?
    ensures errs == ReportedOfAll(projectNameToID, f.roleMappings)
    ensures f.roleMappings == [] <==> result.roleMappings.None?
    ensures f.roleMappings != [] ==> Mapped(orgID, projectNameToID, f.roleMappings, result.roleMappings.value)
    ensures result.(roleMappings := None) == ConnectedOrgConfig(
      f.dataAccessIdentityProviders, f.domainRestrictionEnabled.value, orgID,
      if f.domainAllowList == [] then None else Some(f.domainAllowList), if idpID == "" then None else Some(idpID),
      if f.postAuthRoleGrants == [] then None else Some(f.postAuthRoleGrants), None)
    ensures f.roleMappings != [] ==> EachPicks(orgID, projectNameToID, f.roleMappings, result.roleMappings.value)
    ensures ReportsEach(projectNameToID, f.roleMappings, errs)
  {
    errs := [];
    var atlasRoleMappings: seq<AtlasMapping> := [];
    for i := 0 to |f.roleMappings|
      invariant errs == ReportedOfAll(projectNameToID, f.roleMappings[..i])
      invariant Mapped(orgID, projectNameToID, f.roleMappings[..i], atlasRoleMappings)
    {
      var roleMapping := f.roleMappings[i];
      var atlasRoleAssignments;
      atlasRoleAssignments, errs := AssignmentsToAtlas(roleMapping.roleAssignments, orgID, projectNameToID, errs);
      OneMoreMapped(orgID, projectNameToID, f.roleMappings, i, atlasRoleMappings);
      atlasRoleMappings := atlasRoleMappings + [AtlasMapping(roleMapping.externalGroupName, atlasRoleAssignments)];
    }
    assert f.roleMappings[..|f.roleMappings|] == f.roleMappings;
    EachMappingPicks(orgID, projectNameToID, f.roleMappings, atlasRoleMappings);
    ErrorsByMapping(projectNameToID, f.roleMappings);
    result := ConnectedOrgConfig(f.dataAccessIdentityProviders, f.domainRestrictionEnabled.value, orgID, None, None, None, None);
    if |f.domainAllowList| > 0 {
      result := result.(domainAllowList := Some(f.domainAllowList));
    }
    if idpID != "" {
      result := result.(identityProviderID := Some(idpID));
    }
    if |f.postAuthRoleGrants| > 0 {
      result := result.(postAuthRoleGrants := Some(f.postAuthRoleGrants));
    }
    if |atlasRoleMappings| > 0 {
      result := result.(roleMappings := Some(atlasRoleMappings));
    }
  }

  /** The inner loop, over the assignments of one mapping. */
  method AssignmentsToAtlas(assignments: seq<RoleAssignment>, orgID: string, projectNameToID: ProjectIDs, before: seq<string>)
    returns (atlasRoleAssignments: seq<AtlasAssignment>, errs: seq<string>)
    ensures atlasRoleAssignments == Kept(orgID, projectNameToID, assignments)
    ensures errs == before + Reported(projectNameToID, assignments)
  {
    atlasRoleAssignments, errs := [], before;
    for j := 0 to |assignments|
      invariant errs == before + Reported(projectNameToID, assignments[..j])
      invariant atlasRoleAssignments == Kept(orgID, projectNameToID, assignments[..j])
    {
      var atlasRoleAssignment := AtlasAssignment(None, None, None);
      var roleAssignment := assignments[j];
      OneMoreAssignment(orgID, projectNameToID, assignments, j);
      if roleAssignment.projectName != "" {
        if roleAssignment.projectName !in projectNameToID {
          errs := errs + [roleAssignment.projectName];
          continue;
        }
        atlasRoleAssignment := atlasRoleAssignment.(groupID := Some(projectNameToID[roleAssignment.projectName]));
      } else {
        atlasRoleAssignment := atlasRoleAssignment.(orgID := Some(orgID));
      }
      atlasRoleAssignment := atlasRoleAssignment.(role := Some(roleAssignment.role));
      atlasRoleAssignments := atlasRoleAssignments + [atlasRoleAssignment];
    }
    assert assignments[..|assignments|] == assignments;
  }

  // ---- Conservation ----

  function Total(mappings: seq<RoleMapping>): nat {
    if mappings == [] then 0
    else Total(mappings[..|mappings| - 1]) + |mappings[|mappings| - 1].roleAssignments|
  }

  function TotalKept(mappings: seq<AtlasMapping>): nat {
    if mappings == [] then 0
    else TotalKept(mappings[..|mappings| - 1]) + |mappings[|mappings| - 1].roleAssignments|
  }

  lemma {:induction false} KeptOrReported(orgID: string, ids: ProjectIDs, assignments: seq<RoleAssignment>)
    ensures |Kept(orgID, ids, assignments)| + |Reported(ids, assignments)| == |assignments|
  {
    if assignments != [] {
      KeptOrReported(orgID, ids, assignments[..|assignments| - 1]);
    }
  }

  /** Over the whole spec no assignment is lost or made up: each one is kept or reported. */
  lemma {:induction false} AssignmentsConserved(orgID: string, ids: ProjectIDs, mappings: seq<RoleMapping>, out: seq<AtlasMapping>)
    requires Mapped(orgID, ids, mappings, out)
    ensures TotalKept(out) + |ReportedOfAll(ids, mappings)| == Total(mappings)
  {
    if mappings != [] {
      var n := |mappings| - 1;
      AssignmentsConserved(orgID, ids, mappings[..n], out[..n]);
      KeptOrReported(orgID, ids, mappings[n].roleAssignments);
    }
  }

  /** Names no project, or one that is in the organization. */
  ghost function Resolving(ids: ProjectIDs): RoleAssignment -> bool {
    (a: RoleAssignment) => a.projectName == "" || a.projectName in ids
  }

  ghost function NotResolving(ids: ProjectIDs): RoleAssignment -> bool {
    (a: RoleAssignment) => a.projectName != "" && a.projectName !in ids
  }

  /** An assignment keeps its role and goes to the group of the project it names, or to the organization. */
  ghost predicate Becomes(orgID: string, ids: ProjectIDs, a: RoleAssignment, out: AtlasAssignment) {
    && out.role == Some(a.role)
    && (a.projectName == "" ==> out.groupID == None && out.orgID == Some(orgID))
    && (a.projectName != "" ==> a.projectName in ids && out.groupID == Some(ids[a.projectName]) && out.orgID == None)
  }

  ghost function Becoming(orgID: string, ids: ProjectIDs): (RoleAssignment, AtlasAssignment) -> bool {
    (a, out) => Becomes(orgID, ids, a, out)
  }

  ghost predicate NameOf(a: RoleAssignment, name: string) {
    name == a.projectName
  }

  /** The kept assignments are what the resolving ones become, in their order. */
  lemma {:induction false} KeptInOrder(orgID: string, ids: ProjectIDs, assignments: seq<RoleAssignment>)
    ensures Picks(Resolving(ids), Becoming(orgID, ids), assignments, Kept(orgID, ids, assignments))
  {
    if assignments == [] {
      PicksNothing(Resolving(ids), Becoming(orgID, ids));
    } else {
      var n := |assignments| - 1;
      var kept := Kept(orgID, ids, assignments[..n]);
      KeptInOrder(orgID, ids, assignments[..n]);
      assert assignments == assignments[..n] + [assignments[n]];
      if Resolves(ids, assignments[n]) {
        PicksLast(Resolving(ids), Becoming(orgID, ids), assignments[..n], kept, assignments[n], Assigned(orgID, ids, assignments[n]));
      } else {
        SkipsLast(Resolving(ids), Becoming(orgID, ids), assignments[..n], kept, assignments[n]);
        assert kept + [] == kept;
      }
    }
  }

  /** The names reported are those of the other ones, in their order. */
  lemma {:induction false} ReportedInOrder(ids: ProjectIDs, assignments: seq<RoleAssignment>)
    ensures Picks(NotResolving(ids), NameOf, assignments, Reported(ids, assignments))
  {
    if assignments == [] {
      PicksNothing(NotResolving(ids), NameOf);
    } else {
      var n := |assignments| - 1;
      var reported := Reported(ids, assignments[..n]);
      ReportedInOrder(ids, assignments[..n]);
      assert assignments == assignments[..n] + [assignments[n]];
      if Resolves(ids, assignments[n]) {
        SkipsLast(NotResolving(ids), NameOf, assignments[..n], reported, assignments[n]);
        assert reported + [] == reported;
      } else {
        PicksLast(NotResolving(ids), NameOf, assignments[..n], reported, assignments[n], assignments[n].projectName);
      }
    }
  }

  ghost predicate EachPicks(orgID: string, ids: ProjectIDs, mappings: seq<RoleMapping>, out: seq<AtlasMapping>) {
    && |out| == |mappings|
    && forall i :: 0 <= i < |out| ==>
      && out[i].externalGroupName == mappings[i].externalGroupName
      && Picks(Resolving(ids), Becoming(orgID, ids), mappings[i].roleAssignments, out[i].roleAssignments)
  }

  lemma EachMappingPicks(orgID: string, ids: ProjectIDs, mappings: seq<RoleMapping>, out: seq<AtlasMapping>)
    requires Mapped(orgID, ids, mappings, out)
    ensures EachPicks(orgID, ids, mappings, out)
  {
    forall i | 0 <= i < |out|
      ensures Picks(Resolving(ids), Becoming(orgID, ids), mappings[i].roleAssignments, out[i].roleAssignments)
    {
      KeptInOrder(orgID, ids, mappings[i].roleAssignments);
    }
  }

  ghost predicate PickedNames(ids: ProjectIDs, mappings: seq<RoleMapping>, names: seq<seq<string>>) {
    && |names| == |mappings|
    && forall i :: 0 <= i < |names| ==> Picks(NotResolving(ids), NameOf, mappings[i].roleAssignments, names[i])
  }

  /** The errors are the names reported of each mapping, one mapping after the other. */
  ghost predicate ReportsEach(ids: ProjectIDs, mappings: seq<RoleMapping>, errs: seq<string>) {
    exists names, at :: PickedNames(ids, mappings, names) && InPieces(errs, names, at)
  }

  lemma {:induction false} ErrorsByMapping(ids: ProjectIDs, mappings: seq<RoleMapping>)
    ensures ReportsEach(ids, mappings, ReportedOfAll(ids, mappings))
  {
    if mappings == [] {
      assert PickedNames(ids, mappings, []) && InPieces<string>([], [], []);
    } else {
      var n := |mappings| - 1;
      var before, own := ReportedOfAll(ids, mappings[..n]), Reported(ids, mappings[n].roleAssignments);
      ErrorsByMapping(ids, mappings[..n]);
      ReportedInOrder(ids, mappings[n].roleAssignments);
      OneMoreMapping(ids, mappings[..n], mappings[n], before, own);
      assert mappings == mappings[..n] + [mappings[n]];
    }
  }

  lemma OneMoreMapping(ids: ProjectIDs, mappings: seq<RoleMapping>, mapping: RoleMapping, errs: seq<string>, own: seq<string>)
    requires ReportsEach(ids, mappings, errs) && Picks(NotResolving(ids), NameOf, mapping.roleAssignments, own)
    ensures ReportsEach(ids, mappings + [mapping], errs + own)
  {
    var names, at :| PickedNames(ids, mappings, names) && InPieces(errs, names, at);
    OneMorePiece(errs, names, at, own);
    OneMoreName(ids, mappings, mapping, names, own);
  }

  lemma OneMoreName(ids: ProjectIDs, mappings: seq<RoleMapping>, mapping: RoleMapping, names: seq<seq<string>>, own: seq<string>)
    requires PickedNames(ids, mappings, names) && Picks(NotResolving(ids), NameOf, mapping.roleAssignments, own)
    ensures PickedNames(ids, mappings + [mapping], names + [own])
  {
    forall i | 0 <= i < |names|
      ensures Picks(NotResolving(ids), NameOf, (mappings + [mapping])[i].roleAssignments, (names + [own])[i])
    {
      assert (mappings + [mapping])[i] == mappings[i] && (names + [own])[i] == names[i];
    }
  }

  /** Every kept assignment has the role of one of the assignments, and goes either to the project
      that one names or, when it names none, to the organization. */
  lemma KeptHasOneTarget(orgID: string, ids: ProjectIDs, assignments: seq<RoleAssignment>)
    ensures forall out :: out in Kept(orgID, ids, assignments) ==>
      && (out.groupID.None? <==> out.orgID.Some?)
      && exists a :: a in assignments && Becomes(orgID, ids, a, out)
  {
    var kept := Kept(orgID, ids, assignments);
    KeptInOrder(orgID, ids, assignments);
    forall out | out in kept ensures exists a :: a in assignments && Becomes(orgID, ids, a, out) {
      var k :| 0 <= k < |kept| && kept[k] == out;
      var i := HasSource(Resolving(ids), Becoming(orgID, ids), assignments, kept, k);
      assert Becomes(orgID, ids, assignments[i], out);
    }
  }

  lemma {:induction false} ReportedIff(ids: ProjectIDs, assignments: seq<RoleAssignment>)
    ensures forall p :: p in Reported(ids, assignments) <==>
      exists i :: 0 <= i < |assignments| && assignments[i].projectName == p && !Resolves(ids, assignments[i])
  {
    if assignments != [] {
      var n := |assignments| - 1;
      ReportedIff(ids, assignments[..n]);
      assert assignments == assignments[..n] + [assignments[n]];
    }
  }

  /** There is no error exactly when every project named in any mapping is in the organization. */
  lemma {:induction false} NoErrorIff(ids: ProjectIDs, mappings: seq<RoleMapping>)
    ensures ReportedOfAll(ids, mappings) == [] <==>
      forall m, a :: m in mappings && a in m.roleAssignments ==> Resolves(ids, a)
  {
    if mappings != [] {
      var n := |mappings| - 1;
      NoErrorIff(ids, mappings[..n]);
      ReportedEmptyIff(ids, mappings[n].roleAssignments);
      assert mappings == mappings[..n] + [mappings[n]];
    }
  }

  lemma ReportedEmptyIff(ids: ProjectIDs, assignments: seq<RoleAssignment>)
    ensures Reported(ids, assignments) == [] <==> forall a :: a in assignments ==> Resolves(ids, a)
  {
    ReportedIff(ids, assignments);
    var r := Reported(ids, assignments);
    if r != [] {
      assert r[0] in r;
    }
    if a :| a in assignments && !Resolves(ids, a) {
      var i :| 0 <= i < |assignments| && assignments[i] == a;
      assert assignments[i].projectName in r;
    }
  }
}
