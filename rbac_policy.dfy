/**
 * The RBAC policy of the patch manager: the permission tables, and the
 * reference definitions of the access verdict and of the inventory-group
 * scope that the imperative code in module Rbac is proved against.
 */
module RbacPolicy {
  import opened Wrappers
  import opened Strings
  import opened RbacTypes

  const AllPerms := "patch:*:*"
  const PatchReadPerm := "patch:*:read"
  const PatchWritePerm := "patch:*:write"
  const ReadPerms: set<string> := {AllPerms, PatchReadPerm}
  const WritePerms: set<string> := {AllPerms, PatchWritePerm}
  const InventoryReadPerms: set<string> :=
    {"inventory:*:*", "inventory:*:read", "inventory:hosts:*", "inventory:hosts:read"}

  /** A handler's own permission requirement (an entry of `granularPerms`). */
  datatype Profile = Profile(permission: string, read: bool, write: bool)

  const TemplateWrite := Profile("patch:template:write", false, true)
  const SystemWrite := Profile("patch:system:write", false, true)

  /** Handler name to its own permission requirement. */
  const GranularPerms: map<string, Profile> := map[
    "CreateBaselineHandler" := TemplateWrite,
    "BaselineUpdateHandler" := TemplateWrite,
    "BaselineDeleteHandler" := TemplateWrite,
    "BaselineSystemsRemoveHandler" := TemplateWrite,
    "SystemDeleteHandler" := SystemWrite
  ]

  // ---------------------------------------------------------------------
  // The access verdict
  // ---------------------------------------------------------------------

  /** A grant that lets the caller read the inventory. */
  predicate InventoryGrant(permission: string)
  {
    permission in InventoryReadPerms
  }

  /**
   * A grant that satisfies a handler's own requirement: the exact permission,
   * the patch read (write) forms for a read-only (write-only) profile, and
   * the full patch wildcard for every profile.
   */
  predicate ProfileSatisfied(permission: string, p: Profile)
  {
    || permission == p.permission
    || (p.read && !p.write && permission in ReadPerms)
    || (p.write && !p.read && permission in WritePerms)
    || permission == AllPerms
  }

  /** The requirement of a handler without a profile, by HTTP method. */
  predicate DefaultSatisfied(permission: string, httpMethod: string)
  {
    if httpMethod == "GET" || httpMethod == "POST" then permission in ReadPerms
    else if httpMethod == "PUT" || httpMethod == "DELETE" then permission in WritePerms
    else false
  }

  /** A grant that satisfies the patch side of the check for this handler and method. */
  predicate PatchGrant(permission: string, handlerName: string, httpMethod: string)
  {
    if handlerName in GranularPerms then ProfileSatisfied(permission, GranularPerms[handlerName])
    else DefaultSatisfied(permission, httpMethod)
  }

  predicate HasInventoryGrant(access: seq<Access>)
  {
    exists i :: 0 <= i < |access| && InventoryGrant(access[i].permission)
  }

  predicate HasPatchGrant(access: seq<Access>, handlerName: string, httpMethod: string)
  {
    exists i :: 0 <= i < |access| && PatchGrant(access[i].permission, handlerName, httpMethod)
  }

  /** Access is granted when some grant reads the inventory and some grant satisfies the patch side. */
  predicate Granted(access: seq<Access>, handlerName: string, httpMethod: string)
  {
    HasInventoryGrant(access) && HasPatchGrant(access, handlerName, httpMethod)
  }

  /** The verdict depends only on which grants occur, not on their order or number. */
  lemma GrantedByMembership(a: seq<Access>, b: seq<Access>, handlerName: string, httpMethod: string)
    requires forall x :: x in a ==> x in b
    ensures Granted(a, handlerName, httpMethod) ==> Granted(b, handlerName, httpMethod)
  {
    if Granted(a, handlerName, httpMethod) {
      var i :| 0 <= i < |a| && InventoryGrant(a[i].permission);
      var j :| 0 <= j < |a| && PatchGrant(a[j].permission, handlerName, httpMethod);
      assert a[i] in b && a[j] in b;
      var i' :| 0 <= i' < |b| && b[i'] == a[i];
      var j' :| 0 <= j' < |b| && b[j'] == a[j];
    }
  }

  /** Reordering the grants does not change the verdict. */
  lemma GrantedOrderIndependent(a: seq<Access>, b: seq<Access>, handlerName: string, httpMethod: string)
    requires multiset(a) == multiset(b)
    ensures Granted(a, handlerName, httpMethod) == Granted(b, handlerName, httpMethod)
  {
    forall x | x in a ensures x in b {
      assert x in multiset(a);
    }
    forall x | x in b ensures x in a {
      assert x in multiset(b);
    }
    GrantedByMembership(a, b, handlerName, httpMethod);
    GrantedByMembership(b, a, handlerName, httpMethod);
  }

  /** More grants, before or after, never turn a granted verdict into a denial. */
  lemma GrantedMonotone(a: seq<Access>, b: seq<Access>, handlerName: string, httpMethod: string)
    requires Granted(a, handlerName, httpMethod)
    ensures Granted(a + b, handlerName, httpMethod)
    ensures Granted(b + a, handlerName, httpMethod)
  {
    GrantedByMembership(a, a + b, handlerName, httpMethod);
    GrantedByMembership(a, b + a, handlerName, httpMethod);
  }

  /** With no grants the request is denied. */
  lemma EmptyAccessDenied(handlerName: string, httpMethod: string)
    ensures !Granted([], handlerName, httpMethod)
  {
  }

  /** Both sides are needed: without an inventory grant nothing is granted. */
  lemma InventoryGrantRequired(access: seq<Access>, handlerName: string, httpMethod: string)
    requires forall i :: 0 <= i < |access| ==> !InventoryGrant(access[i].permission)
    ensures !Granted(access, handlerName, httpMethod)
  {
  }

  /** The profile rules spelled out as permission strings. */
  lemma ProfileRule(permission: string, p: Profile)
    ensures p.read && !p.write ==>
      (ProfileSatisfied(permission, p) <==>
        permission in {p.permission, "patch:*:read", "patch:*:*"})
    ensures p.write && !p.read ==>
      (ProfileSatisfied(permission, p) <==>
        permission in {p.permission, "patch:*:write", "patch:*:*"})
    ensures p.read == p.write ==>
      (ProfileSatisfied(permission, p) <==> permission in {p.permission, "patch:*:*"})
  {
  }

  /** Every entry of the handler table is a write-only requirement. */
  lemma GranularPermsWriteOnly(handlerName: string)
    requires handlerName in GranularPerms
    ensures GranularPerms[handlerName].write && !GranularPerms[handlerName].read
  {
  }

  /**
   * For a handler with a profile the HTTP method plays no part; the grants that
   * work are its permission, "patch:*:write" and "patch:*:*".
   */
  lemma GranularHandlerRule(permission: string, handlerName: string, httpMethod: string)
    requires handlerName in GranularPerms
    ensures PatchGrant(permission, handlerName, httpMethod) <==>
      permission in {GranularPerms[handlerName].permission, "patch:*:write", "patch:*:*"}
  {
    GranularPermsWriteOnly(handlerName);
    ProfileRule(permission, GranularPerms[handlerName]);
  }

  /** For a handler with a profile, the verdict is the same for every HTTP method. */
  lemma GranularIgnoresMethod(access: seq<Access>, handlerName: string, m1: string, m2: string)
    requires handlerName in GranularPerms
    ensures Granted(access, handlerName, m1) == Granted(access, handlerName, m2)
  {
  }

  /** Without a profile: GET/POST need a patch read form, PUT/DELETE a write form, other methods nothing. */
  lemma DefaultRule(permission: string, handlerName: string, httpMethod: string)
    requires handlerName !in GranularPerms
    ensures httpMethod in {"GET", "POST"} ==>
      (PatchGrant(permission, handlerName, httpMethod) <==> permission in {"patch:*:read", "patch:*:*"})
    ensures httpMethod in {"PUT", "DELETE"} ==>
      (PatchGrant(permission, handlerName, httpMethod) <==> permission in {"patch:*:write", "patch:*:*"})
    ensures httpMethod !in {"GET", "POST", "PUT", "DELETE"} ==>
      !PatchGrant(permission, handlerName, httpMethod)
  {
  }

  /** Any other HTTP method is denied for a handler without a profile, whatever the grants. */
  lemma OtherMethodsDenied(access: seq<Access>, handlerName: string, httpMethod: string)
    requires handlerName !in GranularPerms
    requires httpMethod !in {"GET", "POST", "PUT", "DELETE"}
    ensures !Granted(access, handlerName, httpMethod)
  {
  }

  // ---------------------------------------------------------------------
  // The inventory-group scope
  // ---------------------------------------------------------------------

  const GroupIdKey := "group.id"

  /** The "group.id" filter values of a list of resource definitions, in order. */
  function DefinitionValues(defs: seq<ResourceDefinition>): seq<Option<string>>
  {
    if |defs| == 0 then []
    else
      var d := defs[|defs| - 1];
      DefinitionValues(defs[..|defs| - 1]) + (if d.filterKey == GroupIdKey then d.filterValues else [])
  }

  /** The "group.id" values of the inventory grants, in the order a scan meets them. */
  function ScopeValues(access: seq<Access>): seq<Option<string>>
  {
    if |access| == 0 then []
    else
      var a := access[|access| - 1];
      ScopeValues(access[..|access| - 1])
        + (if InventoryGrant(a.permission) then DefinitionValues(a.resourceDefinitions) else [])
  }

  /** The groups a list of values names: each non-null value that parses, in order, duplicates kept. */
  function ParsedGroups(values: seq<Option<string>>, parse: string -> Option<string>): seq<string>
  {
    if |values| == 0 then []
    else
      var v := values[|values| - 1];
      ParsedGroups(values[..|values| - 1], parse)
        + (if v.Some? && parse(v.value).Some? then [parse(v.value).value] else [])
  }

  /** Some inventory grant has no resource definitions, so it is not restricted to any group. */
  predicate Unrestricted(access: seq<Access>)
  {
    exists i :: 0 <= i < |access| && InventoryGrant(access[i].permission) && |access[i].resourceDefinitions| == 0
  }

  /** The scope map: the ungrouped marker and the rendered list of groups, each when there is one. */
  function ScopeMap(ungrouped: bool, groups: seq<string>): (res: map<ScopeKey, string>)
    ensures KeyUngrouped in res <==> ungrouped
    ensures KeyGrouped in res <==> |groups| > 0
    ensures KeyUngrouped in res ==> res[KeyUngrouped] == "[]"
    ensures KeyGrouped in res ==> res[KeyGrouped] == "{" + Join(groups, ",") + "}"
  {
    var u := if ungrouped then map[KeyUngrouped := "[]"] else map[];
    if |groups| > 0 then u[KeyGrouped := "{" + Join(groups, ",") + "}"] else u
  }

  /** The inventory-group scope of a list of grants. */
  function InventoryScope(access: seq<Access>, parse: string -> Option<string>): InventoryGroups
  {
    if Unrestricted(access) then AllGroups
    else
      var values := ScopeValues(access);
      Groups(ScopeMap(None in values, ParsedGroups(values, parse)))
  }

  /** The scan's values over two lists of definitions, one after the other. */
  lemma DefinitionValuesAppend(a: seq<ResourceDefinition>, b: seq<ResourceDefinition>)
    ensures DefinitionValues(a + b) == DefinitionValues(a) + DefinitionValues(b)
    decreases |b|
  {
    if |b| == 0 {
      assert a + b == a;
    } else {
      var b' := b[..|b| - 1];
      assert (a + b)[..|a + b| - 1] == a + b';
      DefinitionValuesAppend(a, b');
    }
  }

  /** One more definition in the scan. */
  lemma DefinitionValuesStep(defs: seq<ResourceDefinition>, j: nat)
    requires j < |defs|
    ensures DefinitionValues(defs[..j + 1]) == DefinitionValues(defs[..j])
      + (if defs[j].filterKey == GroupIdKey then defs[j].filterValues else [])
  {
    assert defs[..j + 1][..j] == defs[..j];
  }

  /** One more grant in the scan. */
  lemma ScopeValuesStep(access: seq<Access>, i: nat)
    requires i < |access|
    ensures ScopeValues(access[..i + 1]) == ScopeValues(access[..i])
      + (if InventoryGrant(access[i].permission) then DefinitionValues(access[i].resourceDefinitions) else [])
  {
    assert access[..i + 1][..i] == access[..i];
  }

  /** The scan's values of a single grant. */
  lemma ScopeValuesSingle(a: Access)
    ensures ScopeValues([a]) == if InventoryGrant(a.permission) then DefinitionValues(a.resourceDefinitions) else []
  {
    assert [a][..0] == [];
  }

  /** The scan's values of a single resource definition. */
  lemma DefinitionValuesSingle(d: ResourceDefinition)
    ensures DefinitionValues([d]) == if d.filterKey == GroupIdKey then d.filterValues else []
  {
    assert [d][..0] == [];
  }

  /** The groups of a single filter value: one when it is non-null and parses, none otherwise. */
  lemma ParsedGroupsSingle(v: Option<string>, parse: string -> Option<string>)
    ensures ParsedGroups([v], parse) == if v.Some? && parse(v.value).Some? then [parse(v.value).value] else []
  {
    assert [v][..0] == [];
  }

  /** The scan's values of two lists of grants put one after the other. */
  lemma {:induction false} ScopeValuesAppend(a: seq<Access>, b: seq<Access>)
    ensures ScopeValues(a + b) == ScopeValues(a) + ScopeValues(b)
    decreases |b|
  {
    if |b| == 0 {
      assert a + b == a;
    } else {
      var b' := b[..|b| - 1];
      assert (a + b)[..|a + b| - 1] == a + b';
      ScopeValuesAppend(a, b');
    }
  }

  /** Groups come out in encounter order with duplicates kept: parsing distributes over concatenation. */
  lemma {:induction false} ParsedGroupsAppend(x: seq<Option<string>>, y: seq<Option<string>>, parse: string -> Option<string>)
    ensures ParsedGroups(x + y, parse) == ParsedGroups(x, parse) + ParsedGroups(y, parse)
    decreases |y|
  {
    if |y| == 0 {
      assert x + y == x;
    } else {
      var y' := y[..|y| - 1];
      assert (x + y)[..|x + y| - 1] == x + y';
      ParsedGroupsAppend(x, y', parse);
    }
  }

  /** The ungrouped part of the result map after a scan that met `values`. */
  function MarkUngrouped(values: seq<Option<string>>, res: map<ScopeKey, string>): map<ScopeKey, string>
  {
    if None in values then res[KeyUngrouped := "[]"] else res
  }

  /** What a scan over `seen` and then over `added` has collected is what one scan over both collects. */
  lemma ScanComposes(seen: seq<Option<string>>, added: seq<Option<string>>, parse: string -> Option<string>,
                     groups0: seq<string>, res0: map<ScopeKey, string>)
    ensures groups0 + ParsedGroups(seen, parse) + ParsedGroups(added, parse)
      == groups0 + ParsedGroups(seen + added, parse)
    ensures MarkUngrouped(added, MarkUngrouped(seen, res0)) == MarkUngrouped(seen + added, res0)
  {
    ParsedGroupsAppend(seen, added, parse);
  }

  /** A value is met by the scan over definitions exactly when some "group.id" filter has it. */
  lemma {:induction false} DefinitionValuesMember(defs: seq<ResourceDefinition>, v: Option<string>)
    ensures v in DefinitionValues(defs) <==>
      exists j :: 0 <= j < |defs| && defs[j].filterKey == GroupIdKey && v in defs[j].filterValues
    decreases |defs|
  {
    if |defs| > 0 {
      var defs' := defs[..|defs| - 1];
      DefinitionValuesMember(defs', v);
      if j :| 0 <= j < |defs| && defs[j].filterKey == GroupIdKey && v in defs[j].filterValues {
        if j < |defs| - 1 {
          assert defs'[j] == defs[j];
        }
      }
    }
  }

  /** A value is met by the scan over grants exactly when some inventory grant has it under a "group.id" filter. */
  lemma {:induction false} ScopeValuesMember(access: seq<Access>, v: Option<string>)
    ensures v in ScopeValues(access) <==>
      exists i, j :: 0 <= i < |access| && InventoryGrant(access[i].permission)
        && 0 <= j < |access[i].resourceDefinitions|
        && access[i].resourceDefinitions[j].filterKey == GroupIdKey
        && v in access[i].resourceDefinitions[j].filterValues
    decreases |access|
  {
    if |access| > 0 {
      var access' := access[..|access| - 1];
      var a := access[|access| - 1];
      ScopeValuesMember(access', v);
      DefinitionValuesMember(a.resourceDefinitions, v);
      ScopeValuesStep(access, |access| - 1);
      assert access[..|access| - 1 + 1] == access;
      if i, j :|
          && 0 <= i < |access| && InventoryGrant(access[i].permission)
          && 0 <= j < |access[i].resourceDefinitions|
          && access[i].resourceDefinitions[j].filterKey == GroupIdKey
          && v in access[i].resourceDefinitions[j].filterValues
      {
        if i < |access| - 1 {
          assert access'[i] == access[i];
        }
      }
    }
  }

  /** Some group is found exactly when some value is non-null and parses. */
  lemma {:induction false} ParsedGroupsNonEmpty(values: seq<Option<string>>, parse: string -> Option<string>)
    ensures |ParsedGroups(values, parse)| > 0 <==>
      exists k :: 0 <= k < |values| && values[k].Some? && parse(values[k].value).Some?
    decreases |values|
  {
    if |values| > 0 {
      var values' := values[..|values| - 1];
      ParsedGroupsNonEmpty(values', parse);
      if k :| 0 <= k < |values| && values[k].Some? && parse(values[k].value).Some? {
        if k < |values| - 1 {
          assert values'[k] == values[k];
        }
      }
    }
  }

  /** With no grants the scope is the empty map, not the unrestricted nil. */
  lemma EmptyAccessScope(parse: string -> Option<string>)
    ensures InventoryScope([], parse) == Groups(map[])
  {
  }

  /**
   * Most permissive wins: one inventory grant without resource definitions
   * makes the scope unrestricted, whatever the other grants say.
   */
  lemma UnrestrictedWins(access: seq<Access>, i: nat, parse: string -> Option<string>)
    requires i < |access| && InventoryGrant(access[i].permission)
    requires |access[i].resourceDefinitions| == 0
    ensures InventoryScope(access, parse) == AllGroups
  {
  }

  /** The unrestricted scope comes only from an inventory grant without resource definitions. */
  lemma AllGroupsOnlyFromUndefinedGrant(access: seq<Access>, parse: string -> Option<string>)
    requires InventoryScope(access, parse) == AllGroups
    ensures exists i ::
        0 <= i < |access| && InventoryGrant(access[i].permission) && |access[i].resourceDefinitions| == 0
  {
  }

  /** The ungrouped key is present exactly when some "group.id" value of an inventory grant is null. */
  lemma UngroupedKeyIff(access: seq<Access>, parse: string -> Option<string>)
    requires !Unrestricted(access)
    ensures var r := InventoryScope(access, parse);
      r.Groups? &&
      (KeyUngrouped in r.res <==>
        exists i, j :: 0 <= i < |access| && InventoryGrant(access[i].permission)
          && 0 <= j < |access[i].resourceDefinitions|
          && access[i].resourceDefinitions[j].filterKey == GroupIdKey
          && None in access[i].resourceDefinitions[j].filterValues)
    ensures var r := InventoryScope(access, parse);
      KeyUngrouped in r.res ==> r.res[KeyUngrouped] == "[]"
  {
    ScopeValuesMember(access, None);
  }

  /**
   * The grouped key is present exactly when some "group.id" value of an
   * inventory grant is non-null and parses, and it holds the parsed groups,
   * in encounter order, as "{g1,g2,...}".
   */
  lemma GroupedKeyIff(access: seq<Access>, parse: string -> Option<string>)
    requires !Unrestricted(access)
    ensures var r := InventoryScope(access, parse);
      r.Groups? &&
      (KeyGrouped in r.res <==>
        exists v :: v in ScopeValues(access) && v.Some? && parse(v.value).Some?)
    ensures var r := InventoryScope(access, parse);
      KeyGrouped in r.res ==>
        r.res[KeyGrouped] == "{" + Join(ParsedGroups(ScopeValues(access), parse), ",") + "}"
  {
    var values := ScopeValues(access);
    ParsedGroupsNonEmpty(values, parse);
    if v :| v in values && v.Some? && parse(v.value).Some? {
      var k :| 0 <= k < |values| && values[k] == v;
    }
  }

  /** A grant that does not read the inventory cannot make the scope unrestricted. */
  lemma UnrestrictedSkipsNonInventory(a: seq<Access>, g: Access, b: seq<Access>)
    requires !InventoryGrant(g.permission)
    ensures Unrestricted(a + [g] + b) == Unrestricted(a + b)
  {
    var ab, agb := a + b, a + [g] + b;
    if Unrestricted(ab) {
      var i :| 0 <= i < |ab| && InventoryGrant(ab[i].permission) && |ab[i].resourceDefinitions| == 0;
      if i < |a| {
        assert agb[i] == ab[i];
      } else {
        assert agb[i + 1] == ab[i];
      }
    }
    if Unrestricted(agb) {
      var i :| 0 <= i < |agb| && InventoryGrant(agb[i].permission) && |agb[i].resourceDefinitions| == 0;
      if i < |a| {
        assert ab[i] == agb[i];
      } else {
        assert i != |a|;
        assert ab[i - 1] == agb[i];
      }
    }
  }

  /** A grant that does not read the inventory adds no values to the scan. */
  lemma ScopeValuesSkipNonInventory(a: seq<Access>, g: Access, b: seq<Access>)
    requires !InventoryGrant(g.permission)
    ensures ScopeValues(a + [g] + b) == ScopeValues(a + b)
  {
    ScopeValuesAppend(a + [g], b);
    ScopeValuesAppend(a, [g]);
    ScopeValuesAppend(a, b);
    assert ScopeValues([g]) == [] by {
      assert [g][..0] == [];
    }
    assert ScopeValues(a) + [] == ScopeValues(a);
  }

  /** A grant that does not read the inventory plays no part in the scope, even without definitions. */
  lemma NonInventoryGrantIgnored(a: seq<Access>, g: Access, b: seq<Access>, parse: string -> Option<string>)
    requires !InventoryGrant(g.permission)
    ensures InventoryScope(a + [g] + b, parse) == InventoryScope(a + b, parse)
  {
    UnrestrictedSkipsNonInventory(a, g, b);
    ScopeValuesSkipNonInventory(a, g, b);
  }

  // ---------------------------------------------------------------------
  // Worked cases
  // ---------------------------------------------------------------------

  /** A handler with a write profile, its exact permission and an inventory grant: granted, unrestricted. */
  lemma ProfileGrantScenario(parse: string -> Option<string>)
    ensures var access := [Access("patch:template:write", []), Access("inventory:hosts:read", [])];
      Granted(access, "BaselineUpdateHandler", "PUT") && InventoryScope(access, parse) == AllGroups
  {
    var access := [Access("patch:template:write", []), Access("inventory:hosts:read", [])];
    assert InventoryGrant(access[1].permission) && PatchGrant(access[0].permission, "BaselineUpdateHandler", "PUT");
    UnrestrictedWins(access, 1, parse);
  }

  /** A GET to a handler without a profile is not satisfied by a patch write grant. */
  lemma WriteGrantForReadScenario(inventory: Access)
    requires InventoryGrant(inventory.permission)
    ensures !Granted([Access("patch:*:write", []), inventory], "SystemsListHandler", "GET")
  {
    var access := [Access("patch:*:write", []), inventory];
    forall i | 0 <= i < |access| ensures !PatchGrant(access[i].permission, "SystemsListHandler", "GET") {
      assert access[i].permission in {"patch:*:write"} + InventoryReadPerms;
    }
  }

  /** Two groups of one "group.id" filter, rendered in order. */
  lemma GroupScopeScenario(parse: string -> Option<string>, g1: string, g2: string)
    requires parse("g1") == Some(g1) && parse("g2") == Some(g2)
    ensures InventoryScope([Access("inventory:hosts:read", [ResourceDefinition("group.id", [Some("g1"), Some("g2")])])], parse)
      == Groups(map[KeyGrouped := "{" + (g1 + "," + g2) + "}"])
  {
    var values := [Some("g1"), Some("g2")];
    var grant := Access("inventory:hosts:read", [ResourceDefinition("group.id", values)]);
    assert InventoryGrant(grant.permission);
    GroupGrantValues(grant, values);
    assert ParsedGroups(values, parse) == [g1, g2] by {
      assert values[..1] == [Some("g1")] && values[..1][..0] == [];
    }
    GroupedOnlyScope([grant], parse, [g1, g2]);
    JoinPair(g1, g2, ",");
  }

  /** A null "group.id" value alone gives just the ungrouped marker. */
  lemma UngroupedScopeScenario(parse: string -> Option<string>)
    ensures InventoryScope([Access("inventory:hosts:read", [ResourceDefinition("group.id", [None])])], parse)
      == Groups(map[KeyUngrouped := "[]"])
  {
    var access := [Access("inventory:hosts:read", [ResourceDefinition("group.id", [None])])];
    assert access[..0] == [];
    assert access[0].resourceDefinitions[..0] == [];
    var values: seq<Option<string>> := [None];
    assert DefinitionValues(access[0].resourceDefinitions) == values;
    assert InventoryGrant(access[0].permission);
    assert ScopeValues(access) == values;
    assert !Unrestricted(access);
    assert values[..0] == [];
  }

  /** An inventory grant with one "group.id" definition contributes exactly that definition's values. */
  lemma GroupGrantValues(a: Access, values: seq<Option<string>>)
    requires InventoryGrant(a.permission)
    requires a.resourceDefinitions == [ResourceDefinition(GroupIdKey, values)]
    ensures ScopeValues([a]) == values && !Unrestricted([a])
  {
    DefinitionValuesSingle(a.resourceDefinitions[0]);
    ScopeValuesSingle(a);
  }

  /** A restricted scope with no null value and some groups holds only the grouped key. */
  lemma GroupedOnlyScope(access: seq<Access>, parse: string -> Option<string>, groups: seq<string>)
    requires !Unrestricted(access) && None !in ScopeValues(access)
    requires ParsedGroups(ScopeValues(access), parse) == groups && |groups| > 0
    ensures InventoryScope(access, parse) == Groups(map[KeyGrouped := "{" + Join(groups, ",") + "}"])
  {
  }

  /** The same grant twice contributes its values twice, still restricted. */
  lemma GroupGrantTwiceValues(a: Access, values: seq<Option<string>>)
    requires InventoryGrant(a.permission)
    requires a.resourceDefinitions == [ResourceDefinition(GroupIdKey, values)]
    ensures ScopeValues([a, a]) == values + values && !Unrestricted([a, a])
  {
    GroupGrantValues(a, values);
    ScopeValuesAppend([a], [a]);
    assert [a] + [a] == [a, a];
    assert forall i :: 0 <= i < 2 ==> [a, a][i] == a;
  }

  /** A value that parses, met twice, gives its group twice. */
  lemma ParsedTwice(v: string, parse: string -> Option<string>, g: string)
    requires parse(v) == Some(g)
    ensures ParsedGroups([Some(v), Some(v)], parse) == [g, g]
  {
    ParsedGroupsSingle(Some(v), parse);
    ParsedGroupsAppend([Some(v)], [Some(v)], parse);
    assert [Some(v)] + [Some(v)] == [Some(v), Some(v)];
  }

  /** The same group granted twice appears twice: the groups are a list, not a set. */
  lemma DuplicateGroupScenario(parse: string -> Option<string>, v: string, g: string)
    requires parse(v) == Some(g)
    ensures var grant := Access("inventory:*:read", [ResourceDefinition("group.id", [Some(v)])]);
      InventoryScope([grant, grant], parse) == Groups(map[KeyGrouped := "{" + (g + "," + g) + "}"])
  {
    var grant := Access("inventory:*:read", [ResourceDefinition("group.id", [Some(v)])]);
    assert InventoryGrant(grant.permission);
    GroupGrantTwiceValues(grant, [Some(v)]);
    ParsedTwice(v, parse, g);
    assert [Some(v)] + [Some(v)] == [Some(v), Some(v)];
    GroupedOnlyScope([grant, grant], parse, [g, g]);
    JoinPair(g, g, ",");
  }
}
