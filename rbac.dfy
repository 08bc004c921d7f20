/**
 * The RBAC middleware's decision code: the permission check, the
 * inventory-group scan and the glue that stores the scope in the request.
 * The call to the RBAC service is the `RbacResponse` parameter.
 */
module Rbac {
  import opened Wrappers
  import opened Strings
  import opened RbacTypes
  import opened GinContext
  import opened RbacPolicy

  const KeyInventoryGroups := "inventoryGroups"

  /**
   * checkPermissions: one pass over the grants with two flags, each set at
   * most once, and a return as soon as both are set.
   */
  method CheckPermissions(access: seq<Access>, handlerName: string, httpMethod: string) returns (granted: bool)
    ensures granted == Granted(access, handlerName, httpMethod)
  {
    var grantedPatch := false;
    var grantedInventory := false;
    for i := 0 to |access|
      invariant grantedInventory <==> exists k :: 0 <= k < i && InventoryGrant(access[k].permission)
      invariant grantedPatch <==>
        exists k :: 0 <= k < i && PatchGrant(access[k].permission, handlerName, httpMethod)
    {
      if grantedPatch && grantedInventory {
        return true;
      }
      var a := access[i];
      if !grantedInventory {
        grantedInventory := a.permission in InventoryReadPerms;
      }
      if !grantedPatch {
        if handlerName in GranularPerms {
          var p := GranularPerms[handlerName];
          if a.permission == p.permission {
            grantedPatch := true;
            continue;
          }
          if p.read && !p.write && a.permission in ReadPerms {
            grantedPatch := true;
            continue;
          }
          if p.write && !p.read && a.permission in WritePerms {
            grantedPatch := true;
            continue;
          }
          grantedPatch := a.permission == AllPerms;
        } else {
          if httpMethod == "GET" || httpMethod == "POST" {
            grantedPatch := a.permission in ReadPerms;
          } else if httpMethod == "PUT" || httpMethod == "DELETE" {
            grantedPatch := a.permission in WritePerms;
          }
        }
      }
    }
    return grantedPatch && grantedInventory;
  }

  /**
   * The innermost scan of findInventoryGroups over one filter's values: a
   * null marks the ungrouped key, a value that parses joins the groups, a
   * value that does not parse is skipped.
   */
  method ScanFilterValues(values: seq<Option<string>>, parse: string -> Option<string>,
                          res0: map<ScopeKey, string>, groups0: seq<string>)
    returns (res: map<ScopeKey, string>, groups: seq<string>)
    ensures groups == groups0 + ParsedGroups(values, parse)
    ensures res == MarkUngrouped(values, res0)
  {
    res, groups := res0, groups0;
    for k := 0 to |values|
      invariant groups == groups0 + ParsedGroups(values[..k], parse)
      invariant res == MarkUngrouped(values[..k], res0)
    {
      var v := values[k];
      assert values[..k + 1][..k] == values[..k];
      assert values[..k + 1] == values[..k] + [v];
      if v.None? {
        res := res[KeyUngrouped := "[]"];
        continue;
      }
      var group := parse(v.value);
      if group.None? {
        continue;
      }
      groups := groups + [group.value];
    }
    assert values[..|values|] == values;
  }

  /** The middle scan over one grant's resource definitions: only "group.id" filters are read. */
  method ScanDefinitions(defs: seq<ResourceDefinition>, parse: string -> Option<string>,
                         res0: map<ScopeKey, string>, groups0: seq<string>)
    returns (res: map<ScopeKey, string>, groups: seq<string>)
    ensures groups == groups0 + ParsedGroups(DefinitionValues(defs), parse)
    ensures res == MarkUngrouped(DefinitionValues(defs), res0)
  {
    res, groups := res0, groups0;
    ghost var seen: seq<Option<string>> := [];
    for j := 0 to |defs|
      invariant seen == DefinitionValues(defs[..j])
      invariant groups == groups0 + ParsedGroups(seen, parse)
      invariant res == MarkUngrouped(seen, res0)
    {
      var rd := defs[j];
      DefinitionValuesStep(defs, j);
      if rd.filterKey != GroupIdKey {
        assert seen + [] == seen;
        continue;
      }
      ScanComposes(seen, rd.filterValues, parse, groups0, res0);
      res, groups := ScanFilterValues(rd.filterValues, parse, res, groups);
      seen := seen + rd.filterValues;
    }
    assert defs[..|defs|] == defs;
  }

  /**
   * findInventoryGroups: a scan over the grants that fills the result map
   * and the list of groups; the first inventory grant without resource
   * definitions ends the scan with the unrestricted (nil) result.
   */
  method FindInventoryGroups(access: seq<Access>, parse: string -> Option<string>) returns (r: InventoryGroups)
    ensures r == InventoryScope(access, parse)
  {
    var res: map<ScopeKey, string> := map[];
    if |access| == 0 {
      return Groups(res);
    }
    var groups: seq<string> := [];
    ghost var seen: seq<Option<string>> := [];
    for i := 0 to |access|
      invariant forall k :: 0 <= k < i ==>
        !(InventoryGrant(access[k].permission) && |access[k].resourceDefinitions| == 0)
      invariant seen == ScopeValues(access[..i])
      invariant groups == ParsedGroups(seen, parse)
      invariant res == MarkUngrouped(seen, map[])
    {
      var a := access[i];
      ScopeValuesStep(access, i);
      if !(a.permission in InventoryReadPerms) {
        assert seen + [] == seen;
        continue;
      }
      if |a.resourceDefinitions| == 0 {
        return AllGroups;
      }
      ParsedGroupsAppend(seen, DefinitionValues(a.resourceDefinitions), parse);
      ScanComposes(seen, DefinitionValues(a.resourceDefinitions), parse, [], map[]);
      res, groups := ScanDefinitions(a.resourceDefinitions, parse, res, groups);
      seen := seen + DefinitionValues(a.resourceDefinitions);
    }
    assert access[..|access|] == access;
    if |groups| > 0 {
      res := res[KeyGrouped := "{" + Join(groups, ",") + "}"];
    }
    assert res == ScopeMap(None in seen, groups);
    return Groups(res);
  }

  /**
   * The handler name the check uses: gin's full handler name split on "."
   * and cut to its last part, i.e. the longest suffix without a dot.
   */
  function HandlerNameOf(fullName: string): (name: string)
    ensures '.' !in name
    ensures |name| <= |fullName| && fullName[|fullName| - |name|..] == name
    ensures |name| < |fullName| ==> fullName[|fullName| - |name| - 1] == '.'
  {
    var parts := Split(fullName, '.');
    SplitPartsFree(fullName, '.');
    SplitLastSuffix(fullName, '.');
    SplitLastPreceded(fullName, '.');
    parts[|parts| - 1]
  }

  /**
   * isAccessGranted: a failed call to the RBAC service denies; otherwise the
   * verdict of the check, and on a grant the scope is stored in the context.
   */
  method IsAccessGranted(c: Context, response: RbacResponse, parse: string -> Option<string>)
    returns (granted: bool)
    modifies c`keys
    ensures response.RequestFailed? ==> !granted && c.keys == old(c.keys)
    ensures response.Received? ==>
      granted == Granted(response.access, HandlerNameOf(c.handlerName), c.requestMethod)
    ensures response.Received? ==>
      c.keys == if granted
        then old(c.keys)[KeyInventoryGroups := InventoryGroupsValue(InventoryScope(response.access, parse))]
        else old(c.keys)
  {
    if response.RequestFailed? {
      return false;
    }
    var handlerName := HandlerNameOf(c.handlerName);
    granted := CheckPermissions(response.access, handlerName, c.requestMethod);
    if granted {
      var groups := FindInventoryGroups(response.access, parse);
      c.Set(KeyInventoryGroups, InventoryGroupsValue(groups));
    }
  }
}
