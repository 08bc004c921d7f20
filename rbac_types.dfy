/**
 * The data the RBAC service returns for a caller (the `rbac.AccessPagination`
 * body) and the scope value that the RBAC middleware stores in the request.
 */
module RbacTypes {
  import opened Wrappers

  /**
   * One resource definition of a grant, i.e. its attribute filter: a key
   * such as "group.id" and a list of values, where `None` is a JSON null.
   */
  datatype ResourceDefinition = ResourceDefinition(filterKey: string, filterValues: seq<Option<string>>)

  /** One entry of `access.Data`: a permission string and its resource definitions. */
  datatype Access = Access(permission: string, resourceDefinitions: seq<ResourceDefinition>)

  /** The two keys of the inventory-group scope map (`rbac.KeyUngrouped`, `rbac.KeyGrouped`). */
  datatype ScopeKey = KeyUngrouped | KeyGrouped

  /**
   * The result of findInventoryGroups: `AllGroups` is the nil map (no
   * restriction), `Groups(res)` a non-nil map, possibly empty.
   */
  datatype InventoryGroups = AllGroups | Groups(res: map<ScopeKey, string>)

  /** The outcome of the one call to the RBAC service. */
  datatype RbacResponse = RequestFailed | Received(access: seq<Access>)
}
