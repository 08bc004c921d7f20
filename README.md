# Patch manager middlewares: RBAC decision and authentication

This project models two gin middlewares of the patch manager's API server and
proves properties of them:

- **RBAC** (`manager/middlewares/rbac.go`). The manager fetches the caller's
  grants from the RBAC service. A grant is a permission string plus resource
  definitions. From these grants the middleware works out two things:
  - an allow/deny verdict for the handler and HTTP method (`checkPermissions`);
  - the inventory-group scope it stores in the request context
    (`findInventoryGroups`). The scope is one of three things:
    - nil, meaning all groups;
    - an empty map;
    - a map with an "ungrouped" key, a "grouped" key, or both.

  `isAccessGranted` connects the two. It cuts the handler name to its last
  "."-separated segment, denies when the fetch failed, and stores the scope
  only on a grant.
- **Authentication** (`manager/middlewares/authentication.go`):
  - the process-wide `AccountIDCache` from org id to account id, and
    `findAccount`, its check-then-insert;
  - the empty-org-id guard of `GetOrCreateAccount`;
  - the reading of the `x-rh-identity` header (`GetXRHID`);
  - `PublicAuthenticator`, `MockAuthenticator`, the Referer classification of
    `CheckReferer`, and the "associate" check of `TurnpikeAuthenticator`.

The modules follow the program:

- `Wrappers`: Option and Result.
- `Strings`: the parts of Go's `strings` package that are used: `Split`,
  `Join`, `Contains` and `ToLower`.
- `RbacTypes`: the RBAC service's access data and the scope value.
- `GinContext`: a request context class, with headers, keys set with `Set`,
  and the response from `AbortWithStatusJSON`.
- `RbacPolicy`: the permission tables and reference definitions of the
  verdict and the scope, with lemmas about them.
- `Rbac`: the middleware's loops as methods, proved against `RbacPolicy`.
- `Authentication`: the cache class and the header checks.

Design notes:

- The result of `findInventoryGroups` is `AllGroups` (the nil map) or
  `Groups(m)` (a non-nil, possibly empty map). The source treats the two
  differently, so the model does too.
- The groups are a list in encounter order with duplicates kept, rendered as
  `"{g1,g2}"`.
- The RBAC verdict is proved equal to "some grant reads the inventory **and**
  some grant satisfies the patch rule". The early return and the `continue`s
  in the loop therefore change nothing.
- The comment at rbac.go:93 doubts that the read-only branch is ever taken.
  `GranularPermsWriteOnly` proves that it is not: every entry of the table is
  write-only.
- When `findAccount` fails, `PublicAuthenticator` does not abort the request.
  It only skips setting the user, and the model states exactly that.

## Model

| member | source | states |
|---|---|---|
| Rbac.CheckPermissions | manager/middlewares/rbac.go:64-127 | The loop with its early return and `continue`s returns exactly `Granted`: some grant is in the inventory read set and some grant satisfies the patch rule for this handler and method. |
| RbacPolicy.GrantedByMembership | manager/middlewares/rbac.go:69-126 | The verdict depends only on which grants occur. If every grant of `a` is also in `b`, a grant for `a` is a grant for `b`. |
| RbacPolicy.GrantedOrderIndependent | manager/middlewares/rbac.go:69-126 | Any permutation of the grants (equal multisets) gives the same verdict. |
| RbacPolicy.GrantedMonotone | manager/middlewares/rbac.go:78-82 | Adding grants before or after never turns a grant into a denial. |
| RbacPolicy.EmptyAccessDenied | manager/middlewares/rbac.go:65-126 | With no grants the verdict is false. |
| RbacPolicy.InventoryGrantRequired | manager/middlewares/rbac.go:76-80 | Without any inventory read grant, access is denied whatever the patch grants. |
| RbacPolicy.ProfileSatisfied | manager/middlewares/rbac.go:84-112 | Whether a grant satisfies a handler's own profile. `ProfileRule` proves the exact permission set it accepts for each profile shape. |
| RbacPolicy.DefaultSatisfied | manager/middlewares/rbac.go:113-122 | Whether a grant satisfies the method-based default rule. `DefaultRule` proves it accepts the read forms for GET/POST, the write forms for PUT/DELETE, and nothing for any other method. |
| RbacPolicy.PatchGrant | manager/middlewares/rbac.go:82-124 | The patch-side test for one grant: the handler's profile when it has one, else the default rule. `GranularHandlerRule` and `DefaultRule` give its accepted sets. |
| RbacPolicy.ProfileRule | manager/middlewares/rbac.go:84-112 | A handler profile is satisfied by one of these grants, and only by it: the exact permission; the patch read forms for a read-only profile; the patch write forms for a write-only profile; otherwise only "patch:*:*". |
| RbacPolicy.GranularPermsWriteOnly | manager/middlewares/rbac.go:42-46 | Every entry of the handler table is write-only. |
| RbacPolicy.GranularHandlerRule | manager/middlewares/rbac.go:84-112 | For a handler in the table, the patch side accepts exactly its permission, "patch:*:write" and "patch:*:*". |
| RbacPolicy.GranularIgnoresMethod | manager/middlewares/rbac.go:84-112 | For a handler in the table, the verdict is the same for every HTTP method. |
| RbacPolicy.DefaultRule | manager/middlewares/rbac.go:113-122 | For a handler not in the table, GET/POST need "patch:*:read" or "patch:*:*" and PUT/DELETE need "patch:*:write" or "patch:*:*". No grant satisfies any other method. |
| RbacPolicy.OtherMethodsDenied | manager/middlewares/rbac.go:117-122 | A handler not in the table is denied, whatever the grants, for any method other than the four named ones. |
| Rbac.FindInventoryGroups | manager/middlewares/rbac.go:161-203 | The nested scan returns exactly `InventoryScope`. It returns AllGroups when some inventory grant has no definitions. Otherwise the map holds the ungrouped marker if a null was met, and the rendered groups if any parsed. |
| Rbac.ScanDefinitions | manager/middlewares/rbac.go:180-196 | The scan over one grant's definitions appends the parsed groups of its "group.id" filters and marks a null value. |
| Rbac.ScanFilterValues | manager/middlewares/rbac.go:184-195 | The scan over one filter's values appends the groups the values parse to, in order, and marks the ungrouped key when a value is null. |
| RbacPolicy.ScopeMap | manager/middlewares/rbac.go:184-201 | The scope map has the ungrouped key exactly when a null was met, with value "[]". It has the grouped key exactly when the list of groups is non-empty, with value "{" + the groups joined by "," + "}". |
| RbacPolicy.ScanComposes | manager/middlewares/rbac.go:180-196 | Scanning one list of values and then another collects the same groups and marker as scanning both at once. |
| RbacPolicy.EmptyAccessScope | manager/middlewares/rbac.go:164-166 | With no grants, the scope is an empty non-nil map, not AllGroups. |
| RbacPolicy.UnrestrictedWins | manager/middlewares/rbac.go:175-178 | If any inventory grant has no resource definitions, the scope is AllGroups, whatever was collected before or after. |
| RbacPolicy.AllGroupsOnlyFromUndefinedGrant | manager/middlewares/rbac.go:169-178 | AllGroups arises only from an inventory grant without resource definitions. |
| RbacPolicy.NonInventoryGrantIgnored | manager/middlewares/rbac.go:170-173 | Inserting a grant that does not read the inventory, even one without definitions, leaves the scope unchanged. |
| RbacPolicy.DefinitionValuesMember | manager/middlewares/rbac.go:180-184 | A value is met by the scan over a grant's definitions exactly when some "group.id" filter lists it. |
| RbacPolicy.ScopeValuesMember | manager/middlewares/rbac.go:169-196 | A value is met by the whole scan exactly when some inventory grant lists it under a "group.id" filter. |
| RbacPolicy.ParsedGroupsNonEmpty | manager/middlewares/rbac.go:189-199 | Some group is collected exactly when some value is non-null and parses. |
| RbacPolicy.UngroupedKeyIff | manager/middlewares/rbac.go:184-188 | When the scope is restricted, the ungrouped key is present exactly when an inventory grant's "group.id" filter lists a null, and its value is "[]". |
| RbacPolicy.GroupedKeyIff | manager/middlewares/rbac.go:189-201 | When the scope is restricted, the grouped key is present exactly when a scanned value parses. It holds the parsed groups in encounter order as "{g1,g2,...}". |
| RbacPolicy.ProfileGrantScenario | manager/middlewares/rbac.go:84-90 | A PUT to BaselineUpdateHandler with "patch:template:write" and "inventory:hosts:read" is granted, and the scope is AllGroups. |
| RbacPolicy.WriteGrantForReadScenario | manager/middlewares/rbac.go:117-119 | A GET to a handler without a profile is denied when the only patch grant is "patch:*:write". |
| RbacPolicy.GroupScopeScenario | manager/middlewares/rbac.go:180-201 | One "group.id" filter with two parsable values gives the grouped key "{g1,g2}" and no ungrouped key. |
| RbacPolicy.UngroupedScopeScenario | manager/middlewares/rbac.go:184-187 | A lone null value gives only the ungrouped key "[]". |
| RbacPolicy.GroupGrantValues | manager/middlewares/rbac.go:180-196 | An inventory grant with one "group.id" definition contributes exactly that filter's values, and does not make the scope unrestricted. |
| RbacPolicy.GroupedOnlyScope | manager/middlewares/rbac.go:184-201 | A restricted scope where no null was met and some groups parsed is the map with only the grouped key, holding "{" + the groups joined by "," + "}". |
| RbacPolicy.DuplicateGroupScenario | manager/middlewares/rbac.go:194-200 | The same group granted twice is rendered twice ("{g,g}"), because the groups are a list, not a set. |
| Rbac.HandlerNameOf | manager/middlewares/rbac.go:146-147 | The handler name used is the longest dot-free suffix of gin's handler name. It is the whole name, or it follows a '.'. |
| Rbac.IsAccessGranted | manager/middlewares/rbac.go:129-159 | On a failed fetch, access is denied and nothing is stored. Otherwise the result is the `Granted` verdict for the last name segment and the method. The scope is stored under "inventoryGroups" only on a grant, and the other keys are left unchanged. |
| Strings.Split | manager/middlewares/rbac.go:146 | Some part is always returned. `SplitPartsFree`, `SplitLastSuffix`, `SplitLastPreceded`, `JoinSplit` and `SplitJoin` characterise the parts. |
| Strings.Join | manager/middlewares/rbac.go:200 | The parts with the separator between each two neighbours. `JoinPair`, `JoinSplit` and `SplitJoin` state this, and the last two make it the inverse of `Split` for separator-free parts. |
| Strings.Contains | manager/middlewares/authentication.go:97 | `ContainsIff` proves that it holds exactly when the pattern occurs at some index of the text. |
| Strings.SplitPartsFree | manager/middlewares/rbac.go:146 | No part of a split contains the separator. |
| Strings.SplitLastSuffix | manager/middlewares/rbac.go:146-147 | The last part of a split is a suffix of the text. |
| Strings.SplitLastPreceded | manager/middlewares/rbac.go:146-147 | Unless the last part of a split is the whole text, a separator comes right before it. |
| Strings.JoinSplit | manager/middlewares/rbac.go:146 | Joining a split with its separator gives back the text. |
| Strings.SplitJoin | manager/middlewares/rbac.go:200 | Splitting a join of separator-free parts gives back the parts. |
| Strings.ContainsIff | manager/middlewares/authentication.go:97 | `Contains` holds exactly when the substring occurs at some index. |
| Strings.LowerChar | manager/middlewares/authentication.go:113 | An ASCII upper-case letter is moved up by 32 to its lower-case form; every other character is returned unchanged. So the result is never an upper-case ASCII letter. |
| Strings.ToLower | manager/middlewares/authentication.go:113 | The lower-cased text has the same length, and each character is the lower case of the one at the same position. |
| Authentication.GetOrCreateAccount | manager/middlewares/authentication.go:33-57 | An empty org id gives "missing org_id". Otherwise the result is the found id when it is non-zero, else the creation's result. A success never comes from the empty org id. |
| Authentication.EmptyOrgIdSkipsDatabase | manager/middlewares/authentication.go:37-40 | For the empty org id the answer is the same whatever the database holds: nothing is queried. |
| Authentication.ResolvedAccount | manager/middlewares/authentication.go:63-71 | The account id that findAccount stores. A cached org id gives its cached id. Otherwise there is an id exactly when the org id is non-empty and the database finds a row or creates one. That id is the found id when it is non-zero, else the created id. The empty org id never resolves. |
| Authentication.AccountIdCache.constructor | manager/middlewares/authentication.go:25-28 | The cache starts empty and valid. |
| Authentication.AccountIdCache.FindAccount | manager/middlewares/authentication.go:59-75 | On a hit, the account is set to the cached id, the call returns true, and the cache is unchanged. On a miss, the database is asked. A success inserts orgID ↦ id, sets the account and returns true. A failure returns false and changes neither cache nor context. Existing entries are never overwritten or removed, and the empty org id is never cached. |
| Authentication.RepeatedResolution | manager/middlewares/authentication.go:63-71 | After one successful lookup, a second caller for the same org id succeeds with the same account id. The database resolves that org id at most once. |
| Authentication.ReadIdentity | manager/middlewares/authentication.go:129-145 | An empty header gives 401 "Missing x-rh-identity header". A header that does not parse gives 401 "Invalid x-rh-identity header". Otherwise the result is the parsed identity. |
| Authentication.GetXRHID | manager/middlewares/authentication.go:129-145 | When `ReadIdentity` gives an error response, the request is aborted with it and nothing is returned. Otherwise the parsed identity is returned and the request is not aborted. |
| Authentication.FullName | manager/middlewares/authentication.go:85 | The user name is the first name, one space, then the last name. |
| Authentication.PublicAuthenticator | manager/middlewares/authentication.go:77-89 | Without a valid identity, the request is aborted as `GetXRHID` says, with no keys set and the cache untouched. With one, the account and then the user name are set only when the account resolves; otherwise nothing is set. The cache gains the entry orgID ↦ id exactly on a miss that resolves, and is otherwise unchanged. |
| Authentication.MockAuthenticator | manager/middlewares/authentication.go:120-126 | The account key is set to the given id and nothing else changes. |
| Authentication.CallerSource | manager/middlewares/authentication.go:92-103 | The source is "UI" exactly when the Referer contains "console.redhat.com" at some position, and "API" otherwise. |
| Authentication.IsAssociate | manager/middlewares/authentication.go:113 | The Turnpike type test, lower-case equal to "associate". `IsAssociateIff` characterises it letter by letter, and `CapitalisedAssociateAccepted`, `UpperCaseAssociateAccepted` and `OtherTypesRejected` give examples. |
| Authentication.IsAssociateIff | manager/middlewares/authentication.go:113 | An identity type passes exactly when it has nine characters that lower-case one by one to "associate". |
| Authentication.CapitalisedAssociateAccepted | manager/middlewares/authentication.go:113-115 | "Associate" passes the Turnpike check. |
| Authentication.UpperCaseAssociateAccepted | manager/middlewares/authentication.go:113-115 | "ASSOCIATE" passes the Turnpike check. |
| Authentication.OtherTypesRejected | manager/middlewares/authentication.go:113-115 | "User", "System" and the empty type fail the Turnpike check. |
| Authentication.TurnpikeAuthenticator | manager/middlewares/authentication.go:105-118 | A missing or invalid identity aborts as `GetXRHID` says. A valid identity whose lower-cased type is not "associate" aborts with 401 "Invalid x-rh-identity header". Otherwise the request is not aborted. |

## Left out

- The HTTP call to the RBAC service is not modelled. Its outcome is the parameter `RbacResponse` (failed, or the access list). This leaves out:
  - `makeClient`;
  - the lazy construction of the RBAC URL;
  - the response status, and the `serviceErrorCnt` counter (rbac.go:50-61, 130-145).
- `RBAC()` (rbac.go:205-218) is framework plumbing and is not modelled. This covers the `ENABLE_RBAC` and `LOG_LEVEL` environment flags, and the 401 abort it wraps around `isAccessGranted`.
- `utils.ParseInventoryGroup` and `utils.ParseXRHID` are not part of this model. Each is a function-valued parameter that returns an optional value.
- `rbac.KeyGrouped` and `rbac.KeyUngrouped` are not part of this model. They are two distinct constructors of `ScopeKey`.
- The RBAC access data keeps only what the middleware reads: each grant's permission and its attribute filters (key and values, with `None` for a JSON null). There is no pagination.
- The database queries of `GetOrCreateAccount` (authentication.go:43-56) are the `AccountDb` oracle, which has two parts:
  - `find` gives 0 when there is no row or the query fails, because the source only logs that error;
  - `create` gives an id or an error.

  The warnings the source logs are left out.
- The `sync.Mutex` of `AccountIDCache` is left out, and so is the concurrency it guards. The model is sequential.
- `c.Next()` (authentication.go:86, 124) is left out. It runs the rest of the handler chain, which is outside these middlewares.
- `CheckReferer` keeps only its classification (`CallerSource`). Reading the account for the counter label, and the `callerSourceCnt` counter, are left out.
- `MockAuthenticator`'s warning log is left out.
- `GetXRHID`'s trace log of the identity header (authentication.go:136) is left out.
- Header lookup is by exact name. gin canonicalises header names, and that is not modelled.
- Strings are sequences of code points, not UTF-8 bytes. `Split` on '.' and `Contains` on an ASCII pattern agree on both forms.
- Strings.ToLower: only ASCII letters are lower-cased. Go's `strings.ToLower` also maps non-ASCII letters.
- Authentication.IsAssociate: only ASCII letters are lower-cased, so "ASSOCİATE" with U+0130, which Go lower-cases to 'i', fails here but passes in Go.
- Authentication.TurnpikeAuthenticator: because of the ASCII-only `ToLower`, the model rejects an identity type that Go accepts, such as "ASSOCİATE" with U+0130, which Go lower-cases to 'i'. `IsAssociateIff` and the scenario lemmas have the same restriction.
- `manager/manager.go` (server wiring) and the `manager/SpiceDbPoC` files (gRPC bootstrap, and tests that are only TODOs) are not part of this model.
