# Verification of Sforza's authorization state

Sforza is a multi-tenant role-based access control engine. One shared store holds users, resources and operations;
one store per tenant holds roles, assignments, scoped grants, user overrides and the record ids a RESTRICTED scope
is limited to. Either kind of store is kept as a JSON document or in relational tables. This project models both
drivers, the service functions on top of them, permission resolution and the bootstrap synchronization, and proves
them against one abstract state machine.

`dafny verify dfyconfig.toml` checks all of it.

## How it is built

- `Strings`, `Model`: bytewise order, strictly sorted lists, scopes, operation names, meta operations.
- `TenantSpec`, `SharedSpec`: the two kinds of store as values and what every store call does to them.
- `TenantAnswers`, `SharedAnswers`: what each question to a store may be answered with, and how far that fixes the
  answer.
- `TenantDocument`, `JsonTenant`, `JsonShared`: the JSON driver. `JsonTenantStore` is a heap object with maps of mutable
  role and user records and the image last saved; its invariant says that both memory and image denote one abstract
  state. Saving drops empty maps and lists as `omitempty` does.
- `SqlTables`, `SqlTenant`, `SqlShared`: the relational driver over rows with unique indexes and surrogate role ids,
  without foreign keys. New rows get any unused id. A failed transaction restores the tables it began with.
- `Drivers`, `Admin`, `ServiceSpec`, `AllStores`: the two interfaces with their drivers behind them, the administrative
  functions, and all of it as a state machine (`ServiceStep`, `Run`) over a shared store and many tenants.
- `Resolution`, `Authz`: the fold over role grants as a pure function with its meaning, and the code that runs it on
  mutable entries.
- `SyncSpec`, `Schedules`, `Sync`, `Bootstrap`: bootstrap files, the closed form of applying them, the proof that no
  order of their calls matters, and the nested loops themselves. Every walk over a map picks an arbitrary remaining key.
- `SyncContents`: the state after synchronization read off the files entry by entry.
- `Invariants`, `Parity`: what every run keeps, and the two drivers side by side.
- `StepLaws`: what fixes the state machine itself, lookup by lookup: when exactly each error is reported, what a success
  changes and leaves, which call takes back which, and what calls do to access.

One assumption runs through it: a store call is one atomic step. The JSON driver's mutex makes it one; the relational
driver looks a role up before the statement or transaction that uses it (`internal/store/gorm.go:289-385`), so there it
is an assumption, and `SqlTables.AssignmentNeedsRole` says what one statement by itself keeps. A service function is the
sequence of store calls its body makes. Errors are compared by kind: none, NotFound, Conflict, Validation.

Lemmas about the abstract step, such as those of `StepLaws`, `ServiceSpec.UpdatedIdsExact` or
`TenantSpec.StepKeepsRolesExist`, mostly follow from its definition, which they pin down in other terms; what makes them
hold of the drivers is that every store method is proved to take that step.

## Where promises meet their limits

- Resolution merges grants "by widest scope" (`docs/concepts.md:81-83`). FULL, RESTRICTED, the contributing roles and
  the records reached never depend on the order of grants, whatever is stored. The scope reported for an operation does
  exactly when it has neither a FULL nor a RESTRICTED grant and its grants carry different scopes
  (`Resolution.OrderMattersExactly`), which takes a scope outside the three. The service refuses those
  (`internal/service/admin.go:164`), so no reachable state has one (`Invariants.ReachableWorldsAreSound`).
- `internal/store/parity_test.go:15-16` asks that the drivers do not drift apart. Called directly they do in two places:
  removing no ids from a role that does not exist (`TenantSpec.DriversDivergeExactly`), and the number of times a grant
  is listed when its role is named twice (`TenantAnswers.GrantListsAgreeExactly`). Neither is reachable through the
  service (`Parity.ServeBoth`).
- Permissions require a registered operation when they are set (`internal/service/admin.go:77-86`), but deleting an
  operation or resource leaves them in place. `Invariants.RegistrationKeptExactly` says exactly which calls do that.
- `docs/bootstrap.md:71` promises that running the same files any number of times produces the same state. That holds
  for files in a fixed order. Two files can be applied in either order with one result exactly when each can be applied
  by itself and they agree on all scopes (`SyncSpec.FilesCommuteExactly`); a file that assigns a role only another file
  declares must come after it (`SyncSpec.OrderOfFilesCanDecide`).

## Model

| member | source | states |
|---|---|---|
| `Parity.ServeBoth` | internal/store/parity_test.go:15-17 | End to end: two sets of stores that start alike, each on any mix of drivers, given the same calls, report the same error for every call and afterwards answer everything alike, to the letter: users, resources, operations, roles, role permissions, and for every user operations, meta operations, ids, authorization, roles and overrides. |
| `Parity.RunBoth` | internal/store/parity_test.go:17-276 | The same run on two sets of stores: the same list of errors, and the same state, which is the run of the abstract state machine. |
| `Parity.RunCalls` | internal/store/store.go:105-108 | Any sequence of administrative calls, going on after failures, refines the abstract run: state and every reported error. |
| `Parity.AskBoth` | internal/service/admin.go:17-230 | Two sets of stores in one state, whatever is stored, answer every question alike, list order included; the reported scopes agree too where the state settles all of the user's. |
| `Parity.ListBoth` | internal/store/json.go:539-603 | Ids agree as multisets between any two drivers; grants agree iff both are on one driver or no role that has a grant is named twice. |
| `Parity.AnswersAreDetermined` | internal/service/authz.go:76-147 | One state leaves no freedom in any answer, the reported scopes included where the state settles all of the user's. |
| `Parity.ReportsAreDetermined` | internal/service/admin.go:17-159 | The same with the listings of the shared store. |
| `Parity.Ask` | internal/service/authz.go:76-147 | Every question a tenant can be asked is answered as its state says, and asking changes nothing it means. |
| `Parity.ServeAcrossRestart` | internal/store/json.go:228-300 | A restart of all stores between two runs of calls goes unnoticed: same errors, same state as one run. |
| `TenantSpec.DriversDivergeExactly` | internal/store/gorm.go:490-500 | Among calls that change a tenant the drivers differ on exactly one kind, removing no ids from a role that does not exist (Ok against NotFound), and never on the state. |
| `TenantAnswers.GrantListsAgreeExactly` | internal/store/json.go:589-603 | Listing a role's grants every time it is named and listing them once give the same multiset iff no role that has a grant is named twice. |
| `Resolution.FoldComputesWidest` | internal/service/authz.go:48-69 | For every list of grants the one-pass fold keeps overrides as they are and gives every other mentioned operation the widest scope on offer, with exactly the RESTRICTED grantors when that is the widest; where neither FULL nor RESTRICTED is on offer, the first grant's scope. |
| `Resolution.OrderOfGrantsIsIrrelevant` | internal/service/authz.go:48-69 | Any reordering or repetition of any grants resolves the same operations, FULL and RESTRICTED alike, with the same set of contributing roles, and to the same scope wherever it is settled. |
| `Resolution.OrderMattersExactly` | internal/service/authz.go:48-69 | All permutations of the grants give an operation one scope iff the user has an override, or FULL or RESTRICTED is on offer, or all its grants carry one scope. |
| `Resolution.SupportedScopesAreSettled` | internal/service/authz.go:48-69 | Among the three supported scopes the order never matters. |
| `Resolution.UnsupportedScopesMakeOrderMatter` | internal/service/authz.go:48-69 | An input where it does: an EMPTY and an unsupported grant in both orders, with both results. |
| `Resolution.WidestScopeDenotesUnion` | internal/service/authz.go:25-71 | Widest scope plus ids of RESTRICTED grantors denote exactly the override, or else the union over all assigned roles; EMPTY grants and their ids add nothing. |
| `Resolution.FullMeansEveryRecord` | internal/service/authz.go:140-147 | Holding FULL is being let through to every record there could be; finitely many ids never add up to that. |
| `Resolution.ResolutionMeansAccess` | internal/service/authz.go:25-71 | For every state, supported scopes or not: an operation is present iff something grants it, and the answer covers a record iff the user may reach it. |
| `Resolution.FoldResolves` | internal/service/authz.go:25-71 | The fold over the user's own permissions and the grants of all assigned roles gives every operation a scope that fits it and exactly its RESTRICTED grantors. |
| `Resolution.OneScopeFitsExactly` | internal/service/authz.go:48-69 | A state leaves resolution no choice of scope iff there is an override, a FULL or RESTRICTED grant, or only one scope among the grants; some scope fits iff the operation is available. |
| `Resolution.SupportedScopesFit` | internal/service/authz.go:25-71 | With only supported scopes stored the one scope that fits is the override, or else the widest. |
| `Resolution.ResolutionIsSandwiched` | internal/service/authz.go:28-44 | When the four reads see four successively wider states, the answer covers all that the first state allowed and nothing the last does not. |
| `Resolution.ReportedScopesAreSandwiched` | internal/service/authz.go:28-44 | Likewise FULL is reported if the first state holds it and only if the third does, and no reported scope is narrower than the first state's or wider than the third's. |
| `Resolution.InterleavedResolutionIsSandwiched` | internal/service/authz.go:25-135 | The same for runs: any number of widening calls by others between any two reads. |
| `Resolution.WideningRunWidens` | internal/store/json.go:377-425 | A run of calls that create roles, assign, widen scopes and add ids only ever widens the state. |
| `Resolution.StepsAreMonotone` | internal/store/json.go:349-404 | Assigning, widening and adding ids never take a record or a FULL authorization from anyone; unassigning, deleting a role, dropping its permissions and removing ids never give one. |
| `Resolution.AccessFollowsWidening` | internal/service/authz.go:48-69 | Access, FULL authorization and availability all grow with the state. |
| `Resolution.OverrideShieldsFromRoles` | internal/service/authz.go:51-53 | Where a user has an override, no role call changes what the user reaches or the effective scope. |
| `Resolution.RenamePreservesMeaning` | internal/store/json.go:329-347 | A successful rename changes no user's availability, effective scope, effective ids, access or authorization. |
| `Authz.Resolve` | internal/service/authz.go:25-71 | The reads and the loop over grants, on mutable entries, give every operation a fitting scope and its grantors, in any state. |
| `Authz.ApplyGrants` | internal/service/authz.go:48-69 | The loop that mutates entries in place computes the fold. |
| `Authz.StartFromUser` | internal/service/authz.go:28-35 | One entry per user permission, marked as the user's own. |
| `Authz.EffectiveOperations` | internal/service/authz.go:76-87 | Sorted by operation, one entry for exactly the available operations, each with a scope that fits. |
| `Authz.SupportedOperations` | internal/service/authz.go:76-87 | With only supported scopes stored these are exactly the available operations with their effective scopes. |
| `Authz.MetaOperations` | internal/service/authz.go:91-103 | Exactly the meta operations among them, sorted, in any state. |
| `Authz.GuardedAreListed` | internal/service/authz.go:91-103 | Listed are exactly those among the nine names for which something is said about the user. |
| `Authz.RecordIDs` | internal/service/authz.go:108-135 | Keys are exactly the asked operations resolved to RESTRICTED; each list is strictly sorted and holds exactly the effective ids. |
| `Authz.Authorize` | internal/service/authz.go:140-147 | True iff the user holds the operation at FULL scope, by override or, without one, by some role. |
| `Authz.AnswersDenoteAccess` | internal/service/authz.go:76-135 | The two answers a client combines let through exactly the records the user may reach. |
| `Authz.AnswersAreUnique` | internal/service/authz.go:76-135 | Ids are determined by the state alone, and so are operations and meta operations where the state settles all of the user's scopes. |
| `Strings.InsertSorted` | internal/store/json.go:63-69 | Into a strictly sorted list, the element is inserted unless present and the result is strictly sorted. |
| `Strings.BinarySearch` | internal/store/json.go:64 | The position splits the list into smaller and not smaller elements; found iff present. |
| `Strings.LessExactly` | internal/store/json.go:64 | The order without recursion: a proper prefix goes first, and otherwise the smaller of the first two differing characters. |
| `Strings.RemoveString` | internal/store/json.go:71-77 | First-occurrence removal takes the element out of a strictly sorted list entirely and keeps it sorted; reports whether it was there. |
| `Strings.SortedListIsCanonical` | internal/store/json.go:63-77 | Two strictly sorted lists with the same members are equal, so order is determined by content. |
| `Strings.LessTotal` | internal/store/json.go:64 | Bytewise order is total. |
| `Strings.LessTransitive` | internal/store/json.go:64 | Bytewise order is transitive. |
| `Strings.LessAsymmetric` | internal/store/json.go:64 | Bytewise order is asymmetric. |
| `Strings.SortDistinct` | internal/service/authz.go:129-130 | Sorting a list of ids gives the strictly sorted list of the same ids. |
| `Model.OperationResource` | internal/model/model.go:37-43 | Empty exactly when the name has no colon or starts with one; otherwise the colon-free text before the first colon. |
| `Model.ResourceOfName` | internal/model/model.go:37-43 | The resource is read back exactly from a name built from it. |
| `Model.MetaOperationsAreWellNamed` | internal/model/model.go:49-72 | Every meta operation's name spells out the meta resource its table gives it. |
| `Model.MetaOperationsExactly` | internal/model/model.go:49-72 | The meta operations are exactly "resource:action" for reading roles, operations, resources and users, writing the first three and assigning the first two. |
| `Model.GuardedIsMeta` | internal/model/model.go:49-72 | Each of those nine names is a meta operation. |
| `JsonTenant.JsonTenantStore.CreateRole` | internal/store/json.go:302-310 | Same error and same state as the abstract step; afterwards every list is still strictly sorted, every held role exists, records are not shared, and the saved file denotes the same state. |
| `JsonTenant.JsonTenantStore.EnsureRole` | internal/store/json.go:312-320 | Same error and same state as the abstract step; afterwards every list is still strictly sorted, every held role exists, records are not shared, and the saved file denotes the same state. |
| `JsonTenant.JsonTenantStore.RenameRole` | internal/store/json.go:329-347 | Moves the role record and rewrites and re-sorts every holder's list in place. Same error and same state as the abstract step; afterwards every list is still strictly sorted, every held role exists, records are not shared, and the saved file denotes the same state. |
| `JsonTenant.JsonTenantStore.DeleteRole` | internal/store/json.go:349-360 | Drops the role record and takes the name out of every user's list. Same error and same state as the abstract step; afterwards every list is still strictly sorted, every held role exists, records are not shared, and the saved file denotes the same state. |
| `JsonTenant.JsonTenantStore.AssignRole` | internal/store/json.go:377-389 | Same error and same state as the abstract step; afterwards every list is still strictly sorted, every held role exists, records are not shared, and the saved file denotes the same state. |
| `JsonTenant.JsonTenantStore.UnassignRole` | internal/store/json.go:391-404 | Same error and same state as the abstract step; afterwards every list is still strictly sorted, every held role exists, records are not shared, and the saved file denotes the same state. |
| `JsonTenant.JsonTenantStore.SetRolePermission` | internal/store/json.go:416-425 | Same error and same state as the abstract step; afterwards every list is still strictly sorted, every held role exists, records are not shared, and the saved file denotes the same state. |
| `JsonTenant.JsonTenantStore.RemoveRolePermission` | internal/store/json.go:427-440 | Same error and same state as the abstract step; afterwards every list is still strictly sorted, every held role exists, records are not shared, and the saved file denotes the same state. |
| `JsonTenant.JsonTenantStore.SetUserPermission` | internal/store/json.go:468-473 | Same error and same state as the abstract step; afterwards every list is still strictly sorted, every held role exists, records are not shared, and the saved file denotes the same state. |
| `JsonTenant.JsonTenantStore.RemoveUserPermission` | internal/store/json.go:475-485 | Same error and same state as the abstract step; afterwards every list is still strictly sorted, every held role exists, records are not shared, and the saved file denotes the same state. |
| `JsonTenant.JsonTenantStore.AddRoleIDs` | internal/store/json.go:513-524 | Same error and same state as the abstract step; afterwards every list is still strictly sorted, every held role exists, records are not shared, and the saved file denotes the same state. |
| `JsonTenant.JsonTenantStore.RemoveRoleIDs` | internal/store/json.go:526-537 | Same error and same state as the abstract step; afterwards every list is still strictly sorted, every held role exists, records are not shared, and the saved file denotes the same state. |
| `JsonTenant.JsonTenantStore.AddUserIDs` | internal/store/json.go:559-567 | Same error and same state as the abstract step; afterwards every list is still strictly sorted, every held role exists, records are not shared, and the saved file denotes the same state. |
| `JsonTenant.JsonTenantStore.RemoveUserIDs` | internal/store/json.go:569-577 | Same error and same state as the abstract step; afterwards every list is still strictly sorted, every held role exists, records are not shared, and the saved file denotes the same state. |
| `JsonTenant.JsonTenantStore.FindRole` | internal/store/json.go:273-285 | Finds a role iff it exists, giving it its missing maps without changing what the store means. |
| `JsonTenant.JsonTenantStore.FindUser` | internal/store/json.go:287-300 | Finds or makes the user's record with both maps, without changing what the store means. |
| `JsonTenant.JsonTenantStore.Open` | internal/store/json.go:250-265 | From a saved document the store means what the document denotes; from none, nothing. |
| `JsonTenant.JsonTenantStore.Reopen` | internal/store/json.go:228-300 | Closing and opening again from the last save means the same, although saving drops empty maps and lists and failed calls leave unsaved records. |
| `JsonTenant.JsonTenantStore.RoleExists` | internal/store/json.go:322-327 | True iff the role exists. |
| `JsonTenant.JsonTenantStore.ListRoles` | internal/store/json.go:362-375 | Exactly the roles, strictly sorted. |
| `JsonTenant.JsonTenantStore.UserRoles` | internal/store/json.go:406-414 | The user's roles, strictly sorted; for an unknown user none. |
| `JsonTenant.JsonTenantStore.RolePermissions` | internal/store/json.go:442-455 | NotFound iff the role does not exist; otherwise exactly its grants, sorted by operation. |
| `JsonTenant.JsonTenantStore.HasRolePermission` | internal/store/json.go:457-466 | NotFound iff the role does not exist; otherwise whether the grant does. |
| `JsonTenant.JsonTenantStore.UserPermissions` | internal/store/json.go:487-500 | Exactly the user's overrides, sorted by operation. |
| `JsonTenant.JsonTenantStore.HasUserPermission` | internal/store/json.go:502-511 | True iff the override exists. |
| `JsonTenant.JsonTenantStore.RoleRestrictedIDs` | internal/store/json.go:539-557 | The union of the roles' ids without duplicates. |
| `JsonTenant.JsonTenantStore.UserRestrictedIDs` | internal/store/json.go:579-587 | The user's ids without duplicates. |
| `JsonTenant.JsonTenantStore.RoleGrants` | internal/store/json.go:589-603 | Each grant of the named roles exactly as often as its role is named, in no promised order. |
| `TenantDocument.DenotationIsUnique` | internal/store/json.go:228-248 | A document denotes one state only. |
| `TenantDocument.SavingKeepsMeaning` | internal/store/json.go:228-243 | Dropping empty maps and lists on saving changes nothing a document denotes. |
| `TenantDocument.SavingOnlyDropsEmptyMaps` | internal/store/json.go:228-243 | A saved document has no empty map left in it and has lost nothing else. |
| `TenantDocument.DocumentRenamed` | internal/store/json.go:329-347 | Moving one record and replacing one name in every list turns a document of a state into one of the renamed state. |
| `TenantDocument.DocumentWithoutRole` | internal/store/json.go:349-360 | Dropping one record and one name from every list turns a document of a state into one of the state without the role. |
| `JsonShared.JsonSharedStore.EnsureUser` | internal/store/json.go:106-114 | Same error and same state as the abstract step; lists stay strictly sorted and the saved file denotes the same state. |
| `JsonShared.JsonSharedStore.CreateResource` | internal/store/json.go:126-134 | Same error and same state as the abstract step; lists stay strictly sorted and the saved file denotes the same state. |
| `JsonShared.JsonSharedStore.EnsureResource` | internal/store/json.go:136-144 | Same error and same state as the abstract step; lists stay strictly sorted and the saved file denotes the same state. |
| `JsonShared.JsonSharedStore.DeleteResource` | internal/store/json.go:146-160 | Same error and same state as the abstract step; lists stay strictly sorted and the saved file denotes the same state. |
| `JsonShared.JsonSharedStore.CreateOperation` | internal/store/json.go:172-183 | Same error and same state as the abstract step; lists stay strictly sorted and the saved file denotes the same state. |
| `JsonShared.JsonSharedStore.EnsureOperation` | internal/store/json.go:185-196 | Same error and same state as the abstract step; lists stay strictly sorted and the saved file denotes the same state. |
| `JsonShared.JsonSharedStore.DeleteOperation` | internal/store/json.go:198-206 | Same error and same state as the abstract step; lists stay strictly sorted and the saved file denotes the same state. |
| `JsonShared.JsonSharedStore.OperationExists` | internal/store/json.go:219-224 | True iff the operation is registered. |
| `JsonShared.JsonSharedStore.ListUsers` | internal/store/json.go:116-124 | Exactly the users, strictly sorted. |
| `JsonShared.JsonSharedStore.ListResources` | internal/store/json.go:162-170 | Exactly the resources, strictly sorted. |
| `JsonShared.JsonSharedStore.ListOperations` | internal/store/json.go:208-217 | Exactly the operations with their resources, sorted by name. |
| `JsonShared.JsonSharedStore.Reopen` | internal/store/json.go:93-104 | Opening again from the last save gives back users, resources and operations exactly. |
| `SqlTenant.SqlTenantStore.CreateRole` | internal/store/gorm.go:266-276 | Same error and same meaning of the tables as the abstract step; afterwards every unique index holds and every role id refers to a role row. |
| `SqlTenant.SqlTenantStore.EnsureRole` | internal/store/gorm.go:278-281 | Same error and same meaning of the tables as the abstract step; afterwards every unique index holds and every role id refers to a role row. |
| `SqlTenant.SqlTenantStore.RenameRole` | internal/store/gorm.go:289-300 | Same error and same meaning of the tables as the abstract step; afterwards every unique index holds and every role id refers to a role row. |
| `SqlTenant.SqlTenantStore.DeleteRole` | internal/store/gorm.go:302-315 | Same error and same meaning of the tables as the abstract step; afterwards every unique index holds and every role id refers to a role row. |
| `SqlTenant.SqlTenantStore.AssignRole` | internal/store/gorm.go:329-336 | Same error and same meaning of the tables as the abstract step; afterwards every unique index holds and every role id refers to a role row. |
| `SqlTenant.SqlTenantStore.UnassignRole` | internal/store/gorm.go:338-351 | Same error and same meaning of the tables as the abstract step; afterwards every unique index holds and every role id refers to a role row. |
| `SqlTenant.SqlTenantStore.SetRolePermission` | internal/store/gorm.go:376-385 | Same error and same meaning of the tables as the abstract step; afterwards every unique index holds and every role id refers to a role row. |
| `SqlTenant.SqlTenantStore.RemoveRolePermission` | internal/store/gorm.go:387-404 | Same error and same meaning of the tables as the abstract step; afterwards every unique index holds and every role id refers to a role row. |
| `SqlTenant.SqlTenantStore.SetUserPermission` | internal/store/gorm.go:433-438 | Same error and same meaning of the tables as the abstract step; afterwards every unique index holds and every role id refers to a role row. |
| `SqlTenant.SqlTenantStore.RemoveUserPermission` | internal/store/gorm.go:440-453 | Same error and same meaning of the tables as the abstract step; afterwards every unique index holds and every role id refers to a role row. |
| `SqlTenant.SqlTenantStore.AddRoleIDs` | internal/store/gorm.go:474-488 | Same error and same meaning of the tables as the abstract step; afterwards every unique index holds and every role id refers to a role row. |
| `SqlTenant.SqlTenantStore.RemoveRoleIDs` | internal/store/gorm.go:490-500 | Same error and same meaning of the tables as the abstract step; afterwards every unique index holds and every role id refers to a role row. Removing no ids answers Ok without looking the role up. |
| `SqlTenant.SqlTenantStore.AddUserIDs` | internal/store/gorm.go:529-539 | Same error and same meaning of the tables as the abstract step; afterwards every unique index holds and every role id refers to a role row. |
| `SqlTenant.SqlTenantStore.RemoveUserIDs` | internal/store/gorm.go:541-547 | Same error and same meaning of the tables as the abstract step; afterwards every unique index holds and every role id refers to a role row. |
| `SqlTenant.SqlTenantStore.RoleExists` | internal/store/gorm.go:283-287 | True iff the role exists. |
| `SqlTenant.SqlTenantStore.ListRoles` | internal/store/gorm.go:317-327 | Exactly the roles, strictly sorted. |
| `SqlTenant.SqlTenantStore.UserRoles` | internal/store/gorm.go:353-374 | The user's roles, strictly sorted, read through the role ids. |
| `SqlTenant.SqlTenantStore.RolePermissions` | internal/store/gorm.go:406-420 | NotFound iff the role does not exist; otherwise exactly its grants, sorted by operation. |
| `SqlTenant.SqlTenantStore.HasRolePermission` | internal/store/gorm.go:422-431 | NotFound iff the role does not exist; otherwise whether the grant does. |
| `SqlTenant.SqlTenantStore.UserPermissions` | internal/store/gorm.go:455-465 | Exactly the user's overrides, sorted by operation. |
| `SqlTenant.SqlTenantStore.HasUserPermission` | internal/store/gorm.go:467-472 | True iff the override exists. |
| `SqlTenant.SqlTenantStore.RoleRestrictedIDs` | internal/store/gorm.go:502-527 | The union of the roles' ids without duplicates. |
| `SqlTenant.SqlTenantStore.UserRestrictedIDs` | internal/store/gorm.go:549-559 | The user's ids without duplicates. |
| `SqlTenant.SqlTenantStore.RoleGrants` | internal/store/gorm.go:561-588 | Each grant of the named roles exactly once, in no promised order. |
| `SqlTables.RoleRowRenamed` | internal/store/gorm.go:289-300 | Changing one cell of one role row renames the role in every assignment, grant and id, and breaks no index or reference. |
| `SqlTables.RoleRowsDeleted` | internal/store/gorm.go:302-315 | Deleting by role id in four tables leaves nothing of the role and everything of the others. |
| `SqlTables.RoleRowInserted` | internal/store/gorm.go:266-276 | A new role row brings no assignment, grant or id with it, whatever unused id it gets, so a deleted role's id may come back. |
| `SqlTables.GrantUpserted` | internal/store/gorm.go:376-385 | An upsert on (role id, operation) is an update of exactly one pair's scope. |
| `SqlTables.OverrideUpserted` | internal/store/gorm.go:433-438 | An upsert on (user, operation) is an update of exactly one pair's scope. |
| `SqlTables.AssignmentNeedsRole` | internal/store/gorm.go:329-336 | Inserting an assignment row keeps all indexes and references iff the role's row is there when the statement runs. |
| `SqlTables.MeaningNamesExistingRoles` | internal/store/gorm.go:51-93 | Tables without foreign keys still only mean assignments, grants and ids of existing roles. |
| `SqlShared.SqlSharedStore.EnsureUser` | internal/store/gorm.go:137-140 | Same error and same meaning of the tables as the abstract step; unique names stay unique. |
| `SqlShared.SqlSharedStore.CreateResource` | internal/store/gorm.go:154-164 | Same error and same meaning of the tables as the abstract step; unique names stay unique. |
| `SqlShared.SqlSharedStore.EnsureResource` | internal/store/gorm.go:166-169 | Same error and same meaning of the tables as the abstract step; unique names stay unique. |
| `SqlShared.SqlSharedStore.DeleteResource` | internal/store/gorm.go:171-182 | Same error and same meaning of the tables as the abstract step; unique names stay unique. |
| `SqlShared.SqlSharedStore.CreateOperation` | internal/store/gorm.go:196-212 | Same error and same meaning of the tables as the abstract step; unique names stay unique. A name that is taken rolls back the resource inserted before it. |
| `SqlShared.SqlSharedStore.EnsureOperation` | internal/store/gorm.go:214-220 | Same error and same meaning of the tables as the abstract step; unique names stay unique. |
| `SqlShared.SqlSharedStore.DeleteOperation` | internal/store/gorm.go:222-231 | Same error and same meaning of the tables as the abstract step; unique names stay unique. |
| `SqlShared.SqlSharedStore.OperationExists` | internal/store/gorm.go:245-249 | True iff the operation is registered. |
| `SqlShared.SqlSharedStore.ListUsers` | internal/store/gorm.go:142-152 | Exactly the users, strictly sorted. |
| `SqlShared.SqlSharedStore.ListResources` | internal/store/gorm.go:184-194 | Exactly the resources, strictly sorted. |
| `SqlShared.SqlSharedStore.ListOperations` | internal/store/gorm.go:233-243 | Exactly the operations with their resources, sorted by name. |
| `SharedAnswers.RegisterAnswerIsUnique` | internal/store/gorm.go:233-243 | A listing of the operations is determined by the state, order included. |
| `TenantSpec.StepKeepsRolesExist` | internal/store/json.go:302-603 | No store call leaves an assignment, grant or id behind whose role is gone. |
| `TenantSpec.RenameIsABijection` | internal/store/json.go:329-347 | A rename loses nothing, merges nothing, and answers every lookup under the new name as before under the old. |
| `TenantSpec.RenameKeepsRolesExist` | internal/store/json.go:329-347 | After a rename nothing refers to the old name. |
| `ServiceSpec.DeletedRoleDoesNotReturn` | internal/store/json.go:349-360 | Deletion removes exactly the role's assignments, grants and ids; the same name created anew is an empty role held by nobody. |
| `ServiceSpec.UpdatedIdsExact` | internal/service/admin.go:202-230 | After a successful update the pair's ids are exactly (old plus added) minus removed, every other pair's are untouched, and nothing else changed. |
| `ServiceSpec.UpdateNeedsPermission` | internal/service/admin.go:202-230 | An update succeeds iff the permission it is about exists; otherwise NotFound and no change. |
| `ServiceSpec.RunConcat` | internal/service/admin.go:17-230 | Runs compose. |
| `StepLaws.TenantErrorsExactly` | internal/store/json.go:302-577 | NotFound iff what the call is about is missing, Conflict iff the name it would give is taken, never Validation; an error leaves the tenant as it was. |
| `StepLaws.RenameOutcome` | internal/store/json.go:329-347 | Ok iff the old name exists and the new one does not, NotFound iff the old does not, Conflict iff both do; after Ok the role answers under the new name as before under the old, other roles are as before and the old name is gone. |
| `StepLaws.RenamingBackRestores` | internal/store/json.go:329-347 | Renaming there and back gives the old state, to the last entry. |
| `StepLaws.NewRoleOutcome` | internal/store/json.go:302-320 | Creating fails exactly on a taken name; creating and ensuring add the name and nothing else. |
| `StepLaws.DeleteOutcome` | internal/store/json.go:349-360 | Ok iff the role exists; then exactly its assignments, grants and ids are gone. |
| `StepLaws.AssignmentOutcome` | internal/store/json.go:377-404 | Assigning works iff the role exists, unassigning iff the user also holds it; each changes that one pair. |
| `StepLaws.RoleScopeOutcome` | internal/store/json.go:416-425 | Setting a scope works iff the role exists, and sets that pair's scope and nothing else; ids stay. |
| `StepLaws.UserScopeOutcome` | internal/store/json.go:468-473 | Setting an override sets that pair's scope and nothing else; ids stay. |
| `StepLaws.RemoveRoleScopeOutcome` | internal/store/json.go:427-440 | Removing works iff there is a grant; it and all its ids go, and nothing of any other pair. |
| `StepLaws.RemoveUserScopeOutcome` | internal/store/json.go:475-485 | Removing works iff there is an override; it and all its ids go, and nothing of any other pair. |
| `StepLaws.RoleIdsOutcome` | internal/store/json.go:513-537 | Adding and removing ids works iff the role exists and touches exactly the ids listed. |
| `StepLaws.UserIdsOutcome` | internal/store/json.go:559-577 | Adding and removing a user's ids always works and touches exactly the ids listed. |
| `StepLaws.TakingBackRestores` | internal/store/json.go:302-577 | Deleting a role just created, unassigning one just assigned, removing a permission just given and ids just added each give the old state, to the last entry. |
| `StepLaws.OverrideDecides` | internal/service/authz.go:51-53 | After setting an override: FULL lets every record through, RESTRICTED those listed, EMPTY none. |
| `StepLaws.GrantReachesHolders` | internal/service/authz.go:48-69 | After setting a role's scope a holder without override reaches everything at FULL, the ids listed at RESTRICTED, and otherwise what the other roles give. |
| `StepLaws.IdsOpenAndClose` | internal/store/json.go:513-537 | An id added to a RESTRICTED grant opens that record to the holders; removing it closes the record to those no other role lets through. |
| `StepLaws.SharedErrorsExactly` | internal/store/json.go:106-206 | NotFound iff the thing to delete is missing, Conflict iff the name to create is taken, never Validation; an error changes nothing. |
| `StepLaws.SharedOutcomes` | internal/store/json.go:106-206 | Users, resources and operations after a successful call, entry by entry; a registered operation keeps its resource, a new one brings it along. |
| `StepLaws.AdminErrorsExactly` | internal/service/admin.go:91-230 | The exact condition of every error, malformed input going first; the tenant changes only on success and the shared store only gains the user being provisioned. |
| `StepLaws.SettingARoleScope` | internal/service/admin.go:163-171 | FULL, RESTRICTED and EMPTY can be set, and nothing else: Validation iff the scope is none of the three; Ok iff it is, the operation is registered and the role exists; then exactly that pair has it. |
| `StepLaws.SettingAUserScope` | internal/service/admin.go:181-192 | The same for overrides, with the subject checked after the operation and made known. |
| `StepLaws.AdminCallsTheStore` | internal/service/admin.go:91-198 | Past its checks, an administrative function reports and does what the store call of its name does. |
| `StepLaws.ServiceCallsTheShared` | internal/service/admin.go:17-70 | Past their checks, the calls about shared things do what the store calls of their names do, with the resource an operation's name spells out. |
| `StepLaws.ServiceErrorsExactly` | internal/service/admin.go:17-230 | The exact condition of every error of every call; an error leaves everything as it was but for a user made known. |
| `StepLaws.TenantsAreIsolated` | internal/store/store.go:130-133 | A call in one tenant changes no other, and a call to the shared store changes none. |
| `StepLaws.DeletingAResource` | internal/service/admin.go:38-40 | Ok iff registered, else NotFound and no change; then that resource and exactly its operations are gone, all else is as before, and deleting it again reports NotFound. |
| `StepLaws.RegisteringAnOperation` | internal/service/admin.go:49-65 | For every resource and action: the operation is registered under that resource, which comes along if new; creating fails exactly on a registered name; nothing else moves. |
| `Admin.EnsureUser` | internal/service/admin.go:17-22 | Validation iff the subject is empty; otherwise the user is known. |
| `Admin.RequireOperation` | internal/service/admin.go:77-86 | NotFound iff the operation is not registered. |
| `Admin.CreateRole` | internal/service/admin.go:91-96 | The guarded step: an empty name is refused before any store is touched. |
| `Admin.EnsureRole` | internal/service/admin.go:99-104 | The guarded step: an empty name is refused before any store is touched. |
| `Admin.RenameRole` | internal/service/admin.go:119-124 | The guarded step: an empty new name is refused first. |
| `Admin.DeleteRole` | internal/service/admin.go:128-130 | The store step. |
| `Admin.AssignRole` | internal/service/admin.go:144-149 | Provisions the user first, so a missing role leaves the user known and everything else alone. |
| `Admin.UnassignRole` | internal/service/admin.go:152-154 | The store step. |
| `Admin.SetRolePermission` | internal/service/admin.go:163-171 | Scope, then operation, then role are checked, in that order of errors. |
| `Admin.RemoveRolePermission` | internal/service/admin.go:175-177 | The store step. |
| `Admin.SetUserPermission` | internal/service/admin.go:181-192 | Scope, then operation, then subject are checked; provisions the user. |
| `Admin.RemoveUserPermission` | internal/service/admin.go:196-198 | The store step. |
| `Admin.UpdateRoleIDs` | internal/service/admin.go:202-214 | On either driver the abstract update, including the drivers' one divergence, which the check before it makes unreachable. |
| `Admin.UpdateUserIDs` | internal/service/admin.go:218-230 | On either driver the abstract update. |
| `AllStores.Stores.Do` | internal/service/admin.go:17-230 | Any administrative call on the real stores is one step of the abstract state machine. |
| `AllStores.Stores.InTenant` | internal/store/store.go:130-133 | A call in one tenant leaves every other tenant's store as it was. |
| `AllStores.Stores.TenantIDs` | internal/store/store.go:136-143 | The configured tenants, strictly sorted. |
| `AllStores.Stores.Reopen` | internal/store/store.go:112-126 | Closing all stores and opening them again gives new stores in the same state. |
| `Invariants.StepKeepsSound` | internal/service/admin.go:17-230 | Every call, failing or not, keeps: operations registered under the resource their name spells, known subjects, supported scopes, existing roles, ids only where a permission is. |
| `Invariants.RunKeepsSound` | internal/service/admin.go:17-230 | Every run of calls keeps it. |
| `Invariants.ReachableWorldsAreSound` | internal/service/admin.go:17-230 | It holds in every state reachable from empty stores. |
| `Invariants.RegistrationKeptExactly` | internal/service/admin.go:38-70 | Granted operations stay registered through a call iff the call takes off the register no operation that some tenant still names. |
| `Invariants.DeletedOperationStaysGranted` | internal/service/admin.go:59-70 | Four successful calls that end with a permission on an unregistered operation. |
| `Invariants.StoreStepKeepsIdsPermittedExactly` | internal/store/json.go:513-567 | A single store call keeps ids only where a permission is, iff it does not add ids to a pair without one. |
| `Invariants.UpdateRacesWithRemoval` | internal/service/admin.go:202-214 | Another caller's removal between the check and the addition of an update strands an id. |
| `Sync.Sync` | internal/service/sync.go:116-192 | In whatever order the maps are walked: succeeds iff every file is valid for the state it meets; reports only an error that the first file that cannot be applied gives rise to; on success the state is the closed form; at any point nothing is lost and only declared scopes moved. |
| `SyncSpec.FileReportsExactly` | internal/service/sync.go:125-192 | A file can be applied iff there is no error to report; Conflict is never reported. |
| `SyncSpec.SpecOkExactly` | internal/service/sync.go:81-86 | A permission may be declared iff its scope is FULL, RESTRICTED or EMPTY and its operation is named "resource:action". |
| `SyncSpec.AnySupportedScopeWillDo` | internal/service/sync.go:81-86 | Whether a file can be applied does not depend on which of the three scopes it gives. |
| `Sync.SyncFile` | internal/service/sync.go:125-192 | One file: succeeds iff syncable; on success exactly the old state with the file laid over it; on failure an error it gives rise to (malformed operations and roles before users, an unconfigured tenant as Validation, a missing role as NotFound). |
| `Sync.SyncTwoStores` | internal/service/sync.go:116-192 | Two runs over like states with any drivers and any map orders: both succeed or neither, and successful ones end alike. |
| `Sync.SyncEitherOrder` | internal/service/sync.go:116-123 | Two files in either order, on two sets of stores that start alike: both runs succeed and end alike iff each file can be applied by itself and they agree on all scopes. |
| `Sync.SyncAgain` | internal/service/sync.go:116-192 | A second sync succeeds and changes nothing. |
| `Sync.SyncTenant` | internal/service/sync.go:136-190 | One tenant's roles, then users: exactly the declared calls are made, it succeeds iff the section is valid, and an error is one the section gives rise to. |
| `Sync.SyncRolePermission` | internal/service/sync.go:141-157 | Succeeds iff scope and operation name are valid; then registers, upserts and adds ids in exactly that order; on failure at most the registration was made. |
| `Sync.SyncUserPermission` | internal/service/sync.go:173-188 | The same for a user's own permission. |
| `Schedules.ScheduleClosedForm` | internal/service/sync.go:125-192 | Any order, with any repetitions, that makes all of a file's calls and in which all succeed ends in the old state with the file laid over it. |
| `Schedules.SchedulesConfluent` | internal/service/sync.go:136-190 | Two such orders end alike. |
| `Schedules.SyncOnlyAdds` | internal/service/sync.go:125-192 | After any number of declared calls in any order, failed ones included: no role, assignment, id, operation, resource or user is lost, and no undeclared scope changes. |
| `Schedules.EffectsPersist` | internal/service/sync.go:125-192 | Within one file no call undoes what another achieved. |
| `SyncSpec.SyncIsIdempotent` | internal/service/sync.go:116-123 | Files that could be synced can be synced again, without effect. |
| `SyncSpec.SyncedIsOneOverlay` | internal/service/sync.go:116-123 | Any number of files come down to one overlay. |
| `SyncSpec.LastDeclarationWins` | internal/service/sync.go:116-123 | A pair's scope afterwards is the one of the last file declaring it, or the old one where none does. |
| `SyncContents.SyncedTenantHasExactly` | internal/service/sync.go:136-190 | Roles, assignments and record ids afterwards are exactly those there were and those some file gives. |
| `SyncContents.SyncedSharedHasExactly` | internal/service/sync.go:125-166 | Users, operations and resources afterwards, entry by entry; registered operations keep their resources, new ones have the one their name spells out. |
| `SyncSpec.FilesCommuteExactly` | internal/service/sync.go:116-123 | Both orders of two files can be applied, and end in one state, iff each file can be applied by itself and they give no pair different scopes; both can be applied iff each can by itself. |
| `SyncSpec.OrderOfFilesCanDecide` | internal/service/sync.go:167-171 | For any names: a file that declares a role and one that assigns it agree on all scopes, yet only one order can be applied. |
| `Bootstrap.BootstrapMeta` | internal/service/sync.go:197-227 | From any state, succeeds iff an administrator is named, and then ends in the closed form; otherwise reports Validation with exactly the meta operations registered. |
| `Bootstrap.BootstrappedTenant` | internal/service/sync.go:211-225 | In every tenant the administrator role exists, is held and has every meta operation at FULL whatever it had before; no other scope, assignment or id moves. |
| `Bootstrap.AdministratorByName` | internal/model/model.go:46 | The role is named "authorization:admin", exists in every tenant and is held by the administrator. |
| `Bootstrap.AdministratorIsAuthorized` | internal/service/sync.go:194-227 | In the closed form the administrator holds a meta operation at FULL iff no override of their own says less. |
| `Bootstrap.BootstrapThenAuthorize` | internal/service/sync.go:197-227 | The run itself, from any state: bootstrapping and then asking authorizes the administrator for a meta operation in a tenant iff no override of their own says less. |
| `Bootstrap.BootstrapThenAuthorizeGuarded` | internal/service/sync.go:197-227 | The same for each of the nine guarded names, given by resource and action. |
| `Bootstrap.BootstrapRegisters` | internal/service/sync.go:198-207 | Afterwards each of the nine is registered, and if new under the resource it is about. |
| `Bootstrap.BootstrapIsIdempotent` | internal/service/sync.go:197-227 | The closed form laid over itself changes nothing. |
| `Bootstrap.AnyListWillDo` | internal/service/sync.go:198-202 | The order in which the meta operations are listed makes no difference. |
| `Bootstrap.BootstrapTwice` | internal/service/sync.go:197-227 | Two runs in a row: the second reports what the first did and changes nothing. |
| `Bootstrap.RestartChangesNothing` | cmd/sforza/main.go:53-62 | Bootstrapping and syncing the same files again can be done and ends where it did before, even where a file takes back what bootstrapping gives. |
| `Bootstrap.Start` | cmd/sforza/main.go:53-62 | One start succeeds iff an administrator is named and the files can be applied after bootstrapping. |
| `Bootstrap.StartTwice` | cmd/sforza/main.go:53-62 | Two starts in a row: if the first succeeds so does the second, which leaves everything as the first did. |

## Left out

- `GetRole`, which is `RoleExists` with an error.
- HTTP routing, middleware, status codes, authentication and configuration.
- YAML decoding and file globbing: synchronization starts from decoded files, in which a map has each key once.
- GORM, SQL dialects, collations, migrations and connection pools: only insert-or-ignore, upsert, update, delete-where
  and rollback over rows are modelled, with bytewise order of strings. An unused row id is any unused number.
- JSON text, temporary files and directories: a save stores the document without its empty parts, a load reads it back.
- JsonTenant.JsonTenantStore.Open: asks for a document whose lists are sorted, whose roles exist and which spells out no
  empty map, as every document the store saves is; files edited by hand are not modelled.
- Saves and statements that fail: memory is then ahead of the file, and the reopening results do not apply.
- Error texts, and the difference between nil and empty slices.
- Two tenants configured on one database: every tenant has its own store.
- Threads: interleaving is modelled at the store calls, in `Resolution.InterleavedResolutionIsSandwiched` and
  `Invariants.UpdateRacesWithRemoval`; other results are about calls made one after the other.
- Resolution.InterleavedResolutionIsSandwiched: is about other callers that only widen; resolution is not atomic, and
  under arbitrary concurrent edits its answer need not be that of any single state.
- Authz.Resolve: is the sequential resolution; how its separate reads mix with other callers is stated in `Resolution`.
- Row locks and the order of rows inside a table.
