/** Bootstrap files: the calls they declare, the state they ask for, and when they can be had. */
module SyncSpec {
  import opened Model
  import opened SharedSpec
  import opened TenantSpec
  import opened ServiceSpec

  datatype PermissionSpec = PermissionSpec(scope: Scope, ids: seq<string>)

  type Permissions = map<string, PermissionSpec>

  datatype UserBootstrap = UserBootstrap(roles: seq<string>, permissions: Permissions)

  datatype TenantBootstrap = TenantBootstrap(roles: map<string, Permissions>, users: map<string, UserBootstrap>)

  datatype BootstrapFile = BootstrapFile(
    resources: seq<string>,
    operations: seq<string>,
    tenants: map<string, TenantBootstrap>)

  // ---- The calls a file stands for ----

  ghost predicate RolePermissionCall(c: ServiceCall, id: string, role: string, op: string, spec: PermissionSpec) {
    || c == ServiceCall.EnsureOperation(op)
    || c == OnTenant(id, AdminCall.SetRolePermission(role, op, spec.scope))
    || (spec.ids != [] && c == OnTenant(id, AdminCall.UpdateRoleIDs(role, op, spec.ids, [])))
  }

  ghost predicate UserPermissionCall(c: ServiceCall, id: string, sub: string, op: string, spec: PermissionSpec) {
    || c == ServiceCall.EnsureOperation(op)
    || c == OnTenant(id, AdminCall.SetUserPermission(sub, op, spec.scope))
    || (spec.ids != [] && c == OnTenant(id, AdminCall.UpdateUserIDs(sub, op, spec.ids, [])))
  }

  /** The same calls in the order they are made. */
  function RolePermissionCalls(id: string, role: string, op: string, spec: PermissionSpec): seq<ServiceCall> {
    [ServiceCall.EnsureOperation(op), OnTenant(id, AdminCall.SetRolePermission(role, op, spec.scope))]
    + if spec.ids == [] then [] else [OnTenant(id, AdminCall.UpdateRoleIDs(role, op, spec.ids, []))]
  }

  function UserPermissionCalls(id: string, sub: string, op: string, spec: PermissionSpec): seq<ServiceCall> {
    [ServiceCall.EnsureOperation(op), OnTenant(id, AdminCall.SetUserPermission(sub, op, spec.scope))]
    + if spec.ids == [] then [] else [OnTenant(id, AdminCall.UpdateUserIDs(sub, op, spec.ids, []))]
  }

  ghost predicate RoleCall(c: ServiceCall, id: string, role: string, perms: Permissions) {
    || c == OnTenant(id, AdminCall.EnsureRole(role))
    || exists op :: op in perms && RolePermissionCall(c, id, role, op, perms[op])
  }

  ghost predicate UserCall(c: ServiceCall, id: string, sub: string, ub: UserBootstrap) {
    || c == ServiceCall.EnsureUser(sub)
    || (exists role :: role in ub.roles && c == OnTenant(id, AdminCall.AssignRole(sub, role)))
    || exists op :: op in ub.permissions && UserPermissionCall(c, id, sub, op, ub.permissions[op])
  }

  ghost predicate TenantFileCall(c: ServiceCall, id: string, tb: TenantBootstrap) {
    || (exists role :: role in tb.roles && RoleCall(c, id, role, tb.roles[role]))
    || exists sub :: sub in tb.users && UserCall(c, id, sub, tb.users[sub])
  }

  /** The calls that applying the file makes, in whatever order its maps are walked. */
  ghost predicate Declares(f: BootstrapFile, c: ServiceCall) {
    || (exists name :: name in f.resources && c == ServiceCall.EnsureResource(name))
    || (exists name :: name in f.operations && c == ServiceCall.EnsureOperation(name))
    || exists id :: id in f.tenants && TenantFileCall(c, id, f.tenants[id])
  }

  ghost predicate Declared(files: seq<BootstrapFile>, c: ServiceCall) {
    exists f :: f in files && Declares(f, c)
  }

  // ---- When a file can be applied ----

  predicate SpecOk(op: string, spec: PermissionSpec) {
    ValidScope(spec.scope) && OperationResource(op) != ""
  }

  predicate PermissionsOk(perms: Permissions) {
    forall op :: op in perms ==> SpecOk(op, perms[op])
  }

  predicate RoleSyncable(role: string, perms: Permissions) {
    role != "" && PermissionsOk(perms)
  }

  predicate UserSyncable(roles: set<string>, sub: string, ub: UserBootstrap) {
    sub != "" && (forall r :: r in ub.roles ==> r in roles) && PermissionsOk(ub.permissions)
  }

  /** Names are given, scopes are supported, operations are well named, and every role a user is to have
      exists already or is declared beside them. */
  predicate TenantSyncable(t: TenantState, tb: TenantBootstrap) {
    && (forall role :: role in tb.roles ==> RoleSyncable(role, tb.roles[role]))
    && (forall sub :: sub in tb.users ==> UserSyncable(t.roles + tb.roles.Keys, sub, tb.users[sub]))
  }

  predicate Syncable(w: World, f: BootstrapFile) {
    && (forall name :: name in f.operations ==> OperationResource(name) != "")
    && (forall id :: id in f.tenants ==> id in w.tenants && TenantSyncable(w.tenants[id], f.tenants[id]))
  }

  /** Exactly the three scopes may be given, for an operation named "resource:action". */
  lemma SpecOkExactly(op: string, spec: PermissionSpec)
    ensures SpecOk(op, spec) <==>
      && (spec.scope == FULL || spec.scope == RESTRICTED || spec.scope == EMPTY)
      && op != "" && ':' in op && op[0] != ':'
  {
  }

  // ---- What is reported when it cannot ----

  /** A user's name is looked at first, then the roles, then the permissions. */
  ghost function UserError(roles: set<string>, sub: string, ub: UserBootstrap): Error {
    if sub == "" then Validation
    else if exists r :: r in ub.roles && r !in roles then NotFound
    else if !PermissionsOk(ub.permissions) then Validation
    else Ok
  }

  /** A tenant's roles go first; among its users any one with a fault may be met first. */
  ghost predicate TenantReports(t: TenantState, tb: TenantBootstrap, err: Error) {
    && err != Ok
    && if exists role :: role in tb.roles && !RoleSyncable(role, tb.roles[role]) then err == Validation
       else exists sub :: sub in tb.users && err == UserError(t.roles + tb.roles.Keys, sub, tb.users[sub])
  }

  /** Operations go first; then any tenant that is not configured, or has a fault, may be met first. */
  ghost predicate FileReports(w: World, f: BootstrapFile, err: Error) {
    if exists name :: name in f.operations && OperationResource(name) == "" then err == Validation
    else
      exists id :: id in f.tenants &&
        if id in w.tenants then TenantReports(w.tenants[id], f.tenants[id], err) else err == Validation
  }

  lemma UserErrorExactly(roles: set<string>, sub: string, ub: UserBootstrap)
    ensures UserError(roles, sub, ub) == Ok <==> UserSyncable(roles, sub, ub)
  {
  }

  lemma TenantReportsExactly(t: TenantState, tb: TenantBootstrap)
    ensures TenantSyncable(t, tb) <==> forall err :: !TenantReports(t, tb, err)
  {
    hide RoleSyncable, UserSyncable, UserError;
    forall sub | sub in tb.users
      ensures UserError(t.roles + tb.roles.Keys, sub, tb.users[sub]) == Ok <==>
        UserSyncable(t.roles + tb.roles.Keys, sub, tb.users[sub])
    {
      UserErrorExactly(t.roles + tb.roles.Keys, sub, tb.users[sub]);
    }
    if role :| role in tb.roles && !RoleSyncable(role, tb.roles[role]) {
      assert TenantReports(t, tb, Validation);
    } else if sub :| sub in tb.users && !UserSyncable(t.roles + tb.roles.Keys, sub, tb.users[sub]) {
      assert TenantReports(t, tb, UserError(t.roles + tb.roles.Keys, sub, tb.users[sub]));
    }
  }

  /** A file can be applied exactly when there is nothing to report, and Conflict is never reported. */
  lemma FileReportsExactly(w: World, f: BootstrapFile)
    ensures Syncable(w, f) <==> forall err :: !FileReports(w, f, err)
    ensures !FileReports(w, f, Ok) && !FileReports(w, f, Conflict)
  {
    hide TenantSyncable, TenantReports, OperationResource;
    forall id | id in f.tenants && id in w.tenants
      ensures TenantSyncable(w.tenants[id], f.tenants[id]) <==>
        forall err :: !TenantReports(w.tenants[id], f.tenants[id], err)
      ensures !TenantReports(w.tenants[id], f.tenants[id], Ok) && !TenantReports(w.tenants[id], f.tenants[id], Conflict)
    {
      TenantReportsExactly(w.tenants[id], f.tenants[id]);
      NoOtherReports(w.tenants[id], f.tenants[id]);
    }
    if name :| name in f.operations && OperationResource(name) == "" {
      assert FileReports(w, f, Validation);
    } else if id :| id in f.tenants && id !in w.tenants {
      assert FileReports(w, f, Validation);
    } else if id :| id in f.tenants && id in w.tenants && !TenantSyncable(w.tenants[id], f.tenants[id]) {
      var err :| TenantReports(w.tenants[id], f.tenants[id], err);
      assert FileReports(w, f, err);
    }
  }

  lemma NoOtherReports(t: TenantState, tb: TenantBootstrap)
    ensures !TenantReports(t, tb, Ok) && !TenantReports(t, tb, Conflict)
  {
  }

  // ---- Which scope is given makes no difference to that ----

  predicate Supported(scope: Scope) {
    scope == FULL || scope == RESTRICTED || scope == EMPTY
  }

  /** The same declarations, but for which of the three scopes each gives and the ids it lists. */
  ghost predicate SamePermissions(a: Permissions, b: Permissions) {
    a.Keys == b.Keys && forall op :: op in a ==> (Supported(a[op].scope) <==> Supported(b[op].scope))
  }

  ghost predicate SameTenantButScopes(a: TenantBootstrap, b: TenantBootstrap) {
    && a.roles.Keys == b.roles.Keys
    && (forall role :: role in a.roles ==> SamePermissions(a.roles[role], b.roles[role]))
    && a.users.Keys == b.users.Keys
    && (forall sub :: sub in a.users ==>
          && a.users[sub].roles == b.users[sub].roles
          && SamePermissions(a.users[sub].permissions, b.users[sub].permissions))
  }

  ghost predicate SameFileButScopes(f: BootstrapFile, g: BootstrapFile) {
    && f.operations == g.operations && f.tenants.Keys == g.tenants.Keys
    && forall id :: id in f.tenants ==> SameTenantButScopes(f.tenants[id], g.tenants[id])
  }

  /** FULL, RESTRICTED and EMPTY may be given wherever one of them may. */
  lemma AnySupportedScopeWillDo(w: World, f: BootstrapFile, g: BootstrapFile)
    requires SameFileButScopes(f, g)
    ensures Syncable(w, f) <==> Syncable(w, g)
  {
    hide SameTenantButScopes, TenantSyncable;
    forall id | id in f.tenants && id in w.tenants
      ensures TenantSyncable(w.tenants[id], f.tenants[id]) <==> TenantSyncable(w.tenants[id], g.tenants[id])
    {
      TenantsAlike(w.tenants[id], f.tenants[id], g.tenants[id]);
    }
  }

  lemma TenantsAlike(t: TenantState, a: TenantBootstrap, b: TenantBootstrap)
    requires SameTenantButScopes(a, b)
    ensures TenantSyncable(t, a) <==> TenantSyncable(t, b)
  {
    hide PermissionsOk, SamePermissions;
    forall role | role in a.roles ensures RoleSyncable(role, a.roles[role]) <==> RoleSyncable(role, b.roles[role]) {
      PermissionsAlike(a.roles[role], b.roles[role]);
    }
    forall sub | sub in a.users
      ensures UserSyncable(t.roles + a.roles.Keys, sub, a.users[sub]) <==>
        UserSyncable(t.roles + a.roles.Keys, sub, b.users[sub])
    {
      PermissionsAlike(a.users[sub].permissions, b.users[sub].permissions);
    }
  }

  lemma PermissionsAlike(a: Permissions, b: Permissions)
    requires SamePermissions(a, b)
    ensures PermissionsOk(a) <==> PermissionsOk(b)
  {
    forall op | op in a ensures SpecOk(op, a[op]) <==> SpecOk(op, b[op]) {
      SpecOkExactly(op, a[op]);
      SpecOkExactly(op, b[op]);
    }
  }

  // ---- The state a file asks for ----

  /** Things to have, to be laid over a world. */
  datatype Delta = Delta(users: set<string>, resources: set<string>, operations: set<string>, tenants: map<string,
    TenantState>)

  const NOTHING := Delta({}, {}, {}, map[])

  function TenantOverlay(t: TenantState, d: TenantState): TenantState {
    TenantState(t.roles + d.roles, t.assignments + d.assignments, t.grants + d.grants,
                t.roleIds + d.roleIds, t.overrides + d.overrides, t.userIds + d.userIds)
  }

  function NewResources(known: map<string, string>, operations: set<string>): set<string> {
    set op | op in operations && op !in known :: OperationResource(op)
  }

  function WithOperations(known: map<string, string>, operations: set<string>): map<string, string> {
    (map op | op in operations :: OperationResource(op)) + known
  }

  /** Everything is united; a scope laid over wins; a registered operation keeps its resource, a new one
      brings its own. */
  function SharedOverlay(s: SharedState, users: set<string>, resources: set<string>,
                         operations: set<string>): SharedState {
    SharedState(s.users + users,
                s.resources + resources + NewResources(s.operations, operations),
                WithOperations(s.operations, operations))
  }

  function Overlay(w: World, d: Delta): World {
    World(SharedOverlay(w.shared, d.users, d.resources, d.operations),
          map id | id in w.tenants :: if id in d.tenants then TenantOverlay(w.tenants[id], d.tenants[id])
            else w.tenants[id])
  }

  function TenantDelta(tb: TenantBootstrap): TenantState {
    TenantState(
      tb.roles.Keys,
      set sub, role | sub in tb.users && role in tb.users[sub].roles :: (sub, role),
      map k | k in (set role, op | role in tb.roles && op in tb.roles[role] :: (role, op)) :: tb.roles[k.0][k.1].scope,
      set role, op, id | role in tb.roles && op in tb.roles[role] && id in tb.roles[role][op].ids :: (role, op, id),
      map k | k in (set sub, op | sub in tb.users && op in tb.users[sub].permissions :: (sub, op)) ::
        tb.users[k.0].permissions[k.1].scope,
      set sub, op, id | sub in tb.users && op in tb.users[sub].permissions
        && id in tb.users[sub].permissions[op].ids :: (sub, op, id))
  }

  function FileOperations(f: BootstrapFile): set<string> {
    (set op | op in f.operations)
    + (set id, role, op | id in f.tenants && role in f.tenants[id].roles && op in f.tenants[id].roles[role] :: op)
    + (set id, sub, op | id in f.tenants && sub in f.tenants[id].users
      && op in f.tenants[id].users[sub].permissions :: op)
  }

  function FileUsers(f: BootstrapFile): set<string> {
    set id, sub | id in f.tenants && sub in f.tenants[id].users :: sub
  }

  function FileDelta(f: BootstrapFile): Delta {
    Delta(FileUsers(f), (set name | name in f.resources), FileOperations(f),
          map id | id in f.tenants :: TenantDelta(f.tenants[id]))
  }

  function SyncedFile(w: World, f: BootstrapFile): World {
    Overlay(w, FileDelta(f))
  }

  /** Files are applied in order. */
  function Synced(w: World, files: seq<BootstrapFile>): World {
    if files == [] then w else SyncedFile(Synced(w, files[..|files| - 1]), files[|files| - 1])
  }

  predicate AllSyncable(w: World, files: seq<BootstrapFile>) {
    files == [] ||
    (AllSyncable(w, files[..|files| - 1]) && Syncable(Synced(w, files[..|files| - 1]), files[|files| - 1]))
  }

  // ---- Laying over twice ----

  function JoinTenants(a: map<string, TenantState>, b: map<string, TenantState>): map<string, TenantState> {
    map id | id in a.Keys + b.Keys ::
      if id in a && id in b then TenantOverlay(a[id], b[id]) else if id in a then a[id] else b[id]
  }

  function Join(a: Delta, b: Delta): Delta {
    Delta(a.users + b.users, a.resources + b.resources, a.operations + b.operations, JoinTenants(a.tenants, b.tenants))
  }

  lemma OverlayJoins(w: World, a: Delta, b: Delta)
    ensures Overlay(Overlay(w, a), b) == Overlay(w, Join(a, b))
  {
    hide SharedOverlay, TenantOverlay;
    SharedOverlayJoins(w.shared, a, b);
    var two, both := Overlay(Overlay(w, a), b), Overlay(w, Join(a, b));
    forall id | id in w.tenants ensures two.tenants[id] == both.tenants[id] {
      if id in a.tenants && id in b.tenants {
        OverlayAssociates(w.tenants[id], a.tenants[id], b.tenants[id]);
      }
    }
    assert two.tenants == both.tenants;
  }

  lemma SharedOverlayJoins(s: SharedState, a: Delta, b: Delta)
    ensures SharedOverlay(SharedOverlay(s, a.users, a.resources, a.operations), b.users, b.resources, b.operations)
         == SharedOverlay(s, a.users + b.users, a.resources + b.resources, a.operations + b.operations)
  {
    hide NewResources, WithOperations;
    OperationsJoin(s.operations, a.operations, b.operations);
    NewResourcesJoin(s.operations, a.operations, b.operations);
  }

  lemma OperationsJoin(known: map<string, string>, a: set<string>, b: set<string>)
    ensures WithOperations(WithOperations(known, a), b) == WithOperations(known, a + b)
  {
    hide OperationResource;
  }

  lemma NewResourcesJoin(known: map<string, string>, a: set<string>, b: set<string>)
    ensures NewResources(known, a) + NewResources(WithOperations(known, a), b) == NewResources(known, a + b)
  {
    hide OperationResource;
    forall n | n in NewResources(known, a + b)
      ensures n in NewResources(known, a) + NewResources(WithOperations(known, a), b)
    {
      var op :| op in a + b && op !in known && n == OperationResource(op);
      assert op !in a ==> op !in WithOperations(known, a);
    }
  }

  lemma OverlayAssociates(t: TenantState, a: TenantState, b: TenantState)
    ensures TenantOverlay(TenantOverlay(t, a), b) == TenantOverlay(t, TenantOverlay(a, b))
  {
    assert (t.grants + a.grants) + b.grants == t.grants + (a.grants + b.grants);
    assert (t.overrides + a.overrides) + b.overrides == t.overrides + (a.overrides + b.overrides);
  }

  lemma OverlayIsIdempotent(w: World, d: Delta)
    ensures Overlay(Overlay(w, d), d) == Overlay(w, d)
  {
    var one := Overlay(w, d);
    var two := Overlay(one, d);
    assert two.shared.operations == one.shared.operations;
    assert two.shared.resources == one.shared.resources;
    forall id | id in w.tenants ensures two.tenants[id] == one.tenants[id] {
      if id in d.tenants {
        TenantOverlayIsIdempotent(w.tenants[id], d.tenants[id]);
      }
    }
    assert two.tenants == one.tenants;
  }

  lemma TenantOverlayIsIdempotent(t: TenantState, d: TenantState)
    ensures TenantOverlay(TenantOverlay(t, d), d) == TenantOverlay(t, d)
  {
    assert (t.grants + d.grants) + d.grants == t.grants + d.grants;
    assert (t.overrides + d.overrides) + d.overrides == t.overrides + d.overrides;
  }

  function JoinAll(files: seq<BootstrapFile>): Delta {
    if files == [] then NOTHING else Join(JoinAll(files[..|files| - 1]), FileDelta(files[|files| - 1]))
  }

  /** Any number of files come down to one overlay. */
  lemma {:induction false} SyncedIsOneOverlay(w: World, files: seq<BootstrapFile>)
    ensures Synced(w, files) == Overlay(w, JoinAll(files))
  {
    if files == [] {
      OverlayOfNothing(w);
    } else {
      var init, last := files[..|files| - 1], files[|files| - 1];
      SyncedIsOneOverlay(w, init);
      OverlayJoins(w, JoinAll(init), FileDelta(last));
    }
  }

  lemma OverlayOfNothing(w: World)
    ensures Overlay(w, NOTHING) == w
  {
    assert Overlay(w, NOTHING).shared.operations == w.shared.operations;
    assert Overlay(w, NOTHING).tenants == w.tenants;
  }

  // ---- Idempotence ----

  /** Syncing the same files again is possible whenever it was, and changes nothing. */
  lemma SyncIsIdempotent(w: World, files: seq<BootstrapFile>)
    requires AllSyncable(w, files)
    ensures AllSyncable(Synced(w, files), files)
    ensures Synced(Synced(w, files), files) == Synced(w, files)
  {
    var w' := Synced(w, files);
    SyncedIsOneOverlay(w, files);
    SyncedIsOneOverlay(w', files);
    OverlayIsIdempotent(w, JoinAll(files));
    MoreRolesKeepSyncable(w, w', files);
  }

  /** A world with the same tenants and at least the same roles. */
  ghost predicate HasRolesOf(w: World, w': World) {
    w'.tenants.Keys == w.tenants.Keys && forall id :: id in w.tenants ==> w.tenants[id].roles <= w'.tenants[id].roles
  }

  lemma {:induction false} MoreRolesKeepSyncable(w: World, w': World, files: seq<BootstrapFile>)
    requires AllSyncable(w, files)
    requires HasRolesOf(w, w')
    ensures AllSyncable(w', files)
  {
    if files != [] {
      var init, last := files[..|files| - 1], files[|files| - 1];
      MoreRolesKeepSyncable(w, w', init);
      SyncedKeepsMoreRoles(w, w', init);
      var v, v' := Synced(w, init), Synced(w', init);
      forall id | id in last.tenants ensures TenantSyncable(v'.tenants[id], last.tenants[id]) {
        assert TenantSyncable(v.tenants[id], last.tenants[id]);
      }
    }
  }

  lemma {:induction false} SyncedKeepsMoreRoles(w: World, w': World, files: seq<BootstrapFile>)
    requires HasRolesOf(w, w')
    ensures HasRolesOf(Synced(w, files), Synced(w', files))
  {
    if files != [] {
      SyncedKeepsMoreRoles(w, w', files[..|files| - 1]);
    }
  }

  // ---- The last declaration wins ----

  ghost predicate DeclaresRoleScope(f: BootstrapFile, id: string, role: string, op: string) {
    id in f.tenants && role in f.tenants[id].roles && op in f.tenants[id].roles[role]
  }

  /** The scope the last file that declares the pair gives it. */
  ghost function LastRoleScope(files: seq<BootstrapFile>, id: string, role: string, op: string): Option<Scope> {
    if files == [] then None
    else if DeclaresRoleScope(files[|files| - 1], id, role, op) then
      Some(files[|files| - 1].tenants[id].roles[role][op].scope)
    else LastRoleScope(files[..|files| - 1], id, role, op)
  }

  ghost predicate DeclaresUserScope(f: BootstrapFile, id: string, sub: string, op: string) {
    id in f.tenants && sub in f.tenants[id].users && op in f.tenants[id].users[sub].permissions
  }

  ghost function LastUserScope(files: seq<BootstrapFile>, id: string, sub: string, op: string): Option<Scope> {
    if files == [] then None
    else if DeclaresUserScope(files[|files| - 1], id, sub, op) then
      Some(files[|files| - 1].tenants[id].users[sub].permissions[op].scope)
    else LastUserScope(files[..|files| - 1], id, sub, op)
  }

  ghost function OrElse(a: Option<Scope>, b: Option<Scope>): Option<Scope> {
    if a.Some? then a else b
  }

  /** After syncing, a pair has the scope its last declaration gave it, or its old one where no file declares it. */
  lemma {:induction false} LastDeclarationWins(w: World, files: seq<BootstrapFile>, id: string, owner: string,
                                               op: string)
    requires id in w.tenants
    ensures id in Synced(w, files).tenants
    ensures ScopeAt(Synced(w, files).tenants[id].grants, (owner, op))
         == OrElse(LastRoleScope(files, id, owner, op), ScopeAt(w.tenants[id].grants, (owner, op)))
    ensures ScopeAt(Synced(w, files).tenants[id].overrides, (owner, op))
         == OrElse(LastUserScope(files, id, owner, op), ScopeAt(w.tenants[id].overrides, (owner, op)))
  {
    if files != [] {
      var init, f := files[..|files| - 1], files[|files| - 1];
      LastDeclarationWins(w, init, id, owner, op);
      if id in f.tenants {
        DeltaScopes(f.tenants[id], owner, op);
      }
    }
  }

  lemma DeltaScopes(tb: TenantBootstrap, owner: string, op: string)
    ensures ScopeAt(TenantDelta(tb).grants, (owner, op))
         == if owner in tb.roles && op in tb.roles[owner] then Some(tb.roles[owner][op].scope) else None
    ensures ScopeAt(TenantDelta(tb).overrides, (owner, op))
         == if owner in tb.users && op in tb.users[owner].permissions then Some(tb.users[owner].permissions[op].scope)
           else None
  {
  }

  /** No pair gets different scopes from the two files. */
  ghost predicate FilesAgree(f: BootstrapFile, g: BootstrapFile) {
    forall id :: id in f.tenants && id in g.tenants ==> SameScopes(f.tenants[id], g.tenants[id])
  }

  lemma {:induction false} TwoFiles(w: World, f: BootstrapFile, g: BootstrapFile)
    ensures Synced(w, [f, g]) == SyncedFile(SyncedFile(w, f), g)
    ensures AllSyncable(w, [f, g]) <==> Syncable(w, f) && Syncable(SyncedFile(w, f), g)
  {
    hide SyncedFile, Syncable;
    assert [f, g][..1] == [f] && [f][..0] == [];
    assert Synced(w, [f]) == SyncedFile(Synced(w, []), f);
    assert AllSyncable(w, [f]) <==> Syncable(w, f);
  }

  /** A file that can be applied can still be applied after another. */
  lemma SyncableAfter(w: World, f: BootstrapFile, g: BootstrapFile)
    requires Syncable(w, g)
    ensures Syncable(SyncedFile(w, f), g)
  {
    hide SharedOverlay, FileOperations, FileUsers, TenantDelta;
    var v := SyncedFile(w, f);
    forall id | id in g.tenants ensures id in v.tenants && TenantSyncable(v.tenants[id], g.tenants[id]) {
      assert w.tenants[id].roles <= v.tenants[id].roles;
    }
  }

  /** Applying two files in either order works, and ends in one state, exactly when each can be applied by itself
      and they give no pair different scopes. */
  lemma FilesCommuteExactly(w: World, f: BootstrapFile, g: BootstrapFile)
    ensures AllSyncable(w, [f, g]) && AllSyncable(w, [g, f]) <==> Syncable(w, f) && Syncable(w, g)
    ensures AllSyncable(w, [f, g]) && AllSyncable(w, [g, f]) && Synced(w, [f, g]) == Synced(w, [g, f]) <==>
      Syncable(w, f) && Syncable(w, g) && FilesAgree(f, g)
  {
    TwoFiles(w, f, g);
    TwoFiles(w, g, f);
    if Syncable(w, f) && Syncable(w, g) {
      SyncableAfter(w, f, g);
      SyncableAfter(w, g, f);
      hide SyncedFile, TenantSyncable, Synced, AllSyncable;
      OverlaysCommuteExactly(w, f, g);
    }
  }

  /** One file may need a role that only the other declares: then one order works and the other does not, although
      the two files agree on all scopes. */
  lemma OrderOfFilesCanDecide(id: string, role: string, sub: string)
    requires role != "" && sub != ""
    ensures var w := World(NO_SHARED_DATA, map[id := NO_TENANT_DATA]);
      var f := BootstrapFile([], [], map[id := TenantBootstrap(map[role := map[]], map[])]);
      var g := BootstrapFile([], [], map[id := TenantBootstrap(map[], map[sub := UserBootstrap([role], map[])])]);
      FilesAgree(f, g) && AllSyncable(w, [f, g]) && !AllSyncable(w, [g, f])
  {
    hide SyncedFile, Synced, AllSyncable, FilesAgree, Syncable;
    var w := World(NO_SHARED_DATA, map[id := NO_TENANT_DATA]);
    var brings := TenantBootstrap(map[role := map[]], map[]);
    var needs := TenantBootstrap(map[], map[sub := UserBootstrap([role], map[])]);
    var f, g := BootstrapFile([], [], map[id := brings]), BootstrapFile([], [], map[id := needs]);
    TwoFiles(w, f, g);
    TwoFiles(w, g, f);
    OneBringsOneNeeds(w, f, g, id, role, sub);
  }

  lemma OneBringsOneNeeds(w: World, f: BootstrapFile, g: BootstrapFile, id: string, role: string, sub: string)
    requires role != "" && sub != "" && id in w.tenants && role !in w.tenants[id].roles
    requires f.operations == [] && f.tenants.Keys == {id} && f.tenants[id] == TenantBootstrap(map[role := map[]], map[])
    requires g.operations == [] && g.tenants.Keys == {id}
      && g.tenants[id] == TenantBootstrap(map[], map[sub := UserBootstrap([role], map[])])
    ensures FilesAgree(f, g) && Syncable(w, f) && Syncable(SyncedFile(w, f), g) && !Syncable(w, g)
  {
    hide SyncedFile;
    FileBringsRole(w, f, id, role);
    NeedsRole(w.tenants[id], g.tenants[id], sub, role);
    NeedsRole(SyncedFile(w, f).tenants[id], g.tenants[id], sub, role);
    BringsRole(w.tenants[id], f.tenants[id], role);
    hide TenantSyncable;
  }

  lemma BringsRole(t: TenantState, tb: TenantBootstrap, role: string)
    requires role != "" && tb == TenantBootstrap(map[role := map[]], map[])
    ensures TenantSyncable(t, tb)
  {
  }

  lemma FileBringsRole(w: World, f: BootstrapFile, id: string, role: string)
    requires id in w.tenants && id in f.tenants && role in f.tenants[id].roles
    ensures id in SyncedFile(w, f).tenants && role in SyncedFile(w, f).tenants[id].roles
  {
    hide SharedOverlay, FileOperations, FileUsers;
  }

  lemma NeedsRole(t: TenantState, tb: TenantBootstrap, sub: string, role: string)
    requires sub != "" && tb == TenantBootstrap(map[], map[sub := UserBootstrap([role], map[])])
    ensures TenantSyncable(t, tb) <==> role in t.roles
  {
    var ub := tb.users[sub];
    assert role in ub.roles && tb.roles.Keys == {};
    assert t.roles + tb.roles.Keys == t.roles;
  }

  /** As far as the states go, two overlays commute exactly when the files agree. */
  lemma OverlaysCommuteExactly(w: World, f: BootstrapFile, g: BootstrapFile)
    requires f.tenants.Keys <= w.tenants.Keys && g.tenants.Keys <= w.tenants.Keys
    ensures SyncedFile(SyncedFile(w, f), g) == SyncedFile(SyncedFile(w, g), f) <==> FilesAgree(f, g)
  {
    hide SharedOverlay, TenantOverlay, TenantDelta, FileOperations, FileUsers, ScopesAgree, SameScopes;
    var fg, gf := SyncedFile(SyncedFile(w, f), g), SyncedFile(SyncedFile(w, g), f);
    SharedSidesCommute(w.shared, FileDelta(f), FileDelta(g));
    forall id | id in w.tenants
      ensures id in fg.tenants && id in gf.tenants
      ensures fg.tenants[id] == gf.tenants[id] <==>
        id in f.tenants && id in g.tenants ==> SameScopes(f.tenants[id], g.tenants[id])
    {
      if id in f.tenants && id in g.tenants {
        TenantOverlaysCommute(w.tenants[id], TenantDelta(f.tenants[id]), TenantDelta(g.tenants[id]));
        DeltasAgree(f.tenants[id], g.tenants[id]);
      }
    }
    SameTenants(fg, gf, w.tenants.Keys);
  }

  lemma SameTenants(v: World, w: World, ids: set<string>)
    requires v.shared == w.shared && v.tenants.Keys == w.tenants.Keys == ids
    ensures v == w <==> forall id :: id in ids ==> v.tenants[id] == w.tenants[id]
  {
    assert v.tenants == w.tenants <==> forall id :: id in ids ==> v.tenants[id] == w.tenants[id];
  }

  lemma SharedSidesCommute(s: SharedState, a: Delta, b: Delta)
    ensures SharedOverlay(SharedOverlay(s, a.users, a.resources, a.operations), b.users, b.resources, b.operations)
         == SharedOverlay(SharedOverlay(s, b.users, b.resources, b.operations), a.users, a.resources, a.operations)
  {
    hide SharedOverlay;
    SharedOverlayJoins(s, a, b);
    SharedOverlayJoins(s, b, a);
    assert a.users + b.users == b.users + a.users;
    assert a.resources + b.resources == b.resources + a.resources;
    assert a.operations + b.operations == b.operations + a.operations;
  }

  ghost predicate ScopesAgree(a: TenantState, b: TenantState) {
    && (forall k :: k in a.grants && k in b.grants ==> a.grants[k] == b.grants[k])
    && (forall k :: k in a.overrides && k in b.overrides ==> a.overrides[k] == b.overrides[k])
  }

  ghost predicate SameScopes(a: TenantBootstrap, b: TenantBootstrap) {
    && (forall role, op :: role in a.roles && op in a.roles[role] && role in b.roles && op in b.roles[role] ==>
          a.roles[role][op].scope == b.roles[role][op].scope)
    && (forall sub, op ::
          sub in a.users && op in a.users[sub].permissions && sub in b.users && op in b.users[sub].permissions ==>
          a.users[sub].permissions[op].scope == b.users[sub].permissions[op].scope)
  }

  lemma TenantOverlaysCommute(t: TenantState, a: TenantState, b: TenantState)
    ensures TenantOverlay(TenantOverlay(t, a), b) == TenantOverlay(TenantOverlay(t, b), a) <==> ScopesAgree(a, b)
  {
    var ab, ba := TenantOverlay(TenantOverlay(t, a), b), TenantOverlay(TenantOverlay(t, b), a);
    assert ab.roles == ba.roles && ab.assignments == ba.assignments && ab.roleIds == ba.roleIds
      && ab.userIds == ba.userIds;
    OverridesCommute(t.grants, a.grants, b.grants);
    OverridesCommute(t.overrides, a.overrides, b.overrides);
  }

  lemma OverridesCommute(m: map<(string, string), Scope>, a: map<(string, string), Scope>,
                         b: map<(string, string), Scope>)
    ensures (m + a) + b == (m + b) + a <==> forall k :: k in a && k in b ==> a[k] == b[k]
  {
    var ab, ba := (m + a) + b, (m + b) + a;
    assert forall k :: k in a && k in b ==> ab[k] == b[k] && ba[k] == a[k];
    assert ab.Keys == ba.Keys;
  }

  lemma DeltasAgree(a: TenantBootstrap, b: TenantBootstrap)
    ensures ScopesAgree(TenantDelta(a), TenantDelta(b)) <==> SameScopes(a, b)
  {
    hide TenantDelta;
    var da, db := TenantDelta(a), TenantDelta(b);
    forall owner, op
      ensures ScopeAt(da.grants, (owner, op)) == if owner in a.roles
        && op in a.roles[owner] then Some(a.roles[owner][op].scope) else None
      ensures ScopeAt(db.grants, (owner, op)) == if owner in b.roles
        && op in b.roles[owner] then Some(b.roles[owner][op].scope) else None
      ensures ScopeAt(da.overrides, (owner, op)) ==
        if owner in a.users && op in a.users[owner].permissions then Some(a.users[owner].permissions[op].scope)
          else None
      ensures ScopeAt(db.overrides, (owner, op)) ==
        if owner in b.users && op in b.users[owner].permissions then Some(b.users[owner].permissions[op].scope)
          else None
    {
      DeltaScopes(a, owner, op);
      DeltaScopes(b, owner, op);
    }
    forall k | k in da.grants && k in db.grants ensures da.grants[k] == db.grants[k] || !SameScopes(a, b) {
      assert ScopeAt(da.grants, (k.0, k.1)) == Some(da.grants[k]);
      assert ScopeAt(db.grants, (k.0, k.1)) == Some(db.grants[k]);
    }
    forall k | k in da.overrides && k in db.overrides ensures da.overrides[k] == db.overrides[k] || !SameScopes(a, b) {
      assert ScopeAt(da.overrides, (k.0, k.1)) == Some(da.overrides[k]);
      assert ScopeAt(db.overrides, (k.0, k.1)) == Some(db.overrides[k]);
    }
    if ScopesAgree(da, db) {
      forall role, op | role in a.roles && op in a.roles[role] && role in b.roles && op in b.roles[role]
        ensures a.roles[role][op].scope == b.roles[role][op].scope
      {
        assert ScopeAt(da.grants, (role, op)).Some? && ScopeAt(db.grants, (role, op)).Some?;
      }
      forall sub, op | sub in a.users && op in a.users[sub].permissions && sub in b.users
        && op in b.users[sub].permissions
        ensures a.users[sub].permissions[op].scope == b.users[sub].permissions[op].scope
      {
        assert ScopeAt(da.overrides, (sub, op)).Some? && ScopeAt(db.overrides, (sub, op)).Some?;
      }
    }
  }
}
