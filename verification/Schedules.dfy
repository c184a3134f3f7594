/** Orders in which declared calls may be made: what every order keeps, and what every complete one ends in. */
module Schedules {
  import opened Model
  import opened SharedSpec
  import opened TenantSpec
  import opened ServiceSpec
  import opened SyncSpec

  // ---- Which calls a file declares, one kind at a time ----

  lemma DeclaredUsers(f: BootstrapFile, sub: string)
    ensures Declares(f, ServiceCall.EnsureUser(sub)) <==> sub in FileUsers(f)
  {
    var c := ServiceCall.EnsureUser(sub);
    if sub in FileUsers(f) {
      var id :| id in f.tenants && sub in f.tenants[id].users;
      assert UserCall(c, id, sub, f.tenants[id].users[sub]) && TenantFileCall(c, id, f.tenants[id]);
    }
  }

  lemma DeclaredResources(f: BootstrapFile, name: string)
    ensures Declares(f, ServiceCall.EnsureResource(name)) <==> name in f.resources
  {
  }

  lemma DeclaredOperations(f: BootstrapFile, op: string)
    ensures Declares(f, ServiceCall.EnsureOperation(op)) <==> op in FileOperations(f)
  {
    var c := ServiceCall.EnsureOperation(op);
    if op in FileOperations(f) && op !in f.operations {
      if id, role :| id in f.tenants && role in f.tenants[id].roles && op in f.tenants[id].roles[role] {
        assert RolePermissionCall(c, id, role, op, f.tenants[id].roles[role][op]);
        assert RoleCall(c, id, role, f.tenants[id].roles[role]) && TenantFileCall(c, id, f.tenants[id]);
      } else {
        var id, sub :| id in f.tenants && sub in f.tenants[id].users && op in f.tenants[id].users[sub].permissions;
        assert UserPermissionCall(c, id, sub, op, f.tenants[id].users[sub].permissions[op]);
        assert UserCall(c, id, sub, f.tenants[id].users[sub]) && TenantFileCall(c, id, f.tenants[id]);
      }
    }
  }

  lemma DeclaredRoles(f: BootstrapFile, id: string, role: string)
    ensures Declares(f, OnTenant(id, AdminCall.EnsureRole(role))) <==> id in f.tenants && role in f.tenants[id].roles
  {
    var c := OnTenant(id, AdminCall.EnsureRole(role));
    if id in f.tenants && role in f.tenants[id].roles {
      assert RoleCall(c, id, role, f.tenants[id].roles[role]) && TenantFileCall(c, id, f.tenants[id]);
    }
  }

  lemma DeclaredAssignments(f: BootstrapFile, id: string, sub: string, role: string)
    ensures Declares(f, OnTenant(id, AdminCall.AssignRole(sub, role))) <==>
      id in f.tenants && sub in f.tenants[id].users && role in f.tenants[id].users[sub].roles
  {
    var c := OnTenant(id, AdminCall.AssignRole(sub, role));
    if id in f.tenants && sub in f.tenants[id].users && role in f.tenants[id].users[sub].roles {
      assert UserCall(c, id, sub, f.tenants[id].users[sub]) && TenantFileCall(c, id, f.tenants[id]);
    }
  }

  lemma DeclaredRoleScopes(f: BootstrapFile, id: string, role: string, op: string, scope: Scope)
    ensures Declares(f, OnTenant(id, AdminCall.SetRolePermission(role, op, scope))) <==>
      DeclaresRoleScope(f, id, role, op) && f.tenants[id].roles[role][op].scope == scope
  {
    var c := OnTenant(id, AdminCall.SetRolePermission(role, op, scope));
    if DeclaresRoleScope(f, id, role, op) && f.tenants[id].roles[role][op].scope == scope {
      assert RolePermissionCall(c, id, role, op, f.tenants[id].roles[role][op]);
      assert RoleCall(c, id, role, f.tenants[id].roles[role]) && TenantFileCall(c, id, f.tenants[id]);
    }
  }

  lemma DeclaredUserScopes(f: BootstrapFile, id: string, sub: string, op: string, scope: Scope)
    ensures Declares(f, OnTenant(id, AdminCall.SetUserPermission(sub, op, scope))) <==>
      DeclaresUserScope(f, id, sub, op) && f.tenants[id].users[sub].permissions[op].scope == scope
  {
    var c := OnTenant(id, AdminCall.SetUserPermission(sub, op, scope));
    if DeclaresUserScope(f, id, sub, op) && f.tenants[id].users[sub].permissions[op].scope == scope {
      assert UserPermissionCall(c, id, sub, op, f.tenants[id].users[sub].permissions[op]);
      assert UserCall(c, id, sub, f.tenants[id].users[sub]) && TenantFileCall(c, id, f.tenants[id]);
    }
  }

  lemma DeclaredRoleIds(f: BootstrapFile, id: string, role: string, op: string, ids: seq<string>)
    ensures Declares(f, OnTenant(id, AdminCall.UpdateRoleIDs(role, op, ids, []))) <==>
      DeclaresRoleScope(f, id, role, op) && f.tenants[id].roles[role][op].ids == ids != []
  {
    var c := OnTenant(id, AdminCall.UpdateRoleIDs(role, op, ids, []));
    if DeclaresRoleScope(f, id, role, op) && f.tenants[id].roles[role][op].ids == ids != [] {
      assert RolePermissionCall(c, id, role, op, f.tenants[id].roles[role][op]);
      assert RoleCall(c, id, role, f.tenants[id].roles[role]) && TenantFileCall(c, id, f.tenants[id]);
    }
  }

  lemma DeclaredUserIds(f: BootstrapFile, id: string, sub: string, op: string, ids: seq<string>)
    ensures Declares(f, OnTenant(id, AdminCall.UpdateUserIDs(sub, op, ids, []))) <==>
      DeclaresUserScope(f, id, sub, op) && f.tenants[id].users[sub].permissions[op].ids == ids != []
  {
    var c := OnTenant(id, AdminCall.UpdateUserIDs(sub, op, ids, []));
    if DeclaresUserScope(f, id, sub, op) && f.tenants[id].users[sub].permissions[op].ids == ids != [] {
      assert UserPermissionCall(c, id, sub, op, f.tenants[id].users[sub].permissions[op]);
      assert UserCall(c, id, sub, f.tenants[id].users[sub]) && TenantFileCall(c, id, f.tenants[id]);
    }
  }

  /** The kinds of calls a file can declare. None of them takes anything away. */
  predicate IsAdding(c: ServiceCall) {
    match c
    case EnsureUser(_) => true
    case EnsureResource(_) => true
    case EnsureOperation(_) => true
    case OnTenant(_, call) =>
      (match call
       case EnsureRole(_) => true
       case AssignRole(_, _) => true
       case SetRolePermission(_, _, _) => true
       case SetUserPermission(_, _, _) => true
       case UpdateRoleIDs(_, _, _, remove) => remove == []
       case UpdateUserIDs(_, _, _, remove) => remove == []
       case _ => false)
    case _ => false
  }

  lemma DeclaredCallsAdd(files: seq<BootstrapFile>, c: ServiceCall)
    requires Declared(files, c)
    ensures IsAdding(c)
  {
    var f :| f in files && Declares(f, c);
    FileCallsAdd(f, c);
  }

  lemma FileCallsAdd(f: BootstrapFile, c: ServiceCall)
    requires Declares(f, c)
    ensures IsAdding(c)
  {
    hide TenantFileCall;
    if exists id :: id in f.tenants && TenantFileCall(c, id, f.tenants[id]) {
      var id :| id in f.tenants && TenantFileCall(c, id, f.tenants[id]);
      TenantCallsAdd(c, id, f.tenants[id]);
    }
  }

  lemma TenantCallsAdd(c: ServiceCall, id: string, tb: TenantBootstrap)
    requires TenantFileCall(c, id, tb)
    ensures IsAdding(c)
  {
    hide IsAdding;
    if exists role :: role in tb.roles && RoleCall(c, id, role, tb.roles[role]) {
      var role :| role in tb.roles && RoleCall(c, id, role, tb.roles[role]);
      RoleCallsAdd(c, id, role, tb.roles[role]);
    } else {
      var sub :| sub in tb.users && UserCall(c, id, sub, tb.users[sub]);
      UserCallsAdd(c, id, sub, tb.users[sub]);
    }
  }

  lemma RoleCallsAdd(c: ServiceCall, id: string, role: string, perms: Permissions)
    requires RoleCall(c, id, role, perms)
    ensures IsAdding(c)
  {
  }

  lemma UserCallsAdd(c: ServiceCall, id: string, sub: string, ub: UserBootstrap)
    requires UserCall(c, id, sub, ub)
    ensures IsAdding(c)
  {
  }

  /** Whoever is given something is declared as a user. */
  lemma UsersAreDeclared(files: seq<BootstrapFile>, c: ServiceCall)
    requires Declared(files, c)
    ensures c.OnTenant? && (c.call.AssignRole? || c.call.SetUserPermission?) ==>
      Declared(files, ServiceCall.EnsureUser(c.call.sub))
  {
    hide Declares;
    var f :| f in files && Declares(f, c);
    if c.OnTenant? && c.call.AssignRole? {
      DeclaredAssignments(f, c.tenant, c.call.sub, c.call.role);
      DeclaredUsers(f, c.call.sub);
    }
    if c.OnTenant? && c.call.SetUserPermission? {
      DeclaredUserScopes(f, c.tenant, c.call.sub, c.call.operation, c.call.scope);
      DeclaredUsers(f, c.call.sub);
    }
  }

  // ---- Additivity ----

  /** Nothing shared is lost or moved, and everything new was asked for. */
  ghost predicate SharedGrows(s: SharedState, files: seq<BootstrapFile>, s': SharedState) {
    && s.users <= s'.users
    && (forall sub :: sub in s'.users ==> sub in s.users || Declared(files, ServiceCall.EnsureUser(sub)))
    && s.resources <= s'.resources
    && (forall n :: n in s'.resources ==>
          || n in s.resources
          || Declared(files, ServiceCall.EnsureResource(n))
          || exists op ::
               Declared(files, ServiceCall.EnsureOperation(op)) && op !in s.operations && n == OperationResource(op))
    && (forall op :: op in s.operations ==> op in s'.operations && s'.operations[op] == s.operations[op])
    && (forall op :: op in s'.operations && op !in s.operations ==>
          && Declared(files, ServiceCall.EnsureOperation(op))
          && s'.operations[op] == OperationResource(op) && OperationResource(op) in s'.resources)
  }

  /** Roles, assignments and ids only come, and only those asked for; a scope moves only where one was declared. */
  ghost predicate TenantGrows(t: TenantState, files: seq<BootstrapFile>, id: string, t': TenantState) {
    && t.roles <= t'.roles
    && (forall r :: r in t'.roles ==> r in t.roles || Declared(files, OnTenant(id, AdminCall.EnsureRole(r))))
    && t.assignments <= t'.assignments
    && (forall s, r :: (s, r) in t'.assignments ==>
      (s, r) in t.assignments || Declared(files, OnTenant(id, AdminCall.AssignRole(s, r))))
    && t.grants.Keys <= t'.grants.Keys
    && (forall r, op :: (r, op) in t'.grants ==>
          || ((r, op) in t.grants && t'.grants[(r, op)] == t.grants[(r, op)])
          || Declared(files, OnTenant(id, AdminCall.SetRolePermission(r, op, t'.grants[(r, op)]))))
    && t.roleIds <= t'.roleIds
    && (forall r, op, x :: (r, op, x) in t'.roleIds ==>
          || (r, op, x) in t.roleIds
          || exists ids :: x in ids && Declared(files, OnTenant(id, AdminCall.UpdateRoleIDs(r, op, ids, []))))
    && t.overrides.Keys <= t'.overrides.Keys
    && (forall s, op :: (s, op) in t'.overrides ==>
          || ((s, op) in t.overrides && t'.overrides[(s, op)] == t.overrides[(s, op)])
          || Declared(files, OnTenant(id, AdminCall.SetUserPermission(s, op, t'.overrides[(s, op)]))))
    && t.userIds <= t'.userIds
    && (forall s, op, x :: (s, op, x) in t'.userIds ==>
          || (s, op, x) in t.userIds
          || exists ids :: x in ids && Declared(files, OnTenant(id, AdminCall.UpdateUserIDs(s, op, ids, []))))
  }

  ghost predicate Grows(w: World, files: seq<BootstrapFile>, w': World) {
    && w'.tenants.Keys == w.tenants.Keys
    && SharedGrows(w.shared, files, w'.shared)
    && forall id :: id in w.tenants ==> TenantGrows(w.tenants[id], files, id, w'.tenants[id])
  }

  lemma SharedStepGrows(w: World, files: seq<BootstrapFile>, v: World, c: ServiceCall)
    requires SharedGrows(w.shared, files, v.shared) && Declared(files, c)
    ensures SharedGrows(w.shared, files, ServiceStep(v, c).world.shared)
  {
    hide Declared, OperationResource, SharedGrows;
    DeclaredCallsAdd(files, c);
    UsersAreDeclared(files, c);
    match c {
      case EnsureUser(sub) => UserGrows(w.shared, files, v.shared, sub);
      case EnsureResource(name) => ResourceGrows(w.shared, files, v.shared, name);
      case EnsureOperation(op) => OperationGrows(w.shared, files, v.shared, op);
      case OnTenant(id, call) =>
        if id in v.tenants {
          SharedSideOfAdding(v.shared, v.tenants[id], id, call);
          if call.AssignRole? || call.SetUserPermission? {
            UserGrows(w.shared, files, v.shared, call.sub);
          }
        }
    }
  }

  lemma SharedSideOfAdding(s: SharedState, t: TenantState, id: string, call: AdminCall)
    requires IsAdding(OnTenant(id, call))
    ensures AdminStep(s, t, call).shared == s ||
      ((call.AssignRole? || call.SetUserPermission?) && AdminStep(s, t, call).shared == WithUser(s, call.sub))
  {
  }

  lemma UserGrows(s: SharedState, files: seq<BootstrapFile>, v: SharedState, sub: string)
    requires SharedGrows(s, files, v) && Declared(files, ServiceCall.EnsureUser(sub))
    ensures SharedGrows(s, files, WithUser(v, sub))
  {
    hide Declared, OperationResource;
  }

  lemma ResourceGrows(s: SharedState, files: seq<BootstrapFile>, v: SharedState, name: string)
    requires SharedGrows(s, files, v) && Declared(files, ServiceCall.EnsureResource(name))
    ensures SharedGrows(s, files, v.(resources := v.resources + {name}))
  {
    hide Declared, OperationResource;
  }

  lemma OperationGrows(s: SharedState, files: seq<BootstrapFile>, v: SharedState, op: string)
    requires SharedGrows(s, files, v) && Declared(files, ServiceCall.EnsureOperation(op))
    ensures SharedGrows(s, files, SharedStep(v, SharedCall.EnsureOperation(op, OperationResource(op))).state)
  {
    hide Declared, OperationResource;
  }

  lemma TenantStepGrows(w: World, files: seq<BootstrapFile>, v: World, c: ServiceCall, id: string)
    requires id in w.tenants && id in v.tenants && TenantGrows(w.tenants[id], files, id, v.tenants[id])
      && Declared(files, c)
    ensures id in ServiceStep(v, c).world.tenants
    ensures TenantGrows(w.tenants[id], files, id, ServiceStep(v, c).world.tenants[id])
  {
    hide Declared, OperationResource, TenantGrows;
    DeclaredCallsAdd(files, c);
    if c.OnTenant? && c.tenant == id {
      AdminStepGrows(w.tenants[id], files, id, v.shared, v.tenants[id], c.call);
    }
  }

  lemma AdminStepGrows(t: TenantState, files: seq<BootstrapFile>, id: string, s: SharedState, v: TenantState,
                       call: AdminCall)
    requires TenantGrows(t, files, id, v) && Declared(files, OnTenant(id, call)) && IsAdding(OnTenant(id, call))
    ensures TenantGrows(t, files, id, AdminStep(s, v, call).tenant)
  {
    hide Declared;
  }

  /** Whatever declared calls have been made so far, in any order, and whether or not some failed: nothing is
      lost, nothing undeclared is changed. */
  lemma {:induction false} SyncOnlyAdds(w: World, files: seq<BootstrapFile>, calls: seq<ServiceCall>)
    requires forall c :: c in calls ==> Declared(files, c)
    ensures Grows(w, files, Run(w, calls))
  {
    hide SharedGrows, TenantGrows, Declared, ServiceStep;
    if calls == [] {
      NothingGrows(w, files);
    } else {
      var init, c := calls[..|calls| - 1], calls[|calls| - 1];
      SyncOnlyAdds(w, files, init);
      var v := Run(w, init);
      SharedStepGrows(w, files, v, c);
      forall id | id in w.tenants
        ensures id in ServiceStep(v, c).world.tenants
        ensures TenantGrows(w.tenants[id], files, id, ServiceStep(v, c).world.tenants[id])
      {
        TenantStepGrows(w, files, v, c, id);
      }
      TenantsStay(v, c);
    }
  }

  lemma NothingGrows(w: World, files: seq<BootstrapFile>)
    ensures Grows(w, files, w)
  {
    hide Declared;
  }

  lemma TenantsStay(w: World, c: ServiceCall)
    ensures ServiceStep(w, c).world.tenants.Keys == w.tenants.Keys
  {
  }

  // ---- Effects ----

  /** What a successful declared call leaves to be seen. */
  ghost predicate Effect(c: ServiceCall, w: World) {
    match c
    case EnsureUser(sub) => sub in w.shared.users
    case EnsureResource(name) => name in w.shared.resources
    case EnsureOperation(op) => op in w.shared.operations
    case OnTenant(id, call) => id in w.tenants && AdminEffect(call, w.tenants[id])
    case _ => true
  }

  ghost predicate AdminEffect(call: AdminCall, t: TenantState) {
    match call
    case EnsureRole(role) => role in t.roles
    case AssignRole(sub, role) => (sub, role) in t.assignments
    case SetRolePermission(role, op, scope) => (role, op) in t.grants && t.grants[(role, op)] == scope
    case SetUserPermission(sub, op, scope) => (sub, op) in t.overrides && t.overrides[(sub, op)] == scope
    case UpdateRoleIDs(role, op, add, _) => forall x :: x in add ==> (role, op, x) in t.roleIds
    case UpdateUserIDs(sub, op, add, _) => forall x :: x in add ==> (sub, op, x) in t.userIds
    case _ => true
  }

  lemma SuccessHasEffect(w: World, c: ServiceCall)
    requires IsAdding(c) && ServiceStep(w, c).err == Ok
    ensures Effect(c, ServiceStep(w, c).world)
  {
    hide OperationResource;
  }

  /** Within one file no call undoes another: a pair's scope is declared once. */
  lemma EffectsPersist(f: BootstrapFile, w: World, seen: ServiceCall, c: ServiceCall)
    requires Declares(f, seen) && Declares(f, c) && Effect(seen, w)
    ensures Effect(seen, ServiceStep(w, c).world)
  {
    hide Declares, OperationResource, AdminEffect, AdminStep;
    FileCallsAdd(f, seen);
    FileCallsAdd(f, c);
    if c.OnTenant? && c.tenant in w.tenants {
      AdminKeepsShared(w.shared, w.tenants[c.tenant], c.call);
      if seen.OnTenant? && seen.tenant == c.tenant {
        ScopesDeclaredOnce(f, c.tenant, seen.call, c.call);
        AdminEffectsPersist(w.shared, w.tenants[c.tenant], c.tenant, seen.call, c.call);
      }
    }
  }

  ghost predicate SetsOtherwise(a: AdminCall, b: AdminCall) {
    || (a.SetRolePermission? && b.SetRolePermission? && a.role == b.role && a.operation == b.operation
      && a.scope != b.scope)
    || (a.SetUserPermission? && b.SetUserPermission? && a.sub == b.sub && a.operation == b.operation
      && a.scope != b.scope)
  }

  lemma ScopesDeclaredOnce(f: BootstrapFile, id: string, a: AdminCall, b: AdminCall)
    requires Declares(f, OnTenant(id, a)) && Declares(f, OnTenant(id, b))
    ensures !SetsOtherwise(a, b)
  {
    hide Declares;
    if a.SetRolePermission? && b.SetRolePermission? {
      DeclaredRoleScopes(f, id, a.role, a.operation, a.scope);
      DeclaredRoleScopes(f, id, b.role, b.operation, b.scope);
    }
    if a.SetUserPermission? && b.SetUserPermission? {
      DeclaredUserScopes(f, id, a.sub, a.operation, a.scope);
      DeclaredUserScopes(f, id, b.sub, b.operation, b.scope);
    }
  }

  lemma AdminKeepsShared(s: SharedState, t: TenantState, call: AdminCall)
    ensures s.users <= AdminStep(s, t, call).shared.users
    ensures AdminStep(s, t, call).shared.resources == s.resources
      && AdminStep(s, t, call).shared.operations == s.operations
  {
  }

  lemma AdminEffectsPersist(s: SharedState, t: TenantState, id: string, seen: AdminCall, c: AdminCall)
    requires IsAdding(OnTenant(id, seen)) && IsAdding(OnTenant(id, c)) && !SetsOtherwise(seen, c)
      && AdminEffect(seen, t)
    ensures AdminEffect(seen, AdminStep(s, t, c).tenant)
  {
  }

  lemma {:induction false} AllEffectsSeen(w: World, f: BootstrapFile, calls: seq<ServiceCall>)
    requires forall c :: c in calls ==> Declares(f, c)
    requires AllOk(w, calls)
    ensures forall c :: c in calls ==> Effect(c, Run(w, calls))
  {
    if calls != [] {
      var init, last := calls[..|calls| - 1], calls[|calls| - 1];
      assert calls == init + [last];
      RunAppend(w, init, last);
      AllEffectsSeen(w, f, init);
      FileCallsAdd(f, last);
      SuccessHasEffect(Run(w, init), last);
      forall c | c in init ensures Effect(c, Run(w, calls)) {
        EffectsPersist(f, Run(w, init), c, last);
      }
    }
  }

  // ---- Closed form ----

  lemma OneFile(f: BootstrapFile, c: ServiceCall)
    ensures Declared([f], c) <==> Declares(f, c)
  {
    assert f in [f];
  }

  lemma SamePairs(a: set<(string, string)>, b: set<(string, string)>)
    requires forall x, y :: (x, y) in a <==> (x, y) in b
    ensures a == b
  {
    forall p: (string, string) ensures p in a <==> p in b {
      assert p == (p.0, p.1);
    }
  }

  lemma SameTriples(a: set<(string, string, string)>, b: set<(string, string, string)>)
    requires forall x, y, z :: (x, y, z) in a <==> (x, y, z) in b
    ensures a == b
  {
    forall p: (string, string, string) ensures p in a <==> p in b {
      assert p == (p.0, p.1, p.2);
    }
  }

  lemma SharedClosedForm(s: SharedState, f: BootstrapFile, s': SharedState)
    requires SharedGrows(s, [f], s')
    requires forall sub :: sub in FileUsers(f) ==> sub in s'.users
    requires forall n :: n in f.resources ==> n in s'.resources
    requires forall op :: op in FileOperations(f) ==> op in s'.operations
    ensures s' == SharedOverlay(s, FileUsers(f), (set n | n in f.resources), FileOperations(f))
  {
    hide FileUsers, FileOperations, OperationResource, Declares, Declared;
    forall sub ensures Declared([f], ServiceCall.EnsureUser(sub)) <==> sub in FileUsers(f) {
      OneFile(f, ServiceCall.EnsureUser(sub));
      DeclaredUsers(f, sub);
    }
    assert s'.users == s.users + FileUsers(f);
    OperationsClosed(s, f, s');
    ResourcesClosed(s, f, s');
  }

  lemma OperationsClosed(s: SharedState, f: BootstrapFile, s': SharedState)
    requires SharedGrows(s, [f], s')
    requires forall op :: op in FileOperations(f) ==> op in s'.operations
    ensures s'.operations == WithOperations(s.operations, FileOperations(f))
  {
    hide FileUsers, FileOperations, OperationResource, Declares, Declared;
    forall op ensures Declared([f], ServiceCall.EnsureOperation(op)) <==> op in FileOperations(f) {
      OneFile(f, ServiceCall.EnsureOperation(op));
      DeclaredOperations(f, op);
    }
    assert s'.operations.Keys == WithOperations(s.operations, FileOperations(f)).Keys;
  }

  lemma ResourcesClosed(s: SharedState, f: BootstrapFile, s': SharedState)
    requires SharedGrows(s, [f], s')
    requires forall n :: n in f.resources ==> n in s'.resources
    requires forall op :: op in FileOperations(f) ==> op in s'.operations
    ensures s'.resources == s.resources + (set n | n in f.resources) + NewResources(s.operations, FileOperations(f))
  {
    hide FileUsers, FileOperations, OperationResource, Declares, Declared;
    forall op ensures Declared([f], ServiceCall.EnsureOperation(op)) <==> op in FileOperations(f) {
      OneFile(f, ServiceCall.EnsureOperation(op));
      DeclaredOperations(f, op);
    }
    forall n ensures Declared([f], ServiceCall.EnsureResource(n)) <==> n in f.resources {
      OneFile(f, ServiceCall.EnsureResource(n));
      DeclaredResources(f, n);
    }
  }

  lemma TenantClosedForm(t: TenantState, f: BootstrapFile, id: string, t': TenantState)
    requires TenantGrows(t, [f], id, t') && id in f.tenants
    requires forall call :: Declares(f, OnTenant(id, call)) ==> AdminEffect(call, t')
    ensures t' == TenantOverlay(t, TenantDelta(f.tenants[id]))
  {
    hide Declares;
    var d := TenantOverlay(t, TenantDelta(f.tenants[id]));
    TenantRolesClosed(t, f, id, t');
    TenantGrantsClosed(t, f, id, t');
    TenantOverridesClosed(t, f, id, t');
    TenantIdsClosed(t, f, id, t');
  }

  lemma TenantRolesClosed(t: TenantState, f: BootstrapFile, id: string, t': TenantState)
    requires TenantGrows(t, [f], id, t') && id in f.tenants
    requires forall call :: Declares(f, OnTenant(id, call)) ==> AdminEffect(call, t')
    ensures t'.roles == t.roles + TenantDelta(f.tenants[id]).roles
    ensures t'.assignments == t.assignments + TenantDelta(f.tenants[id]).assignments
  {
    hide Declares, Declared;
    forall r ensures r in t'.roles <==> r in t.roles || r in f.tenants[id].roles {
      OneFile(f, OnTenant(id, AdminCall.EnsureRole(r)));
      DeclaredRoles(f, id, r);
      assert r in f.tenants[id].roles ==> AdminEffect(AdminCall.EnsureRole(r), t');
    }
    forall s, r ensures (s, r) in t'.assignments <==>
      (s, r) in t.assignments || (s in f.tenants[id].users && r in f.tenants[id].users[s].roles)
    {
      OneFile(f, OnTenant(id, AdminCall.AssignRole(s, r)));
      DeclaredAssignments(f, id, s, r);
      assert s in f.tenants[id].users && r in f.tenants[id].users[s].roles ==>
        AdminEffect(AdminCall.AssignRole(s, r), t');
    }
    SamePairs(t'.assignments, t.assignments + TenantDelta(f.tenants[id]).assignments);
  }

  lemma TenantGrantsClosed(t: TenantState, f: BootstrapFile, id: string, t': TenantState)
    requires TenantGrows(t, [f], id, t') && id in f.tenants
    requires forall call :: Declares(f, OnTenant(id, call)) ==> AdminEffect(call, t')
    ensures t'.grants == t.grants + TenantDelta(f.tenants[id]).grants
  {
    hide Declares, Declared, TenantDelta;
    var tb := f.tenants[id];
    forall r, op ensures ScopeAt(t'.grants, (r, op)) ==
      if r in tb.roles && op in tb.roles[r] then Some(tb.roles[r][op].scope) else ScopeAt(t.grants, (r, op))
    {
      if r in tb.roles && op in tb.roles[r] {
        DeclaredRoleScopes(f, id, r, op, tb.roles[r][op].scope);
        assert AdminEffect(AdminCall.SetRolePermission(r, op, tb.roles[r][op].scope), t');
      } else if (r, op) in t'.grants {
        OneFile(f, OnTenant(id, AdminCall.SetRolePermission(r, op, t'.grants[(r, op)])));
        DeclaredRoleScopes(f, id, r, op, t'.grants[(r, op)]);
      }
    }
    forall r, op ensures ScopeAt(t.grants + TenantDelta(tb).grants, (r, op)) == ScopeAt(t'.grants, (r, op)) {
      DeltaScopes(tb, r, op);
    }
    ScopesDetermineMap(t'.grants, t.grants + TenantDelta(tb).grants);
  }

  lemma ScopesDetermineMap(m: map<(string, string), Scope>, n: map<(string, string), Scope>)
    requires forall r, op :: ScopeAt(m, (r, op)) == ScopeAt(n, (r, op))
    ensures m == n
  {
    forall k: (string, string)
      ensures k in m <==> k in n
      ensures k in m ==> m[k] == n[k]
    {
      assert ScopeAt(m, (k.0, k.1)) == ScopeAt(n, (k.0, k.1));
    }
  }

  lemma TenantOverridesClosed(t: TenantState, f: BootstrapFile, id: string, t': TenantState)
    requires TenantGrows(t, [f], id, t') && id in f.tenants
    requires forall call :: Declares(f, OnTenant(id, call)) ==> AdminEffect(call, t')
    ensures t'.overrides == t.overrides + TenantDelta(f.tenants[id]).overrides
  {
    hide Declares, Declared, TenantDelta;
    var tb := f.tenants[id];
    forall s, op ensures ScopeAt(t'.overrides, (s, op)) ==
      if s in tb.users && op in tb.users[s].permissions then Some(tb.users[s].permissions[op].scope)
        else ScopeAt(t.overrides, (s, op))
    {
      if s in tb.users && op in tb.users[s].permissions {
        DeclaredUserScopes(f, id, s, op, tb.users[s].permissions[op].scope);
        assert AdminEffect(AdminCall.SetUserPermission(s, op, tb.users[s].permissions[op].scope), t');
      } else if (s, op) in t'.overrides {
        OneFile(f, OnTenant(id, AdminCall.SetUserPermission(s, op, t'.overrides[(s, op)])));
        DeclaredUserScopes(f, id, s, op, t'.overrides[(s, op)]);
      }
    }
    forall s, op ensures ScopeAt(t.overrides + TenantDelta(tb).overrides, (s, op)) == ScopeAt(t'.overrides, (s, op)) {
      DeltaScopes(tb, s, op);
    }
    ScopesDetermineMap(t'.overrides, t.overrides + TenantDelta(tb).overrides);
  }

  lemma TenantIdsClosed(t: TenantState, f: BootstrapFile, id: string, t': TenantState)
    requires TenantGrows(t, [f], id, t') && id in f.tenants
    requires forall call :: Declares(f, OnTenant(id, call)) ==> AdminEffect(call, t')
    ensures t'.roleIds == t.roleIds + TenantDelta(f.tenants[id]).roleIds
    ensures t'.userIds == t.userIds + TenantDelta(f.tenants[id]).userIds
  {
    hide Declares, Declared, TenantGrows, AdminEffect;
    var tb := f.tenants[id];
    forall r, op, x ensures (r, op, x) in t'.roleIds <==>
      (r, op, x) in t.roleIds || (r in tb.roles && op in tb.roles[r] && x in tb.roles[r][op].ids)
    {
      RoleIdClosed(t, f, id, t', r, op, x);
    }
    SameTriples(t'.roleIds, t.roleIds + TenantDelta(tb).roleIds);
    forall s, op, x ensures (s, op, x) in t'.userIds <==>
      (s, op, x) in t.userIds || (s in tb.users && op in tb.users[s].permissions
        && x in tb.users[s].permissions[op].ids)
    {
      UserIdClosed(t, f, id, t', s, op, x);
    }
    SameTriples(t'.userIds, t.userIds + TenantDelta(tb).userIds);
  }

  lemma RoleIdClosed(t: TenantState, f: BootstrapFile, id: string, t': TenantState, r: string, op: string, x: string)
    requires TenantGrows(t, [f], id, t') && id in f.tenants
    requires forall call :: Declares(f, OnTenant(id, call)) ==> AdminEffect(call, t')
    ensures (r, op, x) in t'.roleIds <==>
      (r, op, x) in t.roleIds || (DeclaresRoleScope(f, id, r, op) && x in f.tenants[id].roles[r][op].ids)
  {
    hide Declares, Declared;
    if DeclaresRoleScope(f, id, r, op) && x in f.tenants[id].roles[r][op].ids {
      var ids := f.tenants[id].roles[r][op].ids;
      DeclaredRoleIds(f, id, r, op, ids);
      assert AdminEffect(AdminCall.UpdateRoleIDs(r, op, ids, []), t');
    } else if (r, op, x) in t'.roleIds && (r, op, x) !in t.roleIds {
      var ids :| x in ids && Declared([f], OnTenant(id, AdminCall.UpdateRoleIDs(r, op, ids, [])));
      OneFile(f, OnTenant(id, AdminCall.UpdateRoleIDs(r, op, ids, [])));
      DeclaredRoleIds(f, id, r, op, ids);
    }
  }

  lemma UserIdClosed(t: TenantState, f: BootstrapFile, id: string, t': TenantState, s: string, op: string, x: string)
    requires TenantGrows(t, [f], id, t') && id in f.tenants
    requires forall call :: Declares(f, OnTenant(id, call)) ==> AdminEffect(call, t')
    ensures (s, op, x) in t'.userIds <==>
      (s, op, x) in t.userIds || (DeclaresUserScope(f, id, s, op) && x in f.tenants[id].users[s].permissions[op].ids)
  {
    hide Declares, Declared;
    if DeclaresUserScope(f, id, s, op) && x in f.tenants[id].users[s].permissions[op].ids {
      var ids := f.tenants[id].users[s].permissions[op].ids;
      DeclaredUserIds(f, id, s, op, ids);
      assert AdminEffect(AdminCall.UpdateUserIDs(s, op, ids, []), t');
    } else if (s, op, x) in t'.userIds && (s, op, x) !in t.userIds {
      var ids :| x in ids && Declared([f], OnTenant(id, AdminCall.UpdateUserIDs(s, op, ids, [])));
      OneFile(f, OnTenant(id, AdminCall.UpdateUserIDs(s, op, ids, [])));
      DeclaredUserIds(f, id, s, op, ids);
    }
  }

  /** Any order of a file's calls, with any repetitions, that makes them all and in which all succeed ends in
      the same state: the old one with the file laid over it. */
  lemma ScheduleClosedForm(w: World, f: BootstrapFile, calls: seq<ServiceCall>)
    requires forall c :: c in calls <==> Declares(f, c)
    requires AllOk(w, calls) && f.tenants.Keys <= w.tenants.Keys
    ensures Run(w, calls) == SyncedFile(w, f)
  {
    hide Declares, Declared, Grows, Effect, SyncedFile, Run;
    forall c | c in calls ensures Declared([f], c) {
      OneFile(f, c);
    }
    SyncOnlyAdds(w, [f], calls);
    AllEffectsSeen(w, f, calls);
    GrownWithAllEffects(w, f, Run(w, calls));
  }

  lemma GrownWithAllEffects(w: World, f: BootstrapFile, w': World)
    requires Grows(w, [f], w') && f.tenants.Keys <= w.tenants.Keys
    requires forall c :: Declares(f, c) ==> Effect(c, w')
    ensures w' == SyncedFile(w, f)
  {
    hide Declares, Declared, FileUsers, FileOperations, TenantDelta, SharedOverlay, TenantOverlay, Effect, SharedGrows,
      TenantGrows;
    SharedEffectsSeen(f, w');
    SharedClosedForm(w.shared, f, w'.shared);
    forall id | id in w.tenants
      ensures w'.tenants[id] == if id in f.tenants then TenantOverlay(w.tenants[id], TenantDelta(f.tenants[id]))
        else w.tenants[id]
    {
      if id in f.tenants {
        TenantEffectsSeen(f, id, w');
        TenantClosedForm(w.tenants[id], f, id, w'.tenants[id]);
      } else {
        UndeclaredTenantStays(w.tenants[id], f, id, w'.tenants[id]);
      }
    }
    assert w'.tenants == SyncedFile(w, f).tenants;
  }

  lemma TenantEffectsSeen(f: BootstrapFile, id: string, w: World)
    requires id in w.tenants && forall c :: Declares(f, c) ==> Effect(c, w)
    ensures forall call :: Declares(f, OnTenant(id, call)) ==> AdminEffect(call, w.tenants[id])
  {
    hide Declares, AdminEffect;
    forall call | Declares(f, OnTenant(id, call)) ensures AdminEffect(call, w.tenants[id]) {
      assert Effect(OnTenant(id, call), w);
    }
  }

  lemma SharedEffectsSeen(f: BootstrapFile, w: World)
    requires forall c :: Declares(f, c) ==> Effect(c, w)
    ensures forall sub :: sub in FileUsers(f) ==> sub in w.shared.users
    ensures forall n :: n in f.resources ==> n in w.shared.resources
    ensures forall op :: op in FileOperations(f) ==> op in w.shared.operations
  {
    hide Declares, FileUsers, FileOperations;
    forall sub | sub in FileUsers(f) ensures sub in w.shared.users {
      DeclaredUsers(f, sub);
      assert Effect(ServiceCall.EnsureUser(sub), w);
    }
    forall n | n in f.resources ensures n in w.shared.resources {
      DeclaredResources(f, n);
      assert Effect(ServiceCall.EnsureResource(n), w);
    }
    forall op | op in FileOperations(f) ensures op in w.shared.operations {
      DeclaredOperations(f, op);
      assert Effect(ServiceCall.EnsureOperation(op), w);
    }
  }

  lemma UndeclaredTenantStays(t: TenantState, f: BootstrapFile, id: string, t': TenantState)
    requires TenantGrows(t, [f], id, t') && id !in f.tenants
    ensures t' == t
  {
    hide Declared;
    forall call ensures !Declared([f], OnTenant(id, call)) {
      OneFile(f, OnTenant(id, call));
    }
    SamePairs(t'.assignments, t.assignments);
    SameTriples(t'.roleIds, t.roleIds);
    SameTriples(t'.userIds, t.userIds);
    forall r, op ensures ScopeAt(t'.grants, (r, op)) == ScopeAt(t.grants, (r, op)) {
    }
    ScopesDetermineMap(t'.grants, t.grants);
    forall s, op ensures ScopeAt(t'.overrides, (s, op)) == ScopeAt(t.overrides, (s, op)) {
    }
    ScopesDetermineMap(t'.overrides, t.overrides);
  }

  /** Two complete schedules of one file, neither of which fails, end alike. */
  lemma SchedulesConfluent(w: World, f: BootstrapFile, a: seq<ServiceCall>, b: seq<ServiceCall>)
    requires forall c :: c in a <==> Declares(f, c)
    requires forall c :: c in b <==> Declares(f, c)
    requires AllOk(w, a) && AllOk(w, b) && f.tenants.Keys <= w.tenants.Keys
    ensures Run(w, a) == Run(w, b)
  {
    ScheduleClosedForm(w, f, a);
    ScheduleClosedForm(w, f, b);
  }
}
