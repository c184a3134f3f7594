/** Registering Sforza's own operations and its administrator at startup. */
module Bootstrap {
  import opened Model
  import opened Strings
  import opened TenantSpec
  import opened Resolution
  import opened ServiceSpec
  import opened SyncSpec
  import opened Schedules
  import opened AllStores
  import opened Sync
  import Authz
  import TenantDocument
  import SqlTables

  function AdminFile(metaOps: seq<string>): Permissions {
    map op | op in metaOps :: PermissionSpec(FULL, [])
  }

  /** What every tenant is given. */
  function AdminTenant(metaOps: seq<string>, sub: string): TenantBootstrap {
    TenantBootstrap(map[ADMIN_ROLE := AdminFile(metaOps)], map[sub := UserBootstrap([ADMIN_ROLE], map[])])
  }

  /** The bootstrap written as a file: in every tenant, the administrator role with all meta operations at
      FULL scope, held by the administrator. */
  ghost function MetaFile(metaOps: seq<string>, tenants: set<string>, sub: string): BootstrapFile {
    BootstrapFile([], metaOps, map id | id in tenants :: AdminTenant(metaOps, sub))
  }

  ghost predicate ListsMeta(metaOps: seq<string>) {
    forall op :: op in metaOps <==> op in META_OPERATIONS
  }

  /** The state after bootstrapping: the file laid over the old state, and the administrator known. */
  ghost function Bootstrapped(w: World, metaOps: seq<string>, sub: string): World {
    var v := SyncedFile(w, MetaFile(metaOps, w.tenants.Keys, sub));
    v.(shared := WithUser(v.shared, sub))
  }

  /** The state after a bootstrap that stops for want of an administrator: the meta operations are registered. */
  ghost function OnlyRegistered(w: World, metaOps: seq<string>): World {
    SyncedFile(w, BootstrapFile([], metaOps, map[]))
  }

  ghost predicate Registered(w: World, metaOps: seq<string>) {
    forall op :: op in metaOps ==> op in w.shared.operations
  }

  lemma AdminGrantWorks(w: World, id: string, metaOps: seq<string>, op: string)
    requires id in w.tenants && ADMIN_ROLE in w.tenants[id].roles && Registered(w, metaOps) && op in metaOps
    ensures var o := ServiceStep(w, OnTenant(id, AdminCall.SetRolePermission(ADMIN_ROLE, op, FULL)));
      o.err == Ok && RolesOf(o.world) == RolesOf(w) && Registered(o.world, metaOps)
  {
  }

  lemma AdminRoleWorks(w: World, id: string, metaOps: seq<string>)
    requires id in w.tenants && Registered(w, metaOps)
    ensures var o := ServiceStep(w, OnTenant(id, AdminCall.EnsureRole(ADMIN_ROLE)));
      && o.err == Ok && Registered(o.world, metaOps) && o.world.tenants.Keys == w.tenants.Keys
      && ADMIN_ROLE in o.world.tenants[id].roles
  {
  }

  lemma AdminAssignmentWorks(w: World, id: string, metaOps: seq<string>, sub: string)
    requires id in w.tenants && ADMIN_ROLE in w.tenants[id].roles && Registered(w, metaOps) && sub != ""
    ensures var o := ServiceStep(w, OnTenant(id, AdminCall.AssignRole(sub, ADMIN_ROLE)));
      o.err == Ok && Registered(o.world, metaOps) && o.world.tenants.Keys == w.tenants.Keys
  {
  }

  lemma RegistrationWorks(w: World, op: string)
    requires OperationResource(op) != ""
    ensures var o := ServiceStep(w, ServiceCall.EnsureOperation(op));
      && o.err == Ok && op in o.world.shared.operations && w.shared.operations.Keys <= o.world.shared.operations.Keys
      && o.world.tenants == w.tenants
  {
    hide OperationResource;
  }

  lemma MetaNamed(metaOps: seq<string>, op: string)
    requires ListsMeta(metaOps) && op in metaOps
    ensures OperationResource(op) != ""
  {
    MetaOperationsAreWellNamed(op);
  }

  method BootstrapOperations(stores: Stores, metaOps: seq<string>, ghost w: World)
      returns (err: Error, ghost after: seq<ServiceCall>)
    requires stores.Valid() && stores.Abs() == w && ListsMeta(metaOps)
    modifies stores.Repr()
    ensures stores.Valid() && (forall o :: o in stores.Repr() && o !in old(stores.Repr()) ==> fresh(o))
    ensures err == Ok && stores.Abs() == Run(w, after) && AllOk(w, after)
    ensures Registered(stores.Abs(), metaOps) && stores.Abs().tenants == w.tenants
    ensures forall c :: c in after <==> exists op :: op in metaOps && c == ServiceCall.EnsureOperation(op)
  {
    hide Stores.Valid, Stores.Abs, Stores.Repr, Run, AllOk, ServiceStep, OperationResource, ListsMeta;
    err, after := Ok, [];
    NothingMade(w);
    for i := 0 to |metaOps|
      invariant err == Ok && stores.Valid() && (forall o :: o in stores.Repr() && o !in old(stores.Repr()) ==> fresh(o))
      invariant stores.Abs() == Run(w, after) && AllOk(w, after) && stores.Abs().tenants == w.tenants
      invariant forall k :: 0 <= k < i ==> metaOps[k] in stores.Abs().shared.operations
      invariant forall c :: c in after ==> exists op :: op in metaOps && c == ServiceCall.EnsureOperation(op)
      invariant forall k :: 0 <= k < i ==> ServiceCall.EnsureOperation(metaOps[k]) in after
    {
      MetaNamed(metaOps, metaOps[i]);
      RegistrationWorks(stores.Abs(), metaOps[i]);
      err, after := Make(stores, ServiceCall.EnsureOperation(metaOps[i]), w, after);
      if err != Ok {
        return;
      }
    }
  }

  /** The calls one tenant gets. */
  ghost predicate AdminTenantCall(c: ServiceCall, id: string, metaOps: seq<string>, sub: string) {
    || c == OnTenant(id, AdminCall.EnsureRole(ADMIN_ROLE))
    || c == OnTenant(id, AdminCall.AssignRole(sub, ADMIN_ROLE))
    || exists op :: op in metaOps && c == OnTenant(id, AdminCall.SetRolePermission(ADMIN_ROLE, op, FULL))
  }

  method BootstrapTenant(stores: Stores, id: string, metaOps: seq<string>, sub: string, ghost w: World,
                         ghost made: seq<ServiceCall>)
      returns (err: Error, ghost after: seq<ServiceCall>)
    requires stores.Valid() && stores.Abs() == Run(w, made) && AllOk(w, made)
    requires id in stores.Abs().tenants && Registered(stores.Abs(), metaOps) && sub != ""
    modifies stores.Repr()
    ensures stores.Valid() && (forall o :: o in stores.Repr() && o !in old(stores.Repr()) ==> fresh(o))
    ensures err == Ok && stores.Abs() == Run(w, after) && AllOk(w, after)
    ensures Registered(stores.Abs(), metaOps) && stores.Abs().tenants.Keys == old(stores.Abs()).tenants.Keys
    ensures forall c :: c in after <==> c in made || AdminTenantCall(c, id, metaOps, sub)
  {
    hide Stores.Valid, Stores.Abs, Stores.Repr, Run, AllOk, ServiceStep, Registered;
    AdminRoleWorks(stores.Abs(), id, metaOps);
    err, after := Make(stores, OnTenant(id, AdminCall.EnsureRole(ADMIN_ROLE)), w, made);
    if err != Ok {
      return;
    }
    ghost var then_ := stores.Abs();
    for i := 0 to |metaOps|
      invariant err == Ok && stores.Valid() && (forall o :: o in stores.Repr() && o !in old(stores.Repr()) ==> fresh(o))
      invariant stores.Abs() == Run(w, after) && AllOk(w, after)
      invariant Registered(stores.Abs(), metaOps) && RolesOf(stores.Abs()) == RolesOf(then_)
      invariant forall c :: c in made || c == OnTenant(id, AdminCall.EnsureRole(ADMIN_ROLE)) ==> c in after
      invariant forall c :: c in after ==>
        || c in made
        || c == OnTenant(id, AdminCall.EnsureRole(ADMIN_ROLE))
        || exists op :: op in metaOps && c == OnTenant(id, AdminCall.SetRolePermission(ADMIN_ROLE, op, FULL))
      invariant forall k :: 0 <= k < i ==>
        OnTenant(id, AdminCall.SetRolePermission(ADMIN_ROLE, metaOps[k], FULL)) in after
    {
      SameRoles(then_, stores.Abs(), id);
      AdminGrantWorks(stores.Abs(), id, metaOps, metaOps[i]);
      err, after := Make(stores, OnTenant(id, AdminCall.SetRolePermission(ADMIN_ROLE, metaOps[i], FULL)), w, after);
      if err != Ok {
        return;
      }
    }
    SameRoles(then_, stores.Abs(), id);
    assert RolesOf(stores.Abs()).Keys == stores.Abs().tenants.Keys && RolesOf(then_).Keys == then_.tenants.Keys;
    AdminAssignmentWorks(stores.Abs(), id, metaOps, sub);
    err, after := Make(stores, OnTenant(id, AdminCall.AssignRole(sub, ADMIN_ROLE)), w, after);
  }

  method BootstrapTenants(stores: Stores, ids: seq<string>, metaOps: seq<string>, sub: string, ghost w: World,
                          ghost made: seq<ServiceCall>)
      returns (err: Error, ghost after: seq<ServiceCall>)
    requires stores.Valid() && stores.Abs() == Run(w, made) && AllOk(w, made)
    requires (forall id :: id in ids ==> id in stores.Abs().tenants) && Registered(stores.Abs(), metaOps) && sub != ""
    modifies stores.Repr()
    ensures stores.Valid() && (forall o :: o in stores.Repr() && o !in old(stores.Repr()) ==> fresh(o))
    ensures err == Ok && stores.Abs() == Run(w, after) && AllOk(w, after)
    ensures forall c :: c in after <==> c in made || exists id :: id in ids && AdminTenantCall(c, id, metaOps, sub)
    ensures ids == [] ==> after == made
  {
    hide Stores.Valid, Stores.Abs, Stores.Repr, Run, AllOk, ServiceStep, Registered, AdminTenantCall;
    err, after := Ok, made;
    for i := 0 to |ids|
      invariant err == Ok && stores.Valid() && (forall o :: o in stores.Repr() && o !in old(stores.Repr()) ==> fresh(o))
      invariant stores.Abs() == Run(w, after) && AllOk(w, after)
      invariant Registered(stores.Abs(), metaOps) && stores.Abs().tenants.Keys == old(stores.Abs()).tenants.Keys
      invariant i == 0 ==> after == made
      invariant forall c :: c in after <==>
        c in made || exists id :: id in ids[..i] && AdminTenantCall(c, id, metaOps, sub)
    {
      assert forall id :: id in ids[..i + 1] <==> id in ids[..i] || id == ids[i];
      err, after := BootstrapTenant(stores, ids[i], metaOps, sub, w, after);
    }
    assert ids[..|ids|] == ids;
  }

  lemma MetaFileCalls(metaOps: seq<string>, tenants: set<string>, sub: string, c: ServiceCall)
    ensures Declares(MetaFile(metaOps, tenants, sub), c) <==>
      || (exists op :: op in metaOps && c == ServiceCall.EnsureOperation(op))
      || (tenants != {} && c == ServiceCall.EnsureUser(sub))
      || exists id :: id in tenants && AdminTenantCall(c, id, metaOps, sub)
  {
    hide TenantFileCall, AdminTenantCall, AdminTenant;
    forall id | id in tenants
      ensures TenantFileCall(c, id, AdminTenant(metaOps, sub)) <==>
        || (exists op :: op in metaOps && c == ServiceCall.EnsureOperation(op))
        || c == ServiceCall.EnsureUser(sub)
        || AdminTenantCall(c, id, metaOps, sub)
    {
      AdminFileCalls(metaOps, id, sub, c);
    }
    if tenants != {} {
      var id :| id in tenants;
      assert id in MetaFile(metaOps, tenants, sub).tenants;
    }
    assert forall id :: id in tenants ==> MetaFile(metaOps, tenants, sub).tenants[id] == AdminTenant(metaOps, sub);
  }

  lemma AdminFileCalls(metaOps: seq<string>, id: string, sub: string, c: ServiceCall)
    ensures TenantFileCall(c, id, AdminTenant(metaOps, sub)) <==>
      || (exists op :: op in metaOps && c == ServiceCall.EnsureOperation(op))
      || c == ServiceCall.EnsureUser(sub)
      || AdminTenantCall(c, id, metaOps, sub)
  {
    hide RoleCall, UserCall, AdminFile;
    var tb := AdminTenant(metaOps, sub);
    assert ADMIN_ROLE in tb.roles && tb.roles[ADMIN_ROLE] == AdminFile(metaOps);
    assert sub in tb.users && tb.users[sub] == UserBootstrap([ADMIN_ROLE], map[]);
    AdminRoleCalls(metaOps, id, c);
    AdminUserCalls(id, sub, c);
  }

  lemma AdminUserCalls(id: string, sub: string, c: ServiceCall)
    ensures UserCall(c, id, sub, UserBootstrap([ADMIN_ROLE], map[])) <==>
      c == ServiceCall.EnsureUser(sub) || c == OnTenant(id, AdminCall.AssignRole(sub, ADMIN_ROLE))
  {
    assert ADMIN_ROLE in [ADMIN_ROLE];
  }

  lemma AdminRoleCalls(metaOps: seq<string>, id: string, c: ServiceCall)
    ensures RoleCall(c, id, ADMIN_ROLE, AdminFile(metaOps)) <==>
      || (exists op :: op in metaOps && c == ServiceCall.EnsureOperation(op))
      || c == OnTenant(id, AdminCall.EnsureRole(ADMIN_ROLE))
      || exists op :: op in metaOps && c == OnTenant(id, AdminCall.SetRolePermission(ADMIN_ROLE, op, FULL))
  {
    forall op | op in metaOps
      ensures op in AdminFile(metaOps)
      ensures RolePermissionCall(c, id, ADMIN_ROLE, op, AdminFile(metaOps)[op]) <==>
        c == ServiceCall.EnsureOperation(op) || c == OnTenant(id, AdminCall.SetRolePermission(ADMIN_ROLE, op, FULL))
    {
    }
  }

  /** From any state, succeeds exactly when an administrator is named; otherwise it stops after the operations. */
  method BootstrapMeta(stores: Stores, adminSub: string) returns (err: Error, ghost metaOps: seq<string>)
    requires stores.Valid()
    modifies stores.Repr()
    ensures stores.Valid() && (forall o :: o in stores.Repr() && o !in old(stores.Repr()) ==> fresh(o))
    ensures ListsMeta(metaOps) && err == if adminSub != "" then Ok else Validation
    ensures stores.Abs() == if err == Ok then Bootstrapped(old(stores.Abs()), metaOps, adminSub)
      else OnlyRegistered(old(stores.Abs()), metaOps)
  {
    hide Stores.Valid, Stores.Abs, Stores.Repr, ListsMeta, Bootstrapped, OnlyRegistered;
    var names := stores.InOrder(META_OPERATIONS.Keys);
    MetaListed(names);
    metaOps := names;
    err := BootstrapWith(stores, adminSub, names);
  }

  lemma MetaListed(metaOps: seq<string>)
    requires forall op :: op in metaOps <==> op in META_OPERATIONS
    ensures ListsMeta(metaOps)
  {
    hide META_OPERATIONS;
  }

  method BootstrapWith(stores: Stores, adminSub: string, metaOps: seq<string>) returns (err: Error)
    requires stores.Valid() && ListsMeta(metaOps)
    modifies stores.Repr()
    ensures stores.Valid() && (forall o :: o in stores.Repr() && o !in old(stores.Repr()) ==> fresh(o))
    ensures err == if adminSub != "" then Ok else Validation
    ensures stores.Abs() == if err == Ok then Bootstrapped(old(stores.Abs()), metaOps, adminSub)
      else OnlyRegistered(old(stores.Abs()), metaOps)
  {
    hide Stores.Valid, Stores.Abs, Stores.Repr, Run, AllOk, ServiceStep, ListsMeta, Bootstrapped, OnlyRegistered,
      AdminTenantCall, StrictlySorted;
    ghost var w := stores.Abs();
    ghost var calls;
    err, calls := BootstrapOperations(stores, metaOps, w);
    ghost var registered := calls;
    EnsureUserWorks(stores.Abs(), adminSub);
    UserLeavesRest(stores.Abs(), adminSub, metaOps);
    RegistrationComplete(w, metaOps, calls);
    err, calls := Make(stores, ServiceCall.EnsureUser(adminSub), w, calls);
    if err != Ok {
      NobodyNamed(Run(w, registered), adminSub);
      return;
    }
    stores.TenantsOf();
    var ids := stores.TenantIDs();
    err, calls := BootstrapTenants(stores, ids, metaOps, adminSub, w, calls);
    BootstrapComplete(w, metaOps, adminSub, registered, calls, ids);
  }

  lemma NobodyNamed(w: World, sub: string)
    requires ServiceStep(w, ServiceCall.EnsureUser(sub)).err != Ok
    ensures ServiceStep(w, ServiceCall.EnsureUser(sub)) == WorldOutcome(w, Validation)
  {
  }

  lemma RegistrationComplete(w: World, metaOps: seq<string>, calls: seq<ServiceCall>)
    requires forall c :: c in calls <==> exists op :: op in metaOps && c == ServiceCall.EnsureOperation(op)
    requires AllOk(w, calls)
    ensures Run(w, calls) == OnlyRegistered(w, metaOps)
  {
    hide AllOk, SyncedFile, Run;
    ScheduleClosedForm(w, BootstrapFile([], metaOps, map[]), calls);
  }

  lemma UserLeavesRest(w: World, sub: string, metaOps: seq<string>)
    requires Registered(w, metaOps)
    ensures var v := ServiceStep(w, ServiceCall.EnsureUser(sub)).world; v.tenants == w.tenants && Registered(v, metaOps)
  {
  }

  lemma BootstrapComplete(w: World, metaOps: seq<string>, sub: string, registered: seq<ServiceCall>,
                          calls: seq<ServiceCall>, ids: seq<string>)
    requires sub != "" && forall id :: id in ids <==> id in w.tenants
    requires forall c :: c in registered <==> exists op :: op in metaOps && c == ServiceCall.EnsureOperation(op)
    requires forall c :: c in calls <==>
      c in registered + [ServiceCall.EnsureUser(sub)] || exists id :: id in ids && AdminTenantCall(c, id, metaOps, sub)
    requires AllOk(w, registered) && AllOk(w, calls)
    requires ids == [] ==> calls == registered + [ServiceCall.EnsureUser(sub)]
    ensures Run(w, calls) == Bootstrapped(w, metaOps, sub)
  {
    hide AllOk, Declares, MetaFile, SyncedFile, ListsMeta, AdminTenantCall, FileDelta;
    var f := MetaFile(metaOps, w.tenants.Keys, sub);
    MetaFileTenants(metaOps, w.tenants.Keys, sub);
    forall c ensures Declares(f, c) <==>
      || (exists op :: op in metaOps && c == ServiceCall.EnsureOperation(op))
      || (w.tenants.Keys != {} && c == ServiceCall.EnsureUser(sub))
      || exists id :: id in w.tenants.Keys && AdminTenantCall(c, id, metaOps, sub)
    {
      MetaFileCalls(metaOps, w.tenants.Keys, sub, c);
    }
    if ids == [] {
      assert w.tenants.Keys == {};
      ScheduleClosedForm(w, f, registered);
      RunAppend(w, registered, ServiceCall.EnsureUser(sub));
    } else {
      assert ids[0] in w.tenants;
      ScheduleClosedForm(w, f, calls);
      AdminKnown(w, metaOps, sub, ids[0]);
    }
  }

  lemma MetaFileTenants(metaOps: seq<string>, tenants: set<string>, sub: string)
    ensures MetaFile(metaOps, tenants, sub).tenants.Keys == tenants
  {
  }

  lemma AdminKnown(w: World, metaOps: seq<string>, sub: string, id: string)
    requires id in w.tenants
    ensures var v := SyncedFile(w, MetaFile(metaOps, w.tenants.Keys, sub)); v.(shared := WithUser(v.shared, sub)) == v
  {
    hide FileOperations, TenantDelta, TenantOverlay, NewResources, WithOperations, AdminFile;
    var f := MetaFile(metaOps, w.tenants.Keys, sub);
    assert id in f.tenants && sub in f.tenants[id].users;
    assert sub in FileUsers(f);
    var v := SyncedFile(w, f);
    assert v.shared.users + {sub} == v.shared.users;
  }

  // ---- What the administrator can do then ----

  /** In every tenant the administrator role has every meta operation at FULL scope, whatever it had before,
      and nobody else's grants or assignments move. */
  lemma BootstrappedTenant(w: World, metaOps: seq<string>, sub: string, id: string)
    requires id in w.tenants
    ensures id in Bootstrapped(w, metaOps, sub).tenants
    ensures var t, t' := w.tenants[id], Bootstrapped(w, metaOps, sub).tenants[id];
      && t'.roles == t.roles + {ADMIN_ROLE}
      && t'.assignments == t.assignments + {(sub, ADMIN_ROLE)}
      && (forall r, op :: ScopeAt(t'.grants, (r, op)) ==
            if r == ADMIN_ROLE && op in metaOps then Some(FULL) else ScopeAt(t.grants, (r, op)))
      && t'.roleIds == t.roleIds && t'.overrides == t.overrides && t'.userIds == t.userIds
  {
    hide SharedOverlay, TenantOverlay, TenantDelta, FileOperations, FileUsers, AdminTenant;
    var d := TenantDelta(AdminTenant(metaOps, sub));
    assert Bootstrapped(w, metaOps, sub).tenants[id] == TenantOverlay(w.tenants[id], d);
    AdminDelta(metaOps, sub);
    AdminOverlay(w.tenants[id], d, metaOps, sub);
  }

  lemma AdministratorByName(w: World, metaOps: seq<string>, sub: string, id: string)
    requires id in w.tenants
    ensures id in Bootstrapped(w, metaOps, sub).tenants
    ensures var t' := Bootstrapped(w, metaOps, sub).tenants[id];
      "authorization:admin" in t'.roles && (sub, "authorization:admin") in t'.assignments
  {
    hide Bootstrapped;
    BootstrappedTenant(w, metaOps, sub, id);
  }

  lemma AdminOverlay(t: TenantState, d: TenantState, metaOps: seq<string>, sub: string)
    requires d.roles == {ADMIN_ROLE} && d.assignments == {(sub, ADMIN_ROLE)}
    requires forall r, op :: ScopeAt(d.grants, (r, op)) == if r == ADMIN_ROLE && op in metaOps then Some(FULL) else None
    requires d.roleIds == {} && d.overrides == map[] && d.userIds == {}
    ensures var t' := TenantOverlay(t, d);
      && t'.roles == t.roles + {ADMIN_ROLE}
      && t'.assignments == t.assignments + {(sub, ADMIN_ROLE)}
      && (forall r, op :: ScopeAt(t'.grants, (r, op)) ==
            if r == ADMIN_ROLE && op in metaOps then Some(FULL) else ScopeAt(t.grants, (r, op)))
      && t'.roleIds == t.roleIds && t'.overrides == t.overrides && t'.userIds == t.userIds
  {
    forall r, op ensures ScopeAt(t.grants + d.grants, (r, op)) ==
      if r == ADMIN_ROLE && op in metaOps then Some(FULL) else ScopeAt(t.grants, (r, op))
    {
      assert ScopeAt(d.grants, (r, op)) == if r == ADMIN_ROLE && op in metaOps then Some(FULL) else None;
    }
    assert t.overrides + map[] == t.overrides;
  }

  lemma AdminDelta(metaOps: seq<string>, sub: string)
    ensures var d := TenantDelta(AdminTenant(metaOps, sub));
      && d.roles == {ADMIN_ROLE} && d.assignments == {(sub, ADMIN_ROLE)}
      && (forall r, op :: ScopeAt(d.grants, (r, op)) == if r == ADMIN_ROLE && op in metaOps then Some(FULL) else None)
      && d.roleIds == {} && d.overrides == map[] && d.userIds == {}
  {
    var tb := AdminTenant(metaOps, sub);
    var d := TenantDelta(tb);
    AdminAssignments(metaOps, sub);
    hide TenantDelta;
    forall r, op
      ensures ScopeAt(d.grants, (r, op)) == if r == ADMIN_ROLE && op in metaOps then Some(FULL) else None
    {
      DeltaScopes(tb, r, op);
    }
  }

  lemma AdminAssignments(metaOps: seq<string>, sub: string)
    ensures var d := TenantDelta(AdminTenant(metaOps, sub));
      && d.roles == {ADMIN_ROLE} && d.assignments == {(sub, ADMIN_ROLE)}
      && d.roleIds == {} && d.overrides == map[] && d.userIds == {}
  {
    var tb := AdminTenant(metaOps, sub);
    var d := TenantDelta(tb);
    assert sub in tb.users && ADMIN_ROLE in tb.users[sub].roles;
    assert (sub, ADMIN_ROLE) in d.assignments;
  }

  /** After bootstrapping, the administrator is authorized for a meta operation in a tenant exactly when no
      override of their own says less. */
  lemma AdministratorIsAuthorized(w: World, metaOps: seq<string>, sub: string, id: string, op: string)
    requires id in w.tenants && ListsMeta(metaOps) && op in metaOps
    ensures id in Bootstrapped(w, metaOps, sub).tenants
    ensures HoldsFull(Bootstrapped(w, metaOps, sub).tenants[id], sub, op) <==>
      ((sub, op) in w.tenants[id].overrides ==> w.tenants[id].overrides[(sub, op)] == FULL)
  {
    hide Bootstrapped, ListsMeta;
    BootstrappedTenant(w, metaOps, sub, id);
    var t' := Bootstrapped(w, metaOps, sub).tenants[id];
    assert (sub, ADMIN_ROLE) in t'.assignments;
    assert ScopeAt(t'.grants, (ADMIN_ROLE, op)) == Some(FULL);
    assert RoleGives(t', sub, op, FULL);
  }

  /** The order in which the meta operations are listed makes no difference. */
  lemma AnyListWillDo(w: World, a: seq<string>, b: seq<string>, sub: string)
    requires ListsMeta(a) && ListsMeta(b)
    ensures Bootstrapped(w, a, sub) == Bootstrapped(w, b, sub)
  {
    hide META_OPERATIONS, Overlay, TenantDelta;
    assert forall op :: op in a <==> op in b;
    assert AdminFile(a) == AdminFile(b);
    var fa, fb := MetaFile(a, w.tenants.Keys, sub), MetaFile(b, w.tenants.Keys, sub);
    assert FileOperations(fa) == FileOperations(fb);
    assert FileDelta(fa) == FileDelta(fb);
  }

  /** Everything bootstrapping lays over the old state. */
  ghost function AdminDeltaOf(metaOps: seq<string>, tenants: set<string>, sub: string): Delta {
    Join(FileDelta(MetaFile(metaOps, tenants, sub)), Delta({sub}, {}, {}, map[]))
  }

  lemma BootstrappedIsOneOverlay(w: World, metaOps: seq<string>, sub: string)
    ensures Bootstrapped(w, metaOps, sub) == Overlay(w, AdminDeltaOf(metaOps, w.tenants.Keys, sub))
  {
    hide Overlay, FileDelta;
    var d := FileDelta(MetaFile(metaOps, w.tenants.Keys, sub));
    UserOverlay(SyncedFile(w, MetaFile(metaOps, w.tenants.Keys, sub)), sub);
    OverlayJoins(w, d, Delta({sub}, {}, {}, map[]));
  }

  /** Bootstrapping once more changes nothing. */
  lemma BootstrapIsIdempotent(w: World, metaOps: seq<string>, sub: string)
    ensures Bootstrapped(Bootstrapped(w, metaOps, sub), metaOps, sub) == Bootstrapped(w, metaOps, sub)
  {
    hide Overlay, AdminDeltaOf, Bootstrapped;
    var d := AdminDeltaOf(metaOps, w.tenants.Keys, sub);
    BootstrappedIsOneOverlay(w, metaOps, sub);
    OverlayKeys(w, d);
    BootstrappedIsOneOverlay(Bootstrapped(w, metaOps, sub), metaOps, sub);
    OverlayIsIdempotent(w, d);
  }

  /** What one start of the service does: the administrator first, then the files. */
  ghost function Started(w: World, metaOps: seq<string>, sub: string, files: seq<BootstrapFile>): World {
    Synced(Bootstrapped(w, metaOps, sub), files)
  }

  /** A restart with the same settings succeeds and ends where the first start did. That holds even where a file
      takes back some of what bootstrapping gives, so that bootstrapping itself is not without effect then. */
  lemma RestartChangesNothing(w: World, metaOps: seq<string>, sub: string, files: seq<BootstrapFile>)
    requires AllSyncable(Bootstrapped(w, metaOps, sub), files)
    ensures var once := Started(w, metaOps, sub, files);
      AllSyncable(Bootstrapped(once, metaOps, sub), files) && Started(once, metaOps, sub, files) == once
  {
    hide Overlay, AdminDeltaOf, Bootstrapped, AllSyncable, HasRolesOf;
    var b := Bootstrapped(w, metaOps, sub);
    var once := Synced(b, files);
    var d, e := AdminDeltaOf(metaOps, w.tenants.Keys, sub), JoinAll(files);
    BootstrappedIsOneOverlay(w, metaOps, sub);
    SyncedIsOneOverlay(b, files);
    OverlayJoins(w, d, e);
    OverlayKeys(w, Join(d, e));
    BootstrappedIsOneOverlay(once, metaOps, sub);
    var again := Bootstrapped(once, metaOps, sub);
    SyncedIsOneOverlay(again, files);
    OverlayJoins(once, d, e);
    OverlayIsIdempotent(w, Join(d, e));
    OverlaysKeepRoles(b, e, d);
    MoreRolesKeepSyncable(b, again, files);
  }

  lemma OverlaysKeepRoles(w: World, a: Delta, b: Delta)
    ensures HasRolesOf(w, Overlay(Overlay(w, a), b))
  {
  }

  lemma OverlayKeys(w: World, d: Delta)
    ensures Overlay(w, d).tenants.Keys == w.tenants.Keys
  {
  }

  lemma UserOverlay(v: World, sub: string)
    ensures v.(shared := WithUser(v.shared, sub)) == Overlay(v, Delta({sub}, {}, {}, map[]))
  {
    var o := Overlay(v, Delta({sub}, {}, {}, map[]));
    assert o.shared.operations == v.shared.operations;
    assert o.shared.resources == v.shared.resources;
    assert o.tenants == v.tenants;
  }

  // ---- As the service runs it ----

  /** Bootstrapping twice over: the second time succeeds too and changes nothing. */
  method BootstrapTwice(stores: Stores, sub: string)
      returns (first: Error, second: Error, ghost once: World, ghost metaOps: seq<string>)
    requires stores.Valid()
    modifies stores.Repr()
    ensures stores.Valid() && ListsMeta(metaOps)
    ensures first == second == if sub != "" then Ok else Validation
    ensures first == Ok ==> stores.Abs() == once == Bootstrapped(old(stores.Abs()), metaOps, sub)
  {
    hide Stores.Valid, Stores.Abs, Stores.Repr, ListsMeta, Bootstrapped, OnlyRegistered;
    ghost var w, b := stores.Abs(), [];
    first, metaOps := BootstrapMeta(stores, sub);
    once := stores.Abs();
    second, b := BootstrapMeta(stores, sub);
    AnyListWillDo(once, b, metaOps, sub);
    BootstrapIsIdempotent(w, metaOps, sub);
  }

  /** One start of the service: it fails if no administrator is named or the files cannot be applied. */
  method Start(stores: Stores, sub: string, files: seq<BootstrapFile>) returns (err: Error, ghost metaOps: seq<string>)
    requires stores.Valid()
    modifies stores.Repr()
    ensures stores.Valid() && (forall o :: o in stores.Repr() && o !in old(stores.Repr()) ==> fresh(o))
      && ListsMeta(metaOps)
    ensures err == Ok <==> sub != "" && AllSyncable(Bootstrapped(old(stores.Abs()), metaOps, sub), files)
    ensures err == Ok ==> stores.Abs() == Started(old(stores.Abs()), metaOps, sub, files)
  {
    hide Stores.Valid, Stores.Abs, Stores.Repr, ListsMeta, Bootstrapped, OnlyRegistered, AllSyncable, Synced, Grows,
      Run;
    err, metaOps := BootstrapMeta(stores, sub);
    if err != Ok {
      return;
    }
    ghost var calls;
    err, calls := Sync.Sync(stores, files);
  }

  /** Two starts in a row: if the first succeeds so does the second, and it leaves everything as the first did. */
  method StartTwice(stores: Stores, sub: string, files: seq<BootstrapFile>)
      returns (first: Error, second: Error, ghost once: World, ghost metaOps: seq<string>)
    requires stores.Valid()
    modifies stores.Repr()
    ensures stores.Valid() && ListsMeta(metaOps)
    ensures first == Ok <==> sub != "" && AllSyncable(Bootstrapped(old(stores.Abs()), metaOps, sub), files)
    ensures first == Ok ==> second == Ok && stores.Abs() == once == Started(old(stores.Abs()), metaOps, sub, files)
  {
    hide Stores.Valid, Stores.Abs, Stores.Repr, ListsMeta, Bootstrapped, OnlyRegistered, AllSyncable, Synced;
    ghost var w, b := stores.Abs(), [];
    first, metaOps := Start(stores, sub, files);
    once := stores.Abs();
    if first == Ok {
      RestartChangesNothing(w, metaOps, sub, files);
    }
    second, b := Start(stores, sub, files);
    AnyListWillDo(once, b, metaOps, sub);
  }

  /** Whatever state the service starts from, the administrator is then authorized for a meta operation in a tenant
      exactly when no override of their own there says less. */
  method BootstrapThenAuthorize(stores: Stores, sub: string, id: string, op: string) returns (err: Error, allowed: bool)
    requires stores.Valid() && id in stores.tenants && op in META_OPERATIONS
    modifies stores.Repr()
    ensures err == Ok <==> sub != ""
    ensures id in old(stores.Abs()).tenants
    ensures err == Ok ==> (allowed <==>
      var t := old(stores.Abs()).tenants[id]; (sub, op) in t.overrides ==> t.overrides[(sub, op)] == FULL)
  {
    hide Stores.Valid, Stores.Abs, Stores.Repr, Bootstrapped, OnlyRegistered, HoldsFull, META_OPERATIONS,
      TenantDocument.Denotes, TenantDocument.Lean, SqlTables.Intact, SqlTables.Meaning;
    ghost var w := stores.Abs();
    ghost var metaOps;
    stores.TenantsOf();
    err, metaOps := BootstrapMeta(stores, sub);
    if err != Ok {
      return err, false;
    }
    stores.TenantOf(id);
    allowed := Authz.Authorize(stores.tenants[id], sub, op);
    AdministratorIsAuthorized(w, metaOps, sub, id, op);
  }

  /** So for everything the service guards, named by resource and action. */
  method BootstrapThenAuthorizeGuarded(stores: Stores, sub: string, id: string, res: string, act: string)
      returns (err: Error, allowed: bool)
    requires stores.Valid() && id in stores.tenants && Guarded(res, act)
    modifies stores.Repr()
    ensures err == Ok <==> sub != ""
    ensures id in old(stores.Abs()).tenants
    ensures err == Ok ==> (allowed <==>
      var t, op := old(stores.Abs()).tenants[id], res + ":" + act;
      (sub, op) in t.overrides ==> t.overrides[(sub, op)] == FULL)
  {
    hide Stores.Valid, Stores.Abs, Stores.Repr, Guarded, META_OPERATIONS;
    GuardedIsMeta(res, act);
    err, allowed := BootstrapThenAuthorize(stores, sub, id, res + ":" + act);
  }

  /** Everything guarded is registered afterwards; what was not before, under the resource it is about. */
  lemma BootstrapRegisters(w: World, metaOps: seq<string>, sub: string, res: string, act: string)
    requires ListsMeta(metaOps) && Guarded(res, act)
    ensures var op, before := res + ":" + act, w.shared.operations;
      var after := Bootstrapped(w, metaOps, sub).shared.operations;
      op in after && after[op] == (if op in before then before[op] else res)
  {
    var op := res + ":" + act;
    GuardedIsMeta(res, act);
    GuardedResource(res, act);
    hide META_OPERATIONS, OperationResource, Guarded, AdminTenant, TenantDelta;
    var f := MetaFile(metaOps, w.tenants.Keys, sub);
    assert op in f.operations && op in FileOperations(f);
  }

  lemma GuardedResource(res: string, act: string)
    requires Guarded(res, act)
    ensures OperationResource(res + ":" + act) == res
  {
    assert res != "" && ':' !in res;
    ResourceOfName(res + ":" + act, res, act);
  }
}
