/** Applying bootstrap files: nested loops over maps in no particular order, one administrative call at a time. */
module Sync {
  import opened Model
  import opened SharedSpec
  import opened TenantSpec
  import opened ServiceSpec
  import opened SyncSpec
  import opened Schedules
  import opened AllStores
  import TenantDocument
  import SqlTables

  ghost function RolesOf(w: World): map<string, set<string>> {
    map id | id in w.tenants :: w.tenants[id].roles
  }

  lemma AdminRolesAfter(s: SharedState, t: TenantState, call: AdminCall)
    requires IsAdding(OnTenant("", call))
    ensures AdminStep(s, t, call).tenant.roles ==
      if call.EnsureRole? && call.name != "" then t.roles + {call.name} else t.roles
  {
  }

  /** Which roles exist changes only by an EnsureRole. */
  lemma RolesAfter(w: World, c: ServiceCall)
    requires IsAdding(c)
    ensures c.OnTenant? && c.call.EnsureRole? && c.call.name != "" && c.tenant in w.tenants ==>
      RolesOf(ServiceStep(w, c).world) == RolesOf(w)[c.tenant := w.tenants[c.tenant].roles + {c.call.name}]
    ensures !(c.OnTenant? && c.call.EnsureRole?) ==> RolesOf(ServiceStep(w, c).world) == RolesOf(w)
  {
    hide AdminStep;
    if c.OnTenant? && c.tenant in w.tenants {
      AdminRolesAfter(w.shared, w.tenants[c.tenant], c.call);
    }
  }

  /** Makes one call and notes it: `made` lists the calls since the world was w. */
  method Make(stores: Stores, c: ServiceCall, ghost w: World, ghost made: seq<ServiceCall>)
      returns (err: Error, ghost after: seq<ServiceCall>)
    requires stores.Valid() && stores.Abs() == Run(w, made)
    modifies stores.Repr()
    ensures stores.Valid() && (forall o :: o in stores.Repr() && o !in old(stores.Repr()) ==> fresh(o))
    ensures WorldOutcome(stores.Abs(), err) == ServiceStep(old(stores.Abs()), c)
    ensures after == made + [c] && stores.Abs() == Run(w, after)
    ensures AllOk(w, made) && err == Ok ==> AllOk(w, after)
  {
    RunAppend(w, made, c);
    err := stores.Do(c);
    after := made + [c];
  }

  lemma EnsureOperationWorks(w: World, op: string)
    ensures ServiceStep(w, ServiceCall.EnsureOperation(op)).err
      == if OperationResource(op) != "" then Ok else Validation
    ensures OperationResource(op) != "" ==>
      op in ServiceStep(w, ServiceCall.EnsureOperation(op)).world.shared.operations
    ensures RolesOf(ServiceStep(w, ServiceCall.EnsureOperation(op)).world) == RolesOf(w)
  {
    hide OperationResource;
  }

  lemma RoleGrantWorks(w: World, id: string, role: string, op: string, spec: PermissionSpec)
    requires id in w.tenants && role in w.tenants[id].roles && op in w.shared.operations && ValidScope(spec.scope)
    ensures var o := ServiceStep(w, OnTenant(id, AdminCall.SetRolePermission(role, op, spec.scope)));
      && o.err == Ok && RolesOf(o.world) == RolesOf(w) && id in o.world.tenants
      && role in o.world.tenants[id].roles && (role, op) in o.world.tenants[id].grants
  {
  }

  lemma RoleIdsWork(w: World, id: string, role: string, op: string, ids: seq<string>)
    requires id in w.tenants && role in w.tenants[id].roles && (role, op) in w.tenants[id].grants
    ensures var o := ServiceStep(w, OnTenant(id, AdminCall.UpdateRoleIDs(role, op, ids, [])));
      o.err == Ok && RolesOf(o.world) == RolesOf(w)
  {
    hide AdminStep;
    UpdateNeedsPermission(w.shared, w.tenants[id], AdminCall.UpdateRoleIDs(role, op, ids, []));
    RolesAfter(w, OnTenant(id, AdminCall.UpdateRoleIDs(role, op, ids, [])));
  }

  lemma UserGrantWorks(w: World, id: string, sub: string, op: string, spec: PermissionSpec)
    requires id in w.tenants && sub != "" && op in w.shared.operations && ValidScope(spec.scope)
    ensures var o := ServiceStep(w, OnTenant(id, AdminCall.SetUserPermission(sub, op, spec.scope)));
      o.err == Ok && RolesOf(o.world) == RolesOf(w) && id in o.world.tenants
        && (sub, op) in o.world.tenants[id].overrides
  {
  }

  lemma UserIdsWork(w: World, id: string, sub: string, op: string, ids: seq<string>)
    requires id in w.tenants && (sub, op) in w.tenants[id].overrides
    ensures var o := ServiceStep(w, OnTenant(id, AdminCall.UpdateUserIDs(sub, op, ids, [])));
      o.err == Ok && RolesOf(o.world) == RolesOf(w)
  {
    hide AdminStep;
    UpdateNeedsPermission(w.shared, w.tenants[id], AdminCall.UpdateUserIDs(sub, op, ids, []));
    RolesAfter(w, OnTenant(id, AdminCall.UpdateUserIDs(sub, op, ids, [])));
  }

  method SyncRolePermission(stores: Stores, id: string, role: string, op: string, spec: PermissionSpec, ghost w: World,
                            ghost made: seq<ServiceCall>)
      returns (err: Error, ghost after: seq<ServiceCall>)
    requires stores.Valid() && stores.Abs() == Run(w, made)
    requires id in stores.Abs().tenants && role in stores.Abs().tenants[id].roles
    modifies stores.Repr()
    ensures stores.Valid() && (forall o :: o in stores.Repr() && o !in old(stores.Repr()) ==> fresh(o))
      && stores.Abs() == Run(w, after)
    ensures RolesOf(stores.Abs()) == RolesOf(old(stores.Abs()))
    ensures err == if SpecOk(op, spec) then Ok else Validation
    ensures err == Ok && AllOk(w, made) ==> AllOk(w, after)
    ensures forall c :: c in made ==> c in after
    ensures forall c :: c in after ==> c in made || RolePermissionCall(c, id, role, op, spec)
    ensures err == Ok ==> forall c :: RolePermissionCall(c, id, role, op, spec) ==> c in after
    ensures if err == Ok then after == made + RolePermissionCalls(id, role, op, spec)
      else after == made || after == made + [ServiceCall.EnsureOperation(op)]
  {
    hide Stores.Valid, Stores.Abs, Stores.Repr, Run, AllOk, ServiceStep, OperationResource;
    after := made;
    if !ValidScope(spec.scope) {
      return Validation, after;
    }
    EnsureOperationWorks(stores.Abs(), op);
    err, after := Make(stores, ServiceCall.EnsureOperation(op), w, after);
    if err != Ok {
      return;
    }
    SameRoles(old(stores.Abs()), stores.Abs(), id);
    RoleGrantWorks(stores.Abs(), id, role, op, spec);
    err, after := Make(stores, OnTenant(id, AdminCall.SetRolePermission(role, op, spec.scope)), w, after);
    if |spec.ids| > 0 {
      RoleIdsWork(stores.Abs(), id, role, op, spec.ids);
      err, after := Make(stores, OnTenant(id, AdminCall.UpdateRoleIDs(role, op, spec.ids, [])), w, after);
    }
  }

  lemma SameRoles(a: World, b: World, id: string)
    requires id in a.tenants && RolesOf(a) == RolesOf(b)
    ensures id in b.tenants && b.tenants[id].roles == a.tenants[id].roles
  {
    assert id in RolesOf(a) && RolesOf(a)[id] == a.tenants[id].roles;
    assert id in RolesOf(b) && RolesOf(b)[id] == b.tenants[id].roles;
  }

  method SyncUserPermission(stores: Stores, id: string, sub: string, op: string, spec: PermissionSpec, ghost w: World,
                            ghost made: seq<ServiceCall>)
      returns (err: Error, ghost after: seq<ServiceCall>)
    requires stores.Valid() && stores.Abs() == Run(w, made)
    requires id in stores.Abs().tenants && sub != ""
    modifies stores.Repr()
    ensures stores.Valid() && (forall o :: o in stores.Repr() && o !in old(stores.Repr()) ==> fresh(o))
      && stores.Abs() == Run(w, after)
    ensures RolesOf(stores.Abs()) == RolesOf(old(stores.Abs()))
    ensures err == if SpecOk(op, spec) then Ok else Validation
    ensures err == Ok && AllOk(w, made) ==> AllOk(w, after)
    ensures forall c :: c in made ==> c in after
    ensures forall c :: c in after ==> c in made || UserPermissionCall(c, id, sub, op, spec)
    ensures err == Ok ==> forall c :: UserPermissionCall(c, id, sub, op, spec) ==> c in after
    ensures if err == Ok then after == made + UserPermissionCalls(id, sub, op, spec)
      else after == made || after == made + [ServiceCall.EnsureOperation(op)]
  {
    hide Stores.Valid, Stores.Abs, Stores.Repr, Run, AllOk, ServiceStep, OperationResource;
    after := made;
    if !ValidScope(spec.scope) {
      return Validation, after;
    }
    EnsureOperationWorks(stores.Abs(), op);
    err, after := Make(stores, ServiceCall.EnsureOperation(op), w, after);
    if err != Ok {
      return;
    }
    SameRoles(old(stores.Abs()), stores.Abs(), id);
    UserGrantWorks(stores.Abs(), id, sub, op, spec);
    err, after := Make(stores, OnTenant(id, AdminCall.SetUserPermission(sub, op, spec.scope)), w, after);
    if |spec.ids| > 0 {
      UserIdsWork(stores.Abs(), id, sub, op, spec.ids);
      err, after := Make(stores, OnTenant(id, AdminCall.UpdateUserIDs(sub, op, spec.ids, [])), w, after);
    }
  }

  lemma EnsureRoleWorks(w: World, id: string, role: string)
    requires id in w.tenants
    ensures var o := ServiceStep(w, OnTenant(id, AdminCall.EnsureRole(role)));
      && o.err == (if role != "" then Ok else Validation)
      && (role != "" ==> RolesOf(o.world) == RolesOf(w)[id := w.tenants[id].roles + {role}])
      && (role == "" ==> o.world == w)
  {
  }

  method SyncRole(stores: Stores, id: string, role: string, perms: Permissions, ghost w: World,
                  ghost made: seq<ServiceCall>)
      returns (err: Error, ghost after: seq<ServiceCall>)
    requires stores.Valid() && stores.Abs() == Run(w, made) && id in stores.Abs().tenants
    modifies stores.Repr()
    ensures stores.Valid() && (forall o :: o in stores.Repr() && o !in old(stores.Repr()) ==> fresh(o))
      && stores.Abs() == Run(w, after)
    ensures err == Ok ==> RolesOf(stores.Abs()) == RolesOf(old(stores.Abs()))[id := old(stores.Abs()).tenants[id].roles
      + {role}]
    ensures err == if RoleSyncable(role, perms) then Ok else Validation
    ensures err == Ok && AllOk(w, made) ==> AllOk(w, after)
    ensures forall c :: c in made ==> c in after
    ensures forall c :: c in after ==> c in made || RoleCall(c, id, role, perms)
    ensures err == Ok ==> forall c :: RoleCall(c, id, role, perms) ==> c in after
  {
    hide Stores.Valid, Stores.Abs, Stores.Repr, Run, AllOk, ServiceStep, SpecOk, RolePermissionCall;
    EnsureRoleWorks(stores.Abs(), id, role);
    err, after := Make(stores, OnTenant(id, AdminCall.EnsureRole(role)), w, made);
    if err != Ok {
      return;
    }
    ghost var roles := RolesOf(stores.Abs());
    RoleNowKnown(stores.Abs(), old(stores.Abs()), id, role);
    var todo := perms.Keys;
    while todo != {}
      invariant todo <= perms.Keys && err == Ok
      invariant stores.Valid() && (forall o :: o in stores.Repr() && o !in old(stores.Repr()) ==> fresh(o))
        && stores.Abs() == Run(w, after)
      invariant RolesOf(stores.Abs()) == roles
      invariant AllOk(w, made) ==> AllOk(w, after)
      invariant forall c :: c in made || c == OnTenant(id, AdminCall.EnsureRole(role)) ==> c in after
      invariant forall c :: c in after ==> c in made || RoleCall(c, id, role, perms)
      invariant forall op :: op in perms && op !in todo ==> SpecOk(op, perms[op])
      invariant forall op, c :: op in perms && op !in todo && RolePermissionCall(c, id, role, op, perms[op]) ==>
        c in after
      decreases todo
    {
      var op :| op in todo;
      todo := todo - {op};
      RoleStillKnown(stores.Abs(), roles, id, role);
      err, after := SyncRolePermission(stores, id, role, op, perms[op], w, after);
      if err != Ok {
        return;
      }
    }
  }

  lemma RoleNowKnown(now: World, before: World, id: string, role: string)
    requires id in before.tenants && RolesOf(now) == RolesOf(before)[id := before.tenants[id].roles + {role}]
    ensures id in RolesOf(now) && role in RolesOf(now)[id]
  {
  }

  lemma RoleStillKnown(now: World, roles: map<string, set<string>>, id: string, role: string)
    requires RolesOf(now) == roles && id in roles && role in roles[id]
    ensures id in now.tenants && role in now.tenants[id].roles
  {
  }

  lemma EnsureUserWorks(w: World, sub: string)
    ensures var o := ServiceStep(w, ServiceCall.EnsureUser(sub));
      o.err == (if sub != "" then Ok else Validation) && RolesOf(o.world) == RolesOf(w)
  {
  }

  lemma AssignRoleWorks(w: World, id: string, sub: string, role: string)
    requires id in w.tenants && sub != ""
    ensures var o := ServiceStep(w, OnTenant(id, AdminCall.AssignRole(sub, role)));
      o.err == (if role in w.tenants[id].roles then Ok else NotFound) && RolesOf(o.world) == RolesOf(w)
  {
  }

  method SyncUserRoles(stores: Stores, id: string, sub: string, roles: seq<string>, ghost w: World,
                       ghost made: seq<ServiceCall>)
      returns (err: Error, ghost after: seq<ServiceCall>)
    requires stores.Valid() && stores.Abs() == Run(w, made) && id in stores.Abs().tenants && sub != ""
    modifies stores.Repr()
    ensures stores.Valid() && (forall o :: o in stores.Repr() && o !in old(stores.Repr()) ==> fresh(o))
      && stores.Abs() == Run(w, after)
    ensures RolesOf(stores.Abs()) == RolesOf(old(stores.Abs()))
    ensures err == if exists r :: r in roles && r !in old(stores.Abs()).tenants[id].roles then NotFound else Ok
    ensures err == Ok && AllOk(w, made) ==> AllOk(w, after)
    ensures forall c :: c in made ==> c in after
    ensures forall c :: c in after ==>
      c in made || exists r :: r in roles && c == OnTenant(id, AdminCall.AssignRole(sub, r))
    ensures err == Ok ==> forall r :: r in roles ==> OnTenant(id, AdminCall.AssignRole(sub, r)) in after
  {
    hide Stores.Valid, Stores.Abs, Stores.Repr, Run, AllOk, ServiceStep;
    err, after := Ok, made;
    ghost var known := old(stores.Abs()).tenants[id].roles;
    for i := 0 to |roles|
      invariant stores.Valid() && (forall o :: o in stores.Repr() && o !in old(stores.Repr()) ==> fresh(o))
        && stores.Abs() == Run(w, after)
      invariant RolesOf(stores.Abs()) == RolesOf(old(stores.Abs()))
      invariant err == Ok && (AllOk(w, made) ==> AllOk(w, after))
      invariant forall c :: c in made ==> c in after
      invariant forall c :: c in after ==>
        c in made || exists r :: r in roles && c == OnTenant(id, AdminCall.AssignRole(sub, r))
      invariant forall k :: 0 <= k < i ==>
        roles[k] in known && OnTenant(id, AdminCall.AssignRole(sub, roles[k])) in after
    {
      SameRoles(old(stores.Abs()), stores.Abs(), id);
      AssignRoleWorks(stores.Abs(), id, sub, roles[i]);
      err, after := Make(stores, OnTenant(id, AdminCall.AssignRole(sub, roles[i])), w, after);
      if err != Ok {
        return;
      }
    }
  }

  method SyncUser(stores: Stores, id: string, sub: string, ub: UserBootstrap, ghost w: World,
                  ghost made: seq<ServiceCall>)
      returns (err: Error, ghost after: seq<ServiceCall>)
    requires stores.Valid() && stores.Abs() == Run(w, made) && id in stores.Abs().tenants
    modifies stores.Repr()
    ensures stores.Valid() && (forall o :: o in stores.Repr() && o !in old(stores.Repr()) ==> fresh(o))
      && stores.Abs() == Run(w, after)
    ensures RolesOf(stores.Abs()) == RolesOf(old(stores.Abs()))
    ensures err == UserError(old(stores.Abs()).tenants[id].roles, sub, ub)
    ensures err == Ok && AllOk(w, made) ==> AllOk(w, after)
    ensures forall c :: c in made ==> c in after
    ensures forall c :: c in after ==> c in made || UserCall(c, id, sub, ub)
    ensures err == Ok ==> forall c :: UserCall(c, id, sub, ub) ==> c in after
  {
    hide Stores.Valid, Stores.Abs, Stores.Repr, Run, AllOk, ServiceStep, SpecOk, UserPermissionCall;
    EnsureUserWorks(stores.Abs(), sub);
    err, after := Make(stores, ServiceCall.EnsureUser(sub), w, made);
    if err != Ok {
      return;
    }
    SameRoles(old(stores.Abs()), stores.Abs(), id);
    err, after := SyncUserRoles(stores, id, sub, ub.roles, w, after);
    if err != Ok {
      return;
    }
    var todo := ub.permissions.Keys;
    while todo != {}
      invariant todo <= ub.permissions.Keys && err == Ok
      invariant stores.Valid() && (forall o :: o in stores.Repr() && o !in old(stores.Repr()) ==> fresh(o))
        && stores.Abs() == Run(w, after)
      invariant RolesOf(stores.Abs()) == RolesOf(old(stores.Abs()))
      invariant AllOk(w, made) ==> AllOk(w, after)
      invariant forall c :: c in made || c == ServiceCall.EnsureUser(sub) ==> c in after
      invariant forall r :: r in ub.roles ==> OnTenant(id, AdminCall.AssignRole(sub, r)) in after
      invariant forall c :: c in after ==> c in made || UserCall(c, id, sub, ub)
      invariant forall op :: op in ub.permissions && op !in todo ==> SpecOk(op, ub.permissions[op])
      invariant forall op, c ::
        op in ub.permissions && op !in todo && UserPermissionCall(c, id, sub, op, ub.permissions[op]) ==> c in after
      decreases todo
    {
      var op :| op in todo;
      todo := todo - {op};
      SameRoles(old(stores.Abs()), stores.Abs(), id);
      err, after := SyncUserPermission(stores, id, sub, op, ub.permissions[op], w, after);
      if err != Ok {
        return;
      }
    }
  }

  method SyncRoles(stores: Stores, id: string, roles: map<string, Permissions>, ghost w: World,
                   ghost made: seq<ServiceCall>)
      returns (err: Error, ghost after: seq<ServiceCall>)
    requires stores.Valid() && stores.Abs() == Run(w, made) && id in stores.Abs().tenants
    modifies stores.Repr()
    ensures stores.Valid() && (forall o :: o in stores.Repr() && o !in old(stores.Repr()) ==> fresh(o))
      && stores.Abs() == Run(w, after)
    ensures err == Ok ==> RolesOf(stores.Abs()) == RolesOf(old(stores.Abs()))[id := old(stores.Abs()).tenants[id].roles
      + roles.Keys]
    ensures err == if exists role :: role in roles && !RoleSyncable(role, roles[role]) then Validation else Ok
    ensures err == Ok && AllOk(w, made) ==> AllOk(w, after)
    ensures forall c :: c in made ==> c in after
    ensures forall c :: c in after ==> c in made || exists role :: role in roles && RoleCall(c, id, role, roles[role])
    ensures err == Ok ==> forall role, c :: role in roles && RoleCall(c, id, role, roles[role]) ==> c in after
  {
    hide Stores.Valid, Stores.Abs, Stores.Repr, Run, AllOk, ServiceStep, RoleSyncable, RoleCall;
    err, after := Ok, made;
    ghost var before := stores.Abs();
    var todo := roles.Keys;
    NoRolesMore(before, id, roles.Keys - todo);
    while todo != {}
      invariant todo <= roles.Keys && err == Ok
      invariant stores.Valid() && (forall o :: o in stores.Repr() && o !in old(stores.Repr()) ==> fresh(o))
        && stores.Abs() == Run(w, after)
      invariant id in stores.Abs().tenants
      invariant RolesOf(stores.Abs()) == RolesOf(before)[id := before.tenants[id].roles + (roles.Keys - todo)]
      invariant AllOk(w, made) ==> AllOk(w, after)
      invariant forall c :: c in made ==> c in after
      invariant forall c :: c in after ==>
        c in made || exists role :: role in roles && RoleCall(c, id, role, roles[role])
      invariant forall role :: role in roles && role !in todo ==> RoleSyncable(role, roles[role])
      invariant forall role, c :: role in roles && role !in todo && RoleCall(c, id, role, roles[role]) ==> c in after
      decreases todo
    {
      var role :| role in todo;
      ghost var done := roles.Keys - todo;
      todo := todo - {role};
      assert done + {role} == roles.Keys - todo;
      ghost var now := stores.Abs();
      err, after := SyncRole(stores, id, role, roles[role], w, after);
      if err != Ok {
        return;
      }
      OneRoleMore(before, now, stores.Abs(), id, done, role);
    }
    assert roles.Keys - todo == roles.Keys;
  }

  lemma NoRolesMore(before: World, id: string, none: set<string>)
    requires id in before.tenants && none == {}
    ensures RolesOf(before) == RolesOf(before)[id := before.tenants[id].roles + none]
  {
    assert before.tenants[id].roles + none == before.tenants[id].roles;
    assert id in RolesOf(before);
  }

  lemma OneRoleMore(before: World, now: World, next: World, id: string, done: set<string>, role: string)
    requires id in before.tenants && id in now.tenants
    requires RolesOf(now) == RolesOf(before)[id := before.tenants[id].roles + done]
    requires RolesOf(next) == RolesOf(now)[id := now.tenants[id].roles + {role}]
    ensures id in next.tenants
    ensures RolesOf(next) == RolesOf(before)[id := before.tenants[id].roles + (done + {role})]
  {
    assert RolesOf(now)[id] == now.tenants[id].roles;
    assert before.tenants[id].roles + done + {role} == before.tenants[id].roles + (done + {role});
    assert id in RolesOf(next);
  }

  method SyncUsers(stores: Stores, id: string, users: map<string, UserBootstrap>, ghost w: World,
                   ghost made: seq<ServiceCall>)
      returns (err: Error, ghost after: seq<ServiceCall>)
    requires stores.Valid() && stores.Abs() == Run(w, made) && id in stores.Abs().tenants
    modifies stores.Repr()
    ensures stores.Valid() && (forall o :: o in stores.Repr() && o !in old(stores.Repr()) ==> fresh(o))
      && stores.Abs() == Run(w, after)
    ensures RolesOf(stores.Abs()) == RolesOf(old(stores.Abs()))
    ensures err == Ok <==> forall sub :: sub in users ==>
      UserError(old(stores.Abs()).tenants[id].roles, sub, users[sub]) == Ok
    ensures err != Ok ==>
      exists sub :: sub in users && err == UserError(old(stores.Abs()).tenants[id].roles, sub, users[sub])
    ensures err == Ok && AllOk(w, made) ==> AllOk(w, after)
    ensures forall c :: c in made ==> c in after
    ensures forall c :: c in after ==> c in made || exists sub :: sub in users && UserCall(c, id, sub, users[sub])
    ensures err == Ok ==> forall sub, c :: sub in users && UserCall(c, id, sub, users[sub]) ==> c in after
  {
    hide Stores.Valid, Stores.Abs, Stores.Repr, Run, AllOk, ServiceStep, UserError, UserCall;
    err, after := Ok, made;
    ghost var known := old(stores.Abs()).tenants[id].roles;
    var todo := users.Keys;
    while todo != {}
      invariant todo <= users.Keys && err == Ok
      invariant stores.Valid() && (forall o :: o in stores.Repr() && o !in old(stores.Repr()) ==> fresh(o))
        && stores.Abs() == Run(w, after)
      invariant RolesOf(stores.Abs()) == RolesOf(old(stores.Abs()))
      invariant AllOk(w, made) ==> AllOk(w, after)
      invariant forall c :: c in made ==> c in after
      invariant forall c :: c in after ==> c in made || exists sub :: sub in users && UserCall(c, id, sub, users[sub])
      invariant forall sub :: sub in users && sub !in todo ==> UserError(known, sub, users[sub]) == Ok
      invariant forall sub, c :: sub in users && sub !in todo && UserCall(c, id, sub, users[sub]) ==> c in after
      decreases todo
    {
      var sub :| sub in todo;
      todo := todo - {sub};
      SameRoles(old(stores.Abs()), stores.Abs(), id);
      err, after := SyncUser(stores, id, sub, users[sub], w, after);
      if err != Ok {
        return;
      }
    }
  }

  method SyncTenant(stores: Stores, id: string, tb: TenantBootstrap, ghost w: World, ghost made: seq<ServiceCall>)
      returns (err: Error, ghost after: seq<ServiceCall>)
    requires stores.Valid() && stores.Abs() == Run(w, made) && id in stores.Abs().tenants
    modifies stores.Repr()
    ensures stores.Valid() && (forall o :: o in stores.Repr() && o !in old(stores.Repr()) ==> fresh(o))
      && stores.Abs() == Run(w, after)
    ensures err == Ok ==> RolesOf(stores.Abs()) == RolesOf(old(stores.Abs()))[id := old(stores.Abs()).tenants[id].roles
      + tb.roles.Keys]
    ensures err == Ok <==> TenantSyncable(old(stores.Abs()).tenants[id], tb)
    ensures err != Ok ==> TenantReports(old(stores.Abs()).tenants[id], tb, err)
    ensures err == Ok && AllOk(w, made) ==> AllOk(w, after)
    ensures forall c :: c in made ==> c in after
    ensures forall c :: c in after ==> c in made || TenantFileCall(c, id, tb)
    ensures err == Ok ==> forall c :: TenantFileCall(c, id, tb) ==> c in after
  {
    hide Stores.Valid, Stores.Abs, Stores.Repr, Run, AllOk, ServiceStep, RoleSyncable, UserError, UserSyncable,
      RoleCall, UserCall;
    ghost var known := stores.Abs().tenants[id].roles + tb.roles.Keys;
    err, after := SyncRoles(stores, id, tb.roles, w, made);
    if err != Ok {
      return;
    }
    RolesNow(old(stores.Abs()), stores.Abs(), id, tb.roles.Keys);
    err, after := SyncUsers(stores, id, tb.users, w, after);
    forall sub | sub in tb.users
      ensures UserError(known, sub, tb.users[sub]) == Ok <==> UserSyncable(known, sub, tb.users[sub])
    {
      UserErrorExactly(known, sub, tb.users[sub]);
    }
  }

  lemma RolesNow(before: World, now: World, id: string, more: set<string>)
    requires id in before.tenants && RolesOf(now) == RolesOf(before)[id := before.tenants[id].roles + more]
    ensures id in now.tenants && now.tenants[id].roles == before.tenants[id].roles + more
  {
    assert id in RolesOf(now) && RolesOf(now)[id] == now.tenants[id].roles;
  }

  method SyncResources(stores: Stores, names: seq<string>, ghost w: World, ghost made: seq<ServiceCall>)
      returns (err: Error, ghost after: seq<ServiceCall>)
    requires stores.Valid() && stores.Abs() == Run(w, made)
    modifies stores.Repr()
    ensures stores.Valid() && (forall o :: o in stores.Repr() && o !in old(stores.Repr()) ==> fresh(o))
      && stores.Abs() == Run(w, after)
    ensures RolesOf(stores.Abs()) == RolesOf(old(stores.Abs()))
    ensures err == Ok && (AllOk(w, made) ==> AllOk(w, after))
    ensures forall c :: c in made ==> c in after
    ensures forall c :: c in after ==> c in made || exists n :: n in names && c == ServiceCall.EnsureResource(n)
    ensures forall n :: n in names ==> ServiceCall.EnsureResource(n) in after
  {
    hide Stores.Valid, Stores.Abs, Stores.Repr, Run, AllOk, ServiceStep;
    err, after := Ok, made;
    for i := 0 to |names|
      invariant stores.Valid() && (forall o :: o in stores.Repr() && o !in old(stores.Repr()) ==> fresh(o))
        && stores.Abs() == Run(w, after)
      invariant RolesOf(stores.Abs()) == RolesOf(old(stores.Abs()))
      invariant err == Ok && (AllOk(w, made) ==> AllOk(w, after))
      invariant forall c :: c in made ==> c in after
      invariant forall c :: c in after ==> c in made || exists n :: n in names && c == ServiceCall.EnsureResource(n)
      invariant forall k :: 0 <= k < i ==> ServiceCall.EnsureResource(names[k]) in after
    {
      EnsureResourceWorks(stores.Abs(), names[i]);
      err, after := Make(stores, ServiceCall.EnsureResource(names[i]), w, after);
      if err != Ok {
        return;
      }
    }
  }

  lemma EnsureResourceWorks(w: World, name: string)
    ensures ServiceStep(w, ServiceCall.EnsureResource(name)).err == Ok
    ensures RolesOf(ServiceStep(w, ServiceCall.EnsureResource(name)).world) == RolesOf(w)
  {
  }

  method SyncOperations(stores: Stores, names: seq<string>, ghost w: World, ghost made: seq<ServiceCall>)
      returns (err: Error, ghost after: seq<ServiceCall>)
    requires stores.Valid() && stores.Abs() == Run(w, made)
    modifies stores.Repr()
    ensures stores.Valid() && (forall o :: o in stores.Repr() && o !in old(stores.Repr()) ==> fresh(o))
      && stores.Abs() == Run(w, after)
    ensures RolesOf(stores.Abs()) == RolesOf(old(stores.Abs()))
    ensures err == if exists n :: n in names && OperationResource(n) == "" then Validation else Ok
    ensures err == Ok && AllOk(w, made) ==> AllOk(w, after)
    ensures forall c :: c in made ==> c in after
    ensures forall c :: c in after ==> c in made || exists n :: n in names && c == ServiceCall.EnsureOperation(n)
    ensures err == Ok ==> forall n :: n in names ==> ServiceCall.EnsureOperation(n) in after
  {
    hide Stores.Valid, Stores.Abs, Stores.Repr, Run, AllOk, ServiceStep, OperationResource;
    err, after := Ok, made;
    for i := 0 to |names|
      invariant stores.Valid() && (forall o :: o in stores.Repr() && o !in old(stores.Repr()) ==> fresh(o))
        && stores.Abs() == Run(w, after)
      invariant RolesOf(stores.Abs()) == RolesOf(old(stores.Abs()))
      invariant err == Ok && (AllOk(w, made) ==> AllOk(w, after))
      invariant forall c :: c in made ==> c in after
      invariant forall c :: c in after ==> c in made || exists n :: n in names && c == ServiceCall.EnsureOperation(n)
      invariant forall k :: 0 <= k < i ==>
        OperationResource(names[k]) != "" && ServiceCall.EnsureOperation(names[k]) in after
    {
      EnsureOperationWorks(stores.Abs(), names[i]);
      err, after := Make(stores, ServiceCall.EnsureOperation(names[i]), w, after);
      if err != Ok {
        return;
      }
    }
  }

  ghost predicate TenantsSyncable(w: World, tenants: map<string, TenantBootstrap>) {
    forall id :: id in tenants ==> id in w.tenants && TenantSyncable(w.tenants[id], tenants[id])
  }

  ghost predicate TenantsReport(w: World, tenants: map<string, TenantBootstrap>, err: Error) {
    exists id ::
      id in tenants && if id in w.tenants then TenantReports(w.tenants[id], tenants[id], err) else err == Validation
  }

  method SyncTenants(stores: Stores, tenants: map<string, TenantBootstrap>, ghost w: World,
                     ghost made: seq<ServiceCall>)
      returns (err: Error, ghost after: seq<ServiceCall>)
    requires stores.Valid() && stores.Abs() == Run(w, made)
    modifies stores.Repr()
    ensures stores.Valid() && (forall o :: o in stores.Repr() && o !in old(stores.Repr()) ==> fresh(o))
      && stores.Abs() == Run(w, after)
    ensures err == Ok <==> TenantsSyncable(old(stores.Abs()), tenants)
    ensures err != Ok ==> TenantsReport(old(stores.Abs()), tenants, err)
    ensures err == Ok && AllOk(w, made) ==> AllOk(w, after)
    ensures forall c :: c in made ==> c in after
    ensures forall c :: c in after ==> c in made || exists id :: id in tenants && TenantFileCall(c, id, tenants[id])
    ensures err == Ok ==> forall id, c :: id in tenants && TenantFileCall(c, id, tenants[id]) ==> c in after
  {
    hide Stores.Valid, Stores.Repr, Run, AllOk, ServiceStep, TenantSyncable, TenantReports, TenantFileCall;
    err, after := Ok, made;
    ghost var before := stores.Abs();
    var todo := tenants.Keys;
    while todo != {}
      invariant todo <= tenants.Keys && err == Ok
      invariant stores.Valid() && (forall o :: o in stores.Repr() && o !in old(stores.Repr()) ==> fresh(o))
        && stores.Abs() == Run(w, after)
      invariant RolesOf(stores.Abs()).Keys == RolesOf(before).Keys
      invariant forall id :: id in todo && id in RolesOf(before) ==> RolesOf(stores.Abs())[id] == RolesOf(before)[id]
      invariant AllOk(w, made) ==> AllOk(w, after)
      invariant forall c :: c in made ==> c in after
      invariant forall c :: c in after ==> c in made || exists id :: id in tenants && TenantFileCall(c, id, tenants[id])
      invariant forall id :: id in tenants && id !in todo ==>
        id in before.tenants && TenantSyncable(before.tenants[id], tenants[id])
      invariant forall id, c :: id in tenants && id !in todo && TenantFileCall(c, id, tenants[id]) ==> c in after
      decreases todo
    {
      var id :| id in todo;
      todo := todo - {id};
      ghost var now := stores.Abs();
      assert id in stores.tenants <==> id in RolesOf(before);
      if id !in stores.tenants {
        return Validation, after;
      }
      SyncableByRoles(before.tenants[id], now.tenants[id], tenants[id]);
      err, after := SyncTenant(stores, id, tenants[id], w, after);
      if err != Ok {
        ReportsByRoles(now.tenants[id], before.tenants[id], tenants[id], err);
        return;
      }
    }
  }

  lemma ReportsByRoles(a: TenantState, b: TenantState, tb: TenantBootstrap, err: Error)
    requires a.roles == b.roles
    ensures TenantReports(a, tb, err) <==> TenantReports(b, tb, err)
  {
    hide RoleSyncable, UserError;
  }

  lemma SyncableByRoles(a: TenantState, b: TenantState, tb: TenantBootstrap)
    requires a.roles == b.roles
    ensures TenantSyncable(a, tb) <==> TenantSyncable(b, tb)
  {
  }

  /** Applies one file. It succeeds exactly when the file can be applied to the state it starts from, whatever
      order the maps are walked in, and then ends in the old state with the file laid over it. Whether or not it
      succeeds, it has only made calls the file declares. */
  method SyncFile(stores: Stores, f: BootstrapFile) returns (err: Error, ghost calls: seq<ServiceCall>)
    requires stores.Valid()
    modifies stores.Repr()
    ensures stores.Valid() && (forall o :: o in stores.Repr() && o !in old(stores.Repr()) ==> fresh(o))
    ensures stores.Abs() == Run(old(stores.Abs()), calls) && forall c :: c in calls ==> Declares(f, c)
    ensures err == Ok <==> Syncable(old(stores.Abs()), f)
    ensures err != Ok ==> FileReports(old(stores.Abs()), f, err)
    ensures err == Ok ==> AllOk(old(stores.Abs()), calls) && stores.Abs() == SyncedFile(old(stores.Abs()), f)
  {
    hide Stores.Valid, Stores.Abs, Stores.Repr, Run, AllOk, ServiceStep, OperationResource, TenantSyncable,
      TenantReports, TenantFileCall, SyncedFile;
    ghost var w := stores.Abs();
    NothingMade(w);
    err, calls := SyncResources(stores, f.resources, w, []);
    if err != Ok {
      return;
    }
    err, calls := SyncOperations(stores, f.operations, w, calls);
    if err != Ok {
      return;
    }
    SyncableAlongRoles(w, stores.Abs(), f.tenants);
    ghost var now := stores.Abs();
    err, calls := SyncTenants(stores, f.tenants, w, calls);
    if err == Ok {
      ScheduleClosedForm(w, f, calls);
    } else {
      ReportsAlongRoles(now, w, f.tenants, err);
    }
  }

  lemma ReportsAlongRoles(a: World, b: World, tenants: map<string, TenantBootstrap>, err: Error)
    requires RolesOf(a) == RolesOf(b)
    ensures TenantsReport(a, tenants, err) <==> TenantsReport(b, tenants, err)
  {
    hide TenantReports;
    forall id | id in tenants
      ensures id in a.tenants <==> id in b.tenants
      ensures id in a.tenants ==> (TenantReports(a.tenants[id], tenants[id], err) <==>
        TenantReports(b.tenants[id], tenants[id], err))
    {
      assert id in RolesOf(a) <==> id in a.tenants;
      assert id in RolesOf(b) <==> id in b.tenants;
      if id in a.tenants {
        SameRoles(a, b, id);
        ReportsByRoles(a.tenants[id], b.tenants[id], tenants[id], err);
      }
    }
  }

  lemma SyncableAlongRoles(a: World, b: World, tenants: map<string, TenantBootstrap>)
    requires RolesOf(a) == RolesOf(b)
    ensures TenantsSyncable(a, tenants) <==> TenantsSyncable(b, tenants)
  {
    hide TenantSyncable;
    forall id | id in tenants
      ensures id in a.tenants <==> id in b.tenants
      ensures id in a.tenants ==> (TenantSyncable(a.tenants[id], tenants[id]) <==>
        TenantSyncable(b.tenants[id], tenants[id]))
    {
      assert id in RolesOf(a) <==> id in a.tenants;
      assert id in RolesOf(b) <==> id in b.tenants;
      if id in a.tenants {
        SameRoles(a, b, id);
        SyncableByRoles(a.tenants[id], b.tenants[id], tenants[id]);
      }
    }
  }

  /** An error is that of the first file that cannot be applied to what the files before it have made. */
  ghost predicate RunReports(w: World, files: seq<BootstrapFile>, err: Error) {
    exists i :: 0 <= i < |files| && AllSyncable(w, files[..i]) && FileReports(Synced(w, files[..i]), files[i], err)
  }

  /** Applies files in order, stopping at the first that fails. */
  method Sync(stores: Stores, files: seq<BootstrapFile>) returns (err: Error, ghost calls: seq<ServiceCall>)
    requires stores.Valid()
    modifies stores.Repr()
    ensures stores.Valid() && (forall o :: o in stores.Repr() && o !in old(stores.Repr()) ==> fresh(o))
    ensures err == Ok <==> AllSyncable(old(stores.Abs()), files)
    ensures err != Ok ==> RunReports(old(stores.Abs()), files, err)
    ensures err == Ok ==> stores.Abs() == Synced(old(stores.Abs()), files)
    ensures stores.Abs() == Run(old(stores.Abs()), calls) && forall c :: c in calls ==> Declared(files, c)
    ensures Grows(old(stores.Abs()), files, stores.Abs())
  {
    hide Stores.Valid, Stores.Abs, Stores.Repr, Run, AllOk, ServiceStep, Declares, SyncedFile, Syncable, FileReports,
      Grows;
    err, calls := Ok, [];
    ghost var w := stores.Abs();
    NothingMade(w);
    for i := 0 to |files|
      invariant err == Ok && stores.Valid() && (forall o :: o in stores.Repr() && o !in old(stores.Repr()) ==> fresh(o))
      invariant AllSyncable(w, files[..i]) && stores.Abs() == Synced(w, files[..i])
      invariant stores.Abs() == Run(w, calls) && forall c :: c in calls ==> Declared(files, c)
    {
      assert files[..i + 1][..i] == files[..i];
      ghost var more;
      err, more := SyncFile(stores, files[i]);
      RunConcat(w, calls, more);
      calls := calls + more;
      assert files[i] in files;
      if err != Ok {
        PrefixSyncable(w, files, i);
        SyncOnlyAdds(w, files, calls);
        return;
      }
    }
    assert files[..|files|] == files;
    SyncOnlyAdds(w, files, calls);
  }

  lemma {:induction false} PrefixSyncable(w: World, files: seq<BootstrapFile>, i: nat)
    requires i < |files|
    ensures AllSyncable(w, files) ==> Syncable(Synced(w, files[..i]), files[i])
  {
    if i < |files| - 1 {
      PrefixSyncable(w, files[..|files| - 1], i);
      assert files[..|files| - 1][..i] == files[..i];
    }
  }

  /** Syncing one set of stores leaves another alone. */
  method SyncBeside(a: Stores, b: Stores, files: seq<BootstrapFile>) returns (err: Error)
    requires a.Valid() && b.Valid() && a.Repr() !! b.Repr()
    modifies a.Repr()
    ensures a.Valid() && b.Valid() && (forall o :: o in a.Repr() && o !in old(a.Repr()) ==> fresh(o))
    ensures b.Repr() == old(b.Repr()) && b.Abs() == old(b.Abs())
    ensures err == Ok <==> AllSyncable(old(a.Abs()), files)
    ensures err == Ok ==> a.Abs() == Synced(old(a.Abs()), files)
  {
    hide TenantDocument.Denotes, TenantDocument.Lean, SqlTables.Intact, SqlTables.Meaning, AllSyncable, Synced, Grows,
      Run, Stores.Valid, Stores.Abs;
    ghost var calls;
    b.RootsInRepr();
    err, calls := Sync(a, files);
  }

  /** Two runs over like states, with whatever drivers and whatever orders: both succeed or neither does, and
      successful ones end alike. */
  method SyncTwoStores(a: Stores, b: Stores, files: seq<BootstrapFile>) returns (ea: Error, eb: Error)
    requires a.Valid() && b.Valid() && a.Repr() !! b.Repr()
    requires a.Abs() == b.Abs()
    modifies a.Repr(), b.Repr()
    ensures a.Valid() && b.Valid()
    ensures ea == Ok <==> eb == Ok
    ensures ea == Ok ==> a.Abs() == b.Abs()
  {
    hide TenantDocument.Denotes, TenantDocument.Lean, SqlTables.Intact, SqlTables.Meaning, AllSyncable, Synced,
      Stores.Valid, Stores.Abs;
    ea := SyncBeside(a, b, files);
    eb := SyncBeside(b, a, files);
  }

  /** Two files in either order: both runs succeed and end alike exactly when each file can be applied by itself and
      they agree on all scopes. */
  method SyncEitherOrder(a: Stores, b: Stores, f: BootstrapFile, g: BootstrapFile) returns (ea: Error, eb: Error)
    requires a.Valid() && b.Valid() && a.Repr() !! b.Repr() && a.Abs() == b.Abs()
    modifies a.Repr(), b.Repr()
    ensures a.Valid() && b.Valid()
    ensures ea == Ok && eb == Ok <==> Syncable(old(a.Abs()), f) && Syncable(old(a.Abs()), g)
    ensures ea == Ok && eb == Ok && a.Abs() == b.Abs() <==>
      Syncable(old(a.Abs()), f) && Syncable(old(a.Abs()), g) && FilesAgree(f, g)
  {
    hide TenantDocument.Denotes, TenantDocument.Lean, SqlTables.Intact, SqlTables.Meaning, AllSyncable, Synced,
      Syncable, FilesAgree, Stores.Valid, Stores.Abs;
    FilesCommuteExactly(a.Abs(), f, g);
    ea := SyncBeside(a, b, [f, g]);
    eb := SyncBeside(b, a, [g, f]);
  }

  /** Syncing once more succeeds again and changes nothing. */
  method SyncAgain(stores: Stores, files: seq<BootstrapFile>) returns (first: Error, second: Error)
    requires stores.Valid()
    modifies stores.Repr()
    ensures stores.Valid()
    ensures first == Ok ==> second == Ok && stores.Abs() == Synced(old(stores.Abs()), files)
  {
    hide Stores.Valid, Stores.Abs, Stores.Repr, AllSyncable, Synced;
    ghost var calls;
    ghost var w := stores.Abs();
    first, calls := Sync(stores, files);
    if first == Ok {
      SyncIsIdempotent(w, files);
    }
    second, calls := Sync(stores, files);
  }
}
