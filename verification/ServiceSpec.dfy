/** The administrative calls as a state machine over one shared store and many tenants. */
module ServiceSpec {
  import opened Model
  import opened SharedSpec
  import opened TenantSpec

  datatype World = World(shared: SharedState, tenants: map<string, TenantState>)

  /** The administrative functions on one tenant. */
  datatype AdminCall =
    | CreateRole(name: string)
    | EnsureRole(name: string)
    | RenameRole(name: string, newName: string)
    | DeleteRole(name: string)
    | AssignRole(sub: string, role: string)
    | UnassignRole(sub: string, role: string)
    | SetRolePermission(role: string, operation: string, scope: Scope)
    | RemoveRolePermission(role: string, operation: string)
    | SetUserPermission(sub: string, operation: string, scope: Scope)
    | RemoveUserPermission(sub: string, operation: string)
    | UpdateRoleIDs(role: string, operation: string, add: seq<string>, remove: seq<string>)
    | UpdateUserIDs(sub: string, operation: string, add: seq<string>, remove: seq<string>)

  datatype ServiceCall =
    | EnsureUser(sub: string)
    | CreateResource(name: string)
    | EnsureResource(name: string)
    | DeleteResource(name: string)
    | CreateOperation(name: string)
    | EnsureOperation(name: string)
    | DeleteOperation(name: string)
    | OnTenant(tenant: string, call: AdminCall)

  datatype AdminOutcome = AdminOutcome(shared: SharedState, tenant: TenantState, err: Error)

  datatype WorldOutcome = WorldOutcome(world: World, err: Error)

  function Lift(s: SharedState, o: Outcome): AdminOutcome {
    AdminOutcome(s, o.state, o.err)
  }

  function WithUser(s: SharedState, sub: string): SharedState {
    s.(users := s.users + {sub})
  }

  /** First the ids to add, then the ids to remove; an id in both lists ends up removed. */
  function UpdateRoleIDsStep(t: TenantState, role: string, op: string, add: seq<string>, remove: seq<string>): Outcome {
    if role !in t.roles || (role, op) !in t.grants then Outcome(t, NotFound)
    else TenantStep(TenantStep(t, AddRoleIDs(role, op, add)).state, RemoveRoleIDs(role, op, remove))
  }

  function UpdateUserIDsStep(t: TenantState, sub: string, op: string, add: seq<string>, remove: seq<string>): Outcome {
    if (sub, op) !in t.overrides then Outcome(t, NotFound)
    else TenantStep(TenantStep(t, AddUserIDs(sub, op, add)).state, RemoveUserIDs(sub, op, remove))
  }

  function AdminStep(s: SharedState, t: TenantState, c: AdminCall): AdminOutcome {
    match c
    case CreateRole(name) =>
      if name == "" then AdminOutcome(s, t, Validation) else Lift(s, TenantStep(t, TenantCall.CreateRole(name)))
    case EnsureRole(name) =>
      if name == "" then AdminOutcome(s, t, Validation) else Lift(s, TenantStep(t, TenantCall.EnsureRole(name)))
    case RenameRole(name, newName) =>
      if newName == "" then AdminOutcome(s, t, Validation)
        else Lift(s, TenantStep(t, TenantCall.RenameRole(name, newName)))
    case DeleteRole(name) =>
      Lift(s, TenantStep(t, TenantCall.DeleteRole(name)))
    case AssignRole(sub, role) =>
      if sub == "" then AdminOutcome(s, t, Validation)
      else Lift(WithUser(s, sub), TenantStep(t, TenantCall.AssignRole(sub, role)))
    case UnassignRole(sub, role) =>
      Lift(s, TenantStep(t, TenantCall.UnassignRole(sub, role)))
    case SetRolePermission(role, op, scope) =>
      if !ValidScope(scope) then AdminOutcome(s, t, Validation)
      else if op !in s.operations then AdminOutcome(s, t, NotFound)
      else Lift(s, TenantStep(t, TenantCall.SetRolePermission(role, op, scope)))
    case RemoveRolePermission(role, op) =>
      Lift(s, TenantStep(t, TenantCall.RemoveRolePermission(role, op)))
    case SetUserPermission(sub, op, scope) =>
      if !ValidScope(scope) then AdminOutcome(s, t, Validation)
      else if op !in s.operations then AdminOutcome(s, t, NotFound)
      else if sub == "" then AdminOutcome(s, t, Validation)
      else Lift(WithUser(s, sub), TenantStep(t, TenantCall.SetUserPermission(sub, op, scope)))
    case RemoveUserPermission(sub, op) =>
      Lift(s, TenantStep(t, TenantCall.RemoveUserPermission(sub, op)))
    case UpdateRoleIDs(role, op, add, remove) =>
      Lift(s, UpdateRoleIDsStep(t, role, op, add, remove))
    case UpdateUserIDs(sub, op, add, remove) =>
      Lift(s, UpdateUserIDsStep(t, sub, op, add, remove))
  }

  function OnShared(w: World, o: SharedOutcome): WorldOutcome {
    WorldOutcome(w.(shared := o.state), o.err)
  }

  function ServiceStep(w: World, c: ServiceCall): WorldOutcome {
    match c
    case EnsureUser(sub) =>
      if sub == "" then WorldOutcome(w, Validation) else OnShared(w, SharedStep(w.shared, SharedCall.EnsureUser(sub)))
    case CreateResource(name) =>
      if name == "" then WorldOutcome(w, Validation)
        else OnShared(w, SharedStep(w.shared, SharedCall.CreateResource(name)))
    case EnsureResource(name) =>
      OnShared(w, SharedStep(w.shared, SharedCall.EnsureResource(name)))
    case DeleteResource(name) =>
      OnShared(w, SharedStep(w.shared, SharedCall.DeleteResource(name)))
    case CreateOperation(name) =>
      if OperationResource(name) == "" then WorldOutcome(w, Validation)
      else OnShared(w, SharedStep(w.shared, SharedCall.CreateOperation(name, OperationResource(name))))
    case EnsureOperation(name) =>
      if OperationResource(name) == "" then WorldOutcome(w, Validation)
      else OnShared(w, SharedStep(w.shared, SharedCall.EnsureOperation(name, OperationResource(name))))
    case DeleteOperation(name) =>
      OnShared(w, SharedStep(w.shared, SharedCall.DeleteOperation(name)))
    case OnTenant(id, call) =>
      if id !in w.tenants then WorldOutcome(w, NotFound)
      else
        var o := AdminStep(w.shared, w.tenants[id], call);
        WorldOutcome(World(o.shared, w.tenants[id := o.tenant]), o.err)
  }

  /** A failed call may have done part of its work; the run goes on from there. */
  function Run(w: World, calls: seq<ServiceCall>): World {
    if calls == [] then w
    else ServiceStep(Run(w, calls[..|calls| - 1]), calls[|calls| - 1]).world
  }

  /** What each call of a run reports. */
  function Errors(w: World, calls: seq<ServiceCall>): (errs: seq<Error>)
    ensures |errs| == |calls|
  {
    if calls == [] then []
    else
      var before := calls[..|calls| - 1];
      Errors(w, before) + [ServiceStep(Run(w, before), calls[|calls| - 1]).err]
  }

  predicate AllOk(w: World, calls: seq<ServiceCall>) {
    forall i :: 0 <= i < |calls| ==> Errors(w, calls)[i] == Ok
  }

  lemma NothingMade(w: World)
    ensures Run(w, []) == w && AllOk(w, [])
  {
  }

  lemma RunAppend(w: World, calls: seq<ServiceCall>, c: ServiceCall)
    ensures Run(w, calls + [c]) == ServiceStep(Run(w, calls), c).world
    ensures Errors(w, calls + [c]) == Errors(w, calls) + [ServiceStep(Run(w, calls), c).err]
    ensures AllOk(w, calls + [c]) <==> AllOk(w, calls) && ServiceStep(Run(w, calls), c).err == Ok
  {
    var all := calls + [c];
    assert all[..|all| - 1] == calls;
    assert forall i :: 0 <= i < |calls| ==> Errors(w, all)[i] == Errors(w, calls)[i];
    assert Errors(w, all)[|calls|] == ServiceStep(Run(w, calls), c).err;
  }

  lemma {:induction false} RunConcat(w: World, a: seq<ServiceCall>, b: seq<ServiceCall>)
    ensures Run(w, a + b) == Run(Run(w, a), b)
    ensures AllOk(w, a + b) <==> AllOk(w, a) && AllOk(Run(w, a), b)
  {
    if b == [] {
      assert a + b == a;
    } else {
      var init, last := b[..|b| - 1], b[|b| - 1];
      assert b == init + [last] && a + b == (a + init) + [last];
      RunConcat(w, a, init);
      RunAppend(w, a + init, last);
      RunAppend(Run(w, a), init, last);
    }
  }

  lemma {:induction false} ErrorsConcat(w: World, a: seq<ServiceCall>, b: seq<ServiceCall>)
    ensures Errors(w, a + b) == Errors(w, a) + Errors(Run(w, a), b)
  {
    if b == [] {
      assert a + b == a;
    } else {
      var init, last := b[..|b| - 1], b[|b| - 1];
      assert b == init + [last] && a + b == (a + init) + [last];
      ErrorsConcat(w, a, init);
      RunConcat(w, a, init);
      RunAppend(w, a + init, last);
      RunAppend(Run(w, a), init, last);
    }
  }

  /** After a successful update the ids are exactly (old plus added) minus removed, and no other pair's moved. */
  lemma UpdatedIdsExact(s: SharedState, t: TenantState, c: AdminCall)
    requires c.UpdateRoleIDs? || c.UpdateUserIDs?
    requires AdminStep(s, t, c).err == Ok
    ensures var t' := AdminStep(s, t, c).tenant;
      && (c.UpdateRoleIDs? ==>
            && t' == t.(roleIds := t'.roleIds)
            && forall r, op, id :: (r, op, id) in t'.roleIds <==>
                 if r == c.role && op == c.operation then ((r, op, id) in t.roleIds || id in c.add) && id !in c.remove
                 else (r, op, id) in t.roleIds)
      && (c.UpdateUserIDs? ==>
            && t' == t.(userIds := t'.userIds)
            && forall sub, op, id :: (sub, op, id) in t'.userIds <==>
                 if sub == c.sub && op == c.operation then ((sub, op, id) in t.userIds || id in c.add)
                   && id !in c.remove
                 else (sub, op, id) in t.userIds)
    ensures AdminStep(s, t, c).shared == s
  {
  }

  /** An update succeeds exactly when the permission it is about exists; otherwise it changes nothing. */
  lemma UpdateNeedsPermission(s: SharedState, t: TenantState, c: AdminCall)
    requires c.UpdateRoleIDs? || c.UpdateUserIDs?
    ensures AdminStep(s, t, c).err == Ok <==>
      if c.UpdateRoleIDs? then c.role in t.roles
        && (c.role, c.operation) in t.grants else (c.sub, c.operation) in t.overrides
    ensures AdminStep(s, t, c).err != Ok ==> AdminStep(s, t, c) == AdminOutcome(s, t, NotFound)
  {
  }

  /** Deleting a role leaves nothing of it and touches nothing else; making the name anew gives an empty role
      nobody holds. */
  lemma DeletedRoleDoesNotReturn(t: TenantState, name: string)
    requires RolesExist(t) && name in t.roles
    ensures var gone := TenantStep(t, TenantCall.DeleteRole(name)).state;
      var anew := TenantStep(gone, TenantCall.CreateRole(name));
      && anew.err == Ok && anew.state.roles == t.roles
      && gone.overrides == anew.state.overrides == t.overrides && gone.userIds == anew.state.userIds == t.userIds
      && (forall sub, r :: (sub, r) in anew.state.assignments <==> (sub, r) in gone.assignments)
      && (forall sub, r :: (sub, r) in gone.assignments <==> (sub, r) in t.assignments && r != name)
      && (forall r, op :: (r, op) in gone.grants <==> (r, op) in t.grants && r != name)
      && (forall k :: k in gone.grants ==> gone.grants[k] == t.grants[k])
      && (forall r, op, id :: (r, op, id) in gone.roleIds <==> (r, op, id) in t.roleIds && r != name)
      && anew.state.grants == gone.grants && anew.state.roleIds == gone.roleIds
  {
  }
}
