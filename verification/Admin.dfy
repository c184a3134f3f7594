/** The administrative functions: input is checked, then the stores are called one after the other. */
module Admin {
  import opened Model
  import opened SharedSpec
  import opened TenantSpec
  import opened ServiceSpec
  import opened Drivers
  import TenantDocument
  import SqlTables

  /** Both stores are in order and share nothing. */
  ghost predicate Ready(shared: SharedStore, tenant: TenantStore)
    reads shared.Root(), tenant.Root(), tenant.Repr()
  {
    shared.Valid() && tenant.Valid() && shared.Root() !in tenant.Repr()
  }

  method EnsureUser(shared: SharedStore, sub: string) returns (err: Error)
    requires shared.Valid()
    modifies shared.Root()
    ensures shared.Valid()
    ensures sub == "" ==> err == Validation && shared.Abs() == old(shared.Abs())
    ensures sub != "" ==> err == Ok && shared.Abs() == ServiceSpec.WithUser(old(shared.Abs()), sub)
  {
    if sub == "" {
      return Validation;
    }
    err := shared.Do(SharedCall.EnsureUser(sub));
  }

  method RequireOperation(shared: SharedStore, name: string) returns (err: Error)
    requires shared.Valid()
    ensures err == if name in shared.Abs().operations then Ok else NotFound
  {
    var ok := shared.OperationExists(name);
    return if ok then Ok else NotFound;
  }

  method AssignRole(shared: SharedStore, tenant: TenantStore, sub: string, role: string) returns (err: Error)
    requires Ready(shared, tenant)
    modifies shared.Root(), tenant.Repr()
    ensures Ready(shared, tenant) && fresh(tenant.Repr() - old(tenant.Repr()))
    ensures AdminOutcome(shared.Abs(), tenant.Abs(), err)
         == AdminStep(old(shared.Abs()), old(tenant.Abs()), AdminCall.AssignRole(sub, role))
  {
    hide TenantDocument.Denotes, TenantDocument.Lean, SqlTables.Intact, SqlTables.Meaning, TenantStep;
    err := EnsureUser(shared, sub);
    if err != Ok {
      return err;
    }
    err := tenant.Do(TenantCall.AssignRole(sub, role));
  }

  method SetRolePermission(shared: SharedStore, tenant: TenantStore, role: string, op: string, scope: Scope)
      returns (err: Error)
    requires Ready(shared, tenant)
    modifies shared.Root(), tenant.Repr()
    ensures Ready(shared, tenant) && fresh(tenant.Repr() - old(tenant.Repr()))
    ensures AdminOutcome(shared.Abs(), tenant.Abs(), err)
         == AdminStep(old(shared.Abs()), old(tenant.Abs()), AdminCall.SetRolePermission(role, op, scope))
  {
    hide TenantDocument.Denotes, TenantDocument.Lean, SqlTables.Intact, SqlTables.Meaning, TenantStep;
    if !ValidScope(scope) {
      return Validation;
    }
    err := RequireOperation(shared, op);
    if err != Ok {
      return err;
    }
    err := tenant.Do(TenantCall.SetRolePermission(role, op, scope));
  }

  method SetUserPermission(shared: SharedStore, tenant: TenantStore, sub: string, op: string, scope: Scope)
      returns (err: Error)
    requires Ready(shared, tenant)
    modifies shared.Root(), tenant.Repr()
    ensures Ready(shared, tenant) && fresh(tenant.Repr() - old(tenant.Repr()))
    ensures AdminOutcome(shared.Abs(), tenant.Abs(), err)
         == AdminStep(old(shared.Abs()), old(tenant.Abs()), AdminCall.SetUserPermission(sub, op, scope))
  {
    hide TenantDocument.Denotes, TenantDocument.Lean, SqlTables.Intact, SqlTables.Meaning, TenantStep;
    if !ValidScope(scope) {
      return Validation;
    }
    err := RequireOperation(shared, op);
    if err != Ok {
      return err;
    }
    err := EnsureUser(shared, sub);
    if err != Ok {
      return err;
    }
    err := tenant.Do(TenantCall.SetUserPermission(sub, op, scope));
  }

  method UpdateRoleIDs(shared: SharedStore, tenant: TenantStore, role: string, op: string, add: seq<string>,
                       remove: seq<string>)
      returns (err: Error)
    requires Ready(shared, tenant)
    modifies shared.Root(), tenant.Repr()
    ensures Ready(shared, tenant) && fresh(tenant.Repr() - old(tenant.Repr()))
    ensures AdminOutcome(shared.Abs(), tenant.Abs(), err)
         == AdminStep(old(shared.Abs()), old(tenant.Abs()), AdminCall.UpdateRoleIDs(role, op, add, remove))
  {
    hide TenantDocument.Denotes, TenantDocument.Lean, SqlTables.Intact, SqlTables.Meaning;
    ghost var t := tenant.Abs();
    var failed, has := tenant.HasRolePermission(role, op);
    if failed != Ok {
      return failed;
    }
    if !has {
      return NotFound;
    }
    err := tenant.Do(TenantCall.AddRoleIDs(role, op, add));
    DriversDivergeExactly(t, TenantCall.AddRoleIDs(role, op, add));
    if err != Ok {
      return err;
    }
    DriversDivergeExactly(tenant.Abs(), TenantCall.RemoveRoleIDs(role, op, remove));
    err := tenant.Do(TenantCall.RemoveRoleIDs(role, op, remove));
  }

  method UpdateUserIDs(shared: SharedStore, tenant: TenantStore, sub: string, op: string, add: seq<string>,
                       remove: seq<string>)
      returns (err: Error)
    requires Ready(shared, tenant)
    modifies shared.Root(), tenant.Repr()
    ensures Ready(shared, tenant) && fresh(tenant.Repr() - old(tenant.Repr()))
    ensures AdminOutcome(shared.Abs(), tenant.Abs(), err)
         == AdminStep(old(shared.Abs()), old(tenant.Abs()), AdminCall.UpdateUserIDs(sub, op, add, remove))
  {
    hide TenantDocument.Denotes, TenantDocument.Lean, SqlTables.Intact, SqlTables.Meaning;
    var has := tenant.HasUserPermission(sub, op);
    if !has {
      return NotFound;
    }
    err := tenant.Do(TenantCall.AddUserIDs(sub, op, add));
    if err != Ok {
      return err;
    }
    err := tenant.Do(TenantCall.RemoveUserIDs(sub, op, remove));
  }

  method CreateRole(shared: SharedStore, tenant: TenantStore, name: string) returns (err: Error)
    requires Ready(shared, tenant)
    modifies shared.Root(), tenant.Repr()
    ensures Ready(shared, tenant) && fresh(tenant.Repr() - old(tenant.Repr()))
    ensures AdminOutcome(shared.Abs(), tenant.Abs(), err)
         == AdminStep(old(shared.Abs()), old(tenant.Abs()), AdminCall.CreateRole(name))
  {
    hide TenantDocument.Denotes, TenantDocument.Lean, SqlTables.Intact, SqlTables.Meaning, TenantStep;
    if name == "" {
      return Validation;
    }
    err := tenant.Do(TenantCall.CreateRole(name));
  }

  method EnsureRole(shared: SharedStore, tenant: TenantStore, name: string) returns (err: Error)
    requires Ready(shared, tenant)
    modifies shared.Root(), tenant.Repr()
    ensures Ready(shared, tenant) && fresh(tenant.Repr() - old(tenant.Repr()))
    ensures AdminOutcome(shared.Abs(), tenant.Abs(), err)
         == AdminStep(old(shared.Abs()), old(tenant.Abs()), AdminCall.EnsureRole(name))
  {
    hide TenantDocument.Denotes, TenantDocument.Lean, SqlTables.Intact, SqlTables.Meaning, TenantStep;
    if name == "" {
      return Validation;
    }
    err := tenant.Do(TenantCall.EnsureRole(name));
  }

  method RenameRole(shared: SharedStore, tenant: TenantStore, name: string, newName: string) returns (err: Error)
    requires Ready(shared, tenant)
    modifies shared.Root(), tenant.Repr()
    ensures Ready(shared, tenant) && fresh(tenant.Repr() - old(tenant.Repr()))
    ensures AdminOutcome(shared.Abs(), tenant.Abs(), err)
         == AdminStep(old(shared.Abs()), old(tenant.Abs()), AdminCall.RenameRole(name, newName))
  {
    hide TenantDocument.Denotes, TenantDocument.Lean, SqlTables.Intact, SqlTables.Meaning, TenantStep;
    if newName == "" {
      return Validation;
    }
    err := tenant.Do(TenantCall.RenameRole(name, newName));
  }

  method DeleteRole(shared: SharedStore, tenant: TenantStore, name: string) returns (err: Error)
    requires Ready(shared, tenant)
    modifies shared.Root(), tenant.Repr()
    ensures Ready(shared, tenant) && fresh(tenant.Repr() - old(tenant.Repr()))
    ensures AdminOutcome(shared.Abs(), tenant.Abs(), err)
         == AdminStep(old(shared.Abs()), old(tenant.Abs()), AdminCall.DeleteRole(name))
  {
    hide TenantDocument.Denotes, TenantDocument.Lean, SqlTables.Intact, SqlTables.Meaning, TenantStep;
    err := tenant.Do(TenantCall.DeleteRole(name));
  }

  method UnassignRole(shared: SharedStore, tenant: TenantStore, sub: string, role: string) returns (err: Error)
    requires Ready(shared, tenant)
    modifies shared.Root(), tenant.Repr()
    ensures Ready(shared, tenant) && fresh(tenant.Repr() - old(tenant.Repr()))
    ensures AdminOutcome(shared.Abs(), tenant.Abs(), err)
         == AdminStep(old(shared.Abs()), old(tenant.Abs()), AdminCall.UnassignRole(sub, role))
  {
    hide TenantDocument.Denotes, TenantDocument.Lean, SqlTables.Intact, SqlTables.Meaning, TenantStep;
    err := tenant.Do(TenantCall.UnassignRole(sub, role));
  }

  method RemoveRolePermission(shared: SharedStore, tenant: TenantStore, role: string, op: string) returns (err: Error)
    requires Ready(shared, tenant)
    modifies shared.Root(), tenant.Repr()
    ensures Ready(shared, tenant) && fresh(tenant.Repr() - old(tenant.Repr()))
    ensures AdminOutcome(shared.Abs(), tenant.Abs(), err)
         == AdminStep(old(shared.Abs()), old(tenant.Abs()), AdminCall.RemoveRolePermission(role, op))
  {
    hide TenantDocument.Denotes, TenantDocument.Lean, SqlTables.Intact, SqlTables.Meaning, TenantStep;
    err := tenant.Do(TenantCall.RemoveRolePermission(role, op));
  }

  method RemoveUserPermission(shared: SharedStore, tenant: TenantStore, sub: string, op: string) returns (err: Error)
    requires Ready(shared, tenant)
    modifies shared.Root(), tenant.Repr()
    ensures Ready(shared, tenant) && fresh(tenant.Repr() - old(tenant.Repr()))
    ensures AdminOutcome(shared.Abs(), tenant.Abs(), err)
         == AdminStep(old(shared.Abs()), old(tenant.Abs()), AdminCall.RemoveUserPermission(sub, op))
  {
    hide TenantDocument.Denotes, TenantDocument.Lean, SqlTables.Intact, SqlTables.Meaning, TenantStep;
    err := tenant.Do(TenantCall.RemoveUserPermission(sub, op));
  }

  method OnTenant(shared: SharedStore, tenant: TenantStore, c: AdminCall) returns (err: Error)
    requires Ready(shared, tenant)
    modifies shared.Root(), tenant.Repr()
    ensures Ready(shared, tenant) && fresh(tenant.Repr() - old(tenant.Repr()))
    ensures AdminOutcome(shared.Abs(), tenant.Abs(), err) == AdminStep(old(shared.Abs()), old(tenant.Abs()), c)
  {
    hide Ready, AdminStep;
    match c {
      case CreateRole(name) => err := CreateRole(shared, tenant, name);
      case EnsureRole(name) => err := EnsureRole(shared, tenant, name);
      case RenameRole(name, newName) => err := RenameRole(shared, tenant, name, newName);
      case DeleteRole(name) => err := DeleteRole(shared, tenant, name);
      case AssignRole(sub, role) => err := AssignRole(shared, tenant, sub, role);
      case UnassignRole(sub, role) => err := UnassignRole(shared, tenant, sub, role);
      case SetRolePermission(role, op, scope) => err := SetRolePermission(shared, tenant, role, op, scope);
      case RemoveRolePermission(role, op) => err := RemoveRolePermission(shared, tenant, role, op);
      case SetUserPermission(sub, op, scope) => err := SetUserPermission(shared, tenant, sub, op, scope);
      case RemoveUserPermission(sub, op) => err := RemoveUserPermission(shared, tenant, sub, op);
      case UpdateRoleIDs(role, op, add, remove) => err := UpdateRoleIDs(shared, tenant, role, op, add, remove);
      case UpdateUserIDs(sub, op, add, remove) => err := UpdateUserIDs(shared, tenant, sub, op, add, remove);
    }
  }
}
