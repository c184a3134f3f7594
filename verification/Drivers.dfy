/** The two interfaces of the store layer, each with its two drivers. Which driver is behind a store is
    decided when it is opened. */
module Drivers {
  import opened Model
  import opened Strings
  import opened SharedSpec
  import opened SharedAnswers
  import opened TenantSpec
  import opened TenantAnswers
  import opened JsonShared
  import opened JsonTenant
  import opened SqlShared
  import opened SqlTenant
  import TenantDocument
  import SqlTables

  datatype SharedStore = JsonShared(json: JsonSharedStore) | SqlShared(sql: SqlSharedStore) {

    ghost function Root(): object {
      match this
      case JsonShared(json) => json
      case SqlShared(sql) => sql
    }

    ghost predicate Valid()
      reads Root()
    {
      match this
      case JsonShared(json) => json.Valid()
      case SqlShared(sql) => sql.Valid()
    }

    ghost function Abs(): SharedState
      reads Root()
    {
      match this
      case JsonShared(json) => json.abs
      case SqlShared(sql) => sql.Abs()
    }

    method Do(c: SharedCall) returns (err: Error)
      requires Valid()
      modifies Root()
      ensures Valid() && SharedOutcome(Abs(), err) == SharedStep(old(Abs()), c)
    {
      match this {
        case JsonShared(json) => err := json.Do(c);
        case SqlShared(sql) => err := sql.Do(c);
      }
    }

    method ListUsers() returns (r: seq<string>)
      requires Valid()
      ensures NamesAnswer(r, Abs().users)
    {
      match this {
        case JsonShared(json) => r := json.ListUsers();
        case SqlShared(sql) => r := sql.ListUsers();
      }
    }

    method ListResources() returns (r: seq<string>)
      requires Valid()
      ensures NamesAnswer(r, Abs().resources)
    {
      match this {
        case JsonShared(json) => r := json.ListResources();
        case SqlShared(sql) => r := sql.ListResources();
      }
    }

    method ListOperations() returns (r: seq<Operation>)
      requires Valid()
      ensures RegisterAnswer(r, Abs())
    {
      match this {
        case JsonShared(json) => r := json.ListOperations();
        case SqlShared(sql) => r := sql.ListOperations();
      }
    }

    /** Closes the store and opens it again from what it keeps. */
    method Reopen() returns (again: SharedStore)
      requires Valid()
      ensures fresh(again.Root()) && again.Valid() && again.Abs() == Abs()
    {
      match this {
        case JsonShared(json) =>
          var j := json.Reopen();
          again := SharedStore.JsonShared(j);
        case SqlShared(sql) =>
          var q := sql.Reopen();
          again := SharedStore.SqlShared(q);
      }
    }

    method OperationExists(name: string) returns (r: bool)
      requires Valid()
      ensures r <==> name in Abs().operations
    {
      match this {
        case JsonShared(json) => r := json.OperationExists(name);
        case SqlShared(sql) => r := sql.OperationExists(name);
      }
    }
  }

  datatype TenantStore = JsonTenant(json: JsonTenantStore) | SqlTenant(sql: SqlTenantStore) {

    ghost function Root(): object {
      match this
      case JsonTenant(json) => json
      case SqlTenant(sql) => sql
    }

    ghost function Repr(): set<object>
      reads Root()
    {
      match this
      case JsonTenant(json) => {json} + json.Records
      case SqlTenant(sql) => {sql}
    }

    ghost predicate Valid()
      reads Root(), Repr()
    {
      match this
      case JsonTenant(json) => json.Valid()
      case SqlTenant(sql) => sql.Valid()
    }

    ghost function Abs(): TenantState
      requires Valid()
      reads Root(), Repr()
    {
      match this
      case JsonTenant(json) => json.abs
      case SqlTenant(sql) => sql.Abs()
    }

    /** What a call does here: both drivers do the same, but for the relational one's removal of no ids. */
    function Step(t: TenantState, c: TenantCall): Outcome {
      if JsonTenant? then TenantStep(t, c) else SqlStep(t, c)
    }

    method Do(c: TenantCall) returns (err: Error)
      requires Valid()
      modifies Repr()
      ensures Valid() && fresh(Repr() - old(Repr()))
      ensures Outcome(Abs(), err) == Step(old(Abs()), c)
    {
      match this {
        case JsonTenant(json) => err := json.Do(c);
        case SqlTenant(sql) => err := sql.Do(c);
      }
    }

    method HasRolePermission(role: string, op: string) returns (err: Error, has: bool)
      requires Valid()
      modifies Repr()
      ensures Valid() && fresh(Repr() - old(Repr())) && Abs() == old(Abs())
      ensures err == if role in Abs().roles then Ok else NotFound
      ensures has <==> err == Ok && (role, op) in Abs().grants
    {
      match this {
        case JsonTenant(json) => err, has := json.HasRolePermission(role, op);
        case SqlTenant(sql) => err, has := sql.HasRolePermission(role, op);
      }
    }

    method HasUserPermission(sub: string, op: string) returns (has: bool)
      requires Valid()
      ensures has <==> (sub, op) in Abs().overrides
    {
      match this {
        case JsonTenant(json) => has := json.HasUserPermission(sub, op);
        case SqlTenant(sql) => has := sql.HasUserPermission(sub, op);
      }
    }

    method RolePermissions(role: string) returns (err: Error, r: seq<OperationScope>)
      requires Valid()
      modifies Repr()
      ensures Valid() && fresh(Repr() - old(Repr())) && Abs() == old(Abs())
      ensures err == if role in Abs().roles then Ok else NotFound
      ensures if err == Ok then PermissionsAnswer(r, Abs().grants, role) else r == []
    {
      match this {
        case JsonTenant(json) => err, r := json.RolePermissions(role);
        case SqlTenant(sql) => err, r := sql.RolePermissions(role);
      }
    }

    method RoleExists(name: string) returns (r: bool)
      requires Valid()
      ensures r <==> name in Abs().roles
    {
      match this {
        case JsonTenant(json) => r := json.RoleExists(name);
        case SqlTenant(sql) => r := sql.RoleExists(name);
      }
    }

    method UserPermissions(sub: string) returns (r: seq<OperationScope>)
      requires Valid()
      ensures PermissionsAnswer(r, Abs().overrides, sub)
    {
      match this {
        case JsonTenant(json) => r := json.UserPermissions(sub);
        case SqlTenant(sql) => r := sql.UserPermissions(sub);
      }
    }

    method ListRoles() returns (r: seq<string>)
      requires Valid()
      ensures StrictlySorted(r) && forall n :: n in r <==> n in Abs().roles
    {
      match this {
        case JsonTenant(json) => r := json.ListRoles();
        case SqlTenant(sql) => r := sql.ListRoles();
      }
    }

    /** Closes the store and opens it again from what it keeps. */
    method Reopen() returns (again: TenantStore)
      requires Valid()
      ensures fresh(again.Repr()) && again.Valid() && again.Abs() == Abs()
    {
      hide TenantDocument.Denotes, TenantDocument.Lean, SqlTables.Intact, SqlTables.Meaning;
      match this {
        case JsonTenant(json) =>
          var j := json.Reopen();
          again := TenantStore.JsonTenant(j);
        case SqlTenant(sql) =>
          var q := sql.Reopen();
          again := TenantStore.SqlTenant(q);
      }
    }

    method UserRoles(sub: string) returns (r: seq<string>)
      requires Valid()
      ensures RolesAnswer(r, Abs(), sub)
    {
      match this {
        case JsonTenant(json) => r := json.UserRoles(sub);
        case SqlTenant(sql) => r := sql.UserRoles(sub);
      }
    }

    method RoleGrants(names: seq<string>) returns (r: seq<RoleGrant>)
      requires Valid()
      ensures if JsonTenant? then GrantsPerMention(r, Abs(), names) else GrantsOnce(r, Abs(), names)
      ensures GrantsAnswer(r, Abs(), names)
    {
      match this {
        case JsonTenant(json) => r := json.RoleGrants(names);
        case SqlTenant(sql) => r := sql.RoleGrants(names);
      }
      CountedGrantsAreGrants(r, Abs(), names);
    }

    method RoleRestrictedIDs(names: seq<string>, op: string) returns (r: seq<string>)
      requires Valid()
      ensures RoleIdsAnswer(r, Abs(), names, op)
    {
      match this {
        case JsonTenant(json) => r := json.RoleRestrictedIDs(names, op);
        case SqlTenant(sql) => r := sql.RoleRestrictedIDs(names, op);
      }
    }

    method UserRestrictedIDs(sub: string, op: string) returns (r: seq<string>)
      requires Valid()
      ensures UserIdsAnswer(r, Abs(), sub, op)
    {
      match this {
        case JsonTenant(json) => r := json.UserRestrictedIDs(sub, op);
        case SqlTenant(sql) => r := sql.UserRestrictedIDs(sub, op);
      }
    }
  }
}
