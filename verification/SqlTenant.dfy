/** The relational driver of one tenant: statements on tables keyed by role id. */
module SqlTenant {
  import opened Model
  import opened Strings
  import opened TenantSpec
  import opened TenantAnswers
  import opened SqlTables

  /** A primary key no row has; the key of a deleted row may well come back. */
  method FreshKey<R>(rows: map<Key, R>) returns (k: Key)
    ensures k !in rows
  {
    k := 0;
    var todo := rows.Keys;
    while todo != {}
      invariant todo <= rows.Keys
      invariant forall j :: j in rows && j !in todo ==> j < k
      decreases todo
    {
      var j :| j in todo;
      todo := todo - {j};
      if j >= k {
        k := j + 1;
      }
    }
  }

  class SqlTenantStore {
    var db: Tables

    ghost predicate Valid()
      reads this
    {
      Intact(db)
    }

    ghost function Abs(): TenantState
      requires Valid()
      reads this
    {
      Meaning(db)
    }

    /** Opens a database: a new one is migrated to empty tables, an existing one is taken as it is. */
    constructor Open(existing: Option<Tables>)
      requires existing.Some? ==> Intact(existing.value)
      ensures Valid() && (existing.None? ==> Abs() == NO_TENANT_DATA)
      ensures existing.Some? ==> Abs() == Meaning(existing.value)
    {
      db := if existing.Some? then existing.value else NO_ROWS;
    }

    method FindRow(name: string) returns (found: bool, i: Key)
      requires Valid()
      ensures found <==> name in Abs().roles
      ensures found ==> i in db.roles && db.roles[i] == name
    {
      var hits := set k | k in db.roles && db.roles[k] == name;
      if hits == {} {
        found, i := false, 0;
        assert forall k :: k in db.roles && db.roles[k] == name ==> k in hits;
      } else {
        found := true;
        i :| i in hits;
      }
    }

    /** Insert unless the unique name is taken; says whether a row went in. */
    method InsertRole(name: string) returns (inserted: bool)
      requires Valid()
      modifies this
      ensures Valid() && (inserted <==> name !in old(Abs()).roles)
      ensures Abs() == old(Abs()).(roles := old(Abs()).roles + {name})
    {
      if name in db.roles.Values {
        assert Abs().roles + {name} == Abs().roles;
        return false;
      }
      var k := FreshKey(db.roles);
      RoleRowInserted(db, k, name);
      db := db.(roles := db.roles[k := name]);
      return true;
    }

    method CreateRole(name: string) returns (err: Error)
      requires Valid()
      modifies this
      ensures Valid() && Outcome(Abs(), err) == TenantStep(old(Abs()), TenantCall.CreateRole(name))
    {
      var inserted := InsertRole(name);
      if !inserted {
        assert old(Abs()).roles + {name} == old(Abs()).roles;
        return Conflict;
      }
      return Ok;
    }

    method EnsureRole(name: string) returns (err: Error)
      requires Valid()
      modifies this
      ensures Valid() && Outcome(Abs(), err) == TenantStep(old(Abs()), TenantCall.EnsureRole(name))
    {
      var _ := InsertRole(name);
      return Ok;
    }

    method RenameRole(name: string, newName: string) returns (err: Error)
      requires Valid()
      modifies this
      ensures Valid() && Outcome(Abs(), err) == TenantStep(old(Abs()), TenantCall.RenameRole(name, newName))
    {
      var found, i := FindRow(name);
      if !found {
        return NotFound;
      }
      var taken := RoleExists(newName);
      if taken {
        return Conflict;
      }
      RoleRowRenamed(db, i, newName);
      db := db.(roles := db.roles[i := newName]);
      return Ok;
    }

    method DeleteRole(name: string) returns (err: Error)
      requires Valid()
      modifies this
      ensures Valid() && Outcome(Abs(), err) == TenantStep(old(Abs()), TenantCall.DeleteRole(name))
    {
      var found, i := FindRow(name);
      if !found {
        return NotFound;
      }
      RoleRowsDeleted(db, i);
      db := WithoutRoleRows(db, i);
      return Ok;
    }

    method AssignRole(sub: string, role: string) returns (err: Error)
      requires Valid()
      modifies this
      ensures Valid() && Outcome(Abs(), err) == TenantStep(old(Abs()), TenantCall.AssignRole(sub, role))
    {
      var found, i := FindRow(role);
      if !found {
        return NotFound;
      }
      hide Assignments, Grants, RoleIds, Overrides, UserIds;
      AssignmentRow(db.roles, db.userRoles, i, sub);
      if UserRoleRow(sub, i) in db.userRoles.Values {
        assert Abs().assignments + {(sub, role)} == Abs().assignments;
        return Ok;
      }
      var k := FreshKey(db.userRoles);
      AssignmentInserted(db.roles, db.userRoles, k, sub, i);
      db := db.(userRoles := db.userRoles[k := UserRoleRow(sub, i)]);
      return Ok;
    }

    method UnassignRole(sub: string, role: string) returns (err: Error)
      requires Valid()
      modifies this
      ensures Valid() && Outcome(Abs(), err) == TenantStep(old(Abs()), TenantCall.UnassignRole(sub, role))
    {
      var found, i := FindRow(role);
      if !found {
        return NotFound;
      }
      hide Assignments, Grants, RoleIds, Overrides, UserIds;
      AssignmentRow(db.roles, db.userRoles, i, sub);
      var rest := WithoutAssignment(db.userRoles, sub, i);
      if rest == db.userRoles {
        assert forall k :: k in rest ==> rest[k] != UserRoleRow(sub, i);
        return NotFound;
      }
      assert UserRoleRow(sub, i) in db.userRoles.Values;
      AssignmentDeleted(db.roles, db.userRoles, sub, i);
      db := db.(userRoles := rest);
      return Ok;
    }

    method SetRolePermission(role: string, op: string, scope: Scope) returns (err: Error)
      requires Valid()
      modifies this
      ensures Valid() && Outcome(Abs(), err) == TenantStep(old(Abs()), TenantCall.SetRolePermission(role, op, scope))
    {
      var found, i := FindRow(role);
      if !found {
        return NotFound;
      }
      hide Assignments, Grants, RoleIds, Overrides, UserIds;
      var hits := set k | k in db.rolePermissions && db.rolePermissions[k].roleId == i
        && db.rolePermissions[k].operation == op;
      var k: Key;
      if hits == {} {
        k := FreshKey(db.rolePermissions);
        assert forall j ::
          j in db.rolePermissions && db.rolePermissions[j].roleId == i && db.rolePermissions[j].operation == op ==>
            j in hits;
      } else {
        k :| k in hits;
      }
      GrantUpserted(db.roles, db.rolePermissions, k, i, op, scope);
      db := db.(rolePermissions := db.rolePermissions[k := RolePermissionRow(i, op, scope)]);
      return Ok;
    }

    method RemoveRolePermission(role: string, op: string) returns (err: Error)
      requires Valid()
      modifies this
      ensures Valid() && Outcome(Abs(), err) == TenantStep(old(Abs()), TenantCall.RemoveRolePermission(role, op))
    {
      var found, i := FindRow(role);
      if !found {
        return NotFound;
      }
      hide Assignments, Grants, RoleIds, Overrides, UserIds;
      var rest := WithoutPermission(db.rolePermissions, i, op);
      GrantRow(db.roles, db.rolePermissions, i, op);
      if rest == db.rolePermissions {
        assert forall k :: k in rest ==> !(rest[k].roleId == i && rest[k].operation == op);
        return NotFound;
      }
      assert exists k :: k in db.rolePermissions && k !in rest;
      GrantDeleted(db.roles, db.rolePermissions, i, op);
      OperationIdsDeleted(db.roles, db.roleRecordIds, i, op);
      db := db.(rolePermissions := rest, roleRecordIds := WithoutOperationIds(db.roleRecordIds, i, op));
      return Ok;
    }

    method SetUserPermission(sub: string, op: string, scope: Scope) returns (err: Error)
      requires Valid()
      modifies this
      ensures Valid() && Outcome(Abs(), err) == TenantStep(old(Abs()), TenantCall.SetUserPermission(sub, op, scope))
    {
      hide Assignments, Grants, RoleIds, Overrides, UserIds;
      var hits := set k | k in db.userPermissions && db.userPermissions[k].userSub == sub
        && db.userPermissions[k].operation == op;
      var k: Key;
      if hits == {} {
        k := FreshKey(db.userPermissions);
        assert forall j ::
          j in db.userPermissions && db.userPermissions[j].userSub == sub && db.userPermissions[j].operation == op ==>
            j in hits;
      } else {
        k :| k in hits;
      }
      OverrideUpserted(db.userPermissions, k, sub, op, scope);
      db := db.(userPermissions := db.userPermissions[k := UserPermissionRow(sub, op, scope)]);
      return Ok;
    }

    method RemoveUserPermission(sub: string, op: string) returns (err: Error)
      requires Valid()
      modifies this
      ensures Valid() && Outcome(Abs(), err) == TenantStep(old(Abs()), TenantCall.RemoveUserPermission(sub, op))
    {
      hide Assignments, Grants, RoleIds, Overrides, UserIds;
      var rest := WithoutOverride(db.userPermissions, sub, op);
      OverrideDeleted(db.userPermissions, sub, op);
      OverrideRow(db.userPermissions, sub, op);
      if rest == db.userPermissions {
        assert forall k :: k in rest ==> !(rest[k].userSub == sub && rest[k].operation == op);
        return NotFound;
      }
      assert exists k :: k in db.userPermissions && k !in rest;
      UserOperationIdsDeleted(db.userRecordIds, sub, op);
      db := db.(userPermissions := rest, userRecordIds := WithoutUserOperationIds(db.userRecordIds, sub, op));
      return Ok;
    }

    method AddRoleIDs(role: string, op: string, ids: seq<string>) returns (err: Error)
      requires Valid()
      modifies this
      ensures Valid() && Outcome(Abs(), err) == TenantStep(old(Abs()), TenantCall.AddRoleIDs(role, op, ids))
    {
      var found, i := FindRow(role);
      if !found {
        return NotFound;
      }
      hide Assignments, Grants, RoleIds, Overrides, UserIds;
      ghost var t := Abs();
      for n := 0 to |ids|
        invariant Valid() && i in db.roles && db.roles[i] == role
        invariant Abs() == t.(roleIds := t.roleIds + Ids(role, op, ids[..n]))
      {
        assert Ids(role, op, ids[..n + 1]) == Ids(role, op, ids[..n]) + {(role, op, ids[n])};
        InsertRoleId(i, op, ids[n]);
      }
      assert ids[..|ids|] == ids;
      return Ok;
    }

    method InsertRoleId(i: Key, op: string, id: string)
      requires Valid() && i in db.roles
      modifies this
      ensures Valid() && db.roles == old(db).roles
      ensures Abs() == old(Abs()).(roleIds := old(Abs()).roleIds + {(db.roles[i], op, id)})
    {
      hide Assignments, Grants, RoleIds, Overrides, UserIds;
      RoleIdRow(db.roles, db.roleRecordIds, i, op, id);
      if RoleRecordIdRow(i, op, id) in db.roleRecordIds.Values {
        assert Abs().roleIds + {(db.roles[i], op, id)} == Abs().roleIds;
      } else {
        var k := FreshKey(db.roleRecordIds);
        RoleIdInserted(db.roles, db.roleRecordIds, k, i, op, id);
        db := db.(roleRecordIds := db.roleRecordIds[k := RoleRecordIdRow(i, op, id)]);
      }
    }

    /** Deleting no ids asks nothing of the role: unlike the JSON driver, this one does not look it up. */
    method RemoveRoleIDs(role: string, op: string, ids: seq<string>) returns (err: Error)
      requires Valid()
      modifies this
      ensures Valid()
      ensures ids != [] || role in old(Abs()).roles ==>
        Outcome(Abs(), err) == TenantStep(old(Abs()), TenantCall.RemoveRoleIDs(role, op, ids))
      ensures ids == [] ==> Outcome(Abs(), err) == Outcome(old(Abs()), Ok)
    {
      if ids == [] {
        assert Abs().roleIds - Ids(role, op, ids) == Abs().roleIds;
        return Ok;
      }
      var found, i := FindRow(role);
      if !found {
        return NotFound;
      }
      hide Assignments, Grants, RoleIds, Overrides, UserIds;
      ListedRoleIdsDeleted(db.roles, db.roleRecordIds, i, op, ids);
      db := db.(roleRecordIds := WithoutRoleIds(db.roleRecordIds, i, op, set id | id in ids));
      return Ok;
    }

    method AddUserIDs(sub: string, op: string, ids: seq<string>) returns (err: Error)
      requires Valid()
      modifies this
      ensures Valid() && Outcome(Abs(), err) == TenantStep(old(Abs()), TenantCall.AddUserIDs(sub, op, ids))
    {
      hide Assignments, Grants, RoleIds, Overrides, UserIds;
      ghost var t := Abs();
      for n := 0 to |ids|
        invariant Valid()
        invariant Abs() == t.(userIds := t.userIds + Ids(sub, op, ids[..n]))
      {
        assert Ids(sub, op, ids[..n + 1]) == Ids(sub, op, ids[..n]) + {(sub, op, ids[n])};
        InsertUserId(sub, op, ids[n]);
      }
      assert ids[..|ids|] == ids;
      return Ok;
    }

    method InsertUserId(sub: string, op: string, id: string)
      requires Valid()
      modifies this
      ensures Valid() && Abs() == old(Abs()).(userIds := old(Abs()).userIds + {(sub, op, id)})
    {
      hide Assignments, Grants, RoleIds, Overrides;
      if UserRecordIdRow(sub, op, id) in db.userRecordIds.Values {
        assert Abs().userIds + {(sub, op, id)} == Abs().userIds;
      } else {
        var k := FreshKey(db.userRecordIds);
        UserIdInserted(db.userRecordIds, k, sub, op, id);
        db := db.(userRecordIds := db.userRecordIds[k := UserRecordIdRow(sub, op, id)]);
      }
    }

    method RemoveUserIDs(sub: string, op: string, ids: seq<string>) returns (err: Error)
      requires Valid()
      modifies this
      ensures Valid() && Outcome(Abs(), err) == TenantStep(old(Abs()), TenantCall.RemoveUserIDs(sub, op, ids))
    {
      if ids == [] {
        assert Abs().userIds - Ids(sub, op, ids) == Abs().userIds;
        return Ok;
      }
      hide Assignments, Grants, RoleIds, Overrides, UserIds;
      ListedUserIdsDeleted(db.userRecordIds, sub, op, ids);
      db := db.(userRecordIds := WithoutUserIds(db.userRecordIds, sub, op, set id | id in ids));
      return Ok;
    }

    /** The database outlives the connection to it. */
    method Reopen() returns (again: SqlTenantStore)
      requires Valid()
      ensures fresh(again) && again.Valid() && again.Abs() == Abs()
    {
      again := new SqlTenantStore.Open(Some(db));
    }

    method Do(c: TenantCall) returns (err: Error)
      requires Valid()
      modifies this
      ensures Valid() && Outcome(Abs(), err) == SqlStep(old(Abs()), c)
    {
      hide Intact, Meaning, TenantStep;
      match c {
        case CreateRole(name) => err := CreateRole(name);
        case EnsureRole(name) => err := EnsureRole(name);
        case RenameRole(name, newName) => err := RenameRole(name, newName);
        case DeleteRole(name) => err := DeleteRole(name);
        case AssignRole(sub, role) => err := AssignRole(sub, role);
        case UnassignRole(sub, role) => err := UnassignRole(sub, role);
        case SetRolePermission(role, op, scope) => err := SetRolePermission(role, op, scope);
        case RemoveRolePermission(role, op) => err := RemoveRolePermission(role, op);
        case SetUserPermission(sub, op, scope) => err := SetUserPermission(sub, op, scope);
        case RemoveUserPermission(sub, op) => err := RemoveUserPermission(sub, op);
        case AddRoleIDs(role, op, ids) => err := AddRoleIDs(role, op, ids);
        case RemoveRoleIDs(role, op, ids) => err := RemoveRoleIDs(role, op, ids);
        case AddUserIDs(sub, op, ids) => err := AddUserIDs(sub, op, ids);
        case RemoveUserIDs(sub, op, ids) => err := RemoveUserIDs(sub, op, ids);
      }
    }

    // ---- Questions ----

    method RoleExists(name: string) returns (r: bool)
      requires Valid()
      ensures r <==> name in Abs().roles
    {
      r := name in db.roles.Values;
    }

    method ListRoles() returns (r: seq<string>)
      requires Valid()
      ensures StrictlySorted(r) && forall n :: n in r <==> n in Abs().roles
    {
      hide Assignments, Grants, RoleIds, Overrides, UserIds, StrictlySorted;
      r := SortedElements(db.roles.Values);
    }

    method UserRoles(sub: string) returns (r: seq<string>)
      requires Valid()
      ensures RolesAnswer(r, Abs(), sub)
    {
      hide Grants, RoleIds, Overrides, UserIds;
      var ids := set k | k in db.userRoles && db.userRoles[k].userSub == sub :: db.userRoles[k].roleId;
      assert forall k :: k in db.userRoles && db.userRoles[k].userSub == sub ==> db.userRoles[k].roleId in ids;
      if ids == {} {
        return [];
      }
      var names := set i | i in db.roles && i in ids :: db.roles[i];
      r := SortedElements(names);
      forall n ensures n in names <==> (sub, n) in Abs().assignments {
        if (sub, n) in Abs().assignments {
          var k :| k in db.userRoles && (sub, n) == (db.userRoles[k].userSub, db.roles[db.userRoles[k].roleId]);
          assert db.userRoles[k].roleId in ids;
        }
      }
    }

    method RolePermissions(role: string) returns (err: Error, r: seq<OperationScope>)
      requires Valid()
      ensures err == if role in Abs().roles then Ok else NotFound
      ensures if err == Ok then PermissionsAnswer(r, Abs().grants, role) else r == []
    {
      hide Assignments, Grants, RoleIds, Overrides, UserIds;
      var found, i := FindRow(role);
      if !found {
        return NotFound, [];
      }
      var rows := map k | k in db.rolePermissions && db.rolePermissions[k].roleId == i :: db.rolePermissions[k];
      var scopes := map op | op in (set k | k in rows :: rows[k].operation) :: ScopeOfRow(rows, op);
      r := ListPermissions(scopes);
      forall op, scope
        ensures OperationScope(op, scope) in r <==> (role, op) in Abs().grants && Abs().grants[(role, op)] == scope
      {
        GrantRow(db.roles, db.rolePermissions, i, op);
        if (role, op) in Abs().grants {
          var k :| k in db.rolePermissions && db.rolePermissions[k].roleId == i
            && db.rolePermissions[k].operation == op;
          assert k in rows;
        }
      }
      err := Ok;
    }

    method HasRolePermission(role: string, op: string) returns (err: Error, has: bool)
      requires Valid()
      ensures err == if role in Abs().roles then Ok else NotFound
      ensures has <==> err == Ok && (role, op) in Abs().grants
    {
      hide Assignments, Grants, RoleIds, Overrides, UserIds;
      var found, i := FindRow(role);
      if !found {
        return NotFound, false;
      }
      GrantRow(db.roles, db.rolePermissions, i, op);
      has := exists k ::
        k in db.rolePermissions && db.rolePermissions[k].roleId == i && db.rolePermissions[k].operation == op;
      err := Ok;
    }

    method UserPermissions(sub: string) returns (r: seq<OperationScope>)
      requires Valid()
      ensures PermissionsAnswer(r, Abs().overrides, sub)
    {
      hide Assignments, Grants, RoleIds, Overrides, UserIds;
      var rows := map k | k in db.userPermissions && db.userPermissions[k].userSub == sub :: db.userPermissions[k];
      var scopes := map op | op in (set k | k in rows :: rows[k].operation) :: ScopeOfUserRow(rows, op);
      r := ListPermissions(scopes);
      forall op, scope
        ensures OperationScope(op, scope) in r <==> (sub, op) in Abs().overrides && Abs().overrides[(sub, op)] == scope
      {
        OverrideRow(db.userPermissions, sub, op);
        if (sub, op) in Abs().overrides {
          var k :| k in db.userPermissions && db.userPermissions[k].userSub == sub
            && db.userPermissions[k].operation == op;
          assert k in rows;
        }
      }
    }

    method HasUserPermission(sub: string, op: string) returns (has: bool)
      requires Valid()
      ensures has <==> (sub, op) in Abs().overrides
    {
      OverrideRow(db.userPermissions, sub, op);
      has := exists k ::
        k in db.userPermissions && db.userPermissions[k].userSub == sub && db.userPermissions[k].operation == op;
    }

    method UserRestrictedIDs(sub: string, op: string) returns (r: seq<string>)
      requires Valid()
      ensures UserIdsAnswer(r, Abs(), sub, op)
    {
      hide Assignments, Grants, RoleIds, Overrides;
      r := [];
      var todo := set k | k in db.userRecordIds && db.userRecordIds[k].userSub == sub
        && db.userRecordIds[k].operation == op;
      ghost var all := todo;
      while todo != {}
        invariant todo <= all
        invariant NoDuplicates(r)
        invariant forall id :: id in r <==> exists k :: k in all && k !in todo && db.userRecordIds[k].recordId == id
        decreases todo
      {
        var k :| k in todo;
        var id := db.userRecordIds[k].recordId;
        assert forall j :: j in all && db.userRecordIds[j].recordId == id ==> j == k;
        assert id !in r;
        todo := todo - {k};
        r := r + [id];
      }
    }

    method RoleRestrictedIDs(names: seq<string>, op: string) returns (r: seq<string>)
      requires Valid()
      ensures RoleIdsAnswer(r, Abs(), names, op)
    {
      hide Assignments, Grants, RoleIds, Overrides, UserIds;
      r := [];
      if names == [] {
        return;
      }
      var ids := set i | i in db.roles && db.roles[i] in names;
      var todo := set k | k in db.roleRecordIds && db.roleRecordIds[k].roleId in ids
        && db.roleRecordIds[k].operation == op;
      ghost var all := todo;
      var seen := {};
      while todo != {}
        invariant todo <= all
        invariant seen == set id | id in r
        invariant NoDuplicates(r)
        invariant forall id :: id in r <==> exists k :: k in all && k !in todo && db.roleRecordIds[k].recordId == id
        decreases todo
      {
        var k :| k in todo;
        todo := todo - {k};
        var id := db.roleRecordIds[k].recordId;
        if id !in seen {
          seen := seen + {id};
          r := r + [id];
        }
      }
      forall id ensures id in r <==> exists n :: n in names && (n, op, id) in Abs().roleIds {
        RowOfRoleId(db.roles, db.roleRecordIds, names, op, id);
      }
    }

    method RoleGrants(wanted: seq<string>) returns (r: seq<RoleGrant>)
      requires Valid()
      ensures GrantsOnce(r, Abs(), wanted)
    {
      hide Assignments, Grants, RoleIds, Overrides, UserIds;
      r := [];
      if wanted == [] {
        return;
      }
      var names := map i | i in db.roles && db.roles[i] in wanted :: db.roles[i];
      r := CollectGrants(names);
      forall g ensures multiset(r)[g] == if g.role in wanted && GrantHolds(Abs(), g) then 1 else 0 {
        RowOfGrant(db.roles, db.rolePermissions, g);
        CountInDistinct(r, g);
      }
    }

    /** One grant a row, for the rows of the roles named, in whatever order the database returns them. */
    method CollectGrants(names: map<Key, string>) returns (r: seq<RoleGrant>)
      requires Valid() && forall i :: i in names ==> i in db.roles && names[i] == db.roles[i]
      ensures NoDuplicates(r)
      ensures forall g :: g in r <==>
        exists k :: k in db.rolePermissions && db.rolePermissions[k].roleId in names
          && g == GrantOfRow(db.roles, db.rolePermissions[k])
    {
      hide Assignments, Grants, RoleIds, Overrides, UserIds;
      r := [];
      var todo := set k | k in db.rolePermissions && db.rolePermissions[k].roleId in names;
      ghost var all := todo;
      while todo != {}
        invariant todo <= all
        invariant NoDuplicates(r)
        invariant forall g :: g in r <==>
          exists k :: k in all && k !in todo && g == GrantOfRow(db.roles, db.rolePermissions[k])
        decreases todo
      {
        var k :| k in todo;
        var row := db.rolePermissions[k];
        var g := RoleGrant(names[row.roleId], row.operation, row.scope);
        assert g == GrantOfRow(db.roles, row);
        assert forall j :: j in all && GrantOfRow(db.roles, db.rolePermissions[j]) == g ==> j == k;
        assert g !in r;
        todo := todo - {k};
        r := r + [g];
      }
    }
  }

  lemma RowOfRoleId(roles: map<Key, string>, rows: map<Key, RoleRecordIdRow>, names: seq<string>, op: string,
                    id: string)
    requires RecordIdsRefer(roles, rows)
    ensures (exists n :: n in names && (n, op, id) in RoleIds(roles, rows)) <==>
      exists k :: k in rows && roles[rows[k].roleId] in names && rows[k].operation == op && rows[k].recordId == id
  {
    if k :| k in rows && roles[rows[k].roleId] in names && rows[k].operation == op && rows[k].recordId == id {
      assert (roles[rows[k].roleId], op, id) in RoleIds(roles, rows);
    }
  }

  lemma RowOfGrant(roles: map<Key, string>, rows: map<Key, RolePermissionRow>, g: RoleGrant)
    requires NoTwoAlike(roles) && PermissionsRefer(roles, rows) && UniqueRolePermissions(rows)
    ensures (g.role, g.operation) in Grants(roles, rows) && Grants(roles, rows)[(g.role, g.operation)] == g.scope
      <==> exists k :: k in rows && g == GrantOfRow(roles, rows[k])
  {
    hide Grants;
    GrantsAreGrants(roles, rows);
    if (g.role, g.operation) in Grants(roles, rows) && Grants(roles, rows)[(g.role, g.operation)] == g.scope {
      var k :| k in rows && (g.role, g.operation) == (roles[rows[k].roleId], rows[k].operation);
      assert g == GrantOfRow(roles, rows[k]);
    }
  }

  ghost function GrantOfRow(roles: map<Key, string>, row: RolePermissionRow): RoleGrant {
    RoleGrant(if row.roleId in roles then roles[row.roleId] else "", row.operation, row.scope)
  }

  function ScopeOfRow(rows: map<Key, RolePermissionRow>, op: string): (s: Scope)
    requires exists k :: k in rows && rows[k].operation == op
    requires forall a, b :: a in rows && b in rows && rows[a].operation == rows[b].operation ==> a == b
    ensures forall k :: k in rows && rows[k].operation == op ==> s == rows[k].scope
  {
    var k :| k in rows && rows[k].operation == op;
    rows[k].scope
  }

  function ScopeOfUserRow(rows: map<Key, UserPermissionRow>, op: string): (s: Scope)
    requires exists k :: k in rows && rows[k].operation == op
    requires forall a, b :: a in rows && b in rows && rows[a].operation == rows[b].operation ==> a == b
    ensures forall k :: k in rows && rows[k].operation == op ==> s == rows[k].scope
  {
    var k :| k in rows && rows[k].operation == op;
    rows[k].scope
  }
}
