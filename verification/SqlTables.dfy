/** The relational form of a tenant: tables of rows under a primary key, roles referred to by their row's id. */
module SqlTables {
  import opened Model
  import opened TenantSpec

  type Key = nat

  datatype UserRoleRow = UserRoleRow(userSub: string, roleId: Key)
  datatype RolePermissionRow = RolePermissionRow(roleId: Key, operation: string, scope: Scope)
  datatype UserPermissionRow = UserPermissionRow(userSub: string, operation: string, scope: Scope)
  datatype RoleRecordIdRow = RoleRecordIdRow(roleId: Key, operation: string, recordId: string)
  datatype UserRecordIdRow = UserRecordIdRow(userSub: string, operation: string, recordId: string)

  datatype Tables = Tables(
    roles: map<Key, string>,
    userRoles: map<Key, UserRoleRow>,
    rolePermissions: map<Key, RolePermissionRow>,
    userPermissions: map<Key, UserPermissionRow>,
    roleRecordIds: map<Key, RoleRecordIdRow>,
    userRecordIds: map<Key, UserRecordIdRow>)

  const NO_ROWS := Tables(map[], map[], map[], map[], map[], map[])

  // ---- Integrity: unique indexes, and references nobody but the code keeps ----

  ghost predicate NoTwoAlike<R>(rows: map<Key, R>) {
    forall a, b :: a in rows && b in rows && rows[a] == rows[b] ==> a == b
  }

  ghost predicate UniqueRolePermissions(rows: map<Key, RolePermissionRow>) {
    forall a, b ::
      a in rows && b in rows && rows[a].roleId == rows[b].roleId && rows[a].operation == rows[b].operation ==> a == b
  }

  ghost predicate UniqueUserPermissions(rows: map<Key, UserPermissionRow>) {
    forall a, b ::
      a in rows && b in rows && rows[a].userSub == rows[b].userSub && rows[a].operation == rows[b].operation ==> a == b
  }

  ghost predicate AssignmentsRefer(roles: map<Key, string>, rows: map<Key, UserRoleRow>) {
    forall k :: k in rows ==> rows[k].roleId in roles
  }

  ghost predicate PermissionsRefer(roles: map<Key, string>, rows: map<Key, RolePermissionRow>) {
    forall k :: k in rows ==> rows[k].roleId in roles
  }

  ghost predicate RecordIdsRefer(roles: map<Key, string>, rows: map<Key, RoleRecordIdRow>) {
    forall k :: k in rows ==> rows[k].roleId in roles
  }

  /** Every unique index is unique, and every role_id names a row of the roles table. */
  ghost predicate Intact(db: Tables) {
    && NoTwoAlike(db.roles)
    && NoTwoAlike(db.userRoles)
    && UniqueRolePermissions(db.rolePermissions)
    && UniqueUserPermissions(db.userPermissions)
    && NoTwoAlike(db.roleRecordIds)
    && NoTwoAlike(db.userRecordIds)
    && AssignmentsRefer(db.roles, db.userRoles)
    && PermissionsRefer(db.roles, db.rolePermissions)
    && RecordIdsRefer(db.roles, db.roleRecordIds)
  }

  // ---- The state the tables denote: every role id replaced by its name ----

  ghost function Assignments(roles: map<Key, string>, rows: map<Key, UserRoleRow>): set<(string, string)>
    requires AssignmentsRefer(roles, rows)
  {
    set k | k in rows :: (rows[k].userSub, roles[rows[k].roleId])
  }

  ghost function Grants(roles: map<Key, string>, rows: map<Key, RolePermissionRow>): map<(string, string), Scope>
    requires NoTwoAlike(roles) && PermissionsRefer(roles, rows) && UniqueRolePermissions(rows)
  {
    map x | x in (set k | k in rows :: (roles[rows[k].roleId], rows[k].operation)) :: GrantedScope(roles, rows, x)
  }

  ghost function GrantedScope(roles: map<Key, string>, rows: map<Key, RolePermissionRow>, x: (string, string)): Scope
    requires PermissionsRefer(roles, rows)
    requires exists k :: k in rows && x == (roles[rows[k].roleId], rows[k].operation)
  {
    var k :| k in rows && x == (roles[rows[k].roleId], rows[k].operation);
    rows[k].scope
  }

  /** g holds each row's scope under its role's name, and nothing else. */
  ghost predicate AreGrants(g: map<(string, string), Scope>, roles: map<Key, string>, rows: map<Key, RolePermissionRow>)
    requires PermissionsRefer(roles, rows)
  {
    && (forall k :: k in rows ==> (roles[rows[k].roleId], rows[k].operation) in g)
    && (forall k :: k in rows && (roles[rows[k].roleId], rows[k].operation) in g ==>
          g[(roles[rows[k].roleId], rows[k].operation)] == rows[k].scope)
    && (forall x :: x in g ==> exists k :: k in rows && x == (roles[rows[k].roleId], rows[k].operation))
  }

  lemma GrantsAreGrants(roles: map<Key, string>, rows: map<Key, RolePermissionRow>)
    requires NoTwoAlike(roles) && PermissionsRefer(roles, rows) && UniqueRolePermissions(rows)
    ensures AreGrants(Grants(roles, rows), roles, rows)
  {
  }

  lemma GrantsFromRows(g: map<(string, string), Scope>, roles: map<Key, string>, rows: map<Key, RolePermissionRow>)
    requires NoTwoAlike(roles) && PermissionsRefer(roles, rows) && UniqueRolePermissions(rows)
    requires AreGrants(g, roles, rows)
    ensures g == Grants(roles, rows)
  {
    hide Grants;
    GrantsAreGrants(roles, rows);
    var h := Grants(roles, rows);
    forall x ensures x in g <==> x in h
      ensures x in g && x in h ==> g[x] == h[x]
    {
      if x in g {
        var k :| k in rows && x == (roles[rows[k].roleId], rows[k].operation);
      }
    }
  }

  ghost function RoleIds(roles: map<Key, string>, rows: map<Key, RoleRecordIdRow>): set<(string, string, string)>
    requires RecordIdsRefer(roles, rows)
  {
    set k | k in rows :: (roles[rows[k].roleId], rows[k].operation, rows[k].recordId)
  }

  ghost function Overrides(rows: map<Key, UserPermissionRow>): map<(string, string), Scope>
    requires UniqueUserPermissions(rows)
  {
    map x | x in (set k | k in rows :: (rows[k].userSub, rows[k].operation)) :: OverrideScope(rows, x)
  }

  ghost function OverrideScope(rows: map<Key, UserPermissionRow>, x: (string, string)): Scope
    requires exists k :: k in rows && x == (rows[k].userSub, rows[k].operation)
  {
    var k :| k in rows && x == (rows[k].userSub, rows[k].operation);
    rows[k].scope
  }

  ghost predicate AreOverrides(g: map<(string, string), Scope>, rows: map<Key, UserPermissionRow>) {
    && (forall k :: k in rows ==> (rows[k].userSub, rows[k].operation) in g)
    && (forall k :: k in rows && (rows[k].userSub, rows[k].operation) in g ==>
          g[(rows[k].userSub, rows[k].operation)] == rows[k].scope)
    && (forall x :: x in g ==> exists k :: k in rows && x == (rows[k].userSub, rows[k].operation))
  }

  lemma OverridesAreOverrides(rows: map<Key, UserPermissionRow>)
    requires UniqueUserPermissions(rows)
    ensures AreOverrides(Overrides(rows), rows)
  {
  }

  lemma OverridesFromRows(g: map<(string, string), Scope>, rows: map<Key, UserPermissionRow>)
    requires UniqueUserPermissions(rows) && AreOverrides(g, rows)
    ensures g == Overrides(rows)
  {
    hide Overrides;
    OverridesAreOverrides(rows);
    var h := Overrides(rows);
    forall x ensures x in g <==> x in h
      ensures x in g && x in h ==> g[x] == h[x]
    {
      if x in g {
        var k :| k in rows && x == (rows[k].userSub, rows[k].operation);
      }
    }
  }

  ghost function UserIds(rows: map<Key, UserRecordIdRow>): set<(string, string, string)> {
    set k | k in rows :: (rows[k].userSub, rows[k].operation, rows[k].recordId)
  }

  ghost function Meaning(db: Tables): TenantState
    requires Intact(db)
  {
    TenantState(db.roles.Values, Assignments(db.roles, db.userRoles), Grants(db.roles, db.rolePermissions),
                RoleIds(db.roles, db.roleRecordIds), Overrides(db.userPermissions), UserIds(db.userRecordIds))
  }

  lemma MeaningNamesExistingRoles(db: Tables)
    requires Intact(db)
    ensures RolesExist(Meaning(db))
  {
  }

  // ---- One statement at a time ----

  lemma AssignmentRow(roles: map<Key, string>, rows: map<Key, UserRoleRow>, i: Key, sub: string)
    requires NoTwoAlike(roles) && AssignmentsRefer(roles, rows) && i in roles
    ensures (sub, roles[i]) in Assignments(roles, rows) <==> UserRoleRow(sub, i) in rows.Values
  {
  }

  lemma AssignmentInserted(roles: map<Key, string>, rows: map<Key, UserRoleRow>, k: Key, sub: string, i: Key)
    requires AssignmentsRefer(roles, rows) && i in roles && k !in rows
    ensures AssignmentsRefer(roles, rows[k := UserRoleRow(sub, i)])
    ensures Assignments(roles, rows[k := UserRoleRow(sub, i)]) == Assignments(roles, rows) + {(sub, roles[i])}
  {
    var after := rows[k := UserRoleRow(sub, i)];
    assert k in after && after[k] == UserRoleRow(sub, i);
    forall x | x in Assignments(roles, rows) ensures x in Assignments(roles, after) {
      var j :| j in rows && x == (rows[j].userSub, roles[rows[j].roleId]);
      assert j in after && after[j] == rows[j];
    }
  }

  /** The insert by itself keeps the tables in order exactly when the role's row is still there; looking the role up
      and inserting are two statements. */
  lemma AssignmentNeedsRole(db: Tables, k: Key, sub: string, i: Key)
    requires Intact(db) && k !in db.userRoles && forall j :: j in db.userRoles ==>
      db.userRoles[j] != UserRoleRow(sub, i)
    ensures Intact(db.(userRoles := db.userRoles[k := UserRoleRow(sub, i)])) <==> i in db.roles
  {
    var after := db.userRoles[k := UserRoleRow(sub, i)];
    assert after[k] == UserRoleRow(sub, i);
  }

  function WithoutAssignment(rows: map<Key, UserRoleRow>, sub: string, i: Key): map<Key, UserRoleRow> {
    map k | k in rows && rows[k] != UserRoleRow(sub, i) :: rows[k]
  }

  lemma AssignmentDeleted(roles: map<Key, string>, rows: map<Key, UserRoleRow>, sub: string, i: Key)
    requires NoTwoAlike(roles) && AssignmentsRefer(roles, rows) && i in roles
    ensures Assignments(roles, WithoutAssignment(rows, sub, i)) == Assignments(roles, rows) - {(sub, roles[i])}
  {
    var after := WithoutAssignment(rows, sub, i);
    forall x | x in Assignments(roles, rows) && x != (sub, roles[i]) ensures x in Assignments(roles, after) {
      var j :| j in rows && x == (rows[j].userSub, roles[rows[j].roleId]);
      assert j in after;
    }
  }

  lemma GrantRow(roles: map<Key, string>, rows: map<Key, RolePermissionRow>, i: Key, op: string)
    requires NoTwoAlike(roles) && PermissionsRefer(roles, rows) && UniqueRolePermissions(rows) && i in roles
    ensures (roles[i], op) in Grants(roles, rows) <==>
      exists k :: k in rows && rows[k].roleId == i && rows[k].operation == op
    ensures forall k :: k in rows && rows[k].roleId == i && rows[k].operation == op ==>
      (roles[i], op) in Grants(roles, rows) && Grants(roles, rows)[(roles[i], op)] == rows[k].scope
  {
    hide Grants;
    GrantsAreGrants(roles, rows);
  }

  /** An upsert keyed on (role, operation): the one row with that key, or a new one, gets the scope. */
  lemma GrantUpserted(roles: map<Key, string>, rows: map<Key, RolePermissionRow>, k: Key, i: Key, op: string,
                      scope: Scope)
    requires NoTwoAlike(roles) && PermissionsRefer(roles, rows) && UniqueRolePermissions(rows) && i in roles
    requires k in rows ==> rows[k].roleId == i && rows[k].operation == op
    requires k !in rows ==> forall j :: j in rows ==> !(rows[j].roleId == i && rows[j].operation == op)
    ensures var after := rows[k := RolePermissionRow(i, op, scope)];
      && PermissionsRefer(roles, after) && UniqueRolePermissions(after)
      && Grants(roles, after) == Grants(roles, rows)[(roles[i], op) := scope]
  {
    hide Grants, AreGrants;
    var after := rows[k := RolePermissionRow(i, op, scope)];
    GrantsAreGrants(roles, rows);
    OtherPermissionsNamedApart(roles, rows, k, i, op);
    hide NoTwoAlike;
    UpsertedRowsAreGrants(Grants(roles, rows), roles, rows, k, i, op, scope);
    GrantsFromRows(Grants(roles, rows)[(roles[i], op) := scope], roles, after);
  }

  lemma OtherPermissionsNamedApart(roles: map<Key, string>, rows: map<Key, RolePermissionRow>, k: Key, i: Key,
                                   op: string)
    requires NoTwoAlike(roles) && PermissionsRefer(roles, rows) && UniqueRolePermissions(rows) && i in roles
    requires k in rows ==> rows[k].roleId == i && rows[k].operation == op
    requires k !in rows ==> forall j :: j in rows ==> !(rows[j].roleId == i && rows[j].operation == op)
    ensures forall j :: j in rows && j != k ==> (roles[rows[j].roleId], rows[j].operation) != (roles[i], op)
  {
  }

  lemma UpsertedRowsAreGrants(g: map<(string, string), Scope>, roles: map<Key, string>,
                              rows: map<Key, RolePermissionRow>, k: Key, i: Key, op: string, scope: Scope)
    requires PermissionsRefer(roles, rows) && i in roles && AreGrants(g, roles, rows)
    requires k in rows ==> rows[k].roleId == i && rows[k].operation == op
    requires forall j :: j in rows && j != k ==> (roles[rows[j].roleId], rows[j].operation) != (roles[i], op)
    ensures PermissionsRefer(roles, rows[k := RolePermissionRow(i, op, scope)])
    ensures AreGrants(g[(roles[i], op) := scope], roles, rows[k := RolePermissionRow(i, op, scope)])
  {
    var after := rows[k := RolePermissionRow(i, op, scope)];
    var now := g[(roles[i], op) := scope];
    forall x | x in now ensures exists j :: j in after && x == (roles[after[j].roleId], after[j].operation) {
      if x == (roles[i], op) {
        assert k in after;
      } else {
        var j :| j in rows && x == (roles[rows[j].roleId], rows[j].operation);
        assert j in after && after[j] == rows[j];
      }
    }
  }

  function WithoutPermission(rows: map<Key, RolePermissionRow>, i: Key, op: string): map<Key, RolePermissionRow> {
    map k | k in rows && !(rows[k].roleId == i && rows[k].operation == op) :: rows[k]
  }

  lemma GrantDeleted(roles: map<Key, string>, rows: map<Key, RolePermissionRow>, i: Key, op: string)
    requires NoTwoAlike(roles) && PermissionsRefer(roles, rows) && UniqueRolePermissions(rows) && i in roles
    ensures Grants(roles, WithoutPermission(rows, i, op)) == Grants(roles, rows) - {(roles[i], op)}
  {
    hide Grants;
    var after := WithoutPermission(rows, i, op);
    GrantsAreGrants(roles, rows);
    var now := Grants(roles, rows) - {(roles[i], op)};
    forall x | x in now ensures exists j :: j in after && x == (roles[after[j].roleId], after[j].operation) {
      var j :| j in rows && x == (roles[rows[j].roleId], rows[j].operation);
      assert j in after && after[j] == rows[j];
    }
    GrantsFromRows(now, roles, after);
  }

  lemma RoleIdInserted(roles: map<Key, string>, rows: map<Key, RoleRecordIdRow>, k: Key, i: Key, op: string, id: string)
    requires RecordIdsRefer(roles, rows) && i in roles && k !in rows
    ensures var after := rows[k := RoleRecordIdRow(i, op, id)];
      RecordIdsRefer(roles, after) && RoleIds(roles, after) == RoleIds(roles, rows) + {(roles[i], op, id)}
  {
    var after := rows[k := RoleRecordIdRow(i, op, id)];
    assert k in after && after[k] == RoleRecordIdRow(i, op, id);
    forall x | x in RoleIds(roles, rows) ensures x in RoleIds(roles, after) {
      var j :| j in rows && x == (roles[rows[j].roleId], rows[j].operation, rows[j].recordId);
      assert j in after && after[j] == rows[j];
    }
  }

  lemma RoleIdRow(roles: map<Key, string>, rows: map<Key, RoleRecordIdRow>, i: Key, op: string, id: string)
    requires NoTwoAlike(roles) && RecordIdsRefer(roles, rows) && i in roles
    ensures (roles[i], op, id) in RoleIds(roles, rows) <==> RoleRecordIdRow(i, op, id) in rows.Values
  {
  }

  /** Deletes the rows of one (role, operation) whose record id the caller names. */
  function WithoutRoleIds(rows: map<Key, RoleRecordIdRow>, i: Key, op: string,
                          gone: set<string>): map<Key, RoleRecordIdRow> {
    map k | k in rows && !(rows[k].roleId == i && rows[k].operation == op && rows[k].recordId in gone) :: rows[k]
  }

  function WithoutOperationIds(rows: map<Key, RoleRecordIdRow>, i: Key, op: string): map<Key, RoleRecordIdRow> {
    map k | k in rows && !(rows[k].roleId == i && rows[k].operation == op) :: rows[k]
  }

  lemma RoleIdsDeleted(roles: map<Key, string>, rows: map<Key, RoleRecordIdRow>, after: map<Key, RoleRecordIdRow>,
                       gone: set<(string, string, string)>)
    requires RecordIdsRefer(roles, rows) && after.Keys <= rows.Keys
    requires forall k :: k in after ==> after[k] == rows[k]
    requires forall k :: k in rows ==>
      (k in after <==> (roles[rows[k].roleId], rows[k].operation, rows[k].recordId) !in gone)
    ensures RoleIds(roles, after) == RoleIds(roles, rows) - gone
  {
    forall x | x in RoleIds(roles, rows) && x !in gone ensures x in RoleIds(roles, after) {
      var j :| j in rows && x == (roles[rows[j].roleId], rows[j].operation, rows[j].recordId);
      assert j in after;
    }
  }

  lemma OverrideUpserted(rows: map<Key, UserPermissionRow>, k: Key, sub: string, op: string, scope: Scope)
    requires UniqueUserPermissions(rows)
    requires k in rows ==> rows[k].userSub == sub && rows[k].operation == op
    requires k !in rows ==> forall j :: j in rows ==> !(rows[j].userSub == sub && rows[j].operation == op)
    ensures var after := rows[k := UserPermissionRow(sub, op, scope)];
      UniqueUserPermissions(after) && Overrides(after) == Overrides(rows)[(sub, op) := scope]
  {
    hide Overrides, AreOverrides;
    OverridesAreOverrides(rows);
    assert forall j :: j in rows && j != k ==> (rows[j].userSub, rows[j].operation) != (sub, op);
    UpsertedRowsAreOverrides(Overrides(rows), rows, k, sub, op, scope);
    OverridesFromRows(Overrides(rows)[(sub, op) := scope], rows[k := UserPermissionRow(sub, op, scope)]);
  }

  lemma UpsertedRowsAreOverrides(g: map<(string, string), Scope>, rows: map<Key, UserPermissionRow>, k: Key,
                                 sub: string, op: string, scope: Scope)
    requires AreOverrides(g, rows)
    requires k in rows ==> rows[k].userSub == sub && rows[k].operation == op
    requires forall j :: j in rows && j != k ==> (rows[j].userSub, rows[j].operation) != (sub, op)
    ensures AreOverrides(g[(sub, op) := scope], rows[k := UserPermissionRow(sub, op, scope)])
  {
    var after := rows[k := UserPermissionRow(sub, op, scope)];
    var now := g[(sub, op) := scope];
    forall x | x in now ensures exists j :: j in after && x == (after[j].userSub, after[j].operation) {
      if x == (sub, op) {
        assert k in after;
      } else {
        var j :| j in rows && x == (rows[j].userSub, rows[j].operation);
        assert j in after && after[j] == rows[j];
      }
    }
  }

  function WithoutOverride(rows: map<Key, UserPermissionRow>, sub: string, op: string): map<Key, UserPermissionRow> {
    map k | k in rows && !(rows[k].userSub == sub && rows[k].operation == op) :: rows[k]
  }

  lemma OverrideDeleted(rows: map<Key, UserPermissionRow>, sub: string, op: string)
    requires UniqueUserPermissions(rows)
    ensures Overrides(WithoutOverride(rows, sub, op)) == Overrides(rows) - {(sub, op)}
  {
    hide Overrides;
    var after := WithoutOverride(rows, sub, op);
    OverridesAreOverrides(rows);
    var now := Overrides(rows) - {(sub, op)};
    forall x | x in now ensures exists j :: j in after && x == (after[j].userSub, after[j].operation) {
      var j :| j in rows && x == (rows[j].userSub, rows[j].operation);
      assert j in after && after[j] == rows[j];
    }
    OverridesFromRows(now, after);
  }

  lemma OverrideRow(rows: map<Key, UserPermissionRow>, sub: string, op: string)
    requires UniqueUserPermissions(rows)
    ensures (sub, op) in Overrides(rows) <==> exists k :: k in rows && rows[k].userSub == sub && rows[k].operation == op
    ensures forall k :: k in rows && rows[k].userSub == sub && rows[k].operation == op ==>
      (sub, op) in Overrides(rows) && Overrides(rows)[(sub, op)] == rows[k].scope
  {
    hide Overrides;
    OverridesAreOverrides(rows);
  }

  lemma UserIdInserted(rows: map<Key, UserRecordIdRow>, k: Key, sub: string, op: string, id: string)
    requires k !in rows
    ensures UserIds(rows[k := UserRecordIdRow(sub, op, id)]) == UserIds(rows) + {(sub, op, id)}
  {
    var after := rows[k := UserRecordIdRow(sub, op, id)];
    assert k in after && after[k] == UserRecordIdRow(sub, op, id);
    forall x | x in UserIds(rows) ensures x in UserIds(after) {
      var j :| j in rows && x == (rows[j].userSub, rows[j].operation, rows[j].recordId);
      assert j in after && after[j] == rows[j];
    }
  }

  lemma UserIdsDeleted(rows: map<Key, UserRecordIdRow>, after: map<Key, UserRecordIdRow>,
                       gone: set<(string, string, string)>)
    requires after.Keys <= rows.Keys
    requires forall k :: k in after ==> after[k] == rows[k]
    requires forall k :: k in rows ==> (k in after <==> (rows[k].userSub, rows[k].operation, rows[k].recordId) !in gone)
    ensures UserIds(after) == UserIds(rows) - gone
  {
    forall x | x in UserIds(rows) && x !in gone ensures x in UserIds(after) {
      var j :| j in rows && x == (rows[j].userSub, rows[j].operation, rows[j].recordId);
      assert j in after;
    }
  }

  // ---- Statements on the roles table ----

  /** One changed cell of one row renames the role everywhere it is meant. */
  lemma RoleRowRenamed(db: Tables, i: Key, newName: string)
    requires Intact(db) && i in db.roles && newName !in db.roles.Values
    ensures Intact(db.(roles := db.roles[i := newName]))
    ensures Meaning(db.(roles := db.roles[i := newName])) == WithRoleRenamed(Meaning(db), db.roles[i], newName)
  {
    hide Assignments, Grants, RoleIds, RenamedAssignments, RenamedGrants, RenamedIds, Overrides;
    RoleNamesRenamed(db.roles, i, newName);
    AssignmentsRenamed(db.roles, db.userRoles, i, newName);
    GrantsRenamed(db.roles, db.rolePermissions, i, newName);
    RoleIdsRenamed(db.roles, db.roleRecordIds, i, newName);
  }

  lemma RoleNamesRenamed(roles: map<Key, string>, i: Key, newName: string)
    requires NoTwoAlike(roles) && i in roles && newName !in roles.Values
    ensures NoTwoAlike(roles[i := newName])
    ensures roles[i := newName].Values == roles.Values - {roles[i]} + {newName}
    ensures forall j :: j in roles ==> roles[i := newName][j] == Renamed(roles[j], roles[i], newName)
  {
    var after := roles[i := newName];
    assert i in after && after[i] == newName;
    forall n | n in roles.Values && n != roles[i] ensures n in after.Values {
      var j :| j in roles && roles[j] == n;
      assert j in after && after[j] == n;
    }
  }

  lemma AssignmentsRenamed(roles: map<Key, string>, rows: map<Key, UserRoleRow>, i: Key, newName: string)
    requires AssignmentsRefer(roles, rows) && i in roles
    requires forall j :: j in roles ==> roles[i := newName][j] == Renamed(roles[j], roles[i], newName)
    ensures Assignments(roles[i := newName], rows) == RenamedAssignments(Assignments(roles, rows), roles[i], newName)
  {
    var after, name := roles[i := newName], roles[i];
    forall x | x in RenamedAssignments(Assignments(roles, rows), name, newName) ensures x in Assignments(after, rows) {
      var a :| a in Assignments(roles, rows) && x == (a.0, Renamed(a.1, name, newName));
      var k :| k in rows && a == (rows[k].userSub, roles[rows[k].roleId]);
      assert x == (rows[k].userSub, after[rows[k].roleId]);
    }
    forall k | k in rows
      ensures (rows[k].userSub, after[rows[k].roleId]) in RenamedAssignments(Assignments(roles, rows), name, newName)
    {
      assert (rows[k].userSub, roles[rows[k].roleId]) in Assignments(roles, rows);
    }
  }

  lemma RoleIdsRenamed(roles: map<Key, string>, rows: map<Key, RoleRecordIdRow>, i: Key, newName: string)
    requires RecordIdsRefer(roles, rows) && i in roles
    requires forall j :: j in roles ==> roles[i := newName][j] == Renamed(roles[j], roles[i], newName)
    ensures RoleIds(roles[i := newName], rows) == RenamedIds(RoleIds(roles, rows), roles[i], newName)
  {
    var after, name := roles[i := newName], roles[i];
    forall x | x in RenamedIds(RoleIds(roles, rows), name, newName) ensures x in RoleIds(after, rows) {
      var a :| a in RoleIds(roles, rows) && x == (Renamed(a.0, name, newName), a.1, a.2);
      var k :| k in rows && a == (roles[rows[k].roleId], rows[k].operation, rows[k].recordId);
      assert x == (after[rows[k].roleId], rows[k].operation, rows[k].recordId);
    }
    forall k | k in rows
      ensures (after[rows[k].roleId], rows[k].operation, rows[k].recordId) in RenamedIds(RoleIds(roles, rows), name,
        newName)
    {
      assert (roles[rows[k].roleId], rows[k].operation, rows[k].recordId) in RoleIds(roles, rows);
    }
  }

  lemma GrantsRenamed(roles: map<Key, string>, rows: map<Key, RolePermissionRow>, i: Key, newName: string)
    requires NoTwoAlike(roles) && i in roles && newName !in roles.Values && NoTwoAlike(roles[i := newName])
    requires PermissionsRefer(roles, rows) && UniqueRolePermissions(rows)
    requires forall j :: j in roles ==> roles[i := newName][j] == Renamed(roles[j], roles[i], newName)
    ensures Grants(roles[i := newName], rows) == RenamedGrants(Grants(roles, rows), roles[i], newName)
  {
    hide Grants, RenamedGrants, AreGrants;
    GrantsAreGrants(roles, rows);
    RenamedGrantsAreGrants(Grants(roles, rows), roles, rows, i, newName);
    GrantsFromRows(RenamedGrants(Grants(roles, rows), roles[i], newName), roles[i := newName], rows);
  }

  lemma RenamedGrantsAreGrants(g: map<(string, string), Scope>, roles: map<Key, string>,
                               rows: map<Key, RolePermissionRow>, i: Key, newName: string)
    requires i in roles && newName !in roles.Values && PermissionsRefer(roles, rows) && AreGrants(g, roles, rows)
    requires forall j :: j in roles ==> roles[i := newName][j] == Renamed(roles[j], roles[i], newName)
    ensures AreGrants(RenamedGrants(g, roles[i], newName), roles[i := newName], rows)
  {
    hide RenamedGrants;
    var after, name := roles[i := newName], roles[i];
    var want := RenamedGrants(g, name, newName);
    RenamedRowsPresent(g, roles, rows, i, newName, after, want);
    forall x | x in want ensures exists k :: k in rows && x == (after[rows[k].roleId], rows[k].operation) {
      var y := RenamedGrantOrigin(g, name, newName, x);
      var k :| k in rows && y == (roles[rows[k].roleId], rows[k].operation);
      assert x == (after[rows[k].roleId], rows[k].operation);
    }
  }

  lemma RenamedRowsPresent(g: map<(string, string), Scope>, roles: map<Key, string>, rows: map<Key, RolePermissionRow>,
                           i: Key, newName: string, after: map<Key, string>, want: map<(string, string), Scope>)
    requires i in roles && newName !in roles.Values && PermissionsRefer(roles, rows) && AreGrants(g, roles, rows)
    requires after == roles[i := newName] && want == RenamedGrants(g, roles[i], newName)
    requires forall j :: j in roles ==> after[j] == Renamed(roles[j], roles[i], newName)
    ensures forall k :: k in rows ==>
      ((after[rows[k].roleId], rows[k].operation) in want
       && want[(after[rows[k].roleId], rows[k].operation)] == rows[k].scope)
  {
    hide RenamedGrants;
    forall k | k in rows
      ensures (after[rows[k].roleId], rows[k].operation) in want
      ensures want[(after[rows[k].roleId], rows[k].operation)] == rows[k].scope
    {
      RenamedGrantKept(g, roles[i], newName, roles[rows[k].roleId], rows[k].operation);
    }
  }

  lemma RenamedGrantKept(g: map<(string, string), Scope>, name: string, newName: string, n: string, op: string)
    requires (n, op) in g && n != newName
    ensures (Renamed(n, name, newName), op) in RenamedGrants(g, name, newName)
    ensures RenamedGrants(g, name, newName)[(Renamed(n, name, newName), op)] == g[(n, op)]
  {
    assert Renamed(Renamed(n, name, newName), newName, name) == n;
  }

  lemma RenamedGrantOrigin(g: map<(string, string), Scope>, name: string, newName: string, x: (string, string))
      returns (y: (string, string))
    requires x in RenamedGrants(g, name, newName)
    ensures y in g && x == (Renamed(y.0, name, newName), y.1)
  {
    y :| y in g && x == (Renamed(y.0, name, newName), y.1);
  }

  /** A new role's row brings nothing with it, whatever rows a deleted role with the same id once had. */
  lemma RoleRowInserted(db: Tables, k: Key, name: string)
    requires Intact(db) && k !in db.roles && name !in db.roles.Values
    ensures Intact(db.(roles := db.roles[k := name]))
    ensures Meaning(db.(roles := db.roles[k := name])) == Meaning(db).(roles := db.roles.Values + {name})
  {
    hide Assignments, Grants, RoleIds, Overrides;
    RoleNameInserted(db.roles, k, name);
    GrantsSurviveNewRole(db.roles, db.rolePermissions, k, name);
    AssignmentsSurviveNewRole(db.roles, db.userRoles, k, name);
    RoleIdsSurviveNewRole(db.roles, db.roleRecordIds, k, name);
  }

  lemma RoleNameInserted(roles: map<Key, string>, k: Key, name: string)
    requires NoTwoAlike(roles) && k !in roles && name !in roles.Values
    ensures NoTwoAlike(roles[k := name]) && roles[k := name].Values == roles.Values + {name}
  {
    var after := roles[k := name];
    assert k in after && after[k] == name;
    forall n | n in roles.Values ensures n in after.Values {
      var j :| j in roles && roles[j] == n;
      assert j in after && after[j] == n;
    }
  }

  lemma GrantsSurviveNewRole(roles: map<Key, string>, rows: map<Key, RolePermissionRow>, k: Key, name: string)
    requires NoTwoAlike(roles) && NoTwoAlike(roles[k := name]) && k !in roles
    requires PermissionsRefer(roles, rows) && UniqueRolePermissions(rows)
    ensures PermissionsRefer(roles[k := name], rows) && Grants(roles[k := name], rows) == Grants(roles, rows)
  {
    hide Grants, AreGrants;
    GrantsAreGrants(roles, rows);
    SameNamesSameGrants(Grants(roles, rows), roles, roles[k := name], rows);
    GrantsFromRows(Grants(roles, rows), roles[k := name], rows);
  }

  lemma SameNamesSameGrants(g: map<(string, string), Scope>, roles: map<Key, string>, after: map<Key, string>,
                            rows: map<Key, RolePermissionRow>)
    requires PermissionsRefer(roles, rows) && PermissionsRefer(after, rows) && AreGrants(g, roles, rows)
    requires forall i :: i in roles && i in after ==> after[i] == roles[i]
    ensures AreGrants(g, after, rows)
  {
    forall x | x in g ensures exists k :: k in rows && x == (after[rows[k].roleId], rows[k].operation) {
      var k :| k in rows && x == (roles[rows[k].roleId], rows[k].operation);
      assert x == (after[rows[k].roleId], rows[k].operation);
    }
  }

  lemma AssignmentsSurviveNewRole(roles: map<Key, string>, rows: map<Key, UserRoleRow>, k: Key, name: string)
    requires AssignmentsRefer(roles, rows) && k !in roles
    ensures AssignmentsRefer(roles[k := name], rows) && Assignments(roles[k := name], rows) == Assignments(roles, rows)
  {
    assert forall j :: j in rows ==> roles[k := name][rows[j].roleId] == roles[rows[j].roleId];
  }

  lemma RoleIdsSurviveNewRole(roles: map<Key, string>, rows: map<Key, RoleRecordIdRow>, k: Key, name: string)
    requires RecordIdsRefer(roles, rows) && k !in roles
    ensures RecordIdsRefer(roles[k := name], rows) && RoleIds(roles[k := name], rows) == RoleIds(roles, rows)
  {
    assert forall j :: j in rows ==> roles[k := name][rows[j].roleId] == roles[rows[j].roleId];
  }

  lemma OperationIdsDeleted(roles: map<Key, string>, rows: map<Key, RoleRecordIdRow>, i: Key, op: string)
    requires NoTwoAlike(roles) && RecordIdsRefer(roles, rows) && i in roles
    ensures var after := WithoutOperationIds(rows, i, op);
      && RecordIdsRefer(roles, after)
      && RoleIds(roles, after) == RoleIds(roles, rows) - IdsOf(roles[i], op, RoleIds(roles, rows))
  {
    RoleIdsDeleted(roles, rows, WithoutOperationIds(rows, i, op), IdsOf(roles[i], op, RoleIds(roles, rows)));
  }

  lemma ListedRoleIdsDeleted(roles: map<Key, string>, rows: map<Key, RoleRecordIdRow>, i: Key, op: string,
                             ids: seq<string>)
    requires NoTwoAlike(roles) && RecordIdsRefer(roles, rows) && i in roles
    ensures var after := WithoutRoleIds(rows, i, op, set id | id in ids);
      && RecordIdsRefer(roles, after)
      && RoleIds(roles, after) == RoleIds(roles, rows) - Ids(roles[i], op, ids)
  {
    RoleIdsDeleted(roles, rows, WithoutRoleIds(rows, i, op, set id | id in ids), Ids(roles[i], op, ids));
  }

  function WithoutUserIds(rows: map<Key, UserRecordIdRow>, sub: string, op: string,
                          gone: set<string>): map<Key, UserRecordIdRow> {
    map k | k in rows && !(rows[k].userSub == sub && rows[k].operation == op && rows[k].recordId in gone) :: rows[k]
  }

  function WithoutUserOperationIds(rows: map<Key, UserRecordIdRow>, sub: string,
                                   op: string): map<Key, UserRecordIdRow> {
    map k | k in rows && !(rows[k].userSub == sub && rows[k].operation == op) :: rows[k]
  }

  lemma UserOperationIdsDeleted(rows: map<Key, UserRecordIdRow>, sub: string, op: string)
    ensures UserIds(WithoutUserOperationIds(rows, sub, op)) == UserIds(rows) - IdsOf(sub, op, UserIds(rows))
  {
    UserIdsDeleted(rows, WithoutUserOperationIds(rows, sub, op), IdsOf(sub, op, UserIds(rows)));
  }

  lemma ListedUserIdsDeleted(rows: map<Key, UserRecordIdRow>, sub: string, op: string, ids: seq<string>)
    ensures UserIds(WithoutUserIds(rows, sub, op, set id | id in ids)) == UserIds(rows) - Ids(sub, op, ids)
  {
    UserIdsDeleted(rows, WithoutUserIds(rows, sub, op, set id | id in ids), Ids(sub, op, ids));
  }

  // ---- Deleting a role ----

  function AssignmentsOfOthers(rows: map<Key, UserRoleRow>, i: Key): map<Key, UserRoleRow> {
    map k | k in rows && rows[k].roleId != i :: rows[k]
  }

  function PermissionsOfOthers(rows: map<Key, RolePermissionRow>, i: Key): map<Key, RolePermissionRow> {
    map k | k in rows && rows[k].roleId != i :: rows[k]
  }

  function RecordIdsOfOthers(rows: map<Key, RoleRecordIdRow>, i: Key): map<Key, RoleRecordIdRow> {
    map k | k in rows && rows[k].roleId != i :: rows[k]
  }

  /** Deleting every row that carries the role's id, then the role's row. */
  function WithoutRoleRows(db: Tables, i: Key): Tables {
    db.(userRoles := AssignmentsOfOthers(db.userRoles, i),
        rolePermissions := PermissionsOfOthers(db.rolePermissions, i),
        roleRecordIds := RecordIdsOfOthers(db.roleRecordIds, i),
        roles := db.roles - {i})
  }

  /** Nothing of the role survives, and nothing else goes. */
  lemma RoleRowsDeleted(db: Tables, i: Key)
    requires Intact(db) && i in db.roles
    ensures Intact(WithoutRoleRows(db, i))
    ensures Meaning(WithoutRoleRows(db, i)) == WithoutRole(Meaning(db), db.roles[i])
  {
    hide Assignments, Grants, RoleIds, Overrides, AssignmentsWithout, GrantsWithout, IdsWithout;
    RoleNameDeleted(db.roles, i);
    AssignmentsOfOthersRemain(db.roles, db.userRoles, i);
    GrantsOfOthersRemain(db.roles, db.rolePermissions, i);
    RoleIdsOfOthersRemain(db.roles, db.roleRecordIds, i);
  }

  lemma RoleNameDeleted(roles: map<Key, string>, i: Key)
    requires NoTwoAlike(roles) && i in roles
    ensures NoTwoAlike(roles - {i}) && (roles - {i}).Values == roles.Values - {roles[i]}
  {
    var after := roles - {i};
    forall n | n in roles.Values && n != roles[i] ensures n in after.Values {
      var j :| j in roles && roles[j] == n;
      assert j in after && after[j] == n;
    }
  }

  lemma AssignmentsOfOthersRemain(roles: map<Key, string>, rows: map<Key, UserRoleRow>, i: Key)
    requires NoTwoAlike(roles) && AssignmentsRefer(roles, rows) && i in roles
    ensures AssignmentsRefer(roles - {i}, AssignmentsOfOthers(rows, i))
    ensures Assignments(roles - {i}, AssignmentsOfOthers(rows, i))
      == AssignmentsWithout(Assignments(roles, rows), roles[i])
  {
    var after := AssignmentsOfOthers(rows, i);
    forall x | x in AssignmentsWithout(Assignments(roles, rows), roles[i])
      ensures x in Assignments(roles - {i}, after) {
      var k :| k in rows && x == (rows[k].userSub, roles[rows[k].roleId]);
      assert k in after && after[k] == rows[k];
    }
  }

  lemma RoleIdsOfOthersRemain(roles: map<Key, string>, rows: map<Key, RoleRecordIdRow>, i: Key)
    requires NoTwoAlike(roles) && RecordIdsRefer(roles, rows) && i in roles
    ensures RecordIdsRefer(roles - {i}, RecordIdsOfOthers(rows, i))
    ensures RoleIds(roles - {i}, RecordIdsOfOthers(rows, i)) == IdsWithout(RoleIds(roles, rows), roles[i])
  {
    var after := RecordIdsOfOthers(rows, i);
    forall x | x in IdsWithout(RoleIds(roles, rows), roles[i]) ensures x in RoleIds(roles - {i}, after) {
      var k :| k in rows && x == (roles[rows[k].roleId], rows[k].operation, rows[k].recordId);
      assert k in after && after[k] == rows[k];
    }
  }

  lemma GrantsOfOthersRemain(roles: map<Key, string>, rows: map<Key, RolePermissionRow>, i: Key)
    requires NoTwoAlike(roles) && NoTwoAlike(roles - {i}) && i in roles
    requires PermissionsRefer(roles, rows) && UniqueRolePermissions(rows)
    ensures PermissionsRefer(roles - {i}, PermissionsOfOthers(rows, i))
      && UniqueRolePermissions(PermissionsOfOthers(rows, i))
    ensures Grants(roles - {i}, PermissionsOfOthers(rows, i)) == GrantsWithout(Grants(roles, rows), roles[i])
  {
    hide Grants, AreGrants, GrantsWithout;
    GrantsAreGrants(roles, rows);
    OtherGrantsAreGrants(Grants(roles, rows), roles, rows, i);
    GrantsFromRows(GrantsWithout(Grants(roles, rows), roles[i]), roles - {i}, PermissionsOfOthers(rows, i));
  }

  lemma OtherGrantsAreGrants(g: map<(string, string), Scope>, roles: map<Key, string>,
                             rows: map<Key, RolePermissionRow>, i: Key)
    requires NoTwoAlike(roles) && i in roles && PermissionsRefer(roles, rows) && AreGrants(g, roles, rows)
    ensures PermissionsRefer(roles - {i}, PermissionsOfOthers(rows, i))
    ensures AreGrants(GrantsWithout(g, roles[i]), roles - {i}, PermissionsOfOthers(rows, i))
  {
    var rest, after := roles - {i}, PermissionsOfOthers(rows, i);
    forall x | x in GrantsWithout(g, roles[i])
      ensures exists k :: k in after && x == (rest[after[k].roleId], after[k].operation) {
      var k :| k in rows && x == (roles[rows[k].roleId], rows[k].operation);
      assert k in after && after[k] == rows[k];
    }
  }
}
