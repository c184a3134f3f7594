/** One tenant as a value, and what every store call does to it. Both storage drivers are proved against this. */
module TenantSpec {
  import opened Model

  datatype TenantState = TenantState(
    roles: set<string>,
    assignments: set<(string, string)>,           // (sub, role)
    grants: map<(string, string), Scope>,      // (role, operation)
    roleIds: set<(string, string, string)>,    // (role, operation, record id)
    overrides: map<(string, string), Scope>,   // (sub, operation)
    userIds: set<(string, string, string)>)    // (sub, operation, record id)

  const NO_TENANT_DATA := TenantState({}, {}, map[], {}, map[], {})

  datatype TenantCall =
    | CreateRole(name: string)
    | EnsureRole(name: string)
    | RenameRole(name: string, newName: string)
    | DeleteRole(name: string)
    | AssignRole(sub: string, role: string)
    | UnassignRole(sub: string, role: string)
    | SetRolePermission(role: string, operation: string, scope: Scope)
    | RemoveRolePermission(role: string, operation: string)
    | SetUserPermission(sub: string, operation: string, scope: Scope)
    | RemoveUserPermission(sub: string, operation: string)
    | AddRoleIDs(role: string, operation: string, ids: seq<string>)
    | RemoveRoleIDs(role: string, operation: string, ids: seq<string>)
    | AddUserIDs(sub: string, operation: string, ids: seq<string>)
    | RemoveUserIDs(sub: string, operation: string, ids: seq<string>)

  datatype Outcome = Outcome(state: TenantState, err: Error)

  function Renamed(role: string, name: string, newName: string): string {
    if role == name then newName else role
  }

  ghost function ScopeAt(m: map<(string, string), Scope>, k: (string, string)): Option<Scope> {
    if k in m then Some(m[k]) else None
  }

  function RenamedAssignments(all: set<(string, string)>, name: string, newName: string): set<(string, string)> {
    set a | a in all :: (a.0, Renamed(a.1, name, newName))
  }

  function RenamedGrants(all: map<(string, string), Scope>, name: string, newName: string): map<(string, string),
    Scope> {
    map k | k in (set g | g in all :: (Renamed(g.0, name, newName), g.1)) && (Renamed(k.0, newName, name), k.1) in all
          :: all[(Renamed(k.0, newName, name), k.1)]
  }

  function RenamedIds(all: set<(string, string, string)>, name: string,
                      newName: string): set<(string, string, string)> {
    set x | x in all :: (Renamed(x.0, name, newName), x.1, x.2)
  }

  /** The tenant with role `name` called `newName`; only meant for a `newName` not in use. */
  function WithRoleRenamed(t: TenantState, name: string, newName: string): TenantState {
    t.(roles := t.roles - {name} + {newName},
       assignments := RenamedAssignments(t.assignments, name, newName),
       grants := RenamedGrants(t.grants, name, newName),
       roleIds := RenamedIds(t.roleIds, name, newName))
  }

  function AssignmentsWithout(all: set<(string, string)>, name: string): set<(string, string)> {
    set a | a in all && a.1 != name
  }

  function GrantsWithout(all: map<(string, string), Scope>, name: string): map<(string, string), Scope> {
    map k | k in all && k.0 != name :: all[k]
  }

  function IdsWithout(all: set<(string, string, string)>, name: string): set<(string, string, string)> {
    set x | x in all && x.0 != name
  }

  function WithoutRole(t: TenantState, name: string): TenantState {
    t.(roles := t.roles - {name},
       assignments := AssignmentsWithout(t.assignments, name),
       grants := GrantsWithout(t.grants, name),
       roleIds := IdsWithout(t.roleIds, name))
  }

  function Ids(owner: string, operation: string, ids: seq<string>): set<(string, string, string)> {
    set id | id in ids :: (owner, operation, id)
  }

  function IdsOf(owner: string, operation: string, all: set<(string, string, string)>): set<(string, string, string)> {
    set x | x in all && x.0 == owner && x.1 == operation
  }

  function TenantStep(t: TenantState, c: TenantCall): Outcome {
    match c
    case CreateRole(name) =>
      if name in t.roles then Outcome(t, Conflict)
      else Outcome(t.(roles := t.roles + {name}), Ok)
    case EnsureRole(name) =>
      Outcome(t.(roles := t.roles + {name}), Ok)
    case RenameRole(name, newName) =>
      if name !in t.roles then Outcome(t, NotFound)
      else if newName in t.roles then Outcome(t, Conflict)
      else Outcome(WithRoleRenamed(t, name, newName), Ok)
    case DeleteRole(name) =>
      if name !in t.roles then Outcome(t, NotFound)
      else Outcome(WithoutRole(t, name), Ok)
    case AssignRole(sub, role) =>
      if role !in t.roles then Outcome(t, NotFound)
      else Outcome(t.(assignments := t.assignments + {(sub, role)}), Ok)
    case UnassignRole(sub, role) =>
      if role !in t.roles || (sub, role) !in t.assignments then Outcome(t, NotFound)
      else Outcome(t.(assignments := t.assignments - {(sub, role)}), Ok)
    case SetRolePermission(role, op, scope) =>
      if role !in t.roles then Outcome(t, NotFound)
      else Outcome(t.(grants := t.grants[(role, op) := scope]), Ok)
    case RemoveRolePermission(role, op) =>
      if role !in t.roles || (role, op) !in t.grants then Outcome(t, NotFound)
      else Outcome(t.(grants := t.grants - {(role, op)}, roleIds := t.roleIds - IdsOf(role, op, t.roleIds)), Ok)
    case SetUserPermission(sub, op, scope) =>
      Outcome(t.(overrides := t.overrides[(sub, op) := scope]), Ok)
    case RemoveUserPermission(sub, op) =>
      if (sub, op) !in t.overrides then Outcome(t, NotFound)
      else Outcome(t.(overrides := t.overrides - {(sub, op)}, userIds := t.userIds - IdsOf(sub, op, t.userIds)), Ok)
    case AddRoleIDs(role, op, ids) =>
      if role !in t.roles then Outcome(t, NotFound)
      else Outcome(t.(roleIds := t.roleIds + Ids(role, op, ids)), Ok)
    case RemoveRoleIDs(role, op, ids) =>
      if role !in t.roles then Outcome(t, NotFound)
      else Outcome(t.(roleIds := t.roleIds - Ids(role, op, ids)), Ok)
    case AddUserIDs(sub, op, ids) =>
      Outcome(t.(userIds := t.userIds + Ids(sub, op, ids)), Ok)
    case RemoveUserIDs(sub, op, ids) =>
      Outcome(t.(userIds := t.userIds - Ids(sub, op, ids)), Ok)
  }

  /** What the relational driver does: it answers a removal of no ids without looking the role up. */
  function SqlStep(t: TenantState, c: TenantCall): Outcome {
    if c.RemoveRoleIDs? && c.ids == [] then Outcome(t, Ok) else TenantStep(t, c)
  }

  /** The two drivers part on exactly one kind of call, and never on the state. */
  lemma DriversDivergeExactly(t: TenantState, c: TenantCall)
    ensures SqlStep(t, c) == TenantStep(t, c) <==> !(c.RemoveRoleIDs? && c.ids == [] && c.role !in t.roles)
    ensures SqlStep(t, c).state == TenantStep(t, c).state
  {
    if c.RemoveRoleIDs? && c.ids == [] {
      assert t.roleIds - Ids(c.role, c.operation, c.ids) == t.roleIds;
    }
  }

  /** Everything that names a role names one that exists. */
  ghost predicate RolesExist(t: TenantState) {
    && (forall a :: a in t.assignments ==> a.1 in t.roles)
    && (forall k :: k in t.grants ==> k.0 in t.roles)
    && (forall x :: x in t.roleIds ==> x.0 in t.roles)
  }

  /** No store call leaves an assignment, grant or record id behind whose role is gone. */
  lemma StepKeepsRolesExist(t: TenantState, c: TenantCall)
    requires RolesExist(t)
    ensures RolesExist(TenantStep(t, c).state)
  {
    if c.RenameRole? && TenantStep(t, c).err == Ok {
      RenameKeepsRolesExist(t, c.name, c.newName);
    }
  }

  /** t' answers every lookup under the new name the way t does under the old one. */
  ghost predicate SameUnderRenaming(t: TenantState, t': TenantState, name: string, newName: string) {
    && (forall sub, r :: r in t.roles ==>
          ((sub, r) in t.assignments <==> (sub, Renamed(r, name, newName)) in t'.assignments))
    && (forall r, op, id :: r in t.roles ==>
          ((r, op, id) in t.roleIds <==> (Renamed(r, name, newName), op, id) in t'.roleIds))
    && (forall r, op :: r in t.roles ==>
          ((r, op) in t.grants <==> (Renamed(r, name, newName), op) in t'.grants))
    && (forall r, op :: r in t.roles && (r, op) in t.grants && (Renamed(r, name, newName), op) in t'.grants ==>
          t.grants[(r, op)] == t'.grants[(Renamed(r, name, newName), op)])
    && t.overrides == t'.overrides
    && t.userIds == t'.userIds
  }

  /** A rename loses nothing, merges nothing and leaves nothing under the old name. */
  lemma RenameIsABijection(t: TenantState, name: string, newName: string)
    requires RolesExist(t) && name in t.roles && newName !in t.roles
    ensures SameUnderRenaming(t, WithRoleRenamed(t, name, newName), name, newName)
  {
    var t' := WithRoleRenamed(t, name, newName);
    forall sub, r | r in t.roles
      ensures (sub, r) in t.assignments <==> (sub, Renamed(r, name, newName)) in t'.assignments
    {
      RenamedAssignment(t, name, newName, sub, r);
    }
    forall r, op, id | r in t.roles
      ensures (r, op, id) in t.roleIds <==> (Renamed(r, name, newName), op, id) in t'.roleIds
    {
      RenamedId(t, name, newName, r, op, id);
    }
    forall r, op | r in t.roles
      ensures (r, op) in t.grants <==> (Renamed(r, name, newName), op) in t'.grants
      ensures (r, op) in t.grants ==> t.grants[(r, op)] == t'.grants[(Renamed(r, name, newName), op)]
    {
      RenamedGrant(t, name, newName, r, op);
    }
  }

  lemma RenameKeepsRolesExist(t: TenantState, name: string, newName: string)
    requires RolesExist(t) && name in t.roles && newName !in t.roles
    ensures RolesExist(WithRoleRenamed(t, name, newName))
    ensures name !in WithRoleRenamed(t, name, newName).roles
  {
    var t' := WithRoleRenamed(t, name, newName);
    forall k | k in t'.grants ensures k.0 in t'.roles {
    }
  }

  lemma RenamedAssignment(t: TenantState, name: string, newName: string, sub: string, r: string)
    requires RolesExist(t) && name in t.roles && newName !in t.roles && r in t.roles
    ensures (sub, r) in t.assignments <==>
      (sub, Renamed(r, name, newName)) in WithRoleRenamed(t, name, newName).assignments
  {
    var t' := WithRoleRenamed(t, name, newName);
    if (sub, r) in t.assignments {
      assert (sub, Renamed(r, name, newName)) in t'.assignments;
    }
  }

  lemma RenamedId(t: TenantState, name: string, newName: string, r: string, op: string, id: string)
    requires RolesExist(t) && name in t.roles && newName !in t.roles && r in t.roles
    ensures (r, op, id) in t.roleIds <==>
      (Renamed(r, name, newName), op, id) in WithRoleRenamed(t, name, newName).roleIds
  {
    var t' := WithRoleRenamed(t, name, newName);
    if (r, op, id) in t.roleIds {
      assert (Renamed(r, name, newName), op, id) in t'.roleIds;
    }
  }

  lemma RenamedGrant(t: TenantState, name: string, newName: string, r: string, op: string)
    requires RolesExist(t) && name in t.roles && newName !in t.roles && r in t.roles
    ensures (r, op) in t.grants <==> (Renamed(r, name, newName), op) in WithRoleRenamed(t, name, newName).grants
    ensures (r, op) in t.grants ==>
      t.grants[(r, op)] == WithRoleRenamed(t, name, newName).grants[(Renamed(r, name, newName), op)]
  {
    assert Renamed(Renamed(r, name, newName), newName, name) == r;
  }
}
