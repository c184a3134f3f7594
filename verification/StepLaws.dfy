/** What every call reports and does, lookup by lookup: when exactly each error is reported, that an error changes
    nothing, what a success changes and what it leaves, and which call takes back which. */
module StepLaws {
  import opened Model
  import opened SharedSpec
  import opened TenantSpec
  import opened ServiceSpec
  import opened Resolution
  import opened Invariants

  // ---- Calls to one tenant's store ----

  /** What the call is about is not there. */
  ghost predicate Missing(t: TenantState, c: TenantCall) {
    match c
    case RenameRole(name, _) => name !in t.roles
    case DeleteRole(name) => name !in t.roles
    case AssignRole(_, role) => role !in t.roles
    case UnassignRole(sub, role) => role !in t.roles || (sub, role) !in t.assignments
    case SetRolePermission(role, _, _) => role !in t.roles
    case RemoveRolePermission(role, op) => role !in t.roles || (role, op) !in t.grants
    case RemoveUserPermission(sub, op) => (sub, op) !in t.overrides
    case AddRoleIDs(role, _, _) => role !in t.roles
    case RemoveRoleIDs(role, _, _) => role !in t.roles
    case _ => false
  }

  /** The name the call would give is taken. */
  ghost predicate Taken(t: TenantState, c: TenantCall) {
    || (c.CreateRole? && c.name in t.roles)
    || (c.RenameRole? && c.name in t.roles && c.newName in t.roles)
  }

  lemma TenantErrorsExactly(t: TenantState, c: TenantCall)
    ensures TenantStep(t, c).err == NotFound <==> Missing(t, c)
    ensures TenantStep(t, c).err == Conflict <==> Taken(t, c)
    ensures TenantStep(t, c).err != Validation
    ensures TenantStep(t, c).err != Ok ==> TenantStep(t, c).state == t
  {
  }

  /** A rename reports Ok exactly when the old name exists and the new one does not; then the role answers under the
      new name as it did under the old, every other role is as it was, and the old name is gone. */
  lemma RenameOutcome(t: TenantState, n: string, m: string)
    requires RolesExist(t)
    ensures var o := TenantStep(t, TenantCall.RenameRole(n, m));
      && (o.err == Ok <==> n in t.roles && m !in t.roles)
      && (o.err == NotFound <==> n !in t.roles)
      && (o.err == Conflict <==> n in t.roles && m in t.roles)
      && (o.err != Ok ==> o.state == t)
      && (o.err == Ok ==>
            && m in o.state.roles && n !in o.state.roles
            && (forall r :: r != n && r != m ==> (r in o.state.roles <==> r in t.roles))
            && SameUnderRenaming(t, o.state, n, m) && RolesExist(o.state))
  {
    if n in t.roles && m !in t.roles {
      RenameIsABijection(t, n, m);
      RenameKeepsRolesExist(t, n, m);
    }
    hide SameUnderRenaming, RolesExist, RenamedAssignments, RenamedGrants, RenamedIds;
  }

  /** Renaming back gives the old state, to the last entry. */
  lemma RenamingBackRestores(t: TenantState, n: string, m: string)
    requires RolesExist(t) && n in t.roles && m !in t.roles
    ensures var there := TenantStep(t, TenantCall.RenameRole(n, m));
      var back := TenantStep(there.state, TenantCall.RenameRole(m, n));
      there.err == Ok && back.err == Ok && back.state == t
  {
    var u := TenantStep(t, TenantCall.RenameRole(n, m)).state;
    RenameOutcome(t, n, m);
    RenameOutcome(u, m, n);
    var v := TenantStep(u, TenantCall.RenameRole(m, n)).state;
    hide TenantStep;
    assert v.roles == t.roles;
    SameLookups(t, u, v, n, m);
  }

  lemma SameLookups(t: TenantState, u: TenantState, v: TenantState, n: string, m: string)
    requires RolesExist(t) && RolesExist(v) && n in t.roles && m !in t.roles && m in u.roles && n !in u.roles
    requires v.roles == t.roles && forall r :: r != n && r != m ==> (r in u.roles <==> r in t.roles)
    requires SameUnderRenaming(t, u, n, m) && SameUnderRenaming(u, v, m, n)
    ensures v == t
  {
    assert forall r :: r in t.roles ==> Renamed(r, n, m) in u.roles && Renamed(Renamed(r, n, m), m, n) == r;
    forall a ensures a in v.assignments <==> a in t.assignments {
      if a.1 in t.roles {
        assert (a.0, a.1) in t.assignments <==> (a.0, Renamed(a.1, n, m)) in u.assignments;
      }
    }
    forall x ensures x in v.roleIds <==> x in t.roleIds {
      if x.0 in t.roles {
        assert (x.0, x.1, x.2) in t.roleIds <==> (Renamed(x.0, n, m), x.1, x.2) in u.roleIds;
      }
    }
    SameGrantsBack(t, u, v, n, m);
  }

  lemma SameGrantsBack(t: TenantState, u: TenantState, v: TenantState, n: string, m: string)
    requires RolesExist(t) && RolesExist(v) && v.roles == t.roles
    requires forall r :: r in t.roles ==> Renamed(r, n, m) in u.roles && Renamed(Renamed(r, n, m), m, n) == r
    requires SameUnderRenaming(t, u, n, m) && SameUnderRenaming(u, v, m, n)
    ensures v.grants == t.grants
  {
    forall k ensures k in v.grants <==> k in t.grants
      ensures k in v.grants && k in t.grants ==> v.grants[k] == t.grants[k]
    {
      if k.0 in t.roles {
        assert (k.0, k.1) in t.grants <==> (Renamed(k.0, n, m), k.1) in u.grants;
      }
    }
  }

  /** Creating and ensuring add the name and nothing else. */
  lemma NewRoleOutcome(t: TenantState, c: TenantCall)
    requires c.CreateRole? || c.EnsureRole?
    ensures TenantStep(t, c).err == Ok <==> c.EnsureRole? || c.name !in t.roles
    ensures TenantStep(t, c).err == Ok ==>
      && TenantStep(t, c).state == t.(roles := TenantStep(t, c).state.roles)
      && forall r :: r in TenantStep(t, c).state.roles <==> r in t.roles || r == c.name
  {
  }

  lemma DeleteOutcome(t: TenantState, n: string)
    ensures var o := TenantStep(t, TenantCall.DeleteRole(n));
      && (o.err == Ok <==> n in t.roles) && (o.err == NotFound <==> n !in t.roles) && (o.err != Ok ==> o.state == t)
      && (o.err == Ok ==>
            && (forall r :: r in o.state.roles <==> r in t.roles && r != n)
            && (forall s, r :: (s, r) in o.state.assignments <==> (s, r) in t.assignments && r != n)
            && (forall r, op :: (r, op) in o.state.grants <==> (r, op) in t.grants && r != n)
            && (forall k :: k in o.state.grants ==> k in t.grants && o.state.grants[k] == t.grants[k])
            && (forall r, op, x :: (r, op, x) in o.state.roleIds <==> (r, op, x) in t.roleIds && r != n)
            && o.state.overrides == t.overrides && o.state.userIds == t.userIds)
  {
  }

  lemma AssignmentOutcome(t: TenantState, c: TenantCall)
    requires c.AssignRole? || c.UnassignRole?
    ensures var o := TenantStep(t, c);
      && (o.err == Ok <==> c.role in t.roles && (c.AssignRole? || (c.sub, c.role) in t.assignments))
      && (o.err == Ok ==>
            && o.state == t.(assignments := o.state.assignments)
            && forall s, r :: (s, r) in o.state.assignments <==>
                 if s == c.sub && r == c.role then c.AssignRole? else (s, r) in t.assignments)
  {
  }

  /** Setting a role's scope sets that, and keeps the ids. */
  lemma RoleScopeOutcome(t: TenantState, role: string, op: string, scope: Scope)
    ensures var o := TenantStep(t, TenantCall.SetRolePermission(role, op, scope));
      && (o.err == Ok <==> role in t.roles) && (o.err == NotFound <==> role !in t.roles)
      && (o.err == Ok ==>
            o.state == t.(grants := o.state.grants) && OnlyAt(t.grants, o.state.grants, role, op, Some(scope)))
  {
  }

  lemma UserScopeOutcome(t: TenantState, sub: string, op: string, scope: Scope)
    ensures var o := TenantStep(t, TenantCall.SetUserPermission(sub, op, scope));
      && o.err == Ok && o.state == t.(overrides := o.state.overrides)
      && OnlyAt(t.overrides, o.state.overrides, sub, op, Some(scope))
  {
  }

  /** Removing a permission takes its scope and all its ids, and nothing of any other pair. */
  lemma RemoveRoleScopeOutcome(t: TenantState, role: string, op: string)
    ensures var o := TenantStep(t, TenantCall.RemoveRolePermission(role, op));
      && (o.err == Ok <==> role in t.roles && (role, op) in t.grants)
      && (o.err == Ok ==>
            && o.state == t.(grants := o.state.grants, roleIds := o.state.roleIds)
            && OnlyAt(t.grants, o.state.grants, role, op, None)
            && forall r, q, x :: (r, q, x) in o.state.roleIds <==> (r, q, x) in t.roleIds && !(r == role && q == op))
  {
  }

  lemma RemoveUserScopeOutcome(t: TenantState, sub: string, op: string)
    ensures var o := TenantStep(t, TenantCall.RemoveUserPermission(sub, op));
      && (o.err == Ok <==> (sub, op) in t.overrides)
      && (o.err == Ok ==>
            && o.state == t.(overrides := o.state.overrides, userIds := o.state.userIds)
            && OnlyAt(t.overrides, o.state.overrides, sub, op, None)
            && forall s, q, x :: (s, q, x) in o.state.userIds <==> (s, q, x) in t.userIds && !(s == sub && q == op))
  {
  }

  /** One pair has the scope given, or none; all others have theirs. */
  ghost predicate OnlyAt(before: map<(string, string), Scope>, after: map<(string, string), Scope>, owner: string,
                         op: string, scope: Option<Scope>) {
    forall o, q :: ScopeAt(after, (o, q)) == if o == owner && q == op then scope else ScopeAt(before, (o, q))
  }

  lemma RoleIdsOutcome(t: TenantState, c: TenantCall)
    requires c.AddRoleIDs? || c.RemoveRoleIDs?
    ensures var o := TenantStep(t, c);
      && (o.err == Ok <==> c.role in t.roles)
      && (o.err == Ok ==>
            && o.state == t.(roleIds := o.state.roleIds)
            && forall r, q, x :: (r, q, x) in o.state.roleIds <==>
                 if r == c.role && q == c.operation && x in c.ids then c.AddRoleIDs? else (r, q, x) in t.roleIds)
  {
  }

  lemma UserIdsOutcome(t: TenantState, c: TenantCall)
    requires c.AddUserIDs? || c.RemoveUserIDs?
    ensures var o := TenantStep(t, c);
      && o.err == Ok
      && o.state == t.(userIds := o.state.userIds)
      && forall s, q, x :: (s, q, x) in o.state.userIds <==>
           if s == c.sub && q == c.operation && x in c.ids then c.AddUserIDs? else (s, q, x) in t.userIds
  {
  }

  // ---- Calls that take back calls ----

  /** Deleting a role just created, unassigning a role just assigned, removing a permission just given, removing ids
      just added: each gives the old state, to the last entry. */
  ghost predicate TakesBack(t: TenantState, c: TenantCall, d: TenantCall) {
    || (c.CreateRole? && d == TenantCall.DeleteRole(c.name) && c.name !in t.roles)
    || (c.AssignRole? && d == TenantCall.UnassignRole(c.sub, c.role) && c.role in t.roles
        && (c.sub, c.role) !in t.assignments)
    || (c.SetRolePermission? && d == TenantCall.RemoveRolePermission(c.role, c.operation) && c.role in t.roles
        && (c.role, c.operation) !in t.grants)
    || (c.SetUserPermission? && d == TenantCall.RemoveUserPermission(c.sub, c.operation)
        && (c.sub, c.operation) !in t.overrides)
    || (c.AddRoleIDs? && d == RemoveRoleIDs(c.role, c.operation, c.ids) && c.role in t.roles
        && forall x :: x in c.ids ==> (c.role, c.operation, x) !in t.roleIds)
    || (c.AddUserIDs? && d == RemoveUserIDs(c.sub, c.operation, c.ids)
        && forall x :: x in c.ids ==> (c.sub, c.operation, x) !in t.userIds)
  }

  lemma TakingBackRestores(t: TenantState, c: TenantCall, d: TenantCall)
    requires RolesExist(t) && IdsPermitted(t) && TakesBack(t, c, d)
    ensures var done := TenantStep(t, c); var undone := TenantStep(done.state, d);
      done.err == Ok && undone.err == Ok && undone.state == t
  {
    var u := TenantStep(t, c).state;
    var v := TenantStep(u, d).state;
    match c
    case CreateRole(n) => DeleteOfNewRestores(t, n);
    case AssignRole(s, r) => assert v.assignments == t.assignments;
    case SetRolePermission(r, op, _) =>
      assert v.grants == t.grants;
      assert v.roleIds == t.roleIds;
    case SetUserPermission(s, op, _) =>
      assert v.overrides == t.overrides;
      assert v.userIds == t.userIds;
    case AddRoleIDs(r, op, ids) =>
      forall x ensures x in v.roleIds <==> x in t.roleIds {
        assert x == (x.0, x.1, x.2);
      }
    case AddUserIDs(s, op, ids) =>
      forall x ensures x in v.userIds <==> x in t.userIds {
        assert x == (x.0, x.1, x.2);
      }
  }

  lemma DeleteOfNewRestores(t: TenantState, n: string)
    requires RolesExist(t) && n !in t.roles
    ensures WithoutRole(t.(roles := t.roles + {n}), n) == t
  {
    var v := WithoutRole(t.(roles := t.roles + {n}), n);
    assert v.roles == t.roles && v.assignments == t.assignments && v.grants == t.grants && v.roleIds == t.roleIds;
  }

  // ---- What calls do to access ----

  /** An override decides by itself: FULL lets everything through, RESTRICTED what is listed, EMPTY nothing. */
  lemma OverrideDecides(t: TenantState, sub: string, op: string, scope: Scope, id: string)
    ensures var t' := TenantStep(t, TenantCall.SetUserPermission(sub, op, scope)).state;
      CanAccess(t', sub, op, id) <==> scope == FULL || (scope == RESTRICTED && (sub, op, id) in t.userIds)
  {
  }

  /** Without an override, what a role is given its holders get: at FULL everything, at RESTRICTED the ids listed; an
      EMPTY grant leaves them what their other roles give. */
  lemma GrantReachesHolders(t: TenantState, sub: string, role: string, op: string, scope: Scope, id: string)
    requires role in t.roles && (sub, role) in t.assignments && (sub, op) !in t.overrides
    ensures var t' := TenantStep(t, TenantCall.SetRolePermission(role, op, scope)).state;
      CanAccess(t', sub, op, id) <==>
        || scope == FULL
        || (scope == RESTRICTED && (role, op, id) in t.roleIds)
        || exists r :: r != role && (sub, r) in t.assignments && (r, op) in t.grants
             && (t.grants[(r, op)] == FULL || (t.grants[(r, op)] == RESTRICTED && (r, op, id) in t.roleIds))
  {
    var t' := TenantStep(t, TenantCall.SetRolePermission(role, op, scope)).state;
    assert (role, op) in t'.grants && t'.grants[(role, op)] == scope;
    forall r | r != role ensures (r, op) in t'.grants <==> (r, op) in t.grants {
    }
  }

  /** An id added to a RESTRICTED grant opens that record to the holders, and an id removed from it closes the record
      to those no other role lets through. */
  lemma IdsOpenAndClose(t: TenantState, sub: string, role: string, op: string, id: string)
    requires role in t.roles && (sub, role) in t.assignments && (sub, op) !in t.overrides
    requires (role, op) in t.grants && t.grants[(role, op)] == RESTRICTED
    ensures CanAccess(TenantStep(t, AddRoleIDs(role, op, [id])).state, sub, op, id)
    ensures CanAccess(TenantStep(t, RemoveRoleIDs(role, op, [id])).state, sub, op, id) <==>
      exists r :: r != role && (sub, r) in t.assignments && (r, op) in t.grants
        && (t.grants[(r, op)] == FULL || (t.grants[(r, op)] == RESTRICTED && (r, op, id) in t.roleIds))
  {
    var added := TenantStep(t, AddRoleIDs(role, op, [id])).state;
    var removed := TenantStep(t, RemoveRoleIDs(role, op, [id])).state;
    assert id in [id];
    assert (role, op, id) in added.roleIds && (role, op, id) !in removed.roleIds;
    assert forall r :: r != role ==> ((r, op, id) in removed.roleIds <==> (r, op, id) in t.roleIds);
  }

  // ---- Calls to the shared store ----

  lemma SharedErrorsExactly(s: SharedState, c: SharedCall)
    ensures SharedStep(s, c).err == NotFound <==>
      (c.DeleteResource? && c.name !in s.resources) || (c.DeleteOperation? && c.name !in s.operations)
    ensures SharedStep(s, c).err == Conflict <==>
      (c.CreateResource? && c.name in s.resources) || (c.CreateOperation? && c.name in s.operations)
    ensures SharedStep(s, c).err != Validation
    ensures SharedStep(s, c).err != Ok ==> SharedStep(s, c).state == s
  {
  }

  /** What is known after a successful call. A registered operation keeps its resource, and brings it along when new. */
  lemma SharedOutcomes(s: SharedState, c: SharedCall)
    requires SharedStep(s, c).err == Ok
    ensures var s' := SharedStep(s, c).state;
      && (forall u :: u in s'.users <==> u in s.users || (c.EnsureUser? && u == c.sub))
      && (forall n :: n in s'.resources <==>
            || (n in s.resources && !(c.DeleteResource? && n == c.name))
            || ((c.CreateResource? || c.EnsureResource?) && n == c.name)
            || ((c.CreateOperation? || c.EnsureOperation?) && n == c.resource && c.name !in s.operations))
      && (forall op :: op in s'.operations <==>
            || (op in s.operations && !(c.DeleteOperation? && op == c.name)
                && !(c.DeleteResource? && s.operations[op] == c.name))
            || ((c.CreateOperation? || c.EnsureOperation?) && op == c.name))
      && (forall op :: op in s'.operations ==>
            s'.operations[op] == if op in s.operations then s.operations[op] else ResourceGiven(c))
  {
  }

  function ResourceGiven(c: SharedCall): string {
    if c.CreateOperation? || c.EnsureOperation? then c.resource else ""
  }

  // ---- Administrative calls ----

  /** What is asked for is malformed: a name left empty, or a scope that is none of the three. */
  ghost predicate Malformed(s: SharedState, c: AdminCall) {
    match c
    case CreateRole(name) => name == ""
    case EnsureRole(name) => name == ""
    case RenameRole(_, newName) => newName == ""
    case AssignRole(sub, _) => sub == ""
    case SetRolePermission(_, _, scope) => scope != FULL && scope != RESTRICTED && scope != EMPTY
    case SetUserPermission(sub, op, scope) =>
      (scope != FULL && scope != RESTRICTED && scope != EMPTY) || (op in s.operations && sub == "")
    case _ => false
  }

  ghost predicate NotThere(s: SharedState, t: TenantState, c: AdminCall) {
    match c
    case RenameRole(name, _) => name !in t.roles
    case DeleteRole(name) => name !in t.roles
    case AssignRole(_, role) => role !in t.roles
    case UnassignRole(sub, role) => role !in t.roles || (sub, role) !in t.assignments
    case SetRolePermission(role, op, _) => op !in s.operations || role !in t.roles
    case RemoveRolePermission(role, op) => role !in t.roles || (role, op) !in t.grants
    case SetUserPermission(_, op, _) => op !in s.operations
    case RemoveUserPermission(sub, op) => (sub, op) !in t.overrides
    case UpdateRoleIDs(role, op, _, _) => role !in t.roles || (role, op) !in t.grants
    case UpdateUserIDs(sub, op, _, _) => (sub, op) !in t.overrides
    case _ => false
  }

  ghost predicate NameTaken(t: TenantState, c: AdminCall) {
    (c.CreateRole? && c.name in t.roles) || (c.RenameRole? && c.name in t.roles && c.newName in t.roles)
  }

  /** Malformed input is reported before anything missing, and anything missing before a name that is taken. The
      tenant only changes on success; the shared store only gains a user, and only where one is provisioned. */
  lemma AdminErrorsExactly(s: SharedState, t: TenantState, c: AdminCall)
    ensures var o := AdminStep(s, t, c);
      && (o.err == Validation <==> Malformed(s, c))
      && (o.err == NotFound <==> !Malformed(s, c) && NotThere(s, t, c))
      && (o.err == Conflict <==> !Malformed(s, c) && NameTaken(t, c))
      && (o.err != Ok ==> o.tenant == t)
      && (o.err == Validation ==> o.shared == s)
      && o.shared.resources == s.resources && o.shared.operations == s.operations
      && forall u :: u in o.shared.users <==> u in s.users || (Provisions(s, c) && u == c.sub)
  {
  }

  /** A role to assign may turn out to be missing after the user has been made known. */
  ghost predicate Provisions(s: SharedState, c: AdminCall) {
    (c.AssignRole? && !Malformed(s, c)) || (c.SetUserPermission? && !Malformed(s, c) && c.operation in s.operations)
  }

  /** A role's scope can be set to exactly FULL, RESTRICTED and EMPTY, and is then what was asked for. */
  lemma SettingARoleScope(s: SharedState, t: TenantState, role: string, op: string, scope: Scope)
    ensures var o := AdminStep(s, t, AdminCall.SetRolePermission(role, op, scope));
      && (o.err == Validation <==> scope.Unsupported?)
      && (o.err == Ok <==>
            (scope == FULL || scope == RESTRICTED || scope == EMPTY) && op in s.operations && role in t.roles)
      && o.shared == s && (o.err != Ok ==> o.tenant == t)
      && (o.err == Ok ==>
            o.tenant == t.(grants := o.tenant.grants) && OnlyAt(t.grants, o.tenant.grants, role, op, Some(scope)))
  {
    RoleScopeOutcome(t, role, op, scope);
    hide OnlyAt;
  }

  lemma SettingAUserScope(s: SharedState, t: TenantState, sub: string, op: string, scope: Scope)
    ensures var o := AdminStep(s, t, AdminCall.SetUserPermission(sub, op, scope));
      && (o.err == Validation <==> scope.Unsupported? || (op in s.operations && sub == ""))
      && (o.err == Ok <==> (scope == FULL || scope == RESTRICTED || scope == EMPTY) && op in s.operations && sub != "")
      && (o.err != Ok ==> o.tenant == t && o.shared == s)
      && (o.err == Ok ==>
            && o.tenant == t.(overrides := o.tenant.overrides)
            && OnlyAt(t.overrides, o.tenant.overrides, sub, op, Some(scope))
            && o.shared == s.(users := o.shared.users) && forall u :: u in o.shared.users <==> u in s.users || u == sub)
  {
    UserScopeOutcome(t, sub, op, scope);
    hide OnlyAt;
  }

  /** An administrative call that needs no more than the tenant does there what the store call of its name does. */
  lemma AdminCallsTheStore(s: SharedState, t: TenantState, c: AdminCall, d: TenantCall)
    requires AdminStep(s, t, c).err != Validation
    requires (c.SetRolePermission? || c.SetUserPermission?) ==> c.operation in s.operations
    requires SameCall(c, d)
    ensures AdminStep(s, t, c).err == TenantStep(t, d).err && AdminStep(s, t, c).tenant == TenantStep(t, d).state
  {
  }

  ghost predicate SameCall(c: AdminCall, d: TenantCall) {
    match c
    case CreateRole(n) => d == TenantCall.CreateRole(n)
    case EnsureRole(n) => d == TenantCall.EnsureRole(n)
    case RenameRole(n, m) => d == TenantCall.RenameRole(n, m)
    case DeleteRole(n) => d == TenantCall.DeleteRole(n)
    case AssignRole(s, r) => d == TenantCall.AssignRole(s, r)
    case UnassignRole(s, r) => d == TenantCall.UnassignRole(s, r)
    case SetRolePermission(r, op, x) => d == TenantCall.SetRolePermission(r, op, x)
    case RemoveRolePermission(r, op) => d == TenantCall.RemoveRolePermission(r, op)
    case SetUserPermission(s, op, x) => d == TenantCall.SetUserPermission(s, op, x)
    case RemoveUserPermission(s, op) => d == TenantCall.RemoveUserPermission(s, op)
    case _ => false
  }

  // ---- Calls to the whole service ----

  ghost predicate ServiceMalformed(w: World, c: ServiceCall) {
    match c
    case EnsureUser(sub) => sub == ""
    case CreateResource(name) => name == ""
    case CreateOperation(name) => name == "" || ':' !in name || name[0] == ':'
    case EnsureOperation(name) => name == "" || ':' !in name || name[0] == ':'
    case OnTenant(id, call) => id in w.tenants && Malformed(w.shared, call)
    case _ => false
  }

  ghost predicate ServiceNotThere(w: World, c: ServiceCall) {
    match c
    case DeleteResource(name) => name !in w.shared.resources
    case DeleteOperation(name) => name !in w.shared.operations
    case OnTenant(id, call) => id in w.tenants ==> NotThere(w.shared, w.tenants[id], call)
    case _ => false
  }

  ghost predicate ServiceTaken(w: World, c: ServiceCall) {
    match c
    case CreateResource(name) => name in w.shared.resources
    case CreateOperation(name) => name in w.shared.operations
    case OnTenant(id, call) => id in w.tenants && NameTaken(w.tenants[id], call)
    case _ => false
  }

  /** A call about shared things does there what the store call of its name does, with the resource an operation's
      name spells out. */
  lemma ServiceCallsTheShared(w: World, c: ServiceCall, d: SharedCall)
    requires ServiceStep(w, c).err != Validation && SameSharedCall(c, d)
    ensures var o := SharedStep(w.shared, d); ServiceStep(w, c) == WorldOutcome(World(o.state, w.tenants), o.err)
  {
    hide OperationResource;
  }

  ghost predicate SameSharedCall(c: ServiceCall, d: SharedCall) {
    match c
    case EnsureUser(sub) => d == SharedCall.EnsureUser(sub)
    case CreateResource(n) => d == SharedCall.CreateResource(n)
    case EnsureResource(n) => d == SharedCall.EnsureResource(n)
    case DeleteResource(n) => d == SharedCall.DeleteResource(n)
    case CreateOperation(n) => d == SharedCall.CreateOperation(n, OperationResource(n))
    case EnsureOperation(n) => d == SharedCall.EnsureOperation(n, OperationResource(n))
    case DeleteOperation(n) => d == SharedCall.DeleteOperation(n)
    case _ => false
  }

  /** A call about a tenant does there what the administrative function does, and nothing elsewhere. */
  lemma ServiceCallsTheTenant(w: World, id: string, c: AdminCall)
    requires id in w.tenants
    ensures var o := AdminStep(w.shared, w.tenants[id], c);
      ServiceStep(w, OnTenant(id, c)) == WorldOutcome(World(o.shared, w.tenants[id := o.tenant]), o.err)
  {
    hide AdminStep;
  }

  /** The exact condition of every error; and an error leaves everything as it was but for a user made known. */
  lemma ServiceErrorsExactly(w: World, c: ServiceCall)
    ensures var o := ServiceStep(w, c);
      && (o.err == Validation <==> ServiceMalformed(w, c))
      && (o.err == NotFound <==> !ServiceMalformed(w, c) && ServiceNotThere(w, c))
      && (o.err == Conflict <==> !ServiceMalformed(w, c) && ServiceTaken(w, c))
      && (o.err != Ok ==> o.world == w.(shared := w.shared.(users := o.world.shared.users)))
      && (o.err != Ok && !c.OnTenant? ==> o.world == w)
  {
    hide AdminStep, Malformed, NotThere, NameTaken;
    if c.OnTenant? && c.tenant in w.tenants {
      AdminErrorsExactly(w.shared, w.tenants[c.tenant], c.call);
    }
  }

  /** A call in one tenant leaves every other tenant alone, and a call to the shared store leaves all of them alone. */
  lemma TenantsAreIsolated(w: World, c: ServiceCall)
    ensures var w' := ServiceStep(w, c).world;
      w'.tenants.Keys == w.tenants.Keys
      && forall id :: id in w.tenants && !(c.OnTenant? && id == c.tenant) ==> w'.tenants[id] == w.tenants[id]
  {
    hide AdminStep;
  }

  /** Deleting a resource takes it and exactly its operations; asking again finds nothing to delete. */
  lemma DeletingAResource(w: World, n: string)
    ensures var o := ServiceStep(w, ServiceCall.DeleteResource(n));
      && (o.err == Ok <==> n in w.shared.resources) && (o.err == NotFound <==> n !in w.shared.resources)
      && (o.err != Ok ==> o.world == w)
      && (o.err == Ok ==>
            && (forall r :: r in o.world.shared.resources <==> r in w.shared.resources && r != n)
            && (forall op :: op in o.world.shared.operations <==>
                  op in w.shared.operations && w.shared.operations[op] != n)
            && (forall op :: op in o.world.shared.operations ==>
                  o.world.shared.operations[op] == w.shared.operations[op])
            && o.world.shared.users == w.shared.users && o.world.tenants == w.tenants)
      && ServiceStep(o.world, ServiceCall.DeleteResource(n)) == WorldOutcome(o.world, NotFound)
  {
  }

  /** Creating an operation registers it under the resource its name spells out, which comes along if need be. */
  lemma RegisteringAnOperation(w: World, c: ServiceCall, resource: string, action: string)
    requires resource != "" && ':' !in resource
    requires c == ServiceCall.CreateOperation(resource + ":" + action)
      || c == ServiceCall.EnsureOperation(resource + ":" + action)
    ensures var o := ServiceStep(w, c); var name := resource + ":" + action;
      && (o.err == Ok <==> c.EnsureOperation? || name !in w.shared.operations)
      && (o.err == Ok ==>
            && name in o.world.shared.operations
            && (name !in w.shared.operations ==>
                  o.world.shared.operations[name] == resource && resource in o.world.shared.resources)
            && (forall op :: op in w.shared.operations ==>
                  op in o.world.shared.operations && o.world.shared.operations[op] == w.shared.operations[op])
            && (forall op :: op in o.world.shared.operations ==> op == name || op in w.shared.operations)
            && o.world.tenants == w.tenants && o.world.shared.users == w.shared.users)
  {
    ResourceOfName(resource + ":" + action, resource, action);
    hide OperationResource;
  }
}
