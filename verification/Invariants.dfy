/** What every run of administrative calls keeps, across the shared store and all tenants. */
module Invariants {
  import opened Model
  import opened SharedSpec
  import opened TenantSpec
  import opened Resolution
  import opened ServiceSpec

  /** Every operation belongs to the registered resource its own name spells out. */
  ghost predicate OperationsNamed(s: SharedState) {
    && (forall op :: op in s.operations ==> s.operations[op] == OperationResource(op) != "")
    && (forall op :: op in s.operations ==> s.operations[op] in s.resources)
  }

  /** Everyone a tenant says something about is a known user. */
  ghost predicate SubjectsKnown(s: SharedState, t: TenantState) {
    && (forall a :: a in t.assignments ==> a.0 in s.users)
    && (forall k :: k in t.overrides ==> k.0 in s.users)
    && (forall x :: x in t.userIds ==> x.0 in s.users)
  }

  /** Record ids only stand where a permission does. */
  ghost predicate IdsPermitted(t: TenantState) {
    && (forall x :: x in t.roleIds ==> (x.0, x.1) in t.grants)
    && (forall x :: x in t.userIds ==> (x.0, x.1) in t.overrides)
  }

  ghost predicate TenantSound(t: TenantState) {
    ScopesValid(t) && RolesExist(t) && IdsPermitted(t) && "" !in t.roles
  }

  ghost predicate Sound(w: World) {
    && OperationsNamed(w.shared) && "" !in w.shared.users
    && (forall id :: id in w.tenants ==> TenantSound(w.tenants[id]) && SubjectsKnown(w.shared, w.tenants[id]))
  }

  function EmptyWorld(tenants: set<string>): World {
    World(NO_SHARED_DATA, map id | id in tenants :: NO_TENANT_DATA)
  }

  lemma SharedStepKeepsNames(s: SharedState, c: SharedCall)
    requires OperationsNamed(s)
    requires c.CreateOperation? || c.EnsureOperation? ==> c.resource == OperationResource(c.name) != ""
    ensures OperationsNamed(SharedStep(s, c).state)
    ensures s.users <= SharedStep(s, c).state.users
    ensures !c.EnsureUser? ==> SharedStep(s, c).state.users == s.users
  {
    hide OperationResource;
  }

  lemma RenamingKeepsIdsPermitted(t: TenantState, name: string, newName: string)
    requires RolesExist(t) && IdsPermitted(t) && name in t.roles && newName !in t.roles
    ensures IdsPermitted(WithRoleRenamed(t, name, newName))
  {
    var t' := WithRoleRenamed(t, name, newName);
    forall x | x in t'.roleIds ensures (x.0, x.1) in t'.grants {
      var r :| (r, x.1, x.2) in t.roleIds && x.0 == Renamed(r, name, newName);
      RenamedGrant(t, name, newName, r, x.1);
    }
  }

  lemma RenamingKeepsTenantSound(s: SharedState, t: TenantState, name: string, newName: string)
    requires TenantSound(t) && SubjectsKnown(s, t) && name in t.roles && newName !in t.roles && newName != ""
    ensures TenantSound(WithRoleRenamed(t, name, newName)) && SubjectsKnown(s, WithRoleRenamed(t, name, newName))
  {
    RenameKeepsRolesExist(t, name, newName);
    RenamingKeepsIdsPermitted(t, name, newName);
  }

  lemma UpdatingIdsKeepsTenantSound(s: SharedState, t: TenantState, c: AdminCall)
    requires c.UpdateRoleIDs? || c.UpdateUserIDs?
    requires TenantSound(t) && SubjectsKnown(s, t)
    ensures TenantSound(AdminStep(s, t, c).tenant)
      && SubjectsKnown(AdminStep(s, t, c).shared, AdminStep(s, t, c).tenant)
  {
    UpdateNeedsPermission(s, t, c);
    if AdminStep(s, t, c).err == Ok {
      UpdatedIdsExact(s, t, c);
    }
  }

  lemma TenantCallKeepsTenantSound(s: SharedState, t: TenantState, c: AdminCall)
    requires TenantSound(t) && !c.RenameRole? && !c.UpdateRoleIDs? && !c.UpdateUserIDs?
    ensures TenantSound(AdminStep(s, t, c).tenant)
  {
  }

  lemma TenantCallKeepsSubjectsKnown(s: SharedState, t: TenantState, c: AdminCall)
    requires SubjectsKnown(s, t) && !c.RenameRole? && !c.UpdateRoleIDs? && !c.UpdateUserIDs?
    ensures SubjectsKnown(AdminStep(s, t, c).shared, AdminStep(s, t, c).tenant)
  {
  }

  lemma TenantCallAddsUsersOnly(s: SharedState, t: TenantState, c: AdminCall)
    requires "" !in s.users
    ensures var s' := AdminStep(s, t, c).shared;
      s.users <= s'.users && "" !in s'.users && s'.resources == s.resources && s'.operations == s.operations
  {
  }

  lemma AdminStepKeepsSound(s: SharedState, t: TenantState, c: AdminCall)
    requires TenantSound(t) && SubjectsKnown(s, t)
    ensures var o := AdminStep(s, t, c); TenantSound(o.tenant) && SubjectsKnown(o.shared, o.tenant)
  {
    hide WithRoleRenamed, TenantSound, SubjectsKnown;
    if c.RenameRole? {
      if AdminStep(s, t, c).err == Ok {
        RenamingKeepsTenantSound(s, t, c.name, c.newName);
      }
    } else if c.UpdateRoleIDs? || c.UpdateUserIDs? {
      UpdatingIdsKeepsTenantSound(s, t, c);
    } else {
      TenantCallKeepsTenantSound(s, t, c);
      TenantCallKeepsSubjectsKnown(s, t, c);
    }
  }

  /** No administrative call, successful or not, breaks any of it, in the tenant it is about or in any other. */
  lemma StepKeepsSound(w: World, c: ServiceCall)
    requires Sound(w)
    ensures Sound(ServiceStep(w, c).world)
  {
    hide AdminStep, OperationResource, TenantSound;
    var w' := ServiceStep(w, c).world;
    match c
    case OnTenant(id, call) =>
      if id in w.tenants {
        AdminStepKeepsSound(w.shared, w.tenants[id], call);
        TenantCallAddsUsersOnly(w.shared, w.tenants[id], call);
      }
    case EnsureUser(sub) => SharedStepKeepsNames(w.shared, SharedCall.EnsureUser(sub));
    case CreateResource(name) => SharedStepKeepsNames(w.shared, SharedCall.CreateResource(name));
    case EnsureResource(name) => SharedStepKeepsNames(w.shared, SharedCall.EnsureResource(name));
    case DeleteResource(name) => SharedStepKeepsNames(w.shared, SharedCall.DeleteResource(name));
    case CreateOperation(name) =>
      if OperationResource(name) != "" {
        SharedStepKeepsNames(w.shared, SharedCall.CreateOperation(name, OperationResource(name)));
      }
    case EnsureOperation(name) =>
      if OperationResource(name) != "" {
        SharedStepKeepsNames(w.shared, SharedCall.EnsureOperation(name, OperationResource(name)));
      }
    case DeleteOperation(name) => SharedStepKeepsNames(w.shared, SharedCall.DeleteOperation(name));
  }

  /** Every run keeps it, whatever the calls and however many of them fail. */
  lemma {:induction false} RunKeepsSound(w: World, calls: seq<ServiceCall>)
    requires Sound(w)
    ensures Sound(Run(w, calls))
  {
    if calls != [] {
      var before := calls[..|calls| - 1];
      RunKeepsSound(w, before);
      StepKeepsSound(Run(w, before), calls[|calls| - 1]);
    }
  }

  lemma ReachableWorldsAreSound(tenants: set<string>, calls: seq<ServiceCall>)
    ensures Sound(Run(EmptyWorld(tenants), calls))
  {
    RunKeepsSound(EmptyWorld(tenants), calls);
  }

  // ---- The check and the addition of an id update are two steps ----

  /** A store call that adds ids where no permission is. */
  predicate StrandsIds(t: TenantState, c: TenantCall) {
    || (c.AddRoleIDs? && c.role in t.roles && c.ids != [] && (c.role, c.operation) !in t.grants)
    || (c.AddUserIDs? && c.ids != [] && (c.sub, c.operation) !in t.overrides)
  }

  /** Step by step the stores keep ids permitted except for one kind of call, which is what another caller's
      removal between the check and the addition of an update leads to. */
  lemma StoreStepKeepsIdsPermittedExactly(t: TenantState, c: TenantCall)
    requires RolesExist(t) && IdsPermitted(t)
    ensures IdsPermitted(TenantStep(t, c).state) <==> !StrandsIds(t, c)
  {
    if c.RenameRole? {
      if TenantStep(t, c).err == Ok {
        RenamingKeepsIdsPermitted(t, c.name, c.newName);
      }
    } else if StrandsIds(t, c) {
      var t' := TenantStep(t, c).state;
      if c.AddRoleIDs? {
        assert (c.role, c.operation, c.ids[0]) in t'.roleIds;
      } else {
        assert (c.sub, c.operation, c.ids[0]) in t'.userIds;
      }
    }
  }

  /** The race itself: an update whose check passed, a removal by someone else, then the addition. */
  lemma UpdateRacesWithRemoval(t: TenantState, role: string, op: string, id: string)
    requires RolesExist(t) && IdsPermitted(t) && (role, op) in t.grants
    ensures var between := TenantStep(t, TenantCall.RemoveRolePermission(role, op));
      var end := TenantStep(between.state, AddRoleIDs(role, op, [id]));
      between.err == Ok && end.err == Ok && (role, op) !in end.state.grants && (role, op, id) in end.state.roleIds
  {
    assert id in [id];
  }

  // ---- Registration of granted operations is no invariant ----

  ghost predicate Mentioned(w: World, op: string) {
    exists id, owner :: id in w.tenants && ((owner, op) in w.tenants[id].grants
      || (owner, op) in w.tenants[id].overrides)
  }

  ghost predicate MentionedAreRegistered(w: World) {
    forall op :: Mentioned(w, op) ==> op in w.shared.operations
  }

  /** The operations a call takes off the register. */
  predicate Unregisters(w: World, c: ServiceCall, op: string) {
    || (c.DeleteOperation? && op == c.name)
    || (c.DeleteResource? && op in w.shared.operations && w.shared.operations[op] == c.name
      && c.name in w.shared.resources)
  }

  /** Permissions stay on registered operations through a call exactly when it takes none off the register
      that some tenant still names. */
  lemma RegistrationKeptExactly(w: World, c: ServiceCall)
    requires Sound(w) && MentionedAreRegistered(w)
    ensures MentionedAreRegistered(ServiceStep(w, c).world) <==>
      forall op :: Unregisters(w, c, op) ==> !Mentioned(w, op)
  {
    hide OperationResource, Sound;
    var w' := ServiceStep(w, c).world;
    if c.OnTenant? {
      if c.tenant in w.tenants {
        TenantCallMentionsRegistered(w, c);
      }
    } else {
      assert w'.tenants == w.tenants;
      assert forall op :: Mentioned(w', op) <==> Mentioned(w, op);
      forall op ensures op in w'.shared.operations || Unregisters(w, c, op) || op !in w.shared.operations {}
    }
  }

  lemma TenantCallMentionsRegistered(w: World, c: ServiceCall)
    requires c.OnTenant? && c.tenant in w.tenants && MentionedAreRegistered(w)
    ensures MentionedAreRegistered(ServiceStep(w, c).world)
  {
    var w' := ServiceStep(w, c).world;
    var t, t' := w.tenants[c.tenant], w'.tenants[c.tenant];
    assert w'.shared.operations == w.shared.operations;
    forall op | Mentioned(w', op) ensures op in w.shared.operations {
      var id, owner :| id in w'.tenants && ((owner, op) in w'.tenants[id].grants
        || (owner, op) in w'.tenants[id].overrides);
      if id != c.tenant {
        assert w'.tenants[id] == w.tenants[id] && Mentioned(w, op);
      } else {
        NewMention(w.shared, t, c.call, owner, op);
      }
    }
  }

  lemma NewMention(s: SharedState, t: TenantState, c: AdminCall, owner: string, op: string)
    requires var t' := AdminStep(s, t, c).tenant; (owner, op) in t'.grants || (owner, op) in t'.overrides
    ensures op in s.operations || exists o :: (o, op) in t.grants || (o, op) in t.overrides
  {
    var t' := AdminStep(s, t, c).tenant;
    if c.RenameRole? && (owner, op) in t'.grants && AdminStep(s, t, c).err == Ok {
      assert (Renamed(owner, c.newName, c.name), op) in t.grants;
    } else if (owner, op) in t.grants || (owner, op) in t.overrides {
    }
  }

  /** Four successful calls that end with a permission on an operation nobody has registered. */
  lemma DeletedOperationStaysGranted(id: string, role: string, op: string)
    requires OperationResource(op) != "" && role != ""
    ensures var calls := [ServiceCall.EnsureOperation(op), OnTenant(id, AdminCall.EnsureRole(role)),
        OnTenant(id, AdminCall.SetRolePermission(role, op, FULL)), ServiceCall.DeleteOperation(op)];
      AllOk(EmptyWorld({id}), calls) && !MentionedAreRegistered(Run(EmptyWorld({id}), calls))
  {
    hide OperationResource, AllOk, Run, MentionedAreRegistered;
    var w := EmptyWorld({id});
    var a := ServiceCall.EnsureOperation(op);
    var b := OnTenant(id, AdminCall.EnsureRole(role));
    var c := OnTenant(id, AdminCall.SetRolePermission(role, op, FULL));
    var d := ServiceCall.DeleteOperation(op);
    FourCalls(w, a, b, c, d);
    var end := Run(w, [a, b, c, d]);
    assert id in end.tenants && (role, op) in end.tenants[id].grants && op !in end.shared.operations;
    StillMentioned(end, id, role, op);
  }

  lemma FourCalls(w: World, a: ServiceCall, b: ServiceCall, c: ServiceCall, d: ServiceCall)
    ensures var first := ServiceStep(w, a); var second := ServiceStep(first.world, b);
      var third := ServiceStep(second.world, c); var fourth := ServiceStep(third.world, d);
      && Run(w, [a, b, c, d]) == fourth.world
      && (AllOk(w, [a, b, c, d]) <==> first.err == Ok && second.err == Ok && third.err == Ok && fourth.err == Ok)
  {
    hide ServiceStep, AllOk, Run;
    NothingMade(w);
    RunAppend(w, [], a);
    RunAppend(w, [a], b);
    RunAppend(w, [a, b], c);
    RunAppend(w, [a, b, c], d);
    assert [] + [a] == [a] && [a] + [b] == [a, b] && [a, b] + [c] == [a, b, c] && [a, b, c] + [d] == [a, b, c, d];
  }

  lemma StillMentioned(w: World, id: string, role: string, op: string)
    requires id in w.tenants && (role, op) in w.tenants[id].grants && op !in w.shared.operations
    ensures !MentionedAreRegistered(w)
  {
    assert Mentioned(w, op);
  }
}
