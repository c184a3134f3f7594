/** The two drivers side by side: the same calls give the same errors, the same state and the same answers. */
module Parity {
  import opened Model
  import opened Strings
  import opened SharedSpec
  import opened SharedAnswers
  import opened TenantSpec
  import opened TenantAnswers
  import opened Resolution
  import opened ServiceSpec
  import opened Drivers
  import opened AllStores
  import opened Invariants
  import Authz
  import TenantDocument
  import SqlTables

  /** A whole run of calls, going on after the ones that fail. */
  method RunCalls(stores: Stores, calls: seq<ServiceCall>) returns (errs: seq<Error>)
    requires stores.Valid()
    modifies stores.Repr()
    ensures stores.Valid() && (forall o :: o in stores.Repr() && o !in old(stores.Repr()) ==> fresh(o))
    ensures stores.Abs() == Run(old(stores.Abs()), calls) && errs == Errors(old(stores.Abs()), calls)
  {
    hide Stores.Valid, Stores.Abs, Stores.Repr, ServiceStep;
    errs := [];
    ghost var w := stores.Abs();
    assert calls[..0] == [];
    for i := 0 to |calls|
      invariant stores.Valid() && (forall o :: o in stores.Repr() && o !in old(stores.Repr()) ==> fresh(o))
      invariant stores.Abs() == Run(w, calls[..i]) && errs == Errors(w, calls[..i])
    {
      assert calls[..i + 1] == calls[..i] + [calls[i]];
      RunAppend(w, calls[..i], calls[i]);
      var err := stores.Do(calls[i]);
      errs := errs + [err];
    }
    assert calls[..|calls|] == calls;
  }

  /** Running calls on one set of stores leaves another alone. */
  method RunBeside(a: Stores, b: Stores, calls: seq<ServiceCall>) returns (errs: seq<Error>)
    requires a.Valid() && b.Valid() && a.Repr() !! b.Repr()
    modifies a.Repr()
    ensures a.Valid() && b.Valid() && (forall o :: o in a.Repr() && o !in old(a.Repr()) ==> fresh(o))
    ensures b.Repr() == old(b.Repr()) && b.Abs() == old(b.Abs()) && a.Repr() !! b.Repr()
    ensures a.Abs() == Run(old(a.Abs()), calls) && errs == Errors(old(a.Abs()), calls)
  {
    hide TenantDocument.Denotes, TenantDocument.Lean, SqlTables.Intact, SqlTables.Meaning, Errors, Run, Stores.Valid,
      Stores.Abs;
    b.RootsInRepr();
    errs := RunCalls(a, calls);
  }

  /** Whatever drivers are behind them, stores that start alike report the same errors and stay alike. */
  method RunBoth(a: Stores, b: Stores, calls: seq<ServiceCall>) returns (ea: seq<Error>, eb: seq<Error>)
    requires a.Valid() && b.Valid() && a.Repr() !! b.Repr() && a.Abs() == b.Abs()
    modifies a.Repr(), b.Repr()
    ensures a.Valid() && b.Valid() && a.Repr() !! b.Repr()
    ensures forall o :: (o in a.Repr() && o !in old(a.Repr())) || (o in b.Repr() && o !in old(b.Repr())) ==> fresh(o)
    ensures a.Abs() == b.Abs() == Run(old(a.Abs()), calls)
    ensures ea == eb == Errors(old(a.Abs()), calls)
  {
    hide TenantDocument.Denotes, TenantDocument.Lean, SqlTables.Intact, SqlTables.Meaning, Errors, Run, Stores.Valid,
      Stores.Abs;
    ea := RunBeside(a, b, calls);
    eb := RunBeside(b, a, calls);
  }

  /** What to ask a tenant about: a user, operations to list ids for, one operation and one role. */
  datatype Question = Question(sub: string, asked: seq<string>, op: string, role: string)

  datatype Answers = Answers(
    operations: seq<OperationScope>,
    meta: seq<OperationScope>,
    ids: map<string, seq<string>>,
    allowed: bool,
    roles: seq<string>,
    permissions: seq<OperationScope>,
    overridden: bool,
    allRoles: seq<string>,
    known: bool,
    listing: Error,
    grants: seq<OperationScope>,
    checking: Error,
    granted: bool)

  ghost predicate RoleAnswers(r: Answers, t: TenantState, q: Question) {
    && NamesAnswer(r.allRoles, t.roles)
    && (r.known <==> q.role in t.roles)
    && r.listing == r.checking == (if q.role in t.roles then Ok else NotFound)
    && (if r.listing == Ok then PermissionsAnswer(r.grants, t.grants, q.role) else r.grants == [])
    && (r.granted <==> r.checking == Ok && (q.role, q.op) in t.grants)
  }

  ghost predicate UserAnswers(r: Answers, t: TenantState, q: Question) {
    && RolesAnswer(r.roles, t, q.sub)
    && PermissionsAnswer(r.permissions, t.overrides, q.sub)
    && (r.overridden <==> (q.sub, q.op) in t.overrides)
  }

  ghost predicate AnswersFor(r: Answers, t: TenantState, q: Question) {
    && Authz.OperationsAnswer(r.operations, t, q.sub)
    && Authz.MetaAnswer(r.meta, t, q.sub)
    && Authz.IdsAnswer(r.ids, t, q.sub, q.asked)
    && (r.allowed <==> HoldsFull(t, q.sub, q.op))
    && UserAnswers(r, t, q)
    && RoleAnswers(r, t, q)
  }

  /** Asks everything a tenant can be asked. Questions about a role may complete its record in memory. */
  method Ask(tenant: TenantStore, q: Question) returns (r: Answers)
    requires tenant.Valid()
    modifies tenant.Repr()
    ensures tenant.Valid() && tenant.Abs() == old(tenant.Abs()) && fresh(tenant.Repr() - old(tenant.Repr()))
    ensures AnswersFor(r, tenant.Abs(), q)
  {
    hide TenantDocument.Denotes, TenantDocument.Lean, SqlTables.Intact, SqlTables.Meaning, Authz.OperationsAnswer,
      Authz.MetaAnswer, Authz.IdsAnswer, HoldsFull, RolesAnswer, PermissionsAnswer, StrictlySorted;
    var operations := Authz.EffectiveOperations(tenant, q.sub);
    var meta := Authz.MetaOperations(tenant, q.sub);
    var ids := Authz.RecordIDs(tenant, q.sub, q.asked);
    var allowed := Authz.Authorize(tenant, q.sub, q.op);
    var roles := tenant.UserRoles(q.sub);
    var permissions := tenant.UserPermissions(q.sub);
    var overridden := tenant.HasUserPermission(q.sub, q.op);
    var allRoles := tenant.ListRoles();
    var known := tenant.RoleExists(q.role);
    var listing, grants := tenant.RolePermissions(q.role);
    var checking, granted := tenant.HasRolePermission(q.role, q.op);
    r := Answers(operations, meta, ids, allowed, roles, permissions, overridden, allRoles, known, listing, grants,
      checking, granted);
  }

  /** The state leaves no choice of scope for any of the user's operations. */
  ghost predicate AllSettled(t: TenantState, sub: string) {
    forall op :: ScopeSettled(t, sub, op)
  }

  /** The state fixes every answer, the reported scopes included where it settles them. */
  lemma AnswersAreDetermined(a: Answers, b: Answers, t: TenantState, q: Question)
    requires AnswersFor(a, t, q) && AnswersFor(b, t, q)
    ensures a.(operations := [], meta := []) == b.(operations := [], meta := [])
    ensures AllSettled(t, q.sub) ==> a == b
  {
    hide Authz.OperationsAnswer, Authz.MetaAnswer, Authz.IdsAnswer, HoldsFull, RolesAnswer, PermissionsAnswer,
      StrictlySorted, ScopeSettled;
    Authz.AnswersAreUnique(a.operations, b.operations, a.ids, b.ids, t, q.sub, q.asked);
    Authz.AnswersAreUnique(a.meta, b.meta, a.ids, b.ids, t, q.sub, q.asked);
    RolesAnswerIsUnique(a.roles, b.roles, t, q.sub);
    PermissionsAnswerIsUnique(a.permissions, b.permissions, t.overrides, q.sub);
    NamesAnswerIsUnique(a.allRoles, b.allRoles, t.roles);
    if q.role in t.roles {
      PermissionsAnswerIsUnique(a.grants, b.grants, t.grants, q.role);
    }
  }

  /** Where a driver promises no order, the lists agree up to order; but the drivers differ on how often to list
      a grant whose role is named twice. */
  method ListBoth(a: TenantStore, b: TenantStore, roles: seq<string>, sub: string, op: string)
      returns (ga: seq<RoleGrant>, gb: seq<RoleGrant>, ia: seq<string>, ib: seq<string>, ua: seq<string>,
        ub: seq<string>)
    requires a.Valid() && b.Valid() && a.Abs() == b.Abs()
    ensures multiset(ga) == multiset(gb) <==> a.JsonTenant? == b.JsonTenant? || GrantorsNamedOnce(a.Abs(), roles)
    ensures multiset(ia) == multiset(ib) && multiset(ua) == multiset(ub)
    ensures GrantsAnswer(ga, a.Abs(), roles) && GrantsAnswer(gb, a.Abs(), roles)
    ensures RoleIdsAnswer(ia, a.Abs(), roles, op) && UserIdsAnswer(ua, a.Abs(), sub, op)
  {
    hide TenantDocument.Denotes, TenantDocument.Lean, SqlTables.Intact, SqlTables.Meaning, GrantsAnswer,
      GrantsPerMention, GrantsOnce, RoleIdsAnswer, UserIdsAnswer, GrantorsNamedOnce;
    ghost var t := a.Abs();
    ga := a.RoleGrants(roles);
    gb := b.RoleGrants(roles);
    if a.JsonTenant? == b.JsonTenant? {
      GrantListsAgree(ga, gb, t, roles);
    } else if a.JsonTenant? {
      GrantListsAgreeExactly(ga, gb, t, roles);
    } else {
      GrantListsAgreeExactly(gb, ga, t, roles);
    }
    ia := a.RoleRestrictedIDs(roles, op);
    ib := b.RoleRestrictedIDs(roles, op);
    IdsAnswersAgree(ia, ib, t, roles, sub, op);
    ua := a.UserRestrictedIDs(sub, op);
    ub := b.UserRestrictedIDs(sub, op);
    IdsAnswersAgree(ua, ub, t, roles, sub, op);
  }

  /** What a client can learn altogether. */
  datatype Report = Report(users: seq<string>, resources: seq<string>, operations: seq<Operation>, answers: Answers)

  ghost predicate ReportFor(r: Report, w: World, id: string, q: Question)
    requires id in w.tenants
  {
    && NamesAnswer(r.users, w.shared.users)
    && NamesAnswer(r.resources, w.shared.resources)
    && RegisterAnswer(r.operations, w.shared)
    && AnswersFor(r.answers, w.tenants[id], q)
  }

  lemma ReportsAreDetermined(a: Report, b: Report, w: World, id: string, q: Question)
    requires id in w.tenants && ReportFor(a, w, id, q) && ReportFor(b, w, id, q)
    ensures a.(answers := b.answers) == b
    ensures a.answers.(operations := [], meta := []) == b.answers.(operations := [], meta := [])
    ensures AllSettled(w.tenants[id], q.sub) ==> a == b
  {
    hide NamesAnswer, RegisterAnswer, AnswersFor, AllSettled;
    NamesAnswerIsUnique(a.users, b.users, w.shared.users);
    NamesAnswerIsUnique(a.resources, b.resources, w.shared.resources);
    RegisterAnswerIsUnique(a.operations, b.operations, w.shared);
    AnswersAreDetermined(a.answers, b.answers, w.tenants[id], q);
  }

  method AskShared(shared: SharedStore) returns (users: seq<string>, resources: seq<string>, operations: seq<Operation>)
    requires shared.Valid()
    ensures NamesAnswer(users, shared.Abs().users) && NamesAnswer(resources, shared.Abs().resources)
    ensures RegisterAnswer(operations, shared.Abs())
  {
    users := shared.ListUsers();
    resources := shared.ListResources();
    operations := shared.ListOperations();
  }

  method AskStores(stores: Stores, id: string, q: Question) returns (r: Report)
    requires stores.Valid() && id in stores.tenants
    modifies stores.tenants[id].Repr()
    ensures id in old(stores.Abs()).tenants && ReportFor(r, old(stores.Abs()), id, q)
  {
    hide TenantDocument.Denotes, TenantDocument.Lean, SqlTables.Intact, SqlTables.Meaning, NamesAnswer, RegisterAnswer,
      AnswersFor;
    var users, resources, operations := AskShared(stores.shared);
    var answers := Ask(stores.tenants[id], q);
    r := Report(users, resources, operations, answers);
  }

  /** Asking one set of stores leaves another alone. */
  method AskBeside(a: Stores, b: Stores, id: string, q: Question) returns (r: Report)
    requires a.Valid() && b.Valid() && a.Repr() !! b.Repr() && id in a.tenants
    modifies a.Repr()
    ensures b.Valid() && b.Repr() == old(b.Repr()) && b.Abs() == old(b.Abs())
    ensures id in old(a.Abs()).tenants && ReportFor(r, old(a.Abs()), id, q)
  {
    hide TenantDocument.Denotes, TenantDocument.Lean, SqlTables.Intact, SqlTables.Meaning, ReportFor, Stores.Valid,
      Stores.Abs;
    b.RootsInRepr();
    a.TenantInRepr(id);
    r := AskStores(a, id, q);
  }

  /** Two sets of stores in one state tell the same, whatever their drivers. */
  method AskBoth(a: Stores, b: Stores, id: string, q: Question) returns (ra: Report, rb: Report)
    requires a.Valid() && b.Valid() && a.Repr() !! b.Repr() && a.Abs() == b.Abs() && id in a.tenants && id in b.tenants
    modifies a.Repr(), b.Repr()
    ensures id in old(a.Abs()).tenants && ReportFor(ra, old(a.Abs()), id, q)
    ensures ra.(answers := rb.answers) == rb
    ensures ra.answers.(operations := [], meta := []) == rb.answers.(operations := [], meta := [])
    ensures AllSettled(old(a.Abs()).tenants[id], q.sub) ==> ra == rb
  {
    hide TenantDocument.Denotes, TenantDocument.Lean, SqlTables.Intact, SqlTables.Meaning, ReportFor, AllSettled,
      Stores.Valid, Stores.Abs;
    ghost var w := a.Abs();
    ra := AskBeside(a, b, id, q);
    b.TenantInRepr(id);
    rb := AskStores(b, id, q);
    ReportsAreDetermined(ra, rb, w, id, q);
  }

  lemma SoundRunSettles(w: World, calls: seq<ServiceCall>, id: string, sub: string)
    requires Sound(w) && id in Run(w, calls).tenants
    ensures AllSettled(Run(w, calls).tenants[id], sub)
  {
    hide ScopesValid, ScopeSettled, Available, Run;
    RunKeepsSound(w, calls);
    forall op ensures ScopeSettled(Run(w, calls).tenants[id], sub, op) {
      SupportedScopesFit(Run(w, calls).tenants[id], sub, op);
    }
  }

  /** End to end: start two sets of stores alike, on whatever drivers, and put the same calls to both. Every
      call reports the same, and afterwards everything that can be asked is answered the same, to the letter. */
  method ServeBoth(a: Stores, b: Stores, calls: seq<ServiceCall>, id: string, q: Question)
      returns (ea: seq<Error>, eb: seq<Error>, ra: Report, rb: Report)
    requires a.Valid() && b.Valid() && a.Repr() !! b.Repr() && a.Abs() == b.Abs() && Sound(a.Abs())
    requires id in a.tenants && id in b.tenants
    modifies a.Repr(), b.Repr()
    ensures ea == eb == Errors(old(a.Abs()), calls) && ra == rb
    ensures id in Run(old(a.Abs()), calls).tenants
    ensures ReportFor(ra, Run(old(a.Abs()), calls), id, q)
  {
    hide Stores.Valid, Stores.Abs, Stores.Repr, Run, Errors, ReportFor, AllSettled, Sound;
    ghost var w := a.Abs();
    ea, eb := RunBoth(a, b, calls);
    a.TenantsOf();
    SoundRunSettles(w, calls, id, q.sub);
    ra, rb := AskBoth(a, b, id, q);
  }

  // ---- Restarts ----

  /** A restart between two runs of calls goes unnoticed: the calls after it report, and lead to, what they would
      have without it. */
  method ServeAcrossRestart(stores: Stores, before: seq<ServiceCall>, later: seq<ServiceCall>)
      returns (again: Stores, first: seq<Error>, second: seq<Error>)
    requires stores.Valid()
    modifies stores.Repr()
    ensures again.Valid() && again.Abs() == Run(old(stores.Abs()), before + later)
    ensures first + second == Errors(old(stores.Abs()), before + later)
  {
    hide Stores.Valid, Stores.Abs, Stores.Repr, Run, Errors;
    ghost var w := stores.Abs();
    first := RunCalls(stores, before);
    again := stores.Reopen();
    second := RunCalls(again, later);
    RunConcat(w, before, later);
    ErrorsConcat(w, before, later);
  }
}
