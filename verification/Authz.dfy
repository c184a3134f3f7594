/** Permission resolution as the service runs it: the reads, the loop over grants, and the questions on top. */
module Authz {
  import opened Model
  import opened Strings
  import opened TenantSpec
  import opened TenantAnswers
  import opened Resolution
  import opened Drivers
  import TenantDocument
  import SqlTables

  class Cell {
    var scope: Scope
    var fromUser: bool
    var roles: seq<string>

    constructor (scope: Scope, fromUser: bool, roles: seq<string>)
      ensures this.scope == scope && this.fromUser == fromUser && this.roles == roles
    {
      this.scope, this.fromUser, this.roles := scope, fromUser, roles;
    }

    function Data(): Entry
      reads this
    {
      Entry(scope, fromUser, roles)
    }
  }

  type Cells = map<string, Cell>

  ghost predicate Separate(eff: Cells) {
    forall a, b :: a in eff && b in eff && eff[a] == eff[b] ==> a == b
  }

  function Snapshot(eff: Cells): Resolved
    reads eff.Values
  {
    map op | op in eff :: eff[op].Data()
  }

  /** One entry for each of the user's own permissions. */
  method StartFromUser(perms: seq<OperationScope>) returns (eff: Cells)
    requires SortedByOperation(perms)
    ensures Separate(eff) && forall op :: op in eff ==> fresh(eff[op])
    ensures OnlyOverrides(Snapshot(eff))
    ensures forall op, scope :: OperationScope(op, scope) in perms <==>
      op in Snapshot(eff) && Snapshot(eff)[op] == Entry(scope, true, [])
    ensures forall op :: op in eff ==> exists scope :: OperationScope(op, scope) in perms
  {
    eff := map[];
    DistinctOperations(perms);
    for i := 0 to |perms|
      invariant Separate(eff) && forall op :: op in eff ==> fresh(eff[op])
      invariant forall op :: op in eff <==> exists k :: 0 <= k < i && perms[k].operation == op
      invariant forall k :: 0 <= k < i ==>
        perms[k].operation in eff && eff[perms[k].operation].Data() == Entry(perms[k].scope, true, [])
    {
      var c := new Cell(perms[i].scope, true, []);
      eff := eff[perms[i].operation := c];
    }
    forall op, scope ensures OperationScope(op, scope) in perms <==>
      op in Snapshot(eff) && Snapshot(eff)[op] == Entry(scope, true, [])
    {
      if op in eff {
        var k :| 0 <= k < |perms| && perms[k].operation == op;
        assert Snapshot(eff)[op] == Entry(perms[k].scope, true, []);
        assert perms[k] == OperationScope(op, perms[k].scope);
      }
    }
    forall op | op in eff ensures exists scope :: OperationScope(op, scope) in perms {
      var k :| 0 <= k < |perms| && perms[k].operation == op;
      assert perms[k] == OperationScope(op, perms[k].scope);
    }
  }

  lemma DistinctOperations(perms: seq<OperationScope>)
    requires SortedByOperation(perms)
    ensures forall i, j :: 0 <= i < |perms| && 0 <= j < |perms| && perms[i].operation == perms[j].operation ==> i == j
  {
    SortedHasNoDuplicates(Operations(perms));
    var names := Operations(perms);
    forall i, j | 0 <= i < |perms| && 0 <= j < |perms| && perms[i].operation == perms[j].operation ensures i == j {
      assert names[i] == names[j];
    }
  }

  /** One grant: it may open an entry, widen it, or add a contributing role to it. */
  method ApplyGrant(eff: Cells, g: RoleGrant) returns (after: Cells)
    requires Separate(eff)
    modifies eff.Values
    ensures Separate(after) && forall op :: op in after ==> fresh(after[op]) || after[op] in eff.Values
    ensures Snapshot(after) == Merge(old(Snapshot(eff)), g)
  {
    after := eff;
    if g.operation !in eff {
      var c := new Cell(g.scope, false, []);
      if g.scope == RESTRICTED {
        c.roles := [g.role];
      }
      after := eff[g.operation := c];
    } else {
      var cur := eff[g.operation];
      if cur.fromUser {
        // The user's own permission wins.
      } else if cur.scope == FULL {
        // Nothing can widen it.
      } else if g.scope == FULL {
        cur.scope := FULL;
        cur.roles := [];
      } else if g.scope == RESTRICTED {
        cur.scope := RESTRICTED;
        cur.roles := cur.roles + [g.role];
      }
    }
  }

  /** The loop over grants. */
  method ApplyGrants(start: Cells, grants: seq<RoleGrant>) returns (eff: Cells)
    requires Separate(start)
    modifies start.Values
    ensures Separate(eff) && forall op :: op in eff ==> fresh(eff[op]) || eff[op] in start.Values
    ensures Snapshot(eff) == Fold(old(Snapshot(start)), grants)
  {
    hide Merge;
    eff := start;
    ghost var base := Snapshot(start);
    assert grants[..0] == [];
    for i := 0 to |grants|
      invariant Separate(eff) && forall op :: op in eff ==> fresh(eff[op]) || eff[op] in start.Values
      invariant Snapshot(eff) == Fold(base, grants[..i])
    {
      assert grants[..i + 1][..i] == grants[..i];
      eff := ApplyGrant(eff, grants[i]);
    }
    assert grants[..|grants|] == grants;
  }

  method Resolve(tenant: TenantStore, sub: string) returns (eff: Cells)
    requires tenant.Valid()
    ensures forall op :: op in eff ==> fresh(eff[op])
    ensures ResolvesTo(Snapshot(eff), tenant.Abs(), sub)
  {
    hide TenantDocument.Denotes, TenantDocument.Lean, SqlTables.Intact, SqlTables.Meaning, ResolvesTo, StartsFrom,
      Merge, PermissionsAnswer, RolesAnswer, GrantsAnswer;
    ghost var t := tenant.Abs();
    var perms := tenant.UserPermissions(sub);
    PermissionsSorted(perms, t, sub);
    eff := StartFromUser(perms);
    ghost var base := Snapshot(eff);
    assert StartsFrom(base, t, sub) by {
      PermissionsStart(base, perms, t, sub);
    }
    var roles, grants := ReadRoles(tenant, sub);
    ListedInOrder(roles, t, sub);
    FoldResolves(t, sub, base, roles, grants);
    if |roles| == 0 {
      return;
    }
    eff := ApplyGrants(eff, grants);
  }

  /** The user's roles and their grants; without roles the grants are not asked for. */
  method ReadRoles(tenant: TenantStore, sub: string) returns (roles: seq<string>, grants: seq<RoleGrant>)
    requires tenant.Valid()
    ensures RolesAnswer(roles, tenant.Abs(), sub) && GrantsAnswer(grants, tenant.Abs(), roles)
    ensures roles == [] ==> grants == []
  {
    hide TenantDocument.Denotes, TenantDocument.Lean, SqlTables.Intact, SqlTables.Meaning, RolesAnswer,
      GrantsPerMention, GrantsOnce;
    roles := tenant.UserRoles(sub);
    if |roles| == 0 {
      return roles, [];
    }
    grants := tenant.RoleGrants(roles);
  }

  lemma ListedInOrder(roles: seq<string>, t: TenantState, sub: string)
    requires RolesAnswer(roles, t, sub)
    ensures ListsRolesOf(roles, t, sub)
  {
  }

  lemma PermissionsSorted(perms: seq<OperationScope>, t: TenantState, sub: string)
    requires PermissionsAnswer(perms, t.overrides, sub)
    ensures SortedByOperation(perms)
  {
  }

  lemma PermissionsStart(base: Resolved, perms: seq<OperationScope>, t: TenantState, sub: string)
    requires PermissionsAnswer(perms, t.overrides, sub) && OnlyOverrides(base)
    requires forall op, scope :: OperationScope(op, scope) in perms <==>
      op in base && base[op] == Entry(scope, true, [])
    requires forall op :: op in base ==> exists scope :: OperationScope(op, scope) in perms
    ensures StartsFrom(base, t, sub)
  {
    forall op | (sub, op) in t.overrides ensures op in base && base[op] == Entry(t.overrides[(sub, op)], true, []) {
      assert OperationScope(op, t.overrides[(sub, op)]) in perms;
    }
  }

  /** Every operation open to the user, once and by name, with a scope that fits it. */
  ghost predicate OperationsAnswer(r: seq<OperationScope>, t: TenantState, sub: string) {
    && SortedByOperation(r)
    && (forall op :: Available(t, sub, op) ==> exists scope :: OperationScope(op, scope) in r)
    && (forall x :: x in r ==> ScopeFits(t, sub, x.operation, x.scope))
  }

  /** With only supported scopes stored, that is exactly the available operations with their effective scopes. */
  lemma SupportedOperations(r: seq<OperationScope>, t: TenantState, sub: string, op: string, scope: Scope)
    requires OperationsAnswer(r, t, sub) && ScopesValid(t)
    ensures OperationScope(op, scope) in r <==> Available(t, sub, op) && scope == EffectiveScope(t, sub, op)
  {
    SupportedScopesFit(t, sub, op);
    if OperationScope(op, scope) in r {
      FittingScopeCounts(t, sub, op, OperationScope(op, scope).scope);
    }
  }

  method EffectiveOperations(tenant: TenantStore, sub: string) returns (r: seq<OperationScope>)
    requires tenant.Valid()
    ensures OperationsAnswer(r, tenant.Abs(), sub)
  {
    hide TenantDocument.Denotes, TenantDocument.Lean, SqlTables.Intact, SqlTables.Meaning, ResolvesTo,
      OperationsAnswer;
    var eff := Resolve(tenant, sub);
    ghost var data := Snapshot(eff);
    var scopes := map op | op in eff :: eff[op].scope;
    assert forall op :: op in eff ==> data[op].scope == eff[op].scope;
    r := ListPermissions(scopes);
    EntriesListed(r, data, tenant.Abs(), sub);
  }

  lemma EntriesListed(r: seq<OperationScope>, data: Resolved, t: TenantState, sub: string)
    requires ResolvesTo(data, t, sub) && SortedByOperation(r)
    requires forall op, scope :: OperationScope(op, scope) in r <==> op in data && data[op].scope == scope
    ensures OperationsAnswer(r, t, sub)
  {
    hide Available, ScopeFits;
    forall op | Available(t, sub, op) ensures exists scope :: OperationScope(op, scope) in r {
      assert OperationScope(op, data[op].scope) in r;
    }
    forall x | x in r ensures ScopeFits(t, sub, x.operation, x.scope) {
      assert x == OperationScope(x.operation, x.scope);
    }
  }

  /** The same for the meta operations alone. */
  ghost predicate MetaAnswer(r: seq<OperationScope>, t: TenantState, sub: string) {
    && SortedByOperation(r)
    && (forall op :: op in META_OPERATIONS && Available(t, sub, op) ==> exists scope :: OperationScope(op, scope) in r)
    && (forall x :: x in r ==> x.operation in META_OPERATIONS && ScopeFits(t, sub, x.operation, x.scope))
  }

  method MetaOperations(tenant: TenantStore, sub: string) returns (r: seq<OperationScope>)
    requires tenant.Valid()
    ensures MetaAnswer(r, tenant.Abs(), sub)
  {
    hide TenantDocument.Denotes, TenantDocument.Lean, SqlTables.Intact, SqlTables.Meaning;
    var all := EffectiveOperations(tenant, sub);
    r := OnlyMeta(all);
    MetaOfAll(r, all, tenant.Abs(), sub);
  }

  lemma MetaOfAll(r: seq<OperationScope>, all: seq<OperationScope>, t: TenantState, sub: string)
    requires OperationsAnswer(all, t, sub) && SortedByOperation(r)
    requires forall x :: x in r <==> x in all && x.operation in META_OPERATIONS
    ensures MetaAnswer(r, t, sub)
  {
    hide META_OPERATIONS;
    forall op | op in META_OPERATIONS && Available(t, sub, op) ensures exists scope :: OperationScope(op, scope) in r {
      var scope :| OperationScope(op, scope) in all;
      assert OperationScope(op, scope) in r;
    }
  }

  /** Whatever the service guards and the user has something for is listed, and nothing else is. */
  lemma GuardedAreListed(r: seq<OperationScope>, t: TenantState, sub: string, op: string)
    requires MetaAnswer(r, t, sub)
    ensures (exists scope :: OperationScope(op, scope) in r) <==>
      Available(t, sub, op) && exists res, act :: Guarded(res, act) && op == res + ":" + act
  {
    hide META_OPERATIONS, Guarded, Available, ScopeFits;
    MetaOperationsExactly(op);
    if scope :| OperationScope(op, scope) in r {
      FittingScopeCounts(t, sub, op, OperationScope(op, scope).scope);
    }
  }

  method OnlyMeta(all: seq<OperationScope>) returns (r: seq<OperationScope>)
    requires SortedByOperation(all)
    ensures SortedByOperation(r)
    ensures forall x :: x in r <==> x in all && x.operation in META_OPERATIONS
  {
    r := [];
    for i := 0 to |all|
      invariant SortedByOperation(r)
      invariant forall x :: x in r <==> x in all[..i] && x.operation in META_OPERATIONS
      invariant forall j, k :: 0 <= j < |r| && i <= k < |all| ==> Less(r[j].operation, all[k].operation)
    {
      if all[i].operation in META_OPERATIONS {
        r := r + [all[i]];
      }
    }
  }

  /** Ids for the RESTRICTED operations among those asked for, sorted; nothing for the others. */
  ghost predicate IdsAnswer(out: map<string, seq<string>>, t: TenantState, sub: string, asked: seq<string>) {
    && (forall op :: op in out <==> op in asked && Available(t, sub, op) && EffectiveScope(t, sub, op).RESTRICTED?)
    && (forall op :: op in out ==>
          StrictlySorted(out[op]) && forall id :: id in out[op] <==> EffectiveId(t, sub, op, id))
  }

  method RecordIDs(tenant: TenantStore, sub: string, operations: seq<string>) returns (out: map<string, seq<string>>)
    requires tenant.Valid()
    ensures IdsAnswer(out, tenant.Abs(), sub, operations)
  {
    hide TenantDocument.Denotes, TenantDocument.Lean, SqlTables.Intact, SqlTables.Meaning, ResolvesTo, EffectiveId,
      EffectiveScope, Available;
    ghost var t := tenant.Abs();
    var eff := Resolve(tenant, sub);
    ghost var data := Snapshot(eff);
    out := map[];
    for i := 0 to |operations|
      invariant Snapshot(eff) == data
      invariant IdsAnswer(out, t, sub, operations[..i])
    {
      var op := operations[i];
      assert forall x :: x in operations[..i + 1] <==> x in operations[..i] || x == op;
      EntryOf(data, t, sub, op);
      assert op in eff ==> data[op] == eff[op].Data();
      if op in eff && eff[op].scope == RESTRICTED {
        var ids;
        if eff[op].fromUser {
          ids := tenant.UserRestrictedIDs(sub, op);
          OwnIds(data, t, sub, op, ids);
        } else {
          ids := tenant.RoleRestrictedIDs(eff[op].roles, op);
          GrantorsIds(data, t, sub, op, ids);
        }
        var sorted := SortDistinct(ids);
        out := out[op := sorted];
      }
    }
    assert operations[..|operations|] == operations;
  }

  lemma EntryOf(data: Resolved, t: TenantState, sub: string, op: string)
    requires ResolvesTo(data, t, sub)
    ensures op in data <==> Available(t, sub, op)
    ensures op in data ==> (data[op].scope.FULL? <==> EffectiveScope(t, sub, op).FULL?)
    ensures op in data ==> (data[op].scope.RESTRICTED? <==> EffectiveScope(t, sub, op).RESTRICTED?)
  {
    if op in data {
      FittingScopeCounts(t, sub, op, data[op].scope);
    }
  }

  lemma OwnIds(data: Resolved, t: TenantState, sub: string, op: string, ids: seq<string>)
    requires ResolvesTo(data, t, sub) && op in data && data[op].fromUser && UserIdsAnswer(ids, t, sub, op)
    ensures forall id :: id in ids <==> EffectiveId(t, sub, op, id)
  {
  }

  lemma GrantorsIds(data: Resolved, t: TenantState, sub: string, op: string, ids: seq<string>)
    requires ResolvesTo(data, t, sub) && op in data && !data[op].fromUser && data[op].scope.RESTRICTED?
    requires RoleIdsAnswer(ids, t, data[op].roles, op)
    ensures forall id :: id in ids <==> EffectiveId(t, sub, op, id)
  {
    forall id ensures id in ids <==> EffectiveId(t, sub, op, id) {
      if EffectiveId(t, sub, op, id) {
        var role :| (sub, role) in t.assignments && (role, op) in t.grants
          && t.grants[(role, op)] == RESTRICTED && (role, op, id) in t.roleIds;
        assert role in data[op].roles;
      }
    }
  }

  /** Meta permissions only count at FULL scope. */
  method Authorize(tenant: TenantStore, sub: string, operation: string) returns (allowed: bool)
    requires tenant.Valid()
    ensures allowed <==> HoldsFull(tenant.Abs(), sub, operation)
  {
    hide TenantDocument.Denotes, TenantDocument.Lean, SqlTables.Intact, SqlTables.Meaning;
    var eff := Resolve(tenant, sub);
    assert operation in eff ==> Snapshot(eff)[operation].scope == eff[operation].scope;
    EntryOf(Snapshot(eff), tenant.Abs(), sub, operation);
    WidestScopeDenotesUnion(tenant.Abs(), sub, operation, "");
    allowed := operation in eff && eff[operation].scope == FULL;
  }

  /** The two answers a client combines, scope and ids, let through exactly the records the user may reach. */
  lemma AnswersDenoteAccess(r: seq<OperationScope>, out: map<string, seq<string>>, t: TenantState, sub: string,
                            asked: seq<string>, op: string, id: string)
    requires OperationsAnswer(r, t, sub) && IdsAnswer(out, t, sub, asked) && op in asked
    ensures CanAccess(t, sub, op, id) <==>
      exists scope :: OperationScope(op, scope) in r && Covers(scope, op in out && id in out[op])
  {
    WidestScopeDenotesUnion(t, sub, op, id);
    forall scope | OperationScope(op, scope) in r
      ensures CanAccess(t, sub, op, id) <==> Covers(scope, op in out && id in out[op])
    {
      FittingScopeCounts(t, sub, op, OperationScope(op, scope).scope);
    }
  }

  /** Ids, FULL and RESTRICTED are determined by the state alone, and so are all reported scopes where the state
      settles them. */
  lemma AnswersAreUnique(r: seq<OperationScope>, r': seq<OperationScope>, out: map<string, seq<string>>,
                         out': map<string, seq<string>>, t: TenantState, sub: string, asked: seq<string>)
    ensures OperationsAnswer(r, t, sub) && OperationsAnswer(r', t, sub) && (forall op :: ScopeSettled(t, sub, op)) ==>
      r == r'
    ensures MetaAnswer(r, t, sub) && MetaAnswer(r', t, sub) && (forall op :: ScopeSettled(t, sub, op)) ==> r == r'
    ensures IdsAnswer(out, t, sub, asked) && IdsAnswer(out', t, sub, asked) ==> out == out'
  {
    hide META_OPERATIONS, ScopeFits, ScopeSettled, Available, IdsAnswer;
    if (forall op :: ScopeSettled(t, sub, op)) && SortedByOperation(r) && SortedByOperation(r') {
      if (OperationsAnswer(r, t, sub) && OperationsAnswer(r', t, sub))
        || (MetaAnswer(r, t, sub) && MetaAnswer(r', t, sub)) {
        forall x ensures x in r <==> x in r' {
          SettledEntry(r, r', t, sub, x);
          SettledEntry(r', r, t, sub, x);
        }
        SortedPermissionsAreCanonical(r, r');
      }
    }
    if IdsAnswer(out, t, sub, asked) && IdsAnswer(out', t, sub, asked) {
      IdsAreUnique(out, out', t, sub, asked);
    }
  }

  lemma SettledEntry(r: seq<OperationScope>, r': seq<OperationScope>, t: TenantState, sub: string, x: OperationScope)
    requires ScopeSettled(t, sub, x.operation)
    requires (OperationsAnswer(r, t, sub) && OperationsAnswer(r', t, sub))
      || (MetaAnswer(r, t, sub) && MetaAnswer(r', t, sub))
    ensures x in r ==> x in r'
  {
    hide META_OPERATIONS, ScopeFits, ScopeSettled, Available;
    OneScopeFitsExactly(t, sub, x.operation);
    if x in r {
      assert ScopeFits(t, sub, x.operation, x.scope);
      var scope :| OperationScope(x.operation, scope) in r';
      var y := OperationScope(x.operation, scope);
      assert ScopeFits(t, sub, y.operation, y.scope);
      assert x == y;
    }
  }

  lemma IdsAreUnique(out: map<string, seq<string>>, out': map<string, seq<string>>, t: TenantState, sub: string,
                     asked: seq<string>)
    requires IdsAnswer(out, t, sub, asked) && IdsAnswer(out', t, sub, asked)
    ensures out == out'
  {
    assert forall op :: op in out <==> op in out';
    forall op | op in out ensures out[op] == out'[op] {
      SortedListIsCanonical(out[op], out'[op]);
    }
  }
}
