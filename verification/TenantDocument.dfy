/** The JSON document of one tenant as a value: what a save writes, what a load reads, and the state it denotes. */
module TenantDocument {
  import opened Model
  import opened Strings
  import opened TenantSpec

  /** A Go map: nil until somebody makes it. A nil map reads as empty, and must not be written to. */
  datatype Entries<V> = Nil | Made(entries: map<string, V>) {
    function Get(): map<string, V> {
      if Nil? then map[] else entries
    }
  }

  datatype RoleData = RoleData(permissions: Entries<Scope>, restrictedIds: Entries<seq<string>>)

  datatype UserData = UserData(roles: seq<string>, permissions: Entries<Scope>, restrictedIds: Entries<seq<string>>)

  datatype Document = Document(roles: map<string, RoleData>, users: map<string, UserData>)

  // ---- Saving leaves empty maps out ----

  function Omitted<V(==)>(e: Entries<V>): Entries<V> {
    if e.Get() == map[] then Nil else e
  }

  function OmitInRole(r: RoleData): RoleData {
    RoleData(Omitted(r.permissions), Omitted(r.restrictedIds))
  }

  function OmitInUser(u: UserData): UserData {
    UserData(u.roles, Omitted(u.permissions), Omitted(u.restrictedIds))
  }

  function Saved(d: Document): Document {
    Document(map n | n in d.roles :: OmitInRole(d.roles[n]), map s | s in d.users :: OmitInUser(d.users[s]))
  }

  /** The same entries, and no map made for none. */
  predicate SameButEmpty<V(==)>(e: Entries<V>, saved: Entries<V>) {
    saved != Made(map[]) && saved.Get() == e.Get()
  }

  lemma OmittingOnlyDropsEmpty<V>(e: Entries<V>)
    ensures SameButEmpty(e, Omitted(e))
  {
  }

  /** A saved document has no empty map left in it, and has lost nothing else. */
  lemma SavingOnlyDropsEmptyMaps(d: Document)
    ensures Saved(d).roles.Keys == d.roles.Keys && Saved(d).users.Keys == d.users.Keys
    ensures forall n :: n in d.roles ==>
      && SameButEmpty(d.roles[n].permissions, Saved(d).roles[n].permissions)
      && SameButEmpty(d.roles[n].restrictedIds, Saved(d).roles[n].restrictedIds)
    ensures forall s :: s in d.users ==>
      && SameButEmpty(d.users[s].permissions, Saved(d).users[s].permissions)
      && SameButEmpty(d.users[s].restrictedIds, Saved(d).users[s].restrictedIds)
      && Saved(d).users[s].roles == d.users[s].roles
    ensures Lean(Saved(d))
  {
    hide Omitted, Entries.Get;
    forall n | n in d.roles
      ensures SameButEmpty(d.roles[n].permissions, Omitted(d.roles[n].permissions))
      ensures SameButEmpty(d.roles[n].restrictedIds, Omitted(d.roles[n].restrictedIds))
    {
      OmittingOnlyDropsEmpty(d.roles[n].permissions);
      OmittingOnlyDropsEmpty(d.roles[n].restrictedIds);
    }
    forall s | s in d.users
      ensures SameButEmpty(d.users[s].permissions, Omitted(d.users[s].permissions))
      ensures SameButEmpty(d.users[s].restrictedIds, Omitted(d.users[s].restrictedIds))
    {
      OmittingOnlyDropsEmpty(d.users[s].permissions);
      OmittingOnlyDropsEmpty(d.users[s].restrictedIds);
    }
  }

  /** No empty map anywhere. */
  ghost predicate Lean(d: Document) {
    && (forall n :: n in d.roles ==> d.roles[n].permissions != Made(map[]) && d.roles[n].restrictedIds != Made(map[]))
    && (forall s :: s in d.users ==> d.users[s].permissions != Made(map[]) && d.users[s].restrictedIds != Made(map[]))
  }

  // ---- The state a document denotes ----

  ghost predicate ListsSorted(ids: Entries<seq<string>>) {
    forall op :: op in ids.Get() ==> StrictlySorted(ids.Get()[op])
  }

  ghost predicate Sorted(d: Document) {
    && (forall n :: n in d.roles ==> ListsSorted(d.roles[n].restrictedIds))
    && (forall s :: s in d.users ==> StrictlySorted(d.users[s].roles) && ListsSorted(d.users[s].restrictedIds))
  }

  ghost predicate PermissionsMatch(p: Entries<Scope>, owner: string, all: map<(string, string), Scope>) {
    && (forall op :: op in p.Get() <==> (owner, op) in all)
    && (forall op :: op in p.Get() ==> p.Get()[op] == all[(owner, op)])
  }

  ghost predicate IdsMatch(ids: Entries<seq<string>>, owner: string, all: set<(string, string, string)>) {
    forall op, id :: (owner, op, id) in all <==> op in ids.Get() && id in ids.Get()[op]
  }

  ghost predicate RoleMatches(n: string, r: RoleData, t: TenantState) {
    PermissionsMatch(r.permissions, n, t.grants) && IdsMatch(r.restrictedIds, n, t.roleIds)
  }

  ghost predicate UserMatches(s: string, u: UserData, t: TenantState) {
    && (forall n :: n in u.roles <==> (s, n) in t.assignments)
    && PermissionsMatch(u.permissions, s, t.overrides)
    && IdsMatch(u.restrictedIds, s, t.userIds)
  }

  ghost predicate RolesMatch(d: Document, t: TenantState) {
    && d.roles.Keys == t.roles
    && (forall n :: n in d.roles ==> RoleMatches(n, d.roles[n], t))
  }

  ghost predicate UsersMatch(d: Document, t: TenantState) {
    && (forall s :: s in d.users ==> UserMatches(s, d.users[s], t))
    && (forall a :: a in t.assignments ==> a.0 in d.users)
    && (forall k :: k in t.overrides ==> k.0 in d.users)
    && (forall x :: x in t.userIds ==> x.0 in d.users)
  }

  ghost predicate Represents(d: Document, t: TenantState) {
    RolesMatch(d, t) && UsersMatch(d, t) && RolesExist(t)
  }

  /** A well-kept document: every list strictly sorted, every role a user holds present, and meaning t. */
  ghost predicate Denotes(d: Document, t: TenantState) {
    Represents(d, t) && Sorted(d)
  }

  /** A document denotes one state only. */
  lemma DenotationIsUnique(d: Document, a: TenantState, b: TenantState)
    requires Represents(d, a) && Represents(d, b)
    ensures a == b
  {
    RoleSideIsUnique(d, a, b);
    UserSideIsUnique(d, a, b);
  }

  lemma RoleSideIsUnique(d: Document, a: TenantState, b: TenantState)
    requires RolesMatch(d, a) && RolesMatch(d, b) && RolesExist(a) && RolesExist(b)
    ensures a.roles == b.roles && a.grants == b.grants && a.roleIds == b.roleIds
  {
    hide RoleMatches;
    forall n, op
      ensures (n, op) in a.grants <==> (n, op) in b.grants
      ensures (n, op) in a.grants ==> a.grants[(n, op)] == b.grants[(n, op)]
    {
      if n in d.roles {
        OneRoleIsUnique(n, d.roles[n], a, b, op);
      }
    }
    assert a.grants.Keys == b.grants.Keys;
    forall n, op, id ensures (n, op, id) in a.roleIds <==> (n, op, id) in b.roleIds {
      if n in d.roles {
        OneRoleIsUnique(n, d.roles[n], a, b, op);
      }
    }
  }

  lemma OneRoleIsUnique(n: string, r: RoleData, a: TenantState, b: TenantState, op: string)
    requires RoleMatches(n, r, a) && RoleMatches(n, r, b)
    ensures (n, op) in a.grants <==> (n, op) in b.grants
    ensures (n, op) in a.grants ==> a.grants[(n, op)] == b.grants[(n, op)]
    ensures forall id :: (n, op, id) in a.roleIds <==> (n, op, id) in b.roleIds
  {
  }

  lemma UserSideIsUnique(d: Document, a: TenantState, b: TenantState)
    requires UsersMatch(d, a) && UsersMatch(d, b)
    ensures a.assignments == b.assignments && a.overrides == b.overrides && a.userIds == b.userIds
  {
    forall s, n ensures (s, n) in a.assignments <==> (s, n) in b.assignments {
    }
    forall s, op
      ensures (s, op) in a.overrides <==> (s, op) in b.overrides
      ensures (s, op) in a.overrides ==> a.overrides[(s, op)] == b.overrides[(s, op)]
    {
    }
    assert a.overrides.Keys == b.overrides.Keys;
    forall s, op, id ensures (s, op, id) in a.userIds <==> (s, op, id) in b.userIds {
    }
  }

  /** What a save leaves out denotes nothing. */
  lemma SavingKeepsMeaning(d: Document, t: TenantState)
    requires Denotes(d, t)
    ensures Denotes(Saved(d), t)
  {
    forall n | n in d.roles
      ensures RoleMatches(n, OmitInRole(d.roles[n]), t) && ListsSorted(OmitInRole(d.roles[n]).restrictedIds)
    {
      RoleMeansTheSame(n, d.roles[n], OmitInRole(d.roles[n]), t);
    }
    forall s | s in d.users
      ensures UserMatches(s, OmitInUser(d.users[s]), t) && ListsSorted(OmitInUser(d.users[s]).restrictedIds)
    {
      UserMeansTheSame(s, d.users[s], OmitInUser(d.users[s]), t);
    }
  }

  /** Nil or empty, a map denotes the same. */
  lemma RoleMeansTheSame(n: string, r: RoleData, r': RoleData, t: TenantState)
    requires RoleMatches(n, r, t) && ListsSorted(r.restrictedIds)
    requires r.permissions.Get() == r'.permissions.Get() && r.restrictedIds.Get() == r'.restrictedIds.Get()
    ensures RoleMatches(n, r', t) && ListsSorted(r'.restrictedIds)
  {
  }

  lemma UserMeansTheSame(s: string, u: UserData, u': UserData, t: TenantState)
    requires UserMatches(s, u, t) && ListsSorted(u.restrictedIds) && u.roles == u'.roles
    requires u.permissions.Get() == u'.permissions.Get() && u.restrictedIds.Get() == u'.restrictedIds.Get()
    ensures UserMatches(s, u', t) && ListsSorted(u'.restrictedIds)
  {
  }

  // ---- Changing one record ----

  function WithRole(d: Document, n: string, r: RoleData): Document {
    d.(roles := d.roles[n := r])
  }

  function WithUser(d: Document, s: string, u: UserData): Document {
    d.(users := d.users[s := u])
  }

  /** t and t' differ at most in what they say about role n. */
  ghost predicate SameButRole(t: TenantState, t': TenantState, n: string) {
    && t'.assignments == t.assignments && t'.overrides == t.overrides && t'.userIds == t.userIds
    && (forall m, op :: m != n ==> ((m, op) in t.grants <==> (m, op) in t'.grants))
    && (forall m, op :: m != n && (m, op) in t.grants && (m, op) in t'.grants ==>
      t.grants[(m, op)] == t'.grants[(m, op)])
    && (forall m, op, id :: m != n ==> ((m, op, id) in t.roleIds <==> (m, op, id) in t'.roleIds))
  }

  /** t and t' differ at most in what they say about user s. */
  ghost predicate SameButUser(t: TenantState, t': TenantState, s: string) {
    && t'.roles == t.roles && t'.grants == t.grants && t'.roleIds == t.roleIds
    && (forall v, n :: v != s ==> ((v, n) in t.assignments <==> (v, n) in t'.assignments))
    && (forall v, op :: v != s ==> ((v, op) in t.overrides <==> (v, op) in t'.overrides))
    && (forall v, op :: v != s && (v, op) in t.overrides && (v, op) in t'.overrides ==>
          t.overrides[(v, op)] == t'.overrides[(v, op)])
    && (forall v, op, id :: v != s ==> ((v, op, id) in t.userIds <==> (v, op, id) in t'.userIds))
  }

  lemma RoleRecordChanged(d: Document, t: TenantState, n: string, r: RoleData, t': TenantState)
    requires Denotes(d, t) && SameButRole(t, t', n) && t'.roles == t.roles + {n}
    requires RoleMatches(n, r, t') && ListsSorted(r.restrictedIds)
    ensures Denotes(WithRole(d, n, r), t')
  {
    forall m | m in d.roles && m != n
      ensures RoleMatches(m, d.roles[m], t')
    {
      assert RoleMatches(m, d.roles[m], t);
    }
  }

  lemma UserRecordChanged(d: Document, t: TenantState, s: string, u: UserData, t': TenantState)
    requires Denotes(d, t) && SameButUser(t, t', s) && RolesExist(t')
    requires UserMatches(s, u, t') && StrictlySorted(u.roles) && ListsSorted(u.restrictedIds)
    ensures Denotes(WithUser(d, s, u), t')
  {
    forall v | v in d.users && v != s
      ensures UserMatches(v, d.users[v], t')
    {
      assert UserMatches(v, d.users[v], t);
    }
  }

  // ---- Changing every user's role list ----

  /** Only role lists differ between the users of d and e. */
  ghost predicate SameButRoleLists(before: map<string, UserData>, after: map<string, UserData>) {
    && after.Keys == before.Keys
    && (forall s :: s in before ==>
          && after[s].permissions == before[s].permissions
          && after[s].restrictedIds == before[s].restrictedIds
          && StrictlySorted(after[s].roles))
  }

  ghost predicate NameReplaced(list: seq<string>, list': seq<string>, name: string, newName: string) {
    forall x :: x in list' <==> (x in list && x != name) || (x == newName && name in list)
  }

  ghost predicate NameRemoved(list: seq<string>, list': seq<string>, name: string) {
    forall x :: x in list' <==> x in list && x != name
  }

  lemma DocumentRenamed(d: Document, t: TenantState, e: Document, name: string, newName: string)
    requires Denotes(d, t) && name in t.roles && newName !in t.roles
    requires e.roles == (d.roles - {name})[newName := d.roles[name]] && SameButRoleLists(d.users, e.users)
    requires forall s :: s in d.users ==> NameReplaced(d.users[s].roles, e.users[s].roles, name, newName)
    ensures Denotes(e, WithRoleRenamed(t, name, newName))
  {
    var t' := WithRoleRenamed(t, name, newName);
    RenameIsABijection(t, name, newName);
    RenameKeepsRolesExist(t, name, newName);
    RolesMoveAlong(d, t, t', e, name, newName);
    UsersMoveAlong(d, t, t', e, name, newName);
  }

  lemma RolesMoveAlong(d: Document, t: TenantState, t': TenantState, e: Document, name: string, newName: string)
    requires RolesMatch(d, t) && SameUnderRenaming(t, t', name, newName)
    requires name in t.roles && newName !in t.roles && t'.roles == t.roles - {name} + {newName}
    requires e.roles == (d.roles - {name})[newName := d.roles[name]]
    ensures RolesMatch(e, t')
  {
    forall n | n in e.roles ensures RoleMatches(n, e.roles[n], t') {
      RoleMovesAlong(d, t, t', Renamed(n, newName, name), name, newName);
    }
  }

  lemma UsersMoveAlong(d: Document, t: TenantState, t': TenantState, e: Document, name: string, newName: string)
    requires Represents(d, t) && SameUnderRenaming(t, t', name, newName) && RolesExist(t')
    requires name in t.roles && newName !in t.roles && t'.roles == t.roles - {name} + {newName}
    requires SameButRoleLists(d.users, e.users)
    requires forall s :: s in d.users ==> NameReplaced(d.users[s].roles, e.users[s].roles, name, newName)
    requires forall a :: a in t'.assignments ==> exists b :: b in t.assignments && b.0 == a.0
    ensures UsersMatch(e, t')
  {
    forall s | s in e.users ensures UserMatches(s, e.users[s], t') {
      UserMovesAlong(d, t, t', e, s, name, newName);
    }
  }

  lemma RoleMovesAlong(d: Document, t: TenantState, t': TenantState, n: string, name: string, newName: string)
    requires RolesMatch(d, t) && SameUnderRenaming(t, t', name, newName) && n in t.roles
    ensures RoleMatches(Renamed(n, name, newName), d.roles[n], t')
  {
    assert RoleMatches(n, d.roles[n], t);
  }

  lemma UserMovesAlong(d: Document, t: TenantState, t': TenantState, e: Document, s: string, name: string,
                       newName: string)
    requires Represents(d, t) && SameUnderRenaming(t, t', name, newName) && RolesExist(t')
    requires name in t.roles && newName !in t.roles && t'.roles == t.roles - {name} + {newName}
    requires s in d.users && s in e.users && NameReplaced(d.users[s].roles, e.users[s].roles, name, newName)
    requires e.users[s].permissions == d.users[s].permissions && e.users[s].restrictedIds == d.users[s].restrictedIds
    ensures UserMatches(s, e.users[s], t')
  {
    var u, u' := d.users[s], e.users[s];
    assert UserMatches(s, u, t);
    forall n ensures n in u'.roles <==> (s, n) in t'.assignments {
      if n in t'.roles {
        var m := Renamed(n, newName, name);
        assert m in t.roles && Renamed(m, name, newName) == n;
        assert (s, m) in t.assignments <==> (s, n) in t'.assignments;
        assert m in u.roles <==> (s, m) in t.assignments;
      } else {
        assert n in u.roles ==> (s, n) in t.assignments;
      }
    }
  }

  lemma DocumentWithoutRole(d: Document, t: TenantState, e: Document, name: string)
    requires Denotes(d, t)
    requires e.roles == d.roles - {name} && SameButRoleLists(d.users, e.users)
    requires forall s :: s in d.users ==> NameRemoved(d.users[s].roles, e.users[s].roles, name)
    ensures Denotes(e, WithoutRole(t, name))
  {
    var t' := WithoutRole(t, name);
    forall n | n in e.roles ensures RoleMatches(n, e.roles[n], t') {
      assert RoleMatches(n, d.roles[n], t);
    }
    forall s | s in e.users ensures UserMatches(s, e.users[s], t') {
      assert UserMatches(s, d.users[s], t);
    }
  }

  lemma NothingDenotesNothing()
    ensures Denotes(Document(map[], map[]), NO_TENANT_DATA)
  {
  }

  // ---- What a denoted document tells about its records ----

  lemma DenotedRoles(d: Document, t: TenantState)
    requires Denotes(d, t)
    ensures d.roles.Keys == t.roles && RolesExist(t)
    ensures forall s :: s in d.users ==> StrictlySorted(d.users[s].roles)
  {
  }

  lemma DenotedRole(d: Document, t: TenantState, n: string)
    requires Denotes(d, t) && n in d.roles
    ensures n in t.roles && RoleMatches(n, d.roles[n], t) && ListsSorted(d.roles[n].restrictedIds)
  {
  }

  lemma DenotedUser(d: Document, t: TenantState, s: string)
    requires Denotes(d, t) && s in d.users
    ensures RolesExist(t)
    ensures UserMatches(s, d.users[s], t) && StrictlySorted(d.users[s].roles) && ListsSorted(d.users[s].restrictedIds)
  {
  }

  lemma UnknownUser(d: Document, t: TenantState, s: string)
    requires Denotes(d, t) && s !in d.users
    ensures UserMatches(s, UserData([], Made(map[]), Made(map[])), t)
  {
  }

  lemma UserHolds(d: Document, t: TenantState, s: string, n: string)
    requires Denotes(d, t) && s in d.users
    ensures n in d.users[s].roles <==> (s, n) in t.assignments
    ensures StrictlySorted(d.users[s].roles)
  {
    DenotedUser(d, t, s);
  }

  lemma RoleHas(d: Document, t: TenantState, n: string, op: string)
    requires Denotes(d, t) && n in d.roles
    ensures op in d.roles[n].permissions.Get() <==> (n, op) in t.grants
  {
    DenotedRole(d, t, n);
  }

  lemma UserHas(d: Document, t: TenantState, s: string, op: string)
    requires Denotes(d, t) && s in d.users
    ensures op in d.users[s].permissions.Get() <==> (s, op) in t.overrides
  {
    DenotedUser(d, t, s);
  }

  // ---- One call's change to the document, and to the state ----

  lemma RoleMapsMade(d: Document, t: TenantState, n: string, r: RoleData)
    requires Denotes(d, t) && n in d.roles
    requires r.permissions.Get() == d.roles[n].permissions.Get()
      && r.restrictedIds.Get() == d.roles[n].restrictedIds.Get()
    ensures Denotes(WithRole(d, n, r), t)
  {
    RoleMeansTheSame(n, d.roles[n], r, t);
    RoleRecordChanged(d, t, n, r, t);
  }

  lemma UserMapsMade(d: Document, t: TenantState, s: string, u: UserData)
    requires Denotes(d, t) && s in d.users && u.roles == d.users[s].roles
    requires u.permissions.Get() == d.users[s].permissions.Get()
      && u.restrictedIds.Get() == d.users[s].restrictedIds.Get()
    ensures Denotes(WithUser(d, s, u), t)
  {
    UserMeansTheSame(s, d.users[s], u, t);
    UserRecordChanged(d, t, s, u, t);
  }

  /** A record created for an unknown user says nothing about them. */
  lemma UserRecordCreated(d: Document, t: TenantState, s: string)
    requires Denotes(d, t) && s !in d.users
    ensures Denotes(WithUser(d, s, UserData([], Made(map[]), Made(map[]))), t)
  {
    UnknownUser(d, t, s);
    UserRecordChanged(d, t, s, UserData([], Made(map[]), Made(map[])), t);
  }

  lemma RoleCreated(d: Document, t: TenantState, n: string)
    requires Denotes(d, t) && n !in d.roles
    ensures Denotes(WithRole(d, n, RoleData(Made(map[]), Made(map[]))), t.(roles := t.roles + {n}))
  {
    hide Denotes;
    DenotedRoles(d, t);
    RoleRecordChanged(d, t, n, RoleData(Made(map[]), Made(map[])), t.(roles := t.roles + {n}));
  }

  lemma RolePermissionSet(d: Document, t: TenantState, n: string, op: string, scope: Scope)
    requires Denotes(d, t) && n in d.roles && d.roles[n].permissions.Made?
    ensures var r := d.roles[n].(permissions := Made(d.roles[n].permissions.entries[op := scope]));
      Denotes(WithRole(d, n, r), TenantStep(t, SetRolePermission(n, op, scope)).state)
  {
    hide Denotes, IdsMatch;
    DenotedRole(d, t, n);
    var r := d.roles[n].(permissions := Made(d.roles[n].permissions.entries[op := scope]));
    RoleRecordChanged(d, t, n, r, TenantStep(t, SetRolePermission(n, op, scope)).state);
  }

  lemma RoleKnowsOperation(r: RoleData, n: string, op: string, t: TenantState)
    requires RoleMatches(n, r, t)
    ensures op in r.permissions.Get() <==> (n, op) in t.grants
  {
  }

  lemma UserKnowsOperation(u: UserData, s: string, op: string, t: TenantState)
    requires UserMatches(s, u, t)
    ensures op in u.permissions.Get() <==> (s, op) in t.overrides
  {
  }

  /** Dropping an operation from one record's maps drops that pair and its ids, and nothing else. */
  lemma OperationDropped(p: map<string, Scope>, ids: map<string, seq<string>>, owner: string, op: string,
                         all: map<(string, string), Scope>, allIds: set<(string, string, string)>)
    requires PermissionsMatch(Made(p), owner, all) && IdsMatch(Made(ids), owner, allIds) && ListsSorted(Made(ids))
    ensures PermissionsMatch(Made(p - {op}), owner, all - {(owner, op)})
    ensures IdsMatch(Made(ids - {op}), owner, allIds - IdsOf(owner, op, allIds)) && ListsSorted(Made(ids - {op}))
  {
    var rest, restIds := Made(ids - {op}), allIds - IdsOf(owner, op, allIds);
    assert rest.Get() == ids - {op} && Made(ids).Get() == ids;
    forall o, id
      ensures (owner, o, id) in restIds <==> o in rest.Get() && id in rest.Get()[o]
    {
      assert (owner, o, id) in allIds <==> o in Made(ids).Get() && id in Made(ids).Get()[o];
    }
    forall o | o in rest.Get() ensures StrictlySorted(rest.Get()[o]) {
      assert o in Made(ids).Get();
    }
  }

  lemma RolePermissionRemoved(d: Document, t: TenantState, n: string, op: string)
    requires Denotes(d, t) && n in d.roles && d.roles[n].permissions.Made? && d.roles[n].restrictedIds.Made?
    requires op in d.roles[n].permissions.entries
    ensures var r := RoleData(Made(d.roles[n].permissions.entries - {op}),
      Made(d.roles[n].restrictedIds.entries - {op}));
      && TenantStep(t, RemoveRolePermission(n, op)).err == Ok
      && Denotes(WithRole(d, n, r), TenantStep(t, RemoveRolePermission(n, op)).state)
  {
    hide Denotes, PermissionsMatch, IdsMatch, ListsSorted;
    DenotedRole(d, t, n);
    RoleKnowsOperation(d.roles[n], n, op, t);
    OperationDropped(d.roles[n].permissions.entries, d.roles[n].restrictedIds.entries, n, op, t.grants, t.roleIds);
    var r := RoleData(Made(d.roles[n].permissions.entries - {op}), Made(d.roles[n].restrictedIds.entries - {op}));
    RoleRecordChanged(d, t, n, r, TenantStep(t, RemoveRolePermission(n, op)).state);
  }

  lemma UserPermissionSet(d: Document, t: TenantState, s: string, op: string, scope: Scope)
    requires Denotes(d, t) && s in d.users && d.users[s].permissions.Made?
    ensures var u := d.users[s].(permissions := Made(d.users[s].permissions.entries[op := scope]));
      Denotes(WithUser(d, s, u), TenantStep(t, SetUserPermission(s, op, scope)).state)
  {
    hide Denotes, IdsMatch;
    DenotedUser(d, t, s);
    var u := d.users[s].(permissions := Made(d.users[s].permissions.entries[op := scope]));
    UserRecordChanged(d, t, s, u, TenantStep(t, SetUserPermission(s, op, scope)).state);
  }

  lemma UserPermissionRemoved(d: Document, t: TenantState, s: string, op: string)
    requires Denotes(d, t) && s in d.users && d.users[s].permissions.Made? && d.users[s].restrictedIds.Made?
    requires op in d.users[s].permissions.entries
    ensures var u := UserData(d.users[s].roles, Made(d.users[s].permissions.entries - {op}),
                              Made(d.users[s].restrictedIds.entries - {op}));
      && TenantStep(t, RemoveUserPermission(s, op)).err == Ok
      && Denotes(WithUser(d, s, u), TenantStep(t, RemoveUserPermission(s, op)).state)
  {
    hide Denotes, PermissionsMatch, IdsMatch, ListsSorted;
    DenotedUser(d, t, s);
    UserKnowsOperation(d.users[s], s, op, t);
    OperationDropped(d.users[s].permissions.entries, d.users[s].restrictedIds.entries, s, op, t.overrides, t.userIds);
    var u := UserData(d.users[s].roles, Made(d.users[s].permissions.entries - {op}),
                      Made(d.users[s].restrictedIds.entries - {op}));
    UserRecordChanged(d, t, s, u, TenantStep(t, RemoveUserPermission(s, op)).state);
  }

  lemma RoleAssigned(d: Document, t: TenantState, s: string, n: string, roles: seq<string>)
    requires Denotes(d, t) && s in d.users && n in t.roles
    requires StrictlySorted(roles) && forall x :: x in roles <==> x in d.users[s].roles || x == n
    ensures Denotes(WithUser(d, s, d.users[s].(roles := roles)), TenantStep(t, AssignRole(s, n)).state)
  {
    hide Denotes, IdsMatch;
    DenotedUser(d, t, s);
    UserRecordChanged(d, t, s, d.users[s].(roles := roles), TenantStep(t, AssignRole(s, n)).state);
  }

  lemma RoleUnassigned(d: Document, t: TenantState, s: string, n: string, roles: seq<string>)
    requires Denotes(d, t) && s in d.users && n in t.roles && n in d.users[s].roles
    requires StrictlySorted(roles) && forall x :: x in roles <==> x in d.users[s].roles && x != n
    ensures TenantStep(t, UnassignRole(s, n)).err == Ok
    ensures Denotes(WithUser(d, s, d.users[s].(roles := roles)), TenantStep(t, UnassignRole(s, n)).state)
  {
    hide Denotes, IdsMatch;
    DenotedUser(d, t, s);
    UserRecordChanged(d, t, s, d.users[s].(roles := roles), TenantStep(t, UnassignRole(s, n)).state);
  }

  // ---- Record-id lists ----

  ghost predicate Listed(ids: map<string, seq<string>>, op: string, id: string) {
    op in ids && id in ids[op]
  }

  ghost predicate AllSorted(ids: map<string, seq<string>>) {
    forall op :: op in ids ==> StrictlySorted(ids[op])
  }

  ghost predicate IdsAdded(before: map<string, seq<string>>, after: map<string, seq<string>>, op: string,
                           ids: seq<string>)
        {
    forall o, id :: Listed(after, o, id) <==> Listed(before, o, id) || (o == op && id in ids)
  }

  ghost predicate IdsRemoved(before: map<string, seq<string>>, after: map<string, seq<string>>, op: string,
                             ids: seq<string>)
        {
    forall o, id :: Listed(after, o, id) <==> Listed(before, o, id) && !(o == op && id in ids)
  }

  lemma RoleListsSorted(d: Document, t: TenantState, n: string)
    requires Denotes(d, t) && n in d.roles && d.roles[n].restrictedIds.Made?
    ensures AllSorted(d.roles[n].restrictedIds.entries)
  {
    DenotedRole(d, t, n);
    assert d.roles[n].restrictedIds.Get() == d.roles[n].restrictedIds.entries;
  }

  lemma UserListsSorted(d: Document, t: TenantState, s: string)
    requires Denotes(d, t) && s in d.users && d.users[s].restrictedIds.Made?
    ensures AllSorted(d.users[s].restrictedIds.entries)
  {
    DenotedUser(d, t, s);
    assert d.users[s].restrictedIds.Get() == d.users[s].restrictedIds.entries;
  }

  lemma AddedIdsMatch(before: map<string, seq<string>>, after: map<string, seq<string>>, owner: string, op: string,
                      ids: seq<string>, all: set<(string, string, string)>)
    requires IdsMatch(Made(before), owner, all) && IdsAdded(before, after, op, ids)
    ensures IdsMatch(Made(after), owner, all + Ids(owner, op, ids))
  {
    forall o, id
      ensures (owner, o, id) in all + Ids(owner, op, ids) <==> o in after && id in after[o]
    {
      assert Listed(after, o, id) <==> Listed(before, o, id) || (o == op && id in ids);
    }
  }

  lemma RemovedIdsMatch(before: map<string, seq<string>>, after: map<string, seq<string>>, owner: string, op: string,
                        ids: seq<string>, all: set<(string, string, string)>)
    requires IdsMatch(Made(before), owner, all) && IdsRemoved(before, after, op, ids)
    ensures IdsMatch(Made(after), owner, all - Ids(owner, op, ids))
  {
    forall o, id
      ensures (owner, o, id) in all - Ids(owner, op, ids) <==> o in after && id in after[o]
    {
      assert Listed(after, o, id) <==> Listed(before, o, id) && !(o == op && id in ids);
    }
  }

  lemma RoleIdsAdded(d: Document, t: TenantState, n: string, op: string, ids: seq<string>,
                     lists: map<string, seq<string>>)
    requires Denotes(d, t) && n in d.roles && d.roles[n].restrictedIds.Made? && AllSorted(lists)
    requires IdsAdded(d.roles[n].restrictedIds.entries, lists, op, ids)
    ensures Denotes(WithRole(d, n, d.roles[n].(restrictedIds := Made(lists))),
      TenantStep(t, AddRoleIDs(n, op, ids)).state)
  {
    hide Denotes, PermissionsMatch, IdsMatch, IdsAdded, IdsRemoved;
    DenotedRole(d, t, n);
    var r := d.roles[n].(restrictedIds := Made(lists));
    AddedIdsMatch(d.roles[n].restrictedIds.entries, lists, n, op, ids, t.roleIds);
    RoleRecordChanged(d, t, n, r, TenantStep(t, AddRoleIDs(n, op, ids)).state);
  }

  lemma RoleIdsRemoved(d: Document, t: TenantState, n: string, op: string, ids: seq<string>,
                       lists: map<string, seq<string>>)
    requires Denotes(d, t) && n in d.roles && d.roles[n].restrictedIds.Made? && AllSorted(lists)
    requires IdsRemoved(d.roles[n].restrictedIds.entries, lists, op, ids)
    ensures Denotes(WithRole(d, n, d.roles[n].(restrictedIds := Made(lists))),
      TenantStep(t, RemoveRoleIDs(n, op, ids)).state)
  {
    hide Denotes, PermissionsMatch, IdsMatch, IdsAdded, IdsRemoved;
    DenotedRole(d, t, n);
    var r := d.roles[n].(restrictedIds := Made(lists));
    RemovedIdsMatch(d.roles[n].restrictedIds.entries, lists, n, op, ids, t.roleIds);
    RoleRecordChanged(d, t, n, r, TenantStep(t, RemoveRoleIDs(n, op, ids)).state);
  }

  lemma UserIdsAdded(d: Document, t: TenantState, s: string, op: string, ids: seq<string>,
                     lists: map<string, seq<string>>)
    requires Denotes(d, t) && s in d.users && d.users[s].restrictedIds.Made? && AllSorted(lists)
    requires IdsAdded(d.users[s].restrictedIds.entries, lists, op, ids)
    ensures Denotes(WithUser(d, s, d.users[s].(restrictedIds := Made(lists))),
      TenantStep(t, AddUserIDs(s, op, ids)).state)
  {
    hide Denotes, PermissionsMatch, IdsMatch, IdsAdded, IdsRemoved;
    DenotedUser(d, t, s);
    var u := d.users[s].(restrictedIds := Made(lists));
    AddedIdsMatch(d.users[s].restrictedIds.entries, lists, s, op, ids, t.userIds);
    UserRecordChanged(d, t, s, u, TenantStep(t, AddUserIDs(s, op, ids)).state);
  }

  lemma UserIdsRemoved(d: Document, t: TenantState, s: string, op: string, ids: seq<string>,
                       lists: map<string, seq<string>>)
    requires Denotes(d, t) && s in d.users && d.users[s].restrictedIds.Made? && AllSorted(lists)
    requires IdsRemoved(d.users[s].restrictedIds.entries, lists, op, ids)
    ensures Denotes(WithUser(d, s, d.users[s].(restrictedIds := Made(lists))),
      TenantStep(t, RemoveUserIDs(s, op, ids)).state)
  {
    hide Denotes, PermissionsMatch, IdsMatch, IdsAdded, IdsRemoved;
    DenotedUser(d, t, s);
    var u := d.users[s].(restrictedIds := Made(lists));
    RemovedIdsMatch(d.users[s].restrictedIds.entries, lists, s, op, ids, t.userIds);
    UserRecordChanged(d, t, s, u, TenantStep(t, RemoveUserIDs(s, op, ids)).state);
  }
}
