/** The JSON driver of one tenant: named role and user records, changed in place and saved whole. */
module JsonTenant {
  import opened Model
  import opened Strings
  import opened TenantSpec
  import opened TenantAnswers
  import opened TenantDocument

  class RoleRecord {
    var permissions: Entries<Scope>
    var restrictedIds: Entries<seq<string>>

    constructor (permissions: Entries<Scope>, restrictedIds: Entries<seq<string>>)
      ensures this.permissions == permissions && this.restrictedIds == restrictedIds
    {
      this.permissions, this.restrictedIds := permissions, restrictedIds;
    }

    function Data(): RoleData
      reads this
    {
      RoleData(permissions, restrictedIds)
    }
  }

  class UserRecord {
    var roles: seq<string>
    var permissions: Entries<Scope>
    var restrictedIds: Entries<seq<string>>

    constructor (roles: seq<string>, permissions: Entries<Scope>, restrictedIds: Entries<seq<string>>)
      ensures this.roles == roles && this.permissions == permissions && this.restrictedIds == restrictedIds
    {
      this.roles, this.permissions, this.restrictedIds := roles, permissions, restrictedIds;
    }

    function Data(): UserData
      reads this
    {
      UserData(roles, permissions, restrictedIds)
    }

    /** The new name goes where it belongs, if the old one was there. */
    method Rename(name: string, newName: string)
      requires StrictlySorted(roles)
      modifies this`roles
      ensures StrictlySorted(roles) && NameReplaced(old(roles), roles, name, newName)
    {
      var rest, ok := RemoveString(roles, name);
      if ok {
        roles := InsertSorted(rest, newName);
      }
    }

    method Remove(name: string)
      requires StrictlySorted(roles)
      modifies this`roles
      ensures StrictlySorted(roles) && NameRemoved(old(roles), roles, name)
    {
      var rest, _ := RemoveString(roles, name);
      roles := rest;
    }
  }

  function ListAt(ids: map<string, seq<string>>, op: string): seq<string> {
    if op in ids then ids[op] else []
  }

  /** The loop that adds record ids to one operation's list, each at its sorted place. */
  method AddToList(ids: map<string, seq<string>>, op: string, add: seq<string>) returns (r: map<string, seq<string>>)
    requires AllSorted(ids)
    ensures AllSorted(r) && IdsAdded(ids, r, op, add)
  {
    r := ids;
    for i := 0 to |add|
      invariant AllSorted(r) && IdsAdded(ids, r, op, add[..i])
    {
      var before := r;
      var list := InsertSorted(ListAt(r, op), add[i]);
      r := r[op := list];
      forall o, id ensures Listed(r, o, id) <==> Listed(ids, o, id) || (o == op && id in add[..i + 1]) {
        assert Listed(before, o, id) <==> Listed(ids, o, id) || (o == op && id in add[..i]);
      }
    }
    assert add[..|add|] == add;
  }

  /** The loop that takes record ids off one operation's list, first occurrence by first occurrence. */
  method RemoveFromList(ids: map<string, seq<string>>, op: string, remove: seq<string>)
      returns (r: map<string, seq<string>>)
    requires AllSorted(ids)
    ensures AllSorted(r) && IdsRemoved(ids, r, op, remove)
  {
    r := ids;
    for i := 0 to |remove|
      invariant AllSorted(r) && IdsRemoved(ids, r, op, remove[..i])
    {
      var before := r;
      var list, _ := RemoveString(ListAt(r, op), remove[i]);
      r := r[op := list];
      forall o, id ensures Listed(r, o, id) <==> Listed(ids, o, id) && !(o == op && id in remove[..i + 1]) {
        assert Listed(before, o, id) <==> Listed(ids, o, id) && !(o == op && id in remove[..i]);
      }
    }
    assert remove[..|remove|] == remove;
  }

  class JsonTenantStore {
    var roles: map<string, RoleRecord>
    var users: map<string, UserRecord>
    var file: Option<Document>
    ghost var abs: TenantState

    /** The records this store owns. */
    ghost var Records: set<object>

    /** All records are owned, and no two names share one. */
    ghost predicate Owned()
      reads this`roles, this`users, this`Records
    {
      && this !in Records
      && (forall n :: n in roles ==> roles[n] in Records)
      && (forall s :: s in users ==> users[s] in Records)
      && (forall a, b :: a in roles && b in roles && roles[a] == roles[b] ==> a == b)
      && (forall a, b :: a in users && b in users && users[a] == users[b] ==> a == b)
    }

    function Data(): Document
      requires Owned()
      reads this`roles, this`users, this`Records, Records
    {
      Document(map n | n in roles :: roles[n].Data(), map s | s in users :: users[s].Data())
    }

    ghost predicate Consistent()
      reads this`roles, this`users, this`Records, this`abs, Records
    {
      Owned() && Denotes(Data(), abs)
    }

    /** The file denotes the same state as memory does, and spells out no empty map. */
    ghost predicate FileAgrees()
      reads this`file, this`abs
    {
      && (file.None? ==> abs == NO_TENANT_DATA)
      && (file.Some? ==> Denotes(file.value, abs) && Lean(file.value))
    }

    ghost predicate Valid()
      reads this, Records
    {
      Consistent() && FileAgrees()
    }

    /** Opens the store from what was saved, or empty when nothing was. */
    constructor Open(saved: Option<Document>, ghost state: TenantState)
      requires saved.None? ==> state == NO_TENANT_DATA
      requires saved.Some? ==> Denotes(saved.value, state) && Lean(saved.value)
      ensures Valid() && abs == state && file == saved && fresh(Records)
    {
      roles, users, file, abs, Records := map[], map[], saved, state, {};
      new;
      hide Denotes, Lean;
      if saved.Some? {
        LoadRoles(saved.value);
        LoadUsers(saved.value);
        assert Data() == saved.value;
      } else {
        NothingDenotesNothing();
        assert Data() == Document(map[], map[]);
      }
    }

    method LoadRoles(d: Document)
      requires Owned() && Data() == Document(map[], map[])
      modifies this`roles, this`Records
      ensures Owned() && Data() == Document(d.roles, map[]) && fresh(Records - old(Records))
    {
      var todo := d.roles.Keys;
      while todo != {}
        invariant todo <= d.roles.Keys
        invariant Owned() && fresh(Records - old(Records))
        invariant Data().users == map[] && Data().roles.Keys == d.roles.Keys - todo
        invariant forall n :: n in Data().roles ==> Data().roles[n] == d.roles[n]
        decreases todo
      {
        var n :| n in todo;
        todo := todo - {n};
        var r := new RoleRecord(d.roles[n].permissions, d.roles[n].restrictedIds);
        LinkRole(n, r);
      }
    }

    method LoadUsers(d: Document)
      requires Owned() && Data() == Document(d.roles, map[])
      modifies this`users, this`Records
      ensures Owned() && Data() == d && fresh(Records - old(Records))
    {
      var todo := d.users.Keys;
      while todo != {}
        invariant todo <= d.users.Keys
        invariant Owned() && fresh(Records - old(Records))
        invariant Data().roles == d.roles && Data().users.Keys == d.users.Keys - todo
        invariant forall s :: s in Data().users ==> Data().users[s] == d.users[s]
        decreases todo
      {
        var s :| s in todo;
        todo := todo - {s};
        var u := new UserRecord(d.users[s].roles, d.users[s].permissions, d.users[s].restrictedIds);
        LinkUser(s, u);
      }
    }

    lemma RoleKnown(name: string)
      requires Consistent()
      ensures name in roles <==> name in abs.roles
    {
    }

    method Persist()
      requires Consistent()
      modifies this`file
      ensures Valid() && file == Some(Saved(Data()))
    {
      hide Denotes, Saved, Lean;
      var d := Data();
      SavingKeepsMeaning(d, abs);
      SavingOnlyDropsEmptyMaps(d);
      file := Some(Saved(d));
      assert Data() == d;
    }

    /** Writes a role's record; `state` is what the tenant then means. */
    method WriteRole(name: string, permissions: Entries<Scope>, restrictedIds: Entries<seq<string>>,
                     ghost state: TenantState)
      requires Consistent() && name in roles && Denotes(WithRole(Data(), name, RoleData(permissions, restrictedIds)),
        state)
      modifies this, Records
      ensures Consistent() && abs == state && file == old(file) && Records == old(Records)
      ensures roles == old(roles) && users == old(users)
      ensures roles[name].permissions == permissions && roles[name].restrictedIds == restrictedIds
    {
      hide Denotes, Lean;
      ghost var d := Data();
      var r := roles[name];
      r.permissions, r.restrictedIds := permissions, restrictedIds;
      abs := state;
      assert Data().users == d.users;
      assert Data().roles == d.roles[name := r.Data()];
    }

    /** Writes a user's record; `state` is what the tenant then means. */
    method WriteUser(sub: string, held: seq<string>, permissions: Entries<Scope>, restrictedIds: Entries<seq<string>>,
                     ghost state: TenantState)
      requires Consistent() && sub in users
      requires Denotes(WithUser(Data(), sub, UserData(held, permissions, restrictedIds)), state)
      modifies this, Records
      ensures Consistent() && abs == state && file == old(file) && Records == old(Records)
      ensures roles == old(roles) && users == old(users)
      ensures users[sub].roles == held
      ensures users[sub].permissions == permissions && users[sub].restrictedIds == restrictedIds
    {
      hide Denotes, Lean;
      ghost var d := Data();
      var u := users[sub];
      u.roles, u.permissions, u.restrictedIds := held, permissions, restrictedIds;
      abs := state;
      assert Data().roles == d.roles;
      assert Data().users == d.users[sub := u.Data()];
    }

    method StoreRole(name: string, permissions: Entries<Scope>, restrictedIds: Entries<seq<string>>,
                     ghost state: TenantState)
      requires Valid() && name in roles && Denotes(WithRole(Data(), name, RoleData(permissions, restrictedIds)), state)
      modifies this, Records
      ensures Valid() && abs == state && Records == old(Records)
    {
      hide Denotes, Lean, Data, Owned;
      WriteRole(name, permissions, restrictedIds, state);
      Persist();
    }

    method StoreUser(sub: string, held: seq<string>, permissions: Entries<Scope>, restrictedIds: Entries<seq<string>>,
                     ghost state: TenantState)
      requires Valid() && sub in users && Denotes(WithUser(Data(), sub, UserData(held, permissions, restrictedIds)),
        state)
      modifies this, Records
      ensures Valid() && abs == state && Records == old(Records)
    {
      hide Denotes, Lean, Data, Owned;
      WriteUser(sub, held, permissions, restrictedIds, state);
      Persist();
    }

    /** A role's record with both maps made, or null. */
    method FindRole(name: string) returns (r: RoleRecord?)
      requires Valid()
      modifies this, Records
      ensures Valid() && abs == old(abs) && file == old(file) && Records == old(Records)
      ensures r == null <==> name !in abs.roles
      ensures r != null ==> name in roles && r == roles[name]
      ensures r != null ==> name in Data().roles && Data().roles[name] == r.Data()
      ensures r != null ==> r.permissions.Made? && r.restrictedIds.Made?
    {
      hide Denotes, Lean;
      RoleKnown(name);
      if name !in roles {
        return null;
      }
      r := roles[name];
      var permissions := if r.permissions.Nil? then Made(map[]) else r.permissions;
      var restrictedIds := if r.restrictedIds.Nil? then Made(map[]) else r.restrictedIds;
      RoleMapsMade(Data(), abs, name, RoleData(permissions, restrictedIds));
      WriteRole(name, permissions, restrictedIds, abs);
    }

    /** A user's record with both maps made; an unknown user gets an empty one, not saved. */
    method FindUser(sub: string) returns (u: UserRecord)
      requires Valid()
      modifies this, Records
      ensures Valid() && abs == old(abs) && file == old(file) && fresh(Records - old(Records))
      ensures sub in users && u == users[sub]
      ensures sub in Data().users && Data().users[sub] == u.Data()
      ensures u.permissions.Made? && u.restrictedIds.Made?
    {
      hide Denotes, Lean;
      if sub !in users {
        u := AddEmptyUser(sub);
      } else {
        u := users[sub];
        var permissions := if u.permissions.Nil? then Made(map[]) else u.permissions;
        var restrictedIds := if u.restrictedIds.Nil? then Made(map[]) else u.restrictedIds;
        UserMapsMade(Data(), abs, sub, UserData(u.roles, permissions, restrictedIds));
        WriteUser(sub, u.roles, permissions, restrictedIds, abs);
      }
    }

    method AddEmptyUser(sub: string) returns (u: UserRecord)
      requires Valid() && sub !in users
      modifies this`users, this`Records
      ensures Valid() && fresh(u) && users == old(users)[sub := u] && Records == old(Records) + {u}
      ensures u.roles == [] && u.permissions == Made(map[]) && u.restrictedIds == Made(map[])
    {
      hide Denotes, Lean;
      UserRecordCreated(Data(), abs, sub);
      u := new UserRecord([], Made(map[]), Made(map[]));
      LinkUser(sub, u);
    }

    method LinkUser(sub: string, u: UserRecord)
      requires Owned() && sub !in users && u !in Records
      modifies this`users, this`Records
      ensures Owned() && Records == old(Records) + {u} && users == old(users)[sub := u]
      ensures Data() == WithUser(old(Data()), sub, u.Data())
    {
      ghost var d := Data();
      users, Records := users[sub := u], Records + {u};
      assert Data().roles == d.roles;
      assert Data().users == d.users[sub := u.Data()];
    }

    method CreateRole(name: string) returns (err: Error)
      requires Valid()
      modifies this, Records
      ensures Valid() && fresh(Records - old(Records))
      ensures Outcome(abs, err) == TenantStep(old(abs), TenantCall.CreateRole(name))
    {
      hide Denotes, Lean;
      RoleKnown(name);
      if name in roles {
        return Conflict;
      }
      AddEmptyRole(name);
      return Ok;
    }

    method EnsureRole(name: string) returns (err: Error)
      requires Valid()
      modifies this, Records
      ensures Valid() && fresh(Records - old(Records))
      ensures Outcome(abs, err) == TenantStep(old(abs), TenantCall.EnsureRole(name))
    {
      hide Denotes, Lean;
      RoleKnown(name);
      if name in roles {
        assert abs.roles + {name} == abs.roles;
        return Ok;
      }
      AddEmptyRole(name);
      return Ok;
    }

    method AddEmptyRole(name: string)
      requires Valid() && name !in roles
      modifies this, Records
      ensures Valid() && fresh(Records - old(Records))
      ensures abs == old(abs).(roles := old(abs).roles + {name})
    {
      hide Denotes, Lean, Data, Owned;
      InsertEmptyRole(name);
      Persist();
    }

    method InsertEmptyRole(name: string)
      requires Consistent() && name !in roles
      modifies this`roles, this`abs, this`Records
      ensures Consistent() && fresh(Records - old(Records))
      ensures abs == old(abs).(roles := old(abs).roles + {name})
    {
      hide Denotes, Lean, Data;
      RoleUnknown(name);
      var r := new RoleRecord(Made(map[]), Made(map[]));
      LinkRole(name, r);
      abs := abs.(roles := abs.roles + {name});
    }

    lemma RoleUnknown(name: string)
      requires Consistent() && name !in roles
      ensures Denotes(WithRole(Data(), name, RoleData(Made(map[]), Made(map[]))), abs.(roles := abs.roles + {name}))
    {
      hide Denotes, Lean;
      RoleCreated(Data(), abs, name);
    }

    method LinkRole(name: string, r: RoleRecord)
      requires Owned() && name !in roles && r !in Records
      modifies this`roles, this`Records
      ensures Owned() && Records == old(Records) + {r}
      ensures Data() == WithRole(old(Data()), name, r.Data())
    {
      ghost var d := Data();
      roles, Records := roles[name := r], Records + {r};
      assert Data().users == d.users;
    }

    /** The record stays the same object under its new name. */
    method MoveRole(name: string, newName: string)
      requires Owned() && name in roles && newName !in roles
      modifies this`roles
      ensures Owned()
      ensures Data() == old(Data()).(roles := (old(Data()).roles - {name})[newName := old(Data()).roles[name]])
    {
      ghost var d := Data();
      roles := (roles - {name})[newName := roles[name]];
      assert Data().users == d.users;
    }

    method DropRole(name: string)
      requires Owned() && name in roles
      modifies this`roles
      ensures Owned()
      ensures Data() == old(Data()).(roles := old(Data()).roles - {name})
    {
      roles := roles - {name};
    }

    /** Visits every user, in no particular order, and re-sorts the new name into each list that held the old one. */
    method RenameInEach(name: string, newName: string)
      requires Owned() && forall s :: s in users ==> StrictlySorted(users[s].roles)
      modifies (set s | s in users :: users[s])`roles
      ensures forall s :: s in users ==>
        StrictlySorted(users[s].roles) && NameReplaced(old(users[s].roles), users[s].roles, name, newName)
    {
      hide StrictlySorted, NameReplaced;
      var todo := users.Keys;
      while todo != {}
        invariant todo <= users.Keys
        invariant forall s :: s in users ==> StrictlySorted(users[s].roles)
        invariant forall s :: s in todo ==> users[s].roles == old(users[s].roles)
        invariant forall s :: s in users && s !in todo ==>
          NameReplaced(old(users[s].roles), users[s].roles, name, newName)
        decreases todo
      {
        var s :| s in todo;
        todo := todo - {s};
        users[s].Rename(name, newName);
      }
    }

    method RenameInUsers(name: string, newName: string)
      requires Owned() && forall s :: s in Data().users ==> StrictlySorted(Data().users[s].roles)
      modifies Records
      ensures Data().roles == old(Data().roles) && SameButRoleLists(old(Data().users), Data().users)
      ensures forall s :: s in old(Data().users) ==>
        NameReplaced(old(Data().users)[s].roles, Data().users[s].roles, name, newName)
    {
      hide StrictlySorted, NameReplaced;
      assert forall s :: s in users ==> Data().users[s] == users[s].Data();
      RenameInEach(name, newName);
      assert Data().roles == old(Data().roles);
      assert forall s :: s in users ==> Data().users[s] == users[s].Data();
    }

    /** Visits every user and takes the name off their list. */
    method RemoveInEach(name: string)
      requires Owned() && forall s :: s in users ==> StrictlySorted(users[s].roles)
      modifies (set s | s in users :: users[s])`roles
      ensures forall s :: s in users ==>
        StrictlySorted(users[s].roles) && NameRemoved(old(users[s].roles), users[s].roles, name)
    {
      hide StrictlySorted, NameRemoved;
      var todo := users.Keys;
      while todo != {}
        invariant todo <= users.Keys
        invariant forall s :: s in users ==> StrictlySorted(users[s].roles)
        invariant forall s :: s in todo ==> users[s].roles == old(users[s].roles)
        invariant forall s :: s in users && s !in todo ==> NameRemoved(old(users[s].roles), users[s].roles, name)
        decreases todo
      {
        var s :| s in todo;
        todo := todo - {s};
        users[s].Remove(name);
      }
    }

    method RemoveFromUsers(name: string)
      requires Owned() && forall s :: s in Data().users ==> StrictlySorted(Data().users[s].roles)
      modifies Records
      ensures Data().roles == old(Data().roles) && SameButRoleLists(old(Data().users), Data().users)
      ensures forall s :: s in old(Data().users) ==>
        NameRemoved(old(Data().users)[s].roles, Data().users[s].roles, name)
    {
      hide StrictlySorted, NameRemoved;
      assert forall s :: s in users ==> Data().users[s] == users[s].Data();
      RemoveInEach(name);
      assert Data().roles == old(Data().roles);
      assert forall s :: s in users ==> Data().users[s] == users[s].Data();
    }

    method RenameRole(name: string, newName: string) returns (err: Error)
      requires Valid()
      modifies this, Records
      ensures Valid() && fresh(Records - old(Records))
      ensures Outcome(abs, err) == TenantStep(old(abs), TenantCall.RenameRole(name, newName))
    {
      hide Denotes, Lean, Data, Owned, NameReplaced, SameButRoleLists, WithRoleRenamed, StrictlySorted;
      var r := FindRole(name);
      if r == null {
        return NotFound;
      }
      ghost var d, t := Data(), abs;
      DenotedRoles(d, t);
      RoleKnown(newName);
      if newName in roles {
        return Conflict;
      }
      MoveRole(name, newName);
      RenameInUsers(name, newName);
      abs := WithRoleRenamed(t, name, newName);
      DocumentRenamed(d, t, Data(), name, newName);
      Persist();
      return Ok;
    }

    method DeleteRole(name: string) returns (err: Error)
      requires Valid()
      modifies this, Records
      ensures Valid() && fresh(Records - old(Records))
      ensures Outcome(abs, err) == TenantStep(old(abs), TenantCall.DeleteRole(name))
    {
      hide Denotes, Lean, Data, Owned, NameRemoved, SameButRoleLists, WithoutRole, StrictlySorted;
      ghost var d, t := Data(), abs;
      DenotedRoles(d, t);
      RoleKnown(name);
      if name !in roles {
        return NotFound;
      }
      DropRole(name);
      RemoveFromUsers(name);
      abs := WithoutRole(t, name);
      DocumentWithoutRole(d, t, Data(), name);
      Persist();
      return Ok;
    }

    method AssignRole(sub: string, role: string) returns (err: Error)
      requires Valid()
      modifies this, Records
      ensures Valid() && fresh(Records - old(Records))
      ensures Outcome(abs, err) == TenantStep(old(abs), TenantCall.AssignRole(sub, role))
    {
      hide Denotes, Lean, Data, Owned, StrictlySorted;
      var r := FindRole(role);
      if r == null {
        return NotFound;
      }
      var u := FindUser(sub);
      ghost var d, t := Data(), abs;
      UserHolds(d, t, sub, role);
      if role in u.roles {
        assert t.assignments + {(sub, role)} == t.assignments;
        return Ok;
      }
      var held := InsertSorted(u.roles, role);
      RoleAssigned(d, t, sub, role, held);
      StoreUser(sub, held, u.permissions, u.restrictedIds, TenantStep(t, TenantCall.AssignRole(sub, role)).state);
      return Ok;
    }

    method UnassignRole(sub: string, role: string) returns (err: Error)
      requires Valid()
      modifies this, Records
      ensures Valid() && fresh(Records - old(Records))
      ensures Outcome(abs, err) == TenantStep(old(abs), TenantCall.UnassignRole(sub, role))
    {
      hide Denotes, Lean, Data, Owned;
      var r := FindRole(role);
      if r == null {
        return NotFound;
      }
      var u := FindUser(sub);
      ghost var d, t := Data(), abs;
      UserHolds(d, t, sub, role);
      var rest, ok := RemoveString(u.roles, role);
      if !ok {
        return NotFound;
      }
      RoleUnassigned(d, t, sub, role, rest);
      StoreUser(sub, rest, u.permissions, u.restrictedIds, TenantStep(t, TenantCall.UnassignRole(sub, role)).state);
      return Ok;
    }

    method SetRolePermission(role: string, op: string, scope: Scope) returns (err: Error)
      requires Valid()
      modifies this, Records
      ensures Valid() && fresh(Records - old(Records))
      ensures Outcome(abs, err) == TenantStep(old(abs), TenantCall.SetRolePermission(role, op, scope))
    {
      hide Denotes, Lean, Data, Owned;
      var r := FindRole(role);
      if r == null {
        return NotFound;
      }
      ghost var d, t := Data(), abs;
      RolePermissionSet(d, t, role, op, scope);
      StoreRole(role, Made(r.permissions.entries[op := scope]), r.restrictedIds,
        TenantStep(t, TenantCall.SetRolePermission(role, op, scope)).state);
      return Ok;
    }

    method RemoveRolePermission(role: string, op: string) returns (err: Error)
      requires Valid()
      modifies this, Records
      ensures Valid() && fresh(Records - old(Records))
      ensures Outcome(abs, err) == TenantStep(old(abs), TenantCall.RemoveRolePermission(role, op))
    {
      hide Denotes, Lean, Data, Owned;
      var r := FindRole(role);
      if r == null {
        return NotFound;
      }
      ghost var d, t := Data(), abs;
      RoleHas(d, t, role, op);
      if op !in r.permissions.entries {
        return NotFound;
      }
      RolePermissionRemoved(d, t, role, op);
      StoreRole(role, Made(r.permissions.entries - {op}), Made(r.restrictedIds.entries - {op}),
        TenantStep(t, TenantCall.RemoveRolePermission(role, op)).state);
      return Ok;
    }

    method SetUserPermission(sub: string, op: string, scope: Scope) returns (err: Error)
      requires Valid()
      modifies this, Records
      ensures Valid() && fresh(Records - old(Records))
      ensures Outcome(abs, err) == TenantStep(old(abs), TenantCall.SetUserPermission(sub, op, scope))
    {
      hide Denotes, Lean, Data, Owned;
      var u := FindUser(sub);
      ghost var d, t := Data(), abs;
      UserPermissionSet(d, t, sub, op, scope);
      StoreUser(sub, u.roles, Made(u.permissions.entries[op := scope]), u.restrictedIds,
        TenantStep(t, TenantCall.SetUserPermission(sub, op, scope)).state);
      return Ok;
    }

    method RemoveUserPermission(sub: string, op: string) returns (err: Error)
      requires Valid()
      modifies this, Records
      ensures Valid() && fresh(Records - old(Records))
      ensures Outcome(abs, err) == TenantStep(old(abs), TenantCall.RemoveUserPermission(sub, op))
    {
      hide Denotes, Lean, Data, Owned;
      var u := FindUser(sub);
      ghost var d, t := Data(), abs;
      UserHas(d, t, sub, op);
      if op !in u.permissions.entries {
        return NotFound;
      }
      UserPermissionRemoved(d, t, sub, op);
      StoreUser(sub, u.roles, Made(u.permissions.entries - {op}), Made(u.restrictedIds.entries - {op}),
        TenantStep(t, TenantCall.RemoveUserPermission(sub, op)).state);
      return Ok;
    }

    method AddRoleIDs(role: string, op: string, ids: seq<string>) returns (err: Error)
      requires Valid()
      modifies this, Records
      ensures Valid() && fresh(Records - old(Records))
      ensures Outcome(abs, err) == TenantStep(old(abs), TenantCall.AddRoleIDs(role, op, ids))
    {
      hide Denotes, Lean, Data, Owned;
      var r := FindRole(role);
      if r == null {
        return NotFound;
      }
      ghost var d, t := Data(), abs;
      RoleListsSorted(d, t, role);
      var lists := AddToList(r.restrictedIds.entries, op, ids);
      RoleIdsAdded(d, t, role, op, ids, lists);
      StoreRole(role, r.permissions, Made(lists), TenantStep(t, TenantCall.AddRoleIDs(role, op, ids)).state);
      return Ok;
    }

    method RemoveRoleIDs(role: string, op: string, ids: seq<string>) returns (err: Error)
      requires Valid()
      modifies this, Records
      ensures Valid() && fresh(Records - old(Records))
      ensures Outcome(abs, err) == TenantStep(old(abs), TenantCall.RemoveRoleIDs(role, op, ids))
    {
      hide Denotes, Lean, Data, Owned;
      var r := FindRole(role);
      if r == null {
        return NotFound;
      }
      ghost var d, t := Data(), abs;
      RoleListsSorted(d, t, role);
      var lists := RemoveFromList(r.restrictedIds.entries, op, ids);
      RoleIdsRemoved(d, t, role, op, ids, lists);
      StoreRole(role, r.permissions, Made(lists), TenantStep(t, TenantCall.RemoveRoleIDs(role, op, ids)).state);
      return Ok;
    }

    method AddUserIDs(sub: string, op: string, ids: seq<string>) returns (err: Error)
      requires Valid()
      modifies this, Records
      ensures Valid() && fresh(Records - old(Records))
      ensures Outcome(abs, err) == TenantStep(old(abs), TenantCall.AddUserIDs(sub, op, ids))
    {
      hide Denotes, Lean, Data, Owned;
      var u := FindUser(sub);
      ghost var d, t := Data(), abs;
      UserListsSorted(d, t, sub);
      var lists := AddToList(u.restrictedIds.entries, op, ids);
      UserIdsAdded(d, t, sub, op, ids, lists);
      StoreUser(sub, u.roles, u.permissions, Made(lists), TenantStep(t, TenantCall.AddUserIDs(sub, op, ids)).state);
      return Ok;
    }

    method RemoveUserIDs(sub: string, op: string, ids: seq<string>) returns (err: Error)
      requires Valid()
      modifies this, Records
      ensures Valid() && fresh(Records - old(Records))
      ensures Outcome(abs, err) == TenantStep(old(abs), TenantCall.RemoveUserIDs(sub, op, ids))
    {
      hide Denotes, Lean, Data, Owned;
      var u := FindUser(sub);
      ghost var d, t := Data(), abs;
      UserListsSorted(d, t, sub);
      var lists := RemoveFromList(u.restrictedIds.entries, op, ids);
      UserIdsRemoved(d, t, sub, op, ids, lists);
      StoreUser(sub, u.roles, u.permissions, Made(lists), TenantStep(t, TenantCall.RemoveUserIDs(sub, op, ids)).state);
      return Ok;
    }

    method Do(c: TenantCall) returns (err: Error)
      requires Valid()
      modifies this, Records
      ensures Valid() && fresh(Records - old(Records))
      ensures Outcome(abs, err) == TenantStep(old(abs), c)
    {
      hide Denotes, Lean, Data, Owned;
      match c {
        case CreateRole(name) => err := CreateRole(name);
        case EnsureRole(name) => err := EnsureRole(name);
        case RenameRole(name, newName) => err := RenameRole(name, newName);
        case DeleteRole(name) => err := DeleteRole(name);
        case AssignRole(sub, role) => err := AssignRole(sub, role);
        case UnassignRole(sub, role) => err := UnassignRole(sub, role);
        case SetRolePermission(role, op, scope) => err := SetRolePermission(role, op, scope);
        case RemoveRolePermission(role, op) => err := RemoveRolePermission(role, op);
        case SetUserPermission(sub, op, scope) => err := SetUserPermission(sub, op, scope);
        case RemoveUserPermission(sub, op) => err := RemoveUserPermission(sub, op);
        case AddRoleIDs(role, op, ids) => err := AddRoleIDs(role, op, ids);
        case RemoveRoleIDs(role, op, ids) => err := RemoveRoleIDs(role, op, ids);
        case AddUserIDs(sub, op, ids) => err := AddUserIDs(sub, op, ids);
        case RemoveUserIDs(sub, op, ids) => err := RemoveUserIDs(sub, op, ids);
      }
    }

    // ---- Questions ----

    method RoleExists(name: string) returns (r: bool)
      requires Valid()
      ensures r <==> name in abs.roles
    {
      RoleKnown(name);
      r := name in roles;
    }

    method ListRoles() returns (r: seq<string>)
      requires Valid()
      ensures StrictlySorted(r) && forall n :: n in r <==> n in abs.roles
    {
      hide Denotes, Lean, StrictlySorted;
      r := SortedElements(roles.Keys);
      DenotedRoles(Data(), abs);
    }

    method UserRoles(sub: string) returns (r: seq<string>)
      requires Valid()
      ensures RolesAnswer(r, abs, sub)
    {
      hide Denotes, Lean;
      if sub in users {
        r := users[sub].roles;
        DenotedUser(Data(), abs, sub);
      } else {
        r := [];
        UnknownUser(Data(), abs, sub);
      }
    }

    method RolePermissions(role: string) returns (err: Error, r: seq<OperationScope>)
      requires Valid()
      modifies this, Records
      ensures Valid() && abs == old(abs) && file == old(file) && Records == old(Records)
      ensures err == if role in abs.roles then Ok else NotFound
      ensures if err == Ok then PermissionsAnswer(r, abs.grants, role) else r == []
    {
      hide Denotes, Lean, Data, Owned;
      var found := FindRole(role);
      if found == null {
        return NotFound, [];
      }
      DenotedRole(Data(), abs, role);
      r := ListPermissions(found.permissions.entries);
      err := Ok;
    }

    method HasRolePermission(role: string, op: string) returns (err: Error, has: bool)
      requires Valid()
      modifies this, Records
      ensures Valid() && abs == old(abs) && file == old(file) && Records == old(Records)
      ensures err == if role in abs.roles then Ok else NotFound
      ensures has <==> err == Ok && (role, op) in abs.grants
    {
      hide Denotes, Lean, Data, Owned;
      var found := FindRole(role);
      if found == null {
        return NotFound, false;
      }
      RoleHas(Data(), abs, role, op);
      return Ok, op in found.permissions.entries;
    }

    method UserPermissions(sub: string) returns (r: seq<OperationScope>)
      requires Valid()
      ensures PermissionsAnswer(r, abs.overrides, sub)
    {
      hide Denotes, Lean;
      if sub in users {
        DenotedUser(Data(), abs, sub);
        r := ListPermissions(users[sub].permissions.Get());
      } else {
        UnknownUser(Data(), abs, sub);
        r := [];
      }
    }

    method HasUserPermission(sub: string, op: string) returns (has: bool)
      requires Valid()
      ensures has <==> (sub, op) in abs.overrides
    {
      hide Denotes, Lean;
      if sub in users {
        UserHas(Data(), abs, sub, op);
        has := op in users[sub].permissions.Get();
      } else {
        UnknownUser(Data(), abs, sub);
        has := false;
      }
    }

    method UserRestrictedIDs(sub: string, op: string) returns (r: seq<string>)
      requires Valid()
      ensures UserIdsAnswer(r, abs, sub, op) && StrictlySorted(r)
    {
      hide Denotes, Lean;
      if sub in users {
        DenotedUser(Data(), abs, sub);
        r := ListAt(users[sub].restrictedIds.Get(), op);
      } else {
        UnknownUser(Data(), abs, sub);
        r := [];
      }
      SortedHasNoDuplicates(r);
    }

    method RoleRestrictedIDs(names: seq<string>, op: string) returns (r: seq<string>)
      requires Valid()
      ensures RoleIdsAnswer(r, abs, names, op)
    {
      hide Denotes, Lean;
      r := [];
      var seen := {};
      for i := 0 to |names|
        invariant seen == set id | id in r
        invariant RoleIdsAnswer(r, abs, names[..i], op)
      {
        var name := names[i];
        var before := r;
        var list := [];
        if name in roles {
          DenotedRole(Data(), abs, name);
          list := ListAt(roles[name].restrictedIds.Get(), op);
        } else {
          UnknownRoleHasNothing(Data(), abs, name);
        }
        for j := 0 to |list|
          invariant seen == set id | id in r
          invariant NoDuplicates(r) && forall id :: id in r <==> id in before || id in list[..j]
        {
          if list[j] !in seen {
            seen := seen + {list[j]};
            r := r + [list[j]];
          }
        }
        assert list[..|list|] == list;
        assert forall id :: id in list <==> (name, op, id) in abs.roleIds;
        assert forall n :: n in names[..i + 1] <==> n in names[..i] || n == name;
      }
      assert names[..|names|] == names;
    }

    method RoleGrants(names: seq<string>) returns (r: seq<RoleGrant>)
      requires Valid()
      ensures GrantsPerMention(r, abs, names)
    {
      hide Denotes, Lean;
      r := [];
      for i := 0 to |names|
        invariant GrantsPerMention(r, abs, names[..i])
      {
        var name := names[i];
        assert names[..i + 1] == names[..i] + [name];
        if name in roles {
          DenotedRole(Data(), abs, name);
          r := AppendGrants(r, name, roles[name].permissions.Get());
        } else {
          UnknownRoleHasNothing(Data(), abs, name);
        }
      }
      assert names[..|names|] == names;
    }

    /** Closing a store and opening it again from its last saved file gives a store that means the same, although
        saving dropped empty maps and calls that failed left records in memory that were never saved. */
    method Reopen() returns (again: JsonTenantStore)
      requires Valid()
      ensures fresh(again) && fresh(again.Records)
      ensures again.Valid() && again.abs == abs
    {
      again := new JsonTenantStore.Open(file, abs);
    }
  }

  lemma UnknownRoleHasNothing(d: Document, t: TenantState, n: string)
    requires Denotes(d, t) && n !in d.roles
    ensures forall op :: (n, op) !in t.grants
    ensures forall op, id :: (n, op, id) !in t.roleIds
  {
  }

  predicate ListsGrant(name: string, permissions: map<string, Scope>, g: RoleGrant) {
    g.role == name && g.operation in permissions && permissions[g.operation] == g.scope
  }

  /** Appends one role's grants, each once, in whatever order its map is walked. */
  method AppendGrants(grants: seq<RoleGrant>, name: string, permissions: map<string, Scope>) returns (r: seq<RoleGrant>)
    ensures forall g :: multiset(r)[g] == multiset(grants)[g] + (if ListsGrant(name, permissions, g) then 1 else 0)
  {
    r := grants;
    var todo := permissions.Keys;
    while todo != {}
      invariant todo <= permissions.Keys
      invariant forall g ::
        multiset(r)[g] == multiset(grants)[g] + (if ListsGrant(name, permissions, g)
          && g.operation !in todo then 1 else 0)
      decreases todo
    {
      var op :| op in todo;
      todo := todo - {op};
      r := r + [RoleGrant(name, op, permissions[op])];
    }
  }
}
