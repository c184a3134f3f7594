/** What is there after synchronization, read off the files entry by entry. */
module SyncContents {
  import opened Model
  import opened SharedSpec
  import opened TenantSpec
  import opened ServiceSpec
  import opened SyncSpec

  ghost predicate GivesRole(f: BootstrapFile, id: string, role: string) {
    id in f.tenants && role in f.tenants[id].roles
  }

  ghost predicate GivesAssignment(f: BootstrapFile, id: string, sub: string, role: string) {
    id in f.tenants && sub in f.tenants[id].users && role in f.tenants[id].users[sub].roles
  }

  ghost predicate GivesRoleId(f: BootstrapFile, id: string, role: string, op: string, x: string) {
    id in f.tenants && role in f.tenants[id].roles && op in f.tenants[id].roles[role]
    && x in f.tenants[id].roles[role][op].ids
  }

  ghost predicate GivesUserId(f: BootstrapFile, id: string, sub: string, op: string, x: string) {
    id in f.tenants && sub in f.tenants[id].users && op in f.tenants[id].users[sub].permissions
    && x in f.tenants[id].users[sub].permissions[op].ids
  }

  ghost predicate GivesUser(f: BootstrapFile, sub: string) {
    exists id :: id in f.tenants && sub in f.tenants[id].users
  }

  /** An operation is given by being listed, or by a permission for it. */
  ghost predicate GivesOperation(f: BootstrapFile, op: string) {
    || op in f.operations
    || (exists id, role :: id in f.tenants && role in f.tenants[id].roles && op in f.tenants[id].roles[role])
    || (exists id, sub :: id in f.tenants && sub in f.tenants[id].users && op in f.tenants[id].users[sub].permissions)
  }

  // ---- In the tenants ----

  /** Roles, assignments and record ids are those there were and those some file gives. */
  lemma {:induction false} SyncedTenantHasExactly(w: World, files: seq<BootstrapFile>, id: string, role: string,
                                                  sub: string, op: string, x: string)
    requires id in w.tenants
    ensures id in Synced(w, files).tenants
    ensures var t, t' := w.tenants[id], Synced(w, files).tenants[id];
      && (role in t'.roles <==> role in t.roles || exists f :: f in files && GivesRole(f, id, role))
      && ((sub, role) in t'.assignments <==>
            (sub, role) in t.assignments || exists f :: f in files && GivesAssignment(f, id, sub, role))
      && ((role, op, x) in t'.roleIds <==>
            (role, op, x) in t.roleIds || exists f :: f in files && GivesRoleId(f, id, role, op, x))
      && ((sub, op, x) in t'.userIds <==>
            (sub, op, x) in t.userIds || exists f :: f in files && GivesUserId(f, id, sub, op, x))
  {
    if files != [] {
      var init, f := files[..|files| - 1], files[|files| - 1];
      SyncedTenantHasExactly(w, init, id, role, sub, op, x);
      assert forall g :: g in files <==> g in init || g == f;
      FileTenantHasExactly(Synced(w, init), f, id, role, sub, op, x);
      hide SyncedFile, GivesRole, GivesAssignment, GivesRoleId, GivesUserId;
    }
  }

  lemma FileTenantHasExactly(w: World, f: BootstrapFile, id: string, role: string, sub: string, op: string, x: string)
    requires id in w.tenants
    ensures id in SyncedFile(w, f).tenants
    ensures var t, t' := w.tenants[id], SyncedFile(w, f).tenants[id];
      && (role in t'.roles <==> role in t.roles || GivesRole(f, id, role))
      && ((sub, role) in t'.assignments <==> (sub, role) in t.assignments || GivesAssignment(f, id, sub, role))
      && ((role, op, x) in t'.roleIds <==> (role, op, x) in t.roleIds || GivesRoleId(f, id, role, op, x))
      && ((sub, op, x) in t'.userIds <==> (sub, op, x) in t.userIds || GivesUserId(f, id, sub, op, x))
  {
    hide SharedOverlay, FileOperations, FileUsers;
  }

  // ---- In the shared store ----

  /** Users and operations are those there were and those some file gives; an operation keeps its resource, and a new
      one has the resource its name spells out. Resources are those there were, those listed, and those of new
      operations. */
  ghost predicate SharedHas(s: SharedState, files: seq<BootstrapFile>, s': SharedState) {
    && (forall u :: u in s'.users <==> u in s.users || exists f :: f in files && GivesUser(f, u))
    && (forall op :: op in s'.operations <==> op in s.operations || exists f :: f in files && GivesOperation(f, op))
    && (forall op :: op in s'.operations ==>
          s'.operations[op] == if op in s.operations then s.operations[op] else OperationResource(op))
    && (forall n :: n in s'.resources <==>
          || n in s.resources
          || (exists f :: f in files && n in f.resources)
          || exists op :: op in s'.operations && op !in s.operations && n == OperationResource(op))
  }

  lemma {:induction false} SyncedSharedHasExactly(w: World, files: seq<BootstrapFile>)
    ensures SharedHas(w.shared, files, Synced(w, files).shared)
  {
    hide SharedHas, SyncedFile;
    if files == [] {
      NothingGiven(w.shared);
    } else {
      var init, f := files[..|files| - 1], files[|files| - 1];
      SyncedSharedHasExactly(w, init);
      assert files == init + [f];
      FileSharedHasExactly(Synced(w, init), f);
      OneFileMore(w.shared, init, Synced(w, init).shared, f, Synced(w, files).shared);
    }
  }

  lemma NothingGiven(s: SharedState)
    ensures SharedHas(s, [], s)
  {
  }

  lemma FileSharedHasExactly(w: World, f: BootstrapFile)
    ensures SharedHas(w.shared, [f], SyncedFile(w, f).shared)
  {
    hide TenantDelta, GivesUser, GivesOperation, OperationResource;
    assert f in [f];
    forall u ensures u in FileUsers(f) <==> GivesUser(f, u) {
      UserGiven(f, u);
    }
    forall op ensures op in FileOperations(f) <==> GivesOperation(f, op) {
      OperationGiven(f, op);
    }
    hide FileUsers, FileOperations;
  }

  lemma UserGiven(f: BootstrapFile, u: string)
    ensures u in FileUsers(f) <==> GivesUser(f, u)
  {
  }

  lemma OperationGiven(f: BootstrapFile, op: string)
    ensures op in FileOperations(f) <==> GivesOperation(f, op)
  {
  }

  lemma OneFileMore(a: SharedState, files: seq<BootstrapFile>, b: SharedState, f: BootstrapFile, c: SharedState)
    requires SharedHas(a, files, b) && SharedHas(b, [f], c)
    ensures SharedHas(a, files + [f], c)
  {
    hide GivesUser, GivesOperation, OperationResource;
    var all := files + [f];
    assert forall g :: g in all <==> g in files || g == f;
    assert forall g :: g in [f] <==> g == f;
  }
}
