/** The shared store and every tenant's store, as the service holds them. */
module AllStores {
  import opened Model
  import opened Strings
  import opened SharedSpec
  import opened TenantSpec
  import opened ServiceSpec
  import opened Drivers
  import Admin
  import TenantDocument
  import SqlTables

  datatype Stores = Stores(shared: SharedStore, tenants: map<string, TenantStore>) {

    ghost function Roots(): set<object> {
      {shared.Root()} + set id | id in tenants :: tenants[id].Root()
    }

    ghost function Repr(): set<object>
      reads Roots()
    {
      {shared.Root()} + set id, o | id in tenants && o in tenants[id].Repr() :: o
    }

    /** Every store is in order, and no two share anything. */
    ghost predicate Valid()
      reads Roots(), Repr()
    {
      && shared.Valid()
      && (forall id :: id in tenants ==> Admin.Ready(shared, tenants[id]))
      && (forall a, b :: a in tenants && b in tenants && a != b ==> tenants[a].Repr() !! tenants[b].Repr())
    }

    ghost function Abs(): World
      requires Valid()
      reads Roots(), Repr()
    {
      World(shared.Abs(), map id | id in tenants :: tenants[id].Abs())
    }

    lemma RootsInRepr()
      ensures Roots() <= Repr()
    {
      forall o | o in Roots() ensures o in Repr() {
        if o != shared.Root() {
          var id :| id in tenants && o == tenants[id].Root();
          assert o in tenants[id].Repr();
        }
      }
    }

    lemma TenantInRepr(id: string)
      requires id in tenants
      ensures tenants[id].Repr() <= Repr()
    {
    }

    lemma TenantsOf()
      requires Valid()
      ensures Abs().tenants.Keys == tenants.Keys
    {
    }

    lemma TenantOf(id: string)
      requires Valid() && id in tenants
      ensures tenants[id].Valid() && id in Abs().tenants && tenants[id].Abs() == Abs().tenants[id]
    {
      hide TenantDocument.Denotes, TenantDocument.Lean, SqlTables.Intact, SqlTables.Meaning;
    }

    method OnShared(c: SharedCall) returns (err: Error)
      requires Valid()
      modifies Repr()
      ensures Valid() && Repr() == old(Repr())
      ensures WorldOutcome(Abs(), err) == ServiceSpec.OnShared(old(Abs()), SharedStep(old(Abs()).shared, c))
    {
      hide TenantDocument.Denotes, TenantDocument.Lean, SqlTables.Intact, SqlTables.Meaning, SharedStep;
      err := shared.Do(c);
      assert forall id :: id in tenants ==> tenants[id].Repr() == old(tenants[id].Repr());
      assert forall id :: id in tenants ==> tenants[id].Valid() && tenants[id].Abs() == old(tenants[id].Abs());
    }

    /** One tenant's call leaves every other tenant's store as it was. */
    method InTenant(id: string, c: AdminCall) returns (err: Error)
      requires Valid() && id in tenants
      modifies shared.Root(), tenants[id].Repr()
      ensures shared.Valid() && Admin.Ready(shared, tenants[id]) && fresh(tenants[id].Repr() - old(tenants[id].Repr()))
      ensures AdminOutcome(shared.Abs(), tenants[id].Abs(), err)
           == AdminStep(old(shared.Abs()), old(tenants[id].Abs()), c)
      ensures forall other :: other in tenants && other != id ==>
        && Admin.Ready(shared, tenants[other]) && tenants[other].Abs() == old(tenants[other].Abs())
        && tenants[other].Repr() == old(tenants[other].Repr()) && tenants[other].Repr() !! tenants[id].Repr()
    {
      hide TenantDocument.Denotes, TenantDocument.Lean, SqlTables.Intact, SqlTables.Meaning, AdminStep;
      err := Admin.OnTenant(shared, tenants[id], c);
    }

    method OnOneTenant(id: string, c: AdminCall) returns (err: Error)
      requires Valid() && id in tenants
      modifies Repr()
      ensures Valid() && forall o :: o in Repr() && o !in old(Repr()) ==> fresh(o)
      ensures Abs().tenants.Keys == old(Abs()).tenants.Keys == tenants.Keys
      ensures AdminOutcome(Abs().shared, Abs().tenants[id], err)
           == AdminStep(old(Abs()).shared, old(Abs()).tenants[id], c)
      ensures forall other :: other in tenants && other != id ==> Abs().tenants[other] == old(Abs()).tenants[other]
    {
      hide AdminStep, SharedStore.Valid, SharedStore.Abs, TenantStore.Valid, TenantStore.Abs, TenantStore.Repr,
        TenantDocument.Denotes, TenantDocument.Lean, SqlTables.Intact, SqlTables.Meaning;
      err := InTenant(id, c);
      assert forall a, b :: a in tenants && b in tenants && a != b && a != id && b != id ==>
        tenants[a].Repr() !! tenants[b].Repr();
    }

    method OnTenant(id: string, c: AdminCall) returns (err: Error)
      requires Valid() && id in tenants
      modifies Repr()
      ensures Valid() && forall o :: o in Repr() && o !in old(Repr()) ==> fresh(o)
      ensures WorldOutcome(Abs(), err) == ServiceStep(old(Abs()), ServiceCall.OnTenant(id, c))
    {
      hide AdminStep, Stores.Valid, Stores.Abs, Stores.Repr;
      err := OnOneTenant(id, c);
      assert Abs().tenants == old(Abs()).tenants[id := Abs().tenants[id]];
    }

    /** Puts names in order while the stores look on. */
    method InOrder(names: set<string>) returns (r: seq<string>)
      requires Valid()
      ensures Valid() && Repr() == old(Repr()) && Abs() == old(Abs())
      ensures StrictlySorted(r) && forall n :: n in r <==> n in names
    {
      hide TenantDocument.Denotes, TenantDocument.Lean, SqlTables.Intact, SqlTables.Meaning, StrictlySorted;
      r := SortedElements(names);
      assert shared.Valid() && shared.Abs() == old(shared.Abs());
      assert forall id :: id in tenants ==> tenants[id].Repr() == old(tenants[id].Repr());
      assert forall id :: id in tenants ==> tenants[id].Valid() && tenants[id].Abs() == old(tenants[id].Abs());
    }

    method TenantIDs() returns (ids: seq<string>)
      requires Valid()
      ensures Valid() && Repr() == old(Repr()) && Abs() == old(Abs())
      ensures StrictlySorted(ids) && forall id :: id in ids <==> id in tenants
    {
      hide Stores.Valid, Stores.Abs, Stores.Repr, StrictlySorted;
      ids := InOrder(tenants.Keys);
    }

    // ---- Restarting ----

    method ReopenShared() returns (store: SharedStore)
      requires Valid()
      ensures Valid() && Abs() == old(Abs())
      ensures store.Valid() && fresh(store.Root()) && store.Abs() == old(Abs()).shared
    {
      hide TenantDocument.Denotes, TenantDocument.Lean, SqlTables.Intact, SqlTables.Meaning;
      store := shared.Reopen();
      assert forall id :: id in tenants ==> tenants[id].Repr() == old(tenants[id].Repr());
      assert forall id :: id in tenants ==> tenants[id].Valid() && tenants[id].Abs() == old(tenants[id].Abs());
    }

    static lemma NoTenants(store: SharedStore)
      requires store.Valid()
      ensures var alone := Stores(store, map[]);
        alone.Valid() && alone.Repr() == {store.Root()} && alone.Abs() == World(store.Abs(), map[])
    {
    }

    method ReopenTenant(id: string) returns (store: TenantStore)
      requires Valid() && id in tenants
      ensures Valid() && Repr() == old(Repr()) && Abs() == old(Abs())
      ensures store.Valid() && fresh(store.Repr())
      ensures id in old(Abs()).tenants && store.Abs() == old(Abs()).tenants[id]
    {
      hide TenantDocument.Denotes, TenantDocument.Lean, SqlTables.Intact, SqlTables.Meaning;
      store := tenants[id].Reopen();
      assert forall x :: x in tenants ==> tenants[x].Repr() == old(tenants[x].Repr());
      assert forall x :: x in tenants ==> tenants[x].Valid() && tenants[x].Abs() == old(tenants[x].Abs());
    }

    method ReopenBeside(done: Stores, id: string) returns (store: TenantStore)
      requires Valid() && done.Valid() && id in tenants
      ensures Valid() && Abs() == old(Abs())
      ensures done.Valid() && done.Repr() == old(done.Repr()) && done.Abs() == old(done.Abs())
      ensures store.Valid() && fresh(store.Repr()) && store.Repr() !! done.Repr()
      ensures id in old(Abs()).tenants && store.Abs() == old(Abs()).tenants[id]
    {
      hide TenantDocument.Denotes, TenantDocument.Lean, SqlTables.Intact, SqlTables.Meaning, Stores.Valid, Stores.Abs;
      done.RootsInRepr();
      store := ReopenTenant(id);
    }

    /** Adds one tenant's store, reopened, to those reopened before. */
    method ReopenOne(done: Stores, id: string) returns (more: Stores)
      requires Valid() && done.Valid() && id in tenants && id !in done.tenants
      ensures Valid() && Abs() == old(Abs())
      ensures more.Valid() && forall o :: o in more.Repr() && o !in old(done.Repr()) ==> fresh(o)
      ensures more.tenants.Keys == done.tenants.Keys + {id} && id in old(Abs()).tenants
      ensures more.Abs() == World(old(done.Abs()).shared, old(done.Abs()).tenants[id := old(Abs()).tenants[id]])
    {
      hide Stores.Valid, Stores.Abs, Stores.Repr;
      var store := ReopenBeside(done, id);
      more := Stores(done.shared, done.tenants[id := store]);
      done.With(id, store);
    }

    /** One store more, which shares nothing with the others. */
    lemma With(id: string, store: TenantStore)
      requires Valid() && id !in tenants && store.Valid() && store.Repr() !! Repr()
      ensures var more := Stores(shared, tenants[id := store]);
        && more.Valid() && more.Repr() == Repr() + store.Repr()
        && more.Abs() == World(Abs().shared, Abs().tenants[id := store.Abs()])
    {
      hide TenantDocument.Denotes, TenantDocument.Lean, SqlTables.Intact, SqlTables.Meaning, SharedStore.Valid,
        SharedStore.Abs, TenantStore.Valid, TenantStore.Abs, TenantStore.Repr;
      var more := Stores(shared, tenants[id := store]);
      assert forall x :: x in more.tenants && x != id ==> more.tenants[x] == tenants[x];
      assert more.tenants[id] == store;
      forall o ensures o in more.Repr() <==> o in Repr() || o in store.Repr() {
      }
    }

    /** Closes every store and opens it again from what it keeps. */
    method Reopen() returns (again: Stores)
      requires Valid()
      ensures again.Valid() && fresh(again.Repr())
      ensures again.Abs() == old(Abs()) && again.tenants.Keys == tenants.Keys
    {
      hide Stores.Valid, Stores.Abs, Stores.Repr;
      TenantsOf();
      var store := ReopenShared();
      NoTenants(store);
      again := Stores(store, map[]);
      var todo := tenants.Keys;
      while todo != {}
        invariant Valid() && Abs() == old(Abs())
        invariant again.Valid() && fresh(again.Repr())
        invariant todo <= tenants.Keys && again.tenants.Keys == tenants.Keys - todo
        invariant again.Abs().shared == Abs().shared && again.Abs().tenants.Keys == again.tenants.Keys
        invariant Abs().tenants.Keys == tenants.Keys
        invariant forall id :: id in again.tenants ==> again.Abs().tenants[id] == Abs().tenants[id]
        decreases todo
      {
        var id :| id in todo;
        again := ReopenOne(again, id);
        todo := todo - {id};
      }
    }

    /** One administrative call. */
    method Do(c: ServiceCall) returns (err: Error)
      requires Valid()
      modifies Repr()
      ensures Valid() && forall o :: o in Repr() && o !in old(Repr()) ==> fresh(o)
      ensures WorldOutcome(Abs(), err) == ServiceStep(old(Abs()), c)
    {
      match c {
        case EnsureUser(sub) =>
          if sub == "" {
            return Validation;
          }
          err := OnShared(SharedCall.EnsureUser(sub));
        case CreateResource(name) =>
          if name == "" {
            return Validation;
          }
          err := OnShared(SharedCall.CreateResource(name));
        case EnsureResource(name) =>
          err := OnShared(SharedCall.EnsureResource(name));
        case DeleteResource(name) =>
          err := OnShared(SharedCall.DeleteResource(name));
        case CreateOperation(name) =>
          var resource := OperationResource(name);
          if resource == "" {
            return Validation;
          }
          err := OnShared(SharedCall.CreateOperation(name, resource));
        case EnsureOperation(name) =>
          var resource := OperationResource(name);
          if resource == "" {
            return Validation;
          }
          err := OnShared(SharedCall.EnsureOperation(name, resource));
        case DeleteOperation(name) =>
          err := OnShared(SharedCall.DeleteOperation(name));
        case OnTenant(id, call) =>
          if id !in tenants {
            return NotFound;
          }
          err := OnTenant(id, call);
      }
    }
  }
}
