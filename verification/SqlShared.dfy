/** The relational shared store: three tables with unique names. */
module SqlShared {
  import opened Model
  import opened Strings
  import opened SharedSpec
  import opened SharedAnswers
  import opened SqlTables
  import opened SqlTenant

  datatype OperationRow = OperationRow(name: string, resource: string)

  datatype SharedTables = SharedTables(
    users: map<Key, string>,
    resources: map<Key, string>,
    operations: map<Key, OperationRow>)

  ghost predicate UniqueOperations(rows: map<Key, OperationRow>) {
    forall a, b :: a in rows && b in rows && rows[a].name == rows[b].name ==> a == b
  }

  ghost predicate SharedIntact(db: SharedTables) {
    NoTwoAlike(db.users) && NoTwoAlike(db.resources) && UniqueOperations(db.operations)
  }

  ghost function ResourceOf(rows: map<Key, OperationRow>, name: string): string
    requires exists k :: k in rows && rows[k].name == name
  {
    var k :| k in rows && rows[k].name == name;
    rows[k].resource
  }

  ghost function Operations(rows: map<Key, OperationRow>): map<string, string> {
    map name | name in (set k | k in rows :: rows[k].name) :: ResourceOf(rows, name)
  }

  ghost predicate AreOperations(g: map<string, string>, rows: map<Key, OperationRow>) {
    && (forall k :: k in rows ==> rows[k].name in g)
    && (forall k :: k in rows && rows[k].name in g ==> g[rows[k].name] == rows[k].resource)
    && (forall x :: x in g ==> exists k :: k in rows && x == rows[k].name)
  }

  lemma OperationsAreOperations(rows: map<Key, OperationRow>)
    requires UniqueOperations(rows)
    ensures AreOperations(Operations(rows), rows)
  {
  }

  lemma OperationsFromRows(g: map<string, string>, rows: map<Key, OperationRow>)
    requires UniqueOperations(rows) && AreOperations(g, rows)
    ensures g == Operations(rows)
  {
    assert forall x :: x in g <==> x in Operations(rows);
  }

  lemma OperationInserted(rows: map<Key, OperationRow>, k: Key, name: string, resource: string)
    requires UniqueOperations(rows) && k !in rows && forall j :: j in rows ==> rows[j].name != name
    ensures UniqueOperations(rows[k := OperationRow(name, resource)])
    ensures Operations(rows[k := OperationRow(name, resource)]) == Operations(rows)[name := resource]
  {
    hide Operations;
    var after := rows[k := OperationRow(name, resource)];
    OperationsAreOperations(rows);
    var now := Operations(rows)[name := resource];
    forall x | x in now ensures exists j :: j in after && x == after[j].name {
      if x == name {
        assert k in after;
      } else {
        var j :| j in rows && x == rows[j].name;
        assert j in after && after[j] == rows[j];
      }
    }
    OperationsFromRows(now, after);
  }

  lemma OperationRowKnown(rows: map<Key, OperationRow>, name: string)
    requires UniqueOperations(rows)
    ensures name in Operations(rows) <==> exists k :: k in rows && rows[k].name == name
  {
  }

  /** Deleting the rows that fail a test leaves the operations that pass it. */
  lemma OperationsDeleted(rows: map<Key, OperationRow>, after: map<Key, OperationRow>, now: map<string, string>)
    requires UniqueOperations(rows) && after.Keys <= rows.Keys && forall k :: k in after ==> after[k] == rows[k]
    requires now.Keys <= Operations(rows).Keys && forall x :: x in now ==> now[x] == Operations(rows)[x]
    requires forall k :: k in rows ==> (k in after <==> rows[k].name in now)
    ensures UniqueOperations(after) && Operations(after) == now
  {
    hide Operations;
    OperationsAreOperations(rows);
    forall x | x in now ensures exists k :: k in after && x == after[k].name {
      var k :| k in rows && x == rows[k].name;
      assert k in after;
    }
    OperationsFromRows(now, after);
  }

  method InsertName(rows: map<Key, string>, name: string) returns (after: map<Key, string>, inserted: bool)
    requires NoTwoAlike(rows)
    ensures NoTwoAlike(after) && after.Values == rows.Values + {name}
    ensures inserted <==> name !in rows.Values
  {
    if name in rows.Values {
      assert rows.Values + {name} == rows.Values;
      return rows, false;
    }
    var k := FreshKey(rows);
    RoleNameInserted(rows, k, name);
    return rows[k := name], true;
  }

  class SqlSharedStore {
    var db: SharedTables

    ghost predicate Valid()
      reads this
    {
      SharedIntact(db)
    }

    ghost function Abs(): SharedState
      reads this
    {
      SharedState(db.users.Values, db.resources.Values, Operations(db.operations))
    }

    constructor Open(existing: Option<SharedTables>)
      requires existing.Some? ==> SharedIntact(existing.value)
      ensures Valid() && if existing.Some? then db == existing.value else Abs() == NO_SHARED_DATA
    {
      db := if existing.Some? then existing.value else SharedTables(map[], map[], map[]);
    }

    method EnsureUser(sub: string) returns (err: Error)
      requires Valid()
      modifies this
      ensures Valid() && SharedOutcome(Abs(), err) == SharedStep(old(Abs()), SharedCall.EnsureUser(sub))
    {
      var rows, _ := InsertName(db.users, sub);
      db := db.(users := rows);
      return Ok;
    }

    method CreateResource(name: string) returns (err: Error)
      requires Valid()
      modifies this
      ensures Valid() && SharedOutcome(Abs(), err) == SharedStep(old(Abs()), SharedCall.CreateResource(name))
    {
      var rows, inserted := InsertName(db.resources, name);
      if !inserted {
        return Conflict;
      }
      db := db.(resources := rows);
      return Ok;
    }

    method EnsureResource(name: string) returns (err: Error)
      requires Valid()
      modifies this
      ensures Valid() && SharedOutcome(Abs(), err) == SharedStep(old(Abs()), SharedCall.EnsureResource(name))
    {
      var rows, _ := InsertName(db.resources, name);
      db := db.(resources := rows);
      return Ok;
    }

    method DeleteResource(name: string) returns (err: Error)
      requires Valid()
      modifies this
      ensures Valid() && SharedOutcome(Abs(), err) == SharedStep(old(Abs()), SharedCall.DeleteResource(name))
    {
      var hits := set k | k in db.resources && db.resources[k] == name;
      assert forall k :: k in db.resources && db.resources[k] == name ==> k in hits;
      if hits == {} {
        return NotFound;
      }
      var i :| i in hits;
      RoleNameDeleted(db.resources, i);
      assert db.resources - hits == db.resources - {i};
      var rest := map k | k in db.operations && db.operations[k].resource != name :: db.operations[k];
      OperationsAreOperations(db.operations);
      OperationsDeleted(db.operations, rest, WithoutResource(Abs(), name).operations);
      db := db.(resources := db.resources - hits, operations := rest);
      return Ok;
    }

    /** Both inserts happen, or neither: a name that is taken rolls the new resource back. */
    method CreateOperation(name: string, resource: string) returns (err: Error)
      requires Valid()
      modifies this
      ensures Valid() && SharedOutcome(Abs(), err) == SharedStep(old(Abs()), SharedCall.CreateOperation(name, resource))
    {
      var begun := db;
      var rows, _ := InsertName(db.resources, resource);
      db := db.(resources := rows);
      OperationRowKnown(db.operations, name);
      if exists k :: k in db.operations && db.operations[k].name == name {
        db := begun;
        return Conflict;
      }
      var k := FreshKey(db.operations);
      OperationInserted(db.operations, k, name, resource);
      db := db.(operations := db.operations[k := OperationRow(name, resource)]);
      return Ok;
    }

    method EnsureOperation(name: string, resource: string) returns (err: Error)
      requires Valid()
      modifies this
      ensures Valid() && SharedOutcome(Abs(), err) == SharedStep(old(Abs()), SharedCall.EnsureOperation(name, resource))
    {
      err := CreateOperation(name, resource);
      if err == Conflict {
        err := Ok;
      }
    }

    method DeleteOperation(name: string) returns (err: Error)
      requires Valid()
      modifies this
      ensures Valid() && SharedOutcome(Abs(), err) == SharedStep(old(Abs()), SharedCall.DeleteOperation(name))
    {
      var rest := map k | k in db.operations && db.operations[k].name != name :: db.operations[k];
      OperationRowKnown(db.operations, name);
      if rest == db.operations {
        assert forall k :: k in rest ==> rest[k].name != name;
        return NotFound;
      }
      assert exists k :: k in db.operations && k !in rest;
      OperationsAreOperations(db.operations);
      OperationsDeleted(db.operations, rest, Operations(db.operations) - {name});
      db := db.(operations := rest);
      return Ok;
    }

    method OperationExists(name: string) returns (r: bool)
      requires Valid()
      ensures r <==> name in Abs().operations
    {
      OperationRowKnown(db.operations, name);
      r := exists k :: k in db.operations && db.operations[k].name == name;
    }

    method ListUsers() returns (r: seq<string>)
      requires Valid()
      ensures NamesAnswer(r, Abs().users)
    {
      r := SortedElements(db.users.Values);
    }

    method ListResources() returns (r: seq<string>)
      requires Valid()
      ensures NamesAnswer(r, Abs().resources)
    {
      r := SortedElements(db.resources.Values);
    }

    method ListOperations() returns (r: seq<Operation>)
      requires Valid()
      ensures RegisterAnswer(r, Abs())
    {
      hide StrictlySorted, RegisterAnswer, Operations;
      var names := SortedElements(set k | k in db.operations :: db.operations[k].name);
      ghost var register := Abs().operations;
      OperationsAreOperations(db.operations);
      assert forall n :: n in names <==> n in register;
      r := [];
      for i := 0 to |names|
        invariant |r| == i
        invariant forall k :: 0 <= k < i ==> r[k] == Operation(names[k], register[names[k]])
      {
        assert names[i] in names;
        var k :| k in db.operations && db.operations[k].name == names[i];
        r := r + [Operation(names[i], db.operations[k].resource)];
      }
      ListedByName(r, names, Abs());
    }

    /** The database outlives the connection to it. */
    method Reopen() returns (again: SqlSharedStore)
      requires Valid()
      ensures fresh(again) && again.Valid() && again.Abs() == Abs()
    {
      again := new SqlSharedStore.Open(Some(db));
    }

    method Do(c: SharedCall) returns (err: Error)
      requires Valid()
      modifies this
      ensures Valid() && SharedOutcome(Abs(), err) == SharedStep(old(Abs()), c)
    {
      match c {
        case EnsureUser(sub) => err := EnsureUser(sub);
        case CreateResource(name) => err := CreateResource(name);
        case EnsureResource(name) => err := EnsureResource(name);
        case DeleteResource(name) => err := DeleteResource(name);
        case CreateOperation(name, resource) => err := CreateOperation(name, resource);
        case EnsureOperation(name, resource) => err := EnsureOperation(name, resource);
        case DeleteOperation(name) => err := DeleteOperation(name);
      }
    }
  }
}
