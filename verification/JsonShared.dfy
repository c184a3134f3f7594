/** The shared store kept as one JSON document: two sorted lists and a map, saved whole after every change. */
module JsonShared {
  import opened Model
  import opened Strings
  import opened SharedSpec
  import opened SharedAnswers

  /** The document, in memory and on disk. None of its fields is ever left out. */
  datatype SharedDocument = SharedDocument(users: seq<string>, resources: seq<string>, operations: map<string, string>)

  ghost predicate Sorted(d: SharedDocument) {
    StrictlySorted(d.users) && StrictlySorted(d.resources)
  }

  ghost predicate Represents(d: SharedDocument, s: SharedState) {
    && (forall x :: x in d.users <==> x in s.users)
    && (forall x :: x in d.resources <==> x in s.resources)
    && d.operations == s.operations
  }

  class JsonSharedStore {
    var users: seq<string>
    var resources: seq<string>
    var operations: map<string, string>
    var file: Option<SharedDocument>
    ghost var abs: SharedState

    function Document(): SharedDocument
      reads this
    {
      SharedDocument(users, resources, operations)
    }

    ghost predicate Consistent()
      reads this
    {
      Sorted(Document()) && Represents(Document(), abs)
    }

    /** What is on disk always denotes what is in memory; before the first save there is nothing in either. */
    ghost predicate Valid()
      reads this
    {
      && Consistent()
      && (file.None? ==> abs == NO_SHARED_DATA)
      && (file.Some? ==> Sorted(file.value) && Represents(file.value, abs))
    }

    /** Opens the store from a saved document, or empty when there is none. */
    constructor Open(saved: Option<SharedDocument>, ghost state: SharedState)
      requires saved.None? ==> state == NO_SHARED_DATA
      requires saved.Some? ==> Sorted(saved.value) && Represents(saved.value, state)
      ensures Valid() && abs == state && file == saved
    {
      file := saved;
      abs := state;
      if saved.None? {
        users, resources, operations := [], [], map[];
      } else {
        users, resources, operations := saved.value.users, saved.value.resources, saved.value.operations;
      }
    }

    method Persist()
      requires Consistent()
      modifies this`file
      ensures Valid()
    {
      file := Some(Document());
    }

    method EnsureUser(sub: string) returns (err: Error)
      requires Valid()
      modifies this
      ensures Valid() && SharedOutcome(abs, err) == SharedStep(old(abs), SharedCall.EnsureUser(sub))
    {
      abs := SharedStep(abs, SharedCall.EnsureUser(sub)).state;
      if sub in users {
        return Ok;
      }
      users := InsertSorted(users, sub);
      Persist();
      return Ok;
    }

    method CreateResource(name: string) returns (err: Error)
      requires Valid()
      modifies this
      ensures Valid() && SharedOutcome(abs, err) == SharedStep(old(abs), SharedCall.CreateResource(name))
    {
      if name in resources {
        return Conflict;
      }
      abs := SharedStep(abs, SharedCall.CreateResource(name)).state;
      resources := InsertSorted(resources, name);
      Persist();
      return Ok;
    }

    method EnsureResource(name: string) returns (err: Error)
      requires Valid()
      modifies this
      ensures Valid() && SharedOutcome(abs, err) == SharedStep(old(abs), SharedCall.EnsureResource(name))
    {
      abs := SharedStep(abs, SharedCall.EnsureResource(name)).state;
      if name in resources {
        return Ok;
      }
      resources := InsertSorted(resources, name);
      Persist();
      return Ok;
    }

    method DeleteResource(name: string) returns (err: Error)
      requires Valid()
      modifies this
      ensures Valid() && SharedOutcome(abs, err) == SharedStep(old(abs), SharedCall.DeleteResource(name))
    {
      var rest, ok := RemoveString(resources, name);
      if !ok {
        return NotFound;
      }
      resources := rest;
      var todo := operations.Keys;
      while todo != {}
        modifies this`operations
        invariant todo <= old(operations).Keys
        invariant operations == map op | op in old(operations)
          && (op in todo || old(operations)[op] != name) :: old(operations)[op]
        decreases todo
      {
        var op :| op in todo;
        todo := todo - {op};
        if operations[op] == name {
          operations := operations - {op};
        }
      }
      abs := SharedStep(abs, SharedCall.DeleteResource(name)).state;
      Persist();
      return Ok;
    }

    method CreateOperation(name: string, resource: string) returns (err: Error)
      requires Valid()
      modifies this
      ensures Valid() && SharedOutcome(abs, err) == SharedStep(old(abs), SharedCall.CreateOperation(name, resource))
    {
      if name in operations {
        return Conflict;
      }
      abs := SharedStep(abs, SharedCall.CreateOperation(name, resource)).state;
      if resource !in resources {
        resources := InsertSorted(resources, resource);
      }
      operations := operations[name := resource];
      Persist();
      return Ok;
    }

    method EnsureOperation(name: string, resource: string) returns (err: Error)
      requires Valid()
      modifies this
      ensures Valid() && SharedOutcome(abs, err) == SharedStep(old(abs), SharedCall.EnsureOperation(name, resource))
    {
      if name in operations {
        return Ok;
      }
      abs := SharedStep(abs, SharedCall.EnsureOperation(name, resource)).state;
      if resource !in resources {
        resources := InsertSorted(resources, resource);
      }
      operations := operations[name := resource];
      Persist();
      return Ok;
    }

    method DeleteOperation(name: string) returns (err: Error)
      requires Valid()
      modifies this
      ensures Valid() && SharedOutcome(abs, err) == SharedStep(old(abs), SharedCall.DeleteOperation(name))
    {
      if name !in operations {
        return NotFound;
      }
      abs := SharedStep(abs, SharedCall.DeleteOperation(name)).state;
      operations := operations - {name};
      Persist();
      return Ok;
    }

    method OperationExists(name: string) returns (r: bool)
      requires Valid()
      ensures r <==> name in abs.operations
    {
      r := name in operations;
    }

    method ListUsers() returns (r: seq<string>)
      requires Valid()
      ensures NamesAnswer(r, abs.users)
    {
      r := [];
      for i := 0 to |users|
        invariant r == users[..i]
      {
        r := r + [users[i]];
      }
    }

    method ListResources() returns (r: seq<string>)
      requires Valid()
      ensures NamesAnswer(r, abs.resources)
    {
      r := [];
      for i := 0 to |resources|
        invariant r == resources[..i]
      {
        r := r + [resources[i]];
      }
    }

    method ListOperations() returns (r: seq<Operation>)
      requires Valid()
      ensures RegisterAnswer(r, abs)
    {
      hide StrictlySorted;
      var names := SortedElements(operations.Keys);
      r := [];
      for i := 0 to |names|
        invariant |r| == i
        invariant forall k :: 0 <= k < i ==> names[k] in operations && r[k] == Operation(names[k], operations[names[k]])
      {
        assert names[i] in names;
        r := r + [Operation(names[i], operations[names[i]])];
      }
      ListedByName(r, names, abs);
    }

    method Do(c: SharedCall) returns (err: Error)
      requires Valid()
      modifies this
      ensures Valid() && SharedOutcome(abs, err) == SharedStep(old(abs), c)
    {
      match c {
        case EnsureUser(sub) => err := EnsureUser(sub);
        case CreateResource(name) => err := CreateResource(name);
        case EnsureResource(name) => err := EnsureResource(name);
        case DeleteResource(name) => err := DeleteResource(name);
        case CreateOperation(name, resource) => err := CreateOperation(name, resource);
        case EnsureOperation(name, resource) => err := EnsureOperation(name, resource);
        case DeleteOperation(name) => err := DeleteOperation(name);
      }
    }

    /** Closing the store and opening it again from what it last saved changes nothing a caller can see. */
    method Reopen() returns (again: JsonSharedStore)
      requires Valid()
      ensures fresh(again) && again.Valid() && again.abs == abs
      ensures again.users == users && again.resources == resources && again.operations == operations
    {
      again := new JsonSharedStore.Open(file, abs);
      SortedListIsCanonical(again.users, users);
      SortedListIsCanonical(again.resources, resources);
    }
  }
}
