/** Scopes, operation names and the meta operations Sforza guards itself with. */
module Model {

  /** A scope is a piece of text; three spellings are supported, any other one is kept as it came. */
  datatype Scope = FULL | EMPTY | RESTRICTED | Unsupported(text: string)

  predicate ValidScope(s: Scope) {
    !s.Unsupported?
  }

  /** FULL > RESTRICTED > EMPTY. */
  function Rank(s: Scope): nat {
    if s.FULL? then 2 else if s.RESTRICTED? then 1 else 0
  }

  datatype OperationScope = OperationScope(operation: string, scope: Scope)

  datatype Operation = Operation(name: string, resource: string)

  datatype RoleGrant = RoleGrant(role: string, operation: string, scope: Scope)

  datatype Error = Ok | NotFound | Conflict | Validation

  datatype Option<+T> = None | Some(value: T)

  /** The text before the first colon, or all of it when there is none. */
  function BeforeColon(s: string): (r: string)
    ensures r <= s && ':' !in r
    ensures r == s || s[|r|] == ':'
  {
    if s == "" || s[0] == ':' then "" else [s[0]] + BeforeColon(s[1..])
  }

  /** The resource of an operation named "resource:action", "" when the name has no such shape. */
  function OperationResource(operation: string): (res: string)
    ensures res != "" ==> ':' !in res && res + ":" <= operation
    ensures res == "" <==> operation == "" || ':' !in operation || operation[0] == ':'
  {
    var res := BeforeColon(operation);
    if res == operation then "" else res
  }

  /** The resource is read back exactly from a name built out of one. */
  lemma ResourceOfName(name: string, res: string, action: string)
    requires res != "" && ':' !in res && name == res + ":" + action
    ensures OperationResource(name) == res
  {
    var r := BeforeColon(name);
    assert name[|res|] == ':' && name[|res|] in name;
    assert forall k :: 0 <= k < |res| ==> name[k] == res[k];
    assert forall k :: 0 <= k < |r| ==> name[k] == r[k];
    assert |r| == |res| && r == name[..|r|] == res;
  }

  const ADMIN_ROLE := "authorization:admin"

  /** Each meta operation with its meta resource. */
  const META_OPERATIONS: map<string, string> := map[
    "role:read" := "role",
    "role:write" := "role",
    "role:assign" := "role",
    "operation:read" := "operation",
    "operation:write" := "operation",
    "operation:assign" := "operation",
    "resource:read" := "resource",
    "resource:write" := "resource",
    "user:read" := "user"
  ]

  /** The table of meta resources is the one the names spell out, so bootstrapping never hits a malformed name. */
  lemma MetaOperationsAreWellNamed(op: string)
    requires op in META_OPERATIONS
    ensures OperationResource(op) == META_OPERATIONS[op] != ""
  {
    var res := META_OPERATIONS[op];
    var action := op[|res| + 1..];
    assert ':' !in res && op == res + ":" + action;
    ResourceOfName(op, res, action);
  }

  const READABLE := {"role", "operation", "resource", "user"}
  const WRITABLE := {"role", "operation", "resource"}
  const ASSIGNABLE := {"role", "operation"}

  /** What the service guards: reading roles, operations, resources and users, writing the first three, assigning
      the first two. */
  predicate Guarded(res: string, act: string) {
    (act == "read" && res in READABLE) || (act == "write" && res in WRITABLE) || (act == "assign" && res in ASSIGNABLE)
  }

  /** The meta operations are exactly the names of what the service guards. */
  lemma MetaOperationsExactly(op: string)
    ensures op in META_OPERATIONS <==> exists res, act :: Guarded(res, act) && op == res + ":" + act
  {
    hide META_OPERATIONS, Guarded;
    if op in META_OPERATIONS {
      var res, act := MetaIsGuarded(op);
    }
    if res, act :| Guarded(res, act) && op == res + ":" + act {
      GuardedIsMeta(res, act);
    }
  }

  lemma MetaIsGuarded(op: string) returns (res: string, act: string)
    requires op in META_OPERATIONS
    ensures Guarded(res, act) && op == res + ":" + act
  {
    res := META_OPERATIONS[op];
    act := op[|res| + 1..];
    assert op == res + ":" + act;
  }

  lemma GuardedIsMeta(res: string, act: string)
    requires Guarded(res, act)
    ensures res + ":" + act in META_OPERATIONS
  {
    if act == "read" {
      ReadIsMeta(res);
    } else if act == "write" {
      WriteIsMeta(res);
    } else {
      assert "role" + ":" + "assign" == "role:assign";
      assert "operation" + ":" + "assign" == "operation:assign";
    }
  }

  lemma ReadIsMeta(res: string)
    requires res in READABLE
    ensures res + ":" + "read" in META_OPERATIONS
  {
    assert "role" + ":" + "read" == "role:read";
    assert "operation" + ":" + "read" == "operation:read";
    assert "resource" + ":" + "read" == "resource:read";
    assert "user" + ":" + "read" == "user:read";
  }

  lemma WriteIsMeta(res: string)
    requires res in WRITABLE
    ensures res + ":" + "write" in META_OPERATIONS
  {
    assert "role" + ":" + "write" == "role:write";
    assert "operation" + ":" + "write" == "operation:write";
    assert "resource" + ":" + "write" == "resource:write";
  }
}
