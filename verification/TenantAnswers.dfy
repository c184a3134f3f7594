/** What each question to a tenant store may be answered with. Where a store promises an order the answer is
    unique; elsewhere it is unique up to order. */
module TenantAnswers {
  import opened Model
  import opened Strings
  import opened TenantSpec

  ghost predicate ListsRolesOf(r: seq<string>, t: TenantState, sub: string) {
    forall n :: n in r <==> (sub, n) in t.assignments
  }

  ghost predicate RolesAnswer(r: seq<string>, t: TenantState, sub: string) {
    StrictlySorted(r) && ListsRolesOf(r, t, sub)
  }

  ghost predicate SortedByOperation(r: seq<OperationScope>) {
    forall i, j :: 0 <= i < j < |r| ==> Less(r[i].operation, r[j].operation)
  }

  ghost predicate PermissionsAnswer(r: seq<OperationScope>, all: map<(string, string), Scope>, owner: string) {
    && SortedByOperation(r)
    && forall op, scope :: OperationScope(op, scope) in r <==> (owner, op) in all && all[(owner, op)] == scope
  }

  ghost predicate UserIdsAnswer(r: seq<string>, t: TenantState, sub: string, op: string) {
    NoDuplicates(r) && forall id :: id in r <==> (sub, op, id) in t.userIds
  }

  ghost predicate RoleIdsAnswer(r: seq<string>, t: TenantState, roles: seq<string>, op: string) {
    NoDuplicates(r) && forall id :: id in r <==> exists n :: n in roles && (n, op, id) in t.roleIds
  }

  predicate GrantHolds(t: TenantState, g: RoleGrant) {
    (g.role, g.operation) in t.grants && t.grants[(g.role, g.operation)] == g.scope
  }

  /** The grants of the roles named, in any order and with any repetitions. */
  ghost predicate GrantsAnswer(r: seq<RoleGrant>, t: TenantState, roles: seq<string>) {
    forall g :: g in r <==> g.role in roles && GrantHolds(t, g)
  }

  /** A grant for every time its role is named. */
  ghost predicate GrantsPerMention(r: seq<RoleGrant>, t: TenantState, roles: seq<string>) {
    forall g :: multiset(r)[g] == if GrantHolds(t, g) then multiset(roles)[g.role] else 0
  }

  /** A grant once, however often its role is named. */
  ghost predicate GrantsOnce(r: seq<RoleGrant>, t: TenantState, roles: seq<string>) {
    forall g :: multiset(r)[g] == if g.role in roles && GrantHolds(t, g) then 1 else 0
  }

  lemma RolesAnswerIsUnique(a: seq<string>, b: seq<string>, t: TenantState, sub: string)
    requires RolesAnswer(a, t, sub) && RolesAnswer(b, t, sub)
    ensures a == b
  {
    SortedListIsCanonical(a, b);
  }

  function Operations(r: seq<OperationScope>): (names: seq<string>)
    ensures |names| == |r| && forall i :: 0 <= i < |r| ==> names[i] == r[i].operation
  {
    seq(|r|, i requires 0 <= i < |r| => r[i].operation)
  }

  lemma {:induction false} SortedPermissionsAreCanonical(a: seq<OperationScope>, b: seq<OperationScope>)
    requires SortedByOperation(a) && SortedByOperation(b) && forall x :: x in a <==> x in b
    ensures a == b
  {
    var na, nb := Operations(a), Operations(b);
    forall n ensures n in na <==> n in nb {
      if n in na {
        var i :| 0 <= i < |na| && na[i] == n;
        assert a[i] in b;
        var j :| 0 <= j < |b| && b[j] == a[i];
        assert nb[j] == n;
      }
      if n in nb {
        var i :| 0 <= i < |nb| && nb[i] == n;
        assert b[i] in a;
        var j :| 0 <= j < |a| && a[j] == b[i];
        assert na[j] == n;
      }
    }
    SortedListIsCanonical(na, nb);
    SortedHasNoDuplicates(na);
    forall i | 0 <= i < |a| ensures a[i] == b[i] {
      assert a[i] in b;
      var j :| 0 <= j < |b| && b[j] == a[i];
      assert na[i] == nb[j] == na[j];
    }
  }

  lemma PermissionsAnswerIsUnique(a: seq<OperationScope>, b: seq<OperationScope>, all: map<(string, string), Scope>,
                                  owner: string)
    requires PermissionsAnswer(a, all, owner) && PermissionsAnswer(b, all, owner)
    ensures a == b
  {
    forall x ensures x in a <==> x in b {
      assert x == OperationScope(x.operation, x.scope);
    }
    SortedPermissionsAreCanonical(a, b);
  }

  /** Two duplicate-free lists of the same things are the same list up to order. */
  lemma {:induction false} SameElementsSameMultiset<T>(a: seq<T>, b: seq<T>)
    requires NoDuplicates(a) && NoDuplicates(b) && forall x :: x in a <==> x in b
    ensures multiset(a) == multiset(b)
  {
    forall x: T ensures multiset(a)[x] == multiset(b)[x] {
      CountInDistinct(a, x);
      CountInDistinct(b, x);
    }
  }

  lemma {:induction false} CountInDistinct<T>(s: seq<T>, x: T)
    requires NoDuplicates(s)
    ensures multiset(s)[x] == if x in s then 1 else 0
  {
    if s != [] {
      var n := |s| - 1;
      assert s == s[..n] + [s[n]];
      CountInDistinct(s[..n], x);
      assert s[n] !in s[..n];
    }
  }

  lemma IdsAnswersAgree(a: seq<string>, b: seq<string>, t: TenantState, roles: seq<string>, sub: string, op: string)
    ensures RoleIdsAnswer(a, t, roles, op) && RoleIdsAnswer(b, t, roles, op) ==> multiset(a) == multiset(b)
    ensures UserIdsAnswer(a, t, sub, op) && UserIdsAnswer(b, t, sub, op) ==> multiset(a) == multiset(b)
  {
    if (RoleIdsAnswer(a, t, roles, op) && RoleIdsAnswer(b, t, roles, op))
       || (UserIdsAnswer(a, t, sub, op) && UserIdsAnswer(b, t, sub, op)) {
      SameElementsSameMultiset(a, b);
    }
  }

  lemma CountedGrantsAreGrants(r: seq<RoleGrant>, t: TenantState, roles: seq<string>)
    requires GrantsPerMention(r, t, roles) || GrantsOnce(r, t, roles)
    ensures GrantsAnswer(r, t, roles)
  {
    forall g ensures g in r <==> g.role in roles && GrantHolds(t, g) {
      assert g in r <==> multiset(r)[g] > 0;
      assert g.role in roles <==> multiset(roles)[g.role] > 0;
    }
  }

  /** No role that has a grant is named twice. */
  ghost predicate GrantorsNamedOnce(t: TenantState, roles: seq<string>) {
    forall n, op :: (n, op) in t.grants ==> multiset(roles)[n] <= 1
  }

  /** Counting a role's grants every time it is named, and counting them once, come to the same exactly when no
      role that has a grant is named twice. */
  lemma GrantListsAgreeExactly(a: seq<RoleGrant>, b: seq<RoleGrant>, t: TenantState, roles: seq<string>)
    requires GrantsPerMention(a, t, roles) && GrantsOnce(b, t, roles)
    ensures multiset(a) == multiset(b) <==> GrantorsNamedOnce(t, roles)
  {
    if multiset(a) == multiset(b) {
      forall n, op | (n, op) in t.grants ensures multiset(roles)[n] <= 1 {
        var g := RoleGrant(n, op, t.grants[(n, op)]);
        assert GrantHolds(t, g);
        assert multiset(a)[g] == multiset(b)[g];
      }
    }
    if GrantorsNamedOnce(t, roles) {
      forall g ensures multiset(a)[g] == multiset(b)[g] {
        assert g.role in roles <==> multiset(roles)[g.role] > 0;
      }
    }
  }

  /** On one driver the lists always agree. */
  lemma GrantListsAgree(a: seq<RoleGrant>, b: seq<RoleGrant>, t: TenantState, roles: seq<string>)
    requires (GrantsPerMention(a, t, roles) && GrantsPerMention(b, t, roles))
      || (GrantsOnce(a, t, roles) && GrantsOnce(b, t, roles))
    ensures multiset(a) == multiset(b)
  {
    forall g ensures multiset(a)[g] == multiset(b)[g] {
    }
  }

  /** Lists a map of scopes by operation name. */
  method ListPermissions(p: map<string, Scope>) returns (r: seq<OperationScope>)
    ensures SortedByOperation(r)
    ensures forall op, scope :: OperationScope(op, scope) in r <==> op in p && p[op] == scope
  {
    var names := SortedElements(p.Keys);
    SortedHasNoDuplicates(names);
    r := [];
    for i := 0 to |names|
      invariant |r| == i
      invariant forall k :: 0 <= k < i ==> names[k] in p && r[k] == OperationScope(names[k], p[names[k]])
    {
      assert names[i] in names;
      r := r + [OperationScope(names[i], p[names[i]])];
    }
    forall op | op in p ensures OperationScope(op, p[op]) in r {
      assert op in names;
      var k :| 0 <= k < |names| && names[k] == op;
      assert r[k] == OperationScope(op, p[op]);
    }
  }
}
