/** How a user's permissions are resolved: the one-pass fold over role grants, what it means, and how it moves. */
module Resolution {
  import opened Model
  import opened TenantAnswers
  import opened TenantSpec

  /** How an operation's scope came about; `roles` are those whose record ids count. */
  datatype Entry = Entry(scope: Scope, fromUser: bool, roles: seq<string>)

  type Resolved = map<string, Entry>

  /** One turn of the loop over role grants. */
  function Merge(eff: Resolved, g: RoleGrant): Resolved {
    if g.operation !in eff then
      eff[g.operation := Entry(g.scope, false, if g.scope.RESTRICTED? then [g.role] else [])]
    else
      var cur := eff[g.operation];
      if cur.fromUser || cur.scope.FULL? then eff
      else if g.scope.FULL? then eff[g.operation := cur.(scope := FULL, roles := [])]
      else if g.scope.RESTRICTED? then eff[g.operation := cur.(scope := RESTRICTED, roles := cur.roles + [g.role])]
      else eff
  }

  function Fold(eff: Resolved, grants: seq<RoleGrant>): Resolved {
    if grants == [] then eff else Merge(Fold(eff, grants[..|grants| - 1]), grants[|grants| - 1])
  }

  // ---- What the fold computes ----

  ghost predicate Offers(grants: seq<RoleGrant>, op: string, scope: Scope) {
    exists g :: g in grants && g.operation == op && g.scope == scope
  }

  ghost predicate Mentions(grants: seq<RoleGrant>, op: string) {
    exists g :: g in grants && g.operation == op
  }

  /** The scope of the first grant that is about op. */
  function FirstScope(grants: seq<RoleGrant>, op: string): Option<Scope> {
    if grants == [] then None
    else
      var before := FirstScope(grants[..|grants| - 1], op);
      var last := grants[|grants| - 1];
      if before.None? && last.operation == op then Some(last.scope) else before
  }

  /** The widest scope on offer, with exactly the RESTRICTED grantors when that is the widest. Where neither FULL
      nor RESTRICTED is on offer, the first grant decides. */
  ghost predicate IsWidest(e: Entry, grants: seq<RoleGrant>, op: string) {
    && !e.fromUser
    && (e.scope.FULL? <==> Offers(grants, op, FULL))
    && (e.scope.RESTRICTED? <==> !Offers(grants, op, FULL) && Offers(grants, op, RESTRICTED))
    && (!e.scope.FULL? && !e.scope.RESTRICTED? ==> FirstScope(grants, op) == Some(e.scope))
    && (forall r :: r in e.roles <==> e.scope.RESTRICTED? && RoleGrant(r, op, RESTRICTED) in grants)
  }

  /** Overrides pass through the fold; every other mentioned operation gets the widest scope on offer. */
  ghost predicate FoldedRight(eff: Resolved, base: Resolved, grants: seq<RoleGrant>) {
    && (forall op :: op in base ==> op in eff && eff[op] == base[op])
    && (forall op :: op !in base ==> (op in eff <==> Mentions(grants, op)))
    && (forall op :: op !in base && op in eff ==> IsWidest(eff[op], grants, op))
  }

  ghost predicate OnlyOverrides(base: Resolved) {
    forall op :: op in base ==> base[op].fromUser
  }

  lemma {:induction false} FoldComputesWidest(base: Resolved, grants: seq<RoleGrant>)
    requires OnlyOverrides(base)
    ensures FoldedRight(Fold(base, grants), base, grants)
  {
    if grants != [] {
      var init, g := grants[..|grants| - 1], grants[|grants| - 1];
      assert grants == init + [g];
      FoldComputesWidest(base, init);
      var before, after := Fold(base, init), Fold(base, grants);
      assert after == Merge(before, g);
      forall op | op !in base
        ensures op in after <==> Mentions(grants, op)
        ensures op in after ==> IsWidest(after[op], grants, op)
      {
        MergeWidens(before, init, g, op);
      }
    }
  }

  lemma MergeWidens(before: Resolved, init: seq<RoleGrant>, g: RoleGrant, op: string)
    requires op in before <==> Mentions(init, op)
    requires op in before ==> IsWidest(before[op], init, op)
    ensures op in Merge(before, g) <==> Mentions(init + [g], op)
    ensures op in Merge(before, g) ==> IsWidest(Merge(before, g)[op], init + [g], op)
  {
    var grants := init + [g];
    assert forall x :: x in grants <==> x in init || x == g;
    assert Mentions(grants, op) <==> Mentions(init, op) || g.operation == op;
    assert forall s :: Offers(grants, op, s) <==> Offers(init, op, s) || (g.operation == op && g.scope == s);
    assert grants[..|grants| - 1] == init;
    FirstScopeIsOffered(init, op);
  }

  lemma {:induction false} FirstScopeIsOffered(grants: seq<RoleGrant>, op: string)
    ensures FirstScope(grants, op).Some? <==> Mentions(grants, op)
    ensures FirstScope(grants, op).Some? ==> Offers(grants, op, FirstScope(grants, op).value)
  {
    if grants != [] {
      var init, g := grants[..|grants| - 1], grants[|grants| - 1];
      assert forall x :: x in grants <==> x in init || x == g;
      FirstScopeIsOffered(init, op);
    }
  }

  // ---- When the order of grants matters ----

  ghost predicate SameGrants(a: seq<RoleGrant>, b: seq<RoleGrant>) {
    forall g :: g in a <==> g in b
  }

  function ScopeIn(eff: Resolved, op: string): Option<Scope> {
    if op in eff then Some(eff[op].scope) else None
  }

  /** FULL or RESTRICTED is on offer, or there is only one scope to choose from. */
  ghost predicate Settled(grants: seq<RoleGrant>, op: string) {
    || Offers(grants, op, FULL)
    || Offers(grants, op, RESTRICTED)
    || forall g, h :: g in grants && h in grants && g.operation == op && h.operation == op ==> g.scope == h.scope
  }

  /** Any order, and any repetition, of the same grants resolves the same operations with the same contributing
      roles, to FULL and to RESTRICTED alike, and to the same scope wherever the scope is settled. */
  lemma OrderOfGrantsIsIrrelevant(base: Resolved, a: seq<RoleGrant>, b: seq<RoleGrant>)
    requires OnlyOverrides(base) && SameGrants(a, b)
    ensures Fold(base, a).Keys == Fold(base, b).Keys
    ensures forall op :: op in Fold(base, a) ==>
      && (Fold(base, a)[op].scope.FULL? <==> Fold(base, b)[op].scope.FULL?)
      && (Fold(base, a)[op].scope.RESTRICTED? <==> Fold(base, b)[op].scope.RESTRICTED?)
      && Fold(base, a)[op].fromUser == Fold(base, b)[op].fromUser
      && (op !in base ==> forall r :: r in Fold(base, a)[op].roles <==> r in Fold(base, b)[op].roles)
    ensures forall op :: op in base || Settled(a, op) ==> ScopeIn(Fold(base, a), op) == ScopeIn(Fold(base, b), op)
  {
    FoldComputesWidest(base, a);
    FoldComputesWidest(base, b);
    var fa, fb := Fold(base, a), Fold(base, b);
    hide Fold, Merge, FirstScope;
    forall op ensures Mentions(a, op) <==> Mentions(b, op) {}
    forall op, s ensures Offers(a, op, s) <==> Offers(b, op, s) {}
    assert forall op :: op in fa <==> op in fb;
    forall op | op !in base && Settled(a, op) && op in fa ensures fa[op].scope == fb[op].scope {
      FirstScopeIsOffered(a, op);
      FirstScopeIsOffered(b, op);
    }
  }

  function ToFront(grants: seq<RoleGrant>, i: nat): (r: seq<RoleGrant>)
    requires i < |grants|
    ensures multiset(r) == multiset(grants)
  {
    assert grants == grants[..i] + [grants[i]] + grants[i + 1..];
    [grants[i]] + grants[..i] + grants[i + 1..]
  }

  lemma {:induction false} FirstComesFirst(g: RoleGrant, rest: seq<RoleGrant>, op: string)
    requires g.operation == op
    ensures FirstScope([g] + rest, op) == Some(g.scope)
  {
    var all := [g] + rest;
    if rest == [] {
      assert all[..0] == [];
    } else {
      assert all[..|all| - 1] == [g] + rest[..|rest| - 1];
      FirstComesFirst(g, rest[..|rest| - 1], op);
    }
  }

  /** A grant that is moved to the front of an unsettled list decides the scope. */
  lemma FrontDecides(base: Resolved, a: seq<RoleGrant>, op: string, i: nat)
    requires OnlyOverrides(base) && op !in base && !Settled(a, op) && i < |a| && a[i].operation == op
    ensures ScopeIn(Fold(base, ToFront(a, i)), op) == Some(a[i].scope)
  {
    var b := ToFront(a, i);
    SameElements(a, b);
    FoldComputesWidest(base, b);
    hide Fold, Merge;
    FirstComesFirst(a[i], a[..i] + a[i + 1..], op);
    assert b == [a[i]] + (a[..i] + a[i + 1..]);
    assert b[0] in b && Mentions(b, op);
    SameOffers(a, b, op, FULL);
    SameOffers(a, b, op, RESTRICTED);
  }

  lemma SameOffers(a: seq<RoleGrant>, b: seq<RoleGrant>, op: string, scope: Scope)
    requires SameGrants(a, b)
    ensures Offers(a, op, scope) <==> Offers(b, op, scope)
  {
  }

  lemma SameElements(a: seq<RoleGrant>, b: seq<RoleGrant>)
    requires multiset(a) == multiset(b)
    ensures SameGrants(a, b)
  {
    forall g ensures g in a <==> g in b {
      assert g in a <==> g in multiset(a);
      assert g in b <==> g in multiset(b);
    }
  }

  /** All orders of a list of grants resolve an operation to one scope exactly when the user decides it or the
      scope is settled. */
  lemma OrderMattersExactly(base: Resolved, a: seq<RoleGrant>, op: string)
    requires OnlyOverrides(base)
    ensures (forall b :: multiset(b) == multiset(a) ==> ScopeIn(Fold(base, b), op) == ScopeIn(Fold(base, a), op)) <==>
      op in base || Settled(a, op)
  {
    if op in base || Settled(a, op) {
      forall b | multiset(b) == multiset(a) ensures ScopeIn(Fold(base, b), op) == ScopeIn(Fold(base, a), op) {
        SameElements(a, b);
        OrderOfGrantsIsIrrelevant(base, a, b);
      }
    } else {
      var g, h :| g in a && h in a && g.operation == op && h.operation == op && g.scope != h.scope;
      var i :| 0 <= i < |a| && a[i] == g;
      var j :| 0 <= j < |a| && a[j] == h;
      FrontDecides(base, a, op, i);
      FrontDecides(base, a, op, j);
    }
  }

  /** So the order never matters among the three supported scopes. */
  lemma SupportedScopesAreSettled(grants: seq<RoleGrant>, op: string)
    requires forall g :: g in grants ==> ValidScope(g.scope)
    ensures Settled(grants, op)
  {
    if !Offers(grants, op, FULL) && !Offers(grants, op, RESTRICTED) {
      forall g | g in grants && g.operation == op ensures g.scope == EMPTY {
        assert Offers(grants, op, g.scope);
      }
    }
  }

  /** And it does matter for an EMPTY and an unsupported grant, with nothing wider beside them. */
  lemma UnsupportedScopesMakeOrderMatter(op: string, r: string, q: string, text: string)
    ensures var odd, none := RoleGrant(r, op, Unsupported(text)), RoleGrant(q, op, EMPTY);
      ScopeIn(Fold(map[], [odd, none]), op) == Some(Unsupported(text))
        && ScopeIn(Fold(map[], [none, odd]), op) == Some(EMPTY)
  {
    var odd, none := RoleGrant(r, op, Unsupported(text)), RoleGrant(q, op, EMPTY);
    assert [odd, none][..1] == [odd] && [none, odd][..1] == [none];
    assert [odd][..0] == [] && [none][..0] == [];
    assert Fold(map[], [odd]) == Merge(Fold(map[], []), odd);
    assert Fold(map[], [none]) == Merge(Fold(map[], []), none);
  }

  // ---- What access means, role by role ----

  ghost predicate Covers(scope: Scope, listed: bool) {
    scope.FULL? || (scope.RESTRICTED? && listed)
  }

  /** The override's records when there is one, otherwise the union over the assigned roles. */
  ghost predicate CanAccess(t: TenantState, sub: string, op: string, id: string) {
    if (sub, op) in t.overrides then
      Covers(t.overrides[(sub, op)], (sub, op, id) in t.userIds)
    else
      exists role :: (sub, role) in t.assignments && (role, op) in t.grants
        && Covers(t.grants[(role, op)], (role, op, id) in t.roleIds)
  }

  ghost predicate RoleGives(t: TenantState, sub: string, op: string, scope: Scope) {
    exists role :: (sub, role) in t.assignments && (role, op) in t.grants && t.grants[(role, op)] == scope
  }

  /** Something, whatever its scope, is said about this user and operation. */
  ghost predicate Available(t: TenantState, sub: string, op: string) {
    (sub, op) in t.overrides || exists role :: (sub, role) in t.assignments && (role, op) in t.grants
  }

  /** Access to every record, present or future. */
  ghost predicate HoldsFull(t: TenantState, sub: string, op: string) {
    if (sub, op) in t.overrides then t.overrides[(sub, op)].FULL? else RoleGives(t, sub, op, FULL)
  }

  /** The widest supported scope; EMPTY where nothing says more. */
  ghost function EffectiveScope(t: TenantState, sub: string, op: string): Scope {
    if (sub, op) in t.overrides then t.overrides[(sub, op)]
    else if RoleGives(t, sub, op, FULL) then FULL
    else if RoleGives(t, sub, op, RESTRICTED) then RESTRICTED
    else EMPTY
  }

  ghost predicate EffectiveId(t: TenantState, sub: string, op: string, id: string) {
    if (sub, op) in t.overrides then (sub, op, id) in t.userIds
    else
      exists role :: (sub, role) in t.assignments && (role, op) in t.grants
        && t.grants[(role, op)] == RESTRICTED && (role, op, id) in t.roleIds
  }

  ghost predicate ScopesValid(t: TenantState) {
    && (forall k :: k in t.grants ==> ValidScope(t.grants[k]))
    && (forall k :: k in t.overrides ==> ValidScope(t.overrides[k]))
  }

  /** The widest scope together with the ids of its RESTRICTED grantors denotes exactly the union of all grants. */
  lemma WidestScopeDenotesUnion(t: TenantState, sub: string, op: string, id: string)
    ensures CanAccess(t, sub, op, id) <==>
      Available(t, sub, op) && Covers(EffectiveScope(t, sub, op), EffectiveId(t, sub, op, id))
    ensures HoldsFull(t, sub, op) <==> Available(t, sub, op) && EffectiveScope(t, sub, op).FULL?
  {
    if (sub, op) !in t.overrides {
      if CanAccess(t, sub, op, id) {
        var role :| (sub, role) in t.assignments && (role, op) in t.grants
          && Covers(t.grants[(role, op)], (role, op, id) in t.roleIds);
        assert RoleGives(t, sub, op, t.grants[(role, op)]);
      }
    }
  }

  /** A scope resolution may report: the override's, or one given by a role, FULL and RESTRICTED going first. */
  ghost predicate ScopeFits(t: TenantState, sub: string, op: string, s: Scope) {
    if (sub, op) in t.overrides then s == t.overrides[(sub, op)]
    else
      && RoleGives(t, sub, op, s)
      && (s.FULL? <==> RoleGives(t, sub, op, FULL))
      && (s.RESTRICTED? <==> !RoleGives(t, sub, op, FULL) && RoleGives(t, sub, op, RESTRICTED))
  }

  /** The state leaves resolution no choice of scope. */
  ghost predicate ScopeSettled(t: TenantState, sub: string, op: string) {
    || (sub, op) in t.overrides
    || RoleGives(t, sub, op, FULL)
    || RoleGives(t, sub, op, RESTRICTED)
    || forall r, s :: RoleGives(t, sub, op, r) && RoleGives(t, sub, op, s) ==> r == s
  }

  lemma OneScopeFitsExactly(t: TenantState, sub: string, op: string)
    ensures (forall r, s :: ScopeFits(t, sub, op, r) && ScopeFits(t, sub, op, s) ==> r == s) <==>
      ScopeSettled(t, sub, op)
    ensures Available(t, sub, op) <==> exists s :: ScopeFits(t, sub, op, s)
  {
    if !ScopeSettled(t, sub, op) {
      var r, s :| RoleGives(t, sub, op, r) && RoleGives(t, sub, op, s) && r != s;
      assert ScopeFits(t, sub, op, r) && ScopeFits(t, sub, op, s);
    }
    if Available(t, sub, op) {
      if (sub, op) in t.overrides {
        assert ScopeFits(t, sub, op, t.overrides[(sub, op)]);
      } else if RoleGives(t, sub, op, FULL) {
        assert ScopeFits(t, sub, op, FULL);
      } else if RoleGives(t, sub, op, RESTRICTED) {
        assert ScopeFits(t, sub, op, RESTRICTED);
      } else {
        var role :| (sub, role) in t.assignments && (role, op) in t.grants;
        assert RoleGives(t, sub, op, t.grants[(role, op)]) && ScopeFits(t, sub, op, t.grants[(role, op)]);
      }
    }
  }

  /** With only supported scopes stored, the one scope that fits is the effective scope. */
  lemma SupportedScopesFit(t: TenantState, sub: string, op: string)
    requires ScopesValid(t)
    ensures ScopeSettled(t, sub, op)
    ensures Available(t, sub, op) ==> forall s :: ScopeFits(t, sub, op, s) <==> s == EffectiveScope(t, sub, op)
  {
    forall s | RoleGives(t, sub, op, s) ensures ValidScope(s) {
    }
    OneScopeFitsExactly(t, sub, op);
    if Available(t, sub, op) {
      var s :| ScopeFits(t, sub, op, s);
      FittingScopeCounts(t, sub, op, s);
    }
  }

  /** Whatever scope fits, FULL and RESTRICTED are told apart as the effective scope tells them. */
  lemma FittingScopeCounts(t: TenantState, sub: string, op: string, s: Scope)
    requires ScopeFits(t, sub, op, s)
    ensures Available(t, sub, op)
    ensures s.FULL? <==> EffectiveScope(t, sub, op).FULL?
    ensures s.RESTRICTED? <==> EffectiveScope(t, sub, op).RESTRICTED?
  {
  }

  /** However many names there are, there is another one. */
  lemma {:induction false} AnotherName(names: set<string>) returns (other: string)
    ensures other !in names && forall n :: n in names ==> |n| < |other|
    decreases |names|
  {
    if names == {} {
      other := "";
    } else {
      var n :| n in names;
      var rest := AnotherName(names - {n});
      other := rest + n + ['.'];
    }
  }

  /** Holding an operation at FULL scope is being let through to every record there could ever be; ids, of which
      there are finitely many, never add up to that. */
  lemma FullMeansEveryRecord(t: TenantState, sub: string, op: string)
    ensures HoldsFull(t, sub, op) <==> forall id :: CanAccess(t, sub, op, id)
  {
    var id := AnotherName((set x | x in t.roleIds :: x.2) + (set x | x in t.userIds :: x.2));
    assert forall x :: x in t.roleIds ==> x.2 != id;
    assert forall x :: x in t.userIds ==> x.2 != id;
    forall r ensures (r, op, id) !in t.roleIds {
      assert (r, op, id) in t.roleIds ==> (r, op, id).2 != id;
    }
    assert (sub, op, id) !in t.userIds by {
      assert (sub, op, id) in t.userIds ==> (sub, op, id).2 != id;
    }
    if CanAccess(t, sub, op, id) && (sub, op) !in t.overrides {
      var role :| (sub, role) in t.assignments && (role, op) in t.grants
        && Covers(t.grants[(role, op)], (role, op, id) in t.roleIds);
      assert RoleGives(t, sub, op, FULL);
    }
  }

  // ---- What the reads of one resolution give ----

  /** The entries resolution starts from: the user's own permissions. */
  ghost predicate StartsFrom(base: Resolved, t: TenantState, sub: string) {
    && (forall op :: op in base <==> (sub, op) in t.overrides)
    && (forall op :: op in base ==> base[op] == Entry(t.overrides[(sub, op)], true, []))
  }

  /** The records an answer lets through: its scope, and the ids read for it in state t. */
  ghost predicate AnswerCovers(eff: Resolved, t: TenantState, sub: string, op: string, id: string) {
    op in eff && Covers(eff[op].scope,
      if eff[op].fromUser then (sub, op, id) in t.userIds
      else exists r :: r in eff[op].roles && (r, op, id) in t.roleIds)
  }

  ghost predicate ResolvesTo(eff: Resolved, t: TenantState, sub: string) {
    && (forall op :: op in eff <==> Available(t, sub, op))
    && (forall op :: op in eff ==> ScopeFits(t, sub, op, eff[op].scope))
    && (forall op :: op in eff ==> (eff[op].fromUser <==> (sub, op) in t.overrides))
    && (forall op, r :: op in eff && !eff[op].fromUser && eff[op].scope.RESTRICTED? ==>
          (r in eff[op].roles <==> (sub, r) in t.assignments && (r, op) in t.grants && t.grants[(r, op)] == RESTRICTED))
  }

  /** Reading everything in one state, the fold gives each operation its documented scope and grantors. */
  lemma FoldResolves(t: TenantState, sub: string, base: Resolved, roles: seq<string>, grants: seq<RoleGrant>)
    requires StartsFrom(base, t, sub) && ListsRolesOf(roles, t, sub) && GrantsAnswer(grants, t, roles)
    ensures ResolvesTo(Fold(base, grants), t, sub)
  {
    OverridesOnly(base, t, sub);
    FoldComputesWidest(base, grants);
    hide Fold, Merge, FoldedRight, StartsFrom, ListsRolesOf, GrantsAnswer, Available, EntryFits, ResolvesTo,
      OnlyOverrides;
    forall op
      ensures op in Fold(base, grants) <==> Available(t, sub, op)
      ensures op in Fold(base, grants) ==> EntryFits(Fold(base, grants)[op], t, sub, op)
    {
      AnyEntry(Fold(base, grants), t, sub, base, roles, grants, op);
    }
    FittingEntriesResolve(Fold(base, grants), t, sub);
  }

  /** The right entry for one operation. */
  ghost predicate EntryFits(e: Entry, t: TenantState, sub: string, op: string) {
    && (e.fromUser <==> (sub, op) in t.overrides)
    && ScopeFits(t, sub, op, e.scope)
    && (!e.fromUser && e.scope.RESTRICTED? ==> forall r :: r in e.roles <==>
          (sub, r) in t.assignments && (r, op) in t.grants && t.grants[(r, op)] == RESTRICTED)
  }

  lemma OverridesOnly(base: Resolved, t: TenantState, sub: string)
    requires StartsFrom(base, t, sub)
    ensures OnlyOverrides(base)
  {
  }

  lemma FittingEntriesResolve(eff: Resolved, t: TenantState, sub: string)
    requires forall op :: op in eff <==> Available(t, sub, op)
    requires forall op :: op in eff ==> EntryFits(eff[op], t, sub, op)
    ensures ResolvesTo(eff, t, sub)
  {
    hide Available, ScopeFits;
  }

  lemma AnyEntry(eff: Resolved, t: TenantState, sub: string, base: Resolved, roles: seq<string>, grants: seq<RoleGrant>,
                 op: string)
    requires FoldedRight(eff, base, grants) && StartsFrom(base, t, sub)
    requires ListsRolesOf(roles, t, sub) && GrantsAnswer(grants, t, roles)
    ensures op in eff <==> Available(t, sub, op)
    ensures op in eff ==> EntryFits(eff[op], t, sub, op)
  {
    if op !in base {
      GrantedEntry(eff, t, sub, base, roles, grants, op);
    }
  }

  lemma GrantedEntry(eff: Resolved, t: TenantState, sub: string, base: Resolved, roles: seq<string>,
                     grants: seq<RoleGrant>, op: string)
    requires FoldedRight(eff, base, grants) && op !in base && (sub, op) !in t.overrides
    requires ListsRolesOf(roles, t, sub) && GrantsAnswer(grants, t, roles)
    ensures op in eff <==> Available(t, sub, op)
    ensures op in eff ==> EntryFits(eff[op], t, sub, op)
  {
    FirstScopeIsOffered(grants, op);
    forall s ensures Offers(grants, op, s) <==> RoleGives(t, sub, op, s) {
      OffersAreGifts(t, sub, roles, grants, op, s);
    }
    if Available(t, sub, op) {
      var role :| (sub, role) in t.assignments && (role, op) in t.grants;
      assert RoleGrant(role, op, t.grants[(role, op)]) in grants;
    }
    hide Offers, RoleGives, FirstScope;
  }

  lemma OffersAreGifts(t: TenantState, sub: string, roles: seq<string>, grants: seq<RoleGrant>, op: string, s: Scope)
    requires ListsRolesOf(roles, t, sub) && GrantsAnswer(grants, t, roles)
    ensures Offers(grants, op, s) <==> RoleGives(t, sub, op, s)
  {
    if RoleGives(t, sub, op, s) {
      var role :| (sub, role) in t.assignments && (role, op) in t.grants && t.grants[(role, op)] == s;
      assert RoleGrant(role, op, s) in grants;
    }
  }

  // ---- How access moves with the state ----

  /** b grants at least what a does, to everyone: more assignments, wider scopes, more ids, the same overrides. */
  ghost predicate Widens(a: TenantState, b: TenantState) {
    && a.assignments <= b.assignments
    && (forall k :: k in a.grants ==> k in b.grants && Rank(a.grants[k]) <= Rank(b.grants[k]))
    && a.roleIds <= b.roleIds
    && a.overrides == b.overrides
    && a.userIds <= b.userIds
  }

  lemma AccessFollowsWidening(a: TenantState, b: TenantState, sub: string, op: string, id: string)
    requires Widens(a, b)
    ensures CanAccess(a, sub, op, id) ==> CanAccess(b, sub, op, id)
    ensures HoldsFull(a, sub, op) ==> HoldsFull(b, sub, op)
    ensures Available(a, sub, op) ==> Available(b, sub, op)
  {
    if (sub, op) !in a.overrides {
      if CanAccess(a, sub, op, id) {
        var role :| (sub, role) in a.assignments && (role, op) in a.grants
          && Covers(a.grants[(role, op)], (role, op, id) in a.roleIds);
        assert (role, op) in b.grants && Rank(a.grants[(role, op)]) <= Rank(b.grants[(role, op)]);
        assert (sub, role) in b.assignments;
      }
      if HoldsFull(a, sub, op) {
        var role :| (sub, role) in a.assignments && (role, op) in a.grants && a.grants[(role, op)] == FULL;
        assert (sub, role) in b.assignments && (role, op) in b.grants;
      }
      if Available(a, sub, op) {
        var role :| (sub, role) in a.assignments && (role, op) in a.grants;
        assert (sub, role) in b.assignments && (role, op) in b.grants;
      }
    }
  }

  /** Calls that can only add to what anyone may reach. */
  predicate IsWidening(t: TenantState, c: TenantCall) {
    match c
    case CreateRole(_) => true
    case EnsureRole(_) => true
    case AssignRole(_, _) => true
    case AddRoleIDs(_, _, _) => true
    case AddUserIDs(_, _, _) => true
    case SetRolePermission(role, op, scope) => (role, op) in t.grants ==> Rank(t.grants[(role, op)]) <= Rank(scope)
    case _ => false
  }

  /** Calls that can only take away. */
  predicate IsNarrowing(c: TenantCall) {
    c.DeleteRole? || c.UnassignRole? || c.RemoveRolePermission? || c.RemoveRoleIDs? || c.RemoveUserIDs?
  }

  lemma StepsMoveOneWay(t: TenantState, c: TenantCall)
    ensures IsWidening(t, c) ==> Widens(t, TenantStep(t, c).state)
    ensures IsNarrowing(c) ==> Widens(TenantStep(t, c).state, t)
  {
  }

  /** Assigning roles, widening grants and adding ids never take a record from anyone; unassigning or deleting
      a role, dropping its permissions and removing ids never give one. */
  lemma StepsAreMonotone(t: TenantState, c: TenantCall, sub: string, op: string, id: string)
    ensures IsWidening(t, c) && CanAccess(t, sub, op, id) ==> CanAccess(TenantStep(t, c).state, sub, op, id)
    ensures IsWidening(t, c) && HoldsFull(t, sub, op) ==> HoldsFull(TenantStep(t, c).state, sub, op)
    ensures IsNarrowing(c) && CanAccess(TenantStep(t, c).state, sub, op, id) ==> CanAccess(t, sub, op, id)
    ensures IsNarrowing(c) && HoldsFull(TenantStep(t, c).state, sub, op) ==> HoldsFull(t, sub, op)
  {
    StepsMoveOneWay(t, c);
    var t' := TenantStep(t, c).state;
    if IsWidening(t, c) {
      AccessFollowsWidening(t, t', sub, op, id);
    } else if IsNarrowing(c) {
      AccessFollowsWidening(t', t, sub, op, id);
    }
  }

  predicate IsRoleCall(c: TenantCall) {
    !c.SetUserPermission? && !c.RemoveUserPermission? && !c.AddUserIDs? && !c.RemoveUserIDs?
  }

  /** Where a user has an override, nothing done to roles changes what they reach. */
  lemma OverrideShieldsFromRoles(t: TenantState, c: TenantCall, sub: string, op: string, id: string)
    requires (sub, op) in t.overrides && IsRoleCall(c)
    ensures CanAccess(TenantStep(t, c).state, sub, op, id) <==> CanAccess(t, sub, op, id)
    ensures EffectiveScope(TenantStep(t, c).state, sub, op) == EffectiveScope(t, sub, op)
  {
  }

  /** The four reads of one resolution may see four states. If the state only widened meanwhile, the answer
      lets through all that the first state did and nothing the last does not. */
  lemma ResolutionIsSandwiched(s0: TenantState, s1: TenantState, s2: TenantState, s3: TenantState, sub: string,
                               base: Resolved, roles: seq<string>, grants: seq<RoleGrant>, op: string, id: string)
    requires Widens(s0, s1) && Widens(s1, s2) && Widens(s2, s3)
    requires StartsFrom(base, s0, sub) && ListsRolesOf(roles, s1, sub) && GrantsAnswer(grants, s2, roles)
    ensures CanAccess(s0, sub, op, id) ==> AnswerCovers(Fold(base, grants), s3, sub, op, id)
    ensures AnswerCovers(Fold(base, grants), s3, sub, op, id) ==> CanAccess(s3, sub, op, id)
  {
    FoldComputesWidest(base, grants);
    if (sub, op) !in s0.overrides {
      if CanAccess(s0, sub, op, id) {
        AnswerIsEnough(s0, s1, s2, s3, sub, base, roles, grants, op, id);
      }
      if AnswerCovers(Fold(base, grants), s3, sub, op, id) {
        AnswerIsNotTooMuch(s1, s2, s3, sub, base, roles, grants, op, id);
      }
    }
  }

  /** Likewise for what is reported: FULL is reported if the first state holds it, and only if the third does; and
      no scope reported is narrower than the first state's or wider than the third's. */
  lemma ReportedScopesAreSandwiched(s0: TenantState, s1: TenantState, s2: TenantState, sub: string, base: Resolved,
                                    roles: seq<string>, grants: seq<RoleGrant>, op: string)
    requires Widens(s0, s1) && Widens(s1, s2)
    requires StartsFrom(base, s0, sub) && ListsRolesOf(roles, s1, sub) && GrantsAnswer(grants, s2, roles)
    ensures var eff := Fold(base, grants);
      && (HoldsFull(s0, sub, op) ==> op in eff && eff[op].scope.FULL?)
      && (op in eff && eff[op].scope.FULL? ==> HoldsFull(s2, sub, op))
      && (Available(s0, sub, op) ==> op in eff)
      && (op in eff ==> Available(s2, sub, op))
      && (op in eff ==> Rank(EffectiveScope(s0, sub, op)) <= Rank(eff[op].scope) <= Rank(EffectiveScope(s2, sub, op)))
  {
    FoldComputesWidest(base, grants);
    if (sub, op) !in s0.overrides {
      forall role | (sub, role) in s0.assignments && (role, op) in s0.grants
        ensures exists g :: g in grants && g.operation == op && Rank(s0.grants[(role, op)]) <= Rank(g.scope)
      {
        assert (role, op) in s1.grants && (role, op) in s2.grants && (sub, role) in s1.assignments;
        assert RoleGrant(role, op, s2.grants[(role, op)]) in grants;
      }
      forall g | g in grants && g.operation == op ensures RoleGives(s2, sub, op, g.scope) {
        assert (sub, g.role) in s1.assignments && (sub, g.role) in s2.assignments;
      }
      FirstScopeIsOffered(grants, op);
    }
  }

  lemma AnswerIsEnough(s0: TenantState, s1: TenantState, s2: TenantState, s3: TenantState, sub: string, base: Resolved,
                       roles: seq<string>, grants: seq<RoleGrant>, op: string, id: string)
    requires Widens(s0, s1) && Widens(s1, s2) && Widens(s2, s3)
    requires StartsFrom(base, s0, sub) && ListsRolesOf(roles, s1, sub) && GrantsAnswer(grants, s2, roles)
    requires FoldedRight(Fold(base, grants), base, grants)
    requires (sub, op) !in s0.overrides && CanAccess(s0, sub, op, id)
    ensures AnswerCovers(Fold(base, grants), s3, sub, op, id)
  {
    var eff := Fold(base, grants);
    var role :| (sub, role) in s0.assignments && (role, op) in s0.grants
      && Covers(s0.grants[(role, op)], (role, op, id) in s0.roleIds);
    assert (role, op) in s1.grants && (role, op) in s2.grants;
    assert Rank(s0.grants[(role, op)]) <= Rank(s1.grants[(role, op)]) <= Rank(s2.grants[(role, op)]);
    var g := RoleGrant(role, op, s2.grants[(role, op)]);
    assert role in roles && g in grants;
    assert Mentions(grants, op) && IsWidest(eff[op], grants, op);
    assert Offers(grants, op, g.scope);
    if !eff[op].scope.FULL? {
      assert role in eff[op].roles && (role, op, id) in s3.roleIds;
    }
  }

  lemma AnswerIsNotTooMuch(s1: TenantState, s2: TenantState, s3: TenantState, sub: string, base: Resolved,
                           roles: seq<string>, grants: seq<RoleGrant>, op: string, id: string)
    requires Widens(s1, s2) && Widens(s2, s3)
    requires op !in base && (sub, op) !in s3.overrides
    requires ListsRolesOf(roles, s1, sub) && GrantsAnswer(grants, s2, roles)
    requires FoldedRight(Fold(base, grants), base, grants)
    requires AnswerCovers(Fold(base, grants), s3, sub, op, id)
    ensures CanAccess(s3, sub, op, id)
  {
    var eff := Fold(base, grants);
    assert IsWidest(eff[op], grants, op);
    var role: string;
    if eff[op].scope.FULL? {
      var g :| g in grants && g.operation == op && g.scope == FULL;
      role := g.role;
    } else {
      role :| role in eff[op].roles && (role, op, id) in s3.roleIds;
      assert RoleGrant(role, op, RESTRICTED) in grants;
    }
    assert (role, op) in s2.grants && (role, op) in s3.grants
      && Rank(s2.grants[(role, op)]) <= Rank(s3.grants[(role, op)]);
    assert (sub, role) in s1.assignments && (sub, role) in s2.assignments && (sub, role) in s3.assignments;
  }

  /** What other callers do to one tenant between two reads. */
  function RunTenant(t: TenantState, calls: seq<TenantCall>): TenantState {
    if calls == [] then t else TenantStep(RunTenant(t, calls[..|calls| - 1]), calls[|calls| - 1]).state
  }

  predicate OnlyWidening(t: TenantState, calls: seq<TenantCall>) {
    calls == [] ||
    (OnlyWidening(t, calls[..|calls| - 1]) && IsWidening(RunTenant(t, calls[..|calls| - 1]), calls[|calls| - 1]))
  }

  lemma {:induction false} WideningRunWidens(t: TenantState, calls: seq<TenantCall>)
    requires OnlyWidening(t, calls)
    ensures Widens(t, RunTenant(t, calls))
  {
    if calls != [] {
      var before, last := calls[..|calls| - 1], calls[|calls| - 1];
      WideningRunWidens(t, before);
      StepsMoveOneWay(RunTenant(t, before), last);
      hide TenantStep;
      WideningComposes(t, RunTenant(t, before), RunTenant(t, calls));
    }
  }

  lemma WideningComposes(a: TenantState, b: TenantState, c: TenantState)
    requires Widens(a, b) && Widens(b, c)
    ensures Widens(a, c)
  {
  }

  /** The same for runs: while a resolution reads overrides, roles, grants and ids, others make any number of
      widening calls between any two reads. */
  lemma InterleavedResolutionIsSandwiched(t: TenantState, first: seq<TenantCall>, second: seq<TenantCall>,
                                          third: seq<TenantCall>, sub: string, base: Resolved, roles: seq<string>,
                                          grants: seq<RoleGrant>, op: string, id: string)
    requires var s1 := RunTenant(t, first); var s2 := RunTenant(s1, second);
      && OnlyWidening(t, first) && OnlyWidening(s1, second) && OnlyWidening(s2, third)
      && StartsFrom(base, t, sub) && ListsRolesOf(roles, s1, sub) && GrantsAnswer(grants, s2, roles)
    ensures var end := RunTenant(RunTenant(RunTenant(t, first), second), third);
      && (CanAccess(t, sub, op, id) ==> AnswerCovers(Fold(base, grants), end, sub, op, id))
      && (AnswerCovers(Fold(base, grants), end, sub, op, id) ==> CanAccess(end, sub, op, id))
  {
    hide RunTenant, OnlyWidening;
    var s1 := RunTenant(t, first);
    var s2 := RunTenant(s1, second);
    WideningRunWidens(t, first);
    WideningRunWidens(s1, second);
    WideningRunWidens(s2, third);
    ResolutionIsSandwiched(t, s1, s2, RunTenant(s2, third), sub, base, roles, grants, op, id);
  }

  /** With nobody interfering, scope and ids together denote exactly the records the user may reach,
      and an operation is absent exactly when nothing grants it. */
  lemma ResolutionMeansAccess(t: TenantState, sub: string, base: Resolved, roles: seq<string>, grants: seq<RoleGrant>)
    requires StartsFrom(base, t, sub) && ListsRolesOf(roles, t, sub) && GrantsAnswer(grants, t, roles)
    ensures forall op :: op in Fold(base, grants) <==> Available(t, sub, op)
    ensures forall op, id :: AnswerCovers(Fold(base, grants), t, sub, op, id) <==> CanAccess(t, sub, op, id)
  {
    FoldResolves(t, sub, base, roles, grants);
    forall op, id
      ensures AnswerCovers(Fold(base, grants), t, sub, op, id) <==> CanAccess(t, sub, op, id)
    {
      ResolutionIsSandwiched(t, t, t, t, sub, base, roles, grants, op, id);
    }
  }

  // ---- Renaming ----

  /** Renaming a role changes nobody's scopes, ids or access. */
  lemma RenamePreservesMeaning(t: TenantState, name: string, newName: string, sub: string, op: string, id: string)
    requires RolesExist(t) && TenantStep(t, RenameRole(name, newName)).err == Ok
    ensures var t' := TenantStep(t, RenameRole(name, newName)).state;
      && (Available(t', sub, op) <==> Available(t, sub, op))
      && EffectiveScope(t', sub, op) == EffectiveScope(t, sub, op)
      && (forall s :: ScopeFits(t', sub, op, s) <==> ScopeFits(t, sub, op, s))
      && (EffectiveId(t', sub, op, id) <==> EffectiveId(t, sub, op, id))
      && (CanAccess(t', sub, op, id) <==> CanAccess(t, sub, op, id))
      && (HoldsFull(t', sub, op) <==> HoldsFull(t, sub, op))
  {
    var t' := TenantStep(t, RenameRole(name, newName)).state;
    RenameIsABijection(t, name, newName);
    RenameKeepsRolesExist(t, name, newName);
    RenamingBackwards(t, t', name, newName);
    RenameCarriesAccess(t, t', name, newName, sub, op, id);
    RenameCarriesAccess(t', t, newName, name, sub, op, id);
    SameAnswersSameAccess(t, t', sub, op, id);
  }

  lemma SameAnswersSameAccess(a: TenantState, b: TenantState, sub: string, op: string, id: string)
    requires a.overrides == b.overrides && a.userIds == b.userIds
    requires Available(a, sub, op) <==> Available(b, sub, op)
    requires EffectiveId(a, sub, op, id) <==> EffectiveId(b, sub, op, id)
    requires forall s :: RoleGives(a, sub, op, s) <==> RoleGives(b, sub, op, s)
    ensures EffectiveScope(a, sub, op) == EffectiveScope(b, sub, op)
    ensures forall s :: ScopeFits(a, sub, op, s) <==> ScopeFits(b, sub, op, s)
    ensures CanAccess(a, sub, op, id) <==> CanAccess(b, sub, op, id)
    ensures HoldsFull(a, sub, op) <==> HoldsFull(b, sub, op)
  {
    WidestScopeDenotesUnion(a, sub, op, id);
    WidestScopeDenotesUnion(b, sub, op, id);
  }

  lemma RenamingBackwards(a: TenantState, b: TenantState, name: string, newName: string)
    requires SameUnderRenaming(a, b, name, newName)
    requires name in a.roles && newName !in a.roles && b.roles == a.roles - {name} + {newName}
    ensures SameUnderRenaming(b, a, newName, name)
  {
    forall r | r in b.roles
      ensures Renamed(r, newName, name) in a.roles && Renamed(Renamed(r, newName, name), name, newName) == r
    {
    }
  }

  /** Half of it: what holds before a renaming holds after. The other half is the renaming back. */
  lemma RenameCarriesAccess(a: TenantState, b: TenantState, name: string, newName: string, sub: string, op: string,
                            id: string)
    requires RolesExist(a) && a.overrides == b.overrides && a.userIds == b.userIds
    requires SameUnderRenaming(a, b, name, newName)
    ensures Available(a, sub, op) ==> Available(b, sub, op)
    ensures EffectiveId(a, sub, op, id) ==> EffectiveId(b, sub, op, id)
    ensures forall s :: RoleGives(a, sub, op, s) ==> RoleGives(b, sub, op, s)
  {
    forall role | (sub, role) in a.assignments && (role, op) in a.grants
      ensures var r := Renamed(role, name, newName);
        (sub, r) in b.assignments && (r, op) in b.grants && a.grants[(role, op)] == b.grants[(r, op)]
        && ((role, op, id) in a.roleIds ==> (r, op, id) in b.roleIds)
    {
      assert role in a.roles;
    }
  }
}
