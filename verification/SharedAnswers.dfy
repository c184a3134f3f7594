/** What the listings of the shared store may be answered with; every one promises its order. */
module SharedAnswers {
  import opened Model
  import opened Strings
  import opened SharedSpec

  ghost predicate NamesAnswer(r: seq<string>, names: set<string>) {
    StrictlySorted(r) && forall n :: n in r <==> n in names
  }

  ghost predicate SortedByName(r: seq<Operation>) {
    forall i, j :: 0 <= i < j < |r| ==> Less(r[i].name, r[j].name)
  }

  /** The registered operations with their resources, by name. */
  ghost predicate RegisterAnswer(r: seq<Operation>, s: SharedState) {
    && SortedByName(r)
    && forall name, resource :: Operation(name, resource) in r <==>
      name in s.operations && s.operations[name] == resource
  }

  lemma NamesAnswerIsUnique(a: seq<string>, b: seq<string>, names: set<string>)
    requires NamesAnswer(a, names) && NamesAnswer(b, names)
    ensures a == b
  {
    SortedListIsCanonical(a, b);
  }

  function Names(r: seq<Operation>): (names: seq<string>)
    ensures |names| == |r| && forall i :: 0 <= i < |r| ==> names[i] == r[i].name
  {
    seq(|r|, i requires 0 <= i < |r| => r[i].name)
  }

  lemma RegisterNames(r: seq<Operation>, s: SharedState)
    requires RegisterAnswer(r, s)
    ensures NamesAnswer(Names(r), s.operations.Keys)
  {
    var names := Names(r);
    forall n ensures n in names <==> n in s.operations {
      if n in names {
        var i :| 0 <= i < |names| && names[i] == n;
        assert r[i] == Operation(n, r[i].resource) && r[i] in r;
      }
      if n in s.operations {
        assert Operation(n, s.operations[n]) in r;
        var i :| 0 <= i < |r| && r[i] == Operation(n, s.operations[n]);
        assert names[i] == n;
      }
    }
  }

  lemma RegisterAnswerIsUnique(a: seq<Operation>, b: seq<Operation>, s: SharedState)
    requires RegisterAnswer(a, s) && RegisterAnswer(b, s)
    ensures a == b
  {
    RegisterNames(a, s);
    RegisterNames(b, s);
    SortedListIsCanonical(Names(a), Names(b));
    forall i | 0 <= i < |a| ensures a[i] == b[i] {
      assert a[i] == Operation(a[i].name, a[i].resource) && a[i] in a;
      assert b[i] == Operation(b[i].name, b[i].resource) && b[i] in b;
      assert Names(a)[i] == Names(b)[i];
    }
  }

  /** What a list with one entry for each registered name is. */
  lemma ListedByName(r: seq<Operation>, names: seq<string>, s: SharedState)
    requires NamesAnswer(names, s.operations.Keys) && |r| == |names|
    requires forall i :: 0 <= i < |r| ==>
      names[i] in s.operations && r[i] == Operation(names[i], s.operations[names[i]])
    ensures RegisterAnswer(r, s)
  {
    forall n | n in s.operations ensures Operation(n, s.operations[n]) in r {
      assert n in names;
      var i :| 0 <= i < |names| && names[i] == n;
      assert r[i] == Operation(n, s.operations[n]);
    }
  }
}
