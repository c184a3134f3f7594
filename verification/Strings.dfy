/** Strings in their stored order, and the two list edits every stored list goes through:
    insertion by binary search and removal of the first occurrence. */
module Strings {

  /** Go compares strings byte by byte; on UTF-8 text that is the order of the code points. */
  predicate Less(a: string, b: string) {
    |b| > 0 && (|a| == 0 || a[0] < b[0] || (a[0] == b[0] && Less(a[1..], b[1..])))
  }

  /** What the recursion comes to: a proper prefix goes first, and otherwise the first character that differs
      decides, the smaller one going first. */
  lemma {:induction false} LessExactly(a: string, b: string)
    ensures Less(a, b) <==>
      exists k :: 0 <= k <= |a| && k < |b| && a[..k] == b[..k] && (k == |a| || a[k] < b[k])
  {
    if |a| > 0 && |b| > 0 && a[0] == b[0] {
      var a', b' := a[1..], b[1..];
      LessExactly(a', b');
      if Less(a', b') {
        var k :| 0 <= k <= |a'| && k < |b'| && a'[..k] == b'[..k] && (k == |a'| || a'[k] < b'[k]);
        assert a[..k + 1] == [a[0]] + a'[..k] && b[..k + 1] == [b[0]] + b'[..k];
      }
      if k :| 0 <= k <= |a| && k < |b| && a[..k] == b[..k] && (k == |a| || a[k] < b[k]) {
        assert k > 0;
        assert a'[..k - 1] == a[..k][1..] && b'[..k - 1] == b[..k][1..];
      }
    } else if Less(a, b) {
      assert a[..0] == b[..0];
    } else if k :| 0 <= k <= |a| && k < |b| && a[..k] == b[..k] && (k == |a| || a[k] < b[k]) {
      if k > 0 {
        assert a[..k][0] == b[..k][0];
      }
    }
  }

  lemma {:induction false} LessTransitive(a: string, b: string, c: string)
    requires Less(a, b) && Less(b, c)
    ensures Less(a, c)
  {
    if |a| > 0 && a[0] == b[0] == c[0] {
      LessTransitive(a[1..], b[1..], c[1..]);
    }
  }

  lemma {:induction false} LessTotal(a: string, b: string)
    ensures Less(a, b) || Less(b, a) || a == b
  {
    if |a| > 0 && |b| > 0 && a[0] == b[0] {
      LessTotal(a[1..], b[1..]);
      assert a == [a[0]] + a[1..];
      assert b == [b[0]] + b[1..];
    }
  }

  lemma {:induction false} LessAsymmetric(a: string, b: string)
    ensures !(Less(a, b) && Less(b, a))
  {
    if |a| > 0 && |b| > 0 && a[0] == b[0] {
      LessAsymmetric(a[1..], b[1..]);
    }
  }

  ghost predicate StrictlySorted(s: seq<string>) {
    forall i, j :: 0 <= i < j < |s| ==> Less(s[i], s[j])
  }

  ghost predicate NoDuplicates<T>(s: seq<T>) {
    forall i, j :: 0 <= i < j < |s| ==> s[i] != s[j]
  }

  lemma SortedHasNoDuplicates(s: seq<string>)
    requires StrictlySorted(s)
    ensures NoDuplicates(s)
  {
    forall i, j | 0 <= i < j < |s| ensures s[i] != s[j] {
      LessAsymmetric(s[i], s[j]);
    }
  }

  /** A strictly sorted list is determined by its elements: there is one way to store a set. */
  lemma {:induction false} SortedListIsCanonical(a: seq<string>, b: seq<string>)
    requires StrictlySorted(a) && StrictlySorted(b)
    requires forall x :: x in a <==> x in b
    ensures a == b
  {
    if a == [] {
      HasMember(b);
    } else {
      assert a[0] in a;
      var k :| 0 <= k < |b| && b[k] == a[0];
      assert b[0] in b;
      var l :| 0 <= l < |a| && a[l] == b[0];
      LessAsymmetric(a[0], b[0]);
      assert k == l == 0;
      SortedHasNoDuplicates(a);
      SortedHasNoDuplicates(b);
      forall x ensures x in a[1..] <==> x in b[1..] {
        TailMembers(a, x);
        TailMembers(b, x);
      }
      SortedListIsCanonical(a[1..], b[1..]);
      assert a == [a[0]] + a[1..];
      assert b == [b[0]] + b[1..];
    }
  }

  lemma HasMember(s: seq<string>)
    ensures s == [] || exists x :: x in s
  {
    if s != [] {
      assert s[0] in s;
    }
  }

  lemma TailMembers(s: seq<string>, x: string)
    requires s != [] && NoDuplicates(s)
    ensures x in s[1..] <==> x in s && x != s[0]
  {
    if x in s && x != s[0] {
      var i :| 0 <= i < |s| && s[i] == x;
      assert s[1..][i - 1] == x;
    }
    if x in s[1..] {
      var i :| 0 <= i < |s[1..]| && s[1..][i] == x;
      assert s[i + 1] == x;
    }
  }

  /** The first position whose element is not below v. */
  method BinarySearch(list: seq<string>, v: string) returns (i: nat, found: bool)
    requires StrictlySorted(list)
    ensures i <= |list|
    ensures forall k :: 0 <= k < i ==> Less(list[k], v)
    ensures forall k :: i <= k < |list| ==> !Less(list[k], v)
    ensures found <==> v in list
    ensures found <==> i < |list| && list[i] == v
  {
    i := 0;
    var j := |list|;
    while i < j
      invariant i <= j <= |list|
      invariant forall k :: 0 <= k < i ==> Less(list[k], v)
      invariant forall k :: j <= k < |list| ==> !Less(list[k], v)
    {
      var h := (i + j) / 2;
      if Less(list[h], v) {
        forall k | 0 <= k < h ensures Less(list[k], v) {
          LessTransitive(list[k], list[h], v);
        }
        i := h + 1;
      } else {
        forall k | h < k < |list| ensures !Less(list[k], v) {
          if Less(list[k], v) {
            LessTransitive(list[h], list[k], v);
          }
        }
        j := h;
      }
    }
    found := i < |list| && list[i] == v;
    if v in list {
      var k :| 0 <= k < |list| && list[k] == v;
      LessAsymmetric(v, v);
    }
  }

  method InsertSorted(list: seq<string>, v: string) returns (r: seq<string>)
    requires StrictlySorted(list)
    ensures StrictlySorted(r)
    ensures forall x :: x in r <==> x in list || x == v
  {
    var i, found := BinarySearch(list, v);
    if found {
      return list;
    }
    r := list[..i] + [v] + list[i..];
    forall k | i <= k < |list| ensures Less(v, list[k]) {
      LessTotal(v, list[k]);
    }
    assert list == list[..i] + list[i..];
    assert r[i] == v;
  }

  /** Drops the first occurrence of v; the rest keeps its order. */
  method RemoveString(list: seq<string>, v: string) returns (r: seq<string>, ok: bool)
    ensures ok <==> v in list
    ensures !ok ==> r == list
    ensures ok ==> exists i :: 0 <= i < |list| && v !in list[..i] && list[i] == v && r == list[..i] + list[i + 1..]
    ensures StrictlySorted(list) ==> StrictlySorted(r) && forall x :: x in r <==> x in list && x != v
  {
    var i := 0;
    while i < |list| && list[i] != v
      invariant 0 <= i <= |list|
      invariant v !in list[..i]
    {
      assert list[..i + 1] == list[..i] + [list[i]];
      i := i + 1;
    }
    if i == |list| {
      assert list[..i] == list;
      return list, false;
    }
    r, ok := list[..i] + list[i + 1..], true;
    if StrictlySorted(list) {
      OneTakenOut(list, i);
    }
  }

  lemma OneTakenOut(list: seq<string>, i: nat)
    requires i < |list| && StrictlySorted(list)
    ensures var r := list[..i] + list[i + 1..];
      StrictlySorted(r) && forall x :: x in r <==> x in list && x != list[i]
  {
    var v, r := list[i], list[..i] + list[i + 1..];
    assert list == list[..i] + [v] + list[i + 1..];
    SortedHasNoDuplicates(list);
    hide Less;
    assert v !in list[..i] && v !in list[i + 1..];
  }

  /** The keys of a map in order, whatever order the map is walked in. */
  method SortedElements(s: set<string>) returns (r: seq<string>)
    ensures StrictlySorted(r)
    ensures forall x :: x in r <==> x in s
  {
    r := [];
    var todo := s;
    while todo != {}
      invariant todo <= s
      invariant StrictlySorted(r)
      invariant forall x :: x in r <==> x in s && x !in todo
      decreases todo
    {
      var x :| x in todo;
      todo := todo - {x};
      r := InsertSorted(r, x);
    }
  }

  /** Sorting a list of distinct strings in place. */
  method SortDistinct(s: seq<string>) returns (r: seq<string>)
    requires NoDuplicates(s)
    ensures StrictlySorted(r)
    ensures forall x :: x in r <==> x in s
  {
    r := SortedElements(set x | x in s);
  }
}
