/** Removing elements from a slice by splicing. */
module Slices {
  import opened Sorting

  /** The elements that `remove` spares, in order. */
  function Reject(s: seq<string>, remove: string -> bool): (r: seq<string>)
    ensures forall x :: x in r <==> x in s && !remove(x)
  {
    if s == [] then []
    else (if remove(s[0]) then [] else [s[0]]) + Reject(s[1..], remove)
  }

  lemma {:induction false} RejectNothing(s: seq<string>, remove: string -> bool)
    requires forall x :: x in s ==> !remove(x)
    ensures Reject(s, remove) == s
  {
    if s != [] {
      assert s[0] in s;
      RejectNothing(s[1..], remove);
    }
  }

  lemma RejectHead(s: seq<string>, remove: string -> bool)
    requires s != []
    ensures var rest := Reject(s[1..], remove);
            Reject(s, remove) == if remove(s[0]) then rest else [s[0]] + rest
  {}

  /** The order is kept: rejecting goes part by part. */
  lemma {:induction false} RejectConcat(a: seq<string>, b: seq<string>, remove: string -> bool)
    ensures Reject(a + b, remove) == Reject(a, remove) + Reject(b, remove)
  {
    RejectEmpty(remove);
    hide Reject;
    if a == [] {
      assert a + b == b;
    } else {
      RejectConcat(a[1..], b, remove);
      assert (a + b)[0] == a[0] && (a + b)[1..] == a[1..] + b;
      RejectHead(a, remove);
      RejectHead(a + b, remove);
    }
  }

  lemma RejectFirst(r: seq<string>, i: nat, remove: string -> bool)
    requires i < |r|
    ensures var rest := Reject(r[i + 1..], remove);
            Reject(r[i..], remove) == if remove(r[i]) then rest else [r[i]] + rest
  {
    assert r[i..][1..] == r[i + 1..];
  }

  /** Splice out the elements one after the other, stepping back after each. */
  method RemoveString(slice: seq<string>, remove: string -> bool) returns (r: seq<string>)
    ensures r == Reject(slice, remove)
  {
    hide Reject;
    r := slice;
    var i := 0;
    while i < |r|
      invariant 0 <= i <= |r|
      invariant r[..i] + Reject(r[i..], remove) == Reject(slice, remove)
      decreases |r| - i
    {
      RejectFirst(r, i, remove);
      if remove(r[i]) {
        ghost var rest := r[i + 1..];
        r := r[..i] + r[i + 1..];
        assert r[i..] == rest;
        i := i - 1;
      }
      i := i + 1;
    }
    assert r[i..] == [] && r[..i] == r;
    RejectEmpty(remove);
  }

  lemma RejectEmpty(remove: string -> bool)
    ensures Reject([], remove) == []
  {}

  /** The elements of `s` at positions not in `dropped`, in order. */
  function Keep<T>(s: seq<T>, dropped: set<int>): seq<T> {
    if s == [] then []
    else Keep(s[..|s| - 1], dropped) + if |s| - 1 in dropped then [] else [s[|s| - 1]]
  }

  lemma {:induction false} KeepAll<T>(s: seq<T>, dropped: set<int>)
    requires forall i :: i in dropped ==> i < 0 || i >= |s|
    ensures Keep(s, dropped) == s
  {
    if s != [] {
      KeepAll(s[..|s| - 1], dropped);
    }
  }

  /** Splicing out the highest dropped position first leaves the lower ones where they were. */
  lemma {:induction false} KeepSplice<T>(s: seq<T>, dropped: set<int>, i: int)
    requires 0 <= i < |s| && i in dropped && forall j :: j in dropped && j < |s| ==> j <= i
    ensures Keep(s, dropped) == Keep(s[..i] + s[i + 1..], dropped - {i})
  {
    var n := |s| - 1;
    if i == n {
      assert s[..i] + s[i + 1..] == s[..n];
      KeepMore(s[..n], dropped, dropped - {i});
    } else {
      KeepSplice(s[..n], dropped, i);
      var t := s[..i] + s[i + 1..];
      assert t[..n - 1] == s[..n][..i] + s[..n][i + 1..];
      assert t[n - 1] == s[n];
    }
  }

  lemma {:induction false} KeepMore<T>(s: seq<T>, d: set<int>, e: set<int>)
    requires forall i :: 0 <= i < |s| ==> (i in d <==> i in e)
    ensures Keep(s, d) == Keep(s, e)
  {
    if s != [] {
      KeepMore(s[..|s| - 1], d, e);
    }
  }

  function Greater(i: int, j: int): bool { i > j }

  function Elements(s: seq<int>): set<int> {
    set i | i in s
  }

  ghost predicate NoRepeats(s: seq<int>) {
    forall x :: multiset(s)[x] <= 1
  }

  lemma DistinctElements(s: seq<int>, k: nat)
    requires NoRepeats(s) && k < |s|
    ensures Elements(s[k + 1..]) == Elements(s[k..]) - {s[k]}
  {
    var x := s[k];
    assert x in multiset(s) && multiset(s)[x] <= 1;
    assert s == s[..k] + [s[k]] + s[k + 1..];
    assert s[k..] == [s[k]] + s[k + 1..];
    assert multiset(s) == multiset(s[..k]) + multiset{s[k]} + multiset(s[k + 1..]);
    assert s[k] !in multiset(s[k + 1..]);
  }

  /** One splice of a strictly descending series. */
  lemma SpliceStep<T>(r: seq<T>, order: seq<int>, k: nat)
    requires NoRepeats(order) && Sorted(Greater, order) && k < |order|
    ensures var i := order[k];
            var spliced := if 0 <= i < |r| then r[..i] + r[i + 1..] else r;
            Keep(r, Elements(order[k..])) == Keep(spliced, Elements(order[k + 1..]))
  {
    DistinctElements(order, k);
    var i, dropped := order[k], Elements(order[k..]);
    forall j | j in dropped
      ensures j <= i
    {
      var m :| 0 <= m < |order[k..]| && order[k..][m] == j;
      assert order[k + m] == j;
    }
    if 0 <= i < |r| {
      KeepSplice(r, dropped, i);
    } else {
      KeepMore(r, dropped, dropped - {i});
    }
  }

  lemma KeepNone<T>(s: seq<T>)
    ensures Keep(s, Elements([])) == s
  {
    KeepAll(s, Elements([]));
  }

  method SortDescending(sub: seq<int>) returns (order: seq<int>)
    ensures Sorted(Greater, order) && NoRepeats(order) == NoRepeats(sub) && Elements(order) == Elements(sub)
  {
    order := Sort(Greater, sub);
    SortSorts(Greater, sub);
    SameElements(order, sub);
    assert multiset(order) == multiset(sub);
  }

  /** Splice out the positions of `sub` one after the other, highest first. Positions out of range
      are skipped. */
  method RemoveSubSlice<T>(slice: seq<T>, sub: seq<int>) returns (r: seq<T>)
    ensures NoRepeats(sub) ==> r == Keep(slice, Elements(sub))
  {
    hide NoRepeats, Sorted, Keep, Elements;
    var order := SortDescending(sub);
    assert order[0..] == order;
    r := slice;
    for k := 0 to |order|
      invariant NoRepeats(sub) ==> Keep(slice, Elements(sub)) == Keep(r, Elements(order[k..]))
    {
      if NoRepeats(order) {
        SpliceStep(r, order, k);
      }
      var i := order[k];
      if 0 <= i < |r| {
        r := r[..i] + r[i + 1..];
      }
    }
    assert order[|order|..] == [];
    KeepNone(r);
  }
}
