/** Sorting a slice by a "comes before" function, as the library sort the code calls does it: some
    permutation in which nothing comes before an earlier element. */
module Sorting {

  /** On distinct elements of `s`, `less` is a strict total order. */
  ghost predicate OrderOn<T>(less: (T, T) -> bool, s: seq<T>) {
    && (forall a, b :: a in s && b in s && a != b ==> less(a, b) != less(b, a))
    && (forall a, b, c :: a in s && b in s && c in s && a != b && b != c && a != c && less(a, b) && less(b, c) ==>
         less(a, c))
  }

  ghost predicate Sorted<T>(less: (T, T) -> bool, s: seq<T>) {
    forall i, j :: 0 <= i < j < |s| ==> s[i] == s[j] || less(s[i], s[j])
  }

  /** `a` may stand before `b`. */
  predicate May<T>(less: (T, T) -> bool, a: T, b: T) {
    less(a, b) || !less(b, a)
  }

  function Insert<T(==)>(less: (T, T) -> bool, x: T, s: seq<T>): (r: seq<T>)
    ensures multiset(r) == multiset{x} + multiset(s)
  {
    if s == [] then [x]
    else if May(less, x, s[0]) then [x] + s
    else
      var r := Insert(less, x, s[1..]);
      assert s == [s[0]] + s[1..];
      [s[0]] + r
  }

  function Sort<T(==)>(less: (T, T) -> bool, s: seq<T>): (r: seq<T>)
    ensures multiset(r) == multiset(s)
  {
    if s == [] then [] else
    assert s == [s[0]] + s[1..];
    Insert(less, s[0], Sort(less, s[1..]))
  }

  lemma SameElements<T>(a: seq<T>, b: seq<T>)
    requires multiset(a) == multiset(b)
    ensures forall x :: x in a <==> x in b
    ensures |a| == |b|
  {
    assert forall x :: x in a <==> x in multiset(a);
    assert |a| == |multiset(a)| == |b|;
  }

  lemma {:induction false} InsertSorts<T>(less: (T, T) -> bool, x: T, s: seq<T>)
    requires OrderOn(less, [x] + s) && Sorted(less, s)
    ensures Sorted(less, Insert(less, x, s))
  {
    if s != [] && x != s[0] {
      assert x in [x] + s && s[0] in [x] + s;
      if less(x, s[0]) {
        forall j | 0 <= j < |s|
          ensures x == s[j] || less(x, s[j])
        {
          assert s[j] in [x] + s;
        }
      } else {
        assert forall y :: y in [x] + s[1..] ==> y in [x] + s;
        InsertSorts(less, x, s[1..]);
        HeadComesFirst(less, x, s);
      }
    }
  }

  lemma HeadComesFirst<T>(less: (T, T) -> bool, x: T, s: seq<T>)
    requires Sorted(less, s) && s != [] && less(s[0], x)
    ensures forall y :: y in Insert(less, x, s[1..]) ==> y == s[0] || less(s[0], y)
  {
    forall y | y in Insert(less, x, s[1..])
      ensures y == s[0] || less(s[0], y)
    {
      assert y in multiset(Insert(less, x, s[1..]));
      if y != x {
        assert y in multiset(s[1..]);
        var k :| 1 <= k < |s| && s[k] == y;
      }
    }
  }

  lemma {:induction false} SortSorts<T>(less: (T, T) -> bool, s: seq<T>)
    requires OrderOn(less, s)
    ensures Sorted(less, Sort(less, s))
  {
    if s != [] {
      assert forall y :: y in s[1..] ==> y in s;
      SortSorts(less, s[1..]);
      var tail := Sort(less, s[1..]);
      SameElements(tail, s[1..]);
      forall y | y in [s[0]] + tail
        ensures y in s
      {
        assert y == s[0] || y in multiset(tail);
        assert y == s[0] || y in s[1..];
      }
      InsertSorts(less, s[0], Sort(less, s[1..]));
    }
  }

  /** Sorted permutations of the same elements are equal: no other answer is possible. */
  lemma {:induction false} SortedUnique<T>(less: (T, T) -> bool, a: seq<T>, b: seq<T>)
    requires OrderOn(less, a) && multiset(a) == multiset(b)
    requires Sorted(less, a) && Sorted(less, b)
    ensures a == b
  {
    SameElements(a, b);
    if a != [] {
      SameHead(less, a, b);
      TailElements(a, b);
      assert OrderOn(less, a[1..]) by {
        assert forall y :: y in a[1..] ==> y in a;
      }
      SortedUnique(less, a[1..], b[1..]);
      assert a == [a[0]] + a[1..] && b == [b[0]] + b[1..];
    }
  }

  lemma SameHead<T>(less: (T, T) -> bool, a: seq<T>, b: seq<T>)
    requires OrderOn(less, a) && a != [] && b != [] && a[0] in b && b[0] in a
    requires Sorted(less, a) && Sorted(less, b)
    ensures a[0] == b[0]
  {
    var i :| 0 <= i < |b| && b[i] == a[0];
    var j :| 0 <= j < |a| && a[j] == b[0];
  }

  lemma TailElements<T>(a: seq<T>, b: seq<T>)
    requires multiset(a) == multiset(b) && a != [] && b != [] && a[0] == b[0]
    ensures multiset(a[1..]) == multiset(b[1..])
  {
    assert a == [a[0]] + a[1..] && b == [b[0]] + b[1..];
    assert multiset(a[1..]) == multiset(a) - multiset{a[0]};
    assert multiset(b[1..]) == multiset(b) - multiset{b[0]};
  }

  lemma WithoutOne<T>(b: seq<T>, i: nat)
    requires i < |b|
    ensures multiset(b) == multiset{b[i]} + multiset(b[..i] + b[i + 1..])
  {
    var left, right := b[..i], b[i + 1..];
    assert b == left + ([b[i]] + right);
    assert multiset(b) == multiset(left) + multiset([b[i]] + right);
    assert multiset([b[i]] + right) == multiset{b[i]} + multiset(right);
    assert multiset(left + right) == multiset(left) + multiset(right);
  }

  /** Taking one and the same element out of both. */
  lemma HeadOut<T>(a: seq<T>, b: seq<T>, i: nat)
    requires multiset(a) == multiset(b) && a != [] && i < |b| && b[i] == a[0]
    ensures multiset(a[1..]) == multiset(b[..i] + b[i + 1..])
  {
    WithoutOne(a, 0);
    WithoutOne(b, i);
    assert a[..0] + a[1..] == a[1..];
    SameRest(multiset(a[1..]), multiset(b[..i] + b[i + 1..]), a[0]);
  }

  lemma SameRest<T>(x: multiset<T>, y: multiset<T>, e: T)
    requires multiset{e} + x == multiset{e} + y
    ensures x == y
  {
    assert x == (multiset{e} + x) - multiset{e};
    assert y == (multiset{e} + y) - multiset{e};
  }

  // ---- elements that tie ----

  /** What a library sort promises: nothing comes before an earlier element. */
  ghost predicate InOrder<T>(less: (T, T) -> bool, s: seq<T>) {
    forall i, j :: 0 <= i < j < |s| ==> May(less, s[i], s[j])
  }

  /** Being allowed to stand before is total and transitive. */
  ghost predicate Ranks<T(!new)>(less: (T, T) -> bool) {
    && (forall a, b :: May(less, a, b) || May(less, b, a))
    && (forall a, b, c :: May(less, a, b) && May(less, b, c) ==> May(less, a, c))
  }

  lemma {:induction false} InsertOrders<T(!new)>(less: (T, T) -> bool, x: T, s: seq<T>)
    requires Ranks(less) && InOrder(less, s)
    ensures InOrder(less, Insert(less, x, s))
  {
    if s != [] {
      if May(less, x, s[0]) {
        assert forall j :: 0 <= j < |s| ==> May(less, x, s[j]);
      } else {
        InsertOrders(less, x, s[1..]);
        var r := Insert(less, x, s[1..]);
        hide May, Insert;
        forall j | 0 <= j < |r|
          ensures May(less, s[0], r[j])
        {
          assert r[j] in multiset(r);
          assert r[j] == x || r[j] in multiset(s[1..]);
          if r[j] != x {
            var k :| 1 <= k < |s| && s[k] == r[j];
          }
        }
      }
    }
  }

  /** Sorting puts elements in order even if some tie. */
  lemma {:induction false} SortOrders<T(!new)>(less: (T, T) -> bool, s: seq<T>)
    requires Ranks(less)
    ensures InOrder(less, Sort(less, s))
  {
    if s != [] {
      SortOrders(less, s[1..]);
      InsertOrders(less, s[0], Sort(less, s[1..]));
    }
  }

  /** Neither of two elements has to come first, and to any other they relate alike. */
  ghost predicate Tie<T(!new)>(less: (T, T) -> bool, a: T, b: T) {
    && May(less, a, b) && May(less, b, a)
    && forall c :: (May(less, a, c) <==> May(less, b, c)) && (May(less, c, a) <==> May(less, c, b))
  }

  /** If two different elements tie, there are two permutations in order. */
  lemma TwoOrders<T(!new)>(less: (T, T) -> bool, s: seq<T>, a: T, b: T) returns (r: seq<T>, q: seq<T>)
    requires Ranks(less) && a in s && b in s && a != b && Tie(less, a, b)
    ensures multiset(r) == multiset(s) == multiset(q) && InOrder(less, r) && InOrder(less, q) && r != q
  {
    r := Sort(less, s);
    SortOrders(less, s);
    SameElements(r, s);
    var i, j :| 0 <= i < |r| && 0 <= j < |r| && r[i] == a && r[j] == b;
    q := r[i := b][j := a];
    SwapKeeps(r, i, j);
    hide May;
    forall k, l | 0 <= k < l < |q|
      ensures May(less, q[k], q[l])
    {
      assert May(less, r[k], r[l]);
    }
    assert r[i] != q[i];
  }

  lemma SwapKeeps<T>(r: seq<T>, i: nat, j: nat)
    requires i < |r| && j < |r|
    ensures multiset(r[i := r[j]][j := r[i]]) == multiset(r)
  {}
}
