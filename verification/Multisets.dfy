/** Sorting, duplicates and mapped sequences, seen as multisets. */
module Multisets {
  /** `xs.flatMap(g)` */
  function ConcatMap<A, B>(xs: seq<A>, g: A -> seq<B>): seq<B> {
    if xs == [] then [] else ConcatMap(xs[..|xs| - 1], g) + g(xs[|xs| - 1])
  }

  lemma ConcatMapSnoc<A, B>(xs: seq<A>, i: nat, g: A -> seq<B>)
    requires i < |xs|
    ensures ConcatMap(xs[..i + 1], g) == ConcatMap(xs[..i], g) + g(xs[i])
  {
    assert xs[..i + 1][..i] == xs[..i];
  }

  lemma {:induction false} ConcatMapIn<A, B>(xs: seq<A>, g: A -> seq<B>, x: B)
    ensures x in ConcatMap(xs, g) <==> exists i :: 0 <= i < |xs| && x in g(xs[i])
  {
    if xs != [] {
      var front, last := xs[..|xs| - 1], xs[|xs| - 1];
      ConcatMapIn(front, g, x);
      if x in ConcatMap(front, g) {
        var i :| 0 <= i < |front| && x in g(front[i]);
        assert x in g(xs[i]);
      }
    }
  }

  lemma {:induction false} ConcatMapEmpty<A, B>(xs: seq<A>, g: A -> seq<B>)
    ensures ConcatMap(xs, g) == [] <==> forall i | 0 <= i < |xs| :: g(xs[i]) == []
  {
    if xs != [] {
      var front := xs[..|xs| - 1];
      ConcatMapEmpty(front, g);
      if ConcatMap(xs, g) == [] {
        forall i | 0 <= i < |xs| ensures g(xs[i]) == [] {
          if i < |front| { assert g(front[i]) == []; }
        }
      }
    }
  }

  lemma ConcatMapFour<A, B>(a: A, b: A, c: A, d: A, g: A -> seq<B>)
    ensures ConcatMap([a, b, c, d], g) == [] <==> g(a) == [] && g(b) == [] && g(c) == [] && g(d) == []
  {
    var xs := [a, b, c, d];
    ConcatMapEmpty(xs, g);
    assert xs[0] == a && xs[1] == b && xs[2] == c && xs[3] == d;
  }

  /** `xs.map(g)` */
  function Map<A, B>(xs: seq<A>, g: A -> B): (r: seq<B>)
    ensures |r| == |xs| && forall i | 0 <= i < |xs| :: r[i] == g(xs[i])
  {
    if xs == [] then [] else [g(xs[0])] + Map(xs[1..], g)
  }

  /** `new Set(a).size === a.length` */
  predicate Unique<T(==)>(a: seq<T>) { |set x | x in a| == |a| }

  predicate Distinct<T(==)>(a: seq<T>) { forall i, j | 0 <= i < j < |a| :: a[i] != a[j] }

  lemma {:induction false} SetSize<T>(a: seq<T>)
    ensures |set x | x in a| <= |a|
    ensures Unique(a) <==> Distinct(a)
  {
    if a != [] {
      var tail := a[1..];
      SetSize(tail);
      var s, t := set x | x in a, set x | x in tail;
      assert a == [a[0]] + tail;
      assert s == t + {a[0]};
      if a[0] in t {
        var j :| 0 <= j < |tail| && tail[j] == a[0];
        assert a[j + 1] == a[0];
      } else {
        assert |s| == |t| + 1;
        if Distinct(tail) {
          forall i, j | 0 <= i < j < |a| ensures a[i] != a[j] {
            assert a[j] == tail[j - 1];
            if i > 0 { assert a[i] == tail[i - 1]; }
          }
        }
        if Distinct(a) {
          forall i, j | 0 <= i < j < |tail| ensures tail[i] != tail[j] {
            assert tail[i] == a[i + 1] && tail[j] == a[j + 1];
          }
        }
      }
    }
  }

  /** An element that occurs once has one index. */
  lemma {:induction false} Occurrences<T>(a: seq<T>, x: T)
    ensures x in a <==> multiset(a)[x] >= 1
    ensures multiset(a)[x] >= 2 <==> exists i, j :: 0 <= i < j < |a| && a[i] == x == a[j]
  {
    if a != [] {
      var tail := a[1..];
      Occurrences(tail, x);
      assert a == [a[0]] + tail;
      assert multiset(a) == multiset{a[0]} + multiset(tail);
      if multiset(a)[x] >= 2 {
        if a[0] == x {
          var j :| 0 <= j < |tail| && tail[j] == x;
          assert a[0] == x == a[j + 1];
        } else {
          var i, j :| 0 <= i < j < |tail| && tail[i] == x == tail[j];
          assert a[i + 1] == x == a[j + 1];
        }
      }
      if i, j :| 0 <= i < j < |a| && a[i] == x == a[j] {
        assert tail[j - 1] == x;
        if i > 0 { assert tail[i - 1] == x; }
      }
    }
  }

  lemma OncePlace<T>(a: seq<T>, i: nat, j: nat)
    requires i < |a| && j < |a| && a[i] == a[j] && multiset(a)[a[i]] <= 1
    ensures i == j
  {
    Occurrences(a, a[i]);
  }

  lemma AtMostOnce<T>(a: seq<T>, x: T)
    requires Distinct(a)
    ensures multiset(a)[x] <= 1
  {
    Occurrences(a, x);
  }

  lemma DistinctOnce<T>(a: seq<T>)
    ensures Distinct(a) <==> forall x | x in a :: multiset(a)[x] == 1
  {
    forall x ensures x in a <==> multiset(a)[x] >= 1 { Occurrences(a, x); }
    if Distinct(a) {
      forall x | x in a ensures multiset(a)[x] == 1 { Occurrences(a, x); }
    }
    if forall x | x in a :: multiset(a)[x] == 1 {
      forall i, j | 0 <= i < j < |a| ensures a[i] != a[j] { Occurrences(a, a[i]); }
    }
  }

  lemma TakeOut<T>(b: seq<T>, k: nat)
    requires k < |b|
    ensures multiset(b) == multiset{b[k]} + multiset(b[..k] + b[k + 1..])
  {
    assert b == b[..k] + ([b[k]] + b[k + 1..]);
  }

  lemma Cancel<T>(x: T, m: multiset<T>, n: multiset<T>)
    requires multiset{x} + m == multiset{x} + n
    ensures m == n
  {
    forall y ensures m[y] == n[y] {
      assert (multiset{x} + m)[y] == (multiset{x} + n)[y];
    }
  }

  /** Taking the same element out of two permutations of each other. */
  lemma SameRest<T>(a: seq<T>, b: seq<T>, k: nat)
    requires a != [] && k < |b| && b[k] == a[0] && multiset(a) == multiset(b)
    ensures multiset(a[1..]) == multiset(b[..k] + b[k + 1..])
  {
    TakeOut(a, 0);
    assert a[..0] + a[1..] == a[1..];
    TakeOut(b, k);
    Cancel(a[0], multiset(a[1..]), multiset(b[..k] + b[k + 1..]));
  }

  lemma SameTail<T>(a: seq<T>, b: seq<T>)
    requires a != [] && b != [] && b[0] == a[0] && multiset(a) == multiset(b)
    ensures multiset(a[1..]) == multiset(b[1..])
  {
    SameRest(a, b, 0);
    assert b[..0] + b[1..] == b[1..];
  }

  lemma HeadTail<T>(a: seq<T>, b: seq<T>)
    requires a != [] && b != [] && a[0] == b[0] && a[1..] == b[1..]
    ensures a == b
  {
    assert a == [a[0]] + a[1..] && b == [b[0]] + b[1..];
  }

  lemma SameSize<T>(a: seq<T>, b: seq<T>)
    requires multiset(a) == multiset(b)
    ensures |a| == |b|
  {
    assert |multiset(a)| == |a| && |multiset(b)| == |b|;
  }

  lemma MapRemove<A, B>(b: seq<A>, k: nat, g: A -> B)
    requires k < |b|
    ensures Map(b[..k] + b[k + 1..], g) == Map(b, g)[..k] + Map(b, g)[k + 1..]
  {
    var front, back, m := b[..k], b[k + 1..], Map(b, g);
    MapConcat(front, back, g);
    assert Map(front, g) == m[..k];
    assert Map(back, g) == m[k + 1..];
  }

  lemma MapConcat<A, B>(a: seq<A>, b: seq<A>, g: A -> B)
    ensures Map(a + b, g) == Map(a, g) + Map(b, g)
  {
    var c := a + b;
    var x, y, z := Map(c, g), Map(a, g), Map(b, g);
    forall i | 0 <= i < |c| ensures x[i] == (y + z)[i] {
      if i < |a| {
        assert c[i] == a[i] && y[i] == g(a[i]);
      } else {
        assert c[i] == b[i - |a|] && z[i - |a|] == g(b[i - |a|]);
      }
    }
    assert x == y + z;
  }

  lemma MapTakeOut<A, B>(b: seq<A>, k: nat, g: A -> B)
    requires k < |b|
    ensures multiset(Map(b, g)) == multiset{g(b[k])} + multiset(Map(b[..k] + b[k + 1..], g))
  {
    var m := Map(b, g);
    MapRemove(b, k, g);
    TakeOut(m, k);
  }

  /** Mapping two permutations of each other keeps them permutations. */
  lemma {:induction false} MapPermutes<A, B>(a: seq<A>, b: seq<A>, g: A -> B)
    requires multiset(a) == multiset(b)
    ensures multiset(Map(a, g)) == multiset(Map(b, g))
  {
    SameSize(a, b);
    if a != [] {
      assert a[0] in multiset(a);
      var k :| 0 <= k < |b| && b[k] == a[0];
      SameRest(a, b, k);
      MapPermutes(a[1..], b[..k] + b[k + 1..], g);
      MapTakeOut(a, 0, g);
      assert a[..0] + a[1..] == a[1..];
      MapTakeOut(b, k, g);
    }
  }

  lemma {:induction false} ConcatMapConcat<A, B>(a: seq<A>, b: seq<A>, g: A -> seq<B>)
    ensures ConcatMap(a + b, g) == ConcatMap(a, g) + ConcatMap(b, g)
  {
    if b == [] {
      assert a + b == a;
    } else {
      var n := |b| - 1;
      assert (a + b)[..|a + b| - 1] == a + b[..n];
      ConcatMapConcat(a, b[..n], g);
    }
  }

  lemma ConcatMapTakeOut<A, B>(b: seq<A>, k: nat, g: A -> seq<B>)
    requires k < |b|
    ensures multiset(ConcatMap(b, g)) == multiset(g(b[k])) + multiset(ConcatMap(b[..k] + b[k + 1..], g))
  {
    var front, back := b[..k], b[k + 1..];
    assert b == front + [b[k]] + back;
    ConcatMapConcat(front + [b[k]], back, g);
    ConcatMapConcat(front, [b[k]], g);
    ConcatMapConcat(front, back, g);
    assert ConcatMap([b[k]], g) == g(b[k]);
  }

  lemma ConcatMapHead<A, B>(a: seq<A>, g: A -> seq<B>)
    requires a != []
    ensures multiset(ConcatMap(a, g)) == multiset(g(a[0])) + multiset(ConcatMap(a[1..], g))
  {
    ConcatMapTakeOut(a, 0, g);
    assert a[..0] + a[1..] == a[1..];
  }

  lemma {:induction false} ConcatMapPermutes<A, B>(a: seq<A>, b: seq<A>, g: A -> seq<B>)
    requires multiset(a) == multiset(b)
    ensures multiset(ConcatMap(a, g)) == multiset(ConcatMap(b, g))
  {
    SameSize(a, b);
    if a != [] {
      assert a[0] in multiset(a);
      var k :| 0 <= k < |b| && b[k] == a[0];
      var rest := b[..k] + b[k + 1..];
      SameRest(a, b, k);
      ConcatMapPermutes(a[1..], rest, g);
      ConcatMapHead(a, g);
      ConcatMapTakeOut(b, k, g);
    }
  }

  lemma {:induction false} ConcatMapOfMap<A, B, C>(a: seq<A>, g: A -> B, h: B -> seq<C>, k: A -> seq<C>)
    requires forall i | 0 <= i < |a| :: h(g(a[i])) == k(a[i])
    ensures ConcatMap(Map(a, g), h) == ConcatMap(a, k)
  {
    if a != [] {
      var n := |a| - 1;
      ConcatMapOfMap(a[..n], g, h, k);
      assert Map(a[..n], g) == Map(a, g)[..n];
    }
  }

  /** Different places of a concatenation hold different elements. */
  ghost predicate DistinctAcross<A(!new), B>(xs: seq<A>, g: A -> seq<B>) {
    && (forall i | 0 <= i < |xs| :: Distinct(g(xs[i])))
    && (forall i, j, y | 0 <= i < j < |xs| && y in g(xs[i]) :: y !in g(xs[j]))
  }

  lemma DistinctConcat<T>(a: seq<T>, b: seq<T>)
    ensures Distinct(a + b) <==> Distinct(a) && Distinct(b) && forall x | x in a :: x !in b
  {
    var c := a + b;
    if Distinct(c) {
      forall i, j | 0 <= i < j < |a| ensures a[i] != a[j] { assert c[i] != c[j]; }
      forall i, j | 0 <= i < j < |b| ensures b[i] != b[j] { assert c[|a| + i] != c[|a| + j]; }
      forall x | x in a ensures x !in b {
        var i :| 0 <= i < |a| && a[i] == x;
        assert forall j | 0 <= j < |b| :: c[i] != c[|a| + j] && c[|a| + j] == b[j];
      }
    }
    if Distinct(a) && Distinct(b) && forall x | x in a :: x !in b {
      forall i, j | 0 <= i < j < |c| ensures c[i] != c[j] {
        if i >= |a| { assert b[i - |a|] != b[j - |a|]; } else if j >= |a| { assert a[i] !in b; }
      }
    }
  }

  lemma {:induction false} DistinctConcatMap<A(!new), B>(xs: seq<A>, g: A -> seq<B>)
    ensures Distinct(ConcatMap(xs, g)) <==> DistinctAcross(xs, g)
  {
    if xs != [] {
      var n := |xs| - 1;
      var front, last := xs[..n], g(xs[n]);
      DistinctConcatMap(front, g);
      DistinctConcat(ConcatMap(front, g), last);
      if DistinctAcross(xs, g) {
        assert DistinctAcross(front, g);
        forall y | y in ConcatMap(front, g) ensures y !in last {
          ConcatMapIn(front, g, y);
          var i :| 0 <= i < |front| && y in g(front[i]);
          assert y in g(xs[i]);
        }
      }
      if Distinct(ConcatMap(xs, g)) {
        forall i | 0 <= i < |xs| ensures Distinct(g(xs[i])) {
          if i < n { assert Distinct(g(front[i])); }
        }
        forall i, j, y | 0 <= i < j < |xs| && y in g(xs[i]) ensures y !in g(xs[j]) {
          assert y in g(front[i]);
          if j < n {
            assert y !in g(front[j]);
          } else {
            ConcatMapIn(front, g, y);
          }
        }
      }
    }
  }

  // ----- stable sorting -----

  /** A comparison that puts any two elements in order, and does so consistently. */
  ghost predicate IsOrder<T(!new)>(leq: (T, T) -> bool) {
    && (forall x, y :: leq(x, y) || leq(y, x))
    && (forall x, y, z :: leq(x, y) && leq(y, z) ==> leq(x, z))
  }

  function InsertBy<T>(x: T, xs: seq<T>, leq: (T, T) -> bool): seq<T> {
    if xs == [] || leq(x, xs[0]) then [x] + xs else [xs[0]] + InsertBy(x, xs[1..], leq)
  }

  /** `xs.sort(...)` */
  function SortBy<T>(xs: seq<T>, leq: (T, T) -> bool): seq<T> {
    if xs == [] then [] else InsertBy(xs[0], SortBy(xs[1..], leq), leq)
  }

  predicate Ascending<T>(xs: seq<T>, leq: (T, T) -> bool) {
    forall i, j | 0 <= i < j < |xs| :: leq(xs[i], xs[j])
  }

  lemma {:induction false} InsertByPermutes<T>(x: T, xs: seq<T>, leq: (T, T) -> bool)
    ensures multiset(InsertBy(x, xs, leq)) == multiset{x} + multiset(xs)
  {
    if xs != [] {
      assert xs == [xs[0]] + xs[1..];
      InsertByPermutes(x, xs[1..], leq);
    }
  }

  lemma {:induction false} SortByPermutes<T>(xs: seq<T>, leq: (T, T) -> bool)
    ensures multiset(SortBy(xs, leq)) == multiset(xs)
  {
    if xs != [] {
      assert xs == [xs[0]] + xs[1..];
      SortByPermutes(xs[1..], leq);
      InsertByPermutes(xs[0], SortBy(xs[1..], leq), leq);
    }
  }

  lemma {:induction false} InsertByAscending<T(!new)>(x: T, xs: seq<T>, leq: (T, T) -> bool)
    requires IsOrder(leq) && Ascending(xs, leq)
    ensures Ascending(InsertBy(x, xs, leq), leq)
  {
    if xs != [] && !leq(x, xs[0]) {
      InsertByAscending(x, xs[1..], leq);
      InsertByPermutes(x, xs[1..], leq);
      var rest := InsertBy(x, xs[1..], leq);
      forall y | y in rest ensures leq(xs[0], y) {
        assert y in multiset(rest);
        assert y == x || y in xs[1..];
      }
    }
  }

  lemma {:induction false} SortByAscending<T(!new)>(xs: seq<T>, leq: (T, T) -> bool)
    requires IsOrder(leq)
    ensures Ascending(SortBy(xs, leq), leq)
  {
    if xs != [] {
      SortByAscending(xs[1..], leq);
      InsertByAscending(xs[0], SortBy(xs[1..], leq), leq);
    }
  }

  /** No two different elements of `a` are ties. */
  predicate Separates<T(==)>(a: seq<T>, leq: (T, T) -> bool) {
    forall i, j | 0 <= i < |a| && 0 <= j < |a| && leq(a[i], a[j]) && leq(a[j], a[i]) :: a[i] == a[j]
  }

  lemma LeastFirst<T>(a: seq<T>, b: seq<T>, leq: (T, T) -> bool)
    requires a != [] && b != [] && multiset(a) == multiset(b)
    requires Ascending(a, leq) && Ascending(b, leq) && Separates(a, leq)
    ensures a[0] == b[0]
  {
    assert a[0] in multiset(b) && b[0] in multiset(a);
    var i :| 0 <= i < |a| && a[i] == b[0];
    var j :| 0 <= j < |b| && b[j] == a[0];
    if i > 0 && j > 0 { assert leq(a[0], a[i]) && leq(b[0], b[j]); }
  }

  /** Without ties there is one sorted arrangement. */
  lemma {:induction false} AscendingUnique<T>(a: seq<T>, b: seq<T>, leq: (T, T) -> bool)
    requires multiset(a) == multiset(b) && Ascending(a, leq) && Ascending(b, leq)
    requires Separates(a, leq)
    ensures a == b
  {
    SameSize(a, b);
    if a != [] {
      LeastFirst(a, b, leq);
      SameTail(a, b);
      AscendingUnique(a[1..], b[1..], leq);
      HeadTail(a, b);
    }
  }

  lemma SeparatesPermuted<T>(a: seq<T>, b: seq<T>, leq: (T, T) -> bool)
    requires multiset(a) == multiset(b) && Separates(a, leq)
    ensures Separates(b, leq)
  {
    forall i, j | 0 <= i < |b| && 0 <= j < |b| && leq(b[i], b[j]) && leq(b[j], b[i])
      ensures b[i] == b[j]
    {
      assert b[i] in multiset(a) && b[j] in multiset(a);
      var k :| 0 <= k < |a| && a[k] == b[i];
      var l :| 0 <= l < |a| && a[l] == b[j];
    }
  }

  /** Without ties, sorting forgets the order and nothing else. */
  lemma SortedExactly<T(!new)>(a: seq<T>, b: seq<T>, leq: (T, T) -> bool)
    requires IsOrder(leq) && Separates(a, leq)
    ensures SortBy(a, leq) == SortBy(b, leq) <==> multiset(a) == multiset(b)
  {
    SortByPermutes(a, leq);
    SortByPermutes(b, leq);
    if multiset(a) == multiset(b) {
      SortByAscending(a, leq);
      SortByAscending(b, leq);
      SeparatesPermuted(a, SortBy(a, leq), leq);
      AscendingUnique(SortBy(a, leq), SortBy(b, leq), leq);
    }
  }
}
