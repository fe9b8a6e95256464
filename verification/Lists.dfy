/** Lists without repetition, and stable sorting. */
module Lists {

  function AsSet<T>(s: seq<T>): set<T> { set x | x in s }

  predicate Distinct<T(==)>(s: seq<T>) { forall i, j | 0 <= i < j < |s| :: s[i] != s[j] }

  lemma AppendDistinct<T>(s: seq<T>, x: T)
    requires Distinct(s) && x !in s
    ensures Distinct(s + [x])
  {
  }

  lemma {:induction false} DistinctSize<T>(s: seq<T>)
    requires Distinct(s)
    ensures |AsSet(s)| == |s|
  {
    if s == [] {
      assert AsSet(s) == {};
    } else {
      var front, x := s[..|s| - 1], s[|s| - 1];
      DistinctSize(front);
      assert AsSet(s) == AsSet(front) + {x} && x !in AsSet(front);
    }
  }

  lemma {:induction false} DistinctIffCounts<T(!new)>(s: seq<T>)
    ensures Distinct(s) <==> forall x :: multiset(s)[x] <= 1
  {
    if s != [] {
      var front, x := s[..|s| - 1], s[|s| - 1];
      DistinctIffCounts(front);
      assert s == front + [x];
      assert multiset(s) == multiset(front) + multiset{x};
      if Distinct(s) {
        assert Distinct(front) && x !in front;
        assert multiset(front)[x] == 0;
      } else if Distinct(front) {
        assert x in front;
        assert multiset(s)[x] > 1;
      } else {
        var y :| multiset(front)[y] > 1;
        assert multiset(s)[y] > 1;
      }
    }
  }

  lemma SubsetSize<T>(a: set<T>, b: set<T>)
    requires a <= b
    ensures |a| <= |b| && (a != b ==> |a| < |b|)
  {
    assert b == a + (b - a) && a !! (b - a);
    if a != b {
      assert b - a != {};
    }
  }

  /** Any set can be listed. */
  lemma ListOf<T(!new)>(items: set<T>) returns (order: seq<T>)
    ensures Distinct(order) && forall x :: x in order <==> x in items
  {
    order := [];
    var rest := items;
    while rest != {}
      invariant rest <= items && Distinct(order) && forall x :: x in order <==> x in items - rest
      decreases rest
    {
      var x :| x in rest;
      assert x !in order;
      AppendDistinct(order, x);
      order, rest := order + [x], rest - {x};
    }
  }

  /** The same elements in another order: distinct still, and the same set. */
  lemma Reordered<T(!new)>(a: seq<T>, b: seq<T>)
    requires multiset(a) == multiset(b)
    ensures Distinct(a) <==> Distinct(b)
    ensures AsSet(a) == AsSet(b) && |a| == |b|
    ensures forall x :: x in a <==> x in b
  {
    DistinctIffCounts(a);
    DistinctIffCounts(b);
    forall x
      ensures x in a <==> x in b
    {
      assert x in a <==> x in multiset(a);
      assert x in b <==> x in multiset(b);
    }
    assert |multiset(a)| == |a| && |multiset(b)| == |b|;
  }

  /** Insertion behind everything that x does not precede. */
  function Insert<T>(less: (T, T) -> bool, s: seq<T>, x: T): (r: seq<T>)
    ensures multiset(r) == multiset(s) + multiset{x}
  {
    if s == [] || !less(x, s[|s| - 1]) then s + [x]
    else
      assert s == s[..|s| - 1] + [s[|s| - 1]];
      Insert(less, s[..|s| - 1], x) + [s[|s| - 1]]
  }

  lemma InsertMembers<T(!new)>(less: (T, T) -> bool, s: seq<T>, x: T)
    ensures |Insert(less, s, x)| == |s| + 1 && forall k :: k in Insert(less, s, x) <==> k in s || k == x
  {
    assert multiset(Insert(less, s, x)) == multiset(s + [x]);
    Reordered(Insert(less, s, x), s + [x]);
  }

  /** sort.SliceStable */
  function SortStable<T>(less: (T, T) -> bool, s: seq<T>): (r: seq<T>)
    ensures multiset(r) == multiset(s)
  {
    if s == [] then []
    else
      assert s == s[..|s| - 1] + [s[|s| - 1]];
      Insert(less, SortStable(less, s[..|s| - 1]), s[|s| - 1])
  }

  /** Every element stands in the relation to all that follow it. */
  predicate Ascending<T>(le: (T, T) -> bool, s: seq<T>) { forall i, j | 0 <= i < j < |s| :: le(s[i], s[j]) }

  /** On the elements of s, le is transitive, and what less puts in front is not greater, nor what it does not. */
  ghost predicate Refines<T(!new)>(less: (T, T) -> bool, le: (T, T) -> bool, s: seq<T>) {
    && (forall a, b | a in s && b in s :: if less(a, b) then le(a, b) else le(b, a))
    && forall a, b, c | a in s && b in s && c in s && le(a, b) && le(b, c) :: le(a, c)
  }

  lemma {:induction false} InsertAscends<T(!new)>(less: (T, T) -> bool, le: (T, T) -> bool, s: seq<T>, x: T)
    requires Refines(less, le, s + [x]) && Ascending(le, s)
    ensures Ascending(le, Insert(less, s, x))
  {
    assert x in s + [x] && forall k | k in s :: k in s + [x];
    if s != [] && less(x, s[|s| - 1]) {
      var front, last := s[..|s| - 1], s[|s| - 1];
      assert forall k | k in front + [x] :: k in s + [x];
      InsertAscends(less, le, front, x);
      InsertMembers(less, front, x);
      var r := Insert(less, front, x);
      forall i | 0 <= i < |r|
        ensures le(r[i], last)
      {
        assert r[i] in r;
        if r[i] != x {
          var j :| 0 <= j < |front| && front[j] == r[i];
          assert s[j] == r[i];
        }
      }
    } else if s != [] {
      forall i | 0 <= i < |s|
        ensures le(s[i], x)
      {
        assert s[i] in s && s[|s| - 1] in s;
      }
    }
  }

  /** A sort by an order that refines a transitive relation lists the elements in that relation. */
  lemma {:induction false} SortAscends<T(!new)>(less: (T, T) -> bool, le: (T, T) -> bool, s: seq<T>)
    requires Refines(less, le, s)
    ensures Ascending(le, SortStable(less, s))
  {
    if s != [] {
      var front, x := s[..|s| - 1], s[|s| - 1];
      var sorted := SortStable(less, front);
      SortAscends(less, le, front);
      Reordered(sorted, front);
      assert forall k | k in sorted + [x] :: k in s;
      InsertAscends(less, le, sorted, x);
    }
  }

  /** Orders that agree on the elements sort alike. */
  lemma {:induction false} InsertAgrees<T>(f: (T, T) -> bool, g: (T, T) -> bool, s: seq<T>, x: T)
    requires forall y | y in s :: f(x, y) == g(x, y)
    ensures Insert(f, s, x) == Insert(g, s, x)
  {
    if s != [] {
      InsertAgrees(f, g, s[..|s| - 1], x);
    }
  }

  lemma {:induction false} SortAgrees<T(!new)>(f: (T, T) -> bool, g: (T, T) -> bool, s: seq<T>)
    requires forall x, y | x in s && y in s :: f(x, y) == g(x, y)
    ensures SortStable(f, s) == SortStable(g, s)
  {
    if s != [] {
      var front, x := s[..|s| - 1], s[|s| - 1];
      SortAgrees(f, g, front);
      Reordered(SortStable(f, front), front);
      InsertAgrees(f, g, SortStable(f, front), x);
    }
  }

  lemma SortPair<T>(less: (T, T) -> bool, x: T, y: T)
    ensures SortStable(less, [x, y]) == if less(y, x) then [y, x] else [x, y]
  {
    assert [x, y][..1] == [x] && [x][..0] == [];
    assert SortStable(less, [x]) == [x];
    assert Insert(less, [], y) == [y];
  }

  // ---- Sorted already ----

  lemma JoinAssociates<T>(a: seq<T>, b: seq<T>, c: seq<T>)
    ensures (a + b) + c == a + (b + c)
  {
  }

  lemma InsertLast<T>(less: (T, T) -> bool, s: seq<T>, last: T, x: T)
    ensures Insert(less, s + [last], x) == if less(x, last) then Insert(less, s, x) + [last] else s + [last, x]
  {
    assert (s + [last])[..|s|] == s;
  }

  lemma {:induction false} InsertBehind<T>(less: (T, T) -> bool, a: seq<T>, b: seq<T>, x: T)
    requires forall y | y in a :: !less(x, y)
    ensures Insert(less, a + b, x) == a + Insert(less, b, x)
  {
    if b == [] {
      assert a + b == a;
    } else {
      hide Insert;
      var front, last := b[..|b| - 1], b[|b| - 1];
      assert b == front + [last] && a + b == (a + front) + [last];
      InsertBehind(less, a, front, x);
      InsertLast(less, front, last, x);
      InsertLast(less, a + front, last, x);
      JoinAssociates(a, Insert(less, front, x), [last]);
      JoinAssociates(a, front, [last, x]);
    }
  }

  lemma SortNext<T>(less: (T, T) -> bool, s: seq<T>, x: T)
    ensures SortStable(less, s + [x]) == Insert(less, SortStable(less, s), x)
  {
    hide Insert;
    assert (s + [x])[..|s|] == s;
  }

  lemma SortNone<T>(less: (T, T) -> bool)
    ensures SortStable(less, []) == []
  {
  }

  /** What is not less than anything in front of it is sorted behind it. */
  lemma {:induction false} SortBehind<T(!new)>(less: (T, T) -> bool, a: seq<T>, b: seq<T>)
    requires forall x, y | x in b && y in a :: !less(x, y)
    ensures SortStable(less, a + b) == SortStable(less, a) + SortStable(less, b)
  {
    hide Insert, SortStable;
    if b == [] {
      assert a + b == a;
      SortNone(less);
    } else {
      var front, x := b[..|b| - 1], b[|b| - 1];
      assert b == front + [x] && a + b == (a + front) + [x];
      SortBehind(less, a, front);
      SortNext(less, front, x);
      SortNext(less, a + front, x);
      Reordered(SortStable(less, a), a);
      InsertBehind(less, SortStable(less, a), SortStable(less, front), x);
    }
  }

  lemma InsertAtEnd<T>(less: (T, T) -> bool, s: seq<T>, x: T)
    requires forall y | y in s :: !less(x, y)
    ensures Insert(less, s, x) == s + [x]
  {
  }

  /** A list in order stays as it is. */
  lemma {:induction false} SortedStays<T(!new)>(less: (T, T) -> bool, s: seq<T>)
    requires forall i, j | 0 <= i < j < |s| :: !less(s[j], s[i])
    ensures SortStable(less, s) == s
  {
    hide Insert, SortStable;
    if s == [] {
      SortNone(less);
    } else {
      var front, x := s[..|s| - 1], s[|s| - 1];
      assert s == front + [x];
      forall i, j | 0 <= i < j < |front|
        ensures !less(front[j], front[i])
      {
        assert front[i] == s[i] && front[j] == s[j];
      }
      SortedStays(less, front);
      InsertAtEnd(less, front, x);
      SortNext(less, front, x);
    }
  }

  // ---- Stability ----

  predicate Ahead<T(==)>(s: seq<T>, x: T, y: T) { exists i, j :: 0 <= i < j < |s| && s[i] == x && s[j] == y }

  lemma {:induction false} InsertKeepsAhead<T>(less: (T, T) -> bool, s: seq<T>, k: T, x: T, y: T)
    requires Ahead(s, x, y)
    ensures Ahead(Insert(less, s, k), x, y)
  {
    var i, j :| 0 <= i < j < |s| && s[i] == x && s[j] == y;
    var n := |s| - 1;
    if less(k, s[n]) {
      var r := Insert(less, s[..n], k);
      if j < n {
        assert s[..n][i] == x && s[..n][j] == y;
        InsertKeepsAhead(less, s[..n], k, x, y);
        var a, b :| 0 <= a < b < |r| && r[a] == x && r[b] == y;
        assert (r + [s[n]])[a] == x && (r + [s[n]])[b] == y;
      } else {
        assert x in multiset(s[..n]) by { assert s[..n][i] == x; }
        assert x in multiset(r) && x in r;
        var a :| 0 <= a < |r| && r[a] == x;
        assert (r + [s[n]])[a] == x && (r + [s[n]])[|r|] == y;
      }
    } else {
      assert (s + [k])[i] == x && (s + [k])[j] == y;
    }
  }

  /** Of the first two elements, the second stays behind the first unless it is less. */
  lemma {:induction false} SortKeepsAhead<T>(less: (T, T) -> bool, s: seq<T>)
    requires |s| >= 2 && !less(s[1], s[0])
    ensures Ahead(SortStable(less, s), s[0], s[1])
  {
    var n := |s| - 1;
    if n == 1 {
      assert s[..1] == [s[0]] && s[..1][..0] == [];
      assert SortStable(less, s[..1]) == [s[0]];
      assert SortStable(less, s) == [s[0], s[1]];
      assert SortStable(less, s)[0] == s[0] && SortStable(less, s)[1] == s[1];
    } else {
      SortKeepsAhead(less, s[..n]);
      InsertKeepsAhead(less, SortStable(less, s[..n]), s[n], s[0], s[1]);
    }
  }

  // ---- Strings ----

  /** Byte-wise order of strings. */
  predicate StringLess(a: string, b: string) {
    b != [] && (a == [] || a[0] < b[0] || (a[0] == b[0] && StringLess(a[1..], b[1..])))
  }

  /** It is total and strict. */
  lemma {:induction false} StringsAreOrdered(a: string, b: string, c: string)
    ensures !StringLess(a, a) && !(StringLess(a, b) && StringLess(b, a)) && (a != b ==> StringLess(a, b) || StringLess(b, a))
    ensures StringLess(a, b) && StringLess(b, c) ==> StringLess(a, c)
  {
    if a != [] && b != [] && c != [] {
      StringsAreOrdered(a[1..], b[1..], c[1..]);
      assert a == [a[0]] + a[1..] && b == [b[0]] + b[1..];
    } else if a != [] && b != [] {
      StringsAreOrdered(a[1..], b[1..], []);
      assert a == [a[0]] + a[1..] && b == [b[0]] + b[1..];
    } else if a != [] {
      StringsAreOrdered(a[1..], [], []);
    }
  }
}
