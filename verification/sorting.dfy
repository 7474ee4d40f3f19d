/** Sorting by a total order: the result depends only on what is sorted, not on how. */
module Sorting {

  /** Any two compare, and comparing chains; elements that compare both ways may still differ. */
  ghost predicate Preorder<T(!new)>(leq: (T, T) -> bool) {
    && (forall a, b :: leq(a, b) || leq(b, a))
    && (forall a, b, c :: leq(a, b) && leq(b, c) ==> leq(a, c))
  }

  ghost predicate TotalOrder<T(!new)>(leq: (T, T) -> bool) {
    Preorder(leq) && (forall a, b :: leq(a, b) && leq(b, a) ==> a == b)
  }

  ghost predicate Sorted<T>(s: seq<T>, leq: (T, T) -> bool) {
    forall i, j | 0 <= i < j < |s| :: leq(s[i], s[j])
  }

  ghost predicate Distinct<T>(s: seq<T>) {
    forall i, j | 0 <= i < j < |s| :: s[i] != s[j]
  }

  function Insert<T>(x: T, s: seq<T>, leq: (T, T) -> bool): (r: seq<T>)
    ensures multiset(r) == multiset{x} + multiset(s)
  {
    if s == [] then [x]
    else
      assert s == [s[0]] + s[1..];
      if leq(x, s[0]) then [x] + s else [s[0]] + Insert(x, s[1..], leq)
  }

  function Sort<T>(s: seq<T>, leq: (T, T) -> bool): (r: seq<T>)
    ensures multiset(r) == multiset(s)
  {
    if s == [] then []
    else
      assert s == [s[0]] + s[1..];
      Insert(s[0], Sort(s[1..], leq), leq)
  }

  lemma {:induction false} InsertKeepsSorted<T(!new)>(x: T, s: seq<T>, leq: (T, T) -> bool)
    requires Preorder(leq) && Sorted(s, leq)
    ensures Sorted(Insert(x, s, leq), leq)
  {
    if s != [] && !leq(x, s[0]) {
      var rest := Insert(x, s[1..], leq);
      InsertKeepsSorted(x, s[1..], leq);
      forall j | 0 <= j < |rest|
        ensures leq(s[0], rest[j])
      {
        assert rest[j] in multiset(rest);
        if rest[j] != x {
          var k :| 0 <= k < |s[1..]| && s[1..][k] == rest[j];
        }
      }
    }
  }

  lemma {:induction false} SortSorts<T(!new)>(s: seq<T>, leq: (T, T) -> bool)
    requires Preorder(leq)
    ensures Sorted(Sort(s, leq), leq)
  {
    if s != [] {
      SortSorts(s[1..], leq);
      InsertKeepsSorted(s[0], Sort(s[1..], leq), leq);
    }
  }

  lemma FirstIsLeast<T(!new)>(s: seq<T>, x: T, leq: (T, T) -> bool)
    requires Preorder(leq) && Sorted(s, leq) && x in multiset(s)
    ensures s != [] && leq(s[0], x)
  {
    var k :| 0 <= k < |s| && s[k] == x;
    assert k == 0 || leq(s[0], s[k]);
  }

  lemma SameHead<T(!new)>(a: seq<T>, b: seq<T>, leq: (T, T) -> bool)
    requires TotalOrder(leq) && Sorted(a, leq) && Sorted(b, leq)
    requires multiset(a) == multiset(b) && a != [] && b != []
    ensures a[0] == b[0]
  {
    assert a[0] in multiset(a) && b[0] in multiset(b);
    FirstIsLeast(a, b[0], leq);
    FirstIsLeast(b, a[0], leq);
  }

  lemma TailMultiset<T>(a: seq<T>)
    requires a != []
    ensures multiset(a[1..]) == multiset(a) - multiset{a[0]}
  {
    assert a == [a[0]] + a[1..];
  }

  lemma SameMultisetSameLength<T>(a: seq<T>, b: seq<T>)
    requires multiset(a) == multiset(b)
    ensures |a| == |b|
  {
    assert |multiset(a)| == |a| && |multiset(b)| == |b|;
  }

  /** A multiset has one sorted arrangement. */
  lemma {:induction false} SortedIsUnique<T(!new)>(a: seq<T>, b: seq<T>, leq: (T, T) -> bool)
    requires TotalOrder(leq) && Sorted(a, leq) && Sorted(b, leq)
    requires multiset(a) == multiset(b)
    ensures a == b
  {
    SameMultisetSameLength(a, b);
    if a != [] {
      SameHead(a, b, leq);
      TailMultiset(a);
      TailMultiset(b);
      SortedIsUnique(a[1..], b[1..], leq);
    }
  }

  /** Sorting forgets the order it was given and nothing else. */
  lemma SortDecides<T(!new)>(a: seq<T>, b: seq<T>, leq: (T, T) -> bool)
    requires TotalOrder(leq)
    ensures Sort(a, leq) == Sort(b, leq) <==> multiset(a) == multiset(b)
  {
    SortSorts(a, leq);
    SortSorts(b, leq);
    if multiset(a) == multiset(b) {
      SortedIsUnique(Sort(a, leq), Sort(b, leq), leq);
    }
    assert multiset(Sort(a, leq)) == multiset(a) && multiset(Sort(b, leq)) == multiset(b);
  }

  // ---- Stability ----

  /** The elements that compare equal to `x`, in their order. */
  function Ties<T>(s: seq<T>, x: T, leq: (T, T) -> bool): seq<T> {
    if s == [] then []
    else Tie(s[0], x, leq) + Ties(s[1..], x, leq)
  }

  lemma TiesCons<T>(y: T, s: seq<T>, x: T, leq: (T, T) -> bool)
    ensures Ties([y] + s, x, leq) == Tie(y, x, leq) + Ties(s, x, leq)
  {
    assert ([y] + s)[1..] == s;
  }

  /** What `x` ties with of a single element. */
  function Tie<T>(y: T, x: T, leq: (T, T) -> bool): (r: seq<T>)
    ensures r == [] || (leq(x, y) && leq(y, x))
  {
    if leq(x, y) && leq(y, x) then [y] else []
  }

  lemma NotBothTie<T(!new)>(y: T, z: T, x: T, leq: (T, T) -> bool)
    requires Preorder(leq) && !leq(y, z)
    ensures Tie(y, x, leq) == [] || Tie(z, x, leq) == []
  {
  }

  lemma SwapEmpty<T>(a: seq<T>, b: seq<T>, c: seq<T>)
    requires a == [] || b == []
    ensures a + (b + c) == b + (a + c)
  {
    if a == [] {
      assert a + (b + c) == b + c && a + c == c;
    } else {
      assert b + c == c && b + (a + c) == a + c;
    }
  }

  lemma {:induction false} InsertIsStable<T(!new)>(y: T, s: seq<T>, x: T, leq: (T, T) -> bool)
    requires Preorder(leq)
    ensures Ties(Insert(y, s, leq), x, leq) == Ties([y] + s, x, leq)
  {
    if s != [] && !leq(y, s[0]) {
      var z, rest := s[0], s[1..];
      InsertIsStable(y, rest, x, leq);
      TiesCons(z, Insert(y, rest, leq), x, leq);
      TiesCons(y, rest, x, leq);
      TiesCons(y, s, x, leq);
      NotBothTie(y, z, x, leq);
      SwapEmpty(Tie(y, x, leq), Tie(z, x, leq), Ties(rest, x, leq));
    }
  }

  /** Elements that compare equal keep their order. */
  lemma {:induction false} SortIsStable<T(!new)>(s: seq<T>, x: T, leq: (T, T) -> bool)
    requires Preorder(leq)
    ensures Ties(Sort(s, leq), x, leq) == Ties(s, x, leq)
  {
    if s != [] {
      var r := Sort(s[1..], leq);
      SortIsStable(s[1..], x, leq);
      InsertIsStable(s[0], r, x, leq);
      TiesCons(s[0], r, x, leq);
    }
  }
}
