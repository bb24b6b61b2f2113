/** Sorting by a total preorder. The library sort the program calls is modelled
    by insertion; SortedUnique says that, as long as the order tells the elements
    apart, the choice of algorithm cannot matter. */
module Sorting {
  import opened Collections

  ghost predicate Preorder<T(!new)>(leq: (T, T) -> bool) {
    && (forall x, y :: leq(x, y) || leq(y, x))
    && (forall x, y, z :: leq(x, y) && leq(y, z) ==> leq(x, z))
  }

  /** Elements of s that are each below the other are the same. */
  ghost predicate TellsApart<T>(leq: (T, T) -> bool, s: seq<T>) {
    forall x, y | x in s && y in s && leq(x, y) && leq(y, x) :: x == y
  }

  ghost predicate TotalOrder<T(!new)>(leq: (T, T) -> bool) {
    Preorder(leq) && forall x, y :: leq(x, y) && leq(y, x) ==> x == y
  }

  ghost predicate Sorted<T>(s: seq<T>, leq: (T, T) -> bool) {
    forall i, j | 0 <= i < j < |s| :: leq(s[i], s[j])
  }

  function Insert<T>(x: T, s: seq<T>, leq: (T, T) -> bool): (r: seq<T>)
    ensures |r| == |s| + 1
  {
    if s == [] || leq(x, s[0]) then [x] + s else [s[0]] + Insert(x, s[1..], leq)
  }

  function Sort<T>(s: seq<T>, leq: (T, T) -> bool): (r: seq<T>)
    ensures |r| == |s|
  {
    if s == [] then [] else Insert(s[0], Sort(s[1..], leq), leq)
  }

  lemma {:induction false} InsertPermutes<T>(x: T, s: seq<T>, leq: (T, T) -> bool)
    ensures multiset(Insert(x, s, leq)) == multiset(s) + multiset{x}
  {
    if s == [] || leq(x, s[0]) {
    } else {
      InsertPermutes(x, s[1..], leq);
      assert s == [s[0]] + s[1..];
    }
  }

  lemma {:induction false} InsertSorted<T(!new)>(x: T, s: seq<T>, leq: (T, T) -> bool)
    requires Preorder(leq) && Sorted(s, leq)
    ensures Sorted(Insert(x, s, leq), leq)
  {
    if s == [] || leq(x, s[0]) {
    } else {
      var rest := Insert(x, s[1..], leq);
      InsertSorted(x, s[1..], leq);
      InsertPermutes(x, s[1..], leq);
      forall j | 0 <= j < |rest|
        ensures leq(s[0], rest[j])
      {
        assert rest[j] in multiset(rest);
        assert rest[j] == x || rest[j] in s[1..];
      }
    }
  }

  lemma {:induction false} SortCorrect<T(!new)>(s: seq<T>, leq: (T, T) -> bool)
    requires Preorder(leq)
    ensures Sorted(Sort(s, leq), leq)
    ensures multiset(Sort(s, leq)) == multiset(s)
  {
    if s != [] {
      SortCorrect(s[1..], leq);
      InsertSorted(s[0], Sort(s[1..], leq), leq);
      InsertPermutes(s[0], Sort(s[1..], leq), leq);
      assert s == [s[0]] + s[1..];
    }
  }

  lemma TailIsSorted<T>(a: seq<T>, leq: (T, T) -> bool)
    requires Sorted(a, leq) && a != [] && forall x | x in a :: leq(x, x)
    ensures Sorted(a[1..], leq) && forall x | x in a[1..] :: leq(x, x)
  {
  }

  lemma TailToldApart<T>(a: seq<T>, leq: (T, T) -> bool)
    requires TellsApart(leq, a) && a != []
    ensures TellsApart(leq, a[1..])
  {
  }

  /** A multiset has one sorted arrangement only. */
  lemma {:induction false} SortedUnique<T>(a: seq<T>, b: seq<T>, leq: (T, T) -> bool)
    requires Sorted(a, leq) && Sorted(b, leq) && TellsApart(leq, a)
    requires forall x | x in a :: leq(x, x)
    requires multiset(a) == multiset(b)
    ensures a == b
  {
    SameLength(a, b);
    if a != [] {
      HeadsAgree(a, b, leq);
      TailIsSorted(a, leq);
      SortedTail(b, leq);
      TailToldApart(a, leq);
      hide Sorted, TellsApart;
      MatchTails(a, b);
      SortedUnique(a[1..], b[1..], leq);
      assert a == [a[0]] + a[1..] && b == [b[0]] + b[1..];
    }
  }

  lemma SortedTail<T>(b: seq<T>, leq: (T, T) -> bool)
    requires Sorted(b, leq) && b != []
    ensures Sorted(b[1..], leq)
  {
  }

  lemma SameLength<T>(a: seq<T>, b: seq<T>)
    requires multiset(a) == multiset(b)
    ensures |a| == |b|
  {
    assert |multiset(a)| == |multiset(b)|;
  }

  lemma MatchTails<T>(a: seq<T>, b: seq<T>)
    requires multiset(a) == multiset(b) && a != [] && b != [] && a[0] == b[0]
    ensures multiset(a[1..]) == multiset(b[1..])
  {
    MatchOff(a, b, 0);
    assert Without(b, 0) == b[1..];
  }

  lemma HeadsAgree<T>(a: seq<T>, b: seq<T>, leq: (T, T) -> bool)
    requires Sorted(a, leq) && Sorted(b, leq) && TellsApart(leq, a)
    requires forall x | x in a :: leq(x, x)
    requires multiset(a) == multiset(b) && a != [] && b != []
    ensures a[0] == b[0]
  {
    assert a[0] in multiset(b) && b[0] in multiset(a);
    assert leq(a[0], b[0]) && leq(b[0], a[0]);
  }

  /** Under a total order, sorting forgets the arrangement it was given, and
      nothing else. */
  lemma SortPermutation<T(!new)>(a: seq<T>, b: seq<T>, leq: (T, T) -> bool)
    requires TotalOrder(leq)
    ensures multiset(a) == multiset(b) <==> Sort(a, leq) == Sort(b, leq)
  {
    SortCorrect(a, leq);
    SortCorrect(b, leq);
    if multiset(a) == multiset(b) {
      SortedUnique(Sort(a, leq), Sort(b, leq), leq);
    }
  }

  lemma {:induction false} NoDuplicatesCount<T>(s: seq<T>, x: T)
    requires NoDuplicates(s)
    ensures multiset(s)[x] == if x in s then 1 else 0
  {
    if s != [] {
      NoDuplicatesCount(s[1..], x);
      assert s == [s[0]] + s[1..];
      assert x in s <==> x == s[0] || x in s[1..];
    }
  }

  /** Sequences without duplicates that hold the same elements are permutations
      of each other. */
  lemma SameElements<T>(a: seq<T>, b: seq<T>)
    requires NoDuplicates(a) && NoDuplicates(b)
    requires forall x :: x in a <==> x in b
    ensures multiset(a) == multiset(b)
  {
    forall x | x in multiset(a) || x in multiset(b)
      ensures multiset(a)[x] == multiset(b)[x]
    {
      NoDuplicatesCount(a, x);
      NoDuplicatesCount(b, x);
    }
  }
}
