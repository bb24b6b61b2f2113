/** Shared vocabulary: options, bytes, counting over sequences, and sequences
    that list the contents of a map. */
module Collections {

  datatype Option<+T> = None | Some(value: T)

  /** One octet; strings whose bytes matter are sequences of these. */
  type byte = x: int | 0 <= x < 256
  type Bytes = seq<byte>

  function Min(a: int, b: int): int {
    if a <= b then a else b
  }

  function Max(a: int, b: int): int {
    if a >= b then a else b
  }

  function Abs(x: real): real {
    if x < 0.0 then -x else x
  }

  // ---- sequences ----

  /** The last n elements of s (all of s when it is shorter). */
  function Last<T>(s: seq<T>, n: nat): seq<T> {
    if |s| <= n then s else s[|s| - n..]
  }

  lemma LastOfLast<T>(a: seq<T>, b: seq<T>, n: nat)
    ensures Last(Last(a, n) + b, n) == Last(a + b, n)
  {
  }

  ghost predicate NoDuplicates<T>(s: seq<T>) {
    forall i, j | 0 <= i < j < |s| :: s[i] != s[j]
  }

  function Sum(s: seq<real>): real {
    if s == [] then 0.0 else s[0] + Sum(s[1..])
  }

  // ---- counting ----

  function One(b: bool): nat {
    if b then 1 else 0
  }

  /** How many elements satisfy p. */
  function Count<T>(s: seq<T>, p: T -> bool): (c: nat)
    ensures c <= |s|
  {
    if s == [] then 0 else (if p(s[0]) then 1 else 0) + Count(s[1..], p)
  }

  function Filter<T>(s: seq<T>, p: T -> bool): seq<T> {
    if s == [] then [] else (if p(s[0]) then [s[0]] else []) + Filter(s[1..], p)
  }

  lemma {:induction false} FilterLength<T>(s: seq<T>, p: T -> bool)
    ensures |Filter(s, p)| == Count(s, p)
  {
    if s != [] {
      FilterLength(s[1..], p);
    }
  }

  lemma {:induction false} FilterMember<T>(s: seq<T>, p: T -> bool, x: T)
    ensures x in Filter(s, p) <==> x in s && p(x)
  {
    if s != [] {
      FilterMember(s[1..], p, x);
      assert x in s <==> x == s[0] || x in s[1..];
    }
  }

  lemma {:induction false} FilterSnoc<T>(s: seq<T>, x: T, p: T -> bool)
    ensures Filter(s + [x], p) == Filter(s, p) + (if p(x) then [x] else [])
  {
    if s == [] {
      assert (s + [x])[1..] == [];
    } else {
      FilterSnoc(s[1..], x, p);
      assert (s + [x])[1..] == s[1..] + [x];
    }
  }

  lemma Regroup<T>(x: seq<T>, y: seq<T>, z: seq<T>)
    ensures (x + y) + z == x + (y + z)
  {
  }

  lemma FilterHead<T>(x: T, s: seq<T>, p: T -> bool)
    ensures Filter([x] + s, p) == (if p(x) then [x] else []) + Filter(s, p)
  {
    assert ([x] + s)[1..] == s;
  }

  lemma {:induction false} FilterConcat<T>(a: seq<T>, b: seq<T>, p: T -> bool)
    ensures Filter(a + b, p) == Filter(a, p) + Filter(b, p)
  {
    if a == [] {
      assert a + b == b && Filter(a, p) == [];
    } else {
      hide Filter;
      var x, t := a[0], a[1..];
      Regroup([x], t, b);
      assert a == [x] + t;
      FilterHead(x, t, p);
      FilterHead(x, t + b, p);
      FilterConcat(t, b, p);
      Regroup(if p(x) then [x] else [], Filter(t, p), Filter(b, p));
    }
  }

  /** If the selection has no repetition, neither have the selected elements of the whole. */
  lemma {:induction false} FilterOnce<T>(s: seq<T>, p: T -> bool, i: nat, j: nat)
    requires NoDuplicates(Filter(s, p)) && i < j < |s| && p(s[i])
    ensures s[i] != s[j]
  {
    var all, rest := Filter(s, p), Filter(s[1..], p);
    var shift := if p(s[0]) then 1 else 0;
    assert p(s[0]) ==> all == [s[0]] + rest;
    assert forall m | 0 <= m < |rest| :: rest[m] == all[m + shift];
    if i == 0 {
      if p(s[j]) {
        assert s[1..][j - 1] == s[j];
        FilterMember(s[1..], p, s[j]);
        var m :| 0 <= m < |rest| && rest[m] == s[j];
        assert all[0] != all[m + 1];
      }
    } else {
      forall m, n | 0 <= m < n < |rest|
        ensures rest[m] != rest[n]
      {
        assert all[m + shift] != all[n + shift];
      }
      FilterOnce(s[1..], p, i - 1, j - 1);
    }
  }

  lemma {:induction false} CountConcat<T>(a: seq<T>, b: seq<T>, p: T -> bool)
    ensures Count(a + b, p) == Count(a, p) + Count(b, p)
  {
    if a == [] {
      assert a + b == b;
    } else {
      CountConcat(a[1..], b, p);
      assert (a + b)[1..] == a[1..] + b;
    }
  }

  function Without<T>(s: seq<T>, i: nat): seq<T>
    requires i < |s|
  {
    s[..i] + s[i + 1..]
  }

  lemma WithoutMultiset<T>(s: seq<T>, i: nat)
    requires i < |s|
    ensures multiset(Without(s, i)) == multiset(s) - multiset{s[i]}
  {
    assert s == s[..i] + ([s[i]] + s[i + 1..]);
  }

  lemma CountWithout<T>(s: seq<T>, i: nat, p: T -> bool)
    requires i < |s|
    ensures Count(s, p) == Count(Without(s, i), p) + (if p(s[i]) then 1 else 0)
  {
    CountConcat(s[..i], s[i..], p);
    CountConcat(s[..i], s[i + 1..], p);
    assert s == s[..i] + s[i..];
    assert s[i..][1..] == s[i + 1..];
  }

  /** Counting looks only at which elements occur and how often. */
  lemma {:induction false} CountPermutation<T>(a: seq<T>, b: seq<T>, p: T -> bool)
    requires multiset(a) == multiset(b)
    ensures Count(a, p) == Count(b, p)
  {
    if a == [] {
      assert |multiset(b)| == 0;
    } else {
      assert a[0] in multiset(b);
      var i :| 0 <= i < |b| && b[i] == a[0];
      WithoutMultiset(a, 0);
      WithoutMultiset(b, i);
      CountWithout(b, i, p);
      assert Without(a, 0) == a[1..];
      CountPermutation(a[1..], Without(b, i), p);
    }
  }

  lemma {:induction false} CountMonotone<T>(s: seq<T>, p: T -> bool, q: T -> bool)
    requires forall x | x in s :: p(x) ==> q(x)
    ensures Count(s, p) <= Count(s, q)
  {
    if s != [] {
      CountMonotone(s[1..], p, q);
    }
  }

  lemma {:induction false} CountAgree<T>(s: seq<T>, p: T -> bool, q: T -> bool)
    requires forall x | x in s :: p(x) == q(x)
    ensures Count(s, p) == Count(s, q)
  {
    if s != [] {
      CountAgree(s[1..], p, q);
    }
  }

  lemma {:induction false} FilterAgree<T>(s: seq<T>, p: T -> bool, q: T -> bool)
    requires forall x | x in s :: p(x) == q(x)
    ensures Filter(s, p) == Filter(s, q)
  {
    if s != [] {
      FilterAgree(s[1..], p, q);
    }
  }

  /** p and q never hold together on s, so their counts add up to the count of
      the disjunction r. */
  lemma {:induction false} CountDisjoint<T>(s: seq<T>, p: T -> bool, q: T -> bool, r: T -> bool)
    requires forall x | x in s :: !(p(x) && q(x)) && (r(x) <==> p(x) || q(x))
    ensures Count(s, p) + Count(s, q) == Count(s, r)
  {
    if s != [] {
      CountDisjoint(s[1..], p, q, r);
    }
  }

  lemma {:induction false} CountAll<T>(s: seq<T>, p: T -> bool)
    requires forall x | x in s :: p(x)
    ensures Count(s, p) == |s|
  {
    if s != [] {
      CountAll(s[1..], p);
    }
  }

  lemma {:induction false} CountNone<T>(s: seq<T>, p: T -> bool)
    requires forall x | x in s :: !p(x)
    ensures Count(s, p) == 0
  {
    if s != [] {
      CountNone(s[1..], p);
    }
  }

  lemma {:induction false} CountSome<T>(s: seq<T>, p: T -> bool, x: T)
    requires x in s && p(x)
    ensures Count(s, p) >= 1
  {
    if s[0] != x {
      CountSome(s[1..], p, x);
    }
  }

  // ---- two views of one list ----

  /** Where a and b agree, x and y do: the x-view is no finer than the a-view. */
  ghost predicate Coarser<A, B>(a: seq<A>, x: seq<B>, b: seq<A>, y: seq<B>) {
    && |a| == |x| && |b| == |y|
    && forall i, j | 0 <= i < |a| && 0 <= j < |b| && a[i] == b[j] :: x[i] == y[j]
  }

  lemma CoarserWithout<A, B>(a: seq<A>, x: seq<B>, b: seq<A>, y: seq<B>, j: nat)
    requires Coarser(a, x, b, y) && a != [] && j < |b|
    ensures Coarser(a[1..], x[1..], Without(b, j), Without(y, j))
  {
  }

  lemma MatchOff<T>(a: seq<T>, b: seq<T>, j: nat)
    requires a != [] && j < |b| && a[0] == b[j]
    ensures multiset(a) == multiset(b) <==> multiset(a[1..]) == multiset(Without(b, j))
  {
    assert a == [a[0]] + a[1..];
    assert b == b[..j] + ([b[j]] + b[j + 1..]);
    var m, n := multiset(a[1..]), multiset(Without(b, j));
    assert multiset(a) == m + multiset{a[0]} && multiset(b) == n + multiset{a[0]};
    assert m == multiset(a) - multiset{a[0]} && n == multiset(b) - multiset{a[0]};
  }

  lemma FirstOccurs<T>(a: seq<T>, b: seq<T>) returns (j: nat)
    requires a != [] && multiset(a) == multiset(b)
    ensures j < |b| && b[j] == a[0]
  {
    assert a[0] in multiset(b);
    j :| 0 <= j < |b| && b[j] == a[0];
  }

  /** What one view cannot tell apart up to order, neither can a coarser one. */
  lemma {:induction false} CoarserView<A, B>(a: seq<A>, x: seq<B>, b: seq<A>, y: seq<B>)
    requires Coarser(a, x, b, y) && multiset(a) == multiset(b)
    ensures multiset(x) == multiset(y)
  {
    if a == [] {
      assert |multiset(a)| == |multiset(b)|;
      assert x == [] && y == [];
    } else {
      var j := FirstOccurs(a, b);
      assert x[0] == y[j];
      CoarserWithout(a, x, b, y, j);
      hide Coarser, Without;
      MatchOff(a, b, j);
      CoarserView(a[1..], x[1..], Without(b, j), Without(y, j));
      MatchOff(x, y, j);
    }
  }

  // ---- sequences that list a map ----

  /** xs holds every entry of m and nothing else, in any order. */
  ghost predicate Lists<K, V>(xs: seq<(K, V)>, m: map<K, V>) {
    && (forall i | 0 <= i < |xs| :: xs[i].0 in m && m[xs[i].0] == xs[i].1)
    && (forall k | k in m :: (k, m[k]) in xs)
  }

  /** Insert the entries one after another, the later ones winning. */
  function InsertAll<K, V>(m: map<K, V>, xs: seq<(K, V)>): map<K, V>
    decreases |xs|
  {
    if xs == [] then m else InsertAll(m[xs[0].0 := xs[0].1], xs[1..])
  }

  lemma {:induction false} InsertAllSnoc<K, V>(m: map<K, V>, xs: seq<(K, V)>, x: (K, V))
    ensures InsertAll(m, xs + [x]) == InsertAll(m, xs)[x.0 := x.1]
    decreases |xs|
  {
    if xs == [] {
      assert (xs + [x])[1..] == [];
    } else {
      assert (xs + [x])[1..] == xs[1..] + [x];
      InsertAllSnoc(m[xs[0].0 := xs[0].1], xs[1..], x);
    }
  }

  lemma {:induction false} InsertAllContents<K, V>(m: map<K, V>, xs: seq<(K, V)>, whole: map<K, V>)
    requires forall i | 0 <= i < |xs| :: xs[i].0 in whole && whole[xs[i].0] == xs[i].1
    requires forall k | k in m && k in whole :: m[k] == whole[k]
    ensures forall k | k in m :: k in InsertAll(m, xs)
    ensures forall x | x in xs :: x.0 in InsertAll(m, xs)
    ensures forall k | k in InsertAll(m, xs) ::
              if k in whole then InsertAll(m, xs)[k] == whole[k] else k in m && InsertAll(m, xs)[k] == m[k]
    decreases |xs|
  {
    if xs != [] {
      InsertAllContents(m[xs[0].0 := xs[0].1], xs[1..], whole);
    }
  }

  /** Inserting a listing of m into the empty map gives m back. */
  lemma ListingRebuilds<K, V>(xs: seq<(K, V)>, m: map<K, V>)
    requires Lists(xs, m)
    ensures InsertAll(map[], xs) == m
  {
    InsertAllContents(map[], xs, m);
    forall k | k in m
      ensures k in InsertAll(map[], xs)
    {
      assert (k, m[k]) in xs;
    }
  }

  /** Visit every entry of a map once, in some order. */
  method ListMap<K(==), V>(m: map<K, V>) returns (xs: seq<(K, V)>)
    ensures Lists(xs, m) && NoDuplicates(xs)
  {
    xs := [];
    var left := m.Keys;
    while left != {}
      invariant left <= m.Keys
      invariant forall i | 0 <= i < |xs| :: xs[i].0 in m && m[xs[i].0] == xs[i].1
      invariant forall i | 0 <= i < |xs| :: xs[i].0 !in left
      invariant NoDuplicates(xs)
      invariant forall k | k in m && k !in left :: (k, m[k]) in xs
      decreases left
    {
      var k :| k in left;
      xs := xs + [(k, m[k])];
      left := left - {k};
    }
  }
}
