/** Insertion sort by a total preorder, which is stable. A total order leaves no choice at all: every sorted permutation
    is the same sequence. */
module Sorting {

  ghost predicate TotalPreorder<T(!new)>(leq: (T, T) -> bool) {
    && (forall x, y :: leq(x, y) || leq(y, x))
    && (forall x, y, z :: leq(x, y) && leq(y, z) ==> leq(x, z))
  }

  ghost predicate TotalOrder<T(!new)>(leq: (T, T) -> bool) {
    && TotalPreorder(leq)
    && (forall x, y :: leq(x, y) && leq(y, x) ==> x == y)
  }

  ghost predicate Sorted<T(!new)>(leq: (T, T) -> bool, s: seq<T>) {
    forall i, j | 0 <= i < j < |s| :: leq(s[i], s[j])
  }

  function Insert<T>(leq: (T, T) -> bool, s: seq<T>, x: T): seq<T> {
    if s == [] || leq(s[|s| - 1], x) then s + [x] else Insert(leq, s[..|s| - 1], x) + [s[|s| - 1]]
  }

  function Sort<T>(leq: (T, T) -> bool, s: seq<T>): seq<T> {
    if s == [] then [] else Insert(leq, Sort(leq, s[..|s| - 1]), s[|s| - 1])
  }

  lemma MultisetLast<T>(s: seq<T>)
    requires s != []
    ensures multiset(s) == multiset(s[..|s| - 1]) + multiset{s[|s| - 1]}
  {
    assert s == s[..|s| - 1] + [s[|s| - 1]];
  }

  lemma Cancel<T>(a: multiset<T>, b: multiset<T>, x: T)
    requires a + multiset{x} == b + multiset{x}
    ensures a == b
  {
    assert a == a + multiset{x} - multiset{x};
  }

  lemma {:induction false} InsertElements<T>(leq: (T, T) -> bool, s: seq<T>, x: T)
    ensures multiset(Insert(leq, s, x)) == multiset(s) + multiset{x}
  {
    if s == [] || leq(s[|s| - 1], x) {
    } else {
      InsertElements(leq, s[..|s| - 1], x);
      MultisetLast(s);
    }
  }

  lemma {:induction false} SortElements<T>(leq: (T, T) -> bool, s: seq<T>)
    ensures multiset(Sort(leq, s)) == multiset(s)
  {
    if s != [] {
      SortElements(leq, s[..|s| - 1]);
      InsertElements(leq, Sort(leq, s[..|s| - 1]), s[|s| - 1]);
      MultisetLast(s);
    }
  }

  lemma {:induction false} InsertSorted<T(!new)>(leq: (T, T) -> bool, s: seq<T>, x: T)
    requires TotalPreorder(leq) && Sorted(leq, s)
    ensures Sorted(leq, Insert(leq, s, x))
  {
    if s == [] || leq(s[|s| - 1], x) {
    } else {
      var front, last := s[..|s| - 1], s[|s| - 1];
      InsertSorted(leq, front, x);
      var r := Insert(leq, front, x);
      forall i | 0 <= i < |r| ensures leq(r[i], last) {
        InsertElements(leq, front, x);
        assert r[i] in multiset(r);
        assert r[i] == x || r[i] in front;
      }
    }
  }

  lemma {:induction false} SortSorts<T(!new)>(leq: (T, T) -> bool, s: seq<T>)
    requires TotalPreorder(leq)
    ensures Sorted(leq, Sort(leq, s))
  {
    if s != [] {
      SortSorts(leq, s[..|s| - 1]);
      InsertSorted(leq, Sort(leq, s[..|s| - 1]), s[|s| - 1]);
    }
  }

  /** Neither of two elements comes before the other. */
  predicate Alike<T(!new)>(leq: (T, T) -> bool, x: T, y: T) {
    leq(x, y) && leq(y, x)
  }

  /** The elements of a sequence that are like `x`, in order. */
  function AllAlike<T(!new)>(leq: (T, T) -> bool, s: seq<T>, x: T): seq<T> {
    if s == [] then []
    else AllAlike(leq, s[..|s| - 1], x) + if Alike(leq, s[|s| - 1], x) then [s[|s| - 1]] else []
  }

  lemma AllAlikePush<T(!new)>(leq: (T, T) -> bool, s: seq<T>, y: T, x: T)
    ensures AllAlike(leq, s + [y], x) == AllAlike(leq, s, x) + if Alike(leq, y, x) then [y] else []
  {
    assert (s + [y])[..|s|] == s;
  }

  lemma {:induction false} InsertIsStable<T(!new)>(leq: (T, T) -> bool, s: seq<T>, y: T, x: T)
    requires TotalPreorder(leq)
    ensures AllAlike(leq, Insert(leq, s, y), x) == AllAlike(leq, s, x) + if Alike(leq, y, x) then [y] else []
  {
    if s == [] || leq(s[|s| - 1], y) {
      AllAlikePush(leq, s, y, x);
    } else {
      var front, last := s[..|s| - 1], s[|s| - 1];
      InsertIsStable(leq, front, y, x);
      AllAlikePush(leq, Insert(leq, front, y), last, x);
    }
  }

  /** Sorting keeps elements that are alike in the order they came. */
  lemma {:induction false} SortIsStable<T(!new)>(leq: (T, T) -> bool, s: seq<T>, x: T)
    requires TotalPreorder(leq)
    ensures AllAlike(leq, Sort(leq, s), x) == AllAlike(leq, s, x)
  {
    if s != [] {
      SortIsStable(leq, s[..|s| - 1], x);
      InsertIsStable(leq, Sort(leq, s[..|s| - 1]), s[|s| - 1], x);
    }
  }

  lemma LastIsGreatest<T(!new)>(leq: (T, T) -> bool, s: seq<T>, x: T)
    requires TotalOrder(leq) && Sorted(leq, s) && x in multiset(s)
    ensures s != [] && leq(x, s[|s| - 1])
  {
    assert x in s;
  }

  /** Two sorted sequences of the same elements are the same. */
  lemma {:induction false} SortedUnique<T(!new)>(leq: (T, T) -> bool, a: seq<T>, b: seq<T>)
    requires TotalOrder(leq) && Sorted(leq, a) && Sorted(leq, b) && multiset(a) == multiset(b)
    ensures a == b
  {
    if a == [] {
      assert |multiset(b)| == |b|;
    } else {
      assert |a| == |multiset(a)| == |b|;
      MultisetLast(a);
      MultisetLast(b);
      LastIsGreatest(leq, b, a[|a| - 1]);
      LastIsGreatest(leq, a, b[|b| - 1]);
      Cancel(multiset(a[..|a| - 1]), multiset(b[..|b| - 1]), a[|a| - 1]);
      SortedUnique(leq, a[..|a| - 1], b[..|b| - 1]);
    }
  }

  /** Sorting does not depend on the order it starts from. */
  lemma SortPermutation<T(!new)>(leq: (T, T) -> bool, a: seq<T>, b: seq<T>)
    requires TotalOrder(leq) && multiset(a) == multiset(b)
    ensures Sort(leq, a) == Sort(leq, b)
  {
    SortSorts(leq, a);
    SortSorts(leq, b);
    SortElements(leq, a);
    SortElements(leq, b);
    SortedUnique(leq, Sort(leq, a), Sort(leq, b));
  }

  // ---- images ----

  function Map<A, B>(f: A -> B, s: seq<A>): (r: seq<B>)
    ensures |r| == |s| && forall i | 0 <= i < |s| :: r[i] == f(s[i])
  {
    seq(|s|, i requires 0 <= i < |s| => f(s[i]))
  }

  function Removed<T>(s: seq<T>, k: nat): seq<T>
    requires k < |s|
  {
    s[..k] + s[k + 1..]
  }

  lemma MultisetRemoved<T>(s: seq<T>, k: nat)
    requires k < |s|
    ensures multiset(s) == multiset(Removed(s, k)) + multiset{s[k]}
  {
    assert s == s[..k] + [s[k]] + s[k + 1..];
  }

  lemma MapRemoved<A, B>(f: A -> B, s: seq<A>, k: nat)
    requires k < |s|
    ensures multiset(Map(f, s)) == multiset(Map(f, Removed(s, k))) + multiset{f(s[k])}
  {
    assert Map(f, Removed(s, k)) == Removed(Map(f, s), k);
    MultisetRemoved(Map(f, s), k);
  }

  lemma SameHead<T>(a: seq<T>, b: seq<T>) returns (k: nat)
    requires multiset(a) == multiset(b) && a != []
    ensures k < |b| && b[k] == a[0] && multiset(Removed(a, 0)) == multiset(Removed(b, k))
  {
    assert a[0] in multiset(b);
    k :| 0 <= k < |b| && b[k] == a[0];
    MultisetRemoved(a, 0);
    MultisetRemoved(b, k);
    Cancel(multiset(Removed(a, 0)), multiset(Removed(b, k)), a[0]);
  }

  /** The image of a permutation is a permutation of the image. */
  lemma {:induction false} MapPermutation<A, B>(f: A -> B, a: seq<A>, b: seq<A>)
    requires multiset(a) == multiset(b)
    ensures multiset(Map(f, a)) == multiset(Map(f, b))
  {
    if a == [] {
      assert |multiset(b)| == |b|;
    } else {
      var k := SameHead(a, b);
      MapPermutation(f, Removed(a, 0), Removed(b, k));
      MapRemoved(f, a, 0);
      MapRemoved(f, b, k);
    }
  }

  // ---- images that drop or add elements ----

  function FlatMap<A, B>(f: A -> seq<B>, s: seq<A>): seq<B> {
    if s == [] then [] else FlatMap(f, s[..|s| - 1]) + f(s[|s| - 1])
  }

  lemma {:induction false} FlatMapAppend<A, B>(f: A -> seq<B>, a: seq<A>, b: seq<A>)
    ensures FlatMap(f, a + b) == FlatMap(f, a) + FlatMap(f, b)
  {
    if b == [] {
      assert a + b == a;
    } else {
      FlatMapAppend(f, a, b[..|b| - 1]);
      assert (a + b)[..|a + b| - 1] == a + b[..|b| - 1];
    }
  }

  lemma FlatMapOne<A, B>(f: A -> seq<B>, x: A)
    ensures FlatMap(f, [x]) == f(x)
  {
    assert [x][..0] == [];
  }

  lemma FlatMapPush<A, B>(f: A -> seq<B>, s: seq<A>, x: A)
    ensures FlatMap(f, s + [x]) == FlatMap(f, s) + f(x)
  {
    assert (s + [x])[..|s|] == s;
  }

  lemma MiddleOut<T>(a: seq<T>, b: seq<T>, c: seq<T>)
    ensures multiset(a + b + c) == multiset(a + c) + multiset(b)
  {
  }

  lemma FlatMapAround<A, B>(f: A -> seq<B>, a: seq<A>, x: A, b: seq<A>)
    ensures FlatMap(f, a + [x] + b) == FlatMap(f, a) + f(x) + FlatMap(f, b)
  {
    FlatMapAppend(f, a + [x], b);
    FlatMapPush(f, a, x);
  }

  lemma FlatMapWithout<A, B>(f: A -> seq<B>, a: seq<A>, x: A, b: seq<A>)
    ensures multiset(FlatMap(f, a + [x] + b)) == multiset(FlatMap(f, a + b)) + multiset(f(x))
  {
    FlatMapAround(f, a, x, b);
    FlatMapAppend(f, a, b);
    MiddleOut(FlatMap(f, a), f(x), FlatMap(f, b));
  }

  lemma SplitAround<T>(s: seq<T>, k: nat)
    requires k < |s|
    ensures s == s[..k] + [s[k]] + s[k + 1..]
  {
  }

  lemma FlatMapRemoved<A, B>(f: A -> seq<B>, s: seq<A>, k: nat)
    requires k < |s|
    ensures multiset(FlatMap(f, s)) == multiset(FlatMap(f, Removed(s, k))) + multiset(f(s[k]))
  {
    SplitAround(s, k);
    FlatMapWithout(f, s[..k], s[k], s[k + 1..]);
  }

  lemma {:induction false} FlatMapPermutation<A, B>(f: A -> seq<B>, a: seq<A>, b: seq<A>)
    requires multiset(a) == multiset(b)
    ensures multiset(FlatMap(f, a)) == multiset(FlatMap(f, b))
  {
    if a == [] {
      assert |multiset(b)| == |b|;
    } else {
      var k := SameHead(a, b);
      FlatMapPermutation(f, Removed(a, 0), Removed(b, k));
      FlatMapRemoved(f, a, 0);
      FlatMapRemoved(f, b, k);
    }
  }
}
