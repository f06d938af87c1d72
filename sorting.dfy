/** The behaviour of Rust's slice `sort` / `sort_unstable` on a type whose
    `Ord` is a total order: the result is ascending and a permutation of the
    input. For a total order that result is unique (SortedUnique), so a
    stable and an unstable sort cannot be told apart, and insertion sort
    stands for both. */
module Sorting {

  /** `le` is a total order: antisymmetric, transitive and total (hence reflexive). */
  ghost predicate TotalOrder<T(!new)>(le: (T, T) -> bool) {
    && (forall a, b :: le(a, b) && le(b, a) ==> a == b)
    && (forall a, b, c {:trigger le(a, b), le(b, c), le(a, c)} :: le(a, b) && le(b, c) ==> le(a, c))
    && (forall a, b :: le(a, b) || le(b, a))
  }

  predicate SortedBy<T>(xs: seq<T>, le: (T, T) -> bool) {
    forall i, j :: 0 <= i < j < |xs| ==> le(xs[i], xs[j])
  }

  /** Places `x` in front of the first element it is not above. */
  function Insert<T(!new)>(x: T, xs: seq<T>, le: (T, T) -> bool): (r: seq<T>)
    requires TotalOrder(le)
    ensures multiset(r) == multiset(xs) + multiset{x}
    ensures SortedBy(xs, le) ==> SortedBy(r, le)
  {
    if xs == [] || le(x, xs[0]) then
      [x] + xs
    else
      var rest := Insert(x, xs[1..], le);
      assert xs == [xs[0]] + xs[1..];
      InsertBelowHead(x, xs, rest, le);
      ConsSorted(xs[0], rest, le);
      [xs[0]] + rest
  }

  /** What is inserted behind the head of an ascending list stays above that head. */
  lemma InsertBelowHead<T(!new)>(x: T, xs: seq<T>, rest: seq<T>, le: (T, T) -> bool)
    requires TotalOrder(le)
    requires xs != [] && !le(x, xs[0])
    requires multiset(rest) == multiset(xs[1..]) + multiset{x}
    ensures SortedBy(xs, le) ==> forall k :: 0 <= k < |rest| ==> le(xs[0], rest[k])
  {
    if SortedBy(xs, le) {
      forall k | 0 <= k < |rest| ensures le(xs[0], rest[k]) {
        assert rest[k] in multiset(rest);
        if rest[k] != x {
          assert rest[k] in xs[1..];
        }
      }
    }
  }

  /** A head below every element of an ascending tail makes an ascending list. */
  lemma ConsSorted<T>(head: T, tail: seq<T>, le: (T, T) -> bool)
    ensures SortedBy(tail, le) && (forall k :: 0 <= k < |tail| ==> le(head, tail[k]))
        ==> SortedBy([head] + tail, le)
  {
    if SortedBy(tail, le) && (forall k :: 0 <= k < |tail| ==> le(head, tail[k])) {
      var r := [head] + tail;
      forall i, j | 0 <= i < j < |r| ensures le(r[i], r[j]) {
        assert r[j] == tail[j - 1];
        if i > 0 {
          assert r[i] == tail[i - 1];
        }
      }
    }
  }

  function SortBy<T(!new)>(xs: seq<T>, le: (T, T) -> bool): (r: seq<T>)
    requires TotalOrder(le)
    ensures SortedBy(r, le)
    ensures multiset(r) == multiset(xs)
    ensures |r| == |xs|
  {
    if xs == [] then []
    else
      assert xs == [xs[0]] + xs[1..];
      Insert(xs[0], SortBy(xs[1..], le), le)
  }

  /** The head of an ascending sequence is below every element. */
  lemma HeadIsLeast<T(!new)>(a: seq<T>, le: (T, T) -> bool)
    requires TotalOrder(le)
    requires SortedBy(a, le) && a != []
    ensures forall x :: x in a ==> le(a[0], x)
  {
    forall x | x in a ensures le(a[0], x) {
      var i :| 0 <= i < |a| && a[i] == x;
      assert i == 0 ==> le(x, x) || le(x, x);
    }
  }

  lemma TailsSameMultiset<T>(a: seq<T>, b: seq<T>)
    requires a != [] && b != [] && a[0] == b[0]
    requires multiset(a) == multiset(b)
    ensures multiset(a[1..]) == multiset(b[1..])
  {
    assert multiset(a) == multiset{a[0]} + multiset(a[1..]) by {
      assert a == [a[0]] + a[1..];
    }
    assert multiset(b) == multiset{b[0]} + multiset(b[1..]) by {
      assert b == [b[0]] + b[1..];
    }
    forall v ensures multiset(a[1..])[v] == multiset(b[1..])[v] {
      assert multiset(a)[v] == multiset{a[0]}[v] + multiset(a[1..])[v];
      assert multiset(b)[v] == multiset{b[0]}[v] + multiset(b[1..])[v];
    }
  }

  /** Two ascending permutations of the same multiset are equal. */
  lemma {:induction false} SortedUnique<T(!new)>(a: seq<T>, b: seq<T>, le: (T, T) -> bool)
    requires TotalOrder(le)
    requires SortedBy(a, le) && SortedBy(b, le)
    requires multiset(a) == multiset(b)
    ensures a == b
  {
    if a == [] {
      assert |b| == |multiset(b)| == 0;
    } else {
      assert b != [] by { assert a[0] in multiset(b); }
      assert a[0] in b && b[0] in a by {
        assert a[0] in multiset(b) && b[0] in multiset(a);
      }
      HeadIsLeast(a, le);
      HeadIsLeast(b, le);
      assert a[0] == b[0] by { assert le(a[0], b[0]) && le(b[0], a[0]); }
      assert a == [a[0]] + a[1..] && b == [b[0]] + b[1..];
      TailsSameMultiset(a, b);
      SortedUnique(a[1..], b[1..], le);
    }
  }
}
