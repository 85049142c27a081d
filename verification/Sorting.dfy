/** The stable sort of Python's `sorted`, as insertion. */
module Sorting {
  /** An order that compares any two values, as a sort key gives one. */
  ghost predicate Total<T(!new)>(le: (T, T) -> bool) {
    && (forall a, b :: le(a, b) || le(b, a))
    && (forall a, b, c :: le(a, b) && le(b, c) ==> le(a, c))
  }

  ghost predicate Ordered<T>(xs: seq<T>, le: (T, T) -> bool) {
    forall i, j :: 0 <= i < j < |xs| ==> le(xs[i], xs[j])
  }

  /** Puts a value before the first one that is not smaller. */
  function Insert<T>(x: T, xs: seq<T>, le: (T, T) -> bool): seq<T> {
    if xs == [] || le(x, xs[0]) then [x] + xs else [xs[0]] + Insert(x, xs[1..], le)
  }

  function Sorted<T>(xs: seq<T>, le: (T, T) -> bool): seq<T> {
    if xs == [] then [] else Insert(xs[0], Sorted(xs[1..], le), le)
  }

  lemma {:induction false} InsertKeeps<T>(x: T, xs: seq<T>, le: (T, T) -> bool)
    ensures multiset(Insert(x, xs, le)) == multiset{x} + multiset(xs)
  {
    if xs != [] && !le(x, xs[0]) {
      InsertKeeps(x, xs[1..], le);
      assert xs == [xs[0]] + xs[1..];
    }
  }

  lemma {:induction false} SortedPermutes<T>(xs: seq<T>, le: (T, T) -> bool)
    ensures multiset(Sorted(xs, le)) == multiset(xs)
  {
    if xs != [] {
      SortedPermutes(xs[1..], le);
      InsertKeeps(xs[0], Sorted(xs[1..], le), le);
      assert xs == [xs[0]] + xs[1..];
    }
  }

  lemma {:induction false} InsertOrdered<T(!new)>(x: T, xs: seq<T>, le: (T, T) -> bool)
    requires Total(le) && Ordered(xs, le)
    ensures Ordered(Insert(x, xs, le), le)
  {
    if xs != [] && !le(x, xs[0]) {
      var rest := Insert(x, xs[1..], le);
      InsertOrdered(x, xs[1..], le);
      InsertKeeps(x, xs[1..], le);
      forall j | 0 <= j < |rest| ensures le(xs[0], rest[j]) {
        assert rest[j] in multiset(rest);
        assert rest[j] == x || rest[j] in xs[1..];
      }
    }
  }

  lemma {:induction false} SortedOrdered<T(!new)>(xs: seq<T>, le: (T, T) -> bool)
    requires Total(le)
    ensures Ordered(Sorted(xs, le), le)
  {
    if xs != [] {
      SortedOrdered(xs[1..], le);
      InsertOrdered(xs[0], Sorted(xs[1..], le), le);
    }
  }

  lemma SortedMembers<T>(xs: seq<T>, le: (T, T) -> bool)
    ensures forall x :: x in Sorted(xs, le) <==> x in xs
    ensures |Sorted(xs, le)| == |xs|
  {
    SortedPermutes(xs, le);
    assert |multiset(Sorted(xs, le))| == |multiset(xs)|;
    forall x ensures x in Sorted(xs, le) <==> x in xs {
      assert x in multiset(Sorted(xs, le)) <==> x in multiset(xs);
    }
  }

  function Filter<T>(xs: seq<T>, keep: T -> bool): seq<T> {
    if xs == [] then [] else (if keep(xs[0]) then [xs[0]] else []) + Filter(xs[1..], keep)
  }

  lemma {:induction false} InsertStable<T(!new)>(x: T, xs: seq<T>, le: (T, T) -> bool, keep: T -> bool)
    requires forall a, b :: keep(a) && keep(b) ==> le(a, b)
    ensures Filter(Insert(x, xs, le), keep) == (if keep(x) then [x] else []) + Filter(xs, keep)
  {
    if xs != [] && !le(x, xs[0]) {
      InsertStable(x, xs[1..], le, keep);
      assert Insert(x, xs, le)[1..] == Insert(x, xs[1..], le);
    } else {
      assert Insert(x, xs, le)[1..] == xs;
    }
  }

  /** Values that compare equal keep their order. */
  lemma {:induction false} SortedStable<T(!new)>(xs: seq<T>, le: (T, T) -> bool, keep: T -> bool)
    requires forall a, b :: keep(a) && keep(b) ==> le(a, b)
    ensures Filter(Sorted(xs, le), keep) == Filter(xs, keep)
  {
    if xs != [] {
      SortedStable(xs[1..], le, keep);
      InsertStable(xs[0], Sorted(xs[1..], le), le, keep);
    }
  }
}
