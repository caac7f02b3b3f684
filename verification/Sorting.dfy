/** The stable sort the source calls `sorted`, for any order given as "at or before". */
module Sorting {

  ghost predicate TotalPreorder<T(!new)>(leq: (T, T) -> bool) {
    && (forall x, y :: leq(x, y) || leq(y, x))
    && (forall x, y, z :: leq(x, y) && leq(y, z) ==> leq(x, z))
  }

  ghost predicate Sorted<T>(xs: seq<T>, leq: (T, T) -> bool) {
    forall i, j :: 0 <= i < j < |xs| ==> leq(xs[i], xs[j])
  }

  /** Puts `x` in front of the first element it is at or before. */
  function Insert<T>(x: T, xs: seq<T>, leq: (T, T) -> bool): (r: seq<T>)
    ensures multiset(r) == multiset([x]) + multiset(xs)
  {
    if xs == [] || leq(x, xs[0]) then [x] + xs
    else
      assert xs == [xs[0]] + xs[1..];
      [xs[0]] + Insert(x, xs[1..], leq)
  }

  function Sort<T>(xs: seq<T>, leq: (T, T) -> bool): (r: seq<T>)
    ensures multiset(r) == multiset(xs) && |r| == |xs|
  {
    if xs == [] then []
    else
      assert xs == [xs[0]] + xs[1..];
      var r := Insert(xs[0], Sort(xs[1..], leq), leq);
      assert |multiset(r)| == |r| && |multiset(xs)| == |xs|;
      r
  }

  lemma SortMembers<T>(xs: seq<T>, leq: (T, T) -> bool)
    ensures forall x :: x in Sort(xs, leq) <==> x in xs
  {
    forall x ensures x in Sort(xs, leq) <==> x in xs {
      assert x in Sort(xs, leq) <==> x in multiset(Sort(xs, leq));
      assert x in xs <==> x in multiset(xs);
    }
  }

  lemma {:induction false} InsertSorted<T(!new)>(x: T, xs: seq<T>, leq: (T, T) -> bool)
    requires TotalPreorder(leq) && Sorted(xs, leq)
    ensures Sorted(Insert(x, xs, leq), leq)
  {
    if xs != [] && !leq(x, xs[0]) {
      InsertSorted(x, xs[1..], leq);
      var r := Insert(x, xs[1..], leq);
      forall i | 0 <= i < |r| ensures leq(xs[0], r[i]) {
        assert r[i] in multiset(r);
        assert r[i] == x || r[i] in xs[1..];
      }
    } else if xs != [] {
      forall i | 0 <= i < |xs| ensures leq(x, xs[i]) {
        assert i == 0 || leq(xs[0], xs[i]);
      }
    }
  }

  lemma {:induction false} SortSorts<T(!new)>(xs: seq<T>, leq: (T, T) -> bool)
    requires TotalPreorder(leq)
    ensures Sorted(Sort(xs, leq), leq)
  {
    if xs != [] {
      SortSorts(xs[1..], leq);
      InsertSorted(xs[0], Sort(xs[1..], leq), leq);
    }
  }

  lemma {:induction false} SortOfSorted<T>(xs: seq<T>, leq: (T, T) -> bool)
    requires Sorted(xs, leq)
    ensures Sort(xs, leq) == xs
  {
    if xs != [] {
      SortOfSorted(xs[1..], leq);
      if |xs| > 1 {
        assert leq(xs[0], xs[1]);
      }
    }
  }

  /** The sort is stable: sorting a part of the list first makes no difference. */
  lemma {:induction false} SortTailFirst<T(!new)>(first: seq<T>, rest: seq<T>, leq: (T, T) -> bool)
    requires TotalPreorder(leq)
    ensures Sort(first + Sort(rest, leq), leq) == Sort(first + rest, leq)
  {
    var sorted := Sort(rest, leq);
    if first == [] {
      SortSorts(rest, leq);
      SortOfSorted(sorted, leq);
      assert first + rest == rest && first + sorted == sorted;
    } else {
      assert (first + rest)[1..] == first[1..] + rest && (first + sorted)[1..] == first[1..] + sorted;
      SortTailFirst(first[1..], rest, leq);
    }
  }
}
