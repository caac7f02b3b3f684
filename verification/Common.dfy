/** Datatypes and sequence vocabulary shared by the other modules. */
module Common {

  datatype Option<+T> = None | Some(value: T) {
    function GetOr(default: T): T {
      match this
      case None => default
      case Some(v) => v
    }
  }

  function Filter<T>(xs: seq<T>, keep: T -> bool): seq<T>
  {
    if xs == [] then []
    else if keep(xs[0]) then [xs[0]] + Filter(xs[1..], keep)
    else Filter(xs[1..], keep)
  }

  lemma {:induction false} FilterMembers<T>(xs: seq<T>, keep: T -> bool)
    ensures forall x :: x in Filter(xs, keep) <==> x in xs && keep(x)
  {
    if xs != [] {
      FilterMembers(xs[1..], keep);
      assert xs == [xs[0]] + xs[1..];
    }
  }

  function Map<S, T>(xs: seq<S>, f: S -> T): (r: seq<T>)
    ensures |r| == |xs| && forall i :: 0 <= i < |xs| ==> r[i] == f(xs[i])
  {
    seq(|xs|, i requires 0 <= i < |xs| => f(xs[i]))
  }

  function Flatten<T>(xss: seq<seq<T>>): seq<T> {
    if xss == [] then [] else xss[0] + Flatten(xss[1..])
  }

  lemma {:induction false} FlattenAppend<T>(xss: seq<seq<T>>, yss: seq<seq<T>>)
    ensures Flatten(xss + yss) == Flatten(xss) + Flatten(yss)
  {
    if xss == [] {
      assert xss + yss == yss;
    } else {
      assert (xss + yss)[1..] == xss[1..] + yss;
      FlattenAppend(xss[1..], yss);
    }
  }

  lemma FlattenSnoc<T>(xss: seq<seq<T>>, xs: seq<T>)
    ensures Flatten(xss + [xs]) == Flatten(xss) + xs
  {
    FlattenAppend(xss, [xs]);
    assert [xs][1..] == [] && Flatten([xs]) == xs + Flatten([xs][1..]);
    assert xs + [] == xs;
  }

  lemma TakeOneMore<T>(xs: seq<T>, i: nat)
    requires i < |xs|
    ensures xs[..i + 1] == xs[..i] + [xs[i]] && xs == xs[..i + 1] + xs[i + 1..]
  {
  }

  lemma FlattenPrefix<T>(xss: seq<seq<T>>, yss: seq<seq<T>>)
    ensures Flatten(xss) <= Flatten(xss + yss)
  {
    FlattenAppend(xss, yss);
  }

  lemma FlattenTakesNext<T>(xss: seq<seq<T>>, i: nat)
    requires i < |xss|
    ensures Flatten(xss[..i + 1]) == Flatten(xss[..i]) + xss[i]
    ensures Flatten(xss[..i]) + xss[i] <= Flatten(xss)
  {
    TakeOneMore(xss, i);
    FlattenSnoc(xss[..i], xss[i]);
    FlattenPrefix(xss[..i + 1], xss[i + 1..]);
  }

  lemma {:induction false} FilterAppend<T>(xs: seq<T>, ys: seq<T>, keep: T -> bool)
    ensures Filter(xs + ys, keep) == Filter(xs, keep) + Filter(ys, keep)
  {
    if xs == [] {
      assert xs + ys == ys;
    } else {
      assert (xs + ys)[1..] == xs[1..] + ys;
      FilterAppend(xs[1..], ys, keep);
    }
  }

  lemma {:induction false} FilterAll<T>(xs: seq<T>, keep: T -> bool)
    requires forall x <- xs :: keep(x)
    ensures Filter(xs, keep) == xs
  {
    if xs != [] {
      assert xs[0] in xs;
      FilterAll(xs[1..], keep);
    }
  }

  lemma {:induction false} FilterNone<T>(xs: seq<T>, keep: T -> bool)
    requires forall x <- xs :: !keep(x)
    ensures Filter(xs, keep) == []
  {
    if xs != [] {
      assert xs[0] in xs;
      FilterNone(xs[1..], keep);
    }
  }

  lemma Associative<T>(a: seq<T>, b: seq<T>, c: seq<T>)
    ensures a + (b + c) == (a + b) + c
  {
  }

  /** Each member once, where it first occurs. */
  function Distinct<T(==)>(xs: seq<T>): seq<T> {
    if xs == [] then []
    else if xs[|xs| - 1] in xs[..|xs| - 1] then Distinct(xs[..|xs| - 1])
    else Distinct(xs[..|xs| - 1]) + [xs[|xs| - 1]]
  }

  ghost predicate NoRepeats<T>(xs: seq<T>) { forall i, j :: 0 <= i < j < |xs| ==> xs[i] != xs[j] }

  lemma {:induction false} DistinctIsDistinct<T>(xs: seq<T>)
    ensures NoRepeats(Distinct(xs)) && forall x :: x in Distinct(xs) <==> x in xs
  {
    if xs != [] {
      var n := |xs| - 1;
      assert xs == xs[..n] + [xs[n]];
      DistinctIsDistinct(xs[..n]);
    }
  }

  lemma {:induction false} NoRepeatsIsCount<T>(xs: seq<T>)
    ensures NoRepeats(xs) <==> forall x :: x in xs ==> multiset(xs)[x] == 1
  {
    if xs != [] {
      var n := |xs| - 1;
      assert xs == xs[..n] + [xs[n]];
      NoRepeatsIsCount(xs[..n]);
      assert multiset(xs) == multiset(xs[..n]) + multiset{xs[n]};
      if NoRepeats(xs) {
        forall x | x in xs ensures multiset(xs)[x] == 1 {
          if x == xs[n] {
            assert x !in xs[..n];
            assert multiset(xs[..n])[x] == 0;
          }
        }
      } else if NoRepeats(xs[..n]) {
        var i :| 0 <= i < n && xs[i] == xs[n];
        assert xs[..n][i] in multiset(xs[..n]);
        assert multiset(xs)[xs[n]] > 1;
      } else {
        var x :| x in xs[..n] && multiset(xs[..n])[x] != 1;
        assert x in multiset(xs[..n]);
        assert multiset(xs)[x] > 1;
      }
    }
  }

  lemma SameMembersNoRepeats<T>(xs: seq<T>, ys: seq<T>)
    requires NoRepeats(xs) && multiset(xs) == multiset(ys)
    ensures NoRepeats(ys)
  {
    NoRepeatsIsCount(xs);
    NoRepeatsIsCount(ys);
    forall x | x in ys ensures multiset(ys)[x] == 1 {
      assert x in multiset(ys);
    }
  }
}
