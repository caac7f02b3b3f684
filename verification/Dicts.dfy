/** Dictionaries that remember insertion order, as the source's do. */
module Dicts {
  import opened Common

  type Dict<K, V> = seq<(K, V)>

  function Find<K(==), V>(d: Dict<K, V>, k: K): Option<V> {
    if d == [] then None else if d[0].0 == k then Some(d[0].1) else Find(d[1..], k)
  }

  /** A known key keeps its place, a new one goes to the end. */
  function Put<K(==), V>(d: Dict<K, V>, k: K, v: V): Dict<K, V> {
    if d == [] then [(k, v)]
    else if d[0].0 == k then [(k, v)] + d[1..]
    else [d[0]] + Put(d[1..], k, v)
  }

  /** A dictionary comprehension: later pairs replace earlier values. */
  function FromPairs<K(==), V>(pairs: seq<(K, V)>): Dict<K, V> {
    if pairs == [] then []
    else Put(FromPairs(pairs[..|pairs| - 1]), pairs[|pairs| - 1].0, pairs[|pairs| - 1].1)
  }

  ghost function Keys<K, V>(d: Dict<K, V>): set<K> { set p <- d :: p.0 }

  function Values<K, V>(d: Dict<K, V>): seq<V> { Map(d, (p: (K, V)) => p.1) }

  ghost predicate Unique<K, V>(d: Dict<K, V>) {
    forall i, j :: 0 <= i < j < |d| ==> d[i].0 != d[j].0
  }

  lemma {:induction false} FindIsMember<K, V>(d: Dict<K, V>, k: K)
    ensures Find(d, k).Some? <==> k in Keys(d)
    ensures Find(d, k).Some? ==> (k, Find(d, k).value) in d
    ensures Unique(d) ==> forall v :: (k, v) in d ==> Find(d, k) == Some(v)
  {
    if d != [] {
      FindIsMember(d[1..], k);
      assert d == [d[0]] + d[1..];
      assert Keys(d) == {d[0].0} + Keys(d[1..]);
      if Unique(d) {
        forall i, j | 0 <= i < j < |d[1..]| ensures d[1..][i].0 != d[1..][j].0 {
          assert d[i + 1].0 != d[j + 1].0;
        }
        forall v | (k, v) in d ensures Find(d, k) == Some(v) {
          var i :| 0 <= i < |d| && d[i] == (k, v);
          assert i == 0 || d[0].0 != d[i].0;
          assert i == 0 || d[1..][i - 1] == (k, v);
        }
      }
    }
  }

  lemma {:induction false} PutKeys<K, V>(d: Dict<K, V>, k: K, v: V)
    ensures Keys(Put(d, k, v)) == Keys(d) + {k}
  {
    if d != [] {
      PutKeys(d[1..], k, v);
      KeysCons(d[0], d[1..]);
      KeysCons(d[0], Put(d[1..], k, v));
      KeysCons((k, v), d[1..]);
      assert d == [d[0]] + d[1..];
    }
  }

  lemma KeysCons<K, V>(p: (K, V), d: Dict<K, V>)
    ensures Keys([p] + d) == {p.0} + Keys(d)
  {
  }

  lemma {:induction false} PutUnique<K, V>(d: Dict<K, V>, k: K, v: V)
    requires Unique(d)
    ensures Unique(Put(d, k, v))
  {
    if d != [] {
      UniqueTail(d);
      PutUnique(d[1..], k, v);
      if d[0].0 == k {
        NotAKey(d[1..], k);
      } else {
        PutKeys(d[1..], k, v);
        NotAKey(Put(d[1..], k, v), d[0].0);
      }
    }
  }

  lemma NotAKey<K, V>(d: Dict<K, V>, k: K)
    requires k !in Keys(d)
    ensures forall j :: 0 <= j < |d| ==> d[j].0 != k
  {
  }

  lemma UniqueTail<K, V>(d: Dict<K, V>)
    requires Unique(d) && d != []
    ensures Unique(d[1..]) && d[0].0 !in Keys(d[1..])
  {
  }

  lemma {:induction false} PutFinds<K, V>(d: Dict<K, V>, k: K, v: V, other: K)
    ensures Find(Put(d, k, v), other) == if other == k then Some(v) else Find(d, other)
  {
    if d != [] {
      PutFinds(d[1..], k, v, other);
    }
  }

  lemma {:induction false} FromPairsIsDict<K, V>(pairs: seq<(K, V)>)
    ensures Unique(FromPairs(pairs)) && Keys(FromPairs(pairs)) == set p <- pairs :: p.0
    ensures forall p <- FromPairs(pairs) :: p in pairs
  {
    if pairs != [] {
      var n := |pairs| - 1;
      assert pairs == pairs[..n] + [pairs[n]];
      FromPairsIsDict(pairs[..n]);
      PutKeys(FromPairs(pairs[..n]), pairs[n].0, pairs[n].1);
      PutUnique(FromPairs(pairs[..n]), pairs[n].0, pairs[n].1);
      PutMembers(FromPairs(pairs[..n]), pairs[n].0, pairs[n].1);
    }
  }

  lemma {:induction false} PutMembers<K, V>(d: Dict<K, V>, k: K, v: V)
    ensures forall p <- Put(d, k, v) :: p in d || p == (k, v)
  {
    if d != [] {
      PutMembers(d[1..], k, v);
    }
  }

  /** Pairs without a repeated key are already the dictionary. */
  lemma {:induction false} FromUniquePairs<K, V>(pairs: seq<(K, V)>)
    requires Unique(pairs)
    ensures FromPairs(pairs) == pairs
  {
    if pairs != [] {
      var n := |pairs| - 1;
      assert pairs == pairs[..n] + [pairs[n]];
      assert forall i :: 0 <= i < n ==> pairs[i].0 != pairs[n].0;
      FromUniquePairs(pairs[..n]);
      PutNew(pairs[..n], pairs[n].0, pairs[n].1);
    }
  }

  lemma {:induction false} PutNew<K, V>(d: Dict<K, V>, k: K, v: V)
    requires forall i :: 0 <= i < |d| ==> d[i].0 != k
    ensures Put(d, k, v) == d + [(k, v)]
  {
    if d != [] {
      PutNew(d[1..], k, v);
      assert d == [d[0]] + d[1..];
    }
  }

  lemma ValuesCons<K, V>(p: (K, V), d: Dict<K, V>)
    ensures Values([p] + d) == [p.1] + Values(d)
  {
  }

  /** The pairs whose key is not in the other dictionary. */
  function OnlyIn<K(==), V>(here: Dict<K, V>, there: Dict<K, V>): Dict<K, V> {
    if here == [] then []
    else (if Find(there, here[0].0).None? then [here[0]] else []) + OnlyIn(here[1..], there)
  }

  lemma {:induction false} OnlyInMembers<K, V>(here: Dict<K, V>, there: Dict<K, V>)
    ensures forall p :: p in OnlyIn(here, there) <==> p in here && p.0 !in Keys(there)
  {
    if here != [] {
      OnlyInMembers(here[1..], there);
      FindIsMember(there, here[0].0);
      assert here == [here[0]] + here[1..];
    }
  }

  lemma {:induction false} OnlyInUnique<K, V>(here: Dict<K, V>, there: Dict<K, V>)
    requires Unique(here)
    ensures Unique(OnlyIn(here, there))
  {
    if here != [] {
      UniqueTail(here);
      OnlyInUnique(here[1..], there);
      OnlyInKeys(here[1..], there);
      KeptStaysUnique(here[0], OnlyIn(here[1..], there));
    }
  }

  lemma KeptStaysUnique<K, V>(p: (K, V), kept: Dict<K, V>)
    requires p.0 !in Keys(kept) && Unique(kept)
    ensures Unique([p] + kept) && [] + kept == kept
  {
    NotAKey(kept, p.0);
  }

  lemma {:induction false} OnlyInKeys<K, V>(here: Dict<K, V>, there: Dict<K, V>)
    ensures Keys(OnlyIn(here, there)) == Keys(here) - Keys(there)
  {
    if here != [] {
      OnlyInKeys(here[1..], there);
      FindIsMember(there, here[0].0);
      KeysCons(here[0], here[1..]);
      assert here == [here[0]] + here[1..];
      if Find(there, here[0].0).None? {
        KeysCons(here[0], OnlyIn(here[1..], there));
      } else {
        assert [] + OnlyIn(here[1..], there) == OnlyIn(here[1..], there);
      }
    }
  }

  lemma SameMembersSameKeys<K, V>(a: Dict<K, V>, b: Dict<K, V>)
    requires forall p :: p in a <==> p in b
    ensures Keys(a) == Keys(b)
  {
  }

  lemma NoKeysNoPairs<K, V>(d: Dict<K, V>)
    ensures d == [] <==> Keys(d) == {}
  {
    if d != [] {
      assert d[0] in d && d[0].0 in Keys(d);
    }
  }
}
