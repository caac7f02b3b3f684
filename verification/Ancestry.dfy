/** Walking up the accessibility tree (browser/macos_ax.py, ancestors_of): the parents of
    an element, each once, although parents may lead back into a cycle. */
module Ancestry {
  import opened Common

  /** Handles, and the parent each gives. */
  datatype Lineage<!E> = Lineage(parent: E -> Option<E>, same: (E, E) -> bool)

  /** `same` is an equivalence, and handles of one element have the same parent. */
  ghost predicate CoherentLineage<E(!new)>(g: Lineage<E>) {
    && (forall a :: g.same(a, a))
    && (forall a, b :: g.same(a, b) ==> g.same(b, a))
    && (forall a, b, c :: g.same(a, b) && g.same(b, c) ==> g.same(a, c))
    && (forall a, b :: g.same(a, b) ==> SameParent(g, a, b))
  }

  ghost predicate SameParent<E>(g: Lineage<E>, a: E, b: E) {
    match (g.parent(a), g.parent(b))
    case (None, None) => true
    case (Some(p), Some(q)) => g.same(p, q)
    case _ => false
  }

  /** The element `n` links up, if there is one. */
  function Above<E>(g: Lineage<E>, element: E, n: nat): Option<E> {
    if n == 0 then Some(element)
    else match Above(g, element, n - 1)
      case None => None
      case Some(below) => g.parent(below)
  }

  ghost predicate Ascends<E>(g: Lineage<E>, element: E, chain: seq<E>) {
    forall i :: 0 <= i < |chain| ==> Above(g, element, i) == Some(chain[i])
  }

  ghost predicate NoneTwice<E>(g: Lineage<E>, chain: seq<E>) {
    forall i, j :: 0 <= i < j < |chain| ==> !g.same(chain[j], chain[i])
  }

  ghost predicate InChain<E>(g: Lineage<E>, e: E, chain: seq<E>) {
    exists i :: 0 <= i < |chain| && g.same(e, chain[i])
  }

  /** The chain ends at the top, or where it would come round again. */
  ghost predicate Closed<E>(g: Lineage<E>, element: E, chain: seq<E>) {
    var next := Above(g, element, |chain|);
    next.Some? ==> InChain(g, next.value, chain)
  }

  /** A closed chain holds every ancestor there is, however far up. */
  lemma {:induction false} ClosedIsComplete<E(!new)>(g: Lineage<E>, element: E, chain: seq<E>, n: nat)
    requires CoherentLineage(g) && Ascends(g, element, chain) && Closed(g, element, chain) && chain != []
    ensures Above(g, element, n).Some? ==> InChain(g, Above(g, element, n).value, chain)
  {
    if n < |chain| {
      assert g.same(chain[n], chain[n]);
    } else if Above(g, element, n).Some? {
      ClosedIsComplete(g, element, chain, n - 1);
      var below := Above(g, element, n - 1).value;
      var i :| 0 <= i < |chain| && g.same(below, chain[i]);
      assert SameParent(g, below, chain[i]);
      assert Above(g, element, i + 1) == g.parent(chain[i]);
      if i + 1 == |chain| {
        var j :| 0 <= j < |chain| && g.same(Above(g, element, |chain|).value, chain[j]);
        assert g.same(Above(g, element, n).value, chain[j]);
      } else {
        assert g.same(Above(g, element, n).value, chain[i + 1]);
      }
    }
  }

  /**
   The element and its parents in order, none of them twice, at most `maxDepth`; with depth
   to spare the chain ends at the top or where it would come round again, and when handles of
   one element have one parent, it then holds every ancestor there is.
   */
  method AncestorsOf<E(!new)>(g: Lineage<E>, element: E, maxDepth: nat) returns (chain: seq<E>)
    ensures |chain| <= maxDepth && Ascends(g, element, chain) && NoneTwice(g, chain)
    ensures |chain| < maxDepth ==> Closed(g, element, chain)
    ensures |chain| < maxDepth && CoherentLineage(g) ==>
              forall n: nat :: Above(g, element, n).Some? ==> InChain(g, Above(g, element, n).value, chain)
  {
    chain := [];
    var handle := Some(element);
    var comesRound := false;
    while handle.Some? && |chain| < maxDepth && !comesRound
      invariant |chain| <= maxDepth && Ascends(g, element, chain) && NoneTwice(g, chain)
      invariant handle == Above(g, element, |chain|)
      invariant comesRound ==> Closed(g, element, chain)
      decreases maxDepth - |chain|, !comesRound
    {
      comesRound := exists i :: 0 <= i < |chain| && g.same(handle.value, chain[i]);
      if !comesRound {
        chain := chain + [handle.value];
        handle := g.parent(handle.value);
      }
    }
    if |chain| < maxDepth && CoherentLineage(g) {
      forall n: nat ensures Above(g, element, n).Some? ==> InChain(g, Above(g, element, n).value, chain) {
        ClosedIsComplete(g, element, chain, n);
      }
    }
  }
}
