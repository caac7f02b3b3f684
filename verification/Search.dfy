/**
 The bounded breadth-first search over the accessibility tree
 (browser/macos_ax.py, find_where).

 The tree is not a tree: elements link to each other in cycles, and the same
 element is handed out under several handles.  `same` says when two handles are
 one element; everything the search reads is assumed to respect it.
 */
module Search {
  import opened Common

  /** What the predicate said about one handle.  A handle whose element has gone
      makes the predicate raise, and the search then skips its children too. */
  datatype Probe = Match | NoMatch | Vanished

  datatype Graph<!E> = Graph(
    children: E -> seq<E>,
    same: (E, E) -> bool,
    probe: E -> Probe)

  datatype Entry<E> = Entry(element: E, depth: nat)

  /** `same` is an equivalence, and handles of one element read alike. */
  ghost predicate Coherent<E(!new)>(g: Graph<E>) {
    && (forall a :: g.same(a, a))
    && (forall a, b :: g.same(a, b) ==> g.same(b, a))
    && (forall a, b, c :: g.same(a, b) && g.same(b, c) ==> g.same(a, c))
    && (forall a, b :: g.same(a, b) ==> g.probe(a) == g.probe(b))
    && (forall a, b, x :: g.same(a, b) && x in g.children(a) ==> HasChildLike(g, b, x))
  }

  ghost predicate HasChildLike<E(!new)>(g: Graph<E>, parent: E, x: E) {
    exists y :: y in g.children(parent) && g.same(y, x)
  }

  /** `e` is `d` links away from a root along some path of readable elements. */
  ghost predicate Reaches<E(!new)>(g: Graph<E>, roots: seq<E>, e: E, d: nat) {
    if d == 0 then e in roots
    else exists p :: Reaches(g, roots, p, d - 1) && g.probe(p) != Vanished && e in g.children(p)
  }

  /** No matching element lies closer to the roots than `d` links. */
  ghost predicate NoMatchCloserThan<E(!new)>(g: Graph<E>, roots: seq<E>, d: nat) {
    forall e, k: nat :: k < d && Reaches(g, roots, e, k) ==> g.probe(e) != Match
  }

  ghost predicate AllReached<E(!new)>(g: Graph<E>, roots: seq<E>, xs: seq<Entry<E>>, maxDepth: nat) {
    forall x <- xs :: x.depth <= maxDepth && Reaches(g, roots, x.element, x.depth)
  }

  // ---------------------------------------------------------------------------
  // What the loop keeps
  // ---------------------------------------------------------------------------

  /** `e` is listed, under some handle, at depth `d` or less. */
  ghost predicate Listed<E(!new)>(g: Graph<E>, xs: seq<Entry<E>>, e: E, d: nat) {
    exists i :: 0 <= i < |xs| && g.same(xs[i].element, e) && xs[i].depth <= d
  }

  ghost predicate Covered<E(!new)>(g: Graph<E>, seen: seq<Entry<E>>, pending: seq<Entry<E>>, e: E, d: nat) {
    Listed(g, seen, e, d) || Listed(g, pending, e, d)
  }

  ghost predicate RootsCovered<E(!new)>(g: Graph<E>, roots: seq<E>, seen: seq<Entry<E>>, pending: seq<Entry<E>>) {
    forall r <- roots :: Covered(g, seen, pending, r, 0)
  }

  ghost predicate Expanded<E(!new)>(g: Graph<E>, s: Entry<E>, seen: seq<Entry<E>>, pending: seq<Entry<E>>) {
    g.probe(s.element) != Vanished ==>
      forall c <- g.children(s.element) :: Covered(g, seen, pending, c, s.depth + 1)
  }

  ghost predicate AllExpanded<E(!new)>(g: Graph<E>, seen: seq<Entry<E>>, pending: seq<Entry<E>>, maxDepth: nat) {
    forall s <- seen :: s.depth < maxDepth ==> Expanded(g, s, seen, pending)
  }

  ghost predicate NoneMatch<E(!new)>(g: Graph<E>, xs: seq<Entry<E>>) {
    forall x <- xs :: g.probe(x.element) != Match
  }

  /** Breadth first: depths never decrease along the queue, and the last is at
      most one more than the first. */
  ghost predicate Layered<E>(pending: seq<Entry<E>>) {
    forall i, j :: 0 <= i <= j < |pending| ==> pending[i].depth <= pending[j].depth <= pending[i].depth + 1
  }

  ghost predicate NotDeeperThan<E>(seen: seq<Entry<E>>, d: nat) {
    forall s <- seen :: s.depth <= d
  }

  lemma CoveredGrows<E(!new)>(g: Graph<E>, seen: seq<Entry<E>>, pending: seq<Entry<E>>,
                              seen': seq<Entry<E>>, pending': seq<Entry<E>>, e: E, d: nat)
    requires Covered(g, seen, pending, e, d)
    requires forall x :: x in seen ==> x in seen'
    requires forall x :: x in pending ==> x in pending' || x in seen'
    ensures Covered(g, seen', pending', e, d)
  {
    if Listed(g, seen, e, d) {
      var i :| 0 <= i < |seen| && g.same(seen[i].element, e) && seen[i].depth <= d;
      assert seen[i] in seen;
      var k :| 0 <= k < |seen'| && seen'[k] == seen[i];
    } else {
      var i :| 0 <= i < |pending| && g.same(pending[i].element, e) && pending[i].depth <= d;
      assert pending[i] in pending;
      if pending[i] in seen' {
        var k :| 0 <= k < |seen'| && seen'[k] == pending[i];
      } else {
        var k :| 0 <= k < |pending'| && pending'[k] == pending[i];
      }
    }
  }

  /** Once the queue holds nothing nearer than `d`, everything `d` links away is known. */
  lemma {:induction false} ReachedIsCovered<E(!new)>(
    g: Graph<E>, roots: seq<E>, seen: seq<Entry<E>>, pending: seq<Entry<E>>, maxDepth: nat, e: E, d: nat)
    requires Coherent(g) && d <= maxDepth
    requires RootsCovered(g, roots, seen, pending) && AllExpanded(g, seen, pending, maxDepth)
    requires forall x <- pending :: d <= x.depth
    requires Reaches(g, roots, e, d)
    ensures Covered(g, seen, pending, e, d)
  {
    if d > 0 {
      var p :| Reaches(g, roots, p, d - 1) && g.probe(p) != Vanished && e in g.children(p);
      ReachedIsCovered(g, roots, seen, pending, maxDepth, p, d - 1);
      assert Listed(g, seen, p, d - 1);
      var i :| 0 <= i < |seen| && g.same(seen[i].element, p) && seen[i].depth <= d - 1;
      var s := seen[i];
      assert HasChildLike(g, s.element, e);
      var c :| c in g.children(s.element) && g.same(c, e);
      assert Expanded(g, s, seen, pending);
      assert Covered(g, seen, pending, c, s.depth + 1);
      if Listed(g, seen, c, s.depth + 1) {
        var j :| 0 <= j < |seen| && g.same(seen[j].element, c) && seen[j].depth <= s.depth + 1;
        assert g.same(seen[j].element, e);
      } else {
        var j :| 0 <= j < |pending| && g.same(pending[j].element, c) && pending[j].depth <= s.depth + 1;
        assert g.same(pending[j].element, e);
      }
    }
  }

  lemma NothingCloser<E(!new)>(
    g: Graph<E>, roots: seq<E>, seen: seq<Entry<E>>, pending: seq<Entry<E>>, maxDepth: nat, d: nat)
    requires Coherent(g) && d <= maxDepth + 1
    requires RootsCovered(g, roots, seen, pending) && AllExpanded(g, seen, pending, maxDepth)
    requires forall x <- pending :: d <= x.depth
    requires NoneMatch(g, seen)
    ensures NoMatchCloserThan(g, roots, d)
  {
    forall e, k: nat | k < d && Reaches(g, roots, e, k) ensures g.probe(e) != Match {
      ReachedIsCovered(g, roots, seen, pending, maxDepth, e, k);
      assert !Listed(g, pending, e, k);
      var i :| 0 <= i < |seen| && g.same(seen[i].element, e) && seen[i].depth <= k;
      assert seen[i] in seen;
    }
  }

  /** Taking the head of the queue into `seen` and queueing `extra` keeps the bookkeeping. */
  lemma AfterVisit<E(!new)>(
    g: Graph<E>, roots: seq<E>, seen: seq<Entry<E>>, pending: seq<Entry<E>>, extra: seq<Entry<E>>, maxDepth: nat)
    requires Coherent(g) && |pending| > 0
    requires RootsCovered(g, roots, seen, pending) && AllExpanded(g, seen, pending, maxDepth)
    requires pending[0].depth < maxDepth && g.probe(pending[0].element) != Vanished ==>
               extra == Queued(g.children(pending[0].element), pending[0].depth + 1)
    ensures RootsCovered(g, roots, seen + [pending[0]], pending[1..] + extra)
    ensures AllExpanded(g, seen + [pending[0]], pending[1..] + extra, maxDepth)
  {
    var top, seen', pending' := pending[0], seen + [pending[0]], pending[1..] + extra;
    forall x | x in pending ensures x in pending' || x in seen' {
      var i :| 0 <= i < |pending| && pending[i] == x;
      if i == 0 {
        assert seen'[|seen|] == x;
      } else {
        assert pending'[i - 1] == x;
      }
    }
    forall r | r in roots ensures Covered(g, seen', pending', r, 0) {
      CoveredGrows(g, seen, pending, seen', pending', r, 0);
    }
    forall s | s in seen' && s.depth < maxDepth ensures Expanded(g, s, seen', pending') {
      if g.probe(s.element) != Vanished {
        forall c | c in g.children(s.element) ensures Covered(g, seen', pending', c, s.depth + 1) {
          if s in seen {
            assert Expanded(g, s, seen, pending);
            CoveredGrows(g, seen, pending, seen', pending', c, s.depth + 1);
          } else {
            var i :| 0 <= i < |g.children(top.element)| && g.children(top.element)[i] == c;
            assert pending'[|pending| - 1 + i] == Entry(c, top.depth + 1);
          }
        }
      }
    }
  }

  function Queued<E>(xs: seq<E>, depth: nat): (r: seq<Entry<E>>)
    ensures |r| == |xs| && forall i :: 0 <= i < |r| ==> r[i] == Entry(xs[i], depth)
  {
    seq(|xs|, i requires 0 <= i < |xs| => Entry(xs[i], depth))
  }

  /** What every turn of the loop keeps when sameness is coherent: nearer comes before farther. */
  ghost predicate NearestFirst<E(!new)>(
    g: Graph<E>, roots: seq<E>, seen: seq<Entry<E>>, pending: seq<Entry<E>>, maxDepth: nat)
  {
    && Layered(pending) && (|pending| > 0 ==> NotDeeperThan(seen, pending[0].depth))
    && RootsCovered(g, roots, seen, pending) && AllExpanded(g, seen, pending, maxDepth)
    && NothingNearer(g, roots, seen)
  }

  /** No match lies nearer than anything inspected. */
  ghost predicate NothingNearer<E(!new)>(g: Graph<E>, roots: seq<E>, seen: seq<Entry<E>>) {
    forall x <- seen :: NoMatchCloserThan(g, roots, x.depth)
  }

  /** What the search adds to the queue for an element it has just read. */
  function Children<E>(g: Graph<E>, x: Entry<E>, maxDepth: nat): seq<Entry<E>> {
    if g.probe(x.element) != Vanished && x.depth < maxDepth
    then Queued(g.children(x.element), x.depth + 1)
    else []
  }

  lemma NearestAtStart<E(!new)>(g: Graph<E>, roots: seq<E>, maxDepth: nat)
    requires Coherent(g)
    ensures NearestFirst(g, roots, [], Queued(roots, 0), maxDepth)
  {
  }

  lemma NearestAfterDrop<E(!new)>(
    g: Graph<E>, roots: seq<E>, seen: seq<Entry<E>>, pending: seq<Entry<E>>, k: nat, maxDepth: nat)
    requires Coherent(g) && NearestFirst(g, roots, seen, pending, maxDepth) && |pending| > 0 && k < |seen|
    requires g.same(pending[0].element, seen[k].element)
    ensures NearestFirst(g, roots, seen, pending[1..], maxDepth)
  {
  }

  lemma NearestAfterVisit<E(!new)>(
    g: Graph<E>, roots: seq<E>, seen: seq<Entry<E>>, pending: seq<Entry<E>>, maxDepth: nat)
    requires Coherent(g) && NearestFirst(g, roots, seen, pending, maxDepth) && |pending| > 0
    requires NoneMatch(g, seen) && pending[0].depth <= maxDepth
    ensures NearestFirst(g, roots, seen + [pending[0]], pending[1..] + Children(g, pending[0], maxDepth), maxDepth)
  {
    NothingCloser(g, roots, seen, pending, maxDepth, pending[0].depth);
    AfterVisit(g, roots, seen, pending, Children(g, pending[0], maxDepth), maxDepth);
  }

  /** No element was inspected after one it is the same as. */
  ghost predicate MetOnce<E(!new)>(g: Graph<E>, xs: seq<Entry<E>>) {
    forall i, j :: 0 <= i < j < |xs| ==> !g.same(xs[j].element, xs[i].element)
  }

  /** What every turn of the loop keeps, whatever sameness means. */
  ghost predicate Honest<E(!new)>(
    g: Graph<E>, roots: seq<E>, seen: seq<Entry<E>>, pending: seq<Entry<E>>, maxDepth: nat)
  {
    && MetOnce(g, seen) && NoneMatch(g, seen)
    && AllReached(g, roots, seen, maxDepth) && AllReached(g, roots, pending, maxDepth)
  }

  lemma HonestAfterVisit<E(!new)>(
    g: Graph<E>, roots: seq<E>, seen: seq<Entry<E>>, pending: seq<Entry<E>>, maxDepth: nat)
    requires Honest(g, roots, seen, pending, maxDepth) && |pending| > 0
    requires forall i :: 0 <= i < |seen| ==> !g.same(pending[0].element, seen[i].element)
    requires g.probe(pending[0].element) != Match
    ensures Honest(g, roots, seen + [pending[0]], pending[1..] + Children(g, pending[0], maxDepth), maxDepth)
  {
    assert pending[0] in pending;
  }

  /** What a finished search may claim of any graph. */
  ghost predicate Inspected<E(!new)>(
    g: Graph<E>, roots: seq<E>, maxDepth: nat, maxElements: nat, found: Option<E>, inspected: seq<Entry<E>>)
  {
    && |inspected| <= maxElements && MetOnce(g, inspected) && AllReached(g, roots, inspected, maxDepth)
    && match found
       case Some(e) =>
         && |inspected| > 0 && e == inspected[|inspected| - 1].element
         && g.probe(e) == Match && NoneMatch(g, inspected[..|inspected| - 1])
       case None => NoneMatch(g, inspected)
  }

  lemma FoundIsInspected<E(!new)>(
    g: Graph<E>, roots: seq<E>, seen: seq<Entry<E>>, pending: seq<Entry<E>>, maxDepth: nat, maxElements: nat)
    requires Honest(g, roots, seen, pending, maxDepth) && |pending| > 0 && |seen| < maxElements
    requires forall i :: 0 <= i < |seen| ==> !g.same(pending[0].element, seen[i].element)
    requires g.probe(pending[0].element) == Match
    ensures Inspected(g, roots, maxDepth, maxElements, Some(pending[0].element), seen + [pending[0]])
  {
    assert pending[0] in pending;
    assert (seen + [pending[0]])[..|seen|] == seen;
  }

  /** What it may claim besides when sameness is coherent. */
  ghost predicate Answer<E(!new)>(
    g: Graph<E>, roots: seq<E>, maxDepth: nat, maxElements: nat, found: Option<E>, inspected: seq<Entry<E>>)
  {
    // A spent budget was spent on the nearest elements.
    && NothingNearer(g, roots, inspected)
    && (found.None? && |inspected| < maxElements ==> NoMatchCloserThan(g, roots, maxDepth + 1))
  }

  lemma FoundAnswer<E(!new)>(
    g: Graph<E>, roots: seq<E>, seen: seq<Entry<E>>, pending: seq<Entry<E>>, maxDepth: nat, maxElements: nat)
    requires Coherent(g) && NearestFirst(g, roots, seen, pending, maxDepth) && |pending| > 0
    requires NoneMatch(g, seen) && pending[0].depth <= maxDepth
    ensures Answer(g, roots, maxDepth, maxElements, Some(pending[0].element), seen + [pending[0]])
  {
    NothingCloser(g, roots, seen, pending, maxDepth, pending[0].depth);
  }

  lemma EmptyHandedAnswer<E(!new)>(
    g: Graph<E>, roots: seq<E>, seen: seq<Entry<E>>, pending: seq<Entry<E>>, maxDepth: nat, maxElements: nat)
    requires Coherent(g) && NearestFirst(g, roots, seen, pending, maxDepth) && NoneMatch(g, seen)
    requires |seen| == maxElements || (|seen| < maxElements && |pending| == 0)
    ensures Answer(g, roots, maxDepth, maxElements, None, seen)
  {
    if |seen| < maxElements {
      NothingCloser(g, roots, seen, pending, maxDepth, maxDepth + 1);
    }
  }

  /** Whether an element already seen is the same as this one. */
  method Known<E(!new)>(g: Graph<E>, element: E, seen: seq<Entry<E>>) returns (known: bool, ghost at: nat)
    ensures known ==> at < |seen| && g.same(element, seen[at].element)
    ensures !known ==> forall i :: 0 <= i < |seen| ==> !g.same(element, seen[i].element)
  {
    at := 0;
    for i := 0 to |seen|
      invariant forall j :: 0 <= j < i ==> !g.same(element, seen[j].element)
    {
      if g.same(element, seen[i].element) {
        return true, i;
      }
    }
    return false, at;
  }

  /**
   The search.  `inspected` lists the elements the predicate was asked about, each
   with the depth it was met at; the source keeps only their number.

   On any graph, what is returned matches, was reached within the depth, and came before
   anything else that matches; nothing is inspected that is the same as something inspected
   before.  When sameness is coherent, the match is at the least distance any match has, and
   a search that comes back empty-handed with budget to spare has left nothing out.
   */
  method FindWhere<E(!new)>(g: Graph<E>, roots: seq<E>, maxDepth: nat, maxElements: nat)
    returns (found: Option<E>, inspected: seq<Entry<E>>)
    ensures Inspected(g, roots, maxDepth, maxElements, found, inspected)
    ensures Coherent(g) ==> Answer(g, roots, maxDepth, maxElements, found, inspected)
  {
    var pending := Queued(roots, 0);
    var seen: seq<Entry<E>> := [];
    if Coherent(g) {
      NearestAtStart(g, roots, maxDepth);
    }
    while |pending| > 0 && |seen| < maxElements
      invariant |seen| <= maxElements && Honest(g, roots, seen, pending, maxDepth)
      invariant Coherent(g) ==> NearestFirst(g, roots, seen, pending, maxDepth)
      decreases maxElements - |seen|, |pending|
    {
      var top := pending[0];
      assert top in pending;
      var known, at := Known(g, top.element, seen);
      if known {
        if Coherent(g) {
          NearestAfterDrop(g, roots, seen, pending, at, maxDepth);
        }
        pending := pending[1..];
        continue;
      }
      if g.probe(top.element) == Match {
        FoundIsInspected(g, roots, seen, pending, maxDepth, maxElements);
        if Coherent(g) {
          FoundAnswer(g, roots, seen, pending, maxDepth, maxElements);
        }
        return Some(top.element), seen + [top];
      }
      HonestAfterVisit(g, roots, seen, pending, maxDepth);
      if Coherent(g) {
        NearestAfterVisit(g, roots, seen, pending, maxDepth);
      }
      seen := seen + [top];
      pending := pending[1..] + Children(g, top, maxDepth);
    }
    if Coherent(g) {
      EmptyHandedAnswer(g, roots, seen, pending, maxDepth, maxElements);
    }
    return None, seen;
  }
}
