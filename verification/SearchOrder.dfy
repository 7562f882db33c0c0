/** The order in which a depth-first search enters vertices, and which edges it meets going back. */
module SearchOrder {
  import opened Graphs

  ghost predicate WellFormed(out: seq<seq<nat>>) {
    forall v, k :: 0 <= v < |out| && 0 <= k < |out[v]| ==> out[v][k] < |out|
  }

  ghost predicate IsEdge(out: seq<seq<nat>>, a: nat, b: nat) {
    a < |out| && b in out[a]
  }

  ghost function AllEdges(out: seq<seq<nat>>): Edges {
    set a: nat, b: nat | a < |out| && b in out[a] :: (a, b)
  }

  // ---- the order -------------------------------------------------------------

  ghost function Unseen(n: nat, seen: seq<nat>): set<nat> {
    set u: nat | u < n && u !in seen
  }

  lemma UnseenFewer(n: nat, a: seq<nat>, b: seq<nat>)
    requires a <= b
    ensures Unseen(n, b) <= Unseen(n, a)
  {
    forall u | u in a ensures u in b {
      var i :| 0 <= i < |a| && a[i] == u;
      assert b[i] == u;
    }
  }

  lemma UnseenOneLess(n: nat, seen: seq<nat>, v: nat)
    requires v < n && v !in seen
    ensures Unseen(n, seen + [v]) < Unseen(n, seen)
  {
    UnseenFewer(n, seen, seen + [v]);
    assert v in Unseen(n, seen) && v !in Unseen(n, seen + [v]);
  }

  /** Entering `v`, unless it has been, and from there its successors in order. */
  ghost function Visit(out: seq<seq<nat>>, v: nat, seen: seq<nat>): (r: seq<nat>)
    requires WellFormed(out) && v < |out|
    ensures seen <= r
    decreases Unseen(|out|, seen), 0
  {
    if v in seen then seen
    else
      UnseenOneLess(|out|, seen, v);
      VisitAll(out, out[v], seen + [v])
  }

  /** Visiting these one after another. */
  ghost function VisitAll(out: seq<seq<nat>>, ws: seq<nat>, seen: seq<nat>): (r: seq<nat>)
    requires WellFormed(out) && forall i :: 0 <= i < |ws| ==> ws[i] < |out|
    ensures seen <= r
    decreases Unseen(|out|, seen), |ws|
  {
    if ws == [] then seen
    else
      var n := |ws| - 1;
      var before := VisitAll(out, ws[..n], seen);
      UnseenFewer(|out|, seen, before);
      Visit(out, ws[n], before)
  }

  function Upto(n: nat): (r: seq<nat>)
    ensures |r| == n && forall i :: 0 <= i < n ==> r[i] == i
  {
    seq(n, i requires 0 <= i < n => i)
  }

  /** The vertices in the order a search enters them, started from each in turn. */
  ghost function Preorder(out: seq<seq<nat>>): seq<nat>
    requires WellFormed(out)
  {
    VisitAll(out, Upto(|out|), [])
  }

  // ---- before and after ---------------------------------------------------------

  function Elements(order: seq<nat>): set<nat> {
    set v | v in order
  }

  /** What had been entered when `v` was, or so far if it has not been. */
  function Before(order: seq<nat>, v: nat): set<nat> {
    if order == [] then {}
    else
      var n := |order| - 1;
      if v in order[..n] then Before(order[..n], v) else if order[n] == v then Elements(order[..n]) else Elements(order)
  }

  lemma BeforeStays(order: seq<nat>, x: nat, v: nat)
    requires v in order
    ensures Before(order + [x], v) == Before(order, v)
  {
    assert (order + [x])[..|order|] == order;
  }

  lemma BeforeNew(order: seq<nat>, v: nat)
    requires v !in order
    ensures Before(order, v) == Elements(order) == Before(order + [v], v)
  {
    assert (order + [v])[..|order|] == order;
    if order != [] {
      assert order[|order| - 1] in order;
      assert forall u :: u in order[..|order| - 1] ==> u in order;
    }
  }

  lemma {:induction false} BeforeIsEarlier(order: seq<nat>, v: nat)
    ensures Before(order, v) <= Elements(order) && v !in Before(order, v)
  {
    if order != [] {
      var n := |order| - 1;
      BeforeIsEarlier(order[..n], v);
      assert order == order[..n] + [order[n]];
    }
  }

  /** No vertex of the walk is one of these. */
  ghost predicate Avoids(p: seq<nat>, some: set<nat>) {
    forall i :: 0 <= i < |p| ==> p[i] !in some
  }

  /** When `a` was entered, it reached `b` through vertices that had not been. */
  ghost predicate ReachedFresh(out: seq<seq<nat>>, order: seq<nat>, a: nat, b: nat) {
    exists p :: WalkFrom(AllEdges(out), a, p) && WalkTo(AllEdges(out), b, p) && Avoids(p, Before(order, a))
  }

  /** The edges whose end, when it was entered, reached their start through vertices not yet entered. */
  ghost function BackEdges(out: seq<seq<nat>>): Edges
    requires WellFormed(out)
  {
    set e | e in AllEdges(out) && ReachedFresh(out, Preorder(out), e.1, e.0)
  }
}
