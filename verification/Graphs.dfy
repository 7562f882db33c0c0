/** Walks over numbered vertices: what "longest path", "cycle" and "back edge" mean. */
module Graphs {

  type Edges = set<(nat, nat)>

  ghost predicate IsWalk(edges: Edges, p: seq<nat>) {
    && p != []
    && forall i, j :: 0 <= i < j < |p| && j == i + 1 ==> (p[i], p[j]) in edges
  }

  ghost predicate WalkFrom(edges: Edges, a: nat, p: seq<nat>) {
    IsWalk(edges, p) && p[0] == a
  }

  ghost predicate WalkTo(edges: Edges, b: nat, p: seq<nat>) {
    IsWalk(edges, p) && p[|p| - 1] == b
  }

  ghost predicate Reaches(edges: Edges, a: nat, b: nat) {
    exists p :: WalkFrom(edges, a, p) && WalkTo(edges, b, p)
  }

  /** No walk of one edge or more comes back to where it started. */
  ghost predicate Acyclic(edges: Edges) {
    forall p :: IsWalk(edges, p) && |p| > 1 ==> p[0] != p[|p| - 1]
  }

  /** `kept` is acyclic and no edge left out of it could be put back. */
  ghost predicate MaximalAcyclic(all: Edges, kept: Edges) {
    && kept <= all
    && Acyclic(kept)
    && forall e :: e in all - kept ==> !Acyclic(kept + {e})
  }

  /** `length` is the number of edges on a longest walk out of `v`. */
  ghost predicate LongestFrom(edges: Edges, v: nat, length: nat) {
    && (exists p :: WalkFrom(edges, v, p) && |p| == length + 1)
    && (forall p :: WalkFrom(edges, v, p) ==> |p| <= length + 1)
  }

  /** `length` is the number of edges on a longest walk into `v`. */
  ghost predicate LongestTo(edges: Edges, v: nat, length: nat) {
    && (exists p :: WalkTo(edges, v, p) && |p| == length + 1)
    && (forall p :: WalkTo(edges, v, p) ==> |p| <= length + 1)
  }

  /** Every edge leads to a strictly smaller measure. */
  ghost predicate Descends(edges: Edges, measure: seq<nat>) {
    forall a, b :: (a, b) in edges ==> a < |measure| && b < |measure| && measure[a] > measure[b]
  }

  lemma {:induction false} WalkDescends(edges: Edges, measure: seq<nat>, p: seq<nat>)
    requires Descends(edges, measure) && IsWalk(edges, p) && p[0] < |measure|
    ensures p[|p| - 1] < |measure|
    ensures measure[p[0]] >= measure[p[|p| - 1]] + |p| - 1
    decreases |p|
  {
    if |p| > 1 {
      assert (p[0], p[1]) in edges;
      assert IsWalk(edges, p[1..]);
      WalkDescends(edges, measure, p[1..]);
    }
  }

  lemma DescendsIsAcyclic(edges: Edges, measure: seq<nat>)
    requires Descends(edges, measure)
    ensures Acyclic(edges)
  {
    forall p | IsWalk(edges, p) && |p| > 1 ensures p[0] != p[|p| - 1] {
      assert (p[0], p[1]) in edges;
      WalkDescends(edges, measure, p);
    }
  }

  lemma WalkPrefix(edges: Edges, p: seq<nat>, k: nat)
    requires IsWalk(edges, p) && 0 < k <= |p|
    ensures IsWalk(edges, p[..k])
  {
  }

  lemma LastStep(edges: Edges, b: nat, p: seq<nat>)
    requires WalkTo(edges, b, p)
    ensures |p| > 1 ==> exists a :: (a, b) in edges
  {
    if |p| > 1 {
      assert (p[|p| - 2], p[|p| - 1]) in edges;
    }
  }

  lemma WalkMonotone(small: Edges, large: Edges, p: seq<nat>)
    requires small <= large && IsWalk(small, p)
    ensures IsWalk(large, p)
  {
  }

  /** Putting back an edge whose end reaches its start closes a cycle. */
  lemma ClosingEdgeIsACycle(edges: Edges, a: nat, b: nat)
    requires Reaches(edges, b, a)
    ensures !Acyclic(edges + {(a, b)})
  {
    var p :| WalkFrom(edges, b, p) && WalkTo(edges, a, p);
    var cycle := p + [b];
    assert IsWalk(edges + {(a, b)}, cycle);
  }

  lemma WalkExtends(edges: Edges, p: seq<nat>, b: nat)
    requires IsWalk(edges, p) && (p[|p| - 1], b) in edges
    ensures WalkTo(edges, b, p + [b])
  {
  }

  /** A measure that drops by exactly one along some edge wherever it is not zero counts a longest walk. */
  lemma {:induction false} MeasureIsLongest(edges: Edges, measure: seq<nat>, v: nat)
    requires Descends(edges, measure) && v < |measure|
    requires forall a :: 0 <= a < |measure| && measure[a] > 0 ==>
        exists b :: (a, b) in edges && measure[b] == measure[a] - 1
    ensures LongestFrom(edges, v, measure[v])
    decreases measure[v]
  {
    if measure[v] == 0 {
      assert WalkFrom(edges, v, [v]);
    } else {
      var b :| (v, b) in edges && measure[b] == measure[v] - 1;
      MeasureIsLongest(edges, measure, b);
      var p :| WalkFrom(edges, b, p) && |p| == measure[b] + 1;
      assert WalkFrom(edges, v, [v] + p);
    }
    forall p | WalkFrom(edges, v, p) ensures |p| <= measure[v] + 1 {
      WalkDescends(edges, measure, p);
    }
  }

  /** Once no edge can raise a rank, no walk into `v` is longer than its rank. */
  lemma {:induction false} RelaxedBoundsWalks(edges: Edges, rank: seq<nat>, p: seq<nat>)
    requires forall a, b :: (a, b) in edges ==> a < |rank| && b < |rank| && rank[a] < rank[b]
    requires IsWalk(edges, p) && p[|p| - 1] < |rank|
    ensures |p| <= rank[p[|p| - 1]] + 1
    decreases |p|
  {
    if |p| > 1 {
      assert (p[|p| - 2], p[|p| - 1]) in edges;
      RelaxedBoundsWalks(edges, rank, p[..|p| - 1]);
    }
  }
}
