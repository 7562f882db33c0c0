/** The layered layout of a directed graph that may contain cycles. */
module Layering {
  import opened Names
  import opened TopologyModel
  import opened Graphs
  import opened SearchOrder

  // ---- depth-first search ------------------------------------------------

  /**
   * What every step of the search keeps. `path` is the recursion, outermost
   * call first; `kept` holds the edges followed so far and `cut` those whose
   * end was on the stack when they were met: the back edges of this search.
   */
  ghost predicate SearchInv(
    out: seq<seq<nat>>, memo: seq<Option<nat>>, stack: seq<bool>, path: seq<nat>, kept: Edges, cut: Edges)
  {
    && WellFormed(out) && |memo| == |stack| == |out|
    // the stack array is the recursion path, and no call on it has finished
    && (forall i :: 0 <= i < |path| ==> path[i] < |out| && stack[path[i]])
    && (forall v :: 0 <= v < |out| && stack[v] ==> v in path)
    && (forall v :: 0 <= v < |out| && stack[v] ==> memo[v].None?)
    && (path != [] ==> IsWalk(kept, path))
    // only edges of the graph are met, and only from vertices already entered
    && (forall a, b :: (a, b) in kept + cut ==> IsEdge(out, a, b) && (stack[a] || memo[a].Some?))
    // a finished vertex has met all its edges, and its depth is one more than its deepest kept successor
    && (forall v :: 0 <= v < |out| && memo[v].Some? ==> Settled(out, memo, kept, cut, v, memo[v].value, |out[v]|))
    // the target of a cut edge reaches its source by edges that were followed
    && (forall a, b :: (a, b) in cut ==> Reaches(kept, b, a))
  }

  /** `best` accounts for exactly the first `k` edges out of `v`. */
  ghost predicate Settled(
    out: seq<seq<nat>>, memo: seq<Option<nat>>, kept: Edges, cut: Edges, v: nat, best: nat, k: nat)
    requires |memo| == |out| && v < |out| && k <= |out[v]|
  {
    && (forall j :: 0 <= j < k ==> (v, out[v][j]) in kept + cut)
    && (forall w :: (v, w) in kept ==> w < |out| && memo[w].Some? && memo[w].value < best)
    && (best > 0 ==> exists w :: (v, w) in kept && w < |out| && memo[w] == Some(best - 1))
  }

  /** What one call leaves as it was: finished depths, and the edges of the vertices still open. */
  ghost predicate Extends(
    memo: seq<Option<nat>>, kept: Edges, cut: Edges,
    memo': seq<Option<nat>>, kept': Edges, cut': Edges, path: seq<nat>)
  {
    && |memo| == |memo'| && kept <= kept' && cut <= cut'
    && (forall v :: 0 <= v < |memo| && memo[v].Some? ==> memo'[v] == memo[v])
    && (forall v, w :: v in path && (v, w) in kept' ==> (v, w) in kept)
  }

  lemma ReachesMonotone(small: Edges, large: Edges, a: nat, b: nat)
    requires small <= large && Reaches(small, a, b)
    ensures Reaches(large, a, b)
  {
    var p :| WalkFrom(small, a, p) && WalkTo(small, b, p);
    assert WalkFrom(large, a, p) && WalkTo(large, b, p);
  }

  /** A call on `v` puts it on the stack. */
  lemma Enter(out: seq<seq<nat>>, memo: seq<Option<nat>>, stack: seq<bool>, path: seq<nat>,
              kept: Edges, cut: Edges, v: nat)
    requires SearchInv(out, memo, stack, path, kept, cut)
    requires v < |out| && !stack[v] && memo[v].None?
    requires path != [] ==> (path[|path| - 1], v) in kept
    ensures SearchInv(out, memo, stack[v := true], path + [v], kept, cut)
    ensures Settled(out, memo, kept, cut, v, 0, 0)
    ensures v !in path
  {
  }

  /** An edge to an open vertex is cut: the recursion itself leads from there back to `v`. */
  lemma Cut(out: seq<seq<nat>>, memo: seq<Option<nat>>, stack: seq<bool>, path: seq<nat>,
            kept: Edges, cut: Edges, v: nat, best: nat, k: nat)
    requires SearchInv(out, memo, stack, path + [v], kept, cut)
    requires v < |out| && k < |out[v]| && stack[out[v][k]]
    requires Settled(out, memo, kept, cut, v, best, k)
    ensures SearchInv(out, memo, stack, path + [v], kept, cut + {(v, out[v][k])})
    ensures Settled(out, memo, kept, cut + {(v, out[v][k])}, v, best, k + 1)
  {
    var w := out[v][k];
    var inner := path + [v];
    assert inner[|path|] == v;
    var i :| 0 <= i < |inner| && inner[i] == w;
    assert WalkFrom(kept, w, inner[i..]) && WalkTo(kept, v, inner[i..]);
  }

  /** An edge to any other vertex is followed. */
  lemma Keep(out: seq<seq<nat>>, memo: seq<Option<nat>>, stack: seq<bool>, path: seq<nat>,
             kept: Edges, cut: Edges, v: nat, w: nat)
    requires SearchInv(out, memo, stack, path + [v], kept, cut)
    requires IsEdge(out, v, w)
    ensures SearchInv(out, memo, stack, path + [v], kept + {(v, w)}, cut)
  {
    assert (path + [v])[|path|] == v;
    var kept' := kept + {(v, w)};
    forall a, b | (a, b) in cut ensures Reaches(kept', b, a) {
      ReachesMonotone(kept, kept', b, a);
    }
    forall u | 0 <= u < |out| && memo[u].Some?
      ensures Settled(out, memo, kept', cut, u, memo[u].value, |out[u]|)
    {
      assert Settled(out, memo, kept, cut, u, memo[u].value, |out[u]|);
      assert u != v;
      forall j | 0 <= j < |out[u]| ensures (u, out[u][j]) in kept' + cut {
        assert (u, out[u][j]) in kept + cut;
      }
    }
  }

  /** A call that has seen all its edges leaves the stack and records its depth. */
  lemma Finish(out: seq<seq<nat>>, memo: seq<Option<nat>>, stack: seq<bool>, path: seq<nat>,
               kept: Edges, cut: Edges, v: nat, best: nat)
    requires SearchInv(out, memo, stack, path + [v], kept, cut)
    requires v < |out| && v !in path && Settled(out, memo, kept, cut, v, best, |out[v]|)
    ensures SearchInv(out, memo[v := Some(best)], stack[v := false], path, kept, cut)
  {
    assert (path + [v])[|path|] == v;
    forall i | 0 <= i < |path| ensures path[i] < |out| && stack[v := false][path[i]] {
      assert (path + [v])[i] == path[i];
    }
    if path != [] {
      assert (path + [v])[..|path|] == path;
      WalkPrefix(kept, path + [v], |path|);
    }
    var memo' := memo[v := Some(best)];
    forall u | 0 <= u < |out| && memo'[u].Some? ensures Settled(out, memo', kept, cut, u, memo'[u].value, |out[u]|) {
      RecordKeepsSettled(out, memo, kept, cut, v, best, u, memo'[u].value);
    }
  }

  lemma RecordKeepsSettled(out: seq<seq<nat>>, memo: seq<Option<nat>>, kept: Edges, cut: Edges, v: nat, best: nat,
    u: nat, d: nat)
    requires |memo| == |out| && v < |out| && u < |out| && memo[v].None?
    requires Settled(out, memo, kept, cut, u, d, |out[u]|)
    ensures Settled(out, memo[v := Some(best)], kept, cut, u, d, |out[u]|)
  {
  }

  /** The depth of a followed successor is worked into its caller's. */
  lemma Absorb(out: seq<seq<nat>>, memo0: seq<Option<nat>>, kept0: Edges, cut0: Edges,
               memo: seq<Option<nat>>, kept: Edges, cut: Edges,
               memo': seq<Option<nat>>, kept': Edges, cut': Edges,
               path: seq<nat>, v: nat, best: nat, k: nat, dw: nat)
    requires |memo| == |out| && v < |out| && k < |out[v]| && out[v][k] < |out|
    requires v !in path && Extends(memo0, kept0, cut0, memo, kept, cut, path)
    requires Settled(out, memo, kept, cut, v, best, k)
    requires Extends(memo, kept + {(v, out[v][k])}, cut, memo', kept', cut', path + [v])
    requires memo'[out[v][k]] == Some(dw)
    ensures Extends(memo0, kept0, cut0, memo', kept', cut', path)
    ensures Settled(out, memo', kept', cut', v, Names.Max(best, dw + 1), k + 1)
  {
    assert (path + [v])[|path|] == v;
    forall j | 0 <= j < k + 1 ensures (v, out[v][j]) in kept' + cut' {
      if j < k {
        assert (v, out[v][j]) in kept + cut;
      }
    }
    if 0 < best && best >= dw + 1 {
      var w :| (v, w) in kept && w < |out| && memo[w] == Some(best - 1);
      assert (v, w) in kept' && memo'[w] == Some(best - 1);
    } else {
      assert (v, out[v][k]) in kept' && memo'[out[v][k]] == Some(dw);
    }
  }

  lemma CutExtends(memo0: seq<Option<nat>>, kept0: Edges, cut0: Edges, memo: seq<Option<nat>>, kept: Edges,
    cut: Edges, path: seq<nat>,
                   e: (nat, nat))
    requires Extends(memo0, kept0, cut0, memo, kept, cut, path)
    ensures Extends(memo0, kept0, cut0, memo, kept, cut + {e}, path)
  {
  }

  lemma RecordExtends(memo0: seq<Option<nat>>, kept0: Edges, cut0: Edges, memo: seq<Option<nat>>, kept: Edges,
    cut: Edges, path: seq<nat>,
                      v: nat, best: nat)
    requires Extends(memo0, kept0, cut0, memo, kept, cut, path) && v < |memo0| && memo0[v].None?
    ensures Extends(memo0, kept0, cut0, memo[v := Some(best)], kept, cut, path)
  {
  }

  ghost function Closed(stack: seq<bool>): set<nat> {
    set u: nat | u < |stack| && !stack[u]
  }

  lemma ClosedShrinks(stack: seq<bool>, v: nat)
    requires v < |stack| && !stack[v]
    ensures Closed(stack[v := true]) < Closed(stack)
  {
    assert v in Closed(stack);
    assert v !in Closed(stack[v := true]);
  }

  // ---- the order of the search ---------------------------------------------

  /** The calls before one on `v` entered their vertices before it, and none of them after. */
  ghost predicate CalledInOrder(path: seq<nat>, order: seq<nat>, v: nat) {
    forall i, j :: 0 <= i <= j < |path| && path[j] == v ==>
      path[j] !in Before(order, path[i]) && (i < j ==> path[i] in Before(order, path[j]))
  }

  /** Whatever a finished vertex reaches past those entered before it is finished, too. */
  ghost predicate Exhausted(out: seq<seq<nat>>, memo: seq<Option<nat>>, order: seq<nat>, u: nat) {
    forall p :: WalkFrom(AllEdges(out), u, p) && Avoids(p, Before(order, u)) ==>
      p[|p| - 1] < |memo| && memo[p[|p| - 1]].Some?
  }

  /** What every step keeps of the order in which vertices are entered. */
  ghost predicate OrderInv(out: seq<seq<nat>>, memo: seq<Option<nat>>, stack: seq<bool>, path: seq<nat>,
    order: seq<nat>, kept: Edges, cut: Edges)
  {
    |memo| == |stack| == |out| && forall v: nat :: OrderAt(out, memo, stack, path, order, kept, cut, v)
  }

  ghost predicate OrderAt(out: seq<seq<nat>>, memo: seq<Option<nat>>, stack: seq<bool>, path: seq<nat>,
    order: seq<nat>, kept: Edges, cut: Edges, v: nat)
    requires |memo| == |stack| == |out|
  {
    && (v in order <==> v < |out| && (stack[v] || memo[v].Some?))
    && (v < |out| && memo[v].Some? ==> Exhausted(out, memo, order, v))
    && CalledInOrder(path, order, v)
    // an edge is followed when its end does not lead back past what was entered before it, and cut when it does
    && (forall a :: (a, v) in kept ==> a in order && !ReachedFresh(out, order, v, a))
    && (forall a :: (a, v) in cut ==> v in order && ReachedFresh(out, order, v, a))
  }

  lemma NotThroughSelf(out: seq<seq<nat>>, order: seq<nat>, b: nat, a: nat)
    requires a in Before(order, b)
    ensures !ReachedFresh(out, order, b, a)
  {
  }

  lemma EntersInOrder(path: seq<nat>, order: seq<nat>, v: nat, u: nat)
    requires v !in order && forall i :: 0 <= i < |path| ==> path[i] in order
    requires CalledInOrder(path, order, u)
    ensures CalledInOrder(path + [v], order + [v], u)
  {
    BeforeNew(order, v);
    forall i | 0 <= i < |path|
      ensures Before(order + [v], path[i]) == Before(order, path[i]) && v !in Before(order, path[i]) {
      BeforeStays(order, v, path[i]);
      BeforeIsEarlier(order, path[i]);
    }
  }

  lemma EnterOrder(out: seq<seq<nat>>, memo: seq<Option<nat>>, stack: seq<bool>, path: seq<nat>, order: seq<nat>,
    kept: Edges, cut: Edges, v: nat)
    requires OrderInv(out, memo, stack, path, order, kept, cut)
    requires v < |out| && !stack[v] && memo[v].None?
    requires forall i :: 0 <= i < |path| ==> path[i] < |out| && stack[path[i]]
    ensures v !in order && OrderInv(out, memo, stack[v := true], path + [v], order + [v], kept, cut)
  {
    var stack', path', order' := stack[v := true], path + [v], order + [v];
    assert OrderAt(out, memo, stack, path, order, kept, cut, v);
    forall i | 0 <= i < |path| ensures path[i] in order {
      assert OrderAt(out, memo, stack, path, order, kept, cut, path[i]);
    }
    forall u: nat ensures OrderAt(out, memo, stack', path', order', kept, cut, u) {
      assert OrderAt(out, memo, stack, path, order, kept, cut, u);
      EntersInOrder(path, order, v, u);
      if u in order {
        BeforeStays(order, v, u);
      } else {
        forall a | (a, u) in kept ensures !ReachedFresh(out, order + [v], u, a) {
          NewIsBefore(order, v, u, a);
          NotThroughSelf(out, order + [v], u, a);
        }
      }
    }
  }

  lemma NewIsBefore(order: seq<nat>, v: nat, b: nat, a: nat)
    requires a in order && b !in order && v !in order
    ensures a in Before(order + [v], b)
  {
    if b == v {
      BeforeNew(order, v);
    } else {
      BeforeNew(order + [v], b);
      assert a in order + [v];
    }
  }

  lemma KeepOrder(out: seq<seq<nat>>, memo: seq<Option<nat>>, stack: seq<bool>, path: seq<nat>, order: seq<nat>,
    kept: Edges, cut: Edges, v: nat, w: nat)
    requires OrderInv(out, memo, stack, path, order, kept, cut)
    requires v < |out| && w < |out| && stack[v] && memo[v].None? && !stack[w]
    ensures OrderInv(out, memo, stack, path, order, kept + {(v, w)}, cut)
  {
    assert OrderAt(out, memo, stack, path, order, kept, cut, v);
    forall u: nat ensures OrderAt(out, memo, stack, path, order, kept + {(v, w)}, cut, u) {
      assert OrderAt(out, memo, stack, path, order, kept, cut, u);
      if u == w && w !in order {
        BeforeNew(order, w);
        NotThroughSelf(out, order, w, v);
      }
    }
  }

  lemma CutOrder(out: seq<seq<nat>>, memo: seq<Option<nat>>, stack: seq<bool>, path: seq<nat>, order: seq<nat>,
    kept: Edges, cut: Edges, v: nat, w: nat)
    requires OrderInv(out, memo, stack, path + [v], order, kept, cut) && IsWalk(kept, path + [v])
    requires kept <= AllEdges(out) && v < |out| && w in path + [v] && w < |out| && stack[w]
    ensures OrderInv(out, memo, stack, path + [v], order, kept, cut + {(v, w)})
  {
    LeadsBack(out, memo, stack, path, order, kept, cut, v, w);
    forall u: nat ensures OrderAt(out, memo, stack, path + [v], order, kept, cut + {(v, w)}, u) {
      assert OrderAt(out, memo, stack, path + [v], order, kept, cut, u);
    }
  }

  /** From a vertex on the stack the recursion leads on to `v`, through none entered before it. */
  lemma LeadsBack(out: seq<seq<nat>>, memo: seq<Option<nat>>, stack: seq<bool>, path: seq<nat>, order: seq<nat>,
    kept: Edges, cut: Edges, v: nat, w: nat)
    requires OrderInv(out, memo, stack, path + [v], order, kept, cut) && IsWalk(kept, path + [v])
    requires kept <= AllEdges(out) && v < |out| && w in path + [v]
    ensures ReachedFresh(out, order, w, v)
  {
    var inner := path + [v];
    var i :| 0 <= i < |inner| && inner[i] == w;
    var p := inner[i..];
    WalkMonotone(kept, AllEdges(out), inner);
    assert inner[|path|] == v && p[0] == w && p[|p| - 1] == v;
    forall j | 0 <= j < |p| ensures p[j] !in Before(order, w) {
      assert OrderAt(out, memo, stack, path + [v], order, kept, cut, inner[i + j]);
    }
    assert WalkFrom(AllEdges(out), w, p) && WalkTo(AllEdges(out), v, p) && Avoids(p, Before(order, w));
  }

  /** A finished vertex leads only to entered ones. */
  ghost predicate LeadsOn(out: seq<seq<nat>>, order: seq<nat>, u: nat) {
    forall w :: (u, w) in AllEdges(out) ==> w in order
  }

  lemma {:induction false} WalkIsFinished(out: seq<seq<nat>>, memo: seq<Option<nat>>, stack: seq<bool>,
    order: seq<nat>, v: nat, p: seq<nat>)
    requires |memo| == |stack| == |out| && v < |out| && memo[v].Some?
    requires forall u :: u in order ==> u < |out| && (stack[u] || memo[u].Some?)
    requires forall u :: 0 <= u < |out| && memo[u].Some? ==> LeadsOn(out, order, u)
    requires forall u :: 0 <= u < |out| && stack[u] ==> u in Before(order, v)
    requires WalkFrom(AllEdges(out), v, p) && Avoids(p, Before(order, v))
    ensures p[|p| - 1] < |out| && memo[p[|p| - 1]].Some?
    decreases |p|
  {
    if |p| > 1 {
      var n := |p| - 1;
      WalkPrefix(AllEdges(out), p, n);
      WalkIsFinished(out, memo, stack, order, v, p[..n]);
      assert (p[n - 1], p[n]) in AllEdges(out);
      assert LeadsOn(out, order, p[n - 1]);
      assert p[n] !in Before(order, v);
    }
  }

  lemma OuterInOrder(path: seq<nat>, order: seq<nat>, v: nat, u: nat)
    requires CalledInOrder(path + [v], order, u)
    ensures CalledInOrder(path, order, u)
    ensures u == v ==> forall w :: w in path ==> w in Before(order, v)
  {
    var inner := path + [v];
    assert inner[|path|] == v && forall i :: 0 <= i < |path| ==> inner[i] == path[i];
  }

  lemma SettledLeadsOn(out: seq<seq<nat>>, memo: seq<Option<nat>>, order: seq<nat>, kept: Edges, cut: Edges, v: nat,
    best: nat)
    requires |memo| == |out| && v < |out| && Settled(out, memo, kept, cut, v, best, |out[v]|)
    requires forall u :: 0 <= u < |out| && memo[u].Some? ==> u in order
    requires forall a, b :: (a, b) in cut ==> b in order
    ensures LeadsOn(out, order, v)
  {
    forall w | (v, w) in AllEdges(out) ensures w in order {
      var j :| 0 <= j < |out[v]| && out[v][j] == w;
      assert (v, out[v][j]) in kept + cut;
    }
  }

  /** When every edge of `v` has been met, every finished vertex, `v` now with them, leads only to entered ones. */
  lemma FinishedLeadOn(out: seq<seq<nat>>, memo: seq<Option<nat>>, stack: seq<bool>, path: seq<nat>, order: seq<nat>,
    kept: Edges, cut: Edges, v: nat, best: nat, u: nat)
    requires SearchInv(out, memo, stack, path, kept, cut) && OrderInv(out, memo, stack, path, order, kept, cut)
    requires v < |out| && Settled(out, memo, kept, cut, v, best, |out[v]|)
    requires u < |out| && (memo[u].Some? || u == v)
    ensures LeadsOn(out, order, u)
  {
    forall w | 0 <= w < |out| && memo[w].Some? ensures w in order {
      assert OrderAt(out, memo, stack, path, order, kept, cut, w);
    }
    forall a, b | (a, b) in cut ensures b in order {
      assert OrderAt(out, memo, stack, path, order, kept, cut, b);
    }
    SettledLeadsOn(out, memo, order, kept, cut, u, if u == v then best else memo[u].value);
  }

  /** A vertex that has met all its edges has met whatever it reaches past those entered before it. */
  lemma NowExhausted(out: seq<seq<nat>>, memo: seq<Option<nat>>, stack: seq<bool>, path: seq<nat>, order: seq<nat>,
    kept: Edges, cut: Edges, v: nat, best: nat)
    requires SearchInv(out, memo, stack, path + [v], kept, cut)
    requires OrderInv(out, memo, stack, path + [v], order, kept, cut)
    requires v < |out| && v !in path && Settled(out, memo, kept, cut, v, best, |out[v]|)
    ensures Exhausted(out, memo[v := Some(best)], order, v)
  {
    var memo', stack' := memo[v := Some(best)], stack[v := false];
    assert OrderAt(out, memo, stack, path + [v], order, kept, cut, v);
    OuterInOrder(path, order, v, v);
    forall u | 0 <= u < |out| && memo'[u].Some? ensures LeadsOn(out, order, u) {
      FinishedLeadOn(out, memo, stack, path + [v], order, kept, cut, v, best, u);
    }
    forall u | 0 <= u < |out| && stack'[u] ensures u in Before(order, v) {
      assert u in path + [v];
    }
    forall u | u in order ensures u < |out| && (stack'[u] || memo'[u].Some?) {
      assert OrderAt(out, memo, stack, path + [v], order, kept, cut, u);
    }
    forall p | WalkFrom(AllEdges(out), v, p) && Avoids(p, Before(order, v))
      ensures p[|p| - 1] < |memo'| && memo'[p[|p| - 1]].Some? {
      WalkIsFinished(out, memo', stack', order, v, p);
    }
  }

  lemma FinishOrder(out: seq<seq<nat>>, memo: seq<Option<nat>>, stack: seq<bool>, path: seq<nat>, order: seq<nat>,
    kept: Edges, cut: Edges, v: nat, best: nat)
    requires SearchInv(out, memo, stack, path + [v], kept, cut)
    requires OrderInv(out, memo, stack, path + [v], order, kept, cut)
    requires v < |out| && v !in path && Settled(out, memo, kept, cut, v, best, |out[v]|)
    ensures OrderInv(out, memo[v := Some(best)], stack[v := false], path, order, kept, cut)
  {
    NowExhausted(out, memo, stack, path, order, kept, cut, v, best);
    var memo', stack' := memo[v := Some(best)], stack[v := false];
    assert (path + [v])[|path|] == v;
    forall u: nat ensures OrderAt(out, memo', stack', path, order, kept, cut, u) {
      assert OrderAt(out, memo, stack, path + [v], order, kept, cut, u);
      OuterInOrder(path, order, v, u);
    }
  }

  lemma VisitNext(out: seq<seq<nat>>, ws: seq<nat>, seen: seq<nat>, k: nat)
    requires WellFormed(out) && k < |ws| && forall i :: 0 <= i < |ws| ==> ws[i] < |out|
    ensures VisitAll(out, ws[..k + 1], seen) == Visit(out, ws[k], VisitAll(out, ws[..k], seen))
  {
    assert ws[..k + 1][..k] == ws[..k];
  }

  /** What a search leaves behind for the proof: the vertices entered, the edges followed and those cut. */
  datatype Trace = Trace(order: seq<nat>, kept: Edges, cut: Edges)

  /** What every step of the search keeps. */
  ghost predicate Sound(out: seq<seq<nat>>, memo: seq<Option<nat>>, stack: seq<bool>, path: seq<nat>, s: Trace) {
    match s
    case Trace(order, kept, cut) =>
      SearchInv(out, memo, stack, path, kept, cut) && OrderInv(out, memo, stack, path, order, kept, cut)
  }

  /** Where a call on `v` stands when it has met `k` of its edges; `memo0` and `s0` are what it found. */
  ghost predicate Visiting(out: seq<seq<nat>>, memo0: seq<Option<nat>>, s0: Trace, memo: seq<Option<nat>>,
    stack: seq<bool>, s: Trace, path: seq<nat>, v: nat, best: nat, k: nat)
  {
    match s
    case Trace(order, kept, cut) =>
      && WellFormed(out) && v < |out| == |memo0| && memo0[v].None? && v !in path && v !in s0.order && k <= |out[v]|
      && SearchInv(out, memo, stack, path + [v], kept, cut)
      && OrderInv(out, memo, stack, path + [v], order, kept, cut)
      && Extends(memo0, s0.kept, s0.cut, memo, kept, cut, path)
      && Settled(out, memo, kept, cut, v, best, k)
      && order == VisitAll(out, out[v][..k], s0.order + [v])
  }

  lemma Known(out: seq<seq<nat>>, memo: seq<Option<nat>>, stack: seq<bool>, path: seq<nat>, s: Trace, v: nat)
    requires v < |out| == |memo| && Sound(out, memo, stack, path, s) && memo[v].Some?
    ensures Visit(out, v, s.order) == s.order
  {
    assert OrderAt(out, memo, stack, path, s.order, s.kept, s.cut, v);
  }

  lemma Begins(out: seq<seq<nat>>, memo: seq<Option<nat>>, stack: seq<bool>, path: seq<nat>, s: Trace, v: nat)
    requires Sound(out, memo, stack, path, s)
    requires v < |out| == |memo| == |stack| && !stack[v] && memo[v].None?
    requires path != [] ==> (path[|path| - 1], v) in s.kept
    ensures Visiting(out, memo, s, memo, stack[v := true], s.(order := s.order + [v]), path, v, 0, 0)
  {
    Enter(out, memo, stack, path, s.kept, s.cut, v);
    EnterOrder(out, memo, stack, path, s.order, s.kept, s.cut, v);
  }

  /** Before a successor is searched the edge to it is followed. */
  lemma Follows(out: seq<seq<nat>>, memo0: seq<Option<nat>>, s0: Trace, memo: seq<Option<nat>>, stack: seq<bool>,
    s: Trace, path: seq<nat>, v: nat, best: nat, k: nat, w: nat)
    requires Visiting(out, memo0, s0, memo, stack, s, path, v, best, k)
    requires v < |out| && k < |out[v]| && out[v][k] == w < |stack| && !stack[w]
    ensures Sound(out, memo, stack, path + [v], s.(kept := s.kept + {(v, w)}))
    ensures (path + [v])[|path|] == v
  {
    assert (path + [v])[|path|] == v;
    Keep(out, memo, stack, path, s.kept, s.cut, v, w);
    KeepOrder(out, memo, stack, path + [v], s.order, s.kept, s.cut, v, w);
  }

  /** Afterwards its depth is worked in. */
  lemma Followed(out: seq<seq<nat>>, memo0: seq<Option<nat>>, s0: Trace, memo: seq<Option<nat>>, stack: seq<bool>,
    s: Trace, path: seq<nat>, v: nat, best: nat, k: nat, w: nat, memo': seq<Option<nat>>, s': Trace, d: nat)
    requires Visiting(out, memo0, s0, memo, stack, s, path, v, best, k)
    requires WellFormed(out) && v < |out| == |memo'| && k < |out[v]| && out[v][k] == w < |out|
    requires Sound(out, memo', stack, path + [v], s') && memo'[w] == Some(d) && s'.order == Visit(out, w, s.order)
    requires Extends(memo, s.kept + {(v, w)}, s.cut, memo', s'.kept, s'.cut, path + [v])
    ensures Visiting(out, memo0, s0, memo', stack, s', path, v, Names.Max(best, d + 1), k + 1)
  {
    Absorb(out, memo0, s0.kept, s0.cut, memo, s.kept, s.cut, memo', s'.kept, s'.cut, path, v, best, k, d);
    VisitNext(out, out[v], s0.order + [v], k);
  }

  /** A successor on the stack is not searched; the edge to it is cut. */
  lemma Cuts(out: seq<seq<nat>>, memo0: seq<Option<nat>>, s0: Trace, memo: seq<Option<nat>>, stack: seq<bool>,
    s: Trace, path: seq<nat>, v: nat, best: nat, k: nat, w: nat, cut': Edges)
    requires Visiting(out, memo0, s0, memo, stack, s, path, v, best, k)
    requires v < |out| && k < |out[v]| && out[v][k] == w < |stack| && stack[w] && cut' == s.cut + {(v, w)}
    ensures Visiting(out, memo0, s0, memo, stack, s.(cut := cut'), path, v, best, k + 1)
  {
    Cut(out, memo, stack, path, s.kept, s.cut, v, best, k);
    CutExtends(memo0, s0.kept, s0.cut, memo, s.kept, s.cut, path, (v, w));
    CutsInOrder(out, memo0, s0, memo, stack, s, path, v, best, k, w, cut');
    VisitNext(out, out[v], s0.order + [v], k);
  }

  lemma CutsInOrder(out: seq<seq<nat>>, memo0: seq<Option<nat>>, s0: Trace, memo: seq<Option<nat>>, stack: seq<bool>,
    s: Trace, path: seq<nat>, v: nat, best: nat, k: nat, w: nat, cut': Edges)
    requires Visiting(out, memo0, s0, memo, stack, s, path, v, best, k)
    requires v < |out| && k < |out[v]| && out[v][k] == w < |stack| && stack[w] && cut' == s.cut + {(v, w)}
    ensures w in s.order && OrderInv(out, memo, stack, path + [v], s.order, s.kept, cut')
  {
    assert OrderAt(out, memo, stack, path + [v], s.order, s.kept, s.cut, w);
    FollowedAreEdges(out, s);
    CutOrder(out, memo, stack, path, s.order, s.kept, s.cut, v, w);
  }

  lemma FollowedAreEdges(out: seq<seq<nat>>, s: Trace)
    requires forall a, b :: (a, b) in s.kept + s.cut ==> IsEdge(out, a, b)
    ensures s.kept <= AllEdges(out)
  {
    forall e | e in s.kept ensures e in AllEdges(out) {
      assert (e.0, e.1) in s.kept + s.cut;
    }
  }

  /** With every edge met the call leaves the stack and records its depth. */
  lemma Ends(out: seq<seq<nat>>, memo0: seq<Option<nat>>, s0: Trace, memo: seq<Option<nat>>, stack: seq<bool>,
    s: Trace, path: seq<nat>, v: nat, best: nat)
    requires v < |out| && Visiting(out, memo0, s0, memo, stack, s, path, v, best, |out[v]|)
    ensures |memo| == |stack| == |out| && WellFormed(out)
    ensures Sound(out, memo[v := Some(best)], stack[v := false], path, s)
    ensures s.order == Visit(out, v, s0.order)
    ensures Extends(memo0, s0.kept, s0.cut, memo[v := Some(best)], s.kept, s.cut, path)
  {
    Finish(out, memo, stack, path, s.kept, s.cut, v, best);
    FinishOrder(out, memo, stack, path, s.order, s.kept, s.cut, v, best);
    RecordExtends(memo0, s0.kept, s0.cut, memo, s.kept, s.cut, path, v, best);
    assert out[v][..|out[v]|] == out[v];
  }

  /**
   * The depth of `v`: one more than that of its deepest successor not on the stack. `path` is the recursion and
   * `s` what the search has left behind so far, both for the proof.
   */
  method Depth(v: nat, out: seq<seq<nat>>, memo: array<Option<nat>>, stack: array<bool>, ghost path: seq<nat>,
    ghost s: Trace)
    returns (d: nat, ghost s': Trace)
    requires memo.Length == stack.Length == |out| && v < |out| && !stack[v] && WellFormed(out)
    requires Sound(out, memo[..], stack[..], path, s)
    requires path != [] ==> (path[|path| - 1], v) in s.kept
    modifies memo, stack
    ensures Sound(out, memo[..], stack[..], path, s')
    ensures s'.order == Visit(out, v, s.order)
    ensures stack[..] == old(stack[..])
    ensures memo[v] == Some(d)
    ensures Extends(old(memo[..]), s.kept, s.cut, memo[..], s'.kept, s'.cut, path)
    decreases Closed(stack[..])
  {
    s' := s;
    if memo[v].Some? {
      Known(out, memo[..], stack[..], path, s, v);
      return memo[v].value, s';
    }
    ghost var memo0, stack0, entered := memo[..], stack[..], stack[..][v := true];
    Begins(out, memo0, stack0, path, s, v);
    ClosedShrinks(stack0, v);
    stack[v] := true;
    var best: nat := 0;
    ghost var now := memo0;
    s' := s.(order := s.order + [v]);
    for k := 0 to |out[v]|
      invariant stack[..] == entered && memo[..] == now
      invariant Visiting(out, memo0, s, now, entered, s', path, v, best, k)
    {
      var w := out[v][k];
      if !stack[w] {
        ghost var s1 := s';
        Follows(out, memo0, s, now, entered, s1, path, v, best, k, w);
        var dw;
        dw, s' := Depth(w, out, memo, stack, path + [v], s1.(kept := s1.kept + {(v, w)}));
        Followed(out, memo0, s, now, entered, s1, path, v, best, k, w, memo[..], s', dw);
        best, now := Names.Max(best, dw + 1), memo[..];
      } else {
        Cuts(out, memo0, s, now, entered, s', path, v, best, k, w, s'.cut + {(v, w)});
        s' := s'.(cut := s'.cut + {(v, w)});
      }
    }
    Ends(out, memo0, s, now, entered, s', path, v, best);
    stack[v] := false;
    memo[v] := Some(best);
    assert stack[..] == entered[v := false] == stack0 && memo[..] == now[v := Some(best)];
    return best, s';
  }

  // ---- what a finished search has found ----------------------------------

  /** The edges the ranking honours: those that lead strictly closer to a sink. */
  ghost function Honoured(all: Edges, toSink: seq<nat>): Edges {
    set e | e in all && e.0 < |toSink| && e.1 < |toSink| && toSink[e.0] > toSink[e.1]
  }

  /** The search is over: every depth is recorded and the recursion is empty. */
  ghost predicate Searched(out: seq<seq<nat>>, toSink: seq<nat>, kept: Edges, cut: Edges) {
    && |toSink| == |out|
    && exists memo: seq<Option<nat>>, stack :: (
         && SearchInv(out, memo, stack, [], kept, cut)
         && forall v :: 0 <= v < |out| ==> memo[v] == Some(toSink[v]))
  }

  /** The search has met every edge out of `a`, and its depth is one more than its deepest kept successor's. */
  ghost predicate VertexSearched(out: seq<seq<nat>>, toSink: seq<nat>, kept: Edges, cut: Edges, a: nat)
    requires a < |out| == |toSink|
  {
    && (forall j :: 0 <= j < |out[a]| ==> (a, out[a][j]) in kept + cut)
    && (forall b :: (a, b) in kept ==> b < |toSink| && toSink[b] < toSink[a])
    && (toSink[a] > 0 ==> exists b :: (a, b) in kept && b < |toSink| && toSink[b] == toSink[a] - 1)
  }

  lemma SettledMeans(out: seq<seq<nat>>, memo: seq<Option<nat>>, toSink: seq<nat>, kept: Edges, cut: Edges, a: nat)
    requires |memo| == |toSink| == |out| && a < |out| && forall v :: 0 <= v < |out| ==> memo[v] == Some(toSink[v])
    requires Settled(out, memo, kept, cut, a, toSink[a], |out[a]|)
    ensures VertexSearched(out, toSink, kept, cut, a)
  {
  }

  lemma SearchedEach(out: seq<seq<nat>>, toSink: seq<nat>, kept: Edges, cut: Edges)
    requires Searched(out, toSink, kept, cut)
    ensures forall a :: 0 <= a < |out| ==> VertexSearched(out, toSink, kept, cut, a)
    ensures forall e :: e in kept + cut ==> IsEdge(out, e.0, e.1)
  {
    var memo: seq<Option<nat>>, stack :| SearchInv(out, memo, stack, [], kept, cut)
       && forall v :: 0 <= v < |out| ==> memo[v] == Some(toSink[v]);
    forall a | 0 <= a < |out| ensures VertexSearched(out, toSink, kept, cut, a) {
      SettledMeans(out, memo, toSink, kept, cut, a);
    }
    forall e | e in kept + cut ensures IsEdge(out, e.0, e.1) {
      assert (e.0, e.1) in kept + cut;
    }
  }

  lemma KeptDescends(out: seq<seq<nat>>, toSink: seq<nat>, kept: Edges, cut: Edges)
    requires Searched(out, toSink, kept, cut)
    ensures Descends(kept, toSink)
    ensures forall a :: 0 <= a < |out| && toSink[a] > 0 ==> exists b :: (a, b) in kept && toSink[b] == toSink[a] - 1
    ensures kept + cut == AllEdges(out)
  {
    SearchedEach(out, toSink, kept, cut);
    forall a, b | (a, b) in kept ensures a < |toSink| && b < |toSink| && toSink[a] > toSink[b] {
      assert (a, b) in kept + cut && VertexSearched(out, toSink, kept, cut, a);
    }
    forall a | 0 <= a < |out| && toSink[a] > 0 ensures exists b :: (a, b) in kept && toSink[b] == toSink[a] - 1 {
      assert VertexSearched(out, toSink, kept, cut, a);
    }
    forall a, b | (a, b) in AllEdges(out) ensures (a, b) in kept + cut {
      assert VertexSearched(out, toSink, kept, cut, a);
      var j :| 0 <= j < |out[a]| && out[a][j] == b;
      assert (a, out[a][j]) in kept + cut;
    }
  }

  /**
   * The filter `toSink[a] > toSink[b]` is exactly "not a back edge of the
   * search", and what it lets through is a maximal acyclic part of the graph.
   */
  lemma HonouredIsNotCut(out: seq<seq<nat>>, toSink: seq<nat>, kept: Edges, cut: Edges)
    requires Searched(out, toSink, kept, cut)
    ensures kept == Honoured(AllEdges(out), toSink)
    ensures cut == AllEdges(out) - kept
    ensures forall a, b :: (a, b) in cut ==> Reaches(kept, b, a)
    ensures MaximalAcyclic(AllEdges(out), kept)
  {
    KeptDescends(out, toSink, kept, cut);
    CutsReach(out, toSink, kept, cut);
    CutsClose(toSink, kept, cut);
    CutsSettle(AllEdges(out), toSink, kept, cut);
  }

  lemma CutsReach(out: seq<seq<nat>>, toSink: seq<nat>, kept: Edges, cut: Edges)
    requires Searched(out, toSink, kept, cut)
    ensures forall a, b :: (a, b) in cut ==> a < |toSink| && b < |toSink| && Reaches(kept, b, a)
  {
    forall a, b | (a, b) in cut ensures a < |toSink| && b < |toSink| && Reaches(kept, b, a) {
      assert (a, b) in kept + cut;
    }
  }

  lemma CutsClose(toSink: seq<nat>, kept: Edges, cut: Edges)
    requires Descends(kept, toSink)
    requires forall a, b :: (a, b) in cut ==> a < |toSink| && b < |toSink| && Reaches(kept, b, a)
    ensures forall a, b :: (a, b) in cut ==> toSink[a] <= toSink[b] && !Acyclic(kept + {(a, b)})
  {
    forall a, b | (a, b) in cut ensures toSink[a] <= toSink[b] && !Acyclic(kept + {(a, b)}) {
      CutClosesCycle(toSink, kept, a, b);
    }
  }

  lemma CutsSettle(all: Edges, toSink: seq<nat>, kept: Edges, cut: Edges)
    requires kept + cut == all && Descends(kept, toSink)
    requires forall a, b :: (a, b) in cut ==>
               a < |toSink| && b < |toSink| && toSink[a] <= toSink[b] && !Acyclic(kept + {(a, b)})
    ensures kept == Honoured(all, toSink) && cut == all - kept && MaximalAcyclic(all, kept)
  {
    NotCutIsKept(all, toSink, kept, cut);
    DescendsIsAcyclic(kept, toSink);
    CutsAreNeeded(all, kept, cut);
  }

  lemma CutsAreNeeded(all: Edges, kept: Edges, cut: Edges)
    requires kept + cut == all && Acyclic(kept) && forall a, b :: (a, b) in cut ==> !Acyclic(kept + {(a, b)})
    ensures MaximalAcyclic(all, kept)
  {
    forall e | e in all - kept ensures !Acyclic(kept + {e}) {
      assert (e.0, e.1) in cut;
    }
  }

  lemma CutClosesCycle(toSink: seq<nat>, kept: Edges, a: nat, b: nat)
    requires a < |toSink| && b < |toSink| && Reaches(kept, b, a) && Descends(kept, toSink)
    ensures toSink[a] <= toSink[b] && !Acyclic(kept + {(a, b)})
  {
    var p :| WalkFrom(kept, b, p) && WalkTo(kept, a, p);
    WalkDescends(kept, toSink, p);
    ClosingEdgeIsACycle(kept, a, b);
  }

  lemma NotCutIsKept(all: Edges, toSink: seq<nat>, kept: Edges, cut: Edges)
    requires kept + cut == all && Descends(kept, toSink)
    requires forall a, b :: (a, b) in cut ==> a < |toSink| && b < |toSink| && toSink[a] <= toSink[b]
    ensures kept == Honoured(all, toSink) && cut == all - kept
  {
    forall e | e in all ensures e in kept <==> e !in cut && e in Honoured(all, toSink) {
      assert e == (e.0, e.1);
    }
    assert forall e :: e in Honoured(all, toSink) ==> e in kept;
  }

  /** The depth of a vertex is its longest honoured walk to a dead end. */
  lemma DepthIsLongest(out: seq<seq<nat>>, toSink: seq<nat>, kept: Edges, cut: Edges, v: nat)
    requires Searched(out, toSink, kept, cut) && v < |out|
    ensures LongestFrom(kept, v, toSink[v])
  {
    KeptDescends(out, toSink, kept, cut);
    MeasureIsLongest(kept, toSink, v);
  }

  /** Nothing is ignored exactly when there are no cycles. */
  lemma AcyclicKeepsAll(all: Edges, kept: Edges)
    requires MaximalAcyclic(all, kept)
    ensures Acyclic(all) <==> kept == all
  {
    forall e | e in all ensures e in kept || !Acyclic(all) {
      if e !in kept {
        assert e in all - kept;
        var p :| IsWalk(kept + {e}, p) && |p| > 1 && p[0] == p[|p| - 1];
        WalkMonotone(kept + {e}, all, p);
      }
    }
  }

  // ---- ranks and layers --------------------------------------------------

  /** Where each vertex stands in spec order, as `ranks` looks it up. */
  function Positions(vertices: seq<Vertex>): (idx: map<VertexName, nat>)
    ensures forall n :: n in idx ==> idx[n] < |vertices|
    ensures DistinctNames(vertices) ==> forall i :: 0 <= i < |vertices| ==>
        vertices[i].name in idx && idx[vertices[i].name] == i
  {
    if vertices == [] then map[]
    else
      var n := |vertices| - 1;
      Positions(vertices[..n])[vertices[n].name := n]
  }

  ghost predicate Resolves(idx: map<VertexName, nat>, edges: seq<Edge>) {
    forall e :: e in edges ==> e.from in idx && e.to in idx
  }

  ghost function Links(idx: map<VertexName, nat>, edges: seq<Edge>): Edges
    requires Resolves(idx, edges)
  {
    set e | e in edges :: (idx[e.from], idx[e.to])
  }

  lemma ValidResolves(t: Topology)
    requires Valid(t)
    ensures Resolves(Positions(t.vertices), t.edges)
  {
  }

  /** The edges of a topology by spec position. */
  ghost function EdgesOf(t: Topology): Edges
    requires Valid(t)
  {
    ValidResolves(t);
    Links(Positions(t.vertices), t.edges)
  }

  function Highest(s: seq<nat>): (m: nat)
    ensures forall x :: x in s ==> x <= m
    ensures m in s || (s == [] && m == 0)
  {
    if s == [] then 0
    else
      var m := Highest(s[1..]);
      assert s == [s[0]] + s[1..];
      if s[0] > m then s[0] else m
  }

  /** How far the ranks can still rise. */
  ghost function Slack(rank: seq<nat>, max: nat): nat {
    if rank == [] then 0 else (if rank[0] <= max then max - rank[0] else 0) + Slack(rank[1..], max)
  }

  lemma {:induction false} RaisingSpendsSlack(rank: seq<nat>, max: nat, b: nat, r: nat)
    requires b < |rank| && rank[b] < r <= max
    ensures Slack(rank[b := r], max) < Slack(rank, max)
  {
    if b == 0 {
      assert rank[b := r][1..] == rank[1..];
    } else {
      RaisingSpendsSlack(rank[1..], max, b - 1, r);
      assert rank[b := r][1..] == rank[1..][b - 1 := r];
    }
  }

  /** The vertices of one rank, in spec order. */
  ghost function Layer(vertices: seq<Vertex>, rank: seq<nat>, k: nat): seq<Vertex>
    requires |rank| >= |vertices|
  {
    if vertices == [] then []
    else
      var n := |vertices| - 1;
      Layer(vertices[..n], rank, k) + if rank[n] == k then [vertices[n]] else []
  }

  lemma {:induction false} InItsLayer(vertices: seq<Vertex>, rank: seq<nat>, i: nat)
    requires |rank| >= |vertices| && i < |vertices|
    ensures vertices[i] in Layer(vertices, rank, rank[i])
  {
    var n := |vertices| - 1;
    if i < n {
      InItsLayer(vertices[..n], rank, i);
    }
  }

  lemma {:induction false} LayerHoldsItsRank(vertices: seq<Vertex>, rank: seq<nat>, k: nat, i: nat)
    requires |rank| >= |vertices| && i < |vertices| && DistinctNames(vertices)
    ensures vertices[i] in Layer(vertices, rank, k) <==> rank[i] == k
  {
    var n := |vertices| - 1;
    if i < n {
      LayerHoldsItsRank(vertices[..n], rank, k, i);
    } else {
      LayerDrawsFrom(vertices[..n], rank, k);
    }
  }

  lemma {:induction false} LayerDrawsFrom(vertices: seq<Vertex>, rank: seq<nat>, k: nat)
    requires |rank| >= |vertices|
    ensures forall v :: v in Layer(vertices, rank, k) ==> v in vertices
  {
    if vertices != [] {
      LayerDrawsFrom(vertices[..|vertices| - 1], rank, k);
    }
  }

  /** `retain(|l| !l.is_empty())`. */
  function RetainNonEmpty<T>(layers: seq<seq<T>>): seq<seq<T>> {
    if layers == [] then []
    else (if layers[0] == [] then [] else [layers[0]]) + RetainNonEmpty(layers[1..])
  }

  lemma {:induction false} NothingToDrop<T>(layers: seq<seq<T>>)
    requires forall k :: 0 <= k < |layers| ==> layers[k] != []
    ensures RetainNonEmpty(layers) == layers
  {
    if layers != [] {
      NothingToDrop(layers[1..]);
    }
  }

  /** What relaxation keeps: every rank is the length of some walk, and leaves room for the way to a sink. */
  ghost predicate RankInv(edges: Edges, toSink: seq<nat>, rank: seq<nat>, max: nat) {
    && |rank| == |toSink|
    && forall v :: 0 <= v < |rank| ==> RankedByWalk(edges, v, rank[v]) && rank[v] + toSink[v] <= max
  }

  ghost predicate RankedByWalk(edges: Edges, v: nat, r: nat) {
    exists p :: WalkTo(edges, v, p) && |p| == r + 1
  }

  lemma RaiseKeepsRankInv(edges: Edges, toSink: seq<nat>, rank: seq<nat>, max: nat, a: nat, b: nat)
    requires RankInv(edges, toSink, rank, max) && Descends(edges, toSink) && (a, b) in edges
    ensures rank[b] < rank[a] + 1 ==> Slack(rank[b := rank[a] + 1], max) < Slack(rank, max)
    ensures RankInv(edges, toSink, rank[b := rank[a] + 1], max)
  {
    assert RankedByWalk(edges, a, rank[a]);
    var p :| WalkTo(edges, a, p) && |p| == rank[a] + 1;
    WalkExtends(edges, p, b);
    assert |p + [b]| == rank[a] + 2;
    assert RankedByWalk(edges, b, rank[a] + 1);
    if rank[b] < rank[a] + 1 {
      RaisingSpendsSlack(rank, max, b, rank[a] + 1);
    }
  }

  ghost predicate Relaxed(edges: Edges, rank: seq<nat>) {
    forall a, b :: (a, b) in edges ==> a < |rank| && b < |rank| && rank[a] < rank[b]
  }

  lemma RelaxedIsLongest(edges: Edges, toSink: seq<nat>, rank: seq<nat>, max: nat)
    requires RankInv(edges, toSink, rank, max) && Relaxed(edges, rank)
    ensures forall v :: 0 <= v < |rank| ==> LongestTo(edges, v, rank[v])
  {
    forall v | 0 <= v < |rank| ensures LongestTo(edges, v, rank[v]) {
      assert RankedByWalk(edges, v, rank[v]);
      forall p | WalkTo(edges, v, p) ensures |p| <= rank[v] + 1 {
        RelaxedBoundsWalks(edges, rank, p);
      }
    }
  }

  /** The deepest walk passes through every rank, so no layer stays empty. */
  lemma EveryRankTaken(edges: Edges, toSink: seq<nat>, rank: seq<nat>, max: nat, k: nat)
    requires Descends(edges, toSink) && RankInv(edges, toSink, rank, max) && Relaxed(edges, rank)
    requires max in toSink && (forall v :: 0 <= v < |toSink| ==> LongestFrom(edges, v, toSink[v])) && k <= max
    ensures exists v :: 0 <= v < |rank| && rank[v] == k
  {
    var v :| 0 <= v < |toSink| && toSink[v] == max;
    assert LongestFrom(edges, v, toSink[v]);
    var p :| WalkFrom(edges, v, p) && |p| == max + 1;
    WalkStays(edges, toSink, p);
    WalkPrefix(edges, p, k + 1);
    RelaxedBoundsWalks(edges, rank, p[..k + 1]);
    assert IsWalk(edges, p[k..]);
    WalkDescends(edges, toSink, p[k..]);
    assert rank[p[k]] + toSink[p[k]] <= max;
  }

  lemma {:induction false} WalkStays(edges: Edges, toSink: seq<nat>, p: seq<nat>)
    requires Descends(edges, toSink) && IsWalk(edges, p) && p[0] < |toSink|
    ensures forall i :: 0 <= i < |p| ==> p[i] < |toSink|
    decreases |p|
  {
    forall i | 0 <= i < |p| ensures p[i] < |toSink| {
      WalkPrefix(edges, p, i + 1);
      WalkDescends(edges, toSink, p[..i + 1]);
    }
  }

  /** No edge enters a source, so no walk does. */
  lemma SourcesRankZero(t: Topology, edges: Edges, rank: seq<nat>)
    requires Valid(t) && edges <= EdgesOf(t) && |rank| == |t.vertices|
    requires forall v :: 0 <= v < |rank| ==> LongestTo(edges, v, rank[v])
    ensures forall v :: 0 <= v < |rank| && t.vertices[v].kind == Source ==> rank[v] == 0
  {
    forall v | 0 <= v < |rank| && t.vertices[v].kind == Source ensures rank[v] == 0 {
      NothingEntersASource(t, v);
      assert LongestTo(edges, v, rank[v]);
      var p :| WalkTo(edges, v, p) && |p| == rank[v] + 1;
      LastStep(edges, v, p);
    }
  }

  lemma NothingEntersASource(t: Topology, v: nat)
    requires Valid(t) && v < |t.vertices| && t.vertices[v].kind == Source
    ensures forall a: nat :: (a, v) !in EdgesOf(t)
  {
    var idx := Positions(t.vertices);
    forall e | e in t.edges ensures e.to in idx && idx[e.to] != v {
      ValidResolves(t);
      assert t.vertices[idx[e.to]] in t.vertices;
    }
  }

  /** The targets of the edges out of `a`, in spec order. */
  function TargetsOf(idx: map<VertexName, nat>, edges: seq<Edge>, a: nat): seq<nat>
    requires Resolves(idx, edges)
  {
    if edges == [] then []
    else
      var n := |edges| - 1;
      TargetsOf(idx, edges[..n], a) + if idx[edges[n].from] == a then [idx[edges[n].to]] else []
  }

  /** The successors of every vertex of a topology, by position, in spec order. */
  function Successors(t: Topology): (out: seq<seq<nat>>)
    requires Valid(t)
    ensures |out| == |t.vertices|
  {
    ValidResolves(t);
    seq(|t.vertices|, a requires 0 <= a < |t.vertices| => TargetsOf(Positions(t.vertices), t.edges, a))
  }

  lemma {:induction false} TargetsAreLinked(idx: map<VertexName, nat>, edges: seq<Edge>, a: nat, b: nat)
    requires Resolves(idx, edges)
    ensures b in TargetsOf(idx, edges, a) <==> (a, b) in Links(idx, edges)
  {
    if edges != [] {
      var n := |edges| - 1;
      TargetsAreLinked(idx, edges[..n], a, b);
      assert edges == edges[..n] + [edges[n]];
      assert Links(idx, edges) == Links(idx, edges[..n]) + {(idx[edges[n].from], idx[edges[n].to])};
    }
  }

  lemma OutIsLinked(n: nat, idx: map<VertexName, nat>, edges: seq<Edge>, out: seq<seq<nat>>)
    requires Resolves(idx, edges) && (forall k :: k in idx ==> idx[k] < n)
    requires |out| == n && forall a :: 0 <= a < n ==> out[a] == TargetsOf(idx, edges, a)
    ensures WellFormed(out) && AllEdges(out) == Links(idx, edges)
  {
    forall a: nat, b: nat ensures IsEdge(out, a, b) <==> (a, b) in Links(idx, edges) {
      TargetsAreLinked(idx, edges, a, b);
    }
    forall v, k | 0 <= v < |out| && 0 <= k < |out[v]| ensures out[v][k] < |out| {
      assert IsEdge(out, v, out[v][k]);
    }
    forall e: (nat, nat) ensures e in AllEdges(out) <==> e in Links(idx, edges) {
      assert e == (e.0, e.1) && (IsEdge(out, e.0, e.1) <==> e in Links(idx, edges));
    }
  }

  /** The adjacency lists `ranks` builds from the edges. */
  method OutEdges(n: nat, edges: seq<Edge>, idx: map<VertexName, nat>) returns (out: seq<seq<nat>>)
    requires Resolves(idx, edges) && forall k :: k in idx ==> idx[k] < n
    ensures |out| == n && WellFormed(out)
    ensures AllEdges(out) == Links(idx, edges)
    ensures forall a :: 0 <= a < n ==> out[a] == TargetsOf(idx, edges, a)
  {
    out := seq(n, _ => []);
    for i := 0 to |edges|
      invariant |out| == n
      invariant forall a :: 0 <= a < n ==> out[a] == TargetsOf(idx, edges[..i], a)
    {
      var e := edges[i];
      assert edges[..i + 1][..i] == edges[..i];
      if e.from in idx && e.to in idx {
        var a, b := idx[e.from], idx[e.to];
        out := out[a := out[a] + [b]];
      }
    }
    assert edges[..|edges|] == edges;
    OutIsLinked(n, idx, edges, out);
  }

  /** One more depth; those before it stand. */
  lemma DepthsStand(memo: seq<Option<nat>>, memo': seq<Option<nat>>, toSink: seq<nat>, d: nat)
    requires |toSink| < |memo| == |memo'| && memo'[|toSink|] == Some(d)
    requires forall u :: 0 <= u < |toSink| ==> memo[u] == Some(toSink[u])
    requires forall u :: 0 <= u < |memo| && memo[u].Some? ==> memo'[u] == memo[u]
    ensures forall u :: 0 <= u <= |toSink| ==> memo'[u] == Some((toSink + [d])[u])
  {
  }

  /** The edges the search cut are those its order says. */
  lemma CutsGoBack(out: seq<seq<nat>>, memo: seq<Option<nat>>, stack: seq<bool>, toSink: seq<nat>, kept: Edges,
    cut: Edges)
    requires WellFormed(out) && OrderInv(out, memo, stack, [], Preorder(out), kept, cut)
    requires Searched(out, toSink, kept, cut)
    ensures cut == BackEdges(out)
  {
    KeptDescends(out, toSink, kept, cut);
    forall e | e in AllEdges(out) ensures e in cut <==> ReachedFresh(out, Preorder(out), e.1, e.0) {
      assert (e.0, e.1) in kept + cut && OrderAt(out, memo, stack, [], Preorder(out), kept, cut, e.1);
    }
    assert cut <= AllEdges(out);
  }

  /** The depth of every vertex, over one shared memo. */
  method Depths(out: seq<seq<nat>>) returns (toSink: seq<nat>, ghost kept: Edges, ghost cut: Edges)
    requires WellFormed(out)
    ensures Searched(out, toSink, kept, cut)
    ensures cut == BackEdges(out)
    ensures Acyclic(AllEdges(out)) ==> MeasuresAll(out, toSink)
  {
    var memo := new Option<nat>[|out|](_ => None);
    var stack := new bool[|out|](_ => false);
    toSink := [];
    ghost var s := Trace([], {}, {});
    for v := 0 to |out|
      invariant Sound(out, memo[..], stack[..], [], s)
      invariant s.order == VisitAll(out, Upto(|out|)[..v], [])
      invariant forall u :: 0 <= u < |out| ==> !stack[..][u]
      invariant |toSink| == v
      invariant forall u :: 0 <= u < v ==> memo[..][u] == Some(toSink[u])
    {
      ghost var memo0, stack0 := memo[..], stack[..];
      var d;
      d, s := Depth(v, out, memo, stack, [], s);
      VisitNext(out, Upto(|out|), [], v);
      assert stack[..] == stack0;
      DepthsStand(memo0, memo[..], toSink, d);
      toSink := toSink + [d];
    }
    assert Upto(|out|)[..|out|] == Upto(|out|);
    kept, cut := s.kept, s.cut;
    CutsGoBack(out, memo[..], stack[..], toSink, kept, cut);
    SearchedMeasuresAll(out, toSink, kept, cut);
  }

  /** The depths count longest walks along any edges. */
  ghost predicate MeasuresAll(out: seq<seq<nat>>, toSink: seq<nat>) {
    |toSink| == |out| && forall v :: 0 <= v < |out| ==> LongestFrom(AllEdges(out), v, toSink[v])
  }

  lemma SearchedMeasuresAll(out: seq<seq<nat>>, toSink: seq<nat>, kept: Edges, cut: Edges)
    requires Searched(out, toSink, kept, cut)
    ensures Acyclic(AllEdges(out)) ==> MeasuresAll(out, toSink)
  {
    SearchedCutsCycles(out, toSink, kept, cut);
    if Acyclic(AllEdges(out)) {
      assert kept == AllEdges(out);
      forall v | 0 <= v < |out| ensures LongestFrom(AllEdges(out), v, toSink[v]) {
        DepthIsLongest(out, toSink, kept, cut, v);
      }
    }
  }

  ghost predicate EdgeRelaxed(idx: map<VertexName, nat>, toSink: seq<nat>, rank: seq<nat>, e: Edge) {
    && e.from in idx && e.to in idx && |rank| == |toSink|
    && idx[e.from] < |toSink| && idx[e.to] < |toSink|
    && (toSink[idx[e.from]] > toSink[idx[e.to]] ==> rank[idx[e.from]] < rank[idx[e.to]])
  }

  ghost predicate RelaxedTo(idx: map<VertexName, nat>, toSink: seq<nat>, rank: seq<nat>, edges: seq<Edge>, i: nat) {
    i <= |edges| && forall j :: 0 <= j < i ==> EdgeRelaxed(idx, toSink, rank, edges[j])
  }

  lemma RelaxedNext(idx: map<VertexName, nat>, toSink: seq<nat>, rank: seq<nat>, edges: seq<Edge>, i: nat)
    requires RelaxedTo(idx, toSink, rank, edges, i) && i < |edges| && EdgeRelaxed(idx, toSink, rank, edges[i])
    ensures RelaxedTo(idx, toSink, rank, edges, i + 1)
  {
  }

  lemma AllRelaxed(idx: map<VertexName, nat>, edges: seq<Edge>, toSink: seq<nat>, rank: seq<nat>)
    requires Resolves(idx, edges) && |toSink| == |rank|
    requires RelaxedTo(idx, toSink, rank, edges, |edges|)
    ensures Relaxed(Honoured(Links(idx, edges), toSink), rank)
  {
  }

  lemma HonouredLink(idx: map<VertexName, nat>, edges: seq<Edge>, toSink: seq<nat>, e: Edge)
    requires Resolves(idx, edges) && e in edges
    requires idx[e.from] < |toSink| && idx[e.to] < |toSink| && toSink[idx[e.from]] > toSink[idx[e.to]]
    ensures (idx[e.from], idx[e.to]) in Honoured(Links(idx, edges), toSink)
    ensures Descends(Honoured(Links(idx, edges), toSink), toSink)
  {
    assert (idx[e.from], idx[e.to]) in Links(idx, edges);
  }

  /** Raise ranks along honoured edges until a whole pass changes nothing. */
  method Relax(edges: seq<Edge>, idx: map<VertexName, nat>, toSink: seq<nat>, max: nat) returns (rank: seq<nat>)
    requires Resolves(idx, edges) && forall k :: k in idx ==> idx[k] < |toSink|
    requires forall d :: d in toSink ==> d <= max
    ensures RankInv(Honoured(Links(idx, edges), toSink), toSink, rank, max)
    ensures Relaxed(Honoured(Links(idx, edges), toSink), rank)
  {
    ghost var honoured := Honoured(Links(idx, edges), toSink);
    rank := seq(|toSink|, _ => 0);
    forall v | 0 <= v < |rank| ensures RankedByWalk(honoured, v, rank[v]) && rank[v] + toSink[v] <= max {
      assert WalkTo(honoured, v, [v]);
      assert toSink[v] in toSink;
    }
    var changed := true;
    while changed
      invariant RankInv(honoured, toSink, rank, max)
      invariant !changed ==> Relaxed(honoured, rank)
      decreases Slack(rank, max), changed
    {
      changed := false;
      ghost var before := rank;
      for i := 0 to |edges|
        invariant RankInv(honoured, toSink, rank, max)
        invariant if changed then Slack(rank, max) < Slack(before, max) else rank == before
        invariant !changed ==> RelaxedTo(idx, toSink, rank, edges, i)
      {
        var e := edges[i];
        if e.from in idx && e.to in idx {
          var a, b := idx[e.from], idx[e.to];
          if toSink[a] > toSink[b] && rank[b] < rank[a] + 1 {
            HonouredLink(idx, edges, toSink, e);
            RaiseKeepsRankInv(honoured, toSink, rank, max, a, b);
            rank := rank[b := rank[a] + 1];
            changed := true;
          }
        }
        if !changed {
          RelaxedNext(idx, toSink, rank, edges, i);
        }
      }
      if !changed {
        AllRelaxed(idx, edges, toSink, rank);
      }
    }
  }

  /** Push every vertex into the bucket of its rank; `max` would catch a rank above it. */
  method Buckets(vertices: seq<Vertex>, rank: seq<nat>, max: nat) returns (layers: seq<seq<Vertex>>)
    requires |rank| == |vertices|
    ensures |layers| == max + 1
    ensures RanksFill(vertices, rank, max) ==>
              forall k :: 0 <= k < |layers| ==> layers[k] == Layer(vertices, rank, k)
  {
    layers := seq(max + 1, _ => []);
    for i := 0 to |vertices|
      invariant |layers| == max + 1
      invariant (forall v :: 0 <= v < |rank| ==> rank[v] <= max) ==>
                  forall k :: 0 <= k < |layers| ==> layers[k] == Layer(vertices[..i], rank, k)
    {
      var at := if rank[i] <= max then rank[i] else max;
      layers := layers[at := layers[at] + [vertices[i]]];
      assert vertices[..i + 1][..i] == vertices[..i];
    }
    assert vertices[..|vertices|] == vertices;
  }

  /** The edges the ranking ignores are the ones the search cut, and it ignores no more than it must. */
  ghost predicate CutsCycles(all: Edges, toSink: seq<nat>, cut: Edges) {
    && cut == all - Honoured(all, toSink)
    && MaximalAcyclic(all, Honoured(all, toSink))
    && (forall a, b :: (a, b) in cut ==> Reaches(Honoured(all, toSink), b, a))
    && (cut == {} <==> Acyclic(all))
  }

  /** Both measures count longest walks along honoured edges. */
  ghost predicate MeasuresWalks(all: Edges, toSink: seq<nat>, rank: seq<nat>) {
    && |toSink| == |rank|
    && (forall v :: 0 <= v < |rank| ==> LongestFrom(Honoured(all, toSink), v, toSink[v]))
    && (forall v :: 0 <= v < |rank| ==> LongestTo(Honoured(all, toSink), v, rank[v]))
  }

  /** One layer per rank up to the deepest, none empty, and every vertex in the layer of its rank. */
  ghost predicate LayersByRank(vertices: seq<Vertex>, layers: seq<seq<Vertex>>, rank: seq<nat>, max: nat) {
    && |rank| == |vertices| && |layers| == max + 1
    && (forall k :: 0 <= k < |layers| ==> layers[k] != [] && layers[k] == Layer(vertices, rank, k))
    && (forall v :: 0 <= v < |rank| ==> rank[v] <= max)
  }

  /** No layer is empty, so `retain` drops none; no rank exceeds the deepest depth, so `min` never clamps. */
  lemma LayersAreFull(vertices: seq<Vertex>, layers: seq<seq<Vertex>>, rank: seq<nat>, max: nat)
    requires |rank| == |vertices| && |layers| == max + 1
    requires RanksFill(vertices, rank, max)
    requires forall k :: 0 <= k < |layers| ==> layers[k] == Layer(vertices, rank, k)
    ensures RetainNonEmpty(layers) == layers
    ensures LayersByRank(vertices, layers, rank, max)
  {
    NothingToDrop(layers);
  }

  ghost predicate RanksFill(vertices: seq<Vertex>, rank: seq<nat>, max: nat) {
    && |rank| == |vertices|
    && (forall v :: 0 <= v < |rank| ==> rank[v] <= max)
    && (forall k :: 0 <= k <= max ==> Layer(vertices, rank, k) != [])
  }

  lemma LayersTaken(vertices: seq<Vertex>, edges: Edges, toSink: seq<nat>, rank: seq<nat>)
    requires Descends(edges, toSink) && RankInv(edges, toSink, rank, Highest(toSink)) && Relaxed(edges, rank)
    requires forall v :: 0 <= v < |toSink| ==> LongestFrom(edges, v, toSink[v])
    requires |rank| == |vertices| > 0
    ensures RanksFill(vertices, rank, Highest(toSink))
  {
    forall v | 0 <= v < |rank| ensures rank[v] <= Highest(toSink) {
      assert rank[v] + toSink[v] <= Highest(toSink);
    }
    forall k | 0 <= k <= Highest(toSink) ensures Layer(vertices, rank, k) != [] {
      LayerTaken(vertices, edges, toSink, rank, k);
    }
  }

  lemma LayerTaken(vertices: seq<Vertex>, edges: Edges, toSink: seq<nat>, rank: seq<nat>, k: nat)
    requires Descends(edges, toSink) && RankInv(edges, toSink, rank, Highest(toSink)) && Relaxed(edges, rank)
    requires forall v :: 0 <= v < |toSink| ==> LongestFrom(edges, v, toSink[v])
    requires |rank| == |vertices| > 0 && k <= Highest(toSink)
    ensures Layer(vertices, rank, k) != []
  {
    EveryRankTaken(edges, toSink, rank, Highest(toSink), k);
    var v :| 0 <= v < |rank| && rank[v] == k;
    InItsLayer(vertices, rank, v);
  }

  lemma SearchedCutsCycles(out: seq<seq<nat>>, toSink: seq<nat>, kept: Edges, cut: Edges)
    requires Searched(out, toSink, kept, cut)
    ensures CutsCycles(AllEdges(out), toSink, cut)
    ensures kept == Honoured(AllEdges(out), toSink)
    ensures Descends(kept, toSink)
  {
    HonouredIsNotCut(out, toSink, kept, cut);
    KeptDescends(out, toSink, kept, cut);
    AcyclicKeepsAll(AllEdges(out), kept);
    assert cut == {} <==> kept == AllEdges(out);
  }

  lemma SearchedMeasures(out: seq<seq<nat>>, toSink: seq<nat>, kept: Edges, cut: Edges, rank: seq<nat>, max: nat)
    requires Searched(out, toSink, kept, cut) && kept == Honoured(AllEdges(out), toSink)
    requires RankInv(kept, toSink, rank, max) && Relaxed(kept, rank)
    ensures MeasuresWalks(AllEdges(out), toSink, rank)
  {
    forall v | 0 <= v < |out| ensures LongestFrom(kept, v, toSink[v]) {
      DepthIsLongest(out, toSink, kept, cut, v);
    }
    RelaxedIsLongest(kept, toSink, rank, max);
  }

  /** The vertex is in exactly one layer. */
  ghost predicate InOneLayer(layers: seq<seq<Vertex>>, v: Vertex) {
    exists k: nat :: k < |layers| && OnlyIn(layers, v, k)
  }

  ghost predicate OnlyIn(layers: seq<seq<Vertex>>, v: Vertex, k: nat) {
    forall j :: 0 <= j < |layers| ==> (v in layers[j] <==> j == k)
  }

  ghost predicate Rises(layers: seq<seq<Vertex>>, u: Vertex, v: Vertex) {
    forall j, k :: 0 <= j < |layers| && 0 <= k < |layers| && u in layers[j] && v in layers[k] ==> j < k
  }

  /** An edge that lies on no cycle leads to a later layer. */
  ghost predicate LoneEdgesRise(all: Edges, vertices: seq<Vertex>, layers: seq<seq<Vertex>>) {
    forall a, b :: (a, b) in all && a < |vertices| && b < |vertices| && !Reaches(all, b, a) ==>
      Rises(layers, vertices[a], vertices[b])
  }

  /**
   * What a reader of the layout relies on: no layer is empty, every vertex is in exactly one, a source in
   * the first, and every edge that lies on no cycle leads to a later layer.
   */
  ghost predicate Layered(t: Topology, layers: seq<seq<Vertex>>)
    requires Valid(t)
  {
    && (forall k :: 0 <= k < |layers| ==> layers[k] != [])
    && (forall a :: 0 <= a < |t.vertices| ==> InOneLayer(layers, t.vertices[a]))
    && (forall a :: 0 <= a < |t.vertices| && t.vertices[a].kind == Source ==> OnlyIn(layers, t.vertices[a], 0))
    && LoneEdgesRise(EdgesOf(t), t.vertices, layers)
  }

  /** An edge the search cut lies on a cycle. */
  lemma CutIsOnCycle(all: Edges, toSink: seq<nat>, cut: Edges, a: nat, b: nat)
    requires CutsCycles(all, toSink, cut) && (a, b) in cut
    ensures Reaches(all, b, a)
  {
    var p :| WalkFrom(Honoured(all, toSink), b, p) && WalkTo(Honoured(all, toSink), a, p);
    WalkMonotone(Honoured(all, toSink), all, p);
    assert WalkFrom(all, b, p) && WalkTo(all, a, p);
  }

  lemma RankIsLayer(vertices: seq<Vertex>, layers: seq<seq<Vertex>>, rank: seq<nat>, max: nat, v: nat)
    requires DistinctNames(vertices) && LayersByRank(vertices, layers, rank, max) && v < |vertices|
    ensures rank[v] < |layers| && OnlyIn(layers, vertices[v], rank[v])
  {
    forall j | 0 <= j < |layers| ensures vertices[v] in layers[j] <==> j == rank[v] {
      OneLayerEach(vertices, layers, rank, max, v, j);
    }
  }

  lemma LoneEdges(all: Edges, vertices: seq<Vertex>, layers: seq<seq<Vertex>>, toSink: seq<nat>, rank: seq<nat>,
    cut: Edges, max: nat)
    requires DistinctNames(vertices) && CutsCycles(all, toSink, cut) && MeasuresWalks(all, toSink, rank)
    requires LayersByRank(vertices, layers, rank, max)
    ensures LoneEdgesRise(all, vertices, layers)
  {
    forall a, b | (a, b) in all && a < |vertices| && b < |vertices| && !Reaches(all, b, a)
      ensures Rises(layers, vertices[a], vertices[b]) {
      if (a, b) in cut {
        CutIsOnCycle(all, toSink, cut, a, b);
      }
      UncutEdgesRise(all, toSink, rank, cut, a, b);
      RankIsLayer(vertices, layers, rank, max, a);
      RankIsLayer(vertices, layers, rank, max, b);
    }
  }

  lemma NoLayerEmpty(vertices: seq<Vertex>, layers: seq<seq<Vertex>>, rank: seq<nat>, max: nat)
    requires LayersByRank(vertices, layers, rank, max)
    ensures forall k :: 0 <= k < |layers| ==> layers[k] != []
  {
  }

  lemma EachInOneLayer(vertices: seq<Vertex>, layers: seq<seq<Vertex>>, rank: seq<nat>, max: nat)
    requires DistinctNames(vertices) && LayersByRank(vertices, layers, rank, max)
    ensures forall a :: 0 <= a < |vertices| ==> InOneLayer(layers, vertices[a])
  {
    forall a | 0 <= a < |vertices| ensures InOneLayer(layers, vertices[a]) {
      RankIsLayer(vertices, layers, rank, max, a);
    }
  }

  lemma SourcesAreFirst(vertices: seq<Vertex>, layers: seq<seq<Vertex>>, rank: seq<nat>, max: nat)
    requires DistinctNames(vertices) && LayersByRank(vertices, layers, rank, max)
    requires forall v :: 0 <= v < |vertices| && vertices[v].kind == Source ==> rank[v] == 0
    ensures forall a :: 0 <= a < |vertices| && vertices[a].kind == Source ==> OnlyIn(layers, vertices[a], 0)
  {
    forall a | 0 <= a < |vertices| && vertices[a].kind == Source ensures OnlyIn(layers, vertices[a], 0) {
      RankIsLayer(vertices, layers, rank, max, a);
    }
  }

  lemma IsLayered(t: Topology, layers: seq<seq<Vertex>>, toSink: seq<nat>, rank: seq<nat>, cut: Edges, max: nat)
    requires Valid(t) && CutsCycles(EdgesOf(t), toSink, cut) && MeasuresWalks(EdgesOf(t), toSink, rank)
    requires LayersByRank(t.vertices, layers, rank, max)
    requires forall v :: 0 <= v < |t.vertices| && t.vertices[v].kind == Source ==> rank[v] == 0
    ensures Layered(t, layers)
  {
    NoLayerEmpty(t.vertices, layers, rank, max);
    EachInOneLayer(t.vertices, layers, rank, max);
    SourcesAreFirst(t.vertices, layers, rank, max);
    LoneEdges(EdgesOf(t), t.vertices, layers, toSink, rank, cut, max);
  }

  /**
   * Layered layout: each vertex's rank is the longest walk into it that ignores
   * the edges the search cut. `toSink`, `rank` and `cut` are for the proof.
   */
  method Ranks(t: Topology)
    returns (layers: seq<seq<Vertex>>, ghost toSink: seq<nat>, ghost rank: seq<nat>, ghost cut: Edges)
    requires Valid(t)
    ensures CutsCycles(EdgesOf(t), toSink, cut)
    ensures MeasuresWalks(EdgesOf(t), toSink, rank)
    ensures LayersByRank(t.vertices, layers, rank, Highest(toSink))
    ensures WellFormed(Successors(t)) && cut == BackEdges(Successors(t))
    ensures forall v :: 0 <= v < |t.vertices| && t.vertices[v].kind == Source ==> rank[v] == 0
    ensures Layered(t, layers)
  {
    ValidResolves(t);
    var idx := Positions(t.vertices);
    var out := OutEdges(|t.vertices|, t.edges, idx);
    assert out == Successors(t);
    var depths, kept, cuts := Depths(out);
    toSink, cut := depths, cuts;
    SearchedCutsCycles(out, toSink, kept, cut);
    var max := Highest(depths);
    var ranks := Relax(t.edges, idx, depths, max);
    rank := ranks;
    SearchedMeasures(out, toSink, kept, cut, rank, max);
    layers := Buckets(t.vertices, ranks, max);
    LayersTaken(t.vertices, kept, toSink, rank);
    LayersAreFull(t.vertices, layers, rank, max);
    layers := RetainNonEmpty(layers);
    SourcesRankZero(t, kept, rank);
    IsLayered(t, layers, toSink, rank, cut, max);
  }

  /** What a reader of the layout gets: each vertex is in the one layer of its rank ... */
  lemma OneLayerEach(vertices: seq<Vertex>, layers: seq<seq<Vertex>>, rank: seq<nat>, max: nat, v: nat, k: nat)
    requires DistinctNames(vertices) && LayersByRank(vertices, layers, rank, max)
    requires v < |vertices| && k < |layers|
    ensures vertices[v] in layers[k] <==> k == rank[v]
  {
    assert layers[k] == Layer(vertices, rank, k);
    LayerHoldsItsRank(vertices, rank, k, v);
  }

  /** ... and every edge that was not cut leads to a later layer. */
  lemma UncutEdgesRise(all: Edges, toSink: seq<nat>, rank: seq<nat>, cut: Edges, a: nat, b: nat)
    requires CutsCycles(all, toSink, cut) && MeasuresWalks(all, toSink, rank) && (a, b) in all - cut
    ensures a < |rank| && b < |rank| && rank[a] < rank[b]
  {
    assert (a, b) in Honoured(all, toSink);
    LongestToRises(Honoured(all, toSink), rank[a], rank[b], a, b);
  }

  lemma LongestToRises(edges: Edges, ra: nat, rb: nat, a: nat, b: nat)
    requires LongestTo(edges, a, ra) && LongestTo(edges, b, rb) && (a, b) in edges
    ensures ra < rb
  {
    var p :| WalkTo(edges, a, p) && |p| == ra + 1;
    WalkExtends(edges, p, b);
    assert WalkTo(edges, b, p + [b]);
  }
}
