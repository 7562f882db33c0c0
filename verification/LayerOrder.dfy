/** The layers of a topology are determined, cycles or none. */
module LayerOrder {
  import opened Names
  import opened TopologyModel
  import opened Graphs
  import opened SearchOrder
  import opened Layering

  /** What `Ranks` promises of its layers and of the measures behind them. */
  ghost predicate RanksAs(t: Topology, layers: seq<seq<Vertex>>, toSink: seq<nat>, rank: seq<nat>, cut: Edges) {
    && Valid(t)
    && CutsCycles(EdgesOf(t), toSink, cut)
    && MeasuresWalks(EdgesOf(t), toSink, rank)
    && LayersByRank(t.vertices, layers, rank, Highest(toSink))
    && WellFormed(Successors(t)) && cut == BackEdges(Successors(t))
  }

  lemma LongestFromIsOne(edges: Edges, v: nat, m: nat, n: nat)
    requires LongestFrom(edges, v, m) && LongestFrom(edges, v, n)
    ensures m == n
  {
  }

  lemma LongestToIsOne(edges: Edges, v: nat, m: nat, n: nat)
    requires LongestTo(edges, v, m) && LongestTo(edges, v, n)
    ensures m == n
  {
  }

  lemma HonouredIsUncut(t: Topology, layers: seq<seq<Vertex>>, toSink: seq<nat>, rank: seq<nat>, cut: Edges)
    requires RanksAs(t, layers, toSink, rank, cut)
    ensures Honoured(EdgesOf(t), toSink) == EdgesOf(t) - BackEdges(Successors(t))
  {
  }

  lemma SuccessorsAreEdges(t: Topology)
    requires Valid(t)
    ensures WellFormed(Successors(t)) && AllEdges(Successors(t)) == EdgesOf(t)
  {
    ValidResolves(t);
    OutIsLinked(|t.vertices|, Positions(t.vertices), t.edges, Successors(t));
  }

  /** A topology has one layered layout. */
  lemma OneAnswer(t: Topology, layers: seq<seq<Vertex>>, toSink: seq<nat>, rank: seq<nat>, cut: Edges,
    layers': seq<seq<Vertex>>, toSink': seq<nat>, rank': seq<nat>, cut': Edges)
    requires RanksAs(t, layers, toSink, rank, cut) && RanksAs(t, layers', toSink', rank', cut')
    ensures layers == layers'
  {
    HonouredIsUncut(t, layers, toSink, rank, cut);
    HonouredIsUncut(t, layers', toSink', rank', cut');
    var honoured := EdgesOf(t) - BackEdges(Successors(t));
    forall v | 0 <= v < |rank| ensures rank[v] == rank'[v] && toSink[v] == toSink'[v] {
      LongestToIsOne(honoured, v, rank[v], rank'[v]);
      LongestFromIsOne(honoured, v, toSink[v], toSink'[v]);
    }
    assert rank == rank' && toSink == toSink';
    assert forall k :: 0 <= k < |layers| ==> layers[k] == layers'[k];
  }

  // ---- a cycle whose two vertices are met in spec order ------------------------

  function Plain(name: VertexName, kind: VertexKind): Vertex {
    Vertex(name, kind, 1, ScaleSpec(None, None, false), None)
  }

  function Link(from: VertexName, to: VertexName): Edge {
    Edge(from, to, None, RetryUntilSuccess)
  }

  /** Two vertices between a source and a sink, each with an edge to the other. */
  function TwoInACycle(i: VertexName, a: VertexName, b: VertexName, o: VertexName): Topology {
    Topology(
      [Plain(i, Source), Plain(a, Map), Plain(b, Map), Plain(o, Sink)],
      [Link(i, a), Link(i, b), Link(a, b), Link(b, a), Link(a, o), Link(b, o)])
  }

  ghost predicate Four(i: VertexName, a: VertexName, b: VertexName, o: VertexName) {
    i != a && i != b && i != o && a != b && a != o && b != o
  }

  lemma EndsDiffer(i: VertexName, a: VertexName, b: VertexName, o: VertexName)
    requires Four(i, a, b, o)
    ensures DistinctEnds(TwoInACycle(i, a, b, o).edges)
  {
    var ends := [(i, a), (i, b), (a, b), (b, a), (a, o), (b, o)];
    var edges := TwoInACycle(i, a, b, o).edges;
    assert forall j :: 0 <= j < |edges| ==> (edges[j].from, edges[j].to) == ends[j];
    forall j, k | 0 <= j < k < |edges| ensures (edges[j].from, edges[j].to) != (edges[k].from, edges[k].to) {
      assert ends[j] != ends[k];
    }
  }

  lemma EndsAreDeclared(i: VertexName, a: VertexName, b: VertexName, o: VertexName, e: Edge)
    requires e in TwoInACycle(i, a, b, o).edges
    ensures Declared(TwoInACycle(i, a, b, o).vertices, e.from) && Declared(TwoInACycle(i, a, b, o).vertices, e.to)
    ensures e.from in {i, a, b} && e.to in {a, b, o}
  {
    var vertices := TwoInACycle(i, a, b, o).vertices;
    assert vertices[0].name == i && vertices[1].name == a && vertices[2].name == b && vertices[3].name == o;
  }

  lemma TwoInACycleIsValid(i: VertexName, a: VertexName, b: VertexName, o: VertexName)
    requires Four(i, a, b, o)
    ensures Valid(TwoInACycle(i, a, b, o))
  {
    var t := TwoInACycle(i, a, b, o);
    EndsDiffer(i, a, b, o);
    forall e | e in t.edges
      ensures e.from in {i, a, b} && e.to in {a, b, o}
      ensures Declared(t.vertices, e.from) && Declared(t.vertices, e.to) {
      EndsAreDeclared(i, a, b, o, e);
    }
    OneSourceOneSink(i, a, b, o);
  }

  lemma OneSourceOneSink(i: VertexName, a: VertexName, b: VertexName, o: VertexName)
    ensures forall v :: v in TwoInACycle(i, a, b, o).vertices ==>
        (v.kind == Source ==> v.name == i) && (v.kind == Sink ==> v.name == o)
  {
  }

  lemma TargetsSnoc(idx: map<VertexName, nat>, edges: seq<Edge>, e: Edge, a: nat)
    requires Resolves(idx, edges + [e])
    ensures Resolves(idx, edges)
    ensures TargetsOf(idx, edges + [e], a) == TargetsOf(idx, edges, a) + if idx[e.from] == a then [idx[e.to]] else []
  {
    assert (edges + [e])[..|edges|] == edges;
    assert forall x :: x in edges ==> x in edges + [e];
  }

  /** Its edges by position, in its own order. */
  lemma TargetsInACycle(i: VertexName, a: VertexName, b: VertexName, o: VertexName, v: nat)
    requires Four(i, a, b, o) && v < 4
    ensures Valid(TwoInACycle(i, a, b, o)) && |Successors(TwoInACycle(i, a, b, o))| == 4
    ensures Successors(TwoInACycle(i, a, b, o))[v] == [[1, 2], [2, 3], [1, 3], []][v]
  {
    TwoInACycleIsValid(i, a, b, o);
    var t := TwoInACycle(i, a, b, o);
    ValidResolves(t);
    var idx := Positions(t.vertices);
    assert t.vertices[0].name == i && t.vertices[1].name == a && t.vertices[2].name == b && t.vertices[3].name == o;
    assert idx[i] == 0 && idx[a] == 1 && idx[b] == 2 && idx[o] == 3;
    TargetsOfSix(idx, i, a, b, o, v);
  }

  lemma TargetsOfSix(idx: map<VertexName, nat>, i: VertexName, a: VertexName, b: VertexName, o: VertexName, v: nat)
    requires i in idx && a in idx && b in idx && o in idx && v < 4
    requires idx[i] == 0 && idx[a] == 1 && idx[b] == 2 && idx[o] == 3
    ensures Resolves(idx, [Link(i, a), Link(i, b), Link(a, b), Link(b, a), Link(a, o), Link(b, o)])
    ensures TargetsOf(idx, [Link(i, a), Link(i, b), Link(a, b), Link(b, a), Link(a, o), Link(b, o)], v)
         == [[1, 2], [2, 3], [1, 3], []][v]
  {
    var e1 := [] + [Link(i, a)];
    var e2 := e1 + [Link(i, b)];
    var e3 := e2 + [Link(a, b)];
    var e4 := e3 + [Link(b, a)];
    var e5 := e4 + [Link(a, o)];
    var e6 := e5 + [Link(b, o)];
    assert e6 == [Link(i, a), Link(i, b), Link(a, b), Link(b, a), Link(a, o), Link(b, o)];
    TargetsSnoc(idx, e5, Link(b, o), v);
    TargetsSnoc(idx, e4, Link(a, o), v);
    TargetsSnoc(idx, e3, Link(b, a), v);
    TargetsSnoc(idx, e2, Link(a, b), v);
    TargetsSnoc(idx, e1, Link(i, b), v);
    TargetsSnoc(idx, [], Link(i, a), v);
  }

  lemma VisitTwo(out: seq<seq<nat>>, a: nat, b: nat, seen: seq<nat>)
    requires WellFormed(out) && a < |out| && b < |out|
    ensures VisitAll(out, [a, b], seen) == Visit(out, b, Visit(out, a, seen))
  {
    var ws := [a, b];
    assert ws[..1] == [a] && [a][..0] == [];
    assert VisitAll(out, [a], seen) == Visit(out, a, VisitAll(out, [], seen));
  }

  /** From its first vertex the search enters the others of the cyclic topology in spec order. */
  lemma EntersAll(out: seq<seq<nat>>)
    requires out == [[1, 2], [2, 3], [1, 3], []] && WellFormed(out)
    ensures Visit(out, 0, []) == [0, 1, 2, 3]
  {
    var all: seq<nat> := [0, 1, 2, 3];
    assert Visit(out, 3, [0, 1, 2]) == all by {
      assert [0, 1, 2] + [3] == all && VisitAll(out, [], all) == all;
    }
    VisitTwo(out, 1, 3, [0, 1, 2]);
    assert Visit(out, 2, [0, 1]) == all by {
      assert [0, 1] + [2] == [0, 1, 2];
    }
    VisitTwo(out, 2, 3, [0, 1]);
    assert Visit(out, 1, [0]) == all by {
      assert [0] + [1] == [0, 1];
    }
    VisitTwo(out, 1, 2, [0]);
    assert [] + [0] == [0];
  }

  /** With every vertex entered nothing is left to enter. */
  lemma {:induction false} NothingLeft(out: seq<seq<nat>>, ws: seq<nat>, seen: seq<nat>, from: seq<nat>)
    requires WellFormed(out) && forall i :: 0 <= i < |ws| ==> ws[i] < |out| && ws[i] in seen
    requires ws != [] && Visit(out, ws[0], from) == seen
    ensures VisitAll(out, ws, from) == seen
  {
    var n := |ws| - 1;
    if n > 0 {
      NothingLeft(out, ws[..n], seen, from);
    } else {
      assert ws[..0] == [];
    }
  }

  /** The search enters the vertices of the cyclic topology in spec order. */
  lemma EntersInSpecOrder(out: seq<seq<nat>>)
    requires out == [[1, 2], [2, 3], [1, 3], []]
    ensures WellFormed(out) && Preorder(out) == [0, 1, 2, 3]
  {
    assert WellFormed(out) by {
      assert out[0] == [1, 2] && out[1] == [2, 3] && out[2] == [1, 3] && out[3] == [];
    }
    EntersAll(out);
    NothingLeft(out, Upto(4), [0, 1, 2, 3], []);
  }

  lemma BeforesInSpecOrder()
    ensures Before([0, 1, 2, 3], 1) == {0}
    ensures Before([0, 1, 2, 3], 2) == {0, 1}
    ensures Before([0, 1, 2, 3], 3) == {0, 1, 2}
  {
    var all: seq<nat> := [0, 1, 2, 3];
    assert all[..3] == [0, 1, 2] && [0, 1, 2][..2] == [0, 1] && [0, 1][..1] == [0];
    assert Elements([0]) == {0} && Elements([0, 1]) == {0, 1} && Elements([0, 1, 2]) == {0, 1, 2};
  }

  /** Of its two edges between `a` and `b`, the one back from `b` is cut, and no other edge is. */
  lemma OneEdgeGoesBack(out: seq<seq<nat>>)
    requires out == [[1, 2], [2, 3], [1, 3], []]
    ensures WellFormed(out) && BackEdges(out) == {(2, 1)}
    ensures AllEdges(out) == {(0, 1), (0, 2), (1, 2), (1, 3), (2, 1), (2, 3)}
  {
    EntersInSpecOrder(out);
    BeforesInSpecOrder();
    var order := Preorder(out);
    assert out[0] == [1, 2] && out[1] == [2, 3] && out[2] == [1, 3] && out[3] == [];
    NotThroughSelf(out, order, 1, 0);
    NotThroughSelf(out, order, 2, 0);
    NotThroughSelf(out, order, 2, 1);
    NotThroughSelf(out, order, 3, 1);
    NotThroughSelf(out, order, 3, 2);
    var p: seq<nat> := [1, 2];
    assert WalkFrom(AllEdges(out), 1, p) && WalkTo(AllEdges(out), 2, p) && Avoids(p, Before(order, 1));
    assert ReachedFresh(out, order, 1, 2);
  }

  lemma RanksOfTheCycle(edges: Edges, v: nat)
    requires edges == {(0, 1), (0, 2), (1, 2), (1, 3), (2, 3)} && v < 4
    ensures LongestTo(edges, v, v)
  {
    var rank: seq<nat> := [0, 1, 2, 3];
    var p := rank[..v + 1];
    assert WalkTo(edges, v, p) && |p| == v + 1;
    forall q | WalkTo(edges, v, q) ensures |q| <= v + 1 {
      RelaxedBoundsWalks(edges, rank, q);
    }
  }

  /** Vertices of ranks one after another are one to a layer. */
  lemma OneToALayer(vertices: seq<Vertex>, layers: seq<seq<Vertex>>, rank: seq<nat>, max: nat)
    requires |vertices| == 4 && LayersByRank(vertices, layers, rank, max) && rank == [0, 1, 2, 3]
    ensures layers == [[vertices[0]], [vertices[1]], [vertices[2]], [vertices[3]]]
  {
    forall k: nat ensures Layer(vertices, rank, k) == if k < 4 then [vertices[k]] else [] {
      FourLayers(vertices, rank, k);
    }
    assert rank[3] == 3;
    if |layers| > 4 {
      NoLayerIsBare(vertices, layers, rank, max, 4);
    }
    assert forall k :: 0 <= k < 4 ==> layers[k] == Layer(vertices, rank, k);
  }

  lemma NoLayerIsBare(vertices: seq<Vertex>, layers: seq<seq<Vertex>>, rank: seq<nat>, max: nat, k: nat)
    requires LayersByRank(vertices, layers, rank, max) && k < |layers|
    ensures Layer(vertices, rank, k) != []
  {
  }

  lemma FourLayers(vertices: seq<Vertex>, rank: seq<nat>, k: nat)
    requires |vertices| == 4 && rank == [0, 1, 2, 3]
    ensures Layer(vertices, rank, k) == if k < 4 then [vertices[k]] else []
  {
    var v3, v2, v1 := vertices[..3], vertices[..2], vertices[..1];
    assert v3[..2] == v2 && v2[..1] == v1 && v1[..0] == [];
    assert Layer(vertices, rank, k) == Layer(v3, rank, k) + if rank[3] == k then [vertices[3]] else [];
    assert Layer(v3, rank, k) == Layer(v2, rank, k) + if rank[2] == k then [vertices[2]] else [];
    assert Layer(v2, rank, k) == Layer(v1, rank, k) + if rank[1] == k then [vertices[1]] else [];
    assert Layer(v1, rank, k) == if rank[0] == k then [vertices[0]] else [];
  }

  lemma SuccessorsInACycle(i: VertexName, a: VertexName, b: VertexName, o: VertexName)
    requires Four(i, a, b, o)
    ensures Valid(TwoInACycle(i, a, b, o))
    ensures Successors(TwoInACycle(i, a, b, o)) == [[1, 2], [2, 3], [1, 3], []]
  {
    TwoInACycleIsValid(i, a, b, o);
    forall v | 0 <= v < 4 ensures Successors(TwoInACycle(i, a, b, o))[v] == [[1, 2], [2, 3], [1, 3], []][v] {
      TargetsInACycle(i, a, b, o, v);
    }
  }

  lemma EdgesInACycle(t: Topology)
    requires Valid(t) && Successors(t) == [[1, 2], [2, 3], [1, 3], []]
    ensures WellFormed(Successors(t)) && BackEdges(Successors(t)) == {(2, 1)}
    ensures EdgesOf(t) - BackEdges(Successors(t)) == {(0, 1), (0, 2), (1, 2), (1, 3), (2, 3)}
  {
    OneEdgeGoesBack(Successors(t));
    SuccessorsAreEdges(t);
  }

  lemma RanksInACycle(t: Topology, layers: seq<seq<Vertex>>, toSink: seq<nat>, rank: seq<nat>, cut: Edges)
    requires RanksAs(t, layers, toSink, rank, cut) && Successors(t) == [[1, 2], [2, 3], [1, 3], []]
    ensures cut == {(2, 1)} && rank == [0, 1, 2, 3]
  {
    EdgesInACycle(t);
    RankIsLongest(t, layers, toSink, rank, cut);
    OneRankEach(EdgesOf(t) - BackEdges(Successors(t)), rank);
  }

  lemma OneRankEach(edges: Edges, rank: seq<nat>)
    requires edges == {(0, 1), (0, 2), (1, 2), (1, 3), (2, 3)} && |rank| == 4
    requires forall v :: 0 <= v < 4 ==> LongestTo(edges, v, rank[v])
    ensures rank == [0, 1, 2, 3]
  {
    forall v | 0 <= v < 4 ensures rank[v] == v {
      RanksOfTheCycle(edges, v);
      LongestToIsOne(edges, v, rank[v], v);
    }
  }

  lemma RankIsLongest(t: Topology, layers: seq<seq<Vertex>>, toSink: seq<nat>, rank: seq<nat>, cut: Edges)
    requires RanksAs(t, layers, toSink, rank, cut)
    ensures |rank| == |Successors(t)| && cut == BackEdges(Successors(t))
    ensures forall v :: 0 <= v < |rank| ==> LongestTo(EdgesOf(t) - BackEdges(Successors(t)), v, rank[v])
  {
    HonouredIsUncut(t, layers, toSink, rank, cut);
  }

  /** Of the two edges of the cycle the second is cut, and the layers are the vertices in spec order. */
  lemma CycleInSpecOrder(i: VertexName, a: VertexName, b: VertexName, o: VertexName,
    layers: seq<seq<Vertex>>, toSink: seq<nat>, rank: seq<nat>, cut: Edges)
    requires Four(i, a, b, o) && RanksAs(TwoInACycle(i, a, b, o), layers, toSink, rank, cut)
    ensures cut == {(2, 1)}
    ensures layers == [[Plain(i, Source)], [Plain(a, Map)], [Plain(b, Map)], [Plain(o, Sink)]]
  {
    var t := TwoInACycle(i, a, b, o);
    SuccessorsInACycle(i, a, b, o);
    RanksInACycle(t, layers, toSink, rank, cut);
    OneToALayer(t.vertices, layers, rank, Highest(toSink));
  }
}
