/** Collapsing shard groups, and what the view graph keeps of the topology. */
module Collapse {
  import opened Names
  import opened TopologyModel
  import opened Shards
  import opened ViewGraphs

  /** The view is the topology's quotient by the accepted groups. */
  ghost predicate IsView(t: Topology, accepted: Groups, g: ViewGraph, place: map<VertexName, nat>,
    heads: seq<nat>, firsts: seq<nat>) {
    && GroupsOf(t.vertices, accepted)
    && NodesFor(t.vertices, accepted, g.nodes, heads)
    && Places(g.nodes, place)
    && EdgesFor(g.nodes, place, t.edges, g.edges, firsts)
  }

  /** The name is in exactly one node. */
  ghost predicate InOneNode(nodes: seq<ViewNode>, name: VertexName) {
    exists i: nat :: i < |nodes| && OnlyAt(nodes, name, i)
  }

  ghost predicate OnlyAt(nodes: seq<ViewNode>, name: VertexName, i: nat) {
    forall j :: 0 <= j < |nodes| ==> (name in nodes[j].members <==> j == i)
  }

  /** Some edge of the topology joins these two. */
  ghost predicate IsEdge(edges: seq<Edge>, p: Pair) {
    exists e :: e in edges && (e.from, e.to) == p
  }

  /** A view edge stands for edges of the topology, each between members of the nodes it joins. */
  ghost predicate StandsFor(t: Topology, nodes: seq<ViewNode>, x: ViewEdge) {
    && x.from < |nodes| && x.to < |nodes| && x.members != []
    && forall p :: p in x.members ==> IsEdge(t.edges, p) && p.0 in nodes[x.from].members && p.1 in nodes[x.to].members
  }

  /** Nodes divide the vertices among themselves, and view edges stand for edges between them. */
  ghost predicate Conserves(t: Topology, g: ViewGraph) {
    && (forall name: VertexName :: Declared(t.vertices, name) ==> InOneNode(g.nodes, name))
    && (forall i, name :: 0 <= i < |g.nodes| && name in g.nodes[i].members ==> Declared(t.vertices, name))
    && (forall i :: 0 <= i < |g.edges| ==> StandsFor(t, g.nodes, g.edges[i]))
  }

  lemma CarriesStandsFor(t: Topology, nodes: seq<ViewNode>, place: map<VertexName, nat>, x: ViewEdge)
    requires Places(nodes, place) && Carries(nodes, place, t.edges, x)
    ensures StandsFor(t, nodes, x)
  {
    var es := Travellers(nodes, place, t.edges, KeyOf(x));
    forall i | 0 <= i < |es|
      ensures es[i] in t.edges && x.from < |nodes| && x.to < |nodes|
      ensures es[i].from in nodes[x.from].members && es[i].to in nodes[x.to].members {
      TravellerIsRouted(nodes, place, t.edges, KeyOf(x), es[i]);
    }
    assert es[0] in es;
    forall p | p in x.members ensures IsEdge(t.edges, p) && p.0 in nodes[x.from].members && p.1 in nodes[x.to].members {
      var i :| 0 <= i < |es| && Pairs(es)[i] == p;
      assert es[i] in t.edges;
    }
  }

  lemma ViewConserves(t: Topology, accepted: Groups, g: ViewGraph, place: map<VertexName, nat>, heads: seq<nat>,
    firsts: seq<nat>)
    requires IsView(t, accepted, g, place, heads, firsts)
    ensures Conserves(t, g)
  {
    forall name: VertexName | Declared(t.vertices, name) ensures InOneNode(g.nodes, name) {
      EachVertexOnce(t, accepted, g, place, heads, firsts, name);
      assert place[name] < |g.nodes| && OnlyAt(g.nodes, name, place[name]);
    }
    forall i, name | 0 <= i < |g.nodes| && name in g.nodes[i].members ensures Declared(t.vertices, name) {
      NodeMember(t, accepted, g.nodes, heads, i, name);
    }
    forall i | 0 <= i < |g.edges| ensures StandsFor(t, g.nodes, g.edges[i]) {
      CarriesStandsFor(t, g.nodes, place, g.edges[i]);
    }
  }

  method Build(t: Topology, accepted: Groups)
    returns (g: ViewGraph, ghost place: map<VertexName, nat>, ghost heads: seq<nat>, ghost firsts: seq<nat>)
    requires GroupsOf(t.vertices, accepted)
    ensures IsView(t, accepted, g, place, heads, firsts)
    ensures Conserves(t, g)
  {
    var nodes, nodeOf, hs := BuildNodes(t.vertices, accepted);
    var edges, fs := BuildEdges(nodes, nodeOf, t.edges);
    g, place, heads, firsts := ViewGraph(nodes, edges), nodeOf, hs, fs;
    ViewConserves(t, accepted, g, place, heads, firsts);
  }

  // ---- conservation ----------------------------------------------------------

  /** The members of node `i` are the vertices of its head's home. */
  lemma NodeMember(t: Topology, accepted: Groups, nodes: seq<ViewNode>, heads: seq<nat>, i: nat, name: VertexName)
    requires GroupsOf(t.vertices, accepted) && NodesFor(t.vertices, accepted, nodes, heads) && i < |nodes|
    ensures name in nodes[i].members <==>
              Declared(t.vertices, name) && HomeOf(accepted, name) == HomeOf(accepted, t.vertices[heads[i]].name)
  {
    MembersShareHome(t.vertices, accepted, t.vertices[heads[i]], name);
  }

  lemma HeadOfHome(t: Topology, accepted: Groups, nodes: seq<ViewNode>, heads: seq<nat>, name: VertexName)
    returns (i: nat)
    requires NodesFor(t.vertices, accepted, nodes, heads) && Declared(t.vertices, name)
    ensures i < |nodes| == |heads| && heads[i] < |t.vertices|
    ensures HomeOf(accepted, name) == HomeOf(accepted, t.vertices[heads[i]].name)
  {
    var k :| 0 <= k < |t.vertices| && t.vertices[k].name == name;
    assert Headed(t.vertices, accepted, heads, k);
    i :| 0 <= i < |heads| && heads[i] <= k && HomeOf(accepted, t.vertices[heads[i]].name) == HomeOf(accepted, name);
  }

  lemma PlacedOnce(nodes: seq<ViewNode>, place: map<VertexName, nat>, name: VertexName)
    requires Places(nodes, place)
    ensures forall i :: 0 <= i < |nodes| ==> (name in nodes[i].members <==> name in place && place[name] == i)
  {
  }

  lemma DeclaredIffPlaced(t: Topology, accepted: Groups, nodes: seq<ViewNode>, place: map<VertexName, nat>,
    heads: seq<nat>, name: VertexName)
    requires GroupsOf(t.vertices, accepted) && NodesFor(t.vertices, accepted, nodes, heads) && Places(nodes, place)
    ensures Declared(t.vertices, name) <==> name in place
  {
    PlacedOnce(nodes, place, name);
    if Declared(t.vertices, name) {
      var i := HeadOfHome(t, accepted, nodes, heads, name);
      NodeMember(t, accepted, nodes, heads, i, name);
    }
    if name in place {
      NodeMember(t, accepted, nodes, heads, place[name], name);
    }
  }

  /** Every vertex is in exactly one node, and only vertices are. */
  lemma EachVertexOnce(t: Topology, accepted: Groups, g: ViewGraph, place: map<VertexName, nat>,
    heads: seq<nat>, firsts: seq<nat>, name: VertexName)
    requires IsView(t, accepted, g, place, heads, firsts)
    ensures Declared(t.vertices, name) <==> name in place
    ensures forall i :: 0 <= i < |g.nodes| ==> (name in g.nodes[i].members <==> name in place && place[name] == i)
  {
    DeclaredIffPlaced(t, accepted, g.nodes, place, heads, name);
    PlacedOnce(g.nodes, place, name);
  }

  /** A node that is no group holds one vertex. */
  lemma LoneMember(t: Topology, accepted: Groups, g: ViewGraph, place: map<VertexName, nat>, heads: seq<nat>,
    firsts: seq<nat>, a: VertexName, b: VertexName)
    requires IsView(t, accepted, g, place, heads, firsts)
    requires a in place && b in place && place[a] == place[b] && a != b
    ensures g.nodes[place[a]].IsGroup()
  {
    var ms := g.nodes[place[a]].members;
    assert a in ms && b in ms;
    assert g.nodes[place[a]] == NodeFor(accepted, t.vertices[heads[place[a]]]);
  }

  /** An edge takes no route exactly when it joins two different vertices of one node. */
  lemma DroppedIffInside(t: Topology, accepted: Groups, g: ViewGraph, place: map<VertexName, nat>,
    heads: seq<nat>, firsts: seq<nat>, e: Edge)
    requires IsView(t, accepted, g, place, heads, firsts) && Valid(t) && e in t.edges
    ensures e.from in place && e.to in place
    ensures RouteOf(g.nodes, place, e).None? <==> place[e.from] == place[e.to] && e.from != e.to
  {
    EachVertexOnce(t, accepted, g, place, heads, firsts, e.from);
    EachVertexOnce(t, accepted, g, place, heads, firsts, e.to);
    if place[e.from] == place[e.to] && e.from != e.to {
      LoneMember(t, accepted, g, place, heads, firsts, e.from, e.to);
    }
  }

  function CountPair(pairs: seq<Pair>, p: Pair): nat {
    if pairs == [] then 0 else CountPair(pairs[..|pairs| - 1], p) + if pairs[|pairs| - 1] == p then 1 else 0
  }

  lemma {:induction false} NoPair(pairs: seq<Pair>, p: Pair)
    requires p !in pairs
    ensures CountPair(pairs, p) == 0
  {
    if pairs != [] {
      NoPair(pairs[..|pairs| - 1], p);
    }
  }

  /** The last edge is not among the travellers before it. */
  lemma NotYetThere(nodes: seq<ViewNode>, place: map<VertexName, nat>, edges: seq<Edge>, route: Route)
    requires DistinctEnds(edges) && edges != []
    ensures var n := |edges| - 1;
            CountPair(Pairs(Travellers(nodes, place, edges[..n], route)), (edges[n].from, edges[n].to)) == 0
  {
    var n := |edges| - 1;
    var before := Travellers(nodes, place, edges[..n], route);
    forall i | 0 <= i < |before| ensures Pairs(before)[i] != (edges[n].from, edges[n].to) {
      TravellerIsRouted(nodes, place, edges[..n], route, before[i]);
      var j :| 0 <= j < n && edges[j] == before[i];
    }
    NoPair(Pairs(before), (edges[n].from, edges[n].to));
  }

  /** An edge counts once among the travellers of its own route. */
  lemma {:induction false} TravelsOnce(nodes: seq<ViewNode>, place: map<VertexName, nat>, edges: seq<Edge>,
    route: Route, k: nat)
    requires DistinctEnds(edges) && k < |edges| && RouteOf(nodes, place, edges[k]) == Some(route)
    ensures CountPair(Pairs(Travellers(nodes, place, edges, route)), (edges[k].from, edges[k].to)) == 1
  {
    var n := |edges| - 1;
    var before, p := Travellers(nodes, place, edges[..n], route), (edges[k].from, edges[k].to);
    PairsSnoc(before, edges[n], p);
    assert before + [] == before;
    if k < n {
      TravelsOnce(nodes, place, edges[..n], route, k);
      assert (edges[n].from, edges[n].to) != p;
    } else {
      NotYetThere(nodes, place, edges, route);
    }
  }

  lemma PairsSnoc(es: seq<Edge>, e: Edge, p: Pair)
    ensures CountPair(Pairs(es + [e]), p) == CountPair(Pairs(es), p) + if (e.from, e.to) == p then 1 else 0
  {
    assert Pairs(es + [e])[..|es|] == Pairs(es);
  }

  ghost predicate Taken(view: seq<ViewEdge>, route: Route) {
    exists i :: 0 <= i < |view| && KeyOf(view[i]) == route
  }

  /**
   * Every topology edge that takes a route is a member of exactly one view
   * edge, once, between its ends' nodes; an edge inside a group is in none.
   */
  lemma EachEdgeOnce(t: Topology, accepted: Groups, g: ViewGraph, place: map<VertexName, nat>,
    heads: seq<nat>, firsts: seq<nat>, k: nat)
    requires IsView(t, accepted, g, place, heads, firsts) && Valid(t) && k < |t.edges|
    ensures var e, route := t.edges[k], RouteOf(g.nodes, place, t.edges[k]);
            && (route.Some? ==> Taken(g.edges, route.value))
            && (route.Some? ==> route.value.0 == place[e.from] && route.value.1 == place[e.to])
            && forall i :: 0 <= i < |g.edges| ==>
                 CountPair(g.edges[i].members, (e.from, e.to)) == if route == Some(KeyOf(g.edges[i])) then 1 else 0
  {
    var e, route := t.edges[k], RouteOf(g.nodes, place, t.edges[k]);
    assert Routed(g.nodes, place, t.edges, g.edges, firsts, k);
    assert DistinctEnds(t.edges);
    forall i | 0 <= i < |g.edges|
      ensures CountPair(g.edges[i].members, (e.from, e.to)) == if route == Some(KeyOf(g.edges[i])) then 1 else 0
    {
      assert Carries(g.nodes, place, t.edges, g.edges[i]);
      var key := KeyOf(g.edges[i]);
      if route == Some(key) {
        TravelsOnce(g.nodes, place, t.edges, key, k);
      } else {
        TravelsElsewhere(g.nodes, place, t.edges, key, k);
      }
    }
  }

  lemma TravelsElsewhere(nodes: seq<ViewNode>, place: map<VertexName, nat>, edges: seq<Edge>, route: Route, k: nat)
    requires DistinctEnds(edges) && k < |edges| && RouteOf(nodes, place, edges[k]) != Some(route)
    ensures CountPair(Pairs(Travellers(nodes, place, edges, route)), (edges[k].from, edges[k].to)) == 0
  {
    var es := Travellers(nodes, place, edges, route);
    forall i | 0 <= i < |es| ensures Pairs(es)[i] != (edges[k].from, edges[k].to) {
      TravellerIsRouted(nodes, place, edges, route, es[i]);
      var j :| 0 <= j < |edges| && edges[j] == es[i];
    }
    NoPair(Pairs(es), (edges[k].from, edges[k].to));
  }

  // ---- expanded --------------------------------------------------------------

  /** The view edge that stands for one topology edge. */
  function ViewOf(place: map<VertexName, nat>, e: Edge): ViewEdge
    requires e.from in place && e.to in place
  {
    ViewEdge(place[e.from], place[e.to], TagStrings(e.conditions), e.onFull == DiscardLatest, [(e.from, e.to)])
  }

  lemma {:induction false} IncreasingOnto(s: seq<nat>, n: nat)
    requires forall i, j :: 0 <= i < j < |s| ==> s[i] < s[j]
    requires forall i :: 0 <= i < |s| ==> s[i] < n
    requires forall k: nat :: k < n ==> k in s
    ensures |s| == n && forall i :: 0 <= i < n ==> s[i] == i
    decreases n
  {
    if s == [] {
      var zero: nat := 0;
      assert zero < n ==> zero in s;
    } else {
      var m := |s| - 1;
      assert s[m] < n && (n - 1) as nat in s;
      var i :| 0 <= i < |s| && s[i] == n - 1;
      assert s[i] <= s[m];
      forall k: nat | k < n - 1 ensures k in s[..m] {
        assert k in s;
        var j :| 0 <= j < |s| && s[j] == k;
        assert s[..m][j] == k;
      }
      IncreasingOnto(s[..m], n - 1);
    }
  }

  /** Every vertex is its own node. */
  method Expanded(t: Topology)
    returns (g: ViewGraph, ghost place: map<VertexName, nat>, ghost heads: seq<nat>, ghost firsts: seq<nat>)
    ensures IsView(t, map[], g, place, heads, firsts)
    ensures Conserves(t, g)
  {
    g, place, heads, firsts := Build(t, map[]);
  }

  /** One node per vertex, in spec order. */
  lemma ExpandedNodes(t: Topology, g: ViewGraph, place: map<VertexName, nat>, heads: seq<nat>, firsts: seq<nat>)
    requires IsView(t, map[], g, place, heads, firsts) && Valid(t)
    ensures |g.nodes| == |t.vertices|
    ensures forall i :: 0 <= i < |t.vertices| ==>
              var v := t.vertices[i]; g.nodes[i] == ViewNode(v.name, v.kind, [v.name], v.partitions)
  {
    forall k: nat | k < |t.vertices| ensures k in heads {
      assert Headed(t.vertices, map[], heads, k);
      var i :| 0 <= i < |heads| && heads[i] <= k &&
        HomeOf(map[], t.vertices[heads[i]].name) == HomeOf(map[], t.vertices[k].name);
      assert heads[i] == k;
    }
    IncreasingOnto(heads, |t.vertices|);
  }

  /** One view edge per topology edge, in the same order, with the edge's own tags. */
  lemma ExpandedEdges(t: Topology, g: ViewGraph, place: map<VertexName, nat>, heads: seq<nat>, firsts: seq<nat>)
    requires IsView(t, map[], g, place, heads, firsts) && Valid(t)
    ensures |g.edges| == |t.edges|
    ensures forall k :: 0 <= k < |t.edges| ==>
              var e := t.edges[k];
              && e.from in place && e.to in place
              && g.edges[k] == ViewOf(place, e)
  {
    ExpandedNodes(t, g, place, heads, firsts);
    forall k: nat | k < |t.edges| ensures k in firsts {
      ExpandedFirst(t, g, place, heads, firsts, k);
    }
    IncreasingOnto(firsts, |t.edges|);
    forall k | 0 <= k < |t.edges|
      ensures var e := t.edges[k];
              && e.from in place && e.to in place
              && g.edges[k] == ViewOf(place, e)
    {
      ExpandedEdge(t, g, place, heads, firsts, k);
    }
  }

  lemma ExpandedRoute(t: Topology, g: ViewGraph, place: map<VertexName, nat>, heads: seq<nat>, firsts: seq<nat>, k: nat)
    requires IsView(t, map[], g, place, heads, firsts) && Valid(t) && k < |t.edges|
    ensures var e := t.edges[k];
            && e.from in place && e.to in place
            && RouteOf(g.nodes, place, e) == Some((place[e.from], place[e.to], TagStrings(e.conditions)))
  {
    var e := t.edges[k];
    assert e in t.edges;
    ExpandedPlace(t, g, place, heads, firsts, e.from);
    ExpandedPlace(t, g, place, heads, firsts, e.to);
  }

  lemma ExpandedPlace(t: Topology, g: ViewGraph, place: map<VertexName, nat>, heads: seq<nat>,
    firsts: seq<nat>, name: VertexName)
    requires IsView(t, map[], g, place, heads, firsts) && Valid(t) && Declared(t.vertices, name)
    ensures name in place && place[name] < |g.nodes| && !g.nodes[place[name]].IsGroup()
  {
    EachVertexOnce(t, map[], g, place, heads, firsts, name);
    ExpandedNodes(t, g, place, heads, firsts);
  }

  /** No two edges of an expanded view take the same route. */
  lemma ExpandedRoutesDiffer(t: Topology, g: ViewGraph, place: map<VertexName, nat>, heads: seq<nat>,
    firsts: seq<nat>, j: nat, k: nat)
    requires IsView(t, map[], g, place, heads, firsts) && Valid(t) && j < |t.edges| && k < |t.edges|
    requires RouteOf(g.nodes, place, t.edges[j]) == RouteOf(g.nodes, place, t.edges[k])
    ensures j == k
  {
    ExpandedRoute(t, g, place, heads, firsts, j);
    ExpandedRoute(t, g, place, heads, firsts, k);
    SamePlace(t, g, place, heads, firsts, t.edges[j].from, t.edges[k].from);
    SamePlace(t, g, place, heads, firsts, t.edges[j].to, t.edges[k].to);
  }

  lemma ExpandedFirst(t: Topology, g: ViewGraph, place: map<VertexName, nat>, heads: seq<nat>, firsts: seq<nat>, k: nat)
    requires IsView(t, map[], g, place, heads, firsts) && Valid(t) && k < |t.edges|
    ensures k in firsts
  {
    ExpandedRoute(t, g, place, heads, firsts, k);
    assert Routed(g.nodes, place, t.edges, g.edges, firsts, k);
    var route := RouteOf(g.nodes, place, t.edges[k]).value;
    var i :| 0 <= i < |g.edges| && KeyOf(g.edges[i]) == route && firsts[i] <= k;
    ExpandedRoutesDiffer(t, g, place, heads, firsts, firsts[i], k);
  }

  lemma SamePlace(t: Topology, g: ViewGraph, place: map<VertexName, nat>, heads: seq<nat>, firsts: seq<nat>,
    a: VertexName, b: VertexName)
    requires IsView(t, map[], g, place, heads, firsts) && Valid(t)
    requires a in place && b in place && place[a] == place[b]
    ensures a == b
  {
    ExpandedNodes(t, g, place, heads, firsts);
    assert a in g.nodes[place[a]].members && b in g.nodes[place[a]].members;
  }

  lemma ExpandedEdge(t: Topology, g: ViewGraph, place: map<VertexName, nat>, heads: seq<nat>, firsts: seq<nat>, k: nat)
    requires IsView(t, map[], g, place, heads, firsts) && Valid(t) && k < |t.edges|
    requires |firsts| == |t.edges| && firsts[k] == k
    ensures var e := t.edges[k];
            && e.from in place && e.to in place
            && g.edges[k] == ViewOf(place, e)
  {
    var e, x := t.edges[k], g.edges[k];
    ExpandedRoute(t, g, place, heads, firsts, k);
    assert RouteOf(g.nodes, place, e) == Some(KeyOf(x));
    ExpandedTravellers(t, g, place, heads, firsts, k, KeyOf(x));
    assert Carries(g.nodes, place, t.edges, x);
    assert Pairs([e]) == [(e.from, e.to)];
  }

  lemma ExpandedTravellers(t: Topology, g: ViewGraph, place: map<VertexName, nat>, heads: seq<nat>,
    firsts: seq<nat>, k: nat, route: Route)
    requires IsView(t, map[], g, place, heads, firsts) && Valid(t) && k < |t.edges|
    requires RouteOf(g.nodes, place, t.edges[k]) == Some(route)
    ensures Travellers(g.nodes, place, t.edges, route) == [t.edges[k]]
  {
    forall j | 0 <= j < |t.edges| && j != k ensures RouteOf(g.nodes, place, t.edges[j]) != Some(route) {
      if RouteOf(g.nodes, place, t.edges[j]) == RouteOf(g.nodes, place, t.edges[k]) {
        ExpandedRoutesDiffer(t, g, place, heads, firsts, j, k);
      }
    }
    SoleTraveller(g.nodes, place, t.edges, route, k);
  }

  lemma {:induction false} SoleTraveller(nodes: seq<ViewNode>, place: map<VertexName, nat>, edges: seq<Edge>,
    route: Route, k: nat)
    requires k < |edges| && RouteOf(nodes, place, edges[k]) == Some(route)
    requires forall j :: 0 <= j < |edges| && j != k ==> RouteOf(nodes, place, edges[j]) != Some(route)
    ensures Travellers(nodes, place, edges, route) == [edges[k]]
  {
    var n := |edges| - 1;
    if k < n {
      SoleTraveller(nodes, place, edges[..n], route, k);
    } else {
      NoneTravels(nodes, place, edges[..n], route);
    }
  }
}
