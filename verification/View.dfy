/** The graph the layout sees: vertices, with shard groups collapsed into one node. */
module ViewGraphs {
  import opened Names
  import opened TopologyModel
  import opened Shards

  datatype ViewNode = ViewNode(title: string, kind: VertexKind, members: seq<VertexName>, partitions: nat) {
    predicate IsGroup() { |members| > 1 }
  }

  type Pair = (VertexName, VertexName)

  datatype ViewEdge = ViewEdge(from: nat, to: nat, tags: seq<string>, lossy: bool, members: seq<Pair>)

  datatype ViewGraph = ViewGraph(nodes: seq<ViewNode>, edges: seq<ViewEdge>)

  /** Accepted shard groups by stem; none when every vertex stays its own node. */
  type Groups = map<string, seq<VertexName>>

  function GroupOf(accepted: Groups, name: VertexName): Option<(string, seq<VertexName>)> {
    match ShardSplit(name)
    case None => None
    case Some((stem, _)) => if stem in accepted then Some((stem, accepted[stem])) else None
  }

  /** The vertices with a given stem, in spec order. */
  function Candidates(vertices: seq<Vertex>, stem: string): seq<VertexName> {
    if vertices == [] then []
    else
      var n := |vertices| - 1;
      Candidates(vertices[..n], stem) + if HasStem(vertices[n].name, stem) then [vertices[n].name] else []
  }

  /** Every group holds exactly the vertices of its stem, each once, and there are at least two. */
  ghost predicate GroupsOf(vertices: seq<Vertex>, accepted: Groups) {
    forall stem :: stem in accepted ==>
      |accepted[stem]| >= 2 && multiset(accepted[stem]) == multiset(Candidates(vertices, stem))
  }

  // ---- what building must achieve -----------------------------------------

  /** The node a vertex gives rise to. */
  function NodeFor(accepted: Groups, v: Vertex): ViewNode {
    match GroupOf(accepted, v.name)
    case None => ViewNode(v.name, v.kind, [v.name], v.partitions)
    case Some((stem, ms)) => ViewNode(stem + " ×" + NatString(|ms|), v.kind, ms, v.partitions)
  }

  /** What decides the node of a vertex: its own name, or the stem of its accepted group. */
  datatype Home = Own(name: VertexName) | Shared(stem: string)

  function HomeOf(accepted: Groups, name: VertexName): Home {
    match GroupOf(accepted, name)
    case None => Own(name)
    case Some((stem, _)) => Shared(stem)
  }

  /** `heads` are the vertices, in spec order, that come first in their node; each gives one node. */
  ghost predicate NodesFor(vertices: seq<Vertex>, accepted: Groups, nodes: seq<ViewNode>, heads: seq<nat>) {
    NodesUpTo(vertices, accepted, nodes, heads, |vertices|)
  }

  ghost predicate NodesUpTo(vertices: seq<Vertex>, accepted: Groups, nodes: seq<ViewNode>, heads: seq<nat>, n: nat) {
    && |heads| == |nodes| && n <= |vertices|
    && (forall i :: 0 <= i < |heads| ==> heads[i] < n && nodes[i] == NodeFor(accepted, vertices[heads[i]]))
    && (forall i, j :: 0 <= i < j < |heads| ==>
          heads[i] < heads[j] && HomeOf(accepted, vertices[heads[i]].name) != HomeOf(accepted, vertices[heads[j]].name))
    && (forall k :: 0 <= k < n ==> Headed(vertices, accepted, heads, k))
  }

  ghost predicate Headed(vertices: seq<Vertex>, accepted: Groups, heads: seq<nat>, k: nat)
    requires k < |vertices|
  {
    exists i :: 0 <= i < |heads| && heads[i] <= k < |vertices| &&
      HomeOf(accepted, vertices[heads[i]].name) == HomeOf(accepted, vertices[k].name)
  }

  /** The node of each vertex, as `node_of` records it. */
  ghost predicate Places(nodes: seq<ViewNode>, place: map<VertexName, nat>) {
    && (forall n :: n in place ==> place[n] < |nodes| && n in nodes[place[n]].members)
    && (forall i, n :: 0 <= i < |nodes| && n in nodes[i].members ==> n in place && place[n] == i)
  }

  /** Where a topology edge goes in the view: its ends' nodes and its normalised tags. */
  type Route = (nat, nat, seq<string>)

  function EndTags(nodes: seq<ViewNode>, at: nat, name: VertexName, tags: seq<string>): seq<string>
    requires at < |nodes|
  {
    if nodes[at].IsGroup() then NormTags(tags, ShardIndex(name)) else tags
  }

  /** No route for an edge between two different members of one group. */
  function RouteOf(nodes: seq<ViewNode>, place: map<VertexName, nat>, e: Edge): Option<Route> {
    if e.from !in place || e.to !in place then None
    else
      var from, to := place[e.from], place[e.to];
      if from >= |nodes| || to >= |nodes| then None
      else if from == to && nodes[from].IsGroup() && e.from != e.to then None
      else Some((from, to, EndTags(nodes, to, e.to, EndTags(nodes, from, e.from, TagStrings(e.conditions)))))
  }

  /** The topology edges that take a route, in order. */
  function Travellers(nodes: seq<ViewNode>, place: map<VertexName, nat>, edges: seq<Edge>, route: Route): seq<Edge> {
    if edges == [] then []
    else
      var n := |edges| - 1;
      Travellers(nodes, place, edges[..n], route)
        + if RouteOf(nodes, place, edges[n]) == Some(route) then [edges[n]] else []
  }

  function Pairs(edges: seq<Edge>): (r: seq<Pair>)
    ensures |r| == |edges| && forall i :: 0 <= i < |r| ==> r[i] == (edges[i].from, edges[i].to)
  {
    seq(|edges|, i requires 0 <= i < |edges| => (edges[i].from, edges[i].to))
  }

  function KeyOf(x: ViewEdge): Route {
    (x.from, x.to, x.tags)
  }

  /** A view edge carries exactly the topology edges that take its route, and drops if any of them does. */
  ghost predicate Carries(nodes: seq<ViewNode>, place: map<VertexName, nat>, edges: seq<Edge>, x: ViewEdge) {
    var es := Travellers(nodes, place, edges, KeyOf(x));
    && es != [] && x.members == Pairs(es)
    && (x.lossy <==> exists e :: e in es && e.onFull == DiscardLatest)
  }

  /** One view edge per route taken, in the order the routes are first taken: at `firsts`. */
  ghost predicate EdgesFor(
    nodes: seq<ViewNode>, place: map<VertexName, nat>, edges: seq<Edge>, view: seq<ViewEdge>, firsts: seq<nat>)
  {
    && |firsts| == |view|
    && (forall i :: 0 <= i < |view| ==> Carries(nodes, place, edges, view[i]))
    && (forall i, j :: 0 <= i < j < |view| ==> KeyOf(view[i]) != KeyOf(view[j]) && firsts[i] < firsts[j])
    && (forall i :: 0 <= i < |view| ==>
          firsts[i] < |edges| && RouteOf(nodes, place, edges[firsts[i]]) == Some(KeyOf(view[i])))
    && (forall k :: 0 <= k < |edges| ==> Routed(nodes, place, edges, view, firsts, k))
  }

  /** Edge `k` takes no route, or one that was first taken at or before `k`. */
  ghost predicate Routed(
    nodes: seq<ViewNode>, place: map<VertexName, nat>, edges: seq<Edge>, view: seq<ViewEdge>, firsts: seq<nat>, k: nat)
    requires k < |edges| && |firsts| == |view|
  {
    var route := RouteOf(nodes, place, edges[k]);
    route.Some? ==> exists i :: 0 <= i < |view| && KeyOf(view[i]) == route.value && firsts[i] <= k
  }

  // ---- building --------------------------------------------------------------

  predicate HasStem(name: VertexName, stem: string) {
    var split := ShardSplit(name);
    split.Some? && split.value.0 == stem
  }

  lemma {:induction false} CandidateIffStem(vertices: seq<Vertex>, stem: string, name: VertexName)
    ensures name in Candidates(vertices, stem) <==> Declared(vertices, name) && HasStem(name, stem)
  {
    if vertices != [] {
      var n := |vertices| - 1;
      CandidateIffStem(vertices[..n], stem, name);
      DeclaredSnoc(vertices, name);
    }
  }

  lemma GroupMember(vertices: seq<Vertex>, accepted: Groups, stem: string, name: VertexName)
    requires GroupsOf(vertices, accepted) && stem in accepted
    ensures name in accepted[stem] <==> Declared(vertices, name) && HasStem(name, stem)
  {
    CandidateIffStem(vertices, stem, name);
    assert name in accepted[stem] <==> name in multiset(accepted[stem]);
    assert name in Candidates(vertices, stem) <==> name in multiset(Candidates(vertices, stem));
  }

  /** The members of a vertex's node are the declared vertices of the same home. */
  lemma MembersShareHome(vertices: seq<Vertex>, accepted: Groups, v: Vertex, name: VertexName)
    requires GroupsOf(vertices, accepted) && v in vertices
    ensures name in NodeFor(accepted, v).members <==>
              Declared(vertices, name) && HomeOf(accepted, name) == HomeOf(accepted, v.name)
  {
    var home := HomeOf(accepted, v.name);
    if home.Shared? {
      GroupMember(vertices, accepted, home.stem, name);
    } else {
      var i :| 0 <= i < |vertices| && vertices[i] == v;
      assert Declared(vertices, v.name);
    }
  }

  /** A vertex that already has a place is headed by an earlier one. */
  lemma PlacedIsHeaded(vertices: seq<Vertex>, accepted: Groups, nodes: seq<ViewNode>,
    place: map<VertexName, nat>, heads: seq<nat>, k: nat)
    requires GroupsOf(vertices, accepted) && k < |vertices|
    requires NodesUpTo(vertices, accepted, nodes, heads, k) && Places(nodes, place)
    requires vertices[k].name in place
    ensures NodesUpTo(vertices, accepted, nodes, heads, k + 1)
  {
    var i := place[vertices[k].name];
    MembersShareHome(vertices, accepted, vertices[heads[i]], vertices[k].name);
    assert heads[i] <= k;
    assert Headed(vertices, accepted, heads, k);
  }

  /** A vertex without a place is of a home no earlier vertex has. */
  lemma UnplacedIsNew(vertices: seq<Vertex>, accepted: Groups, nodes: seq<ViewNode>, place: map<VertexName, nat>,
    i: nat, head: Vertex, name: VertexName)
    requires GroupsOf(vertices, accepted) && Declared(vertices, name) && head in vertices
    requires i < |nodes| && nodes[i] == NodeFor(accepted, head)
    requires Places(nodes, place) && name !in place
    ensures HomeOf(accepted, head.name) != HomeOf(accepted, name)
  {
    assert name !in nodes[i].members;
    MembersShareHome(vertices, accepted, head, name);
  }

  lemma HeadedMore(vertices: seq<Vertex>, accepted: Groups, heads: seq<nat>, k: nat, m: nat)
    requires m < k < |vertices| && Headed(vertices, accepted, heads, m)
    requires forall i :: 0 <= i < |heads| ==> heads[i] < |vertices|
    ensures Headed(vertices, accepted, heads + [k], m)
  {
    var i :| 0 <= i < |heads| && heads[i] <= m &&
      HomeOf(accepted, vertices[heads[i]].name) == HomeOf(accepted, vertices[m].name);
    assert (heads + [k])[i] == heads[i];
  }

  /** Every vertex so far is still headed, and a vertex without a place by itself. */
  lemma UnplacedCovers(vertices: seq<Vertex>, accepted: Groups, heads: seq<nat>, k: nat)
    requires k < |vertices| && forall i :: 0 <= i < |heads| ==> heads[i] < k
    requires forall m :: 0 <= m < k ==> Headed(vertices, accepted, heads, m)
    ensures forall m :: 0 <= m < k + 1 ==> Headed(vertices, accepted, heads + [k], m)
  {
    forall m | 0 <= m < k + 1 ensures Headed(vertices, accepted, heads + [k], m) {
      if m < k {
        HeadedMore(vertices, accepted, heads, k, m);
      } else {
        assert (heads + [k])[|heads|] == k;
      }
    }
  }

  /** It heads a node of its own. */
  lemma UnplacedHeads(vertices: seq<Vertex>, accepted: Groups, nodes: seq<ViewNode>,
    place: map<VertexName, nat>, heads: seq<nat>, k: nat)
    requires GroupsOf(vertices, accepted) && k < |vertices|
    requires NodesUpTo(vertices, accepted, nodes, heads, k) && Places(nodes, place)
    requires vertices[k].name !in place
    ensures NodesUpTo(vertices, accepted, nodes + [NodeFor(accepted, vertices[k])], heads + [k], k + 1)
  {
    assert Declared(vertices, vertices[k].name);
    forall i | 0 <= i < |heads|
      ensures HomeOf(accepted, vertices[heads[i]].name) != HomeOf(accepted, vertices[k].name) {
      UnplacedIsNew(vertices, accepted, nodes, place, i, vertices[heads[i]], vertices[k].name);
    }
    UnplacedCovers(vertices, accepted, heads, k);
  }

  /** None of its members has a place either. */
  lemma UnplacedMembers(vertices: seq<Vertex>, accepted: Groups, nodes: seq<ViewNode>,
    place: map<VertexName, nat>, heads: seq<nat>, k: nat)
    requires GroupsOf(vertices, accepted) && k < |vertices|
    requires NodesUpTo(vertices, accepted, nodes, heads, k) && Places(nodes, place)
    requires vertices[k].name !in place
    ensures forall n :: n in NodeFor(accepted, vertices[k]).members ==> n !in place
  {
    assert Declared(vertices, vertices[k].name);
    forall n | n in place ensures n !in NodeFor(accepted, vertices[k]).members {
      var i := place[n];
      MembersShareHome(vertices, accepted, vertices[k], n);
      MembersShareHome(vertices, accepted, vertices[heads[i]], n);
      UnplacedIsNew(vertices, accepted, nodes, place, i, vertices[heads[i]], vertices[k].name);
    }
  }

  method BuildNodes(vertices: seq<Vertex>, accepted: Groups)
    returns (nodes: seq<ViewNode>, place: map<VertexName, nat>, ghost heads: seq<nat>)
    requires GroupsOf(vertices, accepted)
    ensures NodesFor(vertices, accepted, nodes, heads) && Places(nodes, place)
  {
    nodes, place, heads := [], map[], [];
    for k := 0 to |vertices|
      invariant NodesUpTo(vertices, accepted, nodes, heads, k) && Places(nodes, place)
    {
      if vertices[k].name in place {
        PlacedIsHeaded(vertices, accepted, nodes, place, heads, k);
        continue;
      }
      UnplacedHeads(vertices, accepted, nodes, place, heads, k);
      UnplacedMembers(vertices, accepted, nodes, place, heads, k);
      var node := NodeFor(accepted, vertices[k]);
      place := PlaceAll(place, node.members, nodes, |nodes|);
      nodes, heads := nodes + [node], heads + [k];
    }
  }

  /** Record the new node's id for each of its members. */
  method PlaceAll(place: map<VertexName, nat>, members: seq<VertexName>, ghost nodes: seq<ViewNode>,
    id: nat) returns (r: map<VertexName, nat>)
    requires id == |nodes| && Places(nodes, place) && forall n :: n in members ==> n !in place
    ensures forall node: ViewNode :: node.members == members ==> Places(nodes + [node], r)
  {
    r := place;
    for i := 0 to |members|
      invariant forall n :: n in r <==> n in place || n in members[..i]
      invariant forall n :: n in r ==> r[n] == if n in members[..i] then id else place[n]
    {
      assert members[..i + 1] == members[..i] + [members[i]];
      r := r[members[i] := id];
    }
    assert members[..|members|] == members;
  }

  lemma TravellersSnoc(nodes: seq<ViewNode>, place: map<VertexName, nat>, edges: seq<Edge>, e: Edge, route: Route)
    ensures Travellers(nodes, place, edges + [e], route)
         == Travellers(nodes, place, edges, route) + if RouteOf(nodes, place, e) == Some(route) then [e] else []
  {
    assert (edges + [e])[..|edges|] == edges;
  }

  /** A view edge of another route carries what it did. */
  lemma CarriesElsewhere(nodes: seq<ViewNode>, place: map<VertexName, nat>, edges: seq<Edge>, e: Edge, x: ViewEdge)
    requires Carries(nodes, place, edges, x) && RouteOf(nodes, place, e) != Some(KeyOf(x))
    ensures Carries(nodes, place, edges + [e], x)
  {
    TravellersSnoc(nodes, place, edges, e, KeyOf(x));
  }

  lemma DropStep(nodes: seq<ViewNode>, place: map<VertexName, nat>, edges: seq<Edge>, e: Edge,
    view: seq<ViewEdge>, firsts: seq<nat>)
    requires EdgesFor(nodes, place, edges, view, firsts) && RouteOf(nodes, place, e).None?
    ensures EdgesFor(nodes, place, edges + [e], view, firsts)
  {
    forall i | 0 <= i < |view| ensures Carries(nodes, place, edges + [e], view[i]) {
      CarriesElsewhere(nodes, place, edges, e, view[i]);
    }
    RoutedGrows(nodes, place, edges, e, view, view, firsts, firsts);
  }

  /** Old edges stay routed when the view keeps its keys and may gain one. */
  lemma RoutedGrows(nodes: seq<ViewNode>, place: map<VertexName, nat>, edges: seq<Edge>, e: Edge,
                    view: seq<ViewEdge>, view': seq<ViewEdge>, firsts: seq<nat>, firsts': seq<nat>)
    requires |firsts| == |view| <= |view'| == |firsts'|
    requires forall i :: 0 <= i < |view| ==> KeyOf(view'[i]) == KeyOf(view[i]) && firsts'[i] == firsts[i]
    requires forall k :: 0 <= k < |edges| ==> Routed(nodes, place, edges, view, firsts, k)
    ensures forall k :: 0 <= k < |edges| ==> Routed(nodes, place, edges + [e], view', firsts', k)
  {
    forall k | 0 <= k < |edges| ensures Routed(nodes, place, edges + [e], view', firsts', k) {
      assert Routed(nodes, place, edges, view, firsts, k) && (edges + [e])[k] == edges[k];
      var route := RouteOf(nodes, place, edges[k]);
      if route.Some? {
        var i :| 0 <= i < |view| && KeyOf(view[i]) == route.value && firsts[i] <= k;
        assert KeyOf(view'[i]) == route.value && firsts'[i] <= k;
      }
    }
  }

  lemma MergeStep(nodes: seq<ViewNode>, place: map<VertexName, nat>, edges: seq<Edge>, e: Edge,
    view: seq<ViewEdge>, firsts: seq<nat>, at: nat)
    requires EdgesFor(nodes, place, edges, view, firsts)
    requires at < |view| && RouteOf(nodes, place, e) == Some(KeyOf(view[at]))
    ensures EdgesFor(nodes, place, edges + [e], view[at := Merged(view[at], e)], firsts)
  {
    var view' := view[at := Merged(view[at], e)];
    forall i | 0 <= i < |view| ensures Carries(nodes, place, edges + [e], view'[i]) {
      if i == at {
        MergedCarries(nodes, place, edges, e, view[at]);
      } else {
        assert KeyOf(view[i]) != KeyOf(view[at]);
        CarriesElsewhere(nodes, place, edges, e, view[i]);
      }
    }
    RoutedGrows(nodes, place, edges, e, view, view', firsts, firsts);
    assert Routed(nodes, place, edges + [e], view', firsts, |edges|) by {
      assert KeyOf(view'[at]) == KeyOf(view[at]) && firsts[at] <= |edges|;
    }
  }

  function Merged(x: ViewEdge, e: Edge): ViewEdge {
    x.(lossy := x.lossy || e.onFull == DiscardLatest, members := x.members + [(e.from, e.to)])
  }

  lemma MergedCarries(nodes: seq<ViewNode>, place: map<VertexName, nat>, edges: seq<Edge>, e: Edge, x: ViewEdge)
    requires Carries(nodes, place, edges, x) && RouteOf(nodes, place, e) == Some(KeyOf(x))
    ensures Carries(nodes, place, edges + [e], Merged(x, e))
  {
    TravellersSnoc(nodes, place, edges, e, KeyOf(x));
    var es := Travellers(nodes, place, edges, KeyOf(x));
    assert Pairs(es + [e]) == Pairs(es) + [(e.from, e.to)];
    forall f ensures f in es + [e] <==> f in es || f == e {
    }
  }

  lemma PushStep(nodes: seq<ViewNode>, place: map<VertexName, nat>, edges: seq<Edge>, e: Edge,
    view: seq<ViewEdge>, firsts: seq<nat>, x: ViewEdge)
    requires EdgesFor(nodes, place, edges, view, firsts)
    requires RouteOf(nodes, place, e) == Some(KeyOf(x)) && forall i :: 0 <= i < |view| ==> KeyOf(view[i]) != KeyOf(x)
    requires x.members == [(e.from, e.to)] && (x.lossy <==> e.onFull == DiscardLatest)
    ensures EdgesFor(nodes, place, edges + [e], view + [x], firsts + [|edges|])
  {
    PushCarries(nodes, place, edges, e, view, firsts, x);
    PushRoutes(nodes, place, edges, e, view, firsts, x);
  }

  lemma PushCarries(nodes: seq<ViewNode>, place: map<VertexName, nat>, edges: seq<Edge>, e: Edge,
    view: seq<ViewEdge>, firsts: seq<nat>, x: ViewEdge)
    requires EdgesFor(nodes, place, edges, view, firsts)
    requires RouteOf(nodes, place, e) == Some(KeyOf(x)) && forall i :: 0 <= i < |view| ==> KeyOf(view[i]) != KeyOf(x)
    requires x.members == [(e.from, e.to)] && (x.lossy <==> e.onFull == DiscardLatest)
    ensures forall i :: 0 <= i < |view + [x]| ==> Carries(nodes, place, edges + [e], (view + [x])[i])
  {
    forall i | 0 <= i < |view + [x]| ensures Carries(nodes, place, edges + [e], (view + [x])[i]) {
      if i < |view| {
        CarriesElsewhere(nodes, place, edges, e, view[i]);
      } else {
        FirstCarries(nodes, place, edges, e, view, firsts, x);
      }
    }
  }

  lemma PushRoutes(nodes: seq<ViewNode>, place: map<VertexName, nat>, edges: seq<Edge>, e: Edge,
    view: seq<ViewEdge>, firsts: seq<nat>, x: ViewEdge)
    requires |firsts| == |view| && RouteOf(nodes, place, e) == Some(KeyOf(x))
    requires forall k :: 0 <= k < |edges| ==> Routed(nodes, place, edges, view, firsts, k)
    ensures forall k :: 0 <= k < |edges + [e]| ==> Routed(nodes, place, edges + [e], view + [x], firsts + [|edges|], k)
  {
    var view', firsts' := view + [x], firsts + [|edges|];
    RoutedGrows(nodes, place, edges, e, view, view', firsts, firsts');
    assert Routed(nodes, place, edges + [e], view', firsts', |edges|) by {
      assert KeyOf(view'[|view|]) == KeyOf(x) && firsts'[|view|] == |edges|;
    }
  }

  lemma SoleCarries(nodes: seq<ViewNode>, place: map<VertexName, nat>, edges: seq<Edge>, e: Edge, x: ViewEdge)
    requires Travellers(nodes, place, edges, KeyOf(x)) == [e]
    requires x.members == [(e.from, e.to)] && (x.lossy <==> e.onFull == DiscardLatest)
    ensures Carries(nodes, place, edges, x)
  {
  }

  lemma FirstCarries(nodes: seq<ViewNode>, place: map<VertexName, nat>, edges: seq<Edge>, e: Edge,
    view: seq<ViewEdge>, firsts: seq<nat>, x: ViewEdge)
    requires EdgesFor(nodes, place, edges, view, firsts)
    requires RouteOf(nodes, place, e) == Some(KeyOf(x)) && forall i :: 0 <= i < |view| ==> KeyOf(view[i]) != KeyOf(x)
    requires x.members == [(e.from, e.to)] && (x.lossy <==> e.onFull == DiscardLatest)
    ensures Carries(nodes, place, edges + [e], x)
  {
    NoTravellers(nodes, place, edges, view, firsts, KeyOf(x));
    TravellersSnoc(nodes, place, edges, e, KeyOf(x));
    SoleCarries(nodes, place, edges + [e], e, x);
  }

  lemma {:induction false} TravellerIsRouted(nodes: seq<ViewNode>, place: map<VertexName, nat>,
    edges: seq<Edge>, route: Route, e: Edge)
    ensures e in Travellers(nodes, place, edges, route) <==> e in edges && RouteOf(nodes, place, e) == Some(route)
  {
    if edges != [] {
      var n := |edges| - 1;
      TravellerIsRouted(nodes, place, edges[..n], route, e);
      assert edges == edges[..n] + [edges[n]];
    }
  }

  lemma NoTravellers(nodes: seq<ViewNode>, place: map<VertexName, nat>, edges: seq<Edge>,
    view: seq<ViewEdge>, firsts: seq<nat>, route: Route)
    requires |firsts| == |view| && forall k :: 0 <= k < |edges| ==> Routed(nodes, place, edges, view, firsts, k)
    requires forall i :: 0 <= i < |view| ==> KeyOf(view[i]) != route
    ensures Travellers(nodes, place, edges, route) == []
  {
    forall k | 0 <= k < |edges| ensures RouteOf(nodes, place, edges[k]) != Some(route) {
      assert Routed(nodes, place, edges, view, firsts, k);
    }
    NoneTravels(nodes, place, edges, route);
  }

  lemma {:induction false} NoneTravels(nodes: seq<ViewNode>, place: map<VertexName, nat>, edges: seq<Edge>,
    route: Route)
    requires forall k :: 0 <= k < |edges| ==> RouteOf(nodes, place, edges[k]) != Some(route)
    ensures Travellers(nodes, place, edges, route) == []
  {
    if edges != [] {
      NoneTravels(nodes, place, edges[..|edges| - 1], route);
    }
  }

  method BuildEdges(nodes: seq<ViewNode>, place: map<VertexName, nat>, edges: seq<Edge>)
    returns (view: seq<ViewEdge>, ghost firsts: seq<nat>)
    requires Places(nodes, place)
    ensures EdgesFor(nodes, place, edges, view, firsts)
  {
    view, firsts := [], [];
    for k := 0 to |edges|
      invariant EdgesFor(nodes, place, edges[..k], view, firsts)
    {
      var e := edges[k];
      ghost var done := edges[..k];
      assert edges[..k + 1] == done + [e];
      if e.from !in place || e.to !in place {
        DropStep(nodes, place, done, e, view, firsts);
        continue;
      }
      var from, to := place[e.from], place[e.to];
      var tags := TagStrings(e.conditions);
      if nodes[from].IsGroup() {
        tags := NormTags(tags, ShardIndex(e.from));
      }
      if nodes[to].IsGroup() {
        tags := NormTags(tags, ShardIndex(e.to));
      }
      if from == to && nodes[from].IsGroup() && e.from != e.to {
        DropStep(nodes, place, done, e, view, firsts);
        continue;
      }
      var lossy := e.onFull == DiscardLatest;
      var at := FindRoute(view, (from, to, tags));
      if at < |view| {
        MergeStep(nodes, place, done, e, view, firsts, at);
        view := view[at := view[at].(lossy := view[at].lossy || lossy, members := view[at].members + [(e.from, e.to)])];
      } else {
        var x := ViewEdge(from, to, tags, lossy, [(e.from, e.to)]);
        PushStep(nodes, place, done, e, view, firsts, x);
        view, firsts := view + [x], firsts + [|done|];
      }
    }
    assert edges[..|edges|] == edges;
  }

  /** The first view edge of that route, or one past the end. */
  method FindRoute(view: seq<ViewEdge>, route: Route) returns (at: nat)
    ensures at <= |view| && (at < |view| ==> KeyOf(view[at]) == route)
    ensures forall i :: 0 <= i < at ==> KeyOf(view[i]) != route
  {
    at := 0;
    while at < |view| && KeyOf(view[at]) != route
      invariant at <= |view|
      invariant forall i :: 0 <= i < at ==> KeyOf(view[i]) != route
    {
      at := at + 1;
    }
  }
}
