/** Which shards collapse, and what a collapsed edge stands for. */
module ShardGroups {
  import opened Names
  import opened TopologyModel
  import opened Shards
  import opened Sorting
  import opened ViewGraphs
  import opened Collapse

  type Neighbours = set<(string, seq<string>)>

  datatype Signature = Signature(kind: VertexKind, partitions: nat, ins: Neighbours, outs: Neighbours)

  /** A vertex is a shard candidate when another vertex has its stem. */
  predicate IsCandidate(vertices: seq<Vertex>, name: VertexName) {
    var split := ShardSplit(name);
    split.Some? && |Candidates(vertices, split.value.0)| >= 2
  }

  /** How a neighbour is named in a signature: a candidate by its stem, accepted or not. */
  function Outside(vertices: seq<Vertex>, name: VertexName): string {
    if IsCandidate(vertices, name) then ShardSplit(name).value.0 else name
  }

  function TagsFor(name: VertexName, e: Edge): seq<string> {
    NormTags(TagStrings(e.conditions), ShardIndex(name))
  }

  function SignatureOf(t: Topology, name: VertexName): Signature {
    var v := Lookup(t.vertices, name);
    Signature(
      if v.Some? then v.value.kind else Map,
      if v.Some? then v.value.partitions else 1,
      set e | e in t.edges && e.to == name :: (Outside(t.vertices, e.from), TagsFor(name, e)),
      set e | e in t.edges && e.from == name :: (Outside(t.vertices, e.to), TagsFor(name, e)))
  }

  /** A stem collapses when it has at least two vertices and all of them look alike from outside. */
  predicate Collapses(t: Topology, stem: string) {
    var ms := Candidates(t.vertices, stem);
    |ms| >= 2 && forall i :: 0 <= i < |ms| ==> SignatureOf(t, ms[i]) == SignatureOf(t, ms[0])
  }

  function IndexKey(name: VertexName): nat {
    var split := ShardSplit(name);
    if split.Some? then split.value.1 else 0
  }

  predicate ByIndex(a: VertexName, b: VertexName) {
    IndexKey(a) <= IndexKey(b)
  }

  /** A stable sort by shard index. */
  function SortByIndex(names: seq<VertexName>): (r: seq<VertexName>)
    ensures multiset(r) == multiset(names)
  {
    SortKeeps(names, ByIndex);
    Sort(names, ByIndex)
  }

  /** Members of a group are shown in index order. */
  lemma MembersAscend(names: seq<VertexName>)
    ensures forall i, j :: 0 <= i < j < |SortByIndex(names)| ==>
        IndexKey(SortByIndex(names)[i]) <= IndexKey(SortByIndex(names)[j])
  {
    SortAscends(names, ByIndex);
    forall i, j | 0 <= i < j < |SortByIndex(names)|
      ensures IndexKey(SortByIndex(names)[i]) <= IndexKey(SortByIndex(names)[j]) {
      assert ByIndex(SortByIndex(names)[i], SortByIndex(names)[j]);
    }
  }

  /** The groups are all the stems that collapse, and only those. */
  ghost predicate AcceptsAll(t: Topology, accepted: Groups) {
    && (forall stem :: stem in accepted <==> Collapses(t, stem))
    && (forall stem :: stem in accepted ==> accepted[stem] == SortByIndex(Candidates(t.vertices, stem)))
  }

  /** Candidate groups by stem. */
  method ByStem(vertices: seq<Vertex>) returns (byStem: map<string, seq<VertexName>>)
    ensures forall stem :: stem in byStem <==> Candidates(vertices, stem) != []
    ensures forall stem :: stem in byStem ==> byStem[stem] == Candidates(vertices, stem)
  {
    byStem := map[];
    for k := 0 to |vertices|
      invariant forall stem :: stem in byStem <==> Candidates(vertices[..k], stem) != []
      invariant forall stem :: stem in byStem ==> byStem[stem] == Candidates(vertices[..k], stem)
    {
      assert vertices[..k + 1][..k] == vertices[..k];
      var split := ShardSplit(vertices[k].name);
      if split.Some? {
        var stem := split.value.0;
        byStem := byStem[stem := (if stem in byStem then byStem[stem] else []) + [vertices[k].name]];
      }
    }
    assert vertices[..|vertices|] == vertices;
  }

  /** The accepted groups: every stem whose vertices all have one signature, in order of index. */
  method Accept(t: Topology) returns (groups: Groups)
    ensures AcceptsAll(t, groups)
  {
    var byStem := ByStem(t.vertices);
    groups := map[];
    var todo := byStem.Keys;
    while todo != {}
      invariant todo <= byStem.Keys
      invariant forall stem :: stem in groups <==> stem in byStem.Keys - todo && Collapses(t, stem)
      invariant forall stem :: stem in groups ==> groups[stem] == SortByIndex(Candidates(t.vertices, stem))
      decreases todo
    {
      var stem :| stem in todo;
      todo := todo - {stem};
      var members := byStem[stem];
      assert members == Candidates(t.vertices, stem);
      if |members| >= 2 {
        var sig0 := SignatureOf(t, members[0]);
        if forall i :: 0 <= i < |members| ==> SignatureOf(t, members[i]) == sig0 {
          assert Collapses(t, stem);
          groups := groups[stem := SortByIndex(members)];
        }
      }
    }
  }

  /** Vertices of one stem with the same kind, partitions and outside neighbourhoods become one node. */
  method Collapsed(t: Topology)
    returns (g: ViewGraph, ghost accepted: Groups, ghost place: map<VertexName, nat>, ghost heads: seq<nat>,
      ghost firsts: seq<nat>)
    ensures AcceptsAll(t, accepted) && IsView(t, accepted, g, place, heads, firsts)
    ensures Conserves(t, g)
  {
    var groups := Accept(t);
    AcceptedAreGroups(t, groups);
    accepted := groups;
    g, place, heads, firsts := Build(t, groups);
  }

  lemma AcceptedAreGroups(t: Topology, accepted: Groups)
    requires forall stem :: stem in accepted ==>
        Collapses(t, stem) && accepted[stem] == SortByIndex(Candidates(t.vertices, stem))
    ensures GroupsOf(t.vertices, accepted)
  {
  }

  // ---- what a group is -------------------------------------------------------

  /** A node with several members is one accepted stem, all of it. */
  lemma GroupIsStem(t: Topology, accepted: Groups, g: ViewGraph, place: map<VertexName, nat>,
    heads: seq<nat>, firsts: seq<nat>, i: nat)
    returns (stem: string)
    requires IsView(t, accepted, g, place, heads, firsts) && i < |g.nodes| && g.nodes[i].IsGroup()
    ensures stem in accepted && g.nodes[i] == NodeFor(accepted, t.vertices[heads[i]])
    ensures HasStem(t.vertices[heads[i]].name, stem)
    ensures g.nodes[i].members == accepted[stem]
  {
    assert g.nodes[i] == NodeFor(accepted, t.vertices[heads[i]]);
    stem := ShardSplit(t.vertices[heads[i]].name).value.0;
  }

  lemma SameElements(a: seq<VertexName>, b: seq<VertexName>, x: VertexName)
    requires multiset(a) == multiset(b)
    ensures x in a <==> x in b
  {
    assert x in a <==> x in multiset(a);
    assert x in b <==> x in multiset(b);
  }

  lemma AlikeCandidates(t: Topology, stem: string, a: VertexName, b: VertexName)
    requires Collapses(t, stem) && a in Candidates(t.vertices, stem) && b in Candidates(t.vertices, stem)
    ensures SignatureOf(t, a) == SignatureOf(t, b)
  {
    var ms := Candidates(t.vertices, stem);
    var i :| 0 <= i < |ms| && ms[i] == a;
    var j :| 0 <= j < |ms| && ms[j] == b;
  }

  lemma AlikeInStem(t: Topology, accepted: Groups, stem: string, a: VertexName, b: VertexName)
    requires AcceptsAll(t, accepted) && GroupsOf(t.vertices, accepted) && stem in accepted
    requires a in accepted[stem] && b in accepted[stem]
    ensures SignatureOf(t, a) == SignatureOf(t, b)
  {
    SameElements(accepted[stem], Candidates(t.vertices, stem), a);
    SameElements(accepted[stem], Candidates(t.vertices, stem), b);
    AlikeCandidates(t, stem, a, b);
  }

  /** All members of a group share kind, partitions and neighbourhoods, and the node shows that kind. */
  lemma MembersAlike(t: Topology, accepted: Groups, g: ViewGraph, place: map<VertexName, nat>,
    heads: seq<nat>, firsts: seq<nat>, i: nat, a: VertexName, b: VertexName)
    requires Valid(t) && AcceptsAll(t, accepted) && IsView(t, accepted, g, place, heads, firsts)
    requires i < |g.nodes| && g.nodes[i].IsGroup() && a in g.nodes[i].members && b in g.nodes[i].members
    ensures SignatureOf(t, a) == SignatureOf(t, b)
    ensures Lookup(t.vertices, a).Some?
    ensures Lookup(t.vertices, a).value.kind == g.nodes[i].kind
    ensures Lookup(t.vertices, a).value.partitions == g.nodes[i].partitions
  {
    var stem := GroupIsStem(t, accepted, g, place, heads, firsts, i);
    AlikeInStem(t, accepted, stem, a, b);
    var head := t.vertices[heads[i]];
    assert Declared(t.vertices, head.name);
    GroupMember(t.vertices, accepted, stem, head.name);
    GroupMember(t.vertices, accepted, stem, a);
    AlikeInStem(t, accepted, stem, a, head.name);
    LookupIsUnique(t.vertices, head);
  }

  /** Grouping is all or nothing: the vertices of one stem share a node, or each has its own. */
  lemma AllOrNothing(t: Topology, accepted: Groups, g: ViewGraph, place: map<VertexName, nat>,
    heads: seq<nat>, firsts: seq<nat>, stem: string, a: VertexName, b: VertexName)
    requires Valid(t) && AcceptsAll(t, accepted) && IsView(t, accepted, g, place, heads, firsts)
    requires Declared(t.vertices, a) && Declared(t.vertices, b) && HasStem(a, stem) && HasStem(b, stem) && a != b
    ensures a in place && b in place
    ensures if Collapses(t, stem) then place[a] == place[b] && g.nodes[place[a]].IsGroup()
            else g.nodes[place[a]].members == [a] && g.nodes[place[b]].members == [b]
  {
    EachVertexOnce(t, accepted, g, place, heads, firsts, a);
    EachVertexOnce(t, accepted, g, place, heads, firsts, b);
    MembersShareHome(t.vertices, accepted, t.vertices[heads[place[a]]], a);
    MembersShareHome(t.vertices, accepted, t.vertices[heads[place[b]]], b);
    if Collapses(t, stem) {
      assert HomeOf(accepted, a) == HomeOf(accepted, b) == Shared(stem);
      MembersShareHome(t.vertices, accepted, t.vertices[heads[place[a]]], b);
      LoneMember(t, accepted, g, place, heads, firsts, a, b);
    }
  }

  // ---- what a collapsed edge stands for ----------------------------------------

  /** The end of an edge on the group's side, and the other one. */
  function Inner(e: Edge, into: bool): VertexName {
    if into then e.to else e.from
  }

  function Outer(e: Edge, into: bool): VertexName {
    if into then e.from else e.to
  }

  function NeighboursOf(sig: Signature, into: bool): Neighbours {
    if into then sig.ins else sig.outs
  }

  function Ends(x: nat, g: nat, into: bool): (nat, nat) {
    if into then (x, g) else (g, x)
  }

  /** A vertex with a node of its own. */
  ghost predicate Alone(g: ViewGraph, place: map<VertexName, nat>, x: VertexName) {
    x in place && place[x] < |g.nodes| && g.nodes[place[x]].members == [x]
  }

  /** How the edges between two vertices are tagged, seen from the second; there is one edge at most. */
  function TagsBetween(t: Topology, x: VertexName, m: VertexName, into: bool): set<seq<string>> {
    set e | e in t.edges && Outer(e, into) == x && Inner(e, into) == m :: TagsFor(m, e)
  }

  /** The vertex has no edge with any of these, or one with each, tagged alike. */
  ghost predicate TaggedAlike(t: Topology, x: VertexName, members: seq<VertexName>, into: bool) {
    forall m, n :: m in members && n in members ==> TagsBetween(t, x, m, into) == TagsBetween(t, x, n, into)
  }

  lemma InNeighbours(t: Topology, n: VertexName, e: Edge, into: bool)
    requires e in t.edges && Inner(e, into) == n
    ensures (Outside(t.vertices, Outer(e, into)), TagsFor(n, e)) in NeighboursOf(SignatureOf(t, n), into)
  {
  }

  lemma FromNeighbours(t: Topology, m: VertexName, into: bool, o: string, tags: seq<string>) returns (f: Edge)
    requires (o, tags) in NeighboursOf(SignatureOf(t, m), into)
    ensures f in t.edges && Inner(f, into) == m && Outside(t.vertices, Outer(f, into)) == o && TagsFor(m, f) == tags
  {
    if into {
      f :| f in t.edges && f.to == m && Outside(t.vertices, f.from) == o && TagsFor(m, f) == tags;
    } else {
      f :| f in t.edges && f.from == m && Outside(t.vertices, f.to) == o && TagsFor(m, f) == tags;
    }
  }

  lemma EdgeToEach(t: Topology, x: VertexName, members: seq<VertexName>, e: Edge, m: VertexName, into: bool)
    returns (f: Edge)
    requires TaggedAlike(t, x, members, into) && m in members
    requires e in t.edges && Outer(e, into) == x && Inner(e, into) in members
    ensures f in t.edges && Outer(f, into) == x && Inner(f, into) == m && TagsFor(m, f) == TagsFor(Inner(e, into), e)
  {
    var n := Inner(e, into);
    assert TagsFor(n, e) in TagsBetween(t, x, n, into);
    assert TagsFor(n, e) in TagsBetween(t, x, m, into);
    f :| f in t.edges && Outer(f, into) == x && Inner(f, into) == m && TagsFor(m, f) == TagsFor(n, e);
  }

  /** The route of an edge between a vertex alone and a group. */
  lemma AloneRoute(t: Topology, accepted: Groups, g: ViewGraph, place: map<VertexName, nat>,
    heads: seq<nat>, firsts: seq<nat>,
                       x: VertexName, gi: nat, e: Edge, into: bool)
    requires IsView(t, accepted, g, place, heads, firsts) && Alone(g, place, x)
    requires gi < |g.nodes| && g.nodes[gi].IsGroup() && Outer(e, into) == x && Inner(e, into) in g.nodes[gi].members
    ensures var ends := Ends(place[x], gi, into);
            RouteOf(g.nodes, place, e) == Some((ends.0, ends.1, TagsFor(Inner(e, into), e)))
  {
    RouteToGroup(g.nodes, place, gi, e, into);
  }

  lemma RouteToGroup(nodes: seq<ViewNode>, place: map<VertexName, nat>, gi: nat, e: Edge, into: bool)
    requires Places(nodes, place) && gi < |nodes| && nodes[gi].IsGroup() && Inner(e, into) in nodes[gi].members
    requires Outer(e, into) in place && nodes[place[Outer(e, into)]].members == [Outer(e, into)]
    ensures var ends := Ends(place[Outer(e, into)], gi, into);
            RouteOf(nodes, place, e) == Some((ends.0, ends.1, TagsFor(Inner(e, into), e)))
  {
    var m := Inner(e, into);
    assert m in place && place[m] == gi;
    RouteBetween(nodes, place, e, into);
  }

  /** One end alone, the other in a group: only the group's index is taken out of the tags. */
  lemma RouteBetween(nodes: seq<ViewNode>, place: map<VertexName, nat>, e: Edge, into: bool)
    requires e.from in place && e.to in place && place[e.from] < |nodes| && place[e.to] < |nodes|
    requires nodes[place[Inner(e, into)]].IsGroup() && !nodes[place[Outer(e, into)]].IsGroup()
    ensures RouteOf(nodes, place, e) == Some((place[e.from], place[e.to], TagsFor(Inner(e, into), e)))
  {
  }

  ghost predicate Between(x: ViewEdge, ends: (nat, nat)) {
    x.from == ends.0 && x.to == ends.1
  }

  /** One view edge joins the ends, and it has exactly one topology edge for every member of the group. */
  ghost predicate StandsForAll(g: ViewGraph, place: map<VertexName, nat>, x: VertexName, gi: nat, into: bool)
    requires x in place && gi < |g.nodes|
  {
    exists i :: 0 <= i < |g.edges| && OnlyAndWhole(g, place, x, gi, into, i)
  }

  ghost predicate OnlyAndWhole(g: ViewGraph, place: map<VertexName, nat>, x: VertexName, gi: nat, into: bool, i: nat)
    requires x in place && gi < |g.nodes| && i < |g.edges|
  {
    && (forall j :: 0 <= j < |g.edges| ==> (Between(g.edges[j], Ends(place[x], gi, into)) <==> j == i))
    && (forall m :: m in g.nodes[gi].members ==> CountPair(g.edges[i].members, if into then (x, m) else (m, x)) == 1)
    && (forall p :: p in g.edges[i].members ==>
          if into then p.0 == x && p.1 in g.nodes[gi].members else p.1 == x && p.0 in g.nodes[gi].members)
  }

  /** Everything a view edge between a vertex alone and a group carries joins the two. */
  lemma CarriedBetween(t: Topology, accepted: Groups, g: ViewGraph, place: map<VertexName, nat>,
    heads: seq<nat>, firsts: seq<nat>,
                       x: VertexName, gi: nat, into: bool, j: nat, e: Edge)
    requires Valid(t) && IsView(t, accepted, g, place, heads, firsts) && Alone(g, place, x)
    requires gi < |g.nodes| && j < |g.edges| && Between(g.edges[j], Ends(place[x], gi, into))
    requires e in Travellers(g.nodes, place, t.edges, KeyOf(g.edges[j]))
    ensures e in t.edges && RouteOf(g.nodes, place, e) == Some(KeyOf(g.edges[j]))
    ensures Outer(e, into) == x && Inner(e, into) in g.nodes[gi].members
  {
    TravellerIsRouted(g.nodes, place, t.edges, KeyOf(g.edges[j]), e);
    assert Outer(e, into) in g.nodes[place[x]].members;
  }

  lemma OneEdgeStandsForAll(t: Topology, accepted: Groups, g: ViewGraph, place: map<VertexName, nat>,
    heads: seq<nat>, firsts: seq<nat>,
                            x: VertexName, gi: nat, into: bool, e: Edge)
    requires Valid(t) && IsView(t, accepted, g, place, heads, firsts) && Alone(g, place, x)
    requires gi < |g.nodes| && g.nodes[gi].IsGroup()
    requires e in t.edges && Outer(e, into) == x && Inner(e, into) in g.nodes[gi].members
    requires TaggedAlike(t, x, g.nodes[gi].members, into)
    ensures StandsForAll(g, place, x, gi, into)
  {
    AloneRoute(t, accepted, g, place, heads, firsts, x, gi, e, into);
    var route := RouteOf(g.nodes, place, e).value;
    var k :| 0 <= k < |t.edges| && t.edges[k] == e;
    EachEdgeOnce(t, accepted, g, place, heads, firsts, k);
    var i :| 0 <= i < |g.edges| && KeyOf(g.edges[i]) == route;
    forall j | 0 <= j < |g.edges| ensures Between(g.edges[j], Ends(place[x], gi, into)) <==> j == i {
      if Between(g.edges[j], Ends(place[x], gi, into)) {
        SameRouteBetween(t, accepted, g, place, heads, firsts, x, gi, into, e, j);
        assert KeyOf(g.edges[i]) == KeyOf(g.edges[j]);
      }
    }
    forall m | m in g.nodes[gi].members ensures CountPair(g.edges[i].members, if into then (x, m) else (m, x)) == 1 {
      MemberCarried(t, accepted, g, place, heads, firsts, x, gi, into, e, i, m);
    }
    MembersJoin(t, accepted, g, place, heads, firsts, x, gi, into, i);
    assert OnlyAndWhole(g, place, x, gi, into, i);
  }

  /** Any view edge between the two takes the one route there is. */
  lemma SameRouteBetween(t: Topology, accepted: Groups, g: ViewGraph, place: map<VertexName, nat>,
    heads: seq<nat>, firsts: seq<nat>,
                         x: VertexName, gi: nat, into: bool, e: Edge, j: nat)
    requires Valid(t) && IsView(t, accepted, g, place, heads, firsts) && Alone(g, place, x)
    requires gi < |g.nodes| && g.nodes[gi].IsGroup()
    requires e in t.edges && Outer(e, into) == x && Inner(e, into) in g.nodes[gi].members
    requires j < |g.edges| && Between(g.edges[j], Ends(place[x], gi, into))
    requires TaggedAlike(t, x, g.nodes[gi].members, into)
    ensures RouteOf(g.nodes, place, e) == Some(KeyOf(g.edges[j]))
  {
    assert Carries(g.nodes, place, t.edges, g.edges[j]);
    var d := Travellers(g.nodes, place, t.edges, KeyOf(g.edges[j]))[0];
    CarriedBetween(t, accepted, g, place, heads, firsts, x, gi, into, j, d);
    var f := EdgeToEach(t, x, g.nodes[gi].members, e, Inner(d, into), into);
    OneEdgePerPair(t, d, f, into);
    AloneRoute(t, accepted, g, place, heads, firsts, x, gi, e, into);
    AloneRoute(t, accepted, g, place, heads, firsts, x, gi, d, into);
  }

  lemma OneEdgePerPair(t: Topology, d: Edge, f: Edge, into: bool)
    requires Valid(t) && d in t.edges && f in t.edges
    requires Outer(d, into) == Outer(f, into) && Inner(d, into) == Inner(f, into)
    ensures d == f
  {
    var i :| 0 <= i < |t.edges| && t.edges[i] == d;
    var j :| 0 <= j < |t.edges| && t.edges[j] == f;
    assert (t.edges[i].from, t.edges[i].to) == (t.edges[j].from, t.edges[j].to);
  }

  lemma RoutesAgree(t: Topology, accepted: Groups, g: ViewGraph, place: map<VertexName, nat>, heads: seq<nat>,
    firsts: seq<nat>, x: VertexName, gi: nat, into: bool, e: Edge, f: Edge)
    requires IsView(t, accepted, g, place, heads, firsts) && Alone(g, place, x)
    requires gi < |g.nodes| && g.nodes[gi].IsGroup() && Outer(e, into) == x && Outer(f, into) == x
    requires Inner(e, into) in g.nodes[gi].members && Inner(f, into) in g.nodes[gi].members
    requires TagsFor(Inner(e, into), e) == TagsFor(Inner(f, into), f)
    ensures RouteOf(g.nodes, place, f) == RouteOf(g.nodes, place, e)
  {
    AloneRoute(t, accepted, g, place, heads, firsts, x, gi, e, into);
    AloneRoute(t, accepted, g, place, heads, firsts, x, gi, f, into);
  }

  lemma PositionOf(edges: seq<Edge>, f: Edge) returns (k: nat)
    requires f in edges
    ensures k < |edges| && edges[k] == f
  {
    k :| 0 <= k < |edges| && edges[k] == f;
  }

  /** Every member has an edge like `e`, and it takes the same route. */
  lemma SameRouteToEach(t: Topology, accepted: Groups, g: ViewGraph, place: map<VertexName, nat>, heads: seq<nat>,
    firsts: seq<nat>, x: VertexName, gi: nat, into: bool, e: Edge, m: VertexName) returns (f: Edge)
    requires IsView(t, accepted, g, place, heads, firsts) && Alone(g, place, x)
    requires gi < |g.nodes| && g.nodes[gi].IsGroup() && m in g.nodes[gi].members
    requires e in t.edges && Outer(e, into) == x && Inner(e, into) in g.nodes[gi].members
    requires TaggedAlike(t, x, g.nodes[gi].members, into)
    ensures f in t.edges && Outer(f, into) == x && Inner(f, into) == m
    ensures RouteOf(g.nodes, place, f) == RouteOf(g.nodes, place, e)
  {
    f := EdgeToEach(t, x, g.nodes[gi].members, e, m, into);
    RoutesAgree(t, accepted, g, place, heads, firsts, x, gi, into, e, f);
  }

  lemma MemberCarried(t: Topology, accepted: Groups, g: ViewGraph, place: map<VertexName, nat>, heads: seq<nat>,
    firsts: seq<nat>, x: VertexName, gi: nat, into: bool, e: Edge, i: nat, m: VertexName)
    requires Valid(t) && IsView(t, accepted, g, place, heads, firsts) && Alone(g, place, x)
    requires gi < |g.nodes| && g.nodes[gi].IsGroup()
    requires e in t.edges && Outer(e, into) == x && Inner(e, into) in g.nodes[gi].members
    requires i < |g.edges| && RouteOf(g.nodes, place, e) == Some(KeyOf(g.edges[i])) && m in g.nodes[gi].members
    requires TaggedAlike(t, x, g.nodes[gi].members, into)
    ensures CountPair(g.edges[i].members, if into then (x, m) else (m, x)) == 1
  {
    var f := SameRouteToEach(t, accepted, g, place, heads, firsts, x, gi, into, e, m);
    var k := PositionOf(t.edges, f);
    EachEdgeOnce(t, accepted, g, place, heads, firsts, k);
  }

  lemma MembersJoin(t: Topology, accepted: Groups, g: ViewGraph, place: map<VertexName, nat>,
    heads: seq<nat>, firsts: seq<nat>,
                    x: VertexName, gi: nat, into: bool, i: nat)
    requires Valid(t) && IsView(t, accepted, g, place, heads, firsts) && Alone(g, place, x)
    requires gi < |g.nodes| && i < |g.edges| && Between(g.edges[i], Ends(place[x], gi, into))
    ensures forall p :: p in g.edges[i].members ==>
              if into then p.0 == x && p.1 in g.nodes[gi].members else p.1 == x && p.0 in g.nodes[gi].members
  {
    assert Carries(g.nodes, place, t.edges, g.edges[i]);
    var es := Travellers(g.nodes, place, t.edges, KeyOf(g.edges[i]));
    forall n | 0 <= n < |es| ensures Outer(es[n], into) == x && Inner(es[n], into) in g.nodes[gi].members {
      CarriedBetween(t, accepted, g, place, heads, firsts, x, gi, into, i, es[n]);
    }
  }

  /** No topology edge joins the two, and no view edge. */
  ghost predicate Apart(t: Topology, g: ViewGraph, place: map<VertexName, nat>, x: VertexName, gi: nat, into: bool)
    requires x in place && gi < |g.nodes|
  {
    && (forall j :: 0 <= j < |g.edges| ==> !Between(g.edges[j], Ends(place[x], gi, into)))
    && (forall e :: e in t.edges && Outer(e, into) == x ==> Inner(e, into) !in g.nodes[gi].members)
  }

  lemma NoEdgeIsApart(t: Topology, accepted: Groups, g: ViewGraph, place: map<VertexName, nat>,
    heads: seq<nat>, firsts: seq<nat>, x: VertexName, gi: nat, into: bool)
    requires Valid(t) && IsView(t, accepted, g, place, heads, firsts) && Alone(g, place, x) && gi < |g.nodes|
    requires forall e :: e in t.edges && Outer(e, into) == x ==> Inner(e, into) !in g.nodes[gi].members
    ensures Apart(t, g, place, x, gi, into)
  {
    forall j | 0 <= j < |g.edges| ensures !Between(g.edges[j], Ends(place[x], gi, into)) {
      assert Carries(g.nodes, place, t.edges, g.edges[j]);
      var e := Travellers(g.nodes, place, t.edges, KeyOf(g.edges[j]))[0];
      if Between(g.edges[j], Ends(place[x], gi, into)) {
        CarriedBetween(t, accepted, g, place, heads, firsts, x, gi, into, j, e);
      }
    }
  }

  lemma {:induction false} PairCounted(edges: seq<Edge>, p: Pair) returns (e: Edge)
    requires CountPair(Pairs(edges), p) > 0
    ensures e in edges && (e.from, e.to) == p
  {
    var n := |edges| - 1;
    if (edges[n].from, edges[n].to) == p {
      e := edges[n];
    } else {
      assert edges == edges[..n] + [edges[n]];
      PairsSnoc(edges[..n], edges[n], p);
      e := PairCounted(edges[..n], p);
    }
  }

  lemma OneTagging(t: Topology, x: VertexName, m: VertexName, into: bool, e: Edge)
    requires Valid(t) && e in t.edges && Outer(e, into) == x && Inner(e, into) == m
    ensures TagsBetween(t, x, m, into) == {TagsFor(m, e)}
  {
    forall f | f in t.edges && Outer(f, into) == x && Inner(f, into) == m ensures f == e {
      OneEdgePerPair(t, e, f, into);
    }
    assert TagsFor(m, e) in TagsBetween(t, x, m, into);
  }

  lemma CountedEdge(t: Topology, g: ViewGraph, place: map<VertexName, nat>, x: ViewEdge, p: Pair) returns (e: Edge)
    requires Carries(g.nodes, place, t.edges, x) && CountPair(x.members, p) > 0
    ensures e in t.edges && (e.from, e.to) == p && RouteOf(g.nodes, place, e) == Some(KeyOf(x))
  {
    e := PairCounted(Travellers(g.nodes, place, t.edges, KeyOf(x)), p);
    TravellerIsRouted(g.nodes, place, t.edges, KeyOf(x), e);
  }

  /** The topology edge between the vertex and one member that such a view edge stands for. */
  lemma MemberEdge(t: Topology, accepted: Groups, g: ViewGraph, place: map<VertexName, nat>,
    heads: seq<nat>, firsts: seq<nat>, x: VertexName, gi: nat, into: bool, i: nat, m: VertexName)
    requires Valid(t) && IsView(t, accepted, g, place, heads, firsts) && Alone(g, place, x)
    requires gi < |g.nodes| && g.nodes[gi].IsGroup() && i < |g.edges| && OnlyAndWhole(g, place, x, gi, into, i)
    requires m in g.nodes[gi].members
    ensures TagsBetween(t, x, m, into) == {g.edges[i].tags}
  {
    assert Carries(g.nodes, place, t.edges, g.edges[i]);
    var e := CountedEdge(t, g, place, g.edges[i], if into then (x, m) else (m, x));
    AloneRoute(t, accepted, g, place, heads, firsts, x, gi, e, into);
    OneTagging(t, x, m, into, e);
  }

  /**
   * Between a vertex alone in its node and a group there is no edge at all, or one view edge with exactly one
   * topology edge for every member, if and only if its edges to the members are tagged alike. `into` chooses
   * edges into the group or out of it.
   */
  lemma StandsForAllExact(t: Topology, accepted: Groups, g: ViewGraph, place: map<VertexName, nat>,
    heads: seq<nat>, firsts: seq<nat>, x: VertexName, gi: nat, into: bool)
    requires Valid(t) && IsView(t, accepted, g, place, heads, firsts) && Alone(g, place, x)
    requires gi < |g.nodes| && g.nodes[gi].IsGroup()
    ensures StandsForAll(g, place, x, gi, into) || Apart(t, g, place, x, gi, into)
            <==> TaggedAlike(t, x, g.nodes[gi].members, into)
  {
    var ms := g.nodes[gi].members;
    if TaggedAlike(t, x, ms, into) {
      if e :| e in t.edges && Outer(e, into) == x && Inner(e, into) in ms {
        OneEdgeStandsForAll(t, accepted, g, place, heads, firsts, x, gi, into, e);
      } else {
        NoEdgeIsApart(t, accepted, g, place, heads, firsts, x, gi, into);
      }
    }
    if StandsForAll(g, place, x, gi, into) {
      var i :| 0 <= i < |g.edges| && OnlyAndWhole(g, place, x, gi, into, i);
      forall m | m in ms ensures TagsBetween(t, x, m, into) == {g.edges[i].tags} {
        MemberEdge(t, accepted, g, place, heads, firsts, x, gi, into, i, m);
      }
    } else if Apart(t, g, place, x, gi, into) {
      forall m | m in ms ensures TagsBetween(t, x, m, into) == {} {
      }
    }
  }

  // ---- who is tagged alike -----------------------------------------------------------

  /** Neither a shard candidate nor named like a stem of two or more. */
  ghost predicate Bystander(vertices: seq<Vertex>, x: VertexName) {
    && Declared(vertices, x) && !IsCandidate(vertices, x)
    && forall stem :: stem == x ==> |Candidates(vertices, stem)| < 2
  }

  lemma BystanderAlone(t: Topology, accepted: Groups, g: ViewGraph, place: map<VertexName, nat>,
    heads: seq<nat>, firsts: seq<nat>, x: VertexName)
    requires AcceptsAll(t, accepted) && IsView(t, accepted, g, place, heads, firsts) && Bystander(t.vertices, x)
    ensures x in place && g.nodes[place[x]].members == [x]
  {
    EachVertexOnce(t, accepted, g, place, heads, firsts, x);
    MembersShareHome(t.vertices, accepted, t.vertices[heads[place[x]]], x);
    assert HomeOf(accepted, x) == Own(x);
  }

  /** In a signature, a bystander is nobody but itself. */
  lemma OutsideIsBystander(vertices: seq<Vertex>, x: VertexName, n: VertexName)
    requires Bystander(vertices, x) && Outside(vertices, n) == x
    ensures n == x
  {
  }

  /** A bystander's edges to the members of a group are tagged alike: its name in their signatures is its own. */
  lemma BystanderTagsAlike(t: Topology, accepted: Groups, stem: string, x: VertexName, into: bool)
    requires AcceptsAll(t, accepted) && GroupsOf(t.vertices, accepted) && stem in accepted && Bystander(t.vertices, x)
    ensures TaggedAlike(t, x, accepted[stem], into)
  {
    forall m, n, tags | m in accepted[stem] && n in accepted[stem] && tags in TagsBetween(t, x, m, into)
      ensures tags in TagsBetween(t, x, n, into) {
      var e :| e in t.edges && Outer(e, into) == x && Inner(e, into) == m && TagsFor(m, e) == tags;
      AlikeInStem(t, accepted, stem, m, n);
      InNeighbours(t, m, e, into);
      var f := FromNeighbours(t, n, into, x, tags);
      OutsideIsBystander(t.vertices, x, Outer(f, into));
    }
  }

  /** A collapsed edge of a bystander stands for all: none at all, or one for every member. */
  lemma CollapsedStandsForAll(t: Topology, accepted: Groups, g: ViewGraph, place: map<VertexName, nat>,
    heads: seq<nat>, firsts: seq<nat>, x: VertexName, gi: nat, into: bool)
    requires Valid(t) && AcceptsAll(t, accepted) && IsView(t, accepted, g, place, heads, firsts)
    requires Bystander(t.vertices, x)
    requires gi < |g.nodes| && g.nodes[gi].IsGroup()
    ensures x in place && (StandsForAll(g, place, x, gi, into) || Apart(t, g, place, x, gi, into))
  {
    BystanderAlone(t, accepted, g, place, heads, firsts, x);
    var stem := GroupIsStem(t, accepted, g, place, heads, firsts, gi);
    BystanderTagsAlike(t, accepted, stem, x, into);
    StandsForAllExact(t, accepted, g, place, heads, firsts, x, gi, into);
  }

  // ---- a vertex named like a stem -------------------------------------------------------

  lemma NotTaken(vertices: seq<Vertex>, k: nat, stem: string)
    requires k < |vertices| && !HasStem(vertices[k].name, stem)
    ensures Candidates(vertices[..k + 1], stem) == Candidates(vertices[..k], stem)
  {
    assert vertices[..k + 1][..k] == vertices[..k];
  }

  lemma TakenFirst(vertices: seq<Vertex>, k: nat, stem: string)
    requires k < |vertices| && HasStem(vertices[k].name, stem) && Candidates(vertices[..k], stem) == []
    ensures Candidates(vertices[..k + 1], stem) == [vertices[k].name]
  {
    assert vertices[..k + 1][..k] == vertices[..k];
  }

  lemma TakenSecond(vertices: seq<Vertex>, k: nat, stem: string, first: VertexName)
    requires k < |vertices| && HasStem(vertices[k].name, stem) && Candidates(vertices[..k], stem) == [first]
    ensures Candidates(vertices[..k + 1], stem) == [first, vertices[k].name]
  {
    assert vertices[..k + 1][..k] == vertices[..k];
  }

  /** A source named `s` beside its namesakes `s-0` and `s-1`, feeding one shard of a pair each. */
  ghost predicate Namesakes(t: Topology) {
    && |t.vertices| == 5 && |t.edges| == 2
    && t.vertices[0].name == "s" && t.vertices[1].name == "s-0" && t.vertices[2].name == "s-1"
    && t.vertices[3].name == "w-0" && t.vertices[4].name == "w-1"
    && t.vertices[3].kind == t.vertices[4].kind == Sink && t.vertices[3].partitions == t.vertices[4].partitions
    && t.edges[0] == Edge("s", "w-0", None, RetryUntilSuccess) &&
      t.edges[1] == Edge("s-0", "w-1", None, RetryUntilSuccess)
  }

  lemma NamesSplit()
    ensures ShardSplit("s") == None && ShardSplit("s-0") == Some(("s", 0)) && ShardSplit("s-1") == Some(("s", 1))
    ensures ShardSplit("w-0") == Some(("w", 0)) && ShardSplit("w-1") == Some(("w", 1))
  {
    OneDigit("s", '0');
    OneDigit("s", '1');
    OneDigit("w", '0');
    OneDigit("w", '1');
    assert "s" + "-" + "0" == "s-0" && "s" + "-" + "1" == "s-1" && "w" + "-" + "0" == "w-0" && "w" + "-" + "1" == "w-1";
  }

  lemma OneDigit(stem: string, digit: char)
    requires stem != "" && IsDigit(digit)
    ensures ShardSplit(stem + "-" + [digit]) == Some((stem, digit as int - '0' as int))
  {
    var name := stem + "-" + [digit];
    LastDashIs(stem, [digit]);
    assert [digit][..0] == "" && DigitsValue([digit]) == digit as int - '0' as int;
    assert name[..|stem|] == stem && name[|stem| + 1..] == [digit];
  }

  lemma NamesHaveStems()
    ensures !HasStem("s", "s") && HasStem("s-0", "s") && HasStem("s-1", "s") && !HasStem("w-0", "s")
    ensures !HasStem("w-1", "s")
    ensures !HasStem("s", "w") && !HasStem("s-0", "w") && !HasStem("s-1", "w") && HasStem("w-0", "w")
    ensures HasStem("w-1", "w")
  {
    NamesSplit();
    assert "s"[0] != "w"[0];
  }

  lemma MiddlePair(vs: seq<Vertex>, stem: string)
    requires |vs| == 5 && HasStem(vs[1].name, stem) && HasStem(vs[2].name, stem)
    requires !HasStem(vs[0].name, stem) && !HasStem(vs[3].name, stem) && !HasStem(vs[4].name, stem)
    ensures Candidates(vs, stem) == [vs[1].name, vs[2].name]
  {
    NotTaken(vs, 0, stem);
    TakenFirst(vs, 1, stem);
    TakenSecond(vs, 2, stem, vs[1].name);
    NotTaken(vs, 3, stem);
    NotTaken(vs, 4, stem);
    assert vs[..0] == [] && vs[..5] == vs;
  }

  lemma LastPair(vs: seq<Vertex>, stem: string)
    requires |vs| == 5 && HasStem(vs[3].name, stem) && HasStem(vs[4].name, stem)
    requires !HasStem(vs[0].name, stem) && !HasStem(vs[1].name, stem) && !HasStem(vs[2].name, stem)
    ensures Candidates(vs, stem) == [vs[3].name, vs[4].name]
  {
    NotTaken(vs, 0, stem);
    NotTaken(vs, 1, stem);
    NotTaken(vs, 2, stem);
    TakenFirst(vs, 3, stem);
    TakenSecond(vs, 4, stem, vs[3].name);
    assert vs[..0] == [] && vs[..5] == vs;
  }

  lemma NamesakeCandidates(t: Topology)
    requires Namesakes(t)
    ensures Candidates(t.vertices, "s") == ["s-0", "s-1"] && Candidates(t.vertices, "w") == ["w-0", "w-1"]
  {
    NamesHaveStems();
    MiddlePair(t.vertices, "s");
    LastPair(t.vertices, "w");
  }

  /** The neighbourhoods of a vertex with one edge, into it. */
  lemma LoneIn(t: Topology, n: VertexName, e: Edge)
    requires e in t.edges && e.to == n && forall f :: f in t.edges ==> (f.to == n ==> f == e) && f.from != n
    ensures SignatureOf(t, n).ins == {(Outside(t.vertices, e.from), TagsFor(n, e))} && SignatureOf(t, n).outs == {}
  {
  }

  lemma NamesakeEdges(t: Topology)
    requires Namesakes(t)
    ensures forall f :: f in t.edges ==> f == t.edges[0] || f == t.edges[1]
    ensures t.edges[0] in t.edges && t.edges[1] in t.edges
  {
  }

  lemma NamesakeOutsides(t: Topology)
    requires Namesakes(t)
    ensures Outside(t.vertices, "s") == "s" && Outside(t.vertices, "s-0") == "s"
  {
    NamesSplit();
    NamesakeCandidates(t);
  }

  lemma NamesakeSignatures(t: Topology)
    requires Valid(t) && Namesakes(t)
    ensures SignatureOf(t, "w-0") == SignatureOf(t, "w-1")
  {
    NamesakeOutsides(t);
    NamesakeEdges(t);
    LookupIsUnique(t.vertices, t.vertices[3]);
    LookupIsUnique(t.vertices, t.vertices[4]);
    DifferentNames();
    NoTags();
    LoneIn(t, "w-0", t.edges[0]);
    LoneIn(t, "w-1", t.edges[1]);
  }

  lemma NoTags()
    ensures forall idx :: NormTags([], idx) == []
  {
  }

  lemma DifferentNames()
    ensures "s" != "w-0" && "s-0" != "w-0" && "s-1" != "w-0" && "s" != "w-1" && "s-0" != "w-1" && "s-1" != "w-1"
    ensures "w-0" != "w-1" && "s-0" != "s"
  {
    assert "s"[0] != "w-0"[0] && "w-0"[2] != "w-1"[2];
  }

  lemma OneShardOnly(t: Topology)
    requires Namesakes(t)
    ensures !TaggedAlike(t, "s", ["w-0", "w-1"], true)
  {
    DifferentNames();
    NamesakeEdges(t);
    assert TagsFor("w-0", t.edges[0]) in TagsBetween(t, "s", "w-0", true);
    assert TagsBetween(t, "s", "w-1", true) == {};
    assert "w-0" in ["w-0", "w-1"] && "w-1" in ["w-0", "w-1"];
  }

  /** The pair collapses, though the source and its namesake feed one shard each: both go by the same stem. */
  lemma NamesakeStandsForOne(t: Topology)
    requires Valid(t) && Namesakes(t)
    ensures Candidates(t.vertices, "w") == ["w-0", "w-1"] && Collapses(t, "w")
    ensures !TaggedAlike(t, "s", ["w-0", "w-1"], true)
  {
    NamesakeCandidates(t);
    NamesakeSignatures(t);
    OneShardOnly(t);
    PairCollapses(t, "w", "w-0", "w-1");
  }

  lemma PairCollapses(t: Topology, stem: string, a: VertexName, b: VertexName)
    requires Candidates(t.vertices, stem) == [a, b] && SignatureOf(t, a) == SignatureOf(t, b)
    ensures Collapses(t, stem)
  {
  }

  // ---- edges between two groups --------------------------------------------------

  /** A member of an accepted group goes by its stem in every signature. */
  lemma OutsideIsStem(t: Topology, accepted: Groups, stem: string, n: VertexName)
    requires AcceptsAll(t, accepted) && GroupsOf(t.vertices, accepted) && stem in accepted && n in accepted[stem]
    ensures Outside(t.vertices, n) == stem
  {
    GroupMember(t.vertices, accepted, stem, n);
  }

  /** What goes by a stem that is no vertex's name is a member of its group. */
  lemma StemIsMember(t: Topology, accepted: Groups, stem: string, n: VertexName)
    requires AcceptsAll(t, accepted) && GroupsOf(t.vertices, accepted) && stem in accepted
    requires Declared(t.vertices, n) && n != stem && Outside(t.vertices, n) == stem
    ensures n in accepted[stem]
  {
    GroupMember(t.vertices, accepted, stem, n);
  }

  ghost predicate NoVertexNamed(vertices: seq<Vertex>, stem: string) {
    forall i :: 0 <= i < |vertices| ==> vertices[i].name != stem
  }

  /** If one member of a group has an edge to another group, or from it, so has every member. */
  lemma EachJoinsGroup(t: Topology, accepted: Groups, inner: string, outer: string, e: Edge, m: VertexName, into: bool)
    returns (f: Edge)
    requires Valid(t) && AcceptsAll(t, accepted) && GroupsOf(t.vertices, accepted) && inner in accepted
    requires outer in accepted
    requires NoVertexNamed(t.vertices, outer)
    requires e in t.edges && Inner(e, into) in accepted[inner] && Outer(e, into) in accepted[outer]
    requires m in accepted[inner]
    ensures f in t.edges && Inner(f, into) == m && Outer(f, into) in accepted[outer]
  {
    var n := Inner(e, into);
    AlikeInStem(t, accepted, inner, n, m);
    InNeighbours(t, n, e, into);
    OutsideIsStem(t, accepted, outer, Outer(e, into));
    f := FromNeighbours(t, m, into, outer, TagsFor(n, e));
    StemIsMember(t, accepted, outer, Outer(f, into));
  }

  /** The vertex has an edge into the group, or from it. */
  ghost predicate JoinsGroup(t: Topology, m: VertexName, group: seq<VertexName>, into: bool) {
    exists f :: f in t.edges && Inner(f, into) == m && Outer(f, into) in group
  }

  lemma EachJoins(t: Topology, accepted: Groups, inner: string, outer: string, e: Edge, into: bool)
    requires Valid(t) && AcceptsAll(t, accepted) && GroupsOf(t.vertices, accepted) && inner in accepted
    requires outer in accepted
    requires NoVertexNamed(t.vertices, outer)
    requires e in t.edges && Inner(e, into) in accepted[inner] && Outer(e, into) in accepted[outer]
    ensures forall m :: m in accepted[inner] ==> JoinsGroup(t, m, accepted[outer], into)
  {
    forall m | m in accepted[inner] ensures JoinsGroup(t, m, accepted[outer], into) {
      var f := EachJoinsGroup(t, accepted, inner, outer, e, m, into);
    }
  }

  /**
   * Edges between two groups are total both ways: when neither stem is a vertex's name and one member of
   * the first has an edge into the second, every member of the first has one into the second and every
   * member of the second has one from the first.
   */
  lemma GroupsJoinTotally(t: Topology, accepted: Groups, first: string, second: string, e: Edge)
    requires Valid(t) && AcceptsAll(t, accepted) && GroupsOf(t.vertices, accepted) && first in accepted
    requires second in accepted
    requires NoVertexNamed(t.vertices, first) && NoVertexNamed(t.vertices, second)
    requires e in t.edges && e.from in accepted[first] && e.to in accepted[second]
    ensures forall a :: a in accepted[first] ==> JoinsGroup(t, a, accepted[second], false)
    ensures forall b :: b in accepted[second] ==> JoinsGroup(t, b, accepted[first], true)
  {
    EachJoins(t, accepted, first, second, e, false);
    EachJoins(t, accepted, second, first, e, true);
  }
}
