/** A pipeline's vertices and edges, validated when they are put together. */
module TopologyModel {
  import opened Names

  datatype VertexKind = Source | Sink | Map | Reduce

  datatype ScaleSpec = ScaleSpec(min: Option<nat>, max: Option<nat>, disabled: bool)

  datatype Vertex = Vertex(
    name: VertexName, kind: VertexKind, partitions: nat, scale: ScaleSpec, image: Option<string>)

  datatype TagOperator = Or | And | Not

  datatype TagCondition = TagCondition(operator: TagOperator, values: seq<string>)

  datatype OnFull = RetryUntilSuccess | DiscardLatest

  datatype Edge = Edge(from: VertexName, to: VertexName, conditions: Option<TagCondition>, onFull: OnFull)

  datatype TopologyError =
    | Empty
    | DuplicateVertex(name: VertexName)
    | DanglingEdge(from: VertexName, to: VertexName)
    | DuplicateEdge(from: VertexName, to: VertexName)
    | EdgeIntoSource(name: VertexName)
    | EdgeOutOfSink(name: VertexName)

  datatype Topology = Topology(vertices: seq<Vertex>, edges: seq<Edge>)

  /** The first vertex of that name, as every lookup in the source finds it. */
  function Lookup(vertices: seq<Vertex>, name: VertexName): (v: Option<Vertex>)
    ensures v.Some? ==> v.value in vertices && v.value.name == name
    ensures v.None? <==> forall i :: 0 <= i < |vertices| ==> vertices[i].name != name
  {
    if vertices == [] then None
    else if vertices[0].name == name then Some(vertices[0])
    else Lookup(vertices[1..], name)
  }

  ghost predicate DistinctNames(vertices: seq<Vertex>) {
    forall i, j :: 0 <= i < j < |vertices| ==> vertices[i].name != vertices[j].name
  }

  ghost predicate Declared(vertices: seq<Vertex>, name: VertexName) {
    exists i :: 0 <= i < |vertices| && vertices[i].name == name
  }

  lemma DeclaredSnoc(vertices: seq<Vertex>, name: VertexName)
    requires vertices != []
    ensures Declared(vertices, name) <==>
        Declared(vertices[..|vertices| - 1], name) || vertices[|vertices| - 1].name == name
  {
    var n := |vertices| - 1;
    if i :| 0 <= i < |vertices| && vertices[i].name == name {
      assert i < n ==> vertices[..n][i].name == name;
    }
    if i :| 0 <= i < n && vertices[..n][i].name == name {
      assert vertices[i].name == name;
    }
  }

  ghost predicate DistinctEnds(edges: seq<Edge>) {
    forall i, j :: 0 <= i < j < |edges| ==> (edges[i].from, edges[i].to) != (edges[j].from, edges[j].to)
  }

  /** What the documentation promises of a topology. */
  ghost predicate Valid(t: Topology) {
    && t.vertices != []
    && DistinctNames(t.vertices)
    && (forall e :: e in t.edges ==> Declared(t.vertices, e.from) && Declared(t.vertices, e.to))
    && DistinctEnds(t.edges)
    && (forall e, v :: e in t.edges && v in t.vertices && v.name == e.to ==> v.kind != Source)
    && (forall e, v :: e in t.edges && v in t.vertices && v.name == e.from ==> v.kind != Sink)
  }

  /** The first of the four checks that edge `i` fails, given the edges before it. */
  function EdgeError(vertices: seq<Vertex>, edges: seq<Edge>, i: nat): Option<TopologyError>
    requires i < |edges|
  {
    var e := edges[i];
    var from, to := Lookup(vertices, e.from), Lookup(vertices, e.to);
    if from.None? || to.None? then Some(DanglingEdge(e.from, e.to))
    else if exists j :: 0 <= j < i && edges[j].from == e.from && edges[j].to == e.to
    then Some(DuplicateEdge(e.from, e.to))
    else if to.value.kind == Source then Some(EdgeIntoSource(e.to))
    else if from.value.kind == Sink then Some(EdgeOutOfSink(e.from))
    else None
  }

  ghost predicate RepeatsName(vertices: seq<Vertex>, k: nat) {
    && k < |vertices|
    && DistinctNames(vertices[..k])
    && Declared(vertices[..k], vertices[k].name)
  }

  ghost predicate FirstBadEdge(vertices: seq<Vertex>, edges: seq<Edge>, i: nat, err: TopologyError) {
    && i < |edges|
    && (forall j :: 0 <= j < i ==> EdgeError(vertices, edges, j).None?)
    && EdgeError(vertices, edges, i) == Some(err)
  }

  /** `err` is the earliest violation, in the order the source looks for them. */
  ghost predicate Blames(vertices: seq<Vertex>, edges: seq<Edge>, err: TopologyError) {
    match err
    case Empty => vertices == []
    case DuplicateVertex(name) => exists k: nat :: RepeatsName(vertices, k) && vertices[k].name == name
    case _ => vertices != [] && DistinctNames(vertices) && exists i: nat :: FirstBadEdge(vertices, edges, i, err)
  }

  function RepeatFrom(vertices: seq<Vertex>, k: nat): Option<VertexName>
    requires k <= |vertices|
    decreases |vertices| - k
  {
    if k == |vertices| then None
    else if exists j :: 0 <= j < k && vertices[j].name == vertices[k].name then Some(vertices[k].name)
    else RepeatFrom(vertices, k + 1)
  }

  function EdgeErrorFrom(vertices: seq<Vertex>, edges: seq<Edge>, i: nat): Option<TopologyError>
    requires i <= |edges|
    decreases |edges| - i
  {
    if i == |edges| then None
    else
      var err := EdgeError(vertices, edges, i);
      if err.Some? then err else EdgeErrorFrom(vertices, edges, i + 1)
  }

  /** What validation comes to. */
  function Checked(vertices: seq<Vertex>, edges: seq<Edge>): Result<Topology, TopologyError> {
    if vertices == [] then Err(Empty)
    else
      var repeated, bad := RepeatFrom(vertices, 0), EdgeErrorFrom(vertices, edges, 0);
      if repeated.Some? then Err(DuplicateVertex(repeated.value))
      else if bad.Some? then Err(bad.value)
      else Ok(Topology(vertices, edges))
  }

  /** Validate and build; vertex order is the spec order. */
  method New(vertices: seq<Vertex>, edges: seq<Edge>) returns (r: Result<Topology, TopologyError>)
    ensures r == Checked(vertices, edges)
  {
    if vertices == [] {
      return Err(Empty);
    }
    var seen: set<VertexName> := {};
    for k := 0 to |vertices|
      invariant RepeatFrom(vertices, 0) == RepeatFrom(vertices, k)
      invariant forall n :: n in seen <==> exists j :: 0 <= j < k && vertices[j].name == n
    {
      if vertices[k].name in seen {
        return Err(DuplicateVertex(vertices[k].name));
      }
      seen := seen + {vertices[k].name};
    }
    var seenEdges: set<(VertexName, VertexName)> := {};
    for i := 0 to |edges|
      invariant EdgeErrorFrom(vertices, edges, 0) == EdgeErrorFrom(vertices, edges, i)
      invariant forall a, b :: (a, b) in seenEdges <==> exists j :: 0 <= j < i && edges[j].from == a && edges[j].to == b
    {
      var e := edges[i];
      var from, to := Lookup(vertices, e.from), Lookup(vertices, e.to);
      if from.None? || to.None? {
        return Err(DanglingEdge(e.from, e.to));
      }
      if (e.from, e.to) in seenEdges {
        return Err(DuplicateEdge(e.from, e.to));
      }
      seenEdges := seenEdges + {(e.from, e.to)};
      if to.value.kind == Source {
        return Err(EdgeIntoSource(e.to));
      }
      if from.value.kind == Sink {
        return Err(EdgeOutOfSink(e.from));
      }
    }
    return Ok(Topology(vertices, edges));
  }

  lemma {:induction false} RepeatFromFinds(vertices: seq<Vertex>, k: nat)
    requires k <= |vertices| && DistinctNames(vertices[..k])
    ensures RepeatFrom(vertices, k).None? ==> DistinctNames(vertices)
    ensures RepeatFrom(vertices, k).Some? ==>
              exists m: nat :: RepeatsName(vertices, m) && vertices[m].name == RepeatFrom(vertices, k).value
    decreases |vertices| - k
  {
    if k == |vertices| {
      assert vertices[..k] == vertices;
    } else if j :| 0 <= j < k && vertices[j].name == vertices[k].name {
      assert vertices[..k][j].name == vertices[k].name;
      assert RepeatsName(vertices, k);
    } else {
      assert vertices[..k + 1] == vertices[..k] + [vertices[k]];
      RepeatFromFinds(vertices, k + 1);
    }
  }

  lemma {:induction false} EdgeErrorFromFinds(vertices: seq<Vertex>, edges: seq<Edge>, i: nat)
    requires i <= |edges| && forall j :: 0 <= j < i ==> EdgeError(vertices, edges, j).None?
    ensures EdgeErrorFrom(vertices, edges, i).None? ==> forall j :: 0 <= j < |edges| ==>
        EdgeError(vertices, edges, j).None?
    ensures EdgeErrorFrom(vertices, edges, i).Some? ==>
              exists m: nat :: FirstBadEdge(vertices, edges, m, EdgeErrorFrom(vertices, edges, i).value)
    decreases |edges| - i
  {
    if i < |edges| {
      if EdgeError(vertices, edges, i).Some? {
        assert FirstBadEdge(vertices, edges, i, EdgeError(vertices, edges, i).value);
      } else {
        EdgeErrorFromFinds(vertices, edges, i + 1);
      }
    }
  }

  /** Validation accepts exactly the valid topologies, keeps them as they are, and blames the earliest violation. */
  lemma CheckedMeans(vertices: seq<Vertex>, edges: seq<Edge>)
    ensures var r := Checked(vertices, edges);
            && (r.Ok? <==> Valid(Topology(vertices, edges)))
            && (r.Ok? ==> r.value == Topology(vertices, edges))
            && (r.Err? ==> Blames(vertices, edges, r.error))
  {
    if vertices != [] {
      RepeatFromFinds(vertices, 0);
      EdgeErrorFromFinds(vertices, edges, 0);
      DistinctNeverRepeats(vertices);
      if RepeatFrom(vertices, 0).None? {
        if EdgeErrorFrom(vertices, edges, 0).None? {
          CleanIsValid(vertices, edges);
        } else {
          BadEdgeRefutes(vertices, edges, EdgeErrorFrom(vertices, edges, 0).value);
        }
      }
    }
  }

  lemma BadEdgeRefutes(vertices: seq<Vertex>, edges: seq<Edge>, err: TopologyError)
    requires exists m: nat :: FirstBadEdge(vertices, edges, m, err)
    ensures !Valid(Topology(vertices, edges))
    ensures !err.Empty? && !err.DuplicateVertex?
  {
    var m: nat :| FirstBadEdge(vertices, edges, m, err);
    EdgeErrorRefutes(vertices, edges, m);
  }

  lemma EdgeErrorRefutes(vertices: seq<Vertex>, edges: seq<Edge>, i: nat)
    requires i < |edges| && EdgeError(vertices, edges, i).Some?
    ensures !Valid(Topology(vertices, edges))
  {
    assert edges[i] in edges;
  }

  lemma LookupIsUnique(vertices: seq<Vertex>, v: Vertex)
    requires DistinctNames(vertices) && v in vertices
    ensures Lookup(vertices, v.name) == Some(v)
  {
    var i :| 0 <= i < |vertices| && vertices[i] == v;
    var u := Lookup(vertices, v.name).value;
    var j :| 0 <= j < |vertices| && vertices[j] == u;
    assert vertices[i].name == vertices[j].name;
  }

  lemma CleanIsValid(vertices: seq<Vertex>, edges: seq<Edge>)
    requires vertices != [] && DistinctNames(vertices)
    requires forall i :: 0 <= i < |edges| ==> EdgeError(vertices, edges, i).None?
    ensures Valid(Topology(vertices, edges))
  {
    forall e, v | e in edges && v in vertices
      ensures v.name == e.to ==> v.kind != Source
      ensures v.name == e.from ==> v.kind != Sink
    {
      var i :| 0 <= i < |edges| && edges[i] == e;
      assert EdgeError(vertices, edges, i).None?;
      LookupIsUnique(vertices, v);
    }
    forall e | e in edges ensures Declared(vertices, e.from) && Declared(vertices, e.to) {
      var i :| 0 <= i < |edges| && edges[i] == e;
      assert EdgeError(vertices, edges, i).None?;
    }
    forall i, j | 0 <= i < j < |edges| ensures (edges[i].from, edges[i].to) != (edges[j].from, edges[j].to) {
      assert EdgeError(vertices, edges, j).None?;
    }
  }

  /** `New` is determined: at most one error can be the earliest. */
  lemma BlameIsUnique(vertices: seq<Vertex>, edges: seq<Edge>, a: TopologyError, b: TopologyError)
    requires Blames(vertices, edges, a) && Blames(vertices, edges, b)
    ensures a == b
  {
    DistinctNeverRepeats(vertices);
    if a.DuplicateVertex? && b.DuplicateVertex? {
      var k: nat :| RepeatsName(vertices, k) && vertices[k].name == a.name;
      var m: nat :| RepeatsName(vertices, m) && vertices[m].name == b.name;
      if k < m { RepeatBreaksLonger(vertices, k, m); }
      if m < k { RepeatBreaksLonger(vertices, m, k); }
    } else if !a.Empty? && !a.DuplicateVertex? && !b.Empty? && !b.DuplicateVertex? {
      var i: nat :| FirstBadEdge(vertices, edges, i, a);
      var j: nat :| FirstBadEdge(vertices, edges, j, b);
      assert i == j;
    }
  }

  lemma RepeatBreaksLonger(vertices: seq<Vertex>, k: nat, m: nat)
    requires RepeatsName(vertices, k) && k < m <= |vertices|
    ensures !DistinctNames(vertices[..m])
  {
    var i :| 0 <= i < k && vertices[..k][i].name == vertices[k].name;
    assert vertices[..m][i].name == vertices[..m][k].name;
  }

  lemma DistinctNeverRepeats(vertices: seq<Vertex>)
    ensures forall k: nat :: RepeatsName(vertices, k) ==> !DistinctNames(vertices)
  {
    assert vertices[..|vertices|] == vertices;
    forall k: nat | RepeatsName(vertices, k) ensures !DistinctNames(vertices) {
      RepeatBreaksLonger(vertices, k, |vertices|);
    }
  }
}
