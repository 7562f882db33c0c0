/** A topology printed and read back. */
module MermaidRoundTrip {
  import opened Names
  import opened Text
  import opened TopologyModel
  import opened Mermaid
  import opened MermaidIn
  import opened MermaidLines
  import opened MermaidTags

  // ---- lines in sequence -------------------------------------------------------

  lemma {:induction false} ReadLinesAppend(r: Reader, a: seq<string>, b: seq<string>, mid: Reader)
    requires ReadLines(r, a) == Ok(mid)
    ensures ReadLines(r, a + b) == ReadLines(mid, b)
    decreases |a|
  {
    if a == [] {
      assert a + b == b;
    } else {
      var all := a + b;
      assert all[0] == a[0] && all[1..] == a[1..] + b;
      ReadLinesAppend(ReadLine(r, a[0]).value, a[1..], b, mid);
    }
  }

  lemma ReadOneMore(r: Reader, a: seq<string>, line: string, mid: Reader)
    requires ReadLines(r, a) == Ok(mid)
    ensures ReadLines(r, a + [line]) == ReadLine(mid, line)
  {
    ReadLinesAppend(r, a, [line], mid);
    assert [line][1..] == [];
  }

  const AFTER_HEADER := Reader(Parsed(map[], [], [], []), [], true)

  lemma {:induction false} FirstWordEnds(word: string, rest: string)
    requires forall c :: c in word ==> !White(c)
    ensures FirstWord(word + (" " + rest)) == word
    decreases |word|
  {
    var s := word + (" " + rest);
    if word == "" {
      assert s == " " + rest;
    } else {
      assert s[0] == word[0] && word[0] in word && s[1..] == word[1..] + (" " + rest);
      FirstWordEnds(word[1..], rest);
    }
  }

  lemma HeaderIsRead(dir: Direction)
    ensures ReadLine(NEW_READER, Header(dir)) == Ok(AFTER_HEADER)
  {
    var line := Header(dir);
    assert '%' !in line;
    NoComment(line, 0, false);
    assert line[..|line|] == line;
    TrimSolid(line);
    assert line == "flowchart" + (" " + Keyword(dir));
    FirstWordEnds("flowchart", Keyword(dir));
    assert Lower("flowchart") == "flowchart";
  }

  // ---- node lines --------------------------------------------------------------

  function NodeOf(v: Vertex): Node {
    Node(v.name, Some(v.kind), None)
  }

  function NodesOf(vertices: seq<Vertex>): map<string, Node> {
    if vertices == [] then map[]
    else var n := |vertices| - 1; NodesOf(vertices[..n])[NodeId(vertices[n].name) := NodeOf(vertices[n])]
  }

  function IdsOf(vertices: seq<Vertex>): seq<string> {
    if vertices == [] then []
    else var n := |vertices| - 1; IdsOf(vertices[..n]) + [NodeId(vertices[n].name)]
  }

  function NamesOf(vertices: seq<Vertex>): map<string, VertexName> {
    if vertices == [] then map[]
    else var n := |vertices| - 1; NamesOf(vertices[..n])[NodeId(vertices[n].name) := vertices[n].name]
  }

  /** Each id leads to its own vertex. */
  lemma {:induction false} IdsAreKept(vertices: seq<Vertex>, v: Vertex)
    requires DistinctNames(vertices)
    ensures v in vertices ==>
              && NodeId(v.name) in IdsOf(vertices)
              && NodeId(v.name) in NodesOf(vertices) && NodesOf(vertices)[NodeId(v.name)] == NodeOf(v)
              && NodeId(v.name) in NamesOf(vertices) && NamesOf(vertices)[NodeId(v.name)] == v.name
  {
    if v in vertices {
      var n := |vertices| - 1;
      assert vertices == vertices[..n] + [vertices[n]];
      if v != vertices[n] {
        IdsAreKept(vertices[..n], v);
        var i :| 0 <= i < n && vertices[i] == v;
        if NodeId(v.name) == NodeId(vertices[n].name) {
          NodeIdInjective(v.name, vertices[n].name);
        }
      }
    }
  }

  lemma {:induction false} IdsComeFromVertices(vertices: seq<Vertex>, name: VertexName)
    ensures NodeId(name) in NodesOf(vertices) ==> exists v :: v in vertices && v.name == name
  {
    if vertices != [] {
      var n := |vertices| - 1;
      IdsComeFromVertices(vertices[..n], name);
      assert vertices[n] in vertices && forall v :: v in vertices[..n] ==> v in vertices;
      if NodeId(name) == NodeId(vertices[n].name) {
        NodeIdInjective(name, vertices[n].name);
      }
    }
  }

  function NodesRead(vertices: seq<Vertex>): Reader {
    Reader(Parsed(NodesOf(vertices), IdsOf(vertices), [], []), [], true)
  }

  lemma ReadsNode(vertices: seq<Vertex>)
    requires vertices != [] && DistinctNames(vertices)
    ensures var n := |vertices| - 1;
            ReadLine(NodesRead(vertices[..n]), NodeLine(vertices[n])) == Ok(NodesRead(vertices))
  {
    var n := |vertices| - 1;
    IdsComeFromVertices(vertices[..n], vertices[n].name);
    NodeLineIsRead(NodesRead(vertices[..n]), vertices[n]);
  }

  lemma {:induction false} NodeLinesAreRead(vertices: seq<Vertex>)
    requires DistinctNames(vertices)
    ensures ReadLines(AFTER_HEADER, NodeLines(vertices)) == Ok(NodesRead(vertices))
    decreases |vertices|
  {
    if vertices != [] {
      var n := |vertices| - 1;
      var before := vertices[..n];
      NodeLinesAreRead(before);
      ReadsNode(vertices);
      ReadOneMore(AFTER_HEADER, NodeLines(before), NodeLine(vertices[n]), NodesRead(before));
    }
  }

  // ---- edge lines --------------------------------------------------------------

  /** Names that a line cannot start with and still be an edge. */
  predicate IsKeyword(name: VertexName) {
    name == "subgraph" || IsDirectiveWord(name)
  }

  function LinksOf(edges: seq<Edge>): seq<Link> {
    if edges == [] then []
    else
      var n := |edges| - 1;
      LinksOf(edges[..n]) + if IsKeyword(edges[n].from) then [] else [LinkOf(edges[n])]
  }

  /** Some edge line opens a subgraph. */
  ghost predicate Opens(edges: seq<Edge>) {
    exists i :: 0 <= i < |edges| && edges[i].from == "subgraph"
  }

  /** What the edge lines leave behind: their links, and a group if one of them opens it. */
  ghost predicate ReadsEdges(p: Parsed, edges: seq<Edge>, p': Parsed) {
    p' == p.(links := LinksOf(edges), groups := p'.groups) && (p'.groups != [] <==> Opens(edges))
  }

  lemma ReadsEdge(p: Parsed, edges: seq<Edge>, mid: Reader) returns (r': Reader)
    requires edges != [] && mid.headerSeen && ReadsEdges(p, edges[..|edges| - 1], mid.parsed)
    requires EdgeFits(p, edges[|edges| - 1])
    ensures ReadLine(mid, EdgeLine(edges[|edges| - 1])) == Ok(r') && r'.headerSeen && ReadsEdges(p, edges, r'.parsed)
  {
    EdgeLineIsRead(mid, edges[|edges| - 1]);
    r' := ReadLine(mid, EdgeLine(edges[|edges| - 1])).value;
    OpensMore(edges);
  }

  /** Every edge joins declared nodes and carries a clean label. */
  ghost predicate AllFit(p: Parsed, edges: seq<Edge>) {
    edges == [] || (AllFit(p, edges[..|edges| - 1]) && EdgeFits(p, edges[|edges| - 1]))
  }

  lemma {:induction false} EdgeLinesAreRead(r: Reader, edges: seq<Edge>) returns (r': Reader)
    requires r.headerSeen && r.parsed.links == [] && r.parsed.groups == []
    requires AllFit(r.parsed, edges)
    ensures ReadLines(r, EdgeLines(edges)) == Ok(r') && r'.headerSeen && ReadsEdges(r.parsed, edges, r'.parsed)
    decreases |edges|
  {
    if edges == [] {
      r' := r;
    } else {
      var n := |edges| - 1;
      var mid := EdgeLinesAreRead(r, edges[..n]);
      r' := ReadsEdge(r.parsed, edges, mid);
      ReadOneMore(r, EdgeLines(edges[..n]), EdgeLine(edges[n]), mid);
    }
  }

  lemma OpensMore(edges: seq<Edge>)
    requires edges != []
    ensures Opens(edges) <==> Opens(edges[..|edges| - 1]) || edges[|edges| - 1].from == "subgraph"
  {
    var n := |edges| - 1;
    if i :| 0 <= i < |edges| && edges[i].from == "subgraph" {
      assert i < n ==> edges[..n][i].from == "subgraph";
    }
    if i :| 0 <= i < n && edges[..n][i].from == "subgraph" {
      assert edges[i].from == "subgraph";
    }
  }

  /** An edge whose label stays on its line. */
  ghost predicate CleanEdge(e: Edge) {
    TextOf(e).Some? ==> IsLabel(TextOf(e).value)
  }

  ghost predicate CleanLabels(edges: seq<Edge>) {
    forall i :: 0 <= i < |edges| ==> CleanEdge(edges[i])
  }

  lemma EdgeOfFits(t: Topology, i: nat)
    requires Valid(t) && CleanLabels(t.edges) && i < |t.edges|
    ensures EdgeFits(NodesRead(t.vertices).parsed, t.edges[i])
  {
    var e := t.edges[i];
    assert e in t.edges && CleanEdge(e);
    DeclaredHasId(t.vertices, e.from);
    DeclaredHasId(t.vertices, e.to);
  }

  lemma {:induction false} EveryEdgeFits(p: Parsed, edges: seq<Edge>)
    requires forall i :: 0 <= i < |edges| ==> EdgeFits(p, edges[i])
    ensures AllFit(p, edges)
  {
    if edges != [] {
      EveryEdgeFits(p, edges[..|edges| - 1]);
    }
  }

  lemma DeclaredHasId(vertices: seq<Vertex>, name: VertexName)
    requires DistinctNames(vertices) && Declared(vertices, name)
    ensures NodeId(name) in NodesOf(vertices)
    ensures NodeId(name) in NamesOf(vertices) && NamesOf(vertices)[NodeId(name)] == name
  {
    var i :| 0 <= i < |vertices| && vertices[i].name == name;
    IdsAreKept(vertices, vertices[i]);
  }

  lemma NodeIsLine(v: Vertex)
    ensures IsLine(NodeLine(v))
  {
    NodeLineIs(v);
    NodeIdIsId(v.name);
    forall c | c in Body(v) ensures c != '\n' && c != '\r' {
      BodyChars(NodeId(v.name), v, c);
    }
  }

  predicate HasBreak(e: Edge) {
    e.conditions.Some? && '\n' in EdgeLabel(e.conditions.value)
  }

  ghost predicate Unbroken(edges: seq<Edge>) {
    forall i :: 0 <= i < |edges| ==> !HasBreak(edges[i])
  }

  lemma EndsInId(line: string, to: string)
    requires IsId(to) && EndsWith(line, to)
    ensures line[|line| - 1] != '\r'
  {
    assert line[|line| - |to|..][|to| - 1] == line[|line| - 1] && to[|to| - 1] in to;
  }

  lemma EdgeIsLine(e: Edge)
    requires !HasBreak(e)
    ensures IsLine(EdgeLine(e))
  {
    var line, to := EdgeLine(e), NodeId(e.to);
    NodeIdIsId(e.to);
    assert line[|line| - |to|..] == to;
    EndsInId(line, to);
    if e.conditions.None? {
      BareLineIsPlain(e);
    } else {
      EdgeLineParts(e);
      PartsArePlain(e);
    }
  }

  lemma {:induction false} NodesAreLines(vertices: seq<Vertex>, line: string)
    requires line in NodeLines(vertices)
    ensures IsLine(line)
  {
    var n := |vertices| - 1;
    if line in NodeLines(vertices[..n]) {
      NodesAreLines(vertices[..n], line);
    } else {
      NodeIsLine(vertices[n]);
    }
  }

  lemma {:induction false} EdgesAreLines(edges: seq<Edge>, line: string)
    requires Unbroken(edges) && line in EdgeLines(edges)
    ensures IsLine(line)
  {
    var n := |edges| - 1;
    if line in EdgeLines(edges[..n]) {
      EdgesAreLines(edges[..n], line);
    } else {
      EdgeIsLine(edges[n]);
    }
  }

  lemma FlowchartLines(t: Topology, dir: Direction)
    requires Unbroken(t.edges)
    ensures Lines(Unlines(Flowchart(t, dir))) == Flowchart(t, dir)
  {
    var lines := Flowchart(t, dir);
    forall k | 0 <= k < |lines| ensures IsLine(lines[k]) {
      assert lines[k] == Header(dir) || lines[k] in NodeLines(t.vertices) || lines[k] in EdgeLines(t.edges);
      if lines[k] in NodeLines(t.vertices) {
        NodesAreLines(t.vertices, lines[k]);
      } else if lines[k] in EdgeLines(t.edges) {
        EdgesAreLines(t.edges, lines[k]);
      }
    }
    LinesOfUnlines(lines);
  }

  lemma HeadIsRead(dir: Direction)
    ensures ReadLines(NEW_READER, [Header(dir)]) == Ok(AFTER_HEADER)
  {
    HeaderIsRead(dir);
    ReadOneMore(NEW_READER, [], Header(dir), NEW_READER);
    assert [] + [Header(dir)] == [Header(dir)];
  }

  lemma ReadThreeParts(r: Reader, a: seq<string>, b: seq<string>, c: seq<string>, r1: Reader, r2: Reader)
    requires ReadLines(r, a) == Ok(r1) && ReadLines(r1, b) == Ok(r2)
    ensures ReadLines(r, a + b + c) == ReadLines(r2, c)
  {
    ReadLinesAppend(r, a, b, r1);
    ReadLinesAppend(r, a + b, c, r2);
  }

  /** Up to its edges a flowchart is read the same whatever the labels are. */
  lemma HeadAndNodesAreRead(t: Topology, dir: Direction)
    requires Valid(t)
    ensures ReadLines(NEW_READER, Flowchart(t, dir)) == ReadLines(NodesRead(t.vertices), EdgeLines(t.edges))
  {
    HeadIsRead(dir);
    NodeLinesAreRead(t.vertices);
    ReadThreeParts(NEW_READER, [Header(dir)], NodeLines(t.vertices), EdgeLines(t.edges), AFTER_HEADER,
      NodesRead(t.vertices));
  }

  /** Everything a printed flowchart parses to. */
  lemma FlowchartIsRead(t: Topology, dir: Direction) returns (r: Reader)
    requires Valid(t) && CleanLabels(t.edges)
    ensures ReadLines(NEW_READER, Flowchart(t, dir)) == Ok(r)
    ensures ReadsEdges(NodesRead(t.vertices).parsed, t.edges, r.parsed)
  {
    var read := NodesRead(t.vertices);
    forall i | 0 <= i < |t.edges| ensures EdgeFits(read.parsed, t.edges[i]) {
      EdgeOfFits(t, i);
    }
    EveryEdgeFits(read.parsed, t.edges);
    HeadAndNodesAreRead(t, dir);
    r := EdgeLinesAreRead(read, t.edges);
  }

  // ---- building ----------------------------------------------------------------

  ghost predicate Ungrouped(p: Parsed, id: string) {
    id in p.nodes && p.nodes[id].group == None
  }

  lemma {:induction false} MembersAll(p: Parsed, order: seq<string>, group: Option<string>)
    requires forall i :: 0 <= i < |order| ==> Ungrouped(p, order[i])
    ensures Members(p, order, group) == if group == None then order else []
  {
    if order != [] {
      var n := |order| - 1;
      MembersAll(p, order[..n], group);
      assert Ungrouped(p, order[n]);
      assert order == order[..n] + [order[n]];
    }
  }

  /** Making a vertex name of a vertex name changes nothing. */
  lemma NameIsKept(name: VertexName)
    ensures VertexNameOf(name) == name
  {
    LowerIsKept(name);
    DashedIsKept(name);
    forall i | 0 <= i < |name| ensures NameChar(name[i]) {
    }
    FilterKeepsAll(name, NameChar);
    StripIsKept(name);
  }

  lemma LowerIsKept(name: VertexName)
    ensures Lower(name) == name
  {
  }

  lemma DashedIsKept(name: VertexName)
    ensures Dashed(name) == name
  {
  }

  lemma StripIsKept(name: VertexName)
    ensures StripBoth(name, '-') == name
  {
  }

  /** A vertex as the diagram tells it: its name and kind, the rest by default. */
  function Redrawn(v: Vertex): Vertex {
    Vertex(v.name, v.kind, 1, ScaleSpec(None, None, false), None)
  }

  function RedrawnAll(vertices: seq<Vertex>): (r: seq<Vertex>)
    ensures |r| == |vertices| && forall i :: 0 <= i < |r| ==> r[i] == Redrawn(vertices[i])
  {
    if vertices == [] then []
    else var n := |vertices| - 1; RedrawnAll(vertices[..n]) + [Redrawn(vertices[n])]
  }

  lemma {:induction false} VerticesAreRead(p: Parsed, pipeline: string, vertices: seq<Vertex>)
    requires forall i :: 0 <= i < |vertices| ==>
               NodeId(vertices[i].name) in p.nodes && p.nodes[NodeId(vertices[i].name)] == NodeOf(vertices[i])
    ensures VerticesOf(p, pipeline, IdsOf(vertices)) == Ok(Found(RedrawnAll(vertices), NamesOf(vertices)))
  {
    if vertices != [] {
      var n := |vertices| - 1;
      VerticesAreRead(p, pipeline, vertices[..n]);
      var ids := IdsOf(vertices);
      assert ids[|ids| - 1] == NodeId(vertices[n].name) && ids[..|ids| - 1] == IdsOf(vertices[..n]);
      NameIsKept(vertices[n].name);
    }
  }

  function Reread(e: Edge): Edge {
    var conditions := if e.conditions.None? then None else Some(Tags(Trim(EdgeLabel(e.conditions.value))));
    Edge(e.from, e.to, conditions, RetryUntilSuccess)
  }

  predicate Survives(e: Edge) {
    e.onFull == RetryUntilSuccess && !IsKeyword(e.from)
  }

  /** The edges that pass, each with its condition as its label reads. */
  function KeptIf(edges: seq<Edge>, passes: Edge -> bool): seq<Edge> {
    if edges == [] then []
    else
      var n := |edges| - 1;
      KeptIf(edges[..n], passes) + if passes(edges[n]) then [Reread(edges[n])] else []
  }

  /** The edges that come back. */
  function Kept(edges: seq<Edge>): seq<Edge> {
    KeptIf(edges, Survives)
  }

  lemma {:induction false} KeptComesFrom(edges: seq<Edge>, passes: Edge -> bool, k: nat) returns (i: nat)
    requires k < |KeptIf(edges, passes)|
    ensures i < |edges| && passes(edges[i]) && KeptIf(edges, passes)[k] == Reread(edges[i])
  {
    var n := |edges| - 1;
    if k < |KeptIf(edges[..n], passes)| {
      i := KeptComesFrom(edges[..n], passes, k);
    } else {
      i := n;
    }
  }

  lemma NewEndsKept(edges: seq<Edge>, passes: Edge -> bool)
    requires edges != [] && DistinctEnds(edges)
    ensures !HasEnds(KeptIf(edges[..|edges| - 1], passes), edges[|edges| - 1].from, edges[|edges| - 1].to)
  {
    var n := |edges| - 1;
    var before := KeptIf(edges[..n], passes);
    forall k | 0 <= k < |before| ensures (before[k].from, before[k].to) != (edges[n].from, edges[n].to) {
      var i := KeptComesFrom(edges[..n], passes, k);
      assert edges[i] == edges[..n][i];
    }
  }

  lemma {:induction false} KeptEndsDistinct(edges: seq<Edge>, passes: Edge -> bool)
    requires DistinctEnds(edges)
    ensures DistinctEnds(KeptIf(edges, passes))
  {
    if edges != [] {
      KeptEndsDistinct(edges[..|edges| - 1], passes);
      NewEndsKept(edges, passes);
    }
  }

  ghost predicate NamesFit(names: map<string, VertexName>, e: Edge) {
    && NodeId(e.from) in names && names[NodeId(e.from)] == e.from
    && NodeId(e.to) in names && names[NodeId(e.to)] == e.to
  }

  /** The links of printed edges build the edges that survive. */
  lemma {:induction false} LinksAreBuilt(edges: seq<Edge>, names: map<string, VertexName>)
    requires DistinctEnds(edges) && forall i :: 0 <= i < |edges| ==> NamesFit(names, edges[i])
    ensures EdgesOf(LinksOf(edges), names) == Kept(edges)
  {
    if edges != [] {
      var n := |edges| - 1;
      var e, links := edges[n], LinksOf(edges);
      assert NamesFit(names, e);
      LinksAreBuilt(edges[..n], names);
      NewEndsKept(edges, Survives);
      if IsKeyword(e.from) {
        assert links == LinksOf(edges[..n]);
      } else {
        assert links[|links| - 1] == LinkOf(e) && links[..|links| - 1] == LinksOf(edges[..n]);
      }
    }
  }

  function Redraw(t: Topology): Topology {
    Topology(RedrawnAll(t.vertices), Kept(t.edges))
  }

  lemma RedrawnIsDeclared(vertices: seq<Vertex>, name: VertexName)
    requires Declared(vertices, name)
    ensures Declared(RedrawnAll(vertices), name)
  {
    var i :| 0 <= i < |vertices| && vertices[i].name == name;
    assert RedrawnAll(vertices)[i].name == name;
  }

  /** The vertices as the diagram tells them, with whichever edges pass, are a topology again. */
  lemma RedrawnIsValid(t: Topology, passes: Edge -> bool)
    requires Valid(t)
    ensures Valid(Topology(RedrawnAll(t.vertices), KeptIf(t.edges, passes)))
  {
    var kept := KeptIf(t.edges, passes);
    KeptEndsDistinct(t.edges, passes);
    forall e | e in kept ensures exists o :: o in t.edges && o.from == e.from && o.to == e.to {
      var k :| 0 <= k < |kept| && kept[k] == e;
      var i := KeptComesFrom(t.edges, passes, k);
      assert t.edges[i] in t.edges;
    }
    forall e | e in kept ensures Declared(RedrawnAll(t.vertices), e.from) && Declared(RedrawnAll(t.vertices), e.to) {
      RedrawnIsDeclared(t.vertices, e.from);
      RedrawnIsDeclared(t.vertices, e.to);
    }
    forall e, v | e in kept && v in RedrawnAll(t.vertices)
      ensures (v.name == e.to ==> v.kind != Source) && (v.name == e.from ==> v.kind != Sink) {
      var i :| 0 <= i < |t.vertices| && RedrawnAll(t.vertices)[i] == v;
      assert t.vertices[i] in t.vertices;
    }
  }

  lemma RedrawIsValid(t: Topology)
    requires Valid(t)
    ensures Valid(Redraw(t))
  {
    RedrawnIsValid(t, Survives);
  }

  /** Without subgraphs the whole graph is one pipeline. */
  lemma WholeGraphIsBuilt(t: Topology)
    requires Valid(t)
    ensures Built(Parsed(NodesOf(t.vertices), IdsOf(t.vertices), LinksOf(t.edges), [])) == Ok([("pipeline", Redraw(t))])
  {
    var p := Parsed(NodesOf(t.vertices), IdsOf(t.vertices), LinksOf(t.edges), []);
    IdsInNodes(t.vertices);
    MembersAll(p, p.order, None);
    forall i | 0 <= i < |t.vertices|
      ensures NodeId(t.vertices[i].name) in p.nodes && p.nodes[NodeId(t.vertices[i].name)] == NodeOf(t.vertices[i]) {
      IdsAreKept(t.vertices, t.vertices[i]);
    }
    VerticesAreRead(p, "pipeline", t.vertices);
    forall i | 0 <= i < |t.edges| ensures NamesFit(NamesOf(t.vertices), t.edges[i]) {
      assert t.edges[i] in t.edges;
      DeclaredHasId(t.vertices, t.edges[i].from);
      DeclaredHasId(t.vertices, t.edges[i].to);
    }
    LinksAreBuilt(t.edges, NamesOf(t.vertices));
    RedrawIsValid(t);
    CheckedMeans(RedrawnAll(t.vertices), Kept(t.edges));
    assert BuildGroup(p, None, "pipeline") == Ok([("pipeline", Redraw(t))]);
    OneGroup(p);
  }

  lemma OneGroup(p: Parsed)
    requires p.groups == [] && BuildGroup(p, None, "pipeline").Ok?
    ensures Built(p) == BuildGroup(p, None, "pipeline")
  {
    var groups := GroupList(p.groups);
    assert groups == [(None, "pipeline")];
    assert BuildGroups(p, groups[..0]) == Ok([]);
    var one := BuildGroup(p, None, "pipeline").value;
    assert [] + one == one;
  }

  lemma {:induction false} IdsInNodes(vertices: seq<Vertex>)
    ensures forall i :: 0 <= i < |IdsOf(vertices)| ==>
              IdsOf(vertices)[i] in NodesOf(vertices) && NodesOf(vertices)[IdsOf(vertices)[i]].group == None
  {
    if vertices != [] {
      IdsInNodes(vertices[..|vertices| - 1]);
    }
  }

  /** Nothing printed sits inside a subgraph, so groups come out empty. */
  lemma {:induction false} GroupsAreEmpty(p: Parsed, groups: seq<(Option<string>, string)>)
    requires forall i :: 0 <= i < |p.order| ==> Ungrouped(p, p.order[i])
    requires forall i :: 0 <= i < |groups| ==> groups[i].0.Some?
    ensures BuildGroups(p, groups) == Ok([])
    decreases |groups|
  {
    if groups != [] {
      var n := |groups| - 1;
      GroupsAreEmpty(p, groups[..n]);
      MembersAll(p, p.order, groups[n].0);
      assert VerticesOf(p, groups[n].1, []) == Ok(Found([], map[]));
      var none: Pipelines := [];
      assert BuildGroup(p, groups[n].0, groups[n].1) == Ok(none) && none + none == none;
    }
  }

  /**
   * What comes back from a printed topology whose labels stay on their lines: one pipeline with the
   * same vertices and the edges that are not lossy and do not start with a keyword, or nothing at all
   * when some edge leaves a vertex named `subgraph`.
   */
  lemma RoundTrip(t: Topology, dir: Direction)
    requires Valid(t) && CleanLabels(t.edges)
    ensures Imported(Unlines(Flowchart(t, dir))) == if Opens(t.edges) then Ok([]) else Ok([("pipeline", Redraw(t))])
  {
    forall i | 0 <= i < |t.edges| ensures !HasBreak(t.edges[i]) {
      assert CleanEdge(t.edges[i]);
    }
    FlowchartLines(t, dir);
    var r := FlowchartIsRead(t, dir);
    var p := r.parsed;
    if p.groups == [] {
      WholeGraphIsBuilt(t);
    } else {
      IdsInNodes(t.vertices);
      GroupsAreEmpty(p, GroupList(p.groups));
    }
  }

  // ---- labels that do not stay on their lines ------------------------------------

  /** The edges of every imported topology come from the links of its text. */
  lemma {:induction false} ImportedEdges(p: Parsed, groups: seq<(Option<string>, string)>, k: nat)
    returns (names: map<string, VertexName>)
    requires BuildGroups(p, groups).Ok? && k < |BuildGroups(p, groups).value|
    ensures BuildGroups(p, groups).value[k].1.edges == EdgesOf(p.links, names)
    decreases |groups|
  {
    var n := |groups| - 1;
    var before := BuildGroups(p, groups[..n]).value;
    if k < |before| {
      names := ImportedEdges(p, groups[..n], k);
    } else {
      names := GroupEdges(p, groups[n].0, groups[n].1, k - |before|);
    }
  }

  lemma GroupEdges(p: Parsed, group: Option<string>, pipeline: string, k: nat) returns (names: map<string, VertexName>)
    requires BuildGroup(p, group, pipeline).Ok? && k < |BuildGroup(p, group, pipeline).value|
    ensures BuildGroup(p, group, pipeline).value[k].1.edges == EdgesOf(p.links, names)
  {
    var found := VerticesOf(p, pipeline, Members(p, p.order, group)).value;
    names := found.names;
    CheckedMeans(found.vertices, EdgesOf(p.links, names));
  }

  ghost predicate LinkUnbroken(l: Link) {
    l.text.Some? ==> '\n' !in l.text.value
  }

  ghost predicate LinksUnbroken(links: seq<Link>) {
    forall i :: 0 <= i < |links| ==> LinkUnbroken(links[i])
  }

  /** A label read from a line is part of that line. */
  lemma ArcWithin(line: string)
    ensures var r := ParseEdge(line); r.Some? && r.value.text.Some? ==> Within(r.value.text.value, line)
  {
    match FirstOp(line)
    case None =>
    case Some((idx, op)) =>
      var source, more := Trim(line[..idx]), line[idx + 1 + |op|..];
      OperandsAre(line, idx, op, source, more);
      OperandsWithin(source, op, TrimStart(more));
      TrimStartWithin(more);
      SuffixWithin(line, idx + 1 + |op|);
  }

  lemma SuffixWithin(s: string, i: nat)
    requires i <= |s|
    ensures Within(s[i..], s)
  {
  }

  lemma OperandsWithin(source: string, op: string, rest: string)
    ensures var r := Operands(source, op, rest); r.Some? && r.value.text.Some? ==> Within(r.value.text.value, rest)
  {
    if StartsWith(rest, "|") && SplitOnce(rest[1..], "|").Some? {
      var text := SplitOnce(rest[1..], "|").value.0;
      TrimWithin(text);
      assert Within(text, rest);
    }
  }

  /** One link more at most, and no newline in its label unless `line` holds one. */
  ghost predicate AddsOne(links: seq<Link>, line: string, links': seq<Link>) {
    links' == links
    || (links' != [] && links == links'[..|links'| - 1] && ('\n' !in line ==> LinkUnbroken(links'[|links'| - 1])))
  }

  lemma StatementAddsOne(r: Reader, line: string)
    ensures AddsOne(r.parsed.links, line, ReadStatement(r, line).parsed.links)
  {
    ArcWithin(line);
  }

  /** A line adds one link at most. */
  lemma LineAddsOne(r: Reader, raw: string)
    requires ReadLine(r, raw).Ok?
    ensures AddsOne(r.parsed.links, raw, ReadLine(r, raw).value.parsed.links)
  {
    var bare := raw[..CommentAt(raw, 0, false)];
    TrimWithin(bare);
    assert '\n' in Trim(bare) ==> '\n' in raw;
    StatementAddsOne(r, Trim(bare));
  }

  lemma {:induction false} ReadUnbroken(r: Reader, lines: seq<string>)
    requires LinksUnbroken(r.parsed.links) && ReadLines(r, lines).Ok? && forall line :: line in lines ==> '\n' !in line
    ensures LinksUnbroken(ReadLines(r, lines).value.parsed.links)
    decreases |lines|
  {
    if lines != [] {
      LineAddsOne(r, lines[0]);
      ReadUnbroken(ReadLine(r, lines[0]).value, lines[1..]);
    }
  }

  lemma {:induction false} EdgesUnbroken(links: seq<Link>, names: map<string, VertexName>, i: nat)
    requires LinksUnbroken(links) && i < |EdgesOf(links, names)|
    ensures var e := EdgesOf(links, names)[i]; e.conditions.Some? ==> Lack(e.conditions.value.values, '\n')
    decreases |links|
  {
    var n := |links| - 1;
    if i < |EdgesOf(links[..n], names)| {
      EdgesUnbroken(links[..n], names, i);
    } else if links[n].text.Some? {
      var text := links[n].text.value;
      assert LinkUnbroken(links[n]);
      forall k | 0 <= k < |Tags(text).values| ensures '\n' !in Tags(text).values[k] {
        TagParts(text, Tags(text).values[k]);
      }
    }
  }

  lemma BreakNeedsValue(c: TagCondition)
    requires Lack(c.values, '\n')
    ensures '\n' !in EdgeLabel(c)
  {
    var sep := if c.operator == Or then ", " else " & ";
    JoinLacks(c.values, sep, '\n');
    LabelHasNoQuote(Join(c.values, sep));
  }

  /** A label with a newline never comes back, whatever else does. */
  lemma BrokenIsLost(t: Topology, src: string, out: Pipelines, k: nat)
    requires Imported(src) == Ok(out) && k < |out| && !Unbroken(t.edges)
    ensures out[k].1 != t
  {
    var lines := Lines(src);
    forall line | line in lines ensures '\n' !in line {
      LinesAreLines(src, line);
    }
    ReadUnbroken(NEW_READER, lines);
    var p := ReadLines(NEW_READER, lines).value.parsed;
    var names := ImportedEdges(p, GroupList(p.groups), k);
    if out[k].1 == t {
      var i :| 0 <= i < |t.edges| && HasBreak(t.edges[i]);
      EdgesUnbroken(p.links, names, i);
      BreakNeedsValue(t.edges[i].conditions.value);
    }
  }

  lemma {:induction false} EdgesAreFewer(links: seq<Link>, names: map<string, VertexName>)
    ensures |EdgesOf(links, names)| <= |links|
  {
    if links != [] {
      EdgesAreFewer(links[..|links| - 1], names);
    }
  }

  predicate Comments(e: Edge) {
    e.conditions.Some? && Contains(EdgeLabel(e.conditions.value), "%%")
  }

  predicate AnyComments(edges: seq<Edge>) {
    edges != [] && (AnyComments(edges[..|edges| - 1]) || Comments(edges[|edges| - 1]))
  }

  lemma {:induction false} AnyHas(edges: seq<Edge>, i: nat)
    requires i < |edges| && Comments(edges[i])
    ensures AnyComments(edges)
    decreases |edges|
  {
    if i < |edges| - 1 {
      AnyHas(edges[..|edges| - 1], i);
    }
  }

  lemma EdgeLineAdds(mid: Reader, e: Edge) returns (r': Reader)
    requires mid.headerSeen
    ensures ReadLine(mid, EdgeLine(e)) == Ok(r') && r'.headerSeen
    ensures |r'.parsed.links| <= |mid.parsed.links| + if Comments(e) then 0 else 1
  {
    r' := ReadLine(mid, EdgeLine(e)).value;
    LineAddsOne(mid, EdgeLine(e));
    if Comments(e) {
      BrokenLine(mid, e);
    }
  }

  /** Every edge line adds one link at most, and none when its label starts a comment. */
  lemma {:induction false} CommentsAddNone(r: Reader, edges: seq<Edge>) returns (r': Reader)
    requires r.headerSeen && r.parsed.links == []
    ensures ReadLines(r, EdgeLines(edges)) == Ok(r') && r'.headerSeen
    ensures |r'.parsed.links| <= |edges| && (AnyComments(edges) ==> |r'.parsed.links| < |edges|)
    decreases |edges|
  {
    if edges == [] {
      r' := r;
    } else {
      var n := |edges| - 1;
      var mid := CommentsAddNone(r, edges[..n]);
      r' := EdgeLineAdds(mid, edges[n]);
      ReadOneMore(r, EdgeLines(edges[..n]), EdgeLine(edges[n]), mid);
    }
  }

  /** A label that starts a comment costs an edge, so the topology does not come back. */
  lemma CommentIsLost(t: Topology, dir: Direction)
    requires Valid(t) && Unbroken(t.edges) && AnyComments(t.edges)
    ensures Imported(Unlines(Flowchart(t, dir))) != Ok([("pipeline", t)])
  {
    FlowchartLines(t, dir);
    HeadAndNodesAreRead(t, dir);
    var r := CommentsAddNone(NodesRead(t.vertices), t.edges);
    var p := r.parsed;
    if Imported(Unlines(Flowchart(t, dir))) == Ok([("pipeline", t)]) {
      var names := ImportedEdges(p, GroupList(p.groups), 0);
      EdgesAreFewer(p.links, names);
    }
  }

  // ---- what comes back exactly ---------------------------------------------------

  /** An edge the diagram says all of. */
  ghost predicate PlainEdge(e: Edge) {
    Survives(e) && (e.conditions.Some? ==> Carries(e.conditions.value))
  }

  ghost predicate AllPlain(edges: seq<Edge>) {
    forall i :: 0 <= i < |edges| ==> PlainEdge(edges[i])
  }

  /** A topology the diagram says all of. */
  ghost predicate Plain(t: Topology) {
    && (forall i :: 0 <= i < |t.vertices| ==>
          t.vertices[i].partitions == 1 && t.vertices[i].scale == ScaleSpec(None, None, false) &&
            t.vertices[i].image == None)
    && AllPlain(t.edges)
  }

  lemma PlainIsClean(edges: seq<Edge>)
    requires AllPlain(edges)
    ensures CleanLabels(edges)
  {
    forall i | 0 <= i < |edges| ensures CleanEdge(edges[i]) {
      assert PlainEdge(edges[i]);
      if edges[i].conditions.Some? {
        TagsAreRead(edges[i].conditions.value);
      }
    }
  }

  lemma RereadExact(e: Edge)
    requires CleanEdge(e)
    ensures Survives(e) && Reread(e) == e <==> PlainEdge(e)
  {
    if e.conditions.Some? {
      TagsAreRead(e.conditions.value);
    }
  }

  lemma {:induction false} KeptIsNoLonger(edges: seq<Edge>)
    ensures |Kept(edges)| <= |edges|
  {
    if edges != [] {
      KeptIsNoLonger(edges[..|edges| - 1]);
    }
  }

  lemma LastOfEqual(a: seq<Edge>, x: Edge, b: seq<Edge>)
    requires b != [] && |a| <= |b| - 1
    ensures a + [x] == b <==> a == b[..|b| - 1] && x == b[|b| - 1]
  {
    var s := a + [x];
    assert b == b[..|b| - 1] + [b[|b| - 1]];
    if s == b {
      assert s[..|a|] == a && s[|a|] == x;
    }
  }

  lemma LastKept(edges: seq<Edge>)
    requires edges != []
    ensures var n := |edges| - 1;
            Kept(edges) == edges
            <==> Kept(edges[..n]) == edges[..n] && Survives(edges[n]) && Reread(edges[n]) == edges[n]
  {
    var n := |edges| - 1;
    KeptIsNoLonger(edges[..n]);
    if Survives(edges[n]) {
      LastOfEqual(Kept(edges[..n]), Reread(edges[n]), edges);
    }
  }

  lemma LastPlain(edges: seq<Edge>)
    requires edges != []
    ensures AllPlain(edges) <==> AllPlain(edges[..|edges| - 1]) && PlainEdge(edges[|edges| - 1])
  {
    var before := edges[..|edges| - 1];
    assert forall i :: 0 <= i < |before| ==> edges[i] == before[i];
  }

  lemma {:induction false} KeptExact(edges: seq<Edge>)
    requires forall i :: 0 <= i < |edges| ==> CleanEdge(edges[i])
    ensures Kept(edges) == edges <==> AllPlain(edges)
  {
    if edges != [] {
      var n := |edges| - 1;
      KeptExact(edges[..n]);
      RereadExact(edges[n]);
      LastKept(edges);
      LastPlain(edges);
    }
  }

  lemma PlainMeans(t: Topology)
    requires CleanLabels(t.edges)
    ensures Plain(t) <==> Redraw(t) == t && !Opens(t.edges)
  {
    KeptExact(t.edges);
    if Plain(t) {
      assert RedrawnAll(t.vertices) == t.vertices;
    }
    if RedrawnAll(t.vertices) == t.vertices {
      assert forall i :: 0 <= i < |t.vertices| ==> t.vertices[i] == Redrawn(t.vertices[i]);
    }
  }

  /** A label holds neither bar nor quote, so only a newline or a comment can take it off its line. */
  lemma NotClean(edges: seq<Edge>)
    requires Unbroken(edges) && !CleanLabels(edges)
    ensures AnyComments(edges)
  {
    var i :| 0 <= i < |edges| && !CleanEdge(edges[i]);
    EdgeLabelHasNoQuote(edges[i].conditions.value);
    assert !HasBreak(edges[i]) && Comments(edges[i]);
    AnyHas(edges, i);
  }

  /** Printing and reading back gives exactly the topology if and only if the diagram says all of it. */
  lemma RoundTripExact(t: Topology, dir: Direction)
    requires Valid(t)
    ensures Imported(Unlines(Flowchart(t, dir))) == Ok([("pipeline", t)]) <==> Plain(t)
  {
    if CleanLabels(t.edges) {
      RoundTrip(t, dir);
      PlainMeans(t);
    } else {
      if AllPlain(t.edges) {
        PlainIsClean(t.edges);
      }
      var src := Unlines(Flowchart(t, dir));
      if !Unbroken(t.edges) {
        if Imported(src).Ok? && |Imported(src).value| > 0 {
          BrokenIsLost(t, src, Imported(src).value, 0);
        }
      } else {
        NotClean(t.edges);
        CommentIsLost(t, dir);
      }
    }
  }

  /** A source and a sink, joined by one edge with this condition. */
  function Pair(c: TagCondition): Topology {
    Topology([PlainVertex("in", Source), PlainVertex("out", Sink)], [Edge("in", "out", Some(c), RetryUntilSuccess)])
  }

  function PlainVertex(name: VertexName, kind: VertexKind): Vertex {
    Vertex(name, kind, 1, ScaleSpec(None, None, false), None)
  }

  lemma PairIsValid(c: TagCondition)
    ensures Valid(Pair(c))
  {
    assert Pair(c).vertices[0].name == "in" && Pair(c).vertices[1].name == "out";
    assert Pair(c).vertices[0].name[0] != Pair(c).vertices[1].name[0];
  }

  lemma OneKept(e: Edge)
    requires Survives(e)
    ensures Kept([e]) == [Reread(e)]
  {
    assert [e][..0] == [] && Kept([]) == [];
  }

  lemma PairIsRedrawn(c: TagCondition)
    ensures Redraw(Pair(c)) == Pair(Tags(Trim(EdgeLabel(c))))
  {
    var e := Pair(c).edges[0];
    assert e.from == "in" && !IsKeyword("in");
    OneKept(e);
    assert RedrawnAll(Pair(c).vertices) == Pair(c).vertices;
  }

  /** An And of one value is printed without an ampersand and comes back as an Or. */
  lemma LoneAndIsLost()
    ensures Valid(Pair(TagCondition(And, ["x"])))
    ensures Imported(Unlines(Flowchart(Pair(TagCondition(And, ["x"])), LeftRight))) ==
        Ok([("pipeline", Pair(TagCondition(Or, ["x"])))])
  {
    var c := TagCondition(And, ["x"]);
    LoneLabel();
    PairIsValid(c);
    PairIsRedrawn(c);
    assert CleanEdge(Pair(c).edges[0]) && Pair(c).edges[0].from[0] != 's';
    RoundTrip(Pair(c), LeftRight);
  }

  lemma LoneLabel()
    ensures var l := EdgeLabel(TagCondition(And, ["x"])); IsLabel(l) && Tags(Trim(l)) == TagCondition(Or, ["x"])
  {
    var c := TagCondition(Or, ["x"]);
    assert Carries(c) by {
      FindNeeds("x", "%%", 0);
      FindNeeds("x", " & ", 0);
      assert IsValue("x");
    }
    TagsAreRead(c);
    assert Join(["x"], " & ") == Join(["x"], ", ");
  }
}
