/** Printing a topology as a Mermaid flowchart. */
module Mermaid {
  import opened Names
  import opened Text
  import opened TopologyModel

  datatype Direction = LeftRight | TopDown

  function Keyword(dir: Direction): string {
    match dir
    case LeftRight => "LR"
    case TopDown => "TD"
  }

  /** The delimiters of each kind's shape. */
  function Delims(kind: VertexKind): (string, string) {
    match kind
    case Source => ("([", "])")
    case Sink => ("[[", "]]")
    case Map => ("[", "]")
    case Reduce => ("{{", "}}")
  }

  /** Node ids may not contain a dash. */
  function NodeId(name: string): string {
    Replace(name, '-', '_')
  }

  function Escape(s: string): string {
    if s == [] then [] else (if s[0] == '"' then "#quot;" else [s[0]]) + Escape(s[1..])
  }

  function Quote(s: string): string {
    "\"" + Escape(s) + "\""
  }

  predicate Printable(c: char) {
    c != '|' && c != '"'
  }

  /** Edge labels sit between bars, so bars and quotes are left out of them. */
  function EdgeText(s: string): string {
    Filter(s, Printable)
  }

  function EdgeLabel(c: TagCondition): string {
    match c.operator
    case Or => EdgeText(Join(c.values, ", "))
    case And => EdgeText(Join(c.values, " & "))
    case Not => "not " + EdgeText(Join(c.values, " & "))
  }

  function Arrow(onFull: OnFull): string {
    match onFull
    case RetryUntilSuccess => "-->"
    case DiscardLatest => "-.->"
  }

  function EdgeLine(e: Edge): string {
    match e.conditions
    case Some(c) => "  " + NodeId(e.from) + " " + Arrow(e.onFull) + "|" + EdgeLabel(c) + "| " + NodeId(e.to)
    case None => "  " + NodeId(e.from) + " " + Arrow(e.onFull) + " " + NodeId(e.to)
  }

  function NodeLine(v: Vertex): string {
    var shape := Delims(v.kind);
    "  " + NodeId(v.name) + shape.0 + Quote(v.name) + shape.1
  }

  function Header(dir: Direction): string {
    "flowchart " + Keyword(dir)
  }

  function NodeLines(vertices: seq<Vertex>): seq<string> {
    if vertices == [] then [] else NodeLines(vertices[..|vertices| - 1]) + [NodeLine(vertices[|vertices| - 1])]
  }

  function EdgeLines(edges: seq<Edge>): seq<string> {
    if edges == [] then [] else EdgeLines(edges[..|edges| - 1]) + [EdgeLine(edges[|edges| - 1])]
  }

  /** The flowchart, line by line: vertices in spec order, then edges in spec order. */
  function Flowchart(t: Topology, dir: Direction): seq<string> {
    [Header(dir)] + NodeLines(t.vertices) + EdgeLines(t.edges)
  }

  lemma {:induction false} UnlinesSnoc(lines: seq<string>, line: string)
    ensures Unlines(lines + [line]) == Unlines(lines) + line + "\n"
  {
    if lines == [] {
      assert [line][1..] == [];
    } else {
      UnlinesSnoc(lines[1..], line);
      assert (lines + [line])[1..] == lines[1..] + [line];
    }
  }

  lemma NextNode(start: seq<string>, vertices: seq<Vertex>, i: nat)
    requires i < |vertices|
    ensures Unlines(start + NodeLines(vertices[..i + 1])) ==
        Unlines(start + NodeLines(vertices[..i])) + NodeLine(vertices[i]) + "\n"
  {
    assert vertices[..i + 1][..i] == vertices[..i];
    UnlinesSnoc(start + NodeLines(vertices[..i]), NodeLine(vertices[i]));
    assert start + NodeLines(vertices[..i + 1]) == start + NodeLines(vertices[..i]) + [NodeLine(vertices[i])];
  }

  lemma NextEdge(start: seq<string>, edges: seq<Edge>, i: nat)
    requires i < |edges|
    ensures Unlines(start + EdgeLines(edges[..i + 1])) ==
        Unlines(start + EdgeLines(edges[..i])) + EdgeLine(edges[i]) + "\n"
  {
    assert edges[..i + 1][..i] == edges[..i];
    UnlinesSnoc(start + EdgeLines(edges[..i]), EdgeLine(edges[i]));
    assert start + EdgeLines(edges[..i + 1]) == start + EdgeLines(edges[..i]) + [EdgeLine(edges[i])];
  }

  /** Emit the flowchart. */
  method ToMermaid(t: Topology, dir: Direction) returns (out: string)
    ensures out == Unlines(Flowchart(t, dir))
  {
    out := "flowchart " + Keyword(dir) + "\n";
    ghost var head := [Header(dir)];
    assert head[1..] == [] && Unlines(head) == Header(dir) + "\n" + [];
    out := AppendNodes(out, t.vertices, head);
    out := AppendEdges(out, t.edges, head + NodeLines(t.vertices));
  }

  method AppendNodes(start: string, vertices: seq<Vertex>, ghost head: seq<string>) returns (out: string)
    requires start == Unlines(head)
    ensures out == Unlines(head + NodeLines(vertices))
  {
    out := start;
    assert head + [] == head;
    for i := 0 to |vertices|
      invariant out == Unlines(head + NodeLines(vertices[..i]))
    {
      var v := vertices[i];
      var shape := Delims(v.kind);
      NextNode(head, vertices, i);
      out := out + ("  " + NodeId(v.name) + shape.0 + Quote(v.name) + shape.1) + "\n";
    }
    assert vertices[..|vertices|] == vertices;
  }

  method AppendEdges(start: string, edges: seq<Edge>, ghost head: seq<string>) returns (out: string)
    requires start == Unlines(head)
    ensures out == Unlines(head + EdgeLines(edges))
  {
    out := start;
    assert head + [] == head;
    for i := 0 to |edges|
      invariant out == Unlines(head + EdgeLines(edges[..i]))
    {
      NextEdge(head, edges, i);
      out := out + EdgeLine(edges[i]) + "\n";
    }
    assert edges[..|edges|] == edges;
  }
}
