/** Reading Mermaid flowcharts back into topologies, one per subgraph. */
module MermaidIn {
  import opened Names
  import opened Text
  import opened TopologyModel

  datatype ImportError =
    | NotAFlowchart
    | BadTopology(pipeline: string, error: TopologyError)
    | BadName(pipeline: string, vertex: string)

  /** A node as declared; without a kind it is external, and dropped with its edges. */
  datatype Node = Node(text: string, kind: Option<VertexKind>, group: Option<string>)

  datatype Link = Link(from: string, to: string, text: Option<string>, dotted: bool)

  datatype Parsed = Parsed(nodes: map<string, Node>, order: seq<string>, links: seq<Link>,
    groups: seq<(string, string)>)

  datatype Reader = Reader(parsed: Parsed, stack: seq<string>, headerSeen: bool)

  const NEW_READER := Reader(Parsed(map[], [], [], []), [], false)

  // ---- one line --------------------------------------------------------------

  /** Where a comment starts: two percent signs outside quotes. */
  function CommentAt(line: string, i: nat, inQuote: bool): (r: nat)
    requires i <= |line|
    ensures i <= r <= |line|
    decreases |line| - i
  {
    if i == |line| then i
    else if line[i] == '"' then CommentAt(line, i + 1, !inQuote)
    else if line[i] == '%' && !inQuote && StartsWith(line[i..], "%%") then i
    else CommentAt(line, i + 1, inQuote)
  }

  method StripComment(line: string) returns (r: string)
    ensures r == line[..CommentAt(line, 0, false)]
  {
    var inQuote := false;
    for i := 0 to |line|
      invariant CommentAt(line, 0, false) == CommentAt(line, i, inQuote)
    {
      if line[i] == '"' {
        inQuote := !inQuote;
      } else if line[i] == '%' && !inQuote && StartsWith(line[i..], "%%") {
        return line[..i];
      }
    }
    return line;
  }

  /** `id["label"]`, `"label"` or a bare id. */
  function ParseSubgraph(rest: string): (string, string) {
    match SplitOnce(rest, "[")
    case Some((id, text)) => (Trim(id), StripBoth(StripEnd(text, ']'), '"'))
    case None => var s := StripBoth(rest, '"'); (s, s)
  }

  /** The earlier of two finds. */
  function Earlier(a: Option<(nat, string)>, at: Option<nat>, op: string): (r: Option<(nat, string)>)
    ensures r == a || (at.Some? && r == Some((at.value, op)))
  {
    if at.None? then a
    else if a.None? || at.value < a.value.0 then Some((at.value, op))
    else a
  }

  function FirstOp(line: string): (r: Option<(nat, string)>)
    ensures r.Some? ==> r.value.0 + 1 + |r.value.1| <= |line|
  {
    Earlier(Earlier(Earlier(Earlier(None,
      Find(line, " -.->"), "-.->"), Find(line, " -->"), "-->"), Find(line, " ==>"), "==>"), Find(line, " ---"), "---")
  }

  datatype Arc = Arc(source: string, op: string, text: Option<string>, target: string)

  /** What follows an arrow: a label between bars, if any, and the target. */
  function Operands(source: string, op: string, rest: string): Option<Arc> {
    if StartsWith(rest, "|") then
      match SplitOnce(rest[1..], "|")
      case None => None
      case Some((text, target)) =>
        if source == "" || Trim(target) == "" then None else Some(Arc(source, op, Some(Trim(text)), Trim(target)))
    else if source == "" || Trim(rest) == "" then None
    else Some(Arc(source, op, None, Trim(rest)))
  }

  /** `a --> b`, `a -->|x| b` and their dotted, thick and open forms. */
  function ParseEdge(line: string): Option<Arc> {
    match FirstOp(line)
    case None => None
    case Some((idx, op)) => Operands(Trim(line[..idx]), op, TrimStart(line[idx + 1 + |op|..]))
  }

  /** The id and label of a token in this shape; an opening and a closing delimiter never overlap. */
  function InShape(tok: string, open: string, close: string): Option<(string, string)>
    requires open != [] && open[|open| - 1] !in close
  {
    match Find(tok, open)
    case None => None
    case Some(i) =>
      if !EndsWith(tok, close) || i == 0 then None
      else
        NoOverlap(tok, open, close, i);
        Some((tok[..i], StripBoth(Trim(tok[i + |open|..|tok| - |close|]), '"')))
  }

  lemma NoOverlap(tok: string, open: string, close: string, i: nat)
    requires open != [] && open[|open| - 1] !in close
    requires OccursAt(tok, open, i) && EndsWith(tok, close)
    ensures i + |open| <= |tok| - |close|
  {
    var p, from := i + |open| - 1, |tok| - |close|;
    assert tok[i..i + |open|][|open| - 1] == tok[p];
    forall q | from <= q < |tok| ensures tok[q] in close {
      assert tok[from..][q - from] == tok[q];
    }
  }

  datatype Token = Token(id: string, text: string, kind: Option<VertexKind>)

  /** A node token; parentheses alone are external, a bare id is a map named by it. */
  function ParseNode(tok: string): Token {
    var source, sink, circle := InShape(tok, "([", "])"), InShape(tok, "[[", "]]"), InShape(tok, "((", "))");
    var reduce, box, round := InShape(tok, "{{", "}}"), InShape(tok, "[", "]"), InShape(tok, "(", ")");
    if source.Some? then Token(source.value.0, source.value.1, Some(Source))
    else if sink.Some? then Token(sink.value.0, sink.value.1, Some(Sink))
    else if circle.Some? then Token(circle.value.0, circle.value.1, None)
    else if reduce.Some? then Token(reduce.value.0, reduce.value.1, Some(Reduce))
    else if box.Some? then Token(box.value.0, box.value.1, Some(Map))
    else if round.Some? then Token(round.value.0, round.value.1, None)
    else Token(tok, Replace(tok, '_', '-'), Some(Map))
  }

  function FirstWord(line: string): string
    decreases |line|
  {
    if line == [] || White(line[0]) then [] else [line[0]] + FirstWord(line[1..])
  }

  predicate IsDirective(lower: string) {
    || StartsWith(lower, "style ") || StartsWith(lower, "classdef ") || StartsWith(lower, "class ")
    || StartsWith(lower, "linkstyle ") || StartsWith(lower, "direction ") || StartsWith(lower, "click ")
  }

  function Top(stack: seq<string>): Option<string> {
    if stack == [] then None else Some(stack[|stack| - 1])
  }

  /** The first declaration of an id stands. */
  function Declare(p: Parsed, tok: Token, group: Option<string>): Parsed {
    if tok.id in p.nodes then p
    else p.(nodes := p.nodes[tok.id := Node(tok.text, tok.kind, group)], order := p.order + [tok.id])
  }

  /** A statement after the header, trimmed and without its comment. */
  function ReadStatement(r: Reader, line: string): Reader {
    if StartsWith(line, "subgraph ") then
      var (id, text) := ParseSubgraph(Trim(line[9..]));
      r.(parsed := r.parsed.(groups := r.parsed.groups + [(id, text)]), stack := r.stack + [id])
    else if Lower(line) == "end" then r.(stack := if r.stack == [] then [] else r.stack[..|r.stack| - 1])
    else if IsDirective(Lower(line)) then r
    else
      match ParseEdge(line)
      case Some(arc) =>
        var source, target := ParseNode(arc.source), ParseNode(arc.target);
        var p := Declare(Declare(r.parsed, source, Top(r.stack)), target, Top(r.stack));
        r.(parsed := p.(links := p.links + [Link(source.id, target.id, arc.text, '.' in arc.op)]))
      case None => r.(parsed := Declare(r.parsed, ParseNode(line), Top(r.stack)))
  }

  function ReadLine(r: Reader, raw: string): Result<Reader, ImportError> {
    var line := Trim(raw[..CommentAt(raw, 0, false)]);
    if line == "" then Ok(r)
    else if r.headerSeen then Ok(ReadStatement(r, line))
    else
      var head := Lower(FirstWord(line));
      if head != "graph" && head != "flowchart" then Err(NotAFlowchart) else Ok(r.(headerSeen := true))
  }

  function ReadLines(r: Reader, lines: seq<string>): Result<Reader, ImportError>
    decreases |lines|
  {
    if lines == [] then Ok(r)
    else
      match ReadLine(r, lines[0])
      case Err(e) => Err(e)
      case Ok(r') => ReadLines(r', lines[1..])
  }

  method Parse(src: string) returns (r: Result<Parsed, ImportError>)
    ensures r == match ReadLines(NEW_READER, Lines(src)) { case Ok(reader) => Ok(reader.parsed) case Err(e) => Err(e) }
  {
    var lines := Lines(src);
    var nodes: map<string, Node>, order: seq<string> := map[], [];
    var links: seq<Link>, groups: seq<(string, string)> := [], [];
    var stack: seq<string>, headerSeen := [], false;
    for i := 0 to |lines|
      invariant ReadLines(NEW_READER, lines) ==
          ReadLines(Reader(Parsed(nodes, order, links, groups), stack, headerSeen), lines[i..])
    {
      assert lines[i..][0] == lines[i] && lines[i..][1..] == lines[i + 1..];
      ghost var before := Reader(Parsed(nodes, order, links, groups), stack, headerSeen);
      var bare := StripComment(lines[i]);
      var line := Trim(bare);
      if line == "" {
        continue;
      }
      if !headerSeen {
        var head := Lower(FirstWord(line));
        if head != "graph" && head != "flowchart" {
          return Err(NotAFlowchart);
        }
        headerSeen := true;
        continue;
      }
      if StartsWith(line, "subgraph ") {
        var (id, text) := ParseSubgraph(Trim(line[9..]));
        groups, stack := groups + [(id, text)], stack + [id];
      } else if Lower(line) == "end" {
        stack := if stack == [] then [] else stack[..|stack| - 1];
      } else if !IsDirective(Lower(line)) {
        var group := Top(stack);
        var arc := ParseEdge(line);
        if arc.Some? {
          var source, target := ParseNode(arc.value.source), ParseNode(arc.value.target);
          nodes, order := DeclareIn(nodes, order, source, group);
          nodes, order := DeclareIn(nodes, order, target, group);
          links := links + [Link(source.id, target.id, arc.value.text, '.' in arc.value.op)];
        } else {
          nodes, order := DeclareIn(nodes, order, ParseNode(line), group);
        }
      }
      assert Reader(Parsed(nodes, order, links, groups), stack, headerSeen) == ReadStatement(before, line);
    }
    return Ok(Parsed(nodes, order, links, groups));
  }

  /** The `declare` closure. */
  method DeclareIn(nodes: map<string, Node>, order: seq<string>, tok: Token, group: Option<string>)
    returns (nodes': map<string, Node>, order': seq<string>)
    ensures forall links, groups ::
      Parsed(nodes', order', links, groups) == Declare(Parsed(nodes, order, links, groups), tok, group)
  {
    nodes', order' := nodes, order;
    if tok.id !in nodes {
      order' := order + [tok.id];
      nodes' := nodes[tok.id := Node(tok.text, tok.kind, group)];
    }
  }

  // ---- building --------------------------------------------------------------

  predicate NameChar(c: char) {
    'a' <= c <= 'z' || 'A' <= c <= 'Z' || '0' <= c <= '9' || c == '-'
  }

  function Dashed(s: string): (r: string)
    ensures |r| == |s| && forall i :: 0 <= i < |s| ==> r[i] == if s[i] == '_' || s[i] == ' ' then '-' else s[i]
  {
    Replace(Replace(s, '_', '-'), ' ', '-')
  }

  /** A label becomes a vertex name: lower case, `_` and blanks as dashes, anything else dropped. */
  function VertexNameOf(text: string): string {
    StripBoth(Filter(Dashed(Lower(text)), NameChar), '-')
  }

  method NameFrom(text: string) returns (s: string)
    ensures s == VertexNameOf(text)
  {
    s := Filter(Dashed(Lower(text)), NameChar);
    ghost var goal := StripBoth(s, '-');
    while s != [] && s[0] == '-'
      invariant StripBoth(s, '-') == goal
      decreases |s|
    {
      s := s[1..];
    }
    assert StripStart(s, '-') == s;
    while s != [] && s[|s| - 1] == '-'
      invariant StripEnd(s, '-') == goal
      decreases |s|
    {
      s := s[..|s| - 1];
    }
  }

  function TrimEach(parts: seq<string>): seq<string> {
    if parts == [] then []
    else (if Trim(parts[0]) == "" then [] else [Trim(parts[0])]) + TrimEach(parts[1..])
  }

  /** A label as a condition. */
  function Tags(text: string): TagCondition {
    if StartsWith(text, "not ") then TagCondition(Not, TrimEach(Split(text[4..], ",")))
    else if Contains(text, " & ") then TagCondition(And, TrimEach(Split(text, " & ")))
    else TagCondition(Or, TrimEach(Split(text, ",")))
  }

  function Members(p: Parsed, order: seq<string>, group: Option<string>): seq<string> {
    if order == [] then []
    else
      var n := |order| - 1;
      Members(p, order[..n], group)
        + if order[n] in p.nodes && p.nodes[order[n]].group == group then [order[n]] else []
  }

  datatype Found = Found(vertices: seq<Vertex>, names: map<string, VertexName>)

  /** The vertices of a group's members, and what each id is called. */
  function VerticesOf(p: Parsed, pipeline: string, members: seq<string>): Result<Found, ImportError> {
    if members == [] then Ok(Found([], map[]))
    else
      var n := |members| - 1;
      match VerticesOf(p, pipeline, members[..n])
      case Err(e) => Err(e)
      case Ok(found) =>
        var id := members[n];
        if id !in p.nodes || p.nodes[id].kind.None? then Ok(found)
        else
          var name := VertexNameOf(p.nodes[id].text);
          if !IsDnsLabel(name, 63) then Err(BadName(pipeline, p.nodes[id].text))
          else
            var v := Vertex(name, p.nodes[id].kind.value, 1, ScaleSpec(None, None, false), None);
            Ok(Found(found.vertices + [v], found.names[id := name]))
  }

  predicate HasEnds(edges: seq<Edge>, from: VertexName, to: VertexName) {
    exists i :: 0 <= i < |edges| && edges[i].from == from && edges[i].to == to
  }

  function EdgeOf(l: Link, names: map<string, VertexName>): Edge
    requires l.from in names && l.to in names
  {
    var conditions := if l.text.Some? then Some(Tags(l.text.value)) else None;
    Edge(names[l.from], names[l.to], conditions, RetryUntilSuccess)
  }

  /** The edges of a group: undotted links between its vertices, the first of each pair. */
  function EdgesOf(links: seq<Link>, names: map<string, VertexName>): seq<Edge> {
    if links == [] then []
    else
      var n := |links| - 1;
      var before, l := EdgesOf(links[..n], names), links[n];
      if l.dotted || l.from !in names || l.to !in names || HasEnds(before, names[l.from], names[l.to]) then before
      else before + [EdgeOf(l, names)]
  }

  type Pipelines = seq<(string, Topology)>

  /** One group's topology; a group without vertices is passed over. */
  function BuildGroup(p: Parsed, group: Option<string>, pipeline: string): Result<Pipelines, ImportError> {
    match VerticesOf(p, pipeline, Members(p, p.order, group))
    case Err(e) => Err(e)
    case Ok(found) =>
      if found.vertices == [] then Ok([])
      else
        match Checked(found.vertices, EdgesOf(p.links, found.names))
        case Err(e) => Err(BadTopology(pipeline, e))
        case Ok(t) => Ok([(pipeline, t)])
  }

  function BuildGroups(p: Parsed, groups: seq<(Option<string>, string)>): Result<Pipelines, ImportError> {
    if groups == [] then Ok([])
    else
      var n := |groups| - 1;
      match BuildGroups(p, groups[..n])
      case Err(e) => Err(e)
      case Ok(before) =>
        match BuildGroup(p, groups[n].0, groups[n].1)
        case Err(e) => Err(e)
        case Ok(last) => Ok(before + last)
  }

  /** Every subgraph, or the whole graph when there is none. */
  function GroupList(groups: seq<(string, string)>): (r: seq<(Option<string>, string)>)
    ensures |r| == if groups == [] then 1 else |groups|
  {
    if groups == [] then [(None, "pipeline")]
    else seq(|groups|, i requires 0 <= i < |groups| => (Some(groups[i].0), groups[i].1))
  }

  function Built(p: Parsed): Result<Pipelines, ImportError> {
    BuildGroups(p, GroupList(p.groups))
  }

  function Imported(src: string): Result<Pipelines, ImportError> {
    match ReadLines(NEW_READER, Lines(src))
    case Err(e) => Err(e)
    case Ok(reader) => Built(reader.parsed)
  }

  method CollectMembers(p: Parsed, group: Option<string>) returns (members: seq<string>)
    ensures members == Members(p, p.order, group)
  {
    members := [];
    for i := 0 to |p.order|
      invariant members == Members(p, p.order[..i], group)
    {
      assert p.order[..i + 1][..i] == p.order[..i];
      if p.order[i] in p.nodes && p.nodes[p.order[i]].group == group {
        members := members + [p.order[i]];
      }
    }
    assert p.order[..|p.order|] == p.order;
  }

  method CollectVertices(p: Parsed, pipeline: string, members: seq<string>) returns (r: Result<Found, ImportError>)
    ensures r == VerticesOf(p, pipeline, members)
  {
    var vertices: seq<Vertex>, names: map<string, VertexName> := [], map[];
    for i := 0 to |members|
      invariant VerticesOf(p, pipeline, members[..i]) == Ok(Found(vertices, names))
    {
      assert members[..i + 1][..i] == members[..i];
      var id := members[i];
      if id !in p.nodes || p.nodes[id].kind.None? {
        continue;
      }
      var name := NameFrom(p.nodes[id].text);
      if !IsDnsLabel(name, 63) {
        ErrorsStay(p, pipeline, members, i + 1);
        return Err(BadName(pipeline, p.nodes[id].text));
      }
      names := names[id := name];
      vertices := vertices + [Vertex(name, p.nodes[id].kind.value, 1, ScaleSpec(None, None, false), None)];
    }
    assert members[..|members|] == members;
    return Ok(Found(vertices, names));
  }

  lemma {:induction false} ErrorsStay(p: Parsed, pipeline: string, members: seq<string>, k: nat)
    requires k <= |members| && VerticesOf(p, pipeline, members[..k]).Err?
    ensures VerticesOf(p, pipeline, members) == VerticesOf(p, pipeline, members[..k])
    decreases |members|
  {
    if k < |members| {
      var n := |members| - 1;
      assert members[..n][..k] == members[..k];
      ErrorsStay(p, pipeline, members[..n], k);
    } else {
      assert members[..k] == members;
    }
  }

  method CollectEdges(links: seq<Link>, names: map<string, VertexName>) returns (edges: seq<Edge>)
    ensures edges == EdgesOf(links, names)
  {
    edges := [];
    for i := 0 to |links|
      invariant edges == EdgesOf(links[..i], names)
    {
      assert links[..i + 1][..i] == links[..i];
      var l := links[i];
      if l.dotted {
        continue;
      }
      if l.from !in names || l.to !in names {
        continue;
      }
      if HasEnds(edges, names[l.from], names[l.to]) {
        continue;
      }
      edges := edges + [EdgeOf(l, names)];
    }
    assert links[..|links|] == links;
  }

  lemma {:induction false} GroupErrorsStay(p: Parsed, groups: seq<(Option<string>, string)>, k: nat)
    requires k <= |groups| && BuildGroups(p, groups[..k]).Err?
    ensures BuildGroups(p, groups) == BuildGroups(p, groups[..k])
    decreases |groups|
  {
    if k < |groups| {
      var n := |groups| - 1;
      assert groups[..n][..k] == groups[..k];
      GroupErrorsStay(p, groups[..n], k);
    } else {
      assert groups[..k] == groups;
    }
  }

  method BuildOne(p: Parsed, group: Option<string>, pipeline: string) returns (r: Result<Pipelines, ImportError>)
    ensures r == BuildGroup(p, group, pipeline)
  {
    var members := CollectMembers(p, group);
    var found := CollectVertices(p, pipeline, members);
    if found.Err? {
      return Err(found.error);
    }
    if found.value.vertices == [] {
      return Ok([]);
    }
    var edges := CollectEdges(p.links, found.value.names);
    var t := New(found.value.vertices, edges);
    if t.Err? {
      return Err(BadTopology(pipeline, t.error));
    }
    return Ok([(pipeline, t.value)]);
  }

  method Build(p: Parsed) returns (r: Result<Pipelines, ImportError>)
    ensures r == Built(p)
  {
    var groups := GroupList(p.groups);
    var out: Pipelines := [];
    for i := 0 to |groups|
      invariant BuildGroups(p, groups[..i]) == Ok(out)
    {
      assert groups[..i + 1][..i] == groups[..i];
      var one := BuildOne(p, groups[i].0, groups[i].1);
      if one.Err? {
        GroupErrorsStay(p, groups, i + 1);
        return Err(one.error);
      }
      out := out + one.value;
    }
    assert groups[..|groups|] == groups;
    return Ok(out);
  }

  /** Parse a flowchart into one topology per subgraph. */
  method FromMermaid(src: string) returns (r: Result<Pipelines, ImportError>)
    ensures r == Imported(src)
  {
    var parsed := Parse(src);
    if parsed.Err? {
      return Err(parsed.error);
    }
    r := Build(parsed.value);
  }
}
