/** Flowcharts of several pipelines, each in a subgraph of its own. */
module MermaidGroups {
  import opened Names
  import opened Text
  import opened TopologyModel
  import opened Mermaid
  import opened MermaidIn
  import opened MermaidLines
  import opened MermaidRoundTrip

  // ---- the statements of a text --------------------------------------------------

  /** A line as the reader sees it: without its comment, its indent and its trailing blanks. */
  function Bare(raw: string): string {
    Trim(raw[..CommentAt(raw, 0, false)])
  }

  function Statements(lines: seq<string>): seq<string> {
    if lines == [] then []
    else (if Bare(lines[0]) == "" then [] else [Bare(lines[0])]) + Statements(lines[1..])
  }

  function Fold<A, B>(f: (A, B) -> A, start: A, items: seq<B>): A {
    if items == [] then start
    else var n := |items| - 1; f(Fold(f, start, items[..n]), items[n])
  }

  lemma {:induction false} FoldAppend<A, B>(f: (A, B) -> A, start: A, a: seq<B>, b: seq<B>)
    ensures Fold(f, start, a + b) == Fold(f, Fold(f, start, a), b)
  {
    if b == [] {
      assert a + b == a;
    } else {
      var n := |b| - 1;
      var all := a + b;
      assert all[..|all| - 1] == a + b[..n] && all[|all| - 1] == b[n];
      FoldAppend(f, start, a, b[..n]);
    }
  }

  lemma FoldOne<A, B>(f: (A, B) -> A, start: A, x: B)
    ensures Fold(f, start, [x]) == f(start, x)
  {
    assert [x][..0] == [];
  }

  function ReadAll(r: Reader, statements: seq<string>): Reader {
    Fold(ReadStatement, r, statements)
  }

  lemma ReadAllAppend(r: Reader, a: seq<string>, b: seq<string>)
    ensures ReadAll(r, a + b) == ReadAll(ReadAll(r, a), b)
  {
    FoldAppend(ReadStatement, r, a, b);
  }

  lemma ReadAllOne(r: Reader, s: string)
    ensures ReadAll(r, [s]) == ReadStatement(r, s)
  {
    FoldOne(ReadStatement, r, s);
  }

  lemma ReadAllSnoc(r: Reader, a: seq<string>, s: string)
    ensures ReadAll(r, a + [s]) == ReadStatement(ReadAll(r, a), s)
  {
    ReadAllAppend(r, a, [s]);
    ReadAllOne(ReadAll(r, a), s);
  }

  lemma HeaderStays(r: Reader, s: string)
    ensures ReadStatement(r, s).headerSeen == r.headerSeen
  {
  }

  lemma OneLineRead(r: Reader, raw: string)
    requires r.headerSeen
    ensures ReadLine(r, raw) == Ok(if Bare(raw) == "" then r else ReadStatement(r, Bare(raw)))
  {
  }

  lemma OneLineMore(r: Reader, lines: seq<string>, r': Reader)
    requires lines != [] && ReadLine(r, lines[0]) == Ok(r')
    ensures ReadLines(r, lines) == ReadLines(r', lines[1..])
  {
  }

  lemma StatementFirst(r: Reader, s: string, rest: seq<string>)
    ensures ReadAll(r, [s] + rest) == ReadAll(ReadStatement(r, s), rest)
  {
    ReadAllAppend(r, [s], rest);
    ReadAllOne(r, s);
  }

  /** After the header only the statements of the lines matter. */
  lemma {:induction false} StatementsAreRead(r: Reader, lines: seq<string>)
    requires r.headerSeen
    ensures ReadLines(r, lines) == Ok(ReadAll(r, Statements(lines)))
    decreases |lines|
  {
    if lines != [] {
      var s, rest := Bare(lines[0]), Statements(lines[1..]);
      var r' := if s == "" then r else ReadStatement(r, s);
      OneLineRead(r, lines[0]);
      OneLineMore(r, lines, r');
      HeaderStays(r, s);
      StatementsAreRead(r', lines[1..]);
      if s == "" {
        assert [] + rest == rest;
      } else {
        StatementFirst(r, s, rest);
      }
    }
  }

  predicate IsHead(s: string) {
    Lower(FirstWord(s)) == "graph" || Lower(FirstWord(s)) == "flowchart"
  }

  lemma {:induction false} TextIsRead(lines: seq<string>, head: string, rest: seq<string>)
    requires Statements(lines) == [head] + rest && IsHead(head)
    ensures ReadLines(NEW_READER, lines) == Ok(ReadAll(AFTER_HEADER, rest))
    decreases |lines|
  {
    var s, more := Bare(lines[0]), Statements(lines[1..]);
    if s == "" {
      assert [] + more == more;
      TextIsRead(lines[1..], head, rest);
    } else {
      assert ([s] + more)[0] == s && ([s] + more)[1..] == more && ([head] + rest)[1..] == rest;
      StatementsAreRead(AFTER_HEADER, lines[1..]);
    }
  }

  // ---- groups --------------------------------------------------------------------

  /** A topology in a subgraph with this id and title, and what its nodes are called in the text. */
  datatype Group = Group(id: string, title: string, ids: VertexName -> string, t: Topology)

  function Opening(id: string, title: string): string {
    "subgraph " + (id + ("[\"" + (title + "\"]")))
  }

  function StatementOf(e: Edge, ids: VertexName -> string): string {
    Statement(ids(e.from), Arrow(e.onFull), TextOf(e), ids(e.to))
  }

  function NodesIn(vertices: seq<Vertex>, ids: VertexName -> string): seq<string> {
    if vertices == [] then []
    else var n := |vertices| - 1; NodesIn(vertices[..n], ids) + [Labelled(ids(vertices[n].name), vertices[n])]
  }

  function EdgesIn(edges: seq<Edge>, ids: VertexName -> string): seq<string> {
    if edges == [] then []
    else var n := |edges| - 1; EdgesIn(edges[..n], ids) + [StatementOf(edges[n], ids)]
  }

  function GroupText(g: Group): seq<string> {
    [Opening(g.id, g.title)] + NodesIn(g.t.vertices, g.ids) + EdgesIn(g.t.edges, g.ids) + ["end"]
  }

  /** The statements of the first `n` subgraphs, one after another. */
  function ChartTo(groups: seq<Group>, n: nat): seq<string>
    requires n <= |groups|
  {
    if n == 0 then [] else ChartTo(groups, n - 1) + GroupText(groups[n - 1])
  }

  function Chart(groups: seq<Group>): seq<string> {
    ChartTo(groups, |groups|)
  }

  function IdsBy(vertices: seq<Vertex>, ids: VertexName -> string): (r: seq<string>)
    ensures |r| == |vertices| && forall i :: 0 <= i < |r| ==> r[i] == ids(vertices[i].name)
  {
    seq(|vertices|, i requires 0 <= i < |vertices| => ids(vertices[i].name))
  }

  function Ids(g: Group): seq<string> {
    IdsBy(g.t.vertices, g.ids)
  }

  /** A group that can be told apart in the text: its own ids are, and no edge line begins with a keyword. */
  ghost predicate GoodGroup(g: Group) {
    && Valid(g.t) && CleanLabels(g.t.edges) && IsId(g.id) && '"' !in g.title
    && AreIds(g.t.vertices, g.ids)
    && (forall i :: 0 <= i < |g.t.edges| ==> g.ids(g.t.edges[i].from) != "subgraph")
  }

  ghost predicate AreIds(vertices: seq<Vertex>, ids: VertexName -> string) {
    && (forall i :: 0 <= i < |vertices| ==> IsId(ids(vertices[i].name)))
    && (forall i, j :: 0 <= i < j < |vertices| ==> ids(vertices[i].name) != ids(vertices[j].name))
  }

  // ---- reading a group -------------------------------------------------------------

  lemma OpeningParts(id: string, title: string)
    requires IsId(id)
    ensures var s := Opening(id, title); Solid(s) && StartsWith(s, "subgraph ")
    ensures Trim(Opening(id, title)[9..]) == id + (['['] + ("\"" + title + "\"" + "]"))
  {
    var s, rest := Opening(id, title), id + (['['] + ("\"" + title + "\"" + "]"));
    assert s == "subgraph " + rest;
    assert s[..9] == "subgraph " && s[9..] == rest;
    assert id[0] in id && rest[0] == id[0] && rest[|rest| - 1] == ']';
    assert Solid(rest);
    TrimSolid(rest);
  }

  lemma TitleIsRead(id: string, title: string)
    requires IsId(id) && '"' !in title
    ensures ParseSubgraph(id + (['['] + ("\"" + title + "\"" + "]"))) == (id, title)
  {
    var quoted := "\"" + title + "\"";
    var text := quoted + "]";
    assert id + (['['] + text) == id + ['['] + text;
    SplitOnceChar(id, '[', text);
    assert ['['] == "[";
    IdIsSolid(id);
    TrimSolid(id);
    assert text[..|text| - 1] == quoted && text[|text| - 1] == ']' && quoted[|quoted| - 1] == '"';
    assert StripEnd(text, ']') == StripEnd(quoted, ']') == quoted;
    StripQuotes(title);
  }

  /** A subgraph with only a title, quoted or not, has it for an id, too. */
  lemma TitleIsId(title: string)
    requires '"' !in title && '[' !in title
    ensures ParseSubgraph(title) == (title, title) && ParseSubgraph("\"" + title + "\"") == (title, title)
  {
    FindNeeds(title, "[", 0);
    FindNeeds("\"" + title + "\"", "[", 0);
    StripQuotes(title);
    assert title != "" ==> title[0] in title && title[|title| - 1] in title;
  }

  lemma SubgraphIsOpened(r: Reader, s: string, id: string, title: string)
    requires StartsWith(s, "subgraph ") && ParseSubgraph(Trim(s[9..])) == (id, title)
    ensures ReadStatement(r, s) ==
        r.(parsed := r.parsed.(groups := r.parsed.groups + [(id, title)]), stack := r.stack + [id])
  {
  }

  lemma OpeningIsRead(r: Reader, id: string, title: string)
    requires IsId(id) && '"' !in title
    ensures ReadStatement(r, Opening(id, title)) ==
        r.(parsed := r.parsed.(groups := r.parsed.groups + [(id, title)]), stack := r.stack + [id])
  {
    OpeningParts(id, title);
    TitleIsRead(id, title);
    SubgraphIsOpened(r, Opening(id, title), id, title);
  }

  lemma EndIsRead(r: Reader)
    requires r.stack != []
    ensures ReadStatement(r, "end") == r.(stack := r.stack[..|r.stack| - 1])
  {
    assert Lower("end") == "end";
  }

  /** `all` is `old` with these vertices declared in a group. */
  ghost predicate Declares(known: map<string, Node>, vertices: seq<Vertex>, ids: VertexName -> string,
    group: Option<string>, all: map<string, Node>)
  {
    && (forall id :: id in all <==> id in known || id in IdsBy(vertices, ids))
    && (forall id :: id in known ==> all[id] == known[id])
    && (forall i :: 0 <= i < |vertices| ==>
          ids(vertices[i].name) in all &&
          all[ids(vertices[i].name)] == Node(vertices[i].name, Some(vertices[i].kind), group))
  }

  lemma IdsSnoc(vertices: seq<Vertex>, ids: VertexName -> string)
    requires vertices != []
    ensures var n := |vertices| - 1; IdsBy(vertices, ids) == IdsBy(vertices[..n], ids) + [ids(vertices[n].name)]
  {
  }

  lemma DeclaresMore(known: map<string, Node>, vertices: seq<Vertex>, ids: VertexName -> string, group: Option<string>,
    all: map<string, Node>)
    requires vertices != [] && Declares(known, vertices[..|vertices| - 1], ids, group, all)
    requires ids(vertices[|vertices| - 1].name) !in all
    ensures var v := vertices[|vertices| - 1];
            Declares(known, vertices, ids, group, all[ids(v.name) := Node(v.name, Some(v.kind), group)])
  {
    IdsSnoc(vertices, ids);
  }

  /** Where a group's reader stands after these vertices. */
  ghost predicate HasRead(r: Reader, vertices: seq<Vertex>, ids: VertexName -> string, r': Reader) {
    && r' == r.(parsed := r.parsed.(nodes := r'.parsed.nodes, order := r.parsed.order + IdsBy(vertices, ids)))
    && Declares(r.parsed.nodes, vertices, ids, Top(r.stack), r'.parsed.nodes)
  }

  lemma NodeIsAdded(r: Reader, vertices: seq<Vertex>, ids: VertexName -> string, mid: Reader)
    requires vertices != [] && AreIds(vertices, ids) && ids(vertices[|vertices| - 1].name) !in r.parsed.nodes
    requires HasRead(r, vertices[..|vertices| - 1], ids, mid)
    ensures var v := vertices[|vertices| - 1]; HasRead(r, vertices, ids, ReadStatement(mid, Labelled(ids(v.name), v)))
  {
    var n := |vertices| - 1;
    var v := vertices[n];
    var id := ids(v.name);
    LabelledStatement(mid, id, v);
    assert id !in mid.parsed.nodes;
    IdsSnoc(vertices, ids);
    assert r.parsed.order + IdsBy(vertices, ids) == r.parsed.order + IdsBy(vertices[..n], ids) + [id];
    DeclaresMore(r.parsed.nodes, vertices, ids, Top(r.stack), mid.parsed.nodes);
  }

  lemma {:induction false} NodesAreRead(r: Reader, vertices: seq<Vertex>, ids: VertexName -> string)
    returns (r': Reader)
    requires AreIds(vertices, ids) && forall i :: 0 <= i < |vertices| ==> ids(vertices[i].name) !in r.parsed.nodes
    ensures r' == ReadAll(r, NodesIn(vertices, ids)) && HasRead(r, vertices, ids, r')
    decreases |vertices|
  {
    if vertices == [] {
      r' := r;
      EmptyAdds(r.parsed.order);
    } else {
      var n := |vertices| - 1;
      var text := Labelled(ids(vertices[n].name), vertices[n]);
      var mid := NodesAreRead(r, vertices[..n], ids);
      r' := ReadStatement(mid, text);
      NodeIsAdded(r, vertices, ids, mid);
      ReadAllSnoc(r, NodesIn(vertices[..n], ids), text);
    }
  }

  function LinkBy(e: Edge, ids: VertexName -> string): Link {
    Link(ids(e.from), ids(e.to), TrimmedText(TextOf(e)), e.onFull == DiscardLatest)
  }

  /** An edge line as a link, unless it begins like a directive. */
  function LastLink(e: Edge, ids: VertexName -> string): seq<Link> {
    if IsDirectiveWord(ids(e.from)) then [] else [LinkBy(e, ids)]
  }

  function LinksBy(edges: seq<Edge>, ids: VertexName -> string): seq<Link> {
    if edges == [] then []
    else
      var n := |edges| - 1;
      LinksBy(edges[..n], ids) + LastLink(edges[n], ids)
  }

  /** A link of known ids, and what it says. */
  ghost predicate EdgeFitsIn(nodes: map<string, Node>, e: Edge, ids: VertexName -> string) {
    && IsId(ids(e.from)) && IsId(ids(e.to)) && ids(e.from) in nodes && ids(e.to) in nodes
    && CleanEdge(e) && ids(e.from) != "subgraph"
  }

  lemma StatementHead(from: string, arrow: string, tail: string)
    ensures from + (" " + arrow + tail) == from + (" " + (arrow + tail))
  {
  }

  lemma StatementKind(from: string, arrow: string, text: Option<string>, to: string)
    requires Words(from, arrow, text, to)
    ensures var s := Statement(from, arrow, text, to);
            && (StartsWith(s, "subgraph ") <==> from == "subgraph")
            && (IsDirective(Lower(s)) <==> IsDirectiveWord(from))
            && Lower(s) != "end"
  {
    var tail := Tail(text, to);
    StatementHead(from, arrow, tail);
    StatementKeyword(from, arrow + tail);
    StatementIsSolid(from, arrow, text, to);
    NotEnd(Statement(from, arrow, text, to));
  }

  lemma NotEnd(s: string)
    requires |s| > 3
    ensures Lower(s) != "end"
  {
  }

  lemma EdgeIsRead(r: Reader, e: Edge, ids: VertexName -> string)
    requires EdgeFitsIn(r.parsed.nodes, e, ids)
    ensures ReadStatement(r, StatementOf(e, ids)) ==
        r.(parsed := r.parsed.(links := r.parsed.links + LastLink(e, ids)))
  {
    var s := StatementOf(e, ids);
    StatementKind(ids(e.from), Arrow(e.onFull), TextOf(e), ids(e.to));
    if IsDirectiveWord(ids(e.from)) {
      DirectiveStatement(r, s);
      assert r.parsed.links + [] == r.parsed.links;
    } else {
      StatementIsRead(ids(e.from), Arrow(e.onFull), TextOf(e), ids(e.to));
      ArcStatement(r, s, Arc(ids(e.from), Arrow(e.onFull), TrimmedText(TextOf(e)), ids(e.to)));
    }
  }

  lemma {:induction false} EdgesAreRead(r: Reader, edges: seq<Edge>, ids: VertexName -> string)
    requires forall i :: 0 <= i < |edges| ==> EdgeFitsIn(r.parsed.nodes, edges[i], ids)
    ensures ReadAll(r, EdgesIn(edges, ids)) ==
        r.(parsed := r.parsed.(links := r.parsed.links + LinksBy(edges, ids)))
    decreases |edges|
  {
    if edges == [] {
      assert r.parsed.links + [] == r.parsed.links;
    } else {
      var n := |edges| - 1;
      EdgesAreRead(r, edges[..n], ids);
      var mid := ReadAll(r, EdgesIn(edges[..n], ids));
      assert EdgeFitsIn(mid.parsed.nodes, edges[n], ids);
      EdgeIsRead(mid, edges[n], ids);
      ReadAllSnoc(r, EdgesIn(edges[..n], ids), StatementOf(edges[n], ids));
      JoinsRegroup(r.parsed.links, LinksBy(edges[..n], ids), LastLink(edges[n], ids));
    }
  }

  lemma JoinsRegroup<T>(a: seq<T>, b: seq<T>, c: seq<T>)
    ensures a + (b + c) == a + b + c
  {
  }

  // ---- reading every group ----------------------------------------------------------

  /** Everything one group adds to what has been parsed. */
  ghost predicate AddsGroup(p: Parsed, g: Group, p': Parsed) {
    && p'.order == p.order + Ids(g)
    && p'.links == p.links + LinksBy(g.t.edges, g.ids)
    && p'.groups == p.groups + [(g.id, g.title)]
    && Declares(p.nodes, g.t.vertices, g.ids, Some(g.id), p'.nodes)
  }

  /** No node of the group is known yet. */
  ghost predicate NewIn(nodes: map<string, Node>, g: Group) {
    forall i :: 0 <= i < |g.t.vertices| ==> g.ids(g.t.vertices[i].name) !in nodes
  }

  lemma DeclaredIn(nodes: map<string, Node>, g: Group, all: map<string, Node>, name: VertexName)
    requires GoodGroup(g) && Declares(nodes, g.t.vertices, g.ids, Some(g.id), all) && Declared(g.t.vertices, name)
    ensures IsId(g.ids(name)) && g.ids(name) in all
  {
    var i :| 0 <= i < |g.t.vertices| && g.t.vertices[i].name == name;
    assert g.ids(g.t.vertices[i].name) in all;
  }

  lemma GroupEdgesFit(nodes: map<string, Node>, g: Group, all: map<string, Node>)
    requires GoodGroup(g) && Declares(nodes, g.t.vertices, g.ids, Some(g.id), all)
    ensures forall i :: 0 <= i < |g.t.edges| ==> EdgeFitsIn(all, g.t.edges[i], g.ids)
  {
    forall i | 0 <= i < |g.t.edges| ensures EdgeFitsIn(all, g.t.edges[i], g.ids) {
      var e := g.t.edges[i];
      assert e in g.t.edges && CleanEdge(e);
      DeclaredIn(nodes, g, all, e.from);
      DeclaredIn(nodes, g, all, e.to);
    }
  }

  lemma ReadAllFour(r: Reader, a: string, b: seq<string>, c: seq<string>, d: string)
    ensures ReadAll(r, [a] + b + c + [d]) == ReadStatement(ReadAll(ReadAll(ReadStatement(r, a), b), c), d)
  {
    ReadAllSnoc(r, [a] + b + c, d);
    ReadAllAppend(r, [a] + b, c);
    ReadAllAppend(r, [a], b);
    ReadAllOne(r, a);
  }

  /** A subgraph is read as its group, and closed again. */
  lemma GroupIsRead(r: Reader, g: Group)
    requires GoodGroup(g) && NewIn(r.parsed.nodes, g)
    ensures var r' := ReadAll(r, GroupText(g));
            r'.stack == r.stack && r'.headerSeen == r.headerSeen && AddsGroup(r.parsed, g, r'.parsed)
  {
    var nodes, edges := NodesIn(g.t.vertices, g.ids), EdgesIn(g.t.edges, g.ids);
    ReadAllFour(r, Opening(g.id, g.title), nodes, edges, "end");
    OpeningIsRead(r, g.id, g.title);
    var r1 := ReadStatement(r, Opening(g.id, g.title));
    var r2 := NodesAreRead(r1, g.t.vertices, g.ids);
    GroupEdgesFit(r.parsed.nodes, g, r2.parsed.nodes);
    EdgesAreRead(r2, g.t.edges, g.ids);
    EndIsRead(ReadAll(r2, edges));
  }

  ghost predicate InGroup(groups: seq<Group>, g: nat, i: nat) {
    g < |groups| && i < |groups[g].t.vertices|
  }

  function IdAt(groups: seq<Group>, g: nat, i: nat): string
    requires g < |groups| && i < |groups[g].t.vertices|
  {
    groups[g].ids(groups[g].t.vertices[i].name)
  }

  /** Ids of nodes, and of subgraphs, are distinct across the groups. */
  ghost predicate Apart(groups: seq<Group>) {
    && (forall g: nat, i: nat, h: nat, j: nat :: InGroup(groups, g, i) && InGroup(groups, h, j) && g < h ==>
          IdAt(groups, g, i) != IdAt(groups, h, j))
    && (forall g, h :: 0 <= g < h < |groups| ==> groups[g].id != groups[h].id)
  }

  ghost predicate GoodAt(groups: seq<Group>, g: nat) {
    g < |groups| ==> GoodGroup(groups[g])
  }

  ghost predicate Good(groups: seq<Group>) {
    Apart(groups) && forall g: nat :: GoodAt(groups, g)
  }

  function OrderTo(groups: seq<Group>, n: nat): seq<string>
    requires n <= |groups|
  {
    if n == 0 then [] else OrderTo(groups, n - 1) + Ids(groups[n - 1])
  }

  function LinksTo(groups: seq<Group>, n: nat): seq<Link>
    requires n <= |groups|
  {
    if n == 0 then [] else LinksTo(groups, n - 1) + LinksBy(groups[n - 1].t.edges, groups[n - 1].ids)
  }

  function TitlesTo(groups: seq<Group>, n: nat): (r: seq<(string, string)>)
    requires n <= |groups|
    ensures |r| == n && forall g :: 0 <= g < n ==> r[g] == (groups[g].id, groups[g].title)
  {
    seq(n, g requires 0 <= g < n => (groups[g].id, groups[g].title))
  }

  ghost predicate NodeIs(nodes: map<string, Node>, id: string, v: Vertex, group: string) {
    id in nodes && nodes[id] == Node(v.name, Some(v.kind), Some(group))
  }

  /** The nodes of the first `n` groups are known, each in its own. */
  ghost predicate KnowsAll(nodes: map<string, Node>, groups: seq<Group>, n: nat) {
    forall g: nat, i: nat :: InGroup(groups, g, i) && g < n ==>
      NodeIs(nodes, IdAt(groups, g, i), groups[g].t.vertices[i], groups[g].id)
  }

  ghost predicate KnowsOnly(nodes: map<string, Node>, groups: seq<Group>, n: nat) {
    forall id :: id in nodes ==> exists g: nat, i: nat :: InGroup(groups, g, i) && g < n && IdAt(groups, g, i) == id
  }

  /** What the first `n` subgraphs are parsed to. */
  ghost predicate HoldsGroups(p: Parsed, groups: seq<Group>, n: nat) {
    && n <= |groups|
    && p.order == OrderTo(groups, n) && p.links == LinksTo(groups, n) && p.groups == TitlesTo(groups, n)
    && KnowsAll(p.nodes, groups, n)
  }

  lemma NextIsNew(nodes: map<string, Node>, groups: seq<Group>, n: nat)
    requires n < |groups| && Apart(groups) && KnowsOnly(nodes, groups, n)
    ensures NewIn(nodes, groups[n])
  {
    forall i | 0 <= i < |groups[n].t.vertices| ensures groups[n].ids(groups[n].t.vertices[i].name) !in nodes {
      assert InGroup(groups, n, i);
      assert forall g: nat, j: nat :: InGroup(groups, g, j) && g < n ==> IdAt(groups, g, j) != IdAt(groups, n, i);
    }
  }

  lemma KnowsMore(nodes: map<string, Node>, groups: seq<Group>, n: nat, nodes': map<string, Node>)
    requires n < |groups| && KnowsAll(nodes, groups, n) && KnowsOnly(nodes, groups, n)
    requires Declares(nodes, groups[n].t.vertices, groups[n].ids, Some(groups[n].id), nodes')
    ensures KnowsAll(nodes', groups, n + 1) && KnowsOnly(nodes', groups, n + 1)
  {
    forall g: nat, i: nat | InGroup(groups, g, i) && g < n + 1
      ensures NodeIs(nodes', IdAt(groups, g, i), groups[g].t.vertices[i], groups[g].id) {
      if g < n {
        assert NodeIs(nodes, IdAt(groups, g, i), groups[g].t.vertices[i], groups[g].id);
      }
    }
    forall id | id in nodes'
      ensures exists g: nat, i: nat :: InGroup(groups, g, i) && g < n + 1 && IdAt(groups, g, i) == id {
      if id in nodes {
        var g: nat, i: nat :| InGroup(groups, g, i) && g < n && IdAt(groups, g, i) == id;
        assert InGroup(groups, g, i) && g < n + 1;
      } else {
        var i: nat :| i < |groups[n].t.vertices| && IdsBy(groups[n].t.vertices, groups[n].ids)[i] == id;
        assert InGroup(groups, n, i) && IdAt(groups, n, i) == id;
      }
    }
  }

  /** Where the reader stands after the first `n` subgraphs. */
  ghost predicate ChartRead(r: Reader, groups: seq<Group>, n: nat) {
    r.stack == [] && HoldsGroups(r.parsed, groups, n) && KnowsOnly(r.parsed.nodes, groups, n)
  }

  lemma TitlesNext(groups: seq<Group>, n: nat)
    requires 0 < n <= |groups|
    ensures TitlesTo(groups, n) == TitlesTo(groups, n - 1) + [(groups[n - 1].id, groups[n - 1].title)]
  {
  }

  lemma HoldsMore(p: Parsed, groups: seq<Group>, n: nat, p': Parsed)
    requires 0 < n <= |groups| && HoldsGroups(p, groups, n - 1) && KnowsOnly(p.nodes, groups, n - 1)
    requires AddsGroup(p, groups[n - 1], p')
    ensures HoldsGroups(p', groups, n) && KnowsOnly(p'.nodes, groups, n)
  {
    TitlesNext(groups, n);
    KnowsMore(p.nodes, groups, n - 1, p'.nodes);
  }

  /** With `f` as the reader the group is read as itself. */
  ghost predicate ReadsOne(f: (Reader, string) -> Reader, groups: seq<Group>, r: Reader, g: nat) {
    g < |groups| && NewIn(r.parsed.nodes, groups[g]) ==>
      var r' := Fold(f, r, GroupText(groups[g])); r'.stack == r.stack && AddsGroup(r.parsed, groups[g], r'.parsed)
  }

  ghost predicate ReadsEach(f: (Reader, string) -> Reader, groups: seq<Group>) {
    forall mid: Reader, g: nat :: ReadsOne(f, groups, mid, g)
  }

  lemma NextGroup(f: (Reader, string) -> Reader, mid: Reader, groups: seq<Group>, n: nat, text: seq<string>)
    returns (r: Reader)
    requires 0 < n <= |groups| && Apart(groups) && ChartRead(mid, groups, n - 1) && text == GroupText(groups[n - 1])
    requires ReadsEach(f, groups)
    ensures r == Fold(f, mid, text) && ChartRead(r, groups, n)
  {
    NextIsNew(mid.parsed.nodes, groups, n - 1);
    r := Fold(f, mid, text);
    assert ReadsOne(f, groups, mid, n - 1);
    HoldsMore(mid.parsed, groups, n, r.parsed);
  }

  lemma NothingRead(groups: seq<Group>)
    ensures ChartRead(AFTER_HEADER, groups, 0)
  {
  }

  /** The first `n` subgraphs are read to this. */
  ghost predicate FoldsTo(f: (Reader, string) -> Reader, groups: seq<Group>, n: nat, r: Reader)
    requires n <= |groups|
  {
    r == Fold(f, AFTER_HEADER, ChartTo(groups, n)) && ChartRead(r, groups, n)
  }

  lemma NextFolds(f: (Reader, string) -> Reader, groups: seq<Group>, n: nat, mid: Reader) returns (r: Reader)
    requires 0 < n <= |groups| && Apart(groups) && ReadsEach(f, groups) && FoldsTo(f, groups, n - 1, mid)
    ensures FoldsTo(f, groups, n, r)
  {
    var before, text := ChartTo(groups, n - 1), GroupText(groups[n - 1]);
    r := NextGroup(f, mid, groups, n, text);
    FoldAppend(f, AFTER_HEADER, before, text);
  }

  lemma {:induction false} ChartIsFolded(f: (Reader, string) -> Reader, groups: seq<Group>, n: nat) returns (r: Reader)
    requires Apart(groups) && n <= |groups| && ReadsEach(f, groups)
    ensures FoldsTo(f, groups, n, r)
  {
    if n == 0 {
      r := AFTER_HEADER;
      NothingRead(groups);
    } else {
      var mid := ChartIsFolded(f, groups, n - 1);
      r := NextFolds(f, groups, n, mid);
    }
  }

  lemma OneIsRead(groups: seq<Group>, r: Reader, g: nat)
    requires Good(groups)
    ensures ReadsOne(ReadStatement, groups, r, g)
  {
    assert GoodAt(groups, g);
    if g < |groups| && NewIn(r.parsed.nodes, groups[g]) {
      GroupIsRead(r, groups[g]);
    }
  }

  /** The subgraphs are read one after another. */
  lemma ChartIsRead(groups: seq<Group>) returns (r: Reader)
    requires Good(groups)
    ensures r == ReadAll(AFTER_HEADER, Chart(groups)) && ChartRead(r, groups, |groups|)
  {
    forall mid: Reader, g: nat ensures ReadsOne(ReadStatement, groups, mid, g) {
      OneIsRead(groups, mid, g);
    }
    r := ChartIsFolded(ReadStatement, groups, |groups|);
  }

  // ---- outside the groups ------------------------------------------------------------

  /** Both ends of the link are nodes of the group. */
  ghost predicate Inside(l: Link, g: Group) {
    l.from in Ids(g) && l.to in Ids(g)
  }

  /** A link that no group takes up. */
  ghost predicate Astray(l: Link, groups: seq<Group>) {
    l.dotted || forall g :: 0 <= g < |groups| ==> !Inside(l, groups[g])
  }

  function LinkIn(arc: Arc): Link {
    Link(ParseNode(arc.source).id, ParseNode(arc.target).id, arc.text, '.' in arc.op)
  }

  /** A statement outside the groups that opens no other, and if it is a link, joins no two nodes of one group. */
  ghost predicate Stray(s: string, groups: seq<Group>) {
    && !StartsWith(s, "subgraph ")
    && (!IsDirective(Lower(s)) && ParseEdge(s).Some? ==> Astray(LinkIn(ParseEdge(s).value), groups))
  }

  /** Nodes declared outside every group, which are none of these. */
  ghost predicate Outsiders(nodes: map<string, Node>, ids: seq<string>) {
    forall i :: 0 <= i < |ids| ==> ids[i] in nodes && nodes[ids[i]].group == None
  }

  /** What the groups are parsed to, and then what is outside them. */
  ghost predicate Holds(p: Parsed, groups: seq<Group>, more: seq<string>, links: seq<Link>) {
    && p.order == OrderTo(groups, |groups|) + more && p.links == LinksTo(groups, |groups|) + links
    && p.groups == TitlesTo(groups, |groups|)
    && KnowsAll(p.nodes, groups, |groups|) && Outsiders(p.nodes, more)
    && (forall k :: 0 <= k < |links| ==> Astray(links[k], groups))
  }

  lemma DeclareOutside(p: Parsed, groups: seq<Group>, more: seq<string>, links: seq<Link>, tok: Token)
    returns (more': seq<string>)
    requires Holds(p, groups, more, links)
    ensures Holds(Declare(p, tok, None), groups, more', links)
  {
    if tok.id in p.nodes {
      more' := more;
    } else {
      more' := more + [tok.id];
      var p' := Declare(p, tok, None);
      assert OrderTo(groups, |groups|) + more' == p.order + [tok.id];
      forall g: nat, i: nat | InGroup(groups, g, i)
        ensures NodeIs(p'.nodes, IdAt(groups, g, i), groups[g].t.vertices[i], groups[g].id) {
        assert NodeIs(p.nodes, IdAt(groups, g, i), groups[g].t.vertices[i], groups[g].id);
      }
    }
  }

  lemma LinkOutside(p: Parsed, groups: seq<Group>, more: seq<string>, links: seq<Link>, l: Link)
    requires Holds(p, groups, more, links) && Astray(l, groups)
    ensures Holds(p.(links := p.links + [l]), groups, more, links + [l])
  {
    JoinsRegroup(LinksTo(groups, |groups|), links, [l]);
  }

  lemma EndOutside(r: Reader, s: string)
    requires r.stack == [] && !StartsWith(s, "subgraph ") && Lower(s) == "end"
    ensures ReadStatement(r, s) == r
  {
  }

  lemma ArcOutside(r: Reader, s: string, arc: Arc)
    requires r.stack == [] && !StartsWith(s, "subgraph ") && Lower(s) != "end" && !IsDirective(Lower(s))
    requires ParseEdge(s) == Some(arc)
    ensures var p := Declare(Declare(r.parsed, ParseNode(arc.source), None), ParseNode(arc.target), None);
            ReadStatement(r, s) == r.(parsed := p.(links := p.links + [LinkIn(arc)]))
  {
  }

  lemma NodeOutside(r: Reader, s: string)
    requires r.stack == [] && !StartsWith(s, "subgraph ") && Lower(s) != "end" && !IsDirective(Lower(s))
    requires ParseEdge(s) == None
    ensures ReadStatement(r, s) == r.(parsed := Declare(r.parsed, ParseNode(s), None))
  {
  }

  lemma StrayIsRead(r: Reader, groups: seq<Group>, more: seq<string>, links: seq<Link>, s: string)
    returns (more': seq<string>, links': seq<Link>)
    requires r.stack == [] && Holds(r.parsed, groups, more, links) && Stray(s, groups)
    ensures var r' := ReadStatement(r, s); r'.stack == [] && Holds(r'.parsed, groups, more', links')
  {
    more', links' := more, links;
    if Lower(s) == "end" {
      EndOutside(r, s);
    } else if IsDirective(Lower(s)) {
      DirectiveStatement(r, s);
    } else if ParseEdge(s).Some? {
      var arc := ParseEdge(s).value;
      ArcOutside(r, s, arc);
      more' := DeclareOutside(r.parsed, groups, more, links, ParseNode(arc.source));
      var p := Declare(r.parsed, ParseNode(arc.source), None);
      more' := DeclareOutside(p, groups, more', links, ParseNode(arc.target));
      LinkOutside(Declare(p, ParseNode(arc.target), None), groups, more', links, LinkIn(arc));
      links' := links + [LinkIn(arc)];
    } else {
      NodeOutside(r, s);
      more' := DeclareOutside(r.parsed, groups, more, links, ParseNode(s));
    }
  }

  lemma {:induction false} StraysAreRead(r: Reader, groups: seq<Group>, strays: seq<string>)
    returns (more: seq<string>, links: seq<Link>)
    requires r.stack == [] && HoldsGroups(r.parsed, groups, |groups|)
    requires forall k :: 0 <= k < |strays| ==>
        Stray(strays[k], groups)
    ensures var r' := ReadAll(r, strays); r'.stack == [] && Holds(r'.parsed, groups, more, links)
  {
    if strays == [] {
      more, links := [], [];
      assert OrderTo(groups, |groups|) + more == OrderTo(groups, |groups|);
      assert LinksTo(groups, |groups|) + links == LinksTo(groups, |groups|);
    } else {
      var n := |strays| - 1;
      more, links := StraysAreRead(r, groups, strays[..n]);
      more, links := StrayIsRead(ReadAll(r, strays[..n]), groups, more, links, strays[n]);
    }
  }

  // ---- building -----------------------------------------------------------------------

  lemma {:induction false} MembersAppend(p: Parsed, a: seq<string>, b: seq<string>, group: Option<string>)
    ensures Members(p, a + b, group) == Members(p, a, group) + Members(p, b, group)
    decreases |b|
  {
    if b == [] {
      assert a + b == a;
    } else {
      var n := |b| - 1;
      var all := a + b;
      assert all[..|all| - 1] == a + b[..n] && all[|all| - 1] == b[n];
      MembersAppend(p, a, b[..n], group);
    }
  }

  ghost predicate BelongsTo(p: Parsed, id: string, group: Option<string>) {
    id in p.nodes && p.nodes[id].group == group
  }

  lemma OneMoreMember(p: Parsed, ids: seq<string>, id: string, group: Option<string>)
    ensures Members(p, ids + [id], group) == Members(p, ids, group) + if BelongsTo(p, id, group) then [id] else []
  {
    assert (ids + [id])[..|ids|] == ids;
  }

  /** Nodes of one group are members of that group and of no other. */
  lemma {:induction false} MembersOfOne(p: Parsed, ids: seq<string>, own: Option<string>, group: Option<string>)
    requires forall i :: 0 <= i < |ids| ==> BelongsTo(p, ids[i], own)
    ensures Members(p, ids, group) == if own == group then ids else []
    decreases |ids|
  {
    if ids != [] {
      var n := |ids| - 1;
      MembersOfOne(p, ids[..n], own, group);
      assert BelongsTo(p, ids[n], own) && ids == ids[..n] + [ids[n]];
      OneMoreMember(p, ids[..n], ids[n], group);
    }
  }

  lemma KnownInGroup(p: Parsed, groups: seq<Group>, g: nat)
    requires KnowsAll(p.nodes, groups, |groups|) && g < |groups|
    ensures forall i :: 0 <= i < |Ids(groups[g])| ==> BelongsTo(p, Ids(groups[g])[i], Some(groups[g].id))
  {
    forall i: nat | i < |Ids(groups[g])| ensures BelongsTo(p, Ids(groups[g])[i], Some(groups[g].id)) {
      assert InGroup(groups, g, i);
      assert NodeIs(p.nodes, IdAt(groups, g, i), groups[g].t.vertices[i], groups[g].id);
    }
  }

  lemma MembersOfNext(p: Parsed, groups: seq<Group>, g: nat, h: nat, before: seq<string>, own: seq<string>)
    requires KnowsAll(p.nodes, groups, |groups|) && Apart(groups) && g < |groups| && h < |groups|
    requires own == Ids(groups[h])
    ensures Members(p, before + own, Some(groups[g].id)) ==
        Members(p, before, Some(groups[g].id)) + if g == h then own else []
  {
    KnownInGroup(p, groups, h);
    MembersOfOne(p, own, Some(groups[h].id), Some(groups[g].id));
    MembersAppend(p, before, own, Some(groups[g].id));
  }

  /** After any ids a group's own are picked when it is the one sought, and otherwise none is. */
  ghost predicate PicksOwn(pick: seq<string> -> seq<string>, groups: seq<Group>, g: nat, own: seq<string>, h: nat,
    before: seq<string>)
    requires h < |groups|
  {
    (g == h ==> pick(before) == []) ==> pick(before + Ids(groups[h])) == if g == h then own else pick(before)
  }

  lemma {:induction false} PicksAddUp(pick: seq<string> -> seq<string>, groups: seq<Group>, g: nat, n: nat,
    own: seq<string>)
    requires n <= |groups| && pick([]) == []
    requires forall h: nat, before :: h < n ==> PicksOwn(pick, groups, g, own, h, before)
    ensures pick(OrderTo(groups, n)) == if g < n then own else []
    decreases n
  {
    if n > 0 {
      PicksAddUp(pick, groups, g, n - 1, own);
      assert PicksOwn(pick, groups, g, own, n - 1, OrderTo(groups, n - 1));
    }
  }

  lemma MembersAmong(p: Parsed, groups: seq<Group>, g: nat)
    requires KnowsAll(p.nodes, groups, |groups|) && Apart(groups) && g < |groups|
    ensures Members(p, OrderTo(groups, |groups|), Some(groups[g].id)) == Ids(groups[g])
  {
    var pick := (ids: seq<string>) => Members(p, ids, Some(groups[g].id));
    forall h: nat, before | h < |groups| ensures PicksOwn(pick, groups, g, Ids(groups[g]), h, before) {
      MembersOfNext(p, groups, g, h, before, Ids(groups[h]));
      EmptyAdds(pick(before));
      EmptyAdds(Ids(groups[h]));
    }
    PicksAddUp(pick, groups, g, |groups|, Ids(groups[g]));
  }

  lemma EmptyAdds<T>(s: seq<T>)
    ensures s + [] == s && [] + s == s
  {
  }

  /** The members of a group are its own nodes, in their order. */
  lemma MembersAreOwn(p: Parsed, groups: seq<Group>, more: seq<string>, links: seq<Link>, g: nat)
    requires Holds(p, groups, more, links) && Apart(groups) && g < |groups|
    ensures Members(p, p.order, Some(groups[g].id)) == Ids(groups[g])
  {
    MembersAmong(p, groups, g);
    MembersOfOne(p, more, None, Some(groups[g].id));
    MembersAppend(p, OrderTo(groups, |groups|), more, Some(groups[g].id));
  }

  /** What each id of these vertices is called. */
  ghost predicate Calls(names: map<string, VertexName>, vertices: seq<Vertex>, ids: VertexName -> string) {
    && (forall id :: id in names <==> id in IdsBy(vertices, ids))
    && (forall i :: 0 <= i < |vertices| ==>
          ids(vertices[i].name) in names && names[ids(vertices[i].name)] == vertices[i].name)
  }

  lemma CallsMore(names: map<string, VertexName>, vertices: seq<Vertex>, ids: VertexName -> string)
    requires vertices != [] && AreIds(vertices, ids) && Calls(names, vertices[..|vertices| - 1], ids)
    ensures var v := vertices[|vertices| - 1]; Calls(names[ids(v.name) := v.name], vertices, ids)
  {
    IdsSnoc(vertices, ids);
  }

  lemma OneMoreVertex(p: Parsed, pipeline: string, members: seq<string>, found: Found, id: string, v: Vertex)
    requires VerticesOf(p, pipeline, members) == Ok(found)
    requires id in p.nodes && VertexNameOf(p.nodes[id].text) == v.name && p.nodes[id].kind == Some(v.kind)
    ensures VerticesOf(p, pipeline, members + [id]) ==
        Ok(Found(found.vertices + [Redrawn(v)], found.names[id := v.name]))
  {
    var all := members + [id];
    assert all[..|all| - 1] == members && all[|all| - 1] == id;
  }

  ghost predicate KnowsGroup(p: Parsed, g: Group, vertices: seq<Vertex>) {
    forall i :: 0 <= i < |vertices| ==> NodeIs(p.nodes, g.ids(vertices[i].name), vertices[i], g.id)
  }

  /** These vertices are found in the group, and what they are called. */
  ghost predicate FoundAs(p: Parsed, g: Group, vertices: seq<Vertex>, names: map<string, VertexName>) {
    && VerticesOf(p, g.title, IdsBy(vertices, g.ids)) == Ok(Found(RedrawnAll(vertices), names))
    && Calls(names, vertices, g.ids)
  }

  lemma NextVertex(p: Parsed, g: Group, vertices: seq<Vertex>, names: map<string, VertexName>)
    requires vertices != [] && AreIds(vertices, g.ids) && FoundAs(p, g, vertices[..|vertices| - 1], names)
    requires NodeIs(p.nodes, g.ids(vertices[|vertices| - 1].name), vertices[|vertices| - 1], g.id)
    ensures var v := vertices[|vertices| - 1]; FoundAs(p, g, vertices, names[g.ids(v.name) := v.name])
  {
    var before, v := vertices[..|vertices| - 1], vertices[|vertices| - 1];
    IdsSnoc(vertices, g.ids);
    NameIsKept(v.name);
    OneMoreVertex(p, g.title, IdsBy(before, g.ids), Found(RedrawnAll(before), names), g.ids(v.name), v);
    assert RedrawnAll(vertices) == RedrawnAll(before) + [Redrawn(v)];
    CallsMore(names, vertices, g.ids);
  }

  lemma {:induction false} GroupVertices(p: Parsed, g: Group, vertices: seq<Vertex>)
    returns (names: map<string, VertexName>)
    requires AreIds(vertices, g.ids) && KnowsGroup(p, g, vertices)
    ensures FoundAs(p, g, vertices, names)
    decreases |vertices|
  {
    if vertices == [] {
      names := map[];
    } else {
      var v := vertices[|vertices| - 1];
      var before := GroupVertices(p, g, vertices[..|vertices| - 1]);
      names := before[g.ids(v.name) := v.name];
      NextVertex(p, g, vertices, before);
    }
  }

  /** The links that a group of these names takes up. */
  ghost predicate TakesUp(names: map<string, VertexName>, l: Link) {
    !l.dotted && l.from in names && l.to in names
  }

  lemma {:induction false} OthersAreSkipped(links: seq<Link>, more: seq<Link>, names: map<string, VertexName>)
    requires forall k :: 0 <= k < |more| ==> !TakesUp(names, more[k])
    ensures EdgesOf(links + more, names) == EdgesOf(links, names)
    decreases |more|
  {
    if more == [] {
      assert links + more == links;
    } else {
      var n := |more| - 1;
      var all := links + more;
      assert all[..|all| - 1] == links + more[..n] && all[|all| - 1] == more[n];
      assert !TakesUp(names, more[n]);
      OthersAreSkipped(links, more[..n], names);
    }
  }

  /** An edge whose line is read as a link, and an undotted one. */
  predicate Passes(ids: VertexName -> string, e: Edge) {
    e.onFull == RetryUntilSuccess && !IsDirectiveWord(ids(e.from))
  }

  /** The topology that comes back from a group. */
  function RedrawGroup(g: Group): Topology {
    Topology(RedrawnAll(g.t.vertices), KeptIf(g.t.edges, e => Passes(g.ids, e)))
  }

  ghost predicate CallsEnds(names: map<string, VertexName>, e: Edge, ids: VertexName -> string) {
    && ids(e.from) in names && names[ids(e.from)] == e.from
    && ids(e.to) in names && names[ids(e.to)] == e.to
  }

  lemma {:induction false} OwnLinksAreBuilt(links: seq<Link>, edges: seq<Edge>, ids: VertexName -> string,
    names: map<string, VertexName>)
    requires EdgesOf(links, names) == [] && DistinctEnds(edges)
    requires forall i :: 0 <= i < |edges| ==> CallsEnds(names, edges[i], ids)
    ensures EdgesOf(links + LinksBy(edges, ids), names) == KeptIf(edges, e => Passes(ids, e))
    decreases |edges|
  {
    var passes := (e: Edge) => Passes(ids, e);
    if edges == [] {
      assert links + [] == links;
    } else {
      var n := |edges| - 1;
      OwnLinksAreBuilt(links, edges[..n], ids, names);
      assert CallsEnds(names, edges[n], ids);
      NewEndsKept(edges, passes);
      OwnLinkIsBuilt(links + LinksBy(edges[..n], ids), edges[n], ids, names);
      JoinsRegroup(links, LinksBy(edges[..n], ids), LastLink(edges[n], ids));
    }
  }

  lemma OneMoreLink(links: seq<Link>, l: Link, names: map<string, VertexName>, before: seq<Edge>)
    requires EdgesOf(links, names) == before && l.from in names && l.to in names
    requires !HasEnds(before, names[l.from], names[l.to])
    ensures EdgesOf(links + [l], names) == if l.dotted then before else before + [EdgeOf(l, names)]
  {
    var all := links + [l];
    assert all[..|all| - 1] == links && all[|all| - 1] == l;
  }

  lemma LinkIsReread(e: Edge, ids: VertexName -> string, names: map<string, VertexName>)
    requires CallsEnds(names, e, ids)
    ensures EdgeOf(LinkBy(e, ids), names) == Reread(e)
    ensures LinkBy(e, ids).dotted <==> e.onFull != RetryUntilSuccess
  {
  }

  lemma OwnLinkIsBuilt(links: seq<Link>, e: Edge, ids: VertexName -> string, names: map<string, VertexName>)
    requires CallsEnds(names, e, ids) && !HasEnds(EdgesOf(links, names), e.from, e.to)
    ensures EdgesOf(links + LastLink(e, ids), names) ==
        EdgesOf(links, names) + if Passes(ids, e) then [Reread(e)] else []
  {
    var before := EdgesOf(links, names);
    EmptyAdds(before);
    EmptyAdds(links);
    if !IsDirectiveWord(ids(e.from)) {
      LinkIsReread(e, ids, names);
      OneMoreLink(links, LinkBy(e, ids), names, before);
    }
  }

  /** Another group's links have no end among this group's names. */
  lemma OthersAreForeign(groups: seq<Group>, g: nat, h: nat, edges: seq<Edge>, names: map<string, VertexName>)
    requires Good(groups) && g < |groups| && h < |groups| && g != h
    requires Calls(names, groups[g].t.vertices, groups[g].ids)
    requires forall e :: e in edges ==> Declared(groups[h].t.vertices, e.from)
    ensures forall k :: 0 <= k < |LinksBy(edges, groups[h].ids)| ==> !TakesUp(names, LinksBy(edges, groups[h].ids)[k])
    decreases |edges|
  {
    if edges != [] {
      var n := |edges| - 1;
      OthersAreForeign(groups, g, h, edges[..n], names);
      assert edges[n] in edges;
      ForeignId(groups, g, h, edges[n].from);
    }
  }

  lemma ForeignId(groups: seq<Group>, g: nat, h: nat, name: VertexName)
    requires Good(groups) && g < |groups| && h < |groups| && g != h && Declared(groups[h].t.vertices, name)
    ensures groups[h].ids(name) !in Ids(groups[g])
  {
    var j :| 0 <= j < |groups[h].t.vertices| && groups[h].t.vertices[j].name == name;
    forall i: nat | i < |Ids(groups[g])| ensures Ids(groups[g])[i] != groups[h].ids(name) {
      assert InGroup(groups, g, i) && InGroup(groups, h, j);
      assert IdAt(groups, g, i) != IdAt(groups, h, j);
    }
  }

  lemma EndsAreCalled(g: Group, names: map<string, VertexName>)
    requires GoodGroup(g) && Calls(names, g.t.vertices, g.ids)
    ensures forall i :: 0 <= i < |g.t.edges| ==> CallsEnds(names, g.t.edges[i], g.ids)
  {
    forall i | 0 <= i < |g.t.edges| ensures CallsEnds(names, g.t.edges[i], g.ids) {
      assert g.t.edges[i] in g.t.edges;
      IsCalled(g.t.vertices, g.ids, names, g.t.edges[i].from);
      IsCalled(g.t.vertices, g.ids, names, g.t.edges[i].to);
    }
  }

  lemma IsCalled(vertices: seq<Vertex>, ids: VertexName -> string, names: map<string, VertexName>, name: VertexName)
    requires Calls(names, vertices, ids) && Declared(vertices, name)
    ensures ids(name) in names && names[ids(name)] == name
  {
    var i :| 0 <= i < |vertices| && vertices[i].name == name;
    assert names[ids(vertices[i].name)] == vertices[i].name;
  }

  lemma LinksOfNext(groups: seq<Group>, g: nat, h: nat, before: seq<Link>, own: seq<Link>,
    names: map<string, VertexName>)
    requires Good(groups) && g < |groups| && h < |groups| && Calls(names, groups[g].t.vertices, groups[g].ids)
    requires own == LinksBy(groups[h].t.edges, groups[h].ids) && (g == h ==> EdgesOf(before, names) == [])
    ensures EdgesOf(before + own, names) == if g == h then RedrawGroup(groups[g]).edges else EdgesOf(before, names)
  {
    assert GoodAt(groups, g) && GoodAt(groups, h);
    if g == h {
      EndsAreCalled(groups[g], names);
      OwnLinksAreBuilt(before, groups[g].t.edges, groups[g].ids, names);
    } else {
      OthersAreForeign(groups, g, h, groups[h].t.edges, names);
      OthersAreSkipped(before, own, names);
    }
  }

  /** After any links a group's own give its edges when it is the one sought, and otherwise nothing. */
  ghost predicate AddsOwn(pick: seq<Link> -> seq<Edge>, groups: seq<Group>, g: nat, own: seq<Edge>, h: nat,
    before: seq<Link>)
    requires h < |groups|
  {
    (g == h ==> pick(before) == []) ==>
      pick(before + LinksBy(groups[h].t.edges, groups[h].ids)) == if g == h then own else pick(before)
  }

  lemma {:induction false} LinksAddUp(pick: seq<Link> -> seq<Edge>, groups: seq<Group>, g: nat, n: nat, own: seq<Edge>)
    requires n <= |groups| && pick([]) == []
    requires forall h: nat, before :: h < n ==> AddsOwn(pick, groups, g, own, h, before)
    ensures pick(LinksTo(groups, n)) == if g < n then own else []
    decreases n
  {
    if n > 0 {
      LinksAddUp(pick, groups, g, n - 1, own);
      assert AddsOwn(pick, groups, g, own, n - 1, LinksTo(groups, n - 1));
    }
  }

  /** Of all the links a group takes up its own. */
  lemma OwnLinksAmong(groups: seq<Group>, g: nat, names: map<string, VertexName>, own: seq<Edge>)
    requires Good(groups) && g < |groups| && Calls(names, groups[g].t.vertices, groups[g].ids)
    requires own == RedrawGroup(groups[g]).edges
    ensures EdgesOf(LinksTo(groups, |groups|), names) == own
  {
    var pick := (links: seq<Link>) => EdgesOf(links, names);
    forall h: nat, before | h < |groups| ensures AddsOwn(pick, groups, g, own, h, before) {
      if g == h ==> pick(before) == [] {
        LinksOfNext(groups, g, h, before, LinksBy(groups[h].t.edges, groups[h].ids), names);
      }
    }
    LinksAddUp(pick, groups, g, |groups|, own);
  }

  lemma GroupEdgesAreBuilt(p: Parsed, groups: seq<Group>, more: seq<string>, links: seq<Link>, g: nat,
    names: map<string, VertexName>)
    requires Holds(p, groups, more, links) && Good(groups) && g < |groups|
    requires Calls(names, groups[g].t.vertices, groups[g].ids)
    ensures EdgesOf(p.links, names) == RedrawGroup(groups[g]).edges
  {
    OwnLinksAmong(groups, g, names, RedrawGroup(groups[g]).edges);
    forall k | 0 <= k < |links| ensures !TakesUp(names, links[k]) {
      assert Astray(links[k], groups) && (links[k].dotted || !Inside(links[k], groups[g]));
    }
    OthersAreSkipped(LinksTo(groups, |groups|), links, names);
  }

  lemma KnowsOne(p: Parsed, groups: seq<Group>, g: nat)
    requires KnowsAll(p.nodes, groups, |groups|) && g < |groups|
    ensures KnowsGroup(p, groups[g], groups[g].t.vertices)
  {
    var group := groups[g];
    forall i: nat | i < |group.t.vertices|
      ensures NodeIs(p.nodes, group.ids(group.t.vertices[i].name), group.t.vertices[i], group.id) {
      assert InGroup(groups, g, i);
      assert NodeIs(p.nodes, IdAt(groups, g, i), groups[g].t.vertices[i], groups[g].id);
    }
  }

  /** Each group is built as the topology inside its subgraph, redrawn. */
  lemma GroupIsBuilt(p: Parsed, groups: seq<Group>, more: seq<string>, links: seq<Link>, g: nat)
    requires Holds(p, groups, more, links) && Good(groups) && g < |groups|
    ensures BuildGroup(p, Some(groups[g].id), groups[g].title) ==
        Ok([(groups[g].title, RedrawGroup(groups[g]))])
  {
    var group := groups[g];
    assert GoodAt(groups, g);
    MembersAreOwn(p, groups, more, links, g);
    KnowsOne(p, groups, g);
    var names := GroupVertices(p, group, group.t.vertices);
    GroupEdgesAreBuilt(p, groups, more, links, g, names);
    RedrawnIsValid(group.t, e => Passes(group.ids, e));
    CheckedMeans(RedrawGroup(group).vertices, RedrawGroup(group).edges);
  }

  /** What the groups come back as, in order. */
  function Redrawings(groups: seq<Group>): (r: Pipelines)
    ensures |r| == |groups| && forall g :: 0 <= g < |r| ==> r[g] == (groups[g].title, RedrawGroup(groups[g]))
  {
    seq(|groups|, g requires 0 <= g < |groups| => (groups[g].title, RedrawGroup(groups[g])))
  }

  lemma Listed(groups: seq<Group>, k: nat)
    requires k < |groups|
    ensures |GroupList(TitlesTo(groups, |groups|))| == |groups|
    ensures GroupList(TitlesTo(groups, |groups|))[k] == (Some(groups[k].id), groups[k].title)
  {
  }

  ghost predicate OneIsBuilt(p: Parsed, list: seq<(Option<string>, string)>, out: Pipelines, k: nat)
    requires k < |list| == |out|
  {
    BuildGroup(p, list[k].0, list[k].1) == Ok([out[k]])
  }

  lemma OneMoreBuilt(p: Parsed, list: seq<(Option<string>, string)>, out: Pipelines, k: nat)
    requires k < |list| == |out| && OneIsBuilt(p, list, out, k) && BuildGroups(p, list[..k]) == Ok(out[..k])
    ensures BuildGroups(p, list[..k + 1]) == Ok(out[..k + 1])
  {
    assert list[..k + 1][..k] == list[..k] && out[..k + 1] == out[..k] + [out[k]];
  }

  lemma {:induction false} StepByStep(holds: nat -> bool, n: nat)
    requires holds(0) && forall k: nat :: k < n && holds(k) ==> holds(k + 1)
    ensures holds(n)
  {
    if n > 0 {
      StepByStep(holds, n - 1);
    }
  }

  lemma EachIsBuilt(p: Parsed, list: seq<(Option<string>, string)>, out: Pipelines)
    requires |list| == |out| && forall k: nat :: k < |list| ==> OneIsBuilt(p, list, out, k)
    ensures BuildGroups(p, list) == Ok(out)
  {
    var holds := (k: nat) => k <= |list| == |out| ==> BuildGroups(p, list[..k]) == Ok(out[..k]);
    forall k: nat | k < |list| && holds(k) ensures holds(k + 1) {
      OneMoreBuilt(p, list, out, k);
    }
    StepByStep(holds, |list|);
    assert list[..|list|] == list && out[..|out|] == out;
  }

  lemma AllAreBuilt(p: Parsed, groups: seq<Group>, more: seq<string>, links: seq<Link>)
    requires Holds(p, groups, more, links) && Good(groups) && groups != []
    ensures Built(p) == Ok(Redrawings(groups))
  {
    var list, out := GroupList(p.groups), Redrawings(groups);
    forall k: nat | k < |groups| ensures |list| == |groups| && OneIsBuilt(p, list, out, k) {
      Listed(groups, k);
      GroupIsBuilt(p, groups, more, links, k);
    }
    assert OneIsBuilt(p, list, out, 0);
    EachIsBuilt(p, list, out);
  }

  /**
   * A text of subgraphs, whatever its comments and indents, is imported as the topologies inside them, in
   * order and under their labels. What else stands outside the subgraphs leaves no trace.
   */
  lemma GroupsComeBack(src: string, head: string, groups: seq<Group>, strays: seq<string>)
    requires Statements(Lines(src)) == [head] + (Chart(groups) + strays) && IsHead(head)
    requires groups != [] && Good(groups) && forall k :: 0 <= k < |strays| ==> Stray(strays[k], groups)
    ensures Imported(src) == Ok(Redrawings(groups))
  {
    TextIsRead(Lines(src), head, Chart(groups) + strays);
    var r := ChartIsRead(groups);
    var more, links := StraysAreRead(r, groups, strays);
    ReadAllAppend(AFTER_HEADER, Chart(groups), strays);
    AllAreBuilt(ReadAll(r, strays).parsed, groups, more, links);
  }
}
