/** Texts whose lines are the statements of subgraphs, and what may stand beside them. */
module MermaidGroupText {
  import opened Names
  import opened Text
  import opened TopologyModel
  import opened Mermaid
  import opened MermaidIn
  import opened MermaidLines
  import opened MermaidRoundTrip
  import opened MermaidGroups

  // ---- lines that hold one statement ---------------------------------------------

  ghost predicate Blanks(pad: string) {
    forall k :: 0 <= k < |pad| ==> pad[k] == ' '
  }

  /** A statement that a line can hold: nothing to trim, no comment and no newline. */
  ghost predicate Tidy(s: string) {
    s != "" && Solid(s) && '\n' !in s && CommentAt(s, 0, false) == |s|
  }

  /** Each statement on a line of its own, indented at will. */
  function Indented(pads: seq<string>, statements: seq<string>): (r: seq<string>)
    requires |pads| == |statements|
    ensures |r| == |pads| && forall k :: 0 <= k < |r| ==> r[k] == pads[k] + statements[k]
  {
    seq(|pads|, k requires 0 <= k < |pads| => pads[k] + statements[k])
  }

  lemma {:induction false} CommentShift(a: string, s: string, i: nat, inQuote: bool)
    requires i <= |s|
    ensures CommentAt(a + s, |a| + i, inQuote) == |a| + CommentAt(s, i, inQuote)
    decreases |s| - i
  {
    if i < |s| {
      assert (a + s)[|a| + i] == s[i] && (a + s)[|a| + i..] == s[i..];
      CommentShift(a, s, i + 1, inQuote);
      CommentShift(a, s, i + 1, !inQuote);
    }
  }

  /** No comment starts before `j`, and the quotes stand as they did. */
  lemma {:induction false} CommentLater(s: string, i: nat, j: nat, inQuote: bool)
    requires i <= j <= |s| && forall k :: i <= k < j ==> s[k] != '"' && (s[k] != '%' || inQuote)
    ensures CommentAt(s, i, inQuote) == CommentAt(s, j, inQuote)
    decreases j - i
  {
    if i < j {
      CommentLater(s, i + 1, j, inQuote);
    }
  }

  lemma {:induction false} TrimStartBlanks(pad: string, s: string)
    requires Blanks(pad) && s != "" && Solid(s)
    ensures TrimStart(pad + s) == s
    decreases |pad|
  {
    if pad == "" {
      assert pad + s == s;
    } else {
      var all := pad + s;
      assert all[0] == pad[0] && all[1..] == pad[1..] + s;
      TrimStartBlanks(pad[1..], s);
    }
  }

  lemma BareIsStatement(pad: string, s: string)
    requires Blanks(pad) && Tidy(s)
    ensures Bare(pad + s) == s && IsLine(pad + s)
  {
    var line := pad + s;
    forall k | 0 <= k < |pad| ensures line[k] == ' ' {
      assert line[k] == pad[k];
    }
    CommentLater(line, 0, |pad|, false);
    CommentShift(pad, s, 0, false);
    assert line[..|line|] == line;
    TrimStartBlanks(pad, s);
    TrimSolid(s);
    assert line[|line| - 1] == s[|s| - 1];
  }

  ghost predicate AllTidy(statements: seq<string>) {
    forall k :: 0 <= k < |statements| ==> Tidy(statements[k])
  }

  ghost predicate AllBlanks(pads: seq<string>) {
    forall k :: 0 <= k < |pads| ==> Blanks(pads[k])
  }

  lemma {:induction false} IndentedStatements(pads: seq<string>, statements: seq<string>)
    requires |pads| == |statements| && AllBlanks(pads) && AllTidy(statements)
    ensures Statements(Indented(pads, statements)) == statements
    decreases |pads|
  {
    if pads != [] {
      var lines := Indented(pads, statements);
      assert lines[1..] == Indented(pads[1..], statements[1..]);
      IndentedStatements(pads[1..], statements[1..]);
      assert Blanks(pads[0]) && Tidy(statements[0]);
      BareIsStatement(pads[0], statements[0]);
      assert statements == [statements[0]] + statements[1..];
    }
  }

  /** The statements of a text are those its lines were made of. */
  lemma StatementsOfText(pads: seq<string>, statements: seq<string>)
    requires |pads| == |statements| && AllBlanks(pads) && AllTidy(statements)
    ensures Statements(Lines(Unlines(Indented(pads, statements)))) == statements
  {
    var lines := Indented(pads, statements);
    forall k | 0 <= k < |lines| ensures IsLine(lines[k]) {
      assert Blanks(pads[k]) && Tidy(statements[k]);
      BareIsStatement(pads[k], statements[k]);
    }
    LinesOfUnlines(lines);
    IndentedStatements(pads, statements);
  }

  // ---- the statements of a group -----------------------------------------------------

  /** Between quotes nothing starts a comment. */
  lemma QuotedHasNoComment(head: string, quoted: string, tail: string)
    requires '"' !in head && '%' !in head && '"' !in quoted && '"' !in tail && '%' !in tail
    ensures var s := head + ("\"" + (quoted + ("\"" + tail))); CommentAt(s, 0, false) == |s|
  {
    var rest := quoted + ("\"" + tail);
    var s := head + ("\"" + rest);
    var i, j := |head| + 1, |head| + 1 + |quoted|;
    forall k | 0 <= k < |head| ensures s[k] != '"' && s[k] != '%' {
      assert s[k] == head[k] && head[k] in head;
    }
    CommentLater(s, 0, |head|, false);
    forall k | i <= k < j ensures s[k] != '"' {
      assert s[k] == quoted[k - i] && quoted[k - i] in quoted;
    }
    CommentLater(s, i, j, true);
    assert s[|head|] == '"' && s[j] == '"';
    forall k | j + 1 <= k < |s| ensures s[k] != '"' && s[k] != '%' {
      assert s[k] == tail[k - j - 1] && tail[k - j - 1] in tail;
    }
    CommentLater(s, j + 1, |s|, false);
  }

  lemma OpeningIsTidy(id: string, title: string)
    requires IsId(id) && '"' !in title && '\n' !in title
    ensures Tidy(Opening(id, title))
  {
    OpeningParts(id, title);
    var head := "subgraph " + (id + "[");
    OpeningRegroup(id, title);
    assert '"' !in head && '%' !in head && '\n' !in head;
    assert '"' !in "]" && '%' !in "]";
    QuotedHasNoComment(head, title, "]");
    assert '\n' !in head + ("\"" + (title + ("\"" + "]")));
  }

  lemma OpeningRegroup(id: string, title: string)
    ensures Opening(id, title) == "subgraph " + (id + "[") + ("\"" + (title + ("\"" + "]")))
  {
    assert "[\"" + (title + "\"]") == "[" + ("\"" + (title + ("\"" + "]")));
  }

  lemma LabelledIsTidy(id: string, v: Vertex)
    requires IsId(id)
    ensures Tidy(Labelled(id, v))
  {
    LabelledIsSolid(id, v);
    NoComment(Labelled(id, v), 0, false);
  }

  lemma JoinsFive(a: string, b: string, c: string, d: string, e: string)
    ensures a + (b + (c + d + e)) == (a + (b + c)) + d + e
  {
  }

  lemma PlainEnds(from: string, arrow: string, mid: string, end: string, to: string)
    requires IsId(from) && IsId(to) && (arrow == "-->" || arrow == "-.->")
    requires '%' !in mid && '"' !in mid && '\n' !in mid && '%' !in end && '"' !in end && '\n' !in end
    ensures var a, b := from + (" " + arrow + mid), end + to;
            '%' !in a && '"' !in a && '\n' !in a && '%' !in b && '"' !in b && '\n' !in b
  {
    assert '%' !in " " + arrow && '"' !in " " + arrow && '\n' !in " " + arrow;
  }

  lemma TailIs(text: Option<string>, to: string)
    ensures Tail(text, to) == match text { case Some(l) => "|" + l + ("| " + to) case None => " " + "" + ("" + to) }
  {
  }

  /** Around its label a statement is plain. */
  lemma StatementParts(from: string, arrow: string, text: Option<string>, to: string)
    returns (a: string, l: string, b: string)
    requires Words(from, arrow, text, to)
    ensures Statement(from, arrow, text, to) == a + l + b && l == (if text.Some? then text.value else "")
    ensures '%' !in a && '"' !in a && '\n' !in a && '%' !in b && '"' !in b && '\n' !in b
  {
    var mid, end := if text.Some? then "|" else " ", if text.Some? then "| " else "";
    l := if text.Some? then text.value else "";
    a, b := from + (" " + arrow + mid), end + to;
    TailIs(text, to);
    JoinsFive(from, " " + arrow, mid, l, b);
    PlainEnds(from, arrow, mid, end, to);
  }

  lemma StatementIsTidy(from: string, arrow: string, text: Option<string>, to: string)
    requires Words(from, arrow, text, to)
    ensures Tidy(Statement(from, arrow, text, to))
  {
    StatementIsSolid(from, arrow, text, to);
    var a, l, b := StatementParts(from, arrow, text, to);
    LabelHasNoPair(l, text);
    FirstPair(a, l, b);
    CommentIsFirstPair(a + l + b, 0);
  }

  lemma LabelHasNoPair(l: string, text: Option<string>)
    requires text.Some? ==> IsLabel(text.value)
    requires l == (if text.Some? then text.value else "")
    ensures '"' !in l && '\n' !in l && Find(l, "%%") == None
  {
    if text.None? {
      FindNeeds(l, "%%", 0);
    }
  }

  lemma EndIsTidy()
    ensures Tidy("end")
  {
    NoComment("end", 0, false);
  }

  lemma {:induction false} NodesAreTidy(vertices: seq<Vertex>, ids: VertexName -> string)
    requires forall i :: 0 <= i < |vertices| ==> IsId(ids(vertices[i].name))
    ensures forall s :: s in NodesIn(vertices, ids) ==> Tidy(s)
    decreases |vertices|
  {
    if vertices != [] {
      var n := |vertices| - 1;
      NodesAreTidy(vertices[..n], ids);
      LabelledIsTidy(ids(vertices[n].name), vertices[n]);
    }
  }

  ghost predicate EdgeWords(e: Edge, ids: VertexName -> string) {
    Words(ids(e.from), Arrow(e.onFull), TextOf(e), ids(e.to))
  }

  lemma {:induction false} EdgesAreTidy(edges: seq<Edge>, ids: VertexName -> string)
    requires forall i :: 0 <= i < |edges| ==> EdgeWords(edges[i], ids)
    ensures forall s :: s in EdgesIn(edges, ids) ==> Tidy(s)
    decreases |edges|
  {
    if edges != [] {
      var n := |edges| - 1;
      EdgesAreTidy(edges[..n], ids);
      assert EdgeWords(edges[n], ids);
      StatementIsTidy(ids(edges[n].from), Arrow(edges[n].onFull), TextOf(edges[n]), ids(edges[n].to));
    }
  }

  lemma NameHasId(g: Group, name: VertexName)
    requires AreIds(g.t.vertices, g.ids) && Declared(g.t.vertices, name)
    ensures IsId(g.ids(name))
  {
    var i :| 0 <= i < |g.t.vertices| && g.t.vertices[i].name == name;
    assert IsId(g.ids(g.t.vertices[i].name));
  }

  lemma GroupIsTidy(g: Group)
    requires GoodGroup(g) && '\n' !in g.title
    ensures forall s :: s in GroupText(g) ==> Tidy(s)
  {
    OpeningIsTidy(g.id, g.title);
    EndIsTidy();
    NodesAreTidy(g.t.vertices, g.ids);
    forall i | 0 <= i < |g.t.edges| ensures EdgeWords(g.t.edges[i], g.ids) {
      assert g.t.edges[i] in g.t.edges && CleanEdge(g.t.edges[i]);
      NameHasId(g, g.t.edges[i].from);
      NameHasId(g, g.t.edges[i].to);
    }
    EdgesAreTidy(g.t.edges, g.ids);
  }

  ghost predicate GoodTitles(groups: seq<Group>) {
    forall g :: 0 <= g < |groups| ==> '\n' !in groups[g].title
  }

  lemma {:induction false} ChartIsTidy(groups: seq<Group>, n: nat)
    requires n <= |groups| && Good(groups) && GoodTitles(groups)
    ensures forall s :: s in ChartTo(groups, n) ==> Tidy(s)
  {
    if n > 0 {
      ChartIsTidy(groups, n - 1);
      assert GoodAt(groups, n - 1);
      GroupIsTidy(groups[n - 1]);
    }
  }

  lemma InThreeParts(head: string, a: seq<string>, b: seq<string>, s: string)
    requires s in [head] + (a + b)
    ensures s == head || s in a || s in b
  {
  }

  lemma TextIsTidy(head: string, groups: seq<Group>, strays: seq<string>)
    requires Tidy(head) && Good(groups) && GoodTitles(groups) && AllTidy(strays)
    ensures AllTidy([head] + (Chart(groups) + strays))
  {
    ChartIsTidy(groups, |groups|);
    var all := [head] + (Chart(groups) + strays);
    forall k | 0 <= k < |all| ensures Tidy(all[k]) {
      InThreeParts(head, Chart(groups), strays, all[k]);
    }
  }

  /** Printed line by line and indented at will, such a text comes back as the topologies in its subgraphs. */
  lemma TextComesBack(head: string, groups: seq<Group>, strays: seq<string>, pads: seq<string>)
    requires Tidy(head) && IsHead(head) && Good(groups) && GoodTitles(groups) && groups != []
    requires AllTidy(strays) && forall k :: 0 <= k < |strays| ==> Stray(strays[k], groups)
    requires |pads| == |[head] + (Chart(groups) + strays)| && AllBlanks(pads)
    ensures Imported(Unlines(Indented(pads, [head] + (Chart(groups) + strays)))) == Ok(Redrawings(groups))
  {
    var all := [head] + (Chart(groups) + strays);
    TextIsTidy(head, groups, strays);
    StatementsOfText(pads, all);
    GroupsComeBack(Unlines(Indented(pads, all)), head, groups, strays);
  }

  // ---- beside the groups --------------------------------------------------------------

  /** No group has both nodes. */
  ghost predicate JoinsNone(groups: seq<Group>, a: string, b: string) {
    forall g :: 0 <= g < |groups| ==> a !in Ids(groups[g]) || b !in Ids(groups[g])
  }

  lemma OpensNone(from: string, arrow: string, tail: string)
    requires ' ' !in from && from != "subgraph"
    ensures !StartsWith(from + (" " + arrow + tail), "subgraph ")
  {
    assert from + (" " + arrow + tail) == from + (" " + (arrow + tail));
    FirstWordIs(from, arrow + tail, "subgraph");
    KeywordSpellings();
  }

  lemma LinkInIsAstray(groups: seq<Group>, from: string, arrow: string, text: Option<string>, to: string)
    requires arrow == "-.->" || JoinsNone(groups, ParseNode(from).id, ParseNode(to).id)
    ensures Astray(LinkIn(Arc(from, arrow, text, to)), groups)
  {
    if arrow == "-.->" {
      assert arrow[1] == '.';
    }
  }

  lemma ArcIsStray(s: string, groups: seq<Group>, arc: Arc)
    requires !StartsWith(s, "subgraph ") && ParseEdge(s) == Some(arc) && Astray(LinkIn(arc), groups)
    ensures Stray(s, groups)
  {
  }

  /** A link that is dotted, or joins no two nodes of one group, is dropped. */
  lemma LinkIsStray(groups: seq<Group>, from: string, arrow: string, text: Option<string>, to: string)
    requires IsToken(from) && IsToken(to) && from != "subgraph" && (arrow == "-->" || arrow == "-.->")
    requires text.Some? ==> IsLabel(text.value)
    requires arrow == "-.->" || JoinsNone(groups, ParseNode(from).id, ParseNode(to).id)
    ensures Stray(Statement(from, arrow, text, to), groups)
  {
    var arc := Arc(from, arrow, TrimmedText(text), to);
    OpensNone(from, arrow, Tail(text, to));
    TokensAreRead(from, arrow, text, to);
    LinkInIsAstray(groups, from, arrow, TrimmedText(text), to);
    ArcIsStray(Statement(from, arrow, text, to), groups, arc);
  }

  /** So is every link from one group to another. */
  lemma CrossLinkIsStray(groups: seq<Group>, g: nat, h: nat, a: VertexName, b: VertexName, arrow: string,
    text: Option<string>)
    requires Good(groups) && g < |groups| && h < |groups| && g != h
    requires Declared(groups[g].t.vertices, a) && Declared(groups[h].t.vertices, b)
    requires groups[g].ids(a) != "subgraph" && (arrow == "-->" || arrow == "-.->")
    requires text.Some? ==> IsLabel(text.value)
    ensures Stray(Statement(groups[g].ids(a), arrow, text, groups[h].ids(b)), groups)
  {
    var from, to := groups[g].ids(a), groups[h].ids(b);
    assert GoodAt(groups, g) && GoodAt(groups, h);
    NameHasId(groups[g], a);
    NameHasId(groups[h], b);
    IdIsToken(from);
    IdIsToken(to);
    IdIsRead(from);
    IdIsRead(to);
    forall k | 0 <= k < |groups| ensures from !in Ids(groups[k]) || to !in Ids(groups[k]) {
      if k == g {
        ForeignId(groups, g, h, b);
      } else {
        ForeignId(groups, k, g, a);
      }
    }
    LinkIsStray(groups, from, arrow, text, to);
  }

  /** A node outside the groups, written in round brackets. */
  function External(id: string, title: string): string {
    Shaped(id, "(", title, ")")
  }

  predicate TitleChar(c: char) {
    IsLowerAlnum(c) || c == '-' || c == '_'
  }

  ghost predicate PlainTitle(title: string) {
    forall i :: 0 <= i < |title| ==> TitleChar(title[i])
  }

  lemma ExternalChars(id: string, title: string, i: nat)
    requires IsId(id) && PlainTitle(title) && i < |External(id, title)|
    ensures var c := External(id, title)[i]; TitleChar(c) || c == '(' || c == '"' || c == ')'
    ensures External(id, title)[i] == '(' <==> i == |id|
  {
    var s := External(id, title);
    assert s == id + "(" + "\"" + title + "\"" + ")";
    if i < |id| {
      assert s[i] == id[i] && id[i] in id;
    } else if |id| + 2 <= i < |id| + 2 + |title| {
      assert s[i] == title[i - |id| - 2];
    }
  }

  lemma RoundIsSingle(id: string, title: string, open: string, close: string)
    requires IsId(id) && PlainTitle(title) && |open| == 2 && open[0] == '(' && open[1] != '"' && open[1] !in close
    ensures InShape(External(id, title), open, close) == None
  {
    var s := External(id, title);
    assert s[|id| + 1] == '"';
    var r := Find(s, open);
    if r.Some? {
      ExternalChars(id, title, r.value);
      OccursNeeds(s, open, r.value, 1);
    }
  }

  lemma ExternalLacks(id: string, title: string, c: char)
    requires IsId(id) && PlainTitle(title) && !TitleChar(c) && c != '(' && c != '"' && c != ')'
    ensures c !in External(id, title)
  {
    var s := External(id, title);
    if c in s {
      var i :| 0 <= i < |s| && s[i] == c;
      ExternalChars(id, title, i);
    }
  }

  lemma ExternalIsToken(id: string, title: string)
    requires IsId(id) && PlainTitle(title)
    ensures IsToken(External(id, title)) && External(id, title) != "subgraph"
  {
    var s := External(id, title);
    ExternalLacks(id, title, ' ');
    assert s[0] == id[0] && id[0] in id && s[|s| - 1] == ')';
  }

  lemma ExternalIsRead(id: string, title: string)
    requires IsId(id) && PlainTitle(title)
    ensures ParseNode(External(id, title)) == Token(id, title, None)
  {
    var s := External(id, title);
    ExternalLacks(id, title, '[');
    ExternalLacks(id, title, '{');
    RoundIsSingle(id, title, "([", "])");
    NotInShape(s, "[[", "]]");
    RoundIsSingle(id, title, "((", "))");
    NotInShape(s, "{{", "}}");
    NotInShape(s, "[", "]");
    InShapeIs(id, "(", title, ")");
  }

  /** A link between an external node, declared in place, and a node of a group is dropped, and so is the node. */
  lemma ExternalLinkIsStray(groups: seq<Group>, id: string, title: string, arrow: string, text: Option<string>,
    to: string)
    requires IsId(id) && PlainTitle(title) && IsId(to) && (arrow == "-->" || arrow == "-.->")
    requires text.Some? ==> IsLabel(text.value)
    requires forall g :: 0 <= g < |groups| ==> id !in Ids(groups[g])
    ensures Stray(Statement(External(id, title), arrow, text, to), groups)
    ensures to != "subgraph" ==> Stray(Statement(to, arrow, text, External(id, title)), groups)
  {
    ExternalIsRead(id, title);
    IdIsToken(to);
    IdIsRead(to);
    ExternalIsToken(id, title);
    LinkIsStray(groups, External(id, title), arrow, text, to);
    if to != "subgraph" {
      LinkIsStray(groups, to, arrow, text, External(id, title));
    }
  }

  // ---- one prefix to a group --------------------------------------------------------------

  /** A topology in a cluster of its own, its ids under a prefix. */
  datatype Part = Part(prefix: string, title: string, t: Topology)

  function Cluster(p: Part): Group {
    Group(p.prefix + "__cluster", p.title, (n: VertexName) => p.prefix + "__" + NodeId(n), p.t)
  }

  function Clusters(parts: seq<Part>): (r: seq<Group>)
    ensures |r| == |parts| && forall k :: 0 <= k < |r| ==> r[k] == Cluster(parts[k])
  {
    seq(|parts|, k requires 0 <= k < |parts| => Cluster(parts[k]))
  }

  ghost predicate GoodPart(p: Part) {
    && IsId(p.prefix) && '_' !in p.prefix && '"' !in p.title && '\n' !in p.title && Valid(p.t) && CleanLabels(p.t.edges)
  }

  ghost predicate GoodParts(parts: seq<Part>) {
    && (forall k :: 0 <= k < |parts| ==> GoodPart(parts[k]))
    && (forall j, k :: 0 <= j < k < |parts| ==> parts[j].prefix != parts[k].prefix)
  }

  /** The prefix ends at the first underscore. */
  lemma PrefixEnds(p: string, a: string, q: string, b: string)
    requires '_' !in p && '_' !in q && p + "__" + a == q + "__" + b
    ensures p == q
  {
    FindChar(p, '_', "_" + a);
    FindChar(q, '_', "_" + b);
    assert p + ['_'] + ("_" + a) == p + "__" + a && q + ['_'] + ("_" + b) == q + "__" + b;
    assert (p + "__" + a)[..|p|] == p && (q + "__" + b)[..|q|] == q;
  }

  lemma PrefixedIsId(p: string, a: string)
    requires IsId(p) && forall c :: c in a ==> IdChar(c)
    ensures IsId(p + "__" + a) && !IsDirectiveWord(p + "__" + a) && p + "__" + a != "subgraph"
  {
    var s := p + "__" + a;
    assert s[|p|] == '_' && '_' in s;
    assert '_' !in "style" && '_' !in "classdef" && '_' !in "class" && '_' !in "linkstyle" && '_' !in "direction";
    assert '_' !in "click" && '_' !in "subgraph";
  }

  lemma PrefixedApart(p: string, a: VertexName, b: VertexName)
    requires a != b
    ensures p + "__" + NodeId(a) != p + "__" + NodeId(b)
  {
    var x, y := p + "__" + NodeId(a), p + "__" + NodeId(b);
    assert x[|p| + 2..] == NodeId(a) && y[|p| + 2..] == NodeId(b);
    if x == y {
      NodeIdInjective(a, b);
    }
  }

  lemma ClusterIsGood(p: Part)
    requires GoodPart(p)
    ensures GoodGroup(Cluster(p))
  {
    var g := Cluster(p);
    PrefixedIsId(p.prefix, "cluster");
    forall i | 0 <= i < |p.t.vertices| ensures IsId(g.ids(p.t.vertices[i].name)) {
      NodeIdIsId(p.t.vertices[i].name);
      PrefixedIsId(p.prefix, NodeId(p.t.vertices[i].name));
    }
    forall i, j | 0 <= i < j < |p.t.vertices| ensures g.ids(p.t.vertices[i].name) != g.ids(p.t.vertices[j].name) {
      PrefixedApart(p.prefix, p.t.vertices[i].name, p.t.vertices[j].name);
    }
    forall i | 0 <= i < |p.t.edges| ensures g.ids(p.t.edges[i].from) != "subgraph" {
      NodeIdIsId(p.t.edges[i].from);
      PrefixedIsId(p.prefix, NodeId(p.t.edges[i].from));
    }
  }

  /** Clusters under different prefixes never meet. */
  lemma ClustersAreGood(parts: seq<Part>)
    requires GoodParts(parts)
    ensures Good(Clusters(parts)) && GoodTitles(Clusters(parts))
  {
    var groups := Clusters(parts);
    forall k: nat ensures GoodAt(groups, k) {
      if k < |groups| {
        ClusterIsGood(parts[k]);
      }
    }
    forall g: nat, i: nat, h: nat, j: nat | InGroup(groups, g, i) && InGroup(groups, h, j) && g < h
      ensures IdAt(groups, g, i) != IdAt(groups, h, j) {
      if IdAt(groups, g, i) == IdAt(groups, h, j) {
        PrefixEnds(parts[g].prefix, NodeId(parts[g].t.vertices[i].name),
          parts[h].prefix, NodeId(parts[h].t.vertices[j].name));
      }
    }
    forall g, h | 0 <= g < h < |groups| ensures groups[g].id != groups[h].id {
      if groups[g].id == groups[h].id {
        assert "__cluster" == "__" + "cluster";
        assert forall k :: 0 <= k < |parts| ==> groups[k].id == parts[k].prefix + "__" + "cluster";
        PrefixEnds(parts[g].prefix, "cluster", parts[h].prefix, "cluster");
      }
    }
  }

  lemma {:induction false} KeptIfSame(edges: seq<Edge>, p: Edge -> bool, q: Edge -> bool)
    requires forall i :: 0 <= i < |edges| ==> p(edges[i]) == q(edges[i])
    ensures KeptIf(edges, p) == KeptIf(edges, q)
    decreases |edges|
  {
    if edges != [] {
      KeptIfSame(edges[..|edges| - 1], p, q);
    }
  }

  /** Every vertex, and every edge that is not lossy. */
  function Undotted(t: Topology): Topology {
    Topology(RedrawnAll(t.vertices), KeptIf(t.edges, (e: Edge) => e.onFull == RetryUntilSuccess))
  }

  lemma ClusterIsUndotted(p: Part)
    requires GoodPart(p)
    ensures RedrawGroup(Cluster(p)) == Undotted(p.t)
  {
    var ids := Cluster(p).ids;
    forall i | 0 <= i < |p.t.edges| ensures !IsDirectiveWord(ids(p.t.edges[i].from)) {
      NodeIdIsId(p.t.edges[i].from);
      PrefixedIsId(p.prefix, NodeId(p.t.edges[i].from));
    }
    KeptIfSame(p.t.edges, e => Passes(ids, e), (e: Edge) => e.onFull == RetryUntilSuccess);
  }

  lemma ClustersAreUndotted(parts: seq<Part>, out: Pipelines)
    requires GoodParts(parts)
    requires |out| == |parts| && forall k :: 0 <= k < |parts| ==> out[k] == (parts[k].title, Undotted(parts[k].t))
    ensures Redrawings(Clusters(parts)) == out
  {
    forall k | 0 <= k < |parts| ensures Redrawings(Clusters(parts))[k] == out[k] {
      ClusterIsUndotted(parts[k]);
    }
  }

  /** Topologies in clusters come back whole, but for what an arrow and a shape do not tell. */
  lemma ClustersComeBack(head: string, parts: seq<Part>, groups: seq<Group>, strays: seq<string>, pads: seq<string>,
    out: Pipelines)
    requires Tidy(head) && IsHead(head) && GoodParts(parts) && parts != [] && groups == Clusters(parts)
    requires AllTidy(strays) && forall k :: 0 <= k < |strays| ==> Stray(strays[k], groups)
    requires |pads| == |[head] + (Chart(groups) + strays)| && AllBlanks(pads)
    requires |out| == |parts| && forall k :: 0 <= k < |parts| ==> out[k] == (parts[k].title, Undotted(parts[k].t))
    ensures Imported(Unlines(Indented(pads, [head] + (Chart(groups) + strays)))) == Ok(out)
  {
    ClustersAreGood(parts);
    ClustersAreUndotted(parts, out);
    TextComesBack(head, groups, strays, pads);
  }

  /** With the printer's own ids a group comes back as the topology printed alone does. */
  lemma GroupAsPrinted(g: Group)
    requires forall e :: e in g.t.edges ==> g.ids(e.from) == NodeId(e.from) && e.from != "subgraph"
    ensures RedrawGroup(g) == Redraw(g.t)
  {
    forall i | 0 <= i < |g.t.edges| ensures Passes(g.ids, g.t.edges[i]) == Survives(g.t.edges[i]) {
      assert g.t.edges[i] in g.t.edges;
      IdDirective(g.t.edges[i].from);
    }
    KeptIfSame(g.t.edges, e => Passes(g.ids, e), Survives);
  }
}
