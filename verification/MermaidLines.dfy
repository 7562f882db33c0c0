/** What the reader makes of each line the printer writes. */
module MermaidLines {
  import opened Names
  import opened Text
  import opened TopologyModel
  import opened Mermaid
  import opened MermaidIn

  // ---- characters --------------------------------------------------------------

  predicate IdChar(c: char) {
    IsLowerAlnum(c) || c == '_'
  }

  ghost predicate IsId(s: string) {
    s != "" && forall c :: c in s ==> IdChar(c)
  }

  lemma NodeIdIsId(name: VertexName)
    ensures IsId(NodeId(name)) && Replace(NodeId(name), '_', '-') == name
  {
    forall c | c in NodeId(name) ensures IdChar(c) {
      var i :| 0 <= i < |name| && NodeId(name)[i] == c;
    }
  }

  /** Dashes are the only characters replaced, so ids tell names apart. */
  lemma NodeIdInjective(a: VertexName, b: VertexName)
    requires NodeId(a) == NodeId(b)
    ensures a == b
  {
    NodeIdIsId(a);
    NodeIdIsId(b);
  }

  lemma IdIsSolid(id: string)
    requires IsId(id)
    ensures Solid(id) && Lower(id) == id
  {
    assert id[0] in id && id[|id| - 1] in id;
    forall i | 0 <= i < |id| ensures LowerChar(id[i]) == id[i] {
      assert id[i] in id;
    }
  }

  lemma NameHasNoQuote(name: VertexName)
    ensures '"' !in name && ' ' !in name && '%' !in name
  {
  }

  lemma {:induction false} EscapePlain(s: string)
    requires '"' !in s
    ensures Escape(s) == s
  {
    if s != [] {
      EscapePlain(s[1..]);
    }
  }

  lemma {:induction false} NoComment(line: string, i: nat, inQuote: bool)
    requires '%' !in line && i <= |line|
    ensures CommentAt(line, i, inQuote) == |line|
    decreases |line| - i
  {
    if i < |line| {
      assert line[i] in line;
      NoComment(line, i + 1, !inQuote);
      NoComment(line, i + 1, inQuote);
    }
  }

  /** Without quotes a comment starts at the first two percent signs. */
  lemma {:induction false} CommentIsFirstPair(line: string, i: nat)
    requires '"' !in line && i <= |line|
    ensures CommentAt(line, i, false) == match FindFrom(line, "%%", i) { case Some(j) => j case None => |line| }
    decreases |line| - i
  {
    if i < |line| {
      assert line[i] in line;
      assert line[i..][..Names.Min(2, |line| - i)] == line[i..i + Names.Min(2, |line| - i)];
      CommentIsFirstPair(line, i + 1);
    }
  }

  lemma NoBlankNoArrow(s: string)
    requires ' ' !in s
    ensures ParseEdge(s) == None
  {
    FindNeeds(s, " -.->", 0);
    FindNeeds(s, " -->", 0);
    FindNeeds(s, " ==>", 0);
    FindNeeds(s, " ---", 0);
    assert FirstOp(s) == None;
  }

  /** Without a blank there is neither keyword nor directive. */
  lemma NoBlankNoKeyword(s: string)
    requires ' ' !in s
    ensures !StartsWith(s, "subgraph ") && !IsDirective(Lower(s))
  {
    forall kw: string | kw != [] && kw[|kw| - 1] == ' ' ensures !StartsWith(s, kw) && !StartsWith(Lower(s), kw) {
      if |kw| <= |s| {
        assert s[..|kw|][|kw| - 1] == s[|kw| - 1] && s[|kw| - 1] in s;
        assert Lower(s)[..|kw|][|kw| - 1] == LowerChar(s[|kw| - 1]);
      }
    }
  }

  /** What begins with a character that a leading part lacks does not occur inside that part. */
  lemma NotInHead(head: string, rest: string, pat: string)
    requires pat != [] && pat[0] !in head
    ensures forall j :: 0 <= j < |head| ==> !OccursAt(head + rest, pat, j)
  {
    forall j | 0 <= j < |head| ensures !OccursAt(head + rest, pat, j) {
      OccursNeeds(head + rest, pat, j, 0);
      assert head[j] in head;
    }
  }

  // ---- node lines --------------------------------------------------------------

  function Shaped(id: string, open: string, name: string, close: string): string {
    id + open + "\"" + name + "\"" + close
  }

  lemma InShapeIs(id: string, open: string, name: string, close: string)
    requires IsId(id) && open != [] && !IdChar(open[0]) && open[|open| - 1] !in close && '"' !in name
    ensures InShape(Shaped(id, open, name, close), open, close) == Some((id, name))
  {
    var tok, quoted := Shaped(id, open, name, close), "\"" + name + "\"";
    assert tok == id + (open + quoted + close);
    assert tok[|id|..|id| + |open|] == open && OccursAt(tok, open, |id|);
    NotInHead(id, open + quoted + close, open);
    FindIs(tok, open, |id|);
    assert tok[|tok| - |close|..] == close;
    assert tok[..|id|] == id && tok[|id| + |open|..|tok| - |close|] == quoted;
    TrimSolid(quoted);
    StripQuotes(name);
  }

  lemma NotInShape(tok: string, open: string, close: string)
    requires open != [] && open[|open| - 1] !in close && open[0] !in tok
    ensures InShape(tok, open, close) == None
  {
    FindNeeds(tok, open, 0);
  }

  /** A box is not read as a double box: what follows its bracket is a quote. */
  lemma BoxIsNotDouble(id: string, name: string)
    requires IsId(id) && '[' !in name
    ensures InShape(Shaped(id, "[", name, "]"), "[[", "]]") == None
  {
    var tok := Shaped(id, "[", name, "]");
    var r := Find(tok, "[[");
    if r.Some? {
      assert tok[r.value..r.value + 2][0] == tok[r.value] && tok[r.value..r.value + 2][1] == tok[r.value + 1];
      OnlyBracket(id, name, r.value);
      OnlyBracket(id, name, r.value + 1);
    }
  }

  lemma OnlyBracket(id: string, name: string, j: nat)
    requires IsId(id) && '[' !in name && j < |Shaped(id, "[", name, "]")|
    ensures Shaped(id, "[", name, "]")[j] == '[' <==> j == |id|
  {
    if j < |id| {
      assert id[j] in id;
    } else if |id| + 2 <= j < |id| + 2 + |name| {
      assert Shaped(id, "[", name, "]")[j] == name[j - |id| - 2] && name[j - |id| - 2] in name;
    }
  }

  /** A node of this id, labelled with the vertex's name in the shape of its kind. */
  function Labelled(id: string, v: Vertex): string {
    Shaped(id, Delims(v.kind).0, v.name, Delims(v.kind).1)
  }

  function Body(v: Vertex): string {
    Labelled(NodeId(v.name), v)
  }

  lemma NodeLineIs(v: Vertex)
    ensures NodeLine(v) == "  " + Body(v)
  {
    NameHasNoQuote(v.name);
    EscapePlain(v.name);
  }

  predicate PlainChar(c: char) {
    IsLowerAlnum(c) || c == '-' || c == '_' || c == '"'
  }

  lemma BodyChars(id: string, v: Vertex, c: char)
    requires IsId(id) && c in Labelled(id, v)
    ensures PlainChar(c) || c in Delims(v.kind).0 || c in Delims(v.kind).1
  {
    var open, close := Delims(v.kind).0, Delims(v.kind).1;
    assert Labelled(id, v) == id + (open + ("\"" + (v.name + ("\"" + close))));
    assert c in id || c in open || c == '"' || c in v.name || c in close;
  }

  /** A labelled node is read as its id, name and kind. */
  lemma LabelledIsRead(id: string, v: Vertex)
    requires IsId(id)
    ensures ParseNode(Labelled(id, v)) == Token(id, v.name, Some(v.kind))
  {
    var tok := Labelled(id, v);
    NameHasNoQuote(v.name);
    forall c | c in tok ensures PlainChar(c) || c in Delims(v.kind).0 || c in Delims(v.kind).1 {
      BodyChars(id, v, c);
    }
    match v.kind
    case Source =>
      InShapeIs(id, "([", v.name, "])");
    case Sink =>
      NotInShape(tok, "([", "])");
      InShapeIs(id, "[[", v.name, "]]");
    case Map =>
      NotInShape(tok, "([", "])");
      BoxIsNotDouble(id, v.name);
      NotInShape(tok, "((", "))");
      NotInShape(tok, "{{", "}}");
      InShapeIs(id, "[", v.name, "]");
    case Reduce =>
      NotInShape(tok, "([", "])");
      NotInShape(tok, "[[", "]]");
      NotInShape(tok, "((", "))");
      InShapeIs(id, "{{", v.name, "}}");
  }

  /** So is a printed one. */
  lemma NodeIsRead(v: Vertex)
    ensures ParseNode(Body(v)) == Token(NodeId(v.name), v.name, Some(v.kind))
  {
    NodeIdIsId(v.name);
    LabelledIsRead(NodeId(v.name), v);
  }

  lemma LabelledIsSolid(id: string, v: Vertex)
    requires IsId(id)
    ensures var body := Labelled(id, v); Solid(body) && |body| > 5 && '%' !in body && ' ' !in body && '\n' !in body
  {
    var body := Labelled(id, v);
    assert body[0] == id[0] && id[0] in id;
    assert body[|body| - 1] == Delims(v.kind).1[|Delims(v.kind).1| - 1];
    forall c | c in body ensures c != '%' && c != ' ' && c != '\n' {
      BodyChars(id, v, c);
    }
  }

  /** A labelled node on its own declares it and changes nothing else. */
  lemma LabelledStatement(r: Reader, id: string, v: Vertex)
    requires IsId(id)
    ensures ReadStatement(r, Labelled(id, v)) ==
        r.(parsed := Declare(r.parsed, Token(id, v.name, Some(v.kind)), Top(r.stack)))
  {
    var body := Labelled(id, v);
    LabelledIsSolid(id, v);
    NoBlankNoKeyword(body);
    NoBlankNoArrow(body);
    assert |Lower(body)| > 3;
    LabelledIsRead(id, v);
  }

  /** A printed node line declares its node and changes nothing else. */
  lemma NodeLineIsRead(r: Reader, v: Vertex)
    requires r.headerSeen
    ensures ReadLine(r, NodeLine(v)) ==
        Ok(r.(parsed := Declare(r.parsed, Token(NodeId(v.name), v.name, Some(v.kind)), Top(r.stack))))
  {
    var body, line := Body(v), NodeLine(v);
    NodeLineIs(v);
    NodeIdIsId(v.name);
    LabelledIsSolid(NodeId(v.name), v);
    assert '%' !in line;
    NoComment(line, 0, false);
    assert line[..|line|] == line;
    TrimIndent(body);
    LabelledStatement(r, NodeId(v.name), v);
  }

  // ---- edge lines --------------------------------------------------------------

  function Tail(text: Option<string>, to: string): string {
    match text
    case Some(l) => "|" + l + "| " + to
    case None => " " + to
  }

  function Statement(from: string, arrow: string, text: Option<string>, to: string): string {
    from + (" " + arrow + Tail(text, to))
  }

  /** A label that stays on its line and leaves the rest of it readable. */
  ghost predicate IsLabel(s: string) {
    '|' !in s && '"' !in s && '\n' !in s && !Contains(s, "%%")
  }

  function TextOf(e: Edge): Option<string> {
    match e.conditions
    case None => None
    case Some(c) => Some(EdgeLabel(c))
  }

  function EdgeBody(e: Edge): string {
    Statement(NodeId(e.from), Arrow(e.onFull), TextOf(e), NodeId(e.to))
  }

  lemma EdgeLineIs(e: Edge)
    ensures EdgeLine(e) == "  " + EdgeBody(e)
  {
    var from, arrow, to := NodeId(e.from), Arrow(e.onFull), NodeId(e.to);
    if e.conditions.None? {
      Regroup("  ", from, " ", arrow, " " + to);
    } else {
      var l, head := EdgeLabel(e.conditions.value), "  " + from + " " + arrow;
      Regroup("  ", from, " ", arrow, "|" + l + "| " + to);
      RegroupTail(head, "|", l, "| ", to);
    }
  }

  lemma Regroup(a: string, b: string, c: string, d: string, e: string)
    ensures a + b + c + d + e == a + (b + (c + d + e))
  {
  }

  lemma RegroupTail(a: string, b: string, c: string, d: string, e: string)
    ensures a + b + c + d + e == a + (b + c + d + e)
  {
  }

  /** The first blank of a statement ends its first word. */
  lemma FirstWordIs(word: string, rest: string, kw: string)
    requires ' ' !in word && ' ' !in kw
    ensures StartsWith(word + (" " + rest), kw + " ") <==> word == kw
  {
    var s := word + (" " + rest);
    FindChar(word, ' ', rest);
    assert s == word + [' '] + rest && s[..|word|] == word;
    if StartsWith(s, kw + " ") {
      var more := s[|kw| + 1..];
      assert s == kw + [' '] + more;
      FindChar(kw, ' ', more);
      assert s[..|kw|] == kw;
    }
    if word == kw {
      assert s[..|kw| + 1] == kw + " ";
    }
  }

  ghost predicate Words(from: string, arrow: string, text: Option<string>, to: string) {
    IsId(from) && IsId(to) && (arrow == "-->" || arrow == "-.->") && (text.Some? ==> IsLabel(text.value))
  }

  lemma StatementIsSolid(from: string, arrow: string, text: Option<string>, to: string)
    requires Words(from, arrow, text, to)
    ensures var s := Statement(from, arrow, text, to); Solid(s) && |s| > 5
  {
    var s := Statement(from, arrow, text, to);
    assert from[0] in from && to[|to| - 1] in to;
    assert s[0] == from[0] && s[|s| - 1] == to[|to| - 1];
  }

  predicate IsDirectiveWord(word: string) {
    word in ["style", "classdef", "class", "linkstyle", "direction", "click"]
  }

  /** Only the first word of a statement can make it a subgraph or a directive. */
  lemma StatementKeyword(from: string, rest: string)
    requires IsId(from)
    ensures var s := from + (" " + rest);
            (StartsWith(s, "subgraph ") <==> from == "subgraph") && (IsDirective(Lower(s)) <==> IsDirectiveWord(from))
  {
    var s := from + (" " + rest);
    IdIsSolid(from);
    assert Lower(s) == from + (" " + Lower(rest));
    FirstWordIs(from, rest, "subgraph");
    FirstWordIs(from, Lower(rest), "style");
    FirstWordIs(from, Lower(rest), "classdef");
    FirstWordIs(from, Lower(rest), "class");
    FirstWordIs(from, Lower(rest), "linkstyle");
    FirstWordIs(from, Lower(rest), "direction");
    FirstWordIs(from, Lower(rest), "click");
    KeywordSpellings();
  }

  lemma KeywordSpellings()
    ensures "subgraph" + " " == "subgraph " && "style" + " " == "style " && "classdef" + " " == "classdef "
    ensures "class" + " " == "class " && "linkstyle" + " " == "linkstyle " && "direction" + " " == "direction "
    ensures "click" + " " == "click "
  {
  }

  /** The arrow after a leading word is found there, whatever else follows. */
  lemma ArrowIsFound(word: string, pat: string, rest: string)
    requires pat != [] && pat[0] !in word
    ensures Find(word + (pat + rest), pat) == Some(|word|)
  {
    var s := word + (pat + rest);
    assert s[|word|..|word| + |pat|] == pat;
    NotInHead(word, pat + rest, pat);
    FindIs(s, pat, |word|);
  }

  /** A different arrow is found later, if at all. */
  lemma OtherArrowIsLater(word: string, rest: string, pat: string, k: nat)
    requires k < |pat| && k < |rest| && pat[k] != rest[k] && pat[0] !in word
    ensures var r := Find(word + rest, pat); r.Some? ==> r.value > |word|
  {
    var s := word + rest;
    NotInHead(word, rest, pat);
    assert s[|word| + k] == rest[k];
    OccursNeeds(s, pat, |word|, k);
  }

  lemma OpIsArrow(from: string, arrow: string, tail: string)
    requires ' ' !in from && (arrow == "-->" || arrow == "-.->")
    ensures FirstOp(from + (" " + arrow + tail)) == Some((|from|, arrow))
  {
    var rest := " " + arrow + tail;
    ArrowIsFound(from, " " + arrow, tail);
    assert rest[1] == arrow[0] && rest[2] == arrow[1] && rest[3] == arrow[2];
    OtherArrowIsLater(from, rest, " ==>", 1);
    OtherArrowIsLater(from, rest, " ---", if arrow == "-->" then 3 else 2);
    if arrow == "-->" {
      OtherArrowIsLater(from, rest, " -.->", 2);
      assert " " + arrow == " -->";
    } else {
      OtherArrowIsLater(from, rest, " -->", 2);
      assert " " + arrow == " -.->";
    }
  }

  function TrimmedText(text: Option<string>): Option<string> {
    match text
    case None => None
    case Some(l) => Some(Trim(l))
  }

  /** One end of an edge line, declared there or not. */
  ghost predicate IsToken(s: string) {
    s != "" && Solid(s) && ' ' !in s && s[0] != '|'
  }

  lemma IdIsToken(id: string)
    requires IsId(id)
    ensures IsToken(id)
  {
    IdIsSolid(id);
    assert id[0] in id;
  }

  lemma BareTailIsRead(from: string, arrow: string, to: string)
    requires from != "" && IsToken(to)
    ensures Operands(from, arrow, TrimStart(Tail(None, to))) == Some(Arc(from, arrow, None, to))
  {
    TrimSpace(to);
    TrimSolid(to);
    assert to[..1][0] == to[0];
  }

  lemma LabelledTailIsRead(from: string, arrow: string, l: string, to: string)
    requires from != "" && IsToken(to) && IsLabel(l)
    ensures Operands(from, arrow, TrimStart(Tail(Some(l), to))) == Some(Arc(from, arrow, Some(Trim(l)), to))
  {
    var rest, end := Tail(Some(l), to), " " + to;
    var after := l + ['|'] + end;
    assert rest == "|" + after;
    assert rest[..1] == "|" && rest[1..] == after;
    assert TrimStart(rest) == rest;
    SplitOnceChar(l, '|', end);
    assert ['|'] == "|";
    TrimSpace(to);
  }

  lemma OperandsAre(line: string, idx: nat, op: string, source: string, rest: string)
    requires FirstOp(line) == Some((idx, op)) && Trim(line[..idx]) == source && line[idx + 1 + |op|..] == rest
    ensures ParseEdge(line) == Operands(source, op, TrimStart(rest))
  {
  }

  lemma StatementSides(from: string, arrow: string, tail: string)
    ensures var s := from + (" " + arrow + tail);
            |s| >= |from| + 1 + |arrow| && s[..|from|] == from && s[|from| + 1 + |arrow|..] == tail
  {
  }

  /** An edge is read as its ends, its arrow and its label, trimmed. */
  lemma TokensAreRead(from: string, arrow: string, text: Option<string>, to: string)
    requires IsToken(from) && IsToken(to) && (arrow == "-->" || arrow == "-.->")
    requires text.Some? ==> IsLabel(text.value)
    ensures ParseEdge(Statement(from, arrow, text, to)) == Some(Arc(from, arrow, TrimmedText(text), to))
  {
    TrimSolid(from);
    OpIsArrow(from, arrow, Tail(text, to));
    StatementSides(from, arrow, Tail(text, to));
    OperandsAre(Statement(from, arrow, text, to), |from|, arrow, from, Tail(text, to));
    match text
    case None => BareTailIsRead(from, arrow, to);
    case Some(l) => LabelledTailIsRead(from, arrow, l, to);
  }

  /** So is a printed one. */
  lemma StatementIsRead(from: string, arrow: string, text: Option<string>, to: string)
    requires Words(from, arrow, text, to)
    ensures ParseEdge(Statement(from, arrow, text, to)) == Some(Arc(from, arrow, TrimmedText(text), to))
  {
    IdIsToken(from);
    IdIsToken(to);
    TokensAreRead(from, arrow, text, to);
  }

  /** A bare id is a map named by it. */
  lemma IdIsRead(id: string)
    requires IsId(id)
    ensures ParseNode(id) == Token(id, Replace(id, '_', '-'), Some(Map))
  {
    NotInShape(id, "([", "])");
    NotInShape(id, "[[", "]]");
    NotInShape(id, "((", "))");
    NotInShape(id, "{{", "}}");
    NotInShape(id, "[", "]");
    NotInShape(id, "(", ")");
  }

  function LinkOf(e: Edge): Link {
    Link(NodeId(e.from), NodeId(e.to), TrimmedText(TextOf(e)), e.onFull == DiscardLatest)
  }

  ghost predicate EdgeFits(p: Parsed, e: Edge) {
    NodeId(e.from) in p.nodes && NodeId(e.to) in p.nodes && (TextOf(e).Some? ==> IsLabel(TextOf(e).value))
  }

  /** Everything of an edge line before its label, and everything after it. */
  function Before(e: Edge): string {
    "  " + NodeId(e.from) + " " + Arrow(e.onFull) + "|"
  }

  function After(e: Edge): string {
    "| " + NodeId(e.to)
  }

  lemma EdgeLineParts(e: Edge)
    ensures e.conditions.Some? ==> EdgeLine(e) == Before(e) + EdgeLabel(e.conditions.value) + After(e)
  {
    if e.conditions.Some? {
      var start := "  " + NodeId(e.from) + " " + Arrow(e.onFull);
      RegroupLine(start, "|", EdgeLabel(e.conditions.value), "| ", NodeId(e.to));
    }
  }

  lemma RegroupLine(a: string, b: string, c: string, d: string, e: string)
    ensures a + b + c + d + e == (a + b) + c + (d + e)
  {
  }

  lemma PartsArePlain(e: Edge)
    ensures '%' !in Before(e) && '"' !in Before(e) && '\n' !in Before(e)
    ensures '%' !in After(e) && '"' !in After(e) && '\n' !in After(e)
  {
    NodeIdIsId(e.from);
    NodeIdIsId(e.to);
    assert '%' !in NodeId(e.from) && '"' !in NodeId(e.from) && '\n' !in NodeId(e.from);
    assert '%' !in NodeId(e.to) && '"' !in NodeId(e.to) && '\n' !in NodeId(e.to);
    assert Before(e) == "  " + (NodeId(e.from) + (" " + (Arrow(e.onFull) + "|")));
  }

  lemma BareLineIsPlain(e: Edge)
    requires e.conditions.None?
    ensures '%' !in EdgeLine(e) && '"' !in EdgeLine(e) && '\n' !in EdgeLine(e)
  {
    NodeIdIsId(e.from);
    NodeIdIsId(e.to);
    assert '%' !in NodeId(e.from) && '"' !in NodeId(e.from) && '\n' !in NodeId(e.from);
    assert '%' !in NodeId(e.to) && '"' !in NodeId(e.to) && '\n' !in NodeId(e.to);
    assert EdgeLine(e) == "  " + NodeId(e.from) + (" " + Arrow(e.onFull) + " " + NodeId(e.to)) by {
      assert EdgeLine(e) == "  " + NodeId(e.from) + " " + Arrow(e.onFull) + " " + NodeId(e.to);
    }
  }

  lemma PercentInMiddle(a: string, l: string, b: string, j: nat)
    requires '%' !in a && '%' !in b && j < |a + l + b| && (a + l + b)[j] == '%'
    ensures |a| <= j < |a| + |l|
  {
    var s := a + l + b;
    forall k | 0 <= k < |a| ensures s[k] != '%' {
      assert s[k] == a[k];
    }
    forall k | |a| + |l| <= k < |s| ensures s[k] != '%' {
      assert s[k] == b[k - |a| - |l|];
    }
  }

  /** Two percent signs side by side lie in the middle of a string whose ends have none. */
  lemma PairInMiddle(a: string, l: string, b: string, j: nat)
    requires '%' !in a && '%' !in b && OccursAt(a + l + b, "%%", j)
    ensures |a| <= j && OccursAt(l, "%%", j - |a|)
  {
    var s := a + l + b;
    assert s[j..j + 2][0] == s[j] && s[j..j + 2][1] == s[j + 1];
    PercentInMiddle(a, l, b, j);
    PercentInMiddle(a, l, b, j + 1);
    assert l[j - |a|..j - |a| + 2] == s[j..j + 2];
  }

  lemma PairStays(a: string, l: string, b: string, j: nat)
    requires OccursAt(l, "%%", j)
    ensures OccursAt(a + l + b, "%%", |a| + j)
  {
    var s := a + l + b;
    assert s[|a| + j..|a| + j + 2] == l[j..j + 2];
  }

  /** In such a string the first pair is the first of the middle. */
  lemma FirstPair(a: string, l: string, b: string)
    requires '%' !in a && '%' !in b
    ensures Find(a + l + b, "%%") == match Find(l, "%%") { case Some(j) => Some(|a| + j) case None => None }
  {
    var inner, s := Find(l, "%%"), a + l + b;
    forall j: nat | OccursAt(s, "%%", j) ensures |a| <= j && inner.Some? && |a| + inner.value <= j {
      PairInMiddle(a, l, b, j);
    }
    if inner.Some? {
      PairStays(a, l, b, inner.value);
      FindIs(s, "%%", |a| + inner.value);
    }
  }

  lemma LabelHasNoQuote(s: string)
    ensures '|' !in EdgeText(s) && '"' !in EdgeText(s) && Within(EdgeText(s), s)
  {
    if s != "" {
      LabelHasNoQuote(s[..|s| - 1]);
    }
  }

  lemma EdgeLabelHasNoQuote(c: TagCondition)
    ensures '|' !in EdgeLabel(c) && '"' !in EdgeLabel(c)
  {
    LabelHasNoQuote(Join(c.values, if c.operator == Or then ", " else " & "));
  }

  /** Where the comment of an edge line starts: at the first pair of percent signs in its label, if any. */
  lemma EdgeComment(e: Edge)
    ensures CommentAt(EdgeLine(e), 0, false) ==
            if e.conditions.None? || !Contains(EdgeLabel(e.conditions.value), "%%") then |EdgeLine(e)|
            else |Before(e)| + Find(EdgeLabel(e.conditions.value), "%%").value
  {
    if e.conditions.None? {
      BareLineIsPlain(e);
      NoComment(EdgeLine(e), 0, false);
    } else {
      var l := EdgeLabel(e.conditions.value);
      EdgeLineParts(e);
      PartsArePlain(e);
      EdgeLabelHasNoQuote(e.conditions.value);
      assert '"' !in EdgeLine(e);
      CommentIsFirstPair(EdgeLine(e), 0);
      FirstPair(Before(e), l, After(e));
    }
  }

  /** An edge line as the reader sees it, trimmed and without a comment. */
  lemma EdgeStatement(r: Reader, e: Edge)
    requires r.headerSeen && EdgeFits(r.parsed, e)
    ensures ReadLine(r, EdgeLine(e)) == Ok(ReadStatement(r, EdgeBody(e)))
  {
    NodeIdIsId(e.from);
    NodeIdIsId(e.to);
    var line := EdgeLine(e);
    EdgeComment(e);
    assert line[..|line|] == line;
    EdgeLineIs(e);
    StatementIsSolid(NodeId(e.from), Arrow(e.onFull), TextOf(e), NodeId(e.to));
    TrimIndent(EdgeBody(e));
  }

  // ---- labels that break their line ----------------------------------------------

  /** What is left of an edge line whose label starts a comment after `p`. */
  function Rump(e: Edge, p: string): string {
    NodeId(e.from) + (" " + Arrow(e.onFull) + ("|" + TrimEnd(p)))
  }

  lemma RumpIsLeft(e: Edge, p: string)
    ensures Trim(Before(e) + p) == Rump(e, p)
  {
    var from, end := NodeId(e.from), " " + Arrow(e.onFull) + "|";
    NodeIdIsId(e.from);
    assert from[0] in from;
    RegroupHead("  ", from, " ", Arrow(e.onFull), "|", p);
    IndentIsTrimmed(from + end + p);
    TrimEndAfter(from + end, p);
    RegroupHead("", from, " ", Arrow(e.onFull), "|", TrimEnd(p));
  }

  lemma RegroupHead(a: string, b: string, c: string, d: string, e: string, f: string)
    ensures a + b + c + d + e + f == a + (b + (c + d + e) + f)
    ensures b + (c + d + e) + f == b + (c + d + (e + f))
  {
  }

  lemma IndentIsTrimmed(s: string)
    requires s != "" && !White(s[0])
    ensures TrimStart("  " + s) == s
  {
    assert ("  " + s)[1..] == " " + s && (" " + s)[1..] == s;
    assert TrimStart("  " + s) == TrimStart(" " + s) == TrimStart(s);
  }

  /** It has an arrow and an opening bar but no closing one, so it is no edge. */
  lemma RumpIsNoEdge(e: Edge, p: string)
    requires '|' !in p
    ensures ParseEdge(Rump(e, p)) == None
  {
    NodeIdIsId(e.from);
    var from, arrow, q := NodeId(e.from), Arrow(e.onFull), TrimEnd(p);
    TrimEndWithin(p);
    OpIsArrow(from, arrow, "|" + q);
    StatementSides(from, arrow, "|" + q);
    IdIsSolid(from);
    TrimSolid(from);
    OperandsAre(Rump(e, p), |from|, arrow, from, "|" + q);
    assert TrimStart("|" + q) == "|" + q && ("|" + q)[..1] == "|" && ("|" + q)[1..] == q;
    FindNeeds(q, "|", 0);
  }

  lemma NoEdgeNoLink(r: Reader, s: string)
    requires ParseEdge(s) == None
    ensures ReadStatement(r, s).parsed.links == r.parsed.links && ReadStatement(r, s).headerSeen == r.headerSeen
  {
  }

  lemma ReadBare(r: Reader, raw: string, k: nat, line: string)
    requires r.headerSeen && CommentAt(raw, 0, false) == k && k <= |raw| && Trim(raw[..k]) == line && line != ""
    ensures ReadLine(r, raw) == Ok(ReadStatement(r, line))
  {
  }

  /** Such a line is read as what is left of it. */
  lemma BrokenStatement(r: Reader, e: Edge, j: nat)
    requires r.headerSeen && e.conditions.Some? && Find(EdgeLabel(e.conditions.value), "%%") == Some(j)
    ensures ReadLine(r, EdgeLine(e)) == Ok(ReadStatement(r, Rump(e, EdgeLabel(e.conditions.value)[..j])))
  {
    var l := EdgeLabel(e.conditions.value);
    EdgeComment(e);
    EdgeLineParts(e);
    CutMiddle(Before(e), l, After(e), j);
    RumpIsLeft(e, l[..j]);
    ReadBare(r, EdgeLine(e), |Before(e)| + j, Rump(e, l[..j]));
  }

  lemma CutMiddle(a: string, l: string, b: string, j: nat)
    requires j <= |l|
    ensures |a| + j <= |a + l + b| && (a + l + b)[..|a| + j] == a + l[..j]
  {
  }

  /** An edge line whose label starts a comment adds no link. */
  lemma BrokenLine(r: Reader, e: Edge)
    requires r.headerSeen && e.conditions.Some? && Contains(EdgeLabel(e.conditions.value), "%%")
    ensures var r' := ReadLine(r, EdgeLine(e)); r'.Ok? && r'.value.headerSeen && r'.value.parsed.links == r.parsed.links
  {
    var l := EdgeLabel(e.conditions.value);
    var j := Find(l, "%%").value;
    EdgeLabelHasNoQuote(e.conditions.value);
    assert '|' !in l[..j];
    BrokenStatement(r, e, j);
    RumpIsNoEdge(e, l[..j]);
    NoEdgeNoLink(r, Rump(e, l[..j]));
  }

  lemma IdKeyword(name: VertexName, kw: string)
    requires '-' !in kw && '_' !in kw
    ensures NodeId(name) == kw <==> name == kw
  {
    NodeIdIsId(name);
    if NodeId(name) == kw {
      assert forall i :: 0 <= i < |kw| ==> kw[i] in kw;
      assert Replace(kw, '_', '-') == kw;
    }
    if name == kw {
      assert forall i :: 0 <= i < |kw| ==> kw[i] in kw;
      assert Replace(kw, '-', '_') == kw;
    }
  }

  lemma IdDirective(name: VertexName)
    ensures IsDirectiveWord(NodeId(name)) <==> IsDirectiveWord(name)
    ensures NodeId(name) == "subgraph" <==> name == "subgraph"
  {
    IdKeyword(name, "style");
    IdKeyword(name, "classdef");
    IdKeyword(name, "class");
    IdKeyword(name, "linkstyle");
    IdKeyword(name, "direction");
    IdKeyword(name, "click");
    IdKeyword(name, "subgraph");
  }

  lemma SubgraphStatement(r: Reader, s: string)
    requires StartsWith(s, "subgraph ")
    ensures var r' := ReadStatement(r, s);
            && r'.headerSeen == r.headerSeen
            && |r'.parsed.groups| == |r.parsed.groups| + 1
            && r'.parsed == r.parsed.(groups := r'.parsed.groups)
  {
  }

  lemma DirectiveStatement(r: Reader, s: string)
    requires !StartsWith(s, "subgraph ") && Lower(s) != "end" && IsDirective(Lower(s))
    ensures ReadStatement(r, s) == r
  {
  }

  lemma ArcStatement(r: Reader, s: string, arc: Arc)
    requires !StartsWith(s, "subgraph ") && Lower(s) != "end" && !IsDirective(Lower(s)) && ParseEdge(s) == Some(arc)
    requires IsId(arc.source) && IsId(arc.target) && arc.source in r.parsed.nodes && arc.target in r.parsed.nodes
    ensures ReadStatement(r, s) ==
            r.(parsed := r.parsed.(links := r.parsed.links + [Link(arc.source, arc.target, arc.text, '.' in arc.op)]))
  {
    IdIsRead(arc.source);
    IdIsRead(arc.target);
  }

  /** What an edge line is read as hangs on the name it starts with. */
  lemma EdgeBodyKind(e: Edge)
    requires TextOf(e).Some? ==> IsLabel(TextOf(e).value)
    ensures StartsWith(EdgeBody(e), "subgraph ") <==> e.from == "subgraph"
    ensures IsDirective(Lower(EdgeBody(e))) <==> IsDirectiveWord(e.from)
    ensures Lower(EdgeBody(e)) != "end"
  {
    NodeIdIsId(e.from);
    NodeIdIsId(e.to);
    var from, rest := NodeId(e.from), Arrow(e.onFull) + Tail(TextOf(e), NodeId(e.to));
    assert EdgeBody(e) == from + (" " + rest);
    StatementKeyword(from, rest);
    IdDirective(e.from);
    StatementIsSolid(from, Arrow(e.onFull), TextOf(e), NodeId(e.to));
    assert |Lower(EdgeBody(e))| > 3;
  }

  function ArcOf(e: Edge): Arc {
    Arc(NodeId(e.from), Arrow(e.onFull), TrimmedText(TextOf(e)), NodeId(e.to))
  }

  lemma EdgeBodyIsRead(e: Edge)
    requires TextOf(e).Some? ==> IsLabel(TextOf(e).value)
    ensures ParseEdge(EdgeBody(e)) == Some(ArcOf(e)) && IsId(NodeId(e.from)) && IsId(NodeId(e.to))
  {
    NodeIdIsId(e.from);
    NodeIdIsId(e.to);
    StatementIsRead(NodeId(e.from), Arrow(e.onFull), TextOf(e), NodeId(e.to));
  }

  /** How a printed edge changes what has been parsed. */
  ghost predicate Adds(p: Parsed, e: Edge, p': Parsed) {
    if e.from == "subgraph" then p' == p.(groups := p'.groups) && p'.groups != []
    else if IsDirectiveWord(e.from) then p' == p
    else p' == p.(links := p.links + [LinkOf(e)])
  }

  /**
   * A printed edge between declared nodes becomes its link, except that a vertex named `subgraph`
   * opens a group instead and one named like a directive makes the line vanish.
   */
  lemma EdgeLineIsRead(r: Reader, e: Edge)
    requires r.headerSeen && EdgeFits(r.parsed, e)
    ensures var r' := ReadLine(r, EdgeLine(e)); r'.Ok? && r'.value.headerSeen && Adds(r.parsed, e, r'.value.parsed)
  {
    EdgeStatement(r, e);
    EdgeBodyKind(e);
    var s := EdgeBody(e);
    if e.from == "subgraph" {
      SubgraphStatement(r, s);
    } else if IsDirectiveWord(e.from) {
      DirectiveStatement(r, s);
    } else {
      EdgeBodyIsRead(e);
      ArcStatement(r, s, ArcOf(e));
    }
  }
}
