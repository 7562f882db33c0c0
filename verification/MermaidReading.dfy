/** What the reader makes of any text: its header, its labels and links stated more than once. */
module MermaidReading {
  import opened Names
  import opened Text
  import opened TopologyModel
  import opened MermaidIn
  import opened MermaidRoundTrip
  import opened MermaidGroups

  // ---- the header --------------------------------------------------------------------

  lemma {:induction false} BuiltIsAFlowchart(p: Parsed, groups: seq<(Option<string>, string)>)
    ensures BuildGroups(p, groups) != Err(NotAFlowchart)
  {
    if groups != [] {
      var n := |groups| - 1;
      BuiltIsAFlowchart(p, groups[..n]);
      VerticesAreAFlowchart(p, groups[n].1, Members(p, p.order, groups[n].0));
    }
  }

  lemma {:induction false} VerticesAreAFlowchart(p: Parsed, pipeline: string, members: seq<string>)
    ensures VerticesOf(p, pipeline, members) != Err(NotAFlowchart)
  {
    if members != [] {
      VerticesAreAFlowchart(p, pipeline, members[..|members| - 1]);
    }
  }

  lemma {:induction false} HeadDecides(lines: seq<string>)
    ensures ReadLines(NEW_READER, lines) == Err(NotAFlowchart) <==>
        Statements(lines) != [] && !IsHead(Statements(lines)[0])
    ensures ReadLines(NEW_READER, lines).Err? ==> ReadLines(NEW_READER, lines).error == NotAFlowchart
    decreases |lines|
  {
    if lines != [] {
      var s, more := Bare(lines[0]), Statements(lines[1..]);
      if s == "" {
        assert [] + more == more;
        HeadDecides(lines[1..]);
      } else {
        assert ([s] + more)[0] == s;
        if IsHead(s) {
          StatementsAreRead(AFTER_HEADER, lines[1..]);
        }
      }
    }
  }

  /** A text is refused as no flowchart exactly when its first statement begins with another word. */
  lemma RefusedByItsHead(src: string)
    ensures Imported(src) == Err(NotAFlowchart) <==>
        Statements(Lines(src)) != [] && !IsHead(Statements(Lines(src))[0])
  {
    var lines := Lines(src);
    HeadDecides(lines);
    if ReadLines(NEW_READER, lines).Ok? {
      var p := ReadLines(NEW_READER, lines).value.parsed;
      BuiltIsAFlowchart(p, GroupList(p.groups));
    }
  }

  // ---- labels as vertex names -----------------------------------------------------------

  predicate IsAlnum(c: char) {
    'a' <= c <= 'z' || 'A' <= c <= 'Z' || '0' <= c <= '9'
  }

  predicate IsGap(c: char) {
    c == '-' || c == '_' || c == ' '
  }

  function NamedChar(c: char): char {
    if IsGap(c) then '-' else LowerChar(c)
  }

  /** The characters a name is made of, before its ends are stripped. */
  function Spelled(text: string): string {
    Filter(Dashed(Lower(text)), NameChar)
  }

  lemma {:induction false} FilterJoins(a: string, b: string, keep: char -> bool)
    ensures Filter(a + b, keep) == Filter(a, keep) + Filter(b, keep)
  {
    if b == "" {
      assert a + b == a;
    } else {
      var n := |b| - 1;
      var all := a + b;
      assert all[..|all| - 1] == a + b[..n] && all[|all| - 1] == b[n];
      FilterJoins(a, b[..n], keep);
    }
  }

  lemma SpelledJoins(a: string, b: string)
    ensures Spelled(a + b) == Spelled(a) + Spelled(b)
  {
    assert Dashed(Lower(a + b)) == Dashed(Lower(a)) + Dashed(Lower(b));
    FilterJoins(Dashed(Lower(a)), Dashed(Lower(b)), NameChar);
  }

  lemma FilterOne(c: char, keep: char -> bool)
    ensures Filter([c], keep) == if keep(c) then [c] else ""
  {
    assert [c][..0] == "";
  }

  lemma SpelledOne(c: char)
    ensures Spelled([c]) == if IsAlnum(c) || IsGap(c) then [NamedChar(c)] else ""
  {
    var d := Dashed(Lower([c]));
    var x := if c == '_' || c == ' ' then '-' else LowerChar(c);
    assert d == [x];
    FilterOne(x, NameChar);
  }

  /** What is neither a letter, a digit nor a gap is dropped from a label, wherever it stands. */
  lemma OthersAreDropped(a: string, c: char, b: string)
    requires !IsAlnum(c) && !IsGap(c)
    ensures VertexNameOf(a + [c] + b) == VertexNameOf(a + b)
  {
    SpelledJoins(a + [c], b);
    SpelledJoins(a, [c]);
    SpelledJoins(a, b);
    SpelledOne(c);
    assert Spelled(a) + "" == Spelled(a);
  }

  /** Gaps at the ends of a label are stripped. */
  lemma EndsAreStripped(text: string, c: char)
    requires IsGap(c)
    ensures VertexNameOf([c] + text) == VertexNameOf(text) == VertexNameOf(text + [c])
  {
    var s := Spelled(text);
    SpelledOne(c);
    SpelledJoins([c], text);
    SpelledJoins(text, [c]);
    assert ("-" + s)[1..] == s;
    StripEndOf(s);
  }

  lemma {:induction false} StripEndOf(s: string)
    ensures StripBoth(s + "-", '-') == StripBoth(s, '-')
  {
    var t := s + "-";
    if s == "" {
      assert t == "-" && "-"[1..] == "";
    } else if s[0] == '-' {
      assert t[1..] == s[1..] + "-";
      StripEndOf(s[1..]);
    } else {
      assert t[|t| - 1] == '-' && t[..|t| - 1] == s && t[0] == s[0];
    }
  }

  lemma {:induction false} SpelledEach(text: string)
    requires forall i :: 0 <= i < |text| ==> IsAlnum(text[i]) || IsGap(text[i])
    ensures |Spelled(text)| == |text| && forall i :: 0 <= i < |text| ==> Spelled(text)[i] == NamedChar(text[i])
  {
    if text != "" {
      var n := |text| - 1;
      SpelledEach(text[..n]);
      SpelledJoins(text[..n], [text[n]]);
      SpelledOne(text[n]);
      assert text == text[..n] + [text[n]];
    }
  }

  /** What is left is spelled in lower case, its gaps as dashes. */
  lemma LabelIsSpelled(text: string)
    requires forall i :: 0 <= i < |text| ==> IsAlnum(text[i]) || IsGap(text[i])
    requires text != "" ==> IsAlnum(text[0]) && IsAlnum(text[|text| - 1])
    ensures |VertexNameOf(text)| == |text|
    ensures forall i :: 0 <= i < |text| ==> VertexNameOf(text)[i] == NamedChar(text[i])
  {
    SpelledEach(text);
  }

  // ---- links stated more than once ---------------------------------------------------------

  /** The link is taken up as an edge between these vertices. */
  ghost predicate LinksUp(links: seq<Link>, names: map<string, VertexName>, k: nat, from: VertexName, to: VertexName)
    requires k < |links|
  {
    && !links[k].dotted && links[k].from in names && links[k].to in names
    && names[links[k].from] == from && names[links[k].to] == to
  }

  ghost predicate Linked(links: seq<Link>, names: map<string, VertexName>, from: VertexName, to: VertexName) {
    exists k: nat :: k < |links| && LinksUp(links, names, k, from, to)
  }

  /** It is the first such link. */
  ghost predicate FirstToLink(links: seq<Link>, names: map<string, VertexName>, k: nat, from: VertexName,
    to: VertexName)
  {
    k < |links| && LinksUp(links, names, k, from, to) && forall j: nat :: j < k ==> !LinksUp(links, names, j, from, to)
  }

  function ConditionOf(text: Option<string>): Option<TagCondition> {
    match text
    case None => None
    case Some(s) => Some(Tags(s))
  }

  /** The edge is what the first undotted link between its ends says. */
  ghost predicate SaidFirst(links: seq<Link>, names: map<string, VertexName>, e: Edge) {
    exists k: nat :: FirstToLink(links, names, k, e.from, e.to) && Says(links, k, e)
  }

  ghost predicate Says(links: seq<Link>, k: nat, e: Edge)
    requires k < |links|
  {
    e.conditions == ConditionOf(links[k].text) && e.onFull == RetryUntilSuccess
  }

  lemma LinkedSnoc(links: seq<Link>, names: map<string, VertexName>, from: VertexName, to: VertexName)
    requires links != []
    ensures var n := |links| - 1;
            Linked(links, names, from, to) <==>
              Linked(links[..n], names, from, to) || LinksUp(links, names, n, from, to)
  {
    var n := |links| - 1;
    if k: nat :| k < |links| && LinksUp(links, names, k, from, to) {
      assert k < n ==> LinksUp(links[..n], names, k, from, to);
    }
    if k: nat :| k < n && LinksUp(links[..n], names, k, from, to) {
      assert LinksUp(links, names, k, from, to);
    }
  }

  lemma FirstStays(links: seq<Link>, names: map<string, VertexName>, k: nat, from: VertexName, to: VertexName)
    requires links != [] && k < |links| - 1
    ensures FirstToLink(links, names, k, from, to) <==> FirstToLink(links[..|links| - 1], names, k, from, to)
  {
    var before := links[..|links| - 1];
    assert forall j: nat :: j <= k ==> (LinksUp(links, names, j, from, to) <==> LinksUp(before, names, j, from, to));
  }

  lemma SaidSnoc(links: seq<Link>, names: map<string, VertexName>, e: Edge)
    requires links != []
    ensures var n := |links| - 1;
            SaidFirst(links, names, e) <==>
              || SaidFirst(links[..n], names, e)
              || (&& !Linked(links[..n], names, e.from, e.to) && LinksUp(links, names, n, e.from, e.to)
                  && Says(links, n, e))
  {
    var n := |links| - 1;
    if k: nat :| FirstToLink(links, names, k, e.from, e.to) && Says(links, k, e) {
      if k < n {
        FirstStays(links, names, k, e.from, e.to);
        assert Says(links[..n], k, e);
      } else {
        assert forall j: nat :: j < n && LinksUp(links[..n], names, j, e.from, e.to) ==>
            LinksUp(links, names, j, e.from, e.to);
      }
    }
    if k: nat :| FirstToLink(links[..n], names, k, e.from, e.to) && Says(links[..n], k, e) {
      FirstStays(links, names, k, e.from, e.to);
      assert Says(links, k, e);
    }
    if !Linked(links[..n], names, e.from, e.to) && LinksUp(links, names, n, e.from, e.to) && Says(links, n, e) {
      assert forall j: nat :: j < n && LinksUp(links, names, j, e.from, e.to) ==>
          LinksUp(links[..n], names, j, e.from, e.to);
      assert FirstToLink(links, names, n, e.from, e.to);
    }
  }

  lemma EdgesSnoc(links: seq<Link>, names: map<string, VertexName>, e: Edge)
    requires links != []
    ensures var n := |links| - 1;
            e in EdgesOf(links, names) <==>
              || e in EdgesOf(links[..n], names)
              || (&& LinksUp(links, names, n, e.from, e.to) && Says(links, n, e)
                  && !HasEnds(EdgesOf(links[..n], names), e.from, e.to))
    ensures var n := |links| - 1;
            HasEnds(EdgesOf(links, names), e.from, e.to) <==>
              HasEnds(EdgesOf(links[..n], names), e.from, e.to) || LinksUp(links, names, n, e.from, e.to)
  {
    var n := |links| - 1;
    var l, before := links[n], EdgesOf(links[..n], names);
    if !l.dotted && l.from in names && l.to in names && !HasEnds(before, names[l.from], names[l.to]) {
      var all := before + [EdgeOf(l, names)];
      assert all[|before|] == EdgeOf(l, names);
      assert forall i :: 0 <= i < |before| ==> all[i] == before[i];
    }
  }

  /** There is an edge for every pair that an undotted link joins, and it says what the first of them says. */
  lemma {:induction false} FirstLinkCounts(links: seq<Link>, names: map<string, VertexName>, e: Edge)
    ensures e in EdgesOf(links, names) <==> SaidFirst(links, names, e)
    ensures HasEnds(EdgesOf(links, names), e.from, e.to) <==> Linked(links, names, e.from, e.to)
    decreases |links|
  {
    if links != [] {
      FirstLinkCounts(links[..|links| - 1], names, e);
      LinkedSnoc(links, names, e.from, e.to);
      SaidSnoc(links, names, e);
      EdgesSnoc(links, names, e);
    }
  }

  /** No two edges share their ends. */
  lemma {:induction false} LinksAreOnce(links: seq<Link>, names: map<string, VertexName>)
    ensures DistinctEnds(EdgesOf(links, names))
  {
    if links != [] {
      LinksAreOnce(links[..|links| - 1], names);
    }
  }
}
