/** Which bridges depend on the order routes are painted in, and which do not. */
module CanvasOrder {
  import opened Names
  import opened EdgeCanvas
  import opened CanvasLaws

  // ---- bringing a route to the front -------------------------------------------------

  lemma {:induction false} StrokesAppend(a: seq<Painted>, b: seq<Painted>)
    ensures AllStrokes(a + b) == AllStrokes(a) + AllStrokes(b)
    decreases |b|
  {
    if b == [] {
      assert a + b == a;
      assert AllStrokes(a) + [] == AllStrokes(a);
    } else {
      var n := |b| - 1;
      StrokesAppend(a, b[..n]);
      LastRoute(a, b);
      Associate(AllStrokes(a), AllStrokes(b[..n]), StrokesOfRoute(b[n]));
    }
  }

  lemma LastRoute(a: seq<Painted>, b: seq<Painted>)
    requires b != []
    ensures AllStrokes(a + b) == AllStrokes(a + b[..|b| - 1]) + StrokesOfRoute(b[|b| - 1])
  {
    assert (a + b)[..|a + b| - 1] == a + b[..|b| - 1];
  }

  lemma Associate(a: seq<Stroke>, b: seq<Stroke>, c: seq<Stroke>)
    ensures a + b + c == a + (b + c)
  {
  }

  function StrokesOfRoute(r: Painted): seq<Stroke> {
    StrokesOf(r.edge, r.points, r.colour)
  }

  lemma OneRoute(r: Painted)
    ensures AllStrokes([r]) == StrokesOfRoute(r)
  {
    assert [r][..0] == [] && AllStrokes([]) == [];
  }

  /** The routes in another order, with this one first. */
  lemma RouteFirst(routes: seq<Painted>, r: Painted) returns (rest: seq<Painted>)
    requires r in routes
    ensures multiset([r] + rest) == multiset(routes)
    ensures AllStrokes([r] + rest) == StrokesOfRoute(r) + AllStrokes(rest)
  {
    var i :| 0 <= i < |routes| && routes[i] == r;
    rest := routes[..i] + routes[i + 1..];
    assert routes == routes[..i] + [r] + routes[i + 1..];
    OneRoute(r);
    StrokesAppend([r], rest);
  }

  lemma InPermutation(a: seq<Painted>, b: seq<Painted>, r: Painted)
    requires multiset(a) == multiset(b)
    ensures r in a <==> r in b
  {
    assert r in a <==> r in multiset(a);
    assert r in b <==> r in multiset(b);
  }

  /** The routes in another order, with these two first. */
  lemma TwoFirst(routes: seq<Painted>, r: Painted, s: Painted) returns (other: seq<Painted>, rest: seq<Stroke>)
    requires r in routes && s in routes && r != s
    ensures multiset(other) == multiset(routes)
    ensures AllStrokes(other) == StrokesOfRoute(r) + StrokesOfRoute(s) + rest
  {
    var some := RouteFirst(routes, r);
    InPermutation([r] + some, routes, s);
    assert s in some;
    var more := RouteFirst(some, s);
    other := [r] + ([s] + more);
    assert other == [r] + [s] + more;
    OneRoute(r);
    StrokesAppend([r], [s] + more);
    rest := AllStrokes(more);
  }

  // ---- runs in order -----------------------------------------------------------------

  function EdgesIn(runs: seq<Mark>): (r: seq<nat>)
    ensures |r| == |runs| && forall i :: 0 <= i < |r| ==> r[i] == runs[i].edge
  {
    seq(|runs|, i requires 0 <= i < |runs| => runs[i].edge)
  }

  lemma {:induction false} AddRunEdges(runs: seq<Mark>, edge: nat, bits: Bits)
    ensures EdgesIn(AddRun(runs, edge, bits)) == if edge in EdgesIn(runs) then EdgesIn(runs) else EdgesIn(runs) + [edge]
  {
    if runs != [] {
      EdgesFirst(runs[0], runs[1..]);
      assert runs == [runs[0]] + runs[1..];
      if runs[0].edge == edge {
        EdgesFirst(Mark(edge, runs[0].bits.Or(bits)), runs[1..]);
      } else {
        AddRunEdges(runs[1..], edge, bits);
        EdgesFirst(runs[0], AddRun(runs[1..], edge, bits));
        FirstOrLater(runs[0].edge, EdgesIn(runs[1..]), edge);
      }
    }
  }

  lemma EdgesFirst(m: Mark, runs: seq<Mark>)
    ensures EdgesIn([m] + runs) == [m.edge] + EdgesIn(runs)
  {
  }

  lemma FirstOrLater(first: nat, more: seq<nat>, edge: nat)
    requires first != edge
    ensures edge in [first] + more <==> edge in more
    ensures [first] + (more + [edge]) == [first] + more + [edge]
  {
  }

  lemma LastStroke(a: seq<Stroke>, b: seq<Stroke>, x: int, y: int)
    requires b != []
    ensures CellAfter(a + b, x, y) == PaintStroke(CellAfter(a + b[..|b| - 1], x, y), b[|b| - 1], x, y)
  {
    assert (a + b)[..|a + b| - 1] == a + b[..|b| - 1];
  }

  /** Edges come in the order of their first strokes over the cell, so later strokes change none of the first. */
  lemma {:induction false} EarlierEdges(a: seq<Stroke>, b: seq<Stroke>, x: int, y: int)
    ensures EdgesIn(CellAfter(a, x, y).runs) <= EdgesIn(CellAfter(a + b, x, y).runs)
    decreases |b|
  {
    if b == [] {
      assert a + b == a;
    } else {
      var n := |b| - 1;
      EarlierEdges(a, b[..n], x, y);
      LastStroke(a, b, x, y);
      AddRunEdges(CellAfter(a + b[..n], x, y).runs, b[n].edge, b[n].BitsAt(x, y));
    }
  }

  ghost predicate AllOf(strokes: seq<Stroke>, edge: nat) {
    forall i :: 0 <= i < |strokes| ==> strokes[i].edge == edge
  }

  /** Strokes of one edge after `a` add that edge, if they cover the cell and it is not there yet. */
  lemma {:induction false} OneEdgeMore(a: seq<Stroke>, b: seq<Stroke>, edge: nat, x: int, y: int)
    requires AllOf(b, edge)
    ensures var before := EdgesIn(CellAfter(a, x, y).runs);
            EdgesIn(CellAfter(a + b, x, y).runs)
              == if edge in before || !SomeCovers(b, x, y) then before else before + [edge]
    decreases |b|
  {
    if b == [] {
      assert a + b == a;
    } else {
      var n := |b| - 1;
      OneEdgeMore(a, b[..n], edge, x, y);
      LastStroke(a, b, x, y);
      assert b == b[..n] + [b[n]];
      CoversSnoc(b[..n], b[n], x, y);
      AddRunEdges(CellAfter(a + b[..n], x, y).runs, b[n].edge, b[n].BitsAt(x, y));
    }
  }

  lemma {:induction false} RouteIsOneEdge(edge: nat, points: seq<(int, int)>, colour: Option<Colour>)
    ensures AllOf(StrokesOf(edge, points, colour), edge)
    decreases |points|
  {
    if |points| >= 2 {
      RouteIsOneEdge(edge, points[..|points| - 1], colour);
    }
  }

  // ---- which edges go straight through --------------------------------------------------

  /** The edge alone would leave exactly these bits in the cell. */
  ghost predicate Straight(strokes: seq<Stroke>, x: int, y: int, edge: nat, bits: Bits) {
    CellAfter(OfEdge(strokes, edge), x, y).bits == bits
  }

  lemma {:induction false} OfEdgeHas(strokes: seq<Stroke>, edge: nat, s: Stroke)
    ensures s in OfEdge(strokes, edge) <==> s in strokes && s.edge == edge
  {
    if strokes != [] {
      var n := |strokes| - 1;
      OfEdgeHas(strokes[..n], edge, s);
      assert strokes == strokes[..n] + [strokes[n]];
    }
  }

  lemma StraightInAnyOrder(a: seq<Stroke>, b: seq<Stroke>, x: int, y: int, edge: nat, bits: Bits)
    requires SameStrokes(a, b)
    ensures Straight(a, x, y, edge, bits) <==> Straight(b, x, y, edge, bits)
  {
    forall s ensures s in OfEdge(a, edge) <==> s in OfEdge(b, edge) {
      OfEdgeHas(a, edge, s);
      OfEdgeHas(b, edge, s);
    }
    OrderIrrelevant(OfEdge(a, edge), OfEdge(b, edge), x, y);
  }

  lemma {:induction false} RunIsThere(runs: seq<Mark>, edge: nat)
    ensures RunOf(runs, edge).Some? ==> Mark(edge, RunOf(runs, edge).value) in runs
  {
    if runs != [] && runs[0].edge != edge {
      RunIsThere(runs[1..], edge);
    }
  }

  lemma StraightIsRun(strokes: seq<Stroke>, x: int, y: int, edge: nat, bits: Bits)
    requires bits != NO_BITS
    ensures Straight(strokes, x, y, edge, bits) <==> RunOf(CellAfter(strokes, x, y).runs, edge) == Some(bits)
    ensures Straight(strokes, x, y, edge, bits) ==> SomeCovers(OfEdge(strokes, edge), x, y)
  {
    RunMeansEdge(strokes, x, y, edge);
  }

  /** The first run with these bits is that of an edge straight through, and there is one if there is such an edge. */
  lemma FirstIsStraight(strokes: seq<Stroke>, x: int, y: int, bits: Bits)
    requires bits != NO_BITS
    ensures var first := FirstRun(CellAfter(strokes, x, y).runs, bits);
            if first.Some? then Straight(strokes, x, y, first.value, bits)
            else forall edge :: !Straight(strokes, x, y, edge, bits)
  {
    var runs := CellAfter(strokes, x, y).runs;
    var first := FirstRun(runs, bits);
    BitsAreRuns(strokes, x, y);
    if first.Some? {
      FirstRunIsRun(runs, bits);
      StraightIsRun(strokes, x, y, first.value, bits);
    } else {
      forall edge ensures !Straight(strokes, x, y, edge, bits) {
        StraightIsRun(strokes, x, y, edge, bits);
        RunIsThere(runs, edge);
      }
    }
  }

  // ---- bridges in any order ------------------------------------------------------------

  predicate TwoLines(ends: seq<Ends>, colours: seq<Option<Colour>>, a: nat, b: nat) {
    a < |ends| && b < |ends| && !OneLine(ends, colours, a, b)
  }

  /** Whichever edges straight across and straight down are looked at, they are one line, or are two. */
  ghost predicate OneVerdict(strokes: seq<Stroke>, x: int, y: int, ends: seq<Ends>, colours: seq<Option<Colour>>) {
    forall a, d, a', d' ::
      Straight(strokes, x, y, a, ACROSS) && Straight(strokes, x, y, d, DOWN)
      && Straight(strokes, x, y, a', ACROSS) && Straight(strokes, x, y, d', DOWN)
      ==> (TwoLines(ends, colours, a, d) <==> TwoLines(ends, colours, a', d'))
  }

  ghost predicate CrossesAt(routes: seq<Painted>, x: int, y: int, ends: seq<Ends>, colours: seq<Option<Colour>>) {
    Crosses(ends, colours, CellAfter(AllStrokes(routes), x, y).runs)
  }

  /** In either order the first run with these bits is that of some edge straight through. */
  lemma FirstsAgree(a: seq<Stroke>, b: seq<Stroke>, x: int, y: int, bits: Bits)
    requires SameStrokes(a, b) && bits != NO_BITS
    ensures var one, two := FirstRun(CellAfter(a, x, y).runs, bits), FirstRun(CellAfter(b, x, y).runs, bits);
            && (one.Some? <==> two.Some?)
            && (one.Some? ==> Straight(a, x, y, one.value, bits) && Straight(a, x, y, two.value, bits))
  {
    FirstIsStraight(a, x, y, bits);
    FirstIsStraight(b, x, y, bits);
    var one, two := FirstRun(CellAfter(a, x, y).runs, bits), FirstRun(CellAfter(b, x, y).runs, bits);
    if one.Some? {
      StraightInAnyOrder(a, b, x, y, one.value, bits);
    }
    if two.Some? {
      StraightInAnyOrder(a, b, x, y, two.value, bits);
    }
  }

  lemma SameVerdict(a: seq<Stroke>, b: seq<Stroke>, x: int, y: int, ends: seq<Ends>, colours: seq<Option<Colour>>)
    requires SameStrokes(a, b) && OneVerdict(a, x, y, ends, colours)
    ensures Crosses(ends, colours, CellAfter(a, x, y).runs) <==> Crosses(ends, colours, CellAfter(b, x, y).runs)
  {
    FirstsAgree(a, b, x, y, ACROSS);
    FirstsAgree(a, b, x, y, DOWN);
    CrossesMeans(ends, colours, CellAfter(a, x, y).runs);
    CrossesMeans(ends, colours, CellAfter(b, x, y).runs);
  }

  lemma CrossesMeans(ends: seq<Ends>, colours: seq<Option<Colour>>, runs: seq<Mark>)
    ensures var across, down := FirstRun(runs, ACROSS), FirstRun(runs, DOWN);
            Crosses(ends, colours, runs)
            <==> across.Some? && down.Some? && TwoLines(ends, colours, across.value, down.value)
  {
  }

  /** A route of the edge that covers the cell. */
  lemma RouteCovering(routes: seq<Painted>, x: int, y: int, edge: nat) returns (r: Painted)
    requires SomeCovers(OfEdge(AllStrokes(routes), edge), x, y)
    ensures r in routes && r.edge == edge && SomeCovers(StrokesOfRoute(r), x, y)
  {
    var s :| s in OfEdge(AllStrokes(routes), edge) && s.Covers(x, y);
    OfEdgeHas(AllStrokes(routes), edge, s);
    StrokeOfSomeRoute(routes, s);
    r :| r in routes && s in StrokesOf(r.edge, r.points, r.colour);
    RouteIsOneEdge(r.edge, r.points, r.colour);
  }

  lemma OneEdge(r: Painted, x: int, y: int)
    requires SomeCovers(StrokesOfRoute(r), x, y)
    ensures EdgesIn(CellAfter(StrokesOfRoute(r), x, y).runs) == [r.edge]
  {
    RouteIsOneEdge(r.edge, r.points, r.colour);
    OneEdgeMore([], StrokesOfRoute(r), r.edge, x, y);
    assert [] + StrokesOfRoute(r) == StrokesOfRoute(r) && EdgesIn(CellAfter([], x, y).runs) == [];
  }

  lemma TwoEdges(r: Painted, s: Painted, x: int, y: int)
    requires r.edge != s.edge && SomeCovers(StrokesOfRoute(r), x, y) && SomeCovers(StrokesOfRoute(s), x, y)
    ensures EdgesIn(CellAfter(StrokesOfRoute(r) + StrokesOfRoute(s), x, y).runs) == [r.edge, s.edge]
  {
    OneEdge(r, x, y);
    RouteIsOneEdge(s.edge, s.points, s.colour);
    OneEdgeMore(StrokesOfRoute(r), StrokesOfRoute(s), s.edge, x, y);
    Both(r.edge, s.edge);
  }

  lemma Both(a: nat, b: nat)
    ensures [a] + [b] == [a, b] && (b in [a] <==> b == a)
  {
  }

  lemma EdgesStart(runs: seq<Mark>, a: nat, b: nat)
    requires [a, b] <= EdgesIn(runs)
    ensures |runs| >= 2 && runs[0].edge == a && runs[1].edge == b
  {
    assert EdgesIn(runs)[0] == [a, b][0] && EdgesIn(runs)[1] == [a, b][1];
  }

  /** After the routes of two edges over the cell their runs come first, whatever follows. */
  lemma FirstTwoEdges(r: Painted, s: Painted, rest: seq<Stroke>, x: int, y: int)
    requires r.edge != s.edge && SomeCovers(StrokesOfRoute(r), x, y) && SomeCovers(StrokesOfRoute(s), x, y)
    ensures var runs := CellAfter(StrokesOfRoute(r) + StrokesOfRoute(s) + rest, x, y).runs;
            |runs| >= 2 && runs[0].edge == r.edge && runs[1].edge == s.edge
  {
    var two := StrokesOfRoute(r) + StrokesOfRoute(s);
    TwoEdges(r, s, x, y);
    EarlierEdges(two, rest, x, y);
    EdgesStart(CellAfter(two + rest, x, y).runs, r.edge, s.edge);
  }

  lemma FirstTwoRuns(runs: seq<Mark>)
    requires |runs| >= 2 && runs[0].edge != runs[1].edge
    ensures RunOf(runs, runs[0].edge) == Some(runs[0].bits) && RunOf(runs, runs[1].edge) == Some(runs[1].bits)
    ensures runs[0].bits == ACROSS && runs[1].bits == DOWN ==>
              FirstRun(runs, ACROSS) == Some(runs[0].edge) && FirstRun(runs, DOWN) == Some(runs[1].edge)
  {
    assert runs[1..][0] == runs[1];
  }

  /** Any edge straight across and any straight down can be the ones that bridging looks at. */
  lemma AnyTwoFirst(routes: seq<Painted>, x: int, y: int, ends: seq<Ends>, colours: seq<Option<Colour>>, a: nat, d: nat)
    returns (other: seq<Painted>)
    requires Straight(AllStrokes(routes), x, y, a, ACROSS) && Straight(AllStrokes(routes), x, y, d, DOWN)
    ensures multiset(other) == multiset(routes)
    ensures (CrossesAt(other, x, y, ends, colours) <==> TwoLines(ends, colours, a, d))
  {
    StraightIsRun(AllStrokes(routes), x, y, a, ACROSS);
    StraightIsRun(AllStrokes(routes), x, y, d, DOWN);
    var r := RouteCovering(routes, x, y, a);
    var s := RouteCovering(routes, x, y, d);
    var rest;
    other, rest := TwoFirst(routes, r, s);
    FirstTwoEdges(r, s, rest, x, y);
    SameRoutesSameStrokes(routes, other);
    StraightInAnyOrder(AllStrokes(routes), AllStrokes(other), x, y, a, ACROSS);
    StraightInAnyOrder(AllStrokes(routes), AllStrokes(other), x, y, d, DOWN);
    StraightIsRun(AllStrokes(other), x, y, a, ACROSS);
    StraightIsRun(AllStrokes(other), x, y, d, DOWN);
    FirstTwoRuns(CellAfter(AllStrokes(other), x, y).runs);
  }

  /** Whether a cell is a crossing to bridge does not depend on the painting order exactly when there is one verdict. */
  lemma CrossesInAnyOrder(routes: seq<Painted>, x: int, y: int, ends: seq<Ends>, colours: seq<Option<Colour>>)
    ensures (forall other :: multiset(other) == multiset(routes) ==>
               (CrossesAt(other, x, y, ends, colours) <==> CrossesAt(routes, x, y, ends, colours)))
            <==> OneVerdict(AllStrokes(routes), x, y, ends, colours)
  {
    var strokes := AllStrokes(routes);
    if OneVerdict(strokes, x, y, ends, colours) {
      forall other | multiset(other) == multiset(routes)
        ensures CrossesAt(other, x, y, ends, colours) <==> CrossesAt(routes, x, y, ends, colours) {
        SameRoutesSameStrokes(routes, other);
        SameVerdict(strokes, AllStrokes(other), x, y, ends, colours);
      }
    } else {
      var a, d, a', d' :|
        Straight(strokes, x, y, a, ACROSS) && Straight(strokes, x, y, d, DOWN)
        && Straight(strokes, x, y, a', ACROSS) && Straight(strokes, x, y, d', DOWN)
        && TwoLines(ends, colours, a, d) != TwoLines(ends, colours, a', d');
      var one := AnyTwoFirst(routes, x, y, ends, colours, a, d);
      var two := AnyTwoFirst(routes, x, y, ends, colours, a', d');
    }
  }

  /** Two edges along one row and one down through both: the bridge comes and goes with the order of the first two. */
  lemma OrderDecidesBridge()
    ensures var r0, r1 := Painted(0, [(0, 2), (9, 2)], Some(1)), Painted(1, [(0, 2), (9, 2)], Some(2));
            var r2 := Painted(2, [(4, 0), (4, 4)], Some(1));
            var ends, colours := [(0, 9), (2, 9), (0, 4)], [Some(1), Some(2), Some(1)];
            !CrossesAt([r0, r1, r2], 4, 2, ends, colours) && CrossesAt([r1, r0, r2], 4, 2, ends, colours)
  {
    var r0, r1 := Painted(0, [(0, 2), (9, 2)], Some(1)), Painted(1, [(0, 2), (9, 2)], Some(2));
    var r2 := Painted(2, [(4, 0), (4, 4)], Some(1));
    ThreeRuns(r0, r1, r2);
    ThreeRuns(r1, r0, r2);
    FirstOfThree(0, 1, 2);
    FirstOfThree(1, 0, 2);
  }

  lemma FirstOfThree(a: nat, b: nat, c: nat)
    ensures var runs := [Mark(a, ACROSS), Mark(b, ACROSS), Mark(c, DOWN)];
            FirstRun(runs, ACROSS) == Some(a) && FirstRun(runs, DOWN) == Some(c)
  {
    var runs := [Mark(a, ACROSS), Mark(b, ACROSS), Mark(c, DOWN)];
    assert runs[1..] == [Mark(b, ACROSS), Mark(c, DOWN)] && runs[1..][1..] == [Mark(c, DOWN)];
    assert FirstRun(runs, DOWN) == FirstRun(runs[1..], DOWN) == FirstRun(runs[1..][1..], DOWN);
  }

  /** A route of one stroke adds its run to the cell. */
  lemma StrokeMore(routes: seq<Painted>, r: Painted, p: (int, int), q: (int, int), x: int, y: int)
    requires r.points == [p, q]
    ensures var s := StrokeBetween(r.edge, p, q, r.colour);
            CellAfter(AllStrokes(routes + [r]), x, y) == PaintStroke(CellAfter(AllStrokes(routes), x, y), s, x, y)
  {
    var strokes, s := AllStrokes(routes), StrokeBetween(r.edge, p, q, r.colour);
    assert StrokesOf(r.edge, r.points[..1], r.colour) == [];
    assert StrokesOfRoute(r) == [s];
    LastRoute(routes, [r]);
    assert routes + [r][..0] == routes;
    assert (strokes + [s])[..|strokes|] == strokes;
  }

  lemma ThreeRuns(r: Painted, s: Painted, t: Painted)
    requires r.points == s.points == [(0, 2), (9, 2)] && t.points == [(4, 0), (4, 4)]
    requires r.edge != s.edge && t.edge != r.edge && t.edge != s.edge
    ensures CellAfter(AllStrokes([r, s, t]), 4, 2).runs ==
        [Mark(r.edge, ACROSS), Mark(s.edge, ACROSS), Mark(t.edge, DOWN)]
  {
    StrokeMore([], r, (0, 2), (9, 2), 4, 2);
    StrokeMore([r], s, (0, 2), (9, 2), 4, 2);
    StrokeMore([r, s], t, (4, 0), (4, 4), 4, 2);
    assert [] + [r] == [r] && [r] + [s] == [r, s] && [r, s] + [t] == [r, s, t];
    assert CellAfter(AllStrokes([r]), 4, 2).runs == [Mark(r.edge, ACROSS)];
    TwoRuns(Mark(r.edge, ACROSS), s.edge, ACROSS);
    ThirdRun(Mark(r.edge, ACROSS), Mark(s.edge, ACROSS), t.edge, DOWN);
  }

  lemma TwoRuns(a: Mark, edge: nat, bits: Bits)
    requires a.edge != edge
    ensures AddRun([a], edge, bits) == [a, Mark(edge, bits)]
  {
    assert [a][1..] == [];
  }

  lemma ThirdRun(a: Mark, b: Mark, edge: nat, bits: Bits)
    requires a.edge != edge && b.edge != edge
    ensures AddRun([a, b], edge, bits) == [a, b, Mark(edge, bits)]
  {
    assert [a, b][1..] == [b];
    TwoRuns(b, edge, bits);
  }

  // ---- the colour of a bridge in any order ------------------------------------------------

  /** A longest upright stroke that turns in the cell. */
  ghost predicate Longest(strokes: seq<Stroke>, s: Stroke, x: int, y: int) {
    s in strokes && TurnsHere(s, x, y) && forall o :: o in strokes && TurnsHere(o, x, y) ==> o.Reach() <= s.Reach()
  }

  ghost predicate OneLongest(strokes: seq<Stroke>, x: int, y: int) {
    forall s, o :: Longest(strokes, s, x, y) && Longest(strokes, o, x, y) ==> s.colour == o.colour
  }

  /** Where nothing turns the cell has no colour of its own; else it has that of a longest stroke. */
  lemma TurnIsOfLongest(strokes: seq<Stroke>, x: int, y: int)
    ensures var turn := CellAfter(strokes, x, y).turn;
            if turn == Unset then forall s :: !Longest(strokes, s, x, y)
            else exists s :: Longest(strokes, s, x, y) && turn == One(s.colour)
  {
    TurnIsLongest(strokes, x, y);
    var c := CellAfter(strokes, x, y);
    if c.turn != Unset {
      var s :| s in strokes && TurnsHere(s, x, y) && s.Reach() == c.reach && c.turn == One(s.colour);
      assert Longest(strokes, s, x, y);
    }
  }

  lemma SameLongest(a: seq<Stroke>, b: seq<Stroke>, x: int, y: int, s: Stroke)
    requires SameStrokes(a, b)
    ensures Longest(a, s, x, y) <==> Longest(b, s, x, y)
  {
  }

  /** Once a longest stroke has turned the cell, no later one changes its colour. */
  lemma {:induction false} TurnStays(a: seq<Stroke>, b: seq<Stroke>, x: int, y: int)
    requires forall i :: 0 <= i < |b| && TurnsHere(b[i], x, y) ==> b[i].Reach() <= CellAfter(a, x, y).reach
    ensures CellAfter(a + b, x, y).turn == CellAfter(a, x, y).turn
    ensures CellAfter(a + b, x, y).reach == CellAfter(a, x, y).reach
    decreases |b|
  {
    if b == [] {
      assert a + b == a;
    } else {
      var n := |b| - 1;
      TurnStays(a, b[..n], x, y);
      LastStroke(a, b, x, y);
    }
  }

  lemma {:induction false} RouteIsOneColour(edge: nat, points: seq<(int, int)>, colour: Option<Colour>)
    ensures forall s :: s in StrokesOf(edge, points, colour) ==> s.colour == colour
    decreases |points|
  {
    if |points| >= 2 {
      RouteIsOneColour(edge, points[..|points| - 1], colour);
    }
  }

  /** Any longest stroke can be the one that colours the cell. */
  lemma AnyLongestFirst(routes: seq<Painted>, x: int, y: int, s: Stroke) returns (other: seq<Painted>)
    requires Longest(AllStrokes(routes), s, x, y)
    ensures multiset(other) == multiset(routes) && CellAfter(AllStrokes(other), x, y).turn == One(s.colour)
  {
    StrokeOfSomeRoute(routes, s);
    var r :| r in routes && s in StrokesOf(r.edge, r.points, r.colour);
    var rest := RouteFirst(routes, r);
    other := [r] + rest;
    SameRoutesSameStrokes(routes, other);
    SameLongest(AllStrokes(routes), AllStrokes(other), x, y, s);
    var own := StrokesOfRoute(r);
    RouteIsOneColour(r.edge, r.points, r.colour);
    TurnIsLongest(own, x, y);
    TurnStays(own, AllStrokes(rest), x, y);
  }

  /** The colour a bridge takes does not depend on the painting order exactly when all longest strokes have one. */
  lemma TurnInAnyOrder(routes: seq<Painted>, x: int, y: int)
    ensures (forall other :: multiset(other) == multiset(routes) ==>
               CellAfter(AllStrokes(other), x, y).turn == CellAfter(AllStrokes(routes), x, y).turn)
            <==> OneLongest(AllStrokes(routes), x, y)
  {
    var strokes := AllStrokes(routes);
    if OneLongest(strokes, x, y) {
      forall other | multiset(other) == multiset(routes)
        ensures CellAfter(AllStrokes(other), x, y).turn == CellAfter(strokes, x, y).turn {
        SameRoutesSameStrokes(routes, other);
        SameTurn(strokes, AllStrokes(other), x, y);
      }
    } else {
      var s, o :| Longest(strokes, s, x, y) && Longest(strokes, o, x, y) && s.colour != o.colour;
      var one := AnyLongestFirst(routes, x, y, s);
      var two := AnyLongestFirst(routes, x, y, o);
    }
  }

  lemma SameTurn(a: seq<Stroke>, b: seq<Stroke>, x: int, y: int)
    requires SameStrokes(a, b) && OneLongest(a, x, y)
    ensures CellAfter(a, x, y).turn == CellAfter(b, x, y).turn
  {
    TurnIsOfLongest(a, x, y);
    TurnIsOfLongest(b, x, y);
    forall s ensures Longest(a, s, x, y) <==> Longest(b, s, x, y) {
      SameLongest(a, b, x, y, s);
    }
  }

  // ---- the overlay in any order -----------------------------------------------------------

  /** At every cell one verdict and one longest colour. */
  ghost predicate Settled(canvas: Canvas, ends: seq<Ends>, colours: seq<Option<Colour>>)
    reads canvas
  {
    forall i :: 0 <= i < canvas.w * canvas.h ==>
      && OneVerdict(canvas.strokes, canvas.X(i), canvas.Y(i), ends, colours)
      && OneLongest(canvas.strokes, canvas.X(i), canvas.Y(i))
  }

  lemma CellsAlike(a: seq<Stroke>, b: seq<Stroke>, x: int, y: int, ends: seq<Ends>, colours: seq<Option<Colour>>)
    requires SameStrokes(a, b) && OneVerdict(a, x, y, ends, colours) && OneLongest(a, x, y)
    ensures var c, d := CellAfter(a, x, y), CellAfter(b, x, y);
            && c.bits == d.bits && c.ink == d.ink && c.turn == d.turn
            && (Crosses(ends, colours, c.runs) <==> Crosses(ends, colours, d.runs))
  {
    OrderIrrelevant(a, b, x, y);
    SameTurn(a, b, x, y);
    SameVerdict(a, b, x, y, ends, colours);
  }

  /** What bridging looks at and paints at one cell. */
  datatype Look = Look(bits: Bits, ink: Ink, turn: Ink, crosses: bool)

  function LookAt(canvas: Canvas, ends: seq<Ends>, colours: seq<Option<Colour>>, i: nat): Look
    requires canvas.Shaped() && i < canvas.cells.Length
    reads canvas, canvas.cells, canvas.ink, canvas.turn, canvas.runs
  {
    Look(canvas.cells[i], canvas.ink[i], canvas.turn[i].0, Crosses(ends, colours, canvas.runs[i]))
  }

  lemma LookAtCell(canvas: Canvas, ends: seq<Ends>, colours: seq<Option<Colour>>, i: nat, x: int, y: int)
    requires canvas.Valid() && i < canvas.w * canvas.h && x == canvas.X(i) && y == canvas.Y(i)
    ensures var c := CellAfter(canvas.strokes, x, y);
            LookAt(canvas, ends, colours, i) == Look(c.bits, c.ink, c.turn, Crosses(ends, colours, c.runs))
  {
    assert canvas.CellAt(i) == CellAfter(canvas.strokes, canvas.X(i), canvas.Y(i));
  }

  /** Bridging looks at nothing else. */
  lemma OverlayAlike(cells: seq<Bits>, inks: seq<Ink>, runs: seq<seq<Mark>>, turns: seq<(Ink, int)>,
    runs': seq<seq<Mark>>, turns': seq<(Ink, int)>, w: nat, ends: seq<Ends>, colours: seq<Option<Colour>>,
    was: Option<(char, Ink)>, j: nat)
    requires j < |cells| == |inks| == |runs| == |turns| == |runs'| == |turns'|
    requires forall i :: 0 <= i < |cells| ==> turns[i].0 == turns'[i].0
    requires forall i :: 0 <= i < |cells| ==> (Crosses(ends, colours, runs[i]) <==> Crosses(ends, colours, runs'[i]))
    ensures Overlay(cells, runs, inks, turns, w, ends, colours, was, j)
         == Overlay(cells, runs', inks, turns', w, ends, colours, was, j)
  {
    forall i | 0 <= i < |cells|
      ensures Bridged(cells, runs, w, ends, colours, i) <==> Bridged(cells, runs', w, ends, colours, i) {
    }
  }

  lemma LooksMean(one: Canvas, two: Canvas, ends: seq<Ends>, colours: seq<Option<Colour>>)
    requires one.Shaped() && two.Shaped() && one.cells.Length == two.cells.Length
    requires forall i :: 0 <= i < one.cells.Length ==> LookAt(one, ends, colours, i) == LookAt(two, ends, colours, i)
    ensures one.cells[..] == two.cells[..] && one.ink[..] == two.ink[..]
    ensures forall i :: 0 <= i < one.cells.Length ==> one.turn[..][i].0 == two.turn[..][i].0
    ensures forall i :: 0 <= i < one.cells.Length ==>
              (Crosses(ends, colours, one.runs[..][i]) <==> Crosses(ends, colours, two.runs[..][i]))
  {
    forall i | 0 <= i < one.cells.Length
      ensures one.cells[i] == two.cells[i] && one.ink[i] == two.ink[i] && one.turn[i].0 == two.turn[i].0
      ensures Crosses(ends, colours, one.runs[i]) <==> Crosses(ends, colours, two.runs[i]) {
      assert LookAt(one, ends, colours, i) == LookAt(two, ends, colours, i);
    }
  }

  lemma LooksOverlay(one: Canvas, two: Canvas, ends: seq<Ends>, colours: seq<Option<Colour>>, was: Option<(char, Ink)>,
    j: nat)
    requires one.Shaped() && two.Shaped() && one.w == two.w && one.cells.Length == two.cells.Length
    requires j < one.cells.Length
    requires forall i :: 0 <= i < one.cells.Length ==> LookAt(one, ends, colours, i) == LookAt(two, ends, colours, i)
    ensures Overlay(one.cells[..], one.runs[..], one.ink[..], one.turn[..], one.w, ends, colours, was, j)
         == Overlay(two.cells[..], two.runs[..], two.ink[..], two.turn[..], two.w, ends, colours, was, j)
  {
    LooksMean(one, two, ends, colours);
    OverlayAlike(one.cells[..], one.ink[..], one.runs[..], one.turn[..], two.runs[..], two.turn[..], one.w,
      ends, colours, was, j);
  }

  /** Two canvases of one shape given the same routes in any order are bridged alike if every cell is settled. */
  lemma OverlayInAnyOrder(one: Canvas, two: Canvas, a: seq<Painted>, b: seq<Painted>, ends: seq<Ends>,
    colours: seq<Option<Colour>>, was: Option<(char, Ink)>, j: nat)
    requires one.Valid() && two.Valid() && one.strokes == AllStrokes(a) && two.strokes == AllStrokes(b)
    requires one.w == two.w && one.h == two.h && one.dx == two.dx && one.dy == two.dy
    requires multiset(a) == multiset(b) && Settled(one, ends, colours) && j < one.w * one.h
    ensures Overlay(one.cells[..], one.runs[..], one.ink[..], one.turn[..], one.w, ends, colours, was, j)
         == Overlay(two.cells[..], two.runs[..], two.ink[..], two.turn[..], two.w, ends, colours, was, j)
  {
    SameRoutesSameStrokes(a, b);
    forall i | 0 <= i < one.cells.Length ensures LookAt(one, ends, colours, i) == LookAt(two, ends, colours, i) {
      var x, y := one.X(i), one.Y(i);
      CellsAlike(one.strokes, two.strokes, x, y, ends, colours);
      LookAtCell(one, ends, colours, i, x, y);
      LookAtCell(two, ends, colours, i, x, y);
    }
    LooksOverlay(one, two, ends, colours, was, j);
  }
}
