/** What the painted cells mean, whatever was painted and in whatever order. */
module CanvasLaws {
  import opened Names
  import opened EdgeCanvas

  ghost predicate JoinsRight(s: Stroke, x: int, y: int) {
    s.level && s.Covers(x, y) && s.Covers(x + 1, y)
  }

  ghost predicate JoinsDown(s: Stroke, x: int, y: int) {
    !s.level && s.Covers(x, y) && s.Covers(x, y + 1)
  }

  ghost predicate RightJoined(strokes: seq<Stroke>, x: int, y: int) {
    exists s :: s in strokes && JoinsRight(s, x, y)
  }

  ghost predicate DownJoined(strokes: seq<Stroke>, x: int, y: int) {
    exists s :: s in strokes && JoinsDown(s, x, y)
  }

  lemma JoinedSnoc(strokes: seq<Stroke>, s: Stroke, x: int, y: int)
    ensures RightJoined(strokes + [s], x, y) <==> RightJoined(strokes, x, y) || JoinsRight(s, x, y)
    ensures DownJoined(strokes + [s], x, y) <==> DownJoined(strokes, x, y) || JoinsDown(s, x, y)
  {
    assert s in strokes + [s];
  }

  /** A cell leaves by a side exactly when one stroke covers it and its neighbour on that side. */
  lemma {:induction false} BitsMeanStrokes(strokes: seq<Stroke>, x: int, y: int)
    ensures CellAfter(strokes, x, y).bits
         == Bits(RightJoined(strokes, x - 1, y), RightJoined(strokes, x, y),
                 DownJoined(strokes, x, y - 1), DownJoined(strokes, x, y))
  {
    if strokes != [] {
      var n := |strokes| - 1;
      var before := strokes[..n];
      BitsMeanStrokes(before, x, y);
      assert strokes == before + [strokes[n]];
      JoinedSnoc(before, strokes[n], x, y);
      JoinedSnoc(before, strokes[n], x - 1, y);
      JoinedSnoc(before, strokes[n], x, y - 1);
    }
  }

  /** Neighbours in the canvas always agree about the side between them. */
  lemma NeighboursAgree(strokes: seq<Stroke>, x: int, y: int)
    ensures CellAfter(strokes, x, y).bits.r == CellAfter(strokes, x + 1, y).bits.l
    ensures CellAfter(strokes, x, y).bits.d == CellAfter(strokes, x, y + 1).bits.u
  {
    BitsMeanStrokes(strokes, x, y);
    BitsMeanStrokes(strokes, x + 1, y);
    BitsMeanStrokes(strokes, x, y + 1);
  }

  // ---- runs ---------------------------------------------------------------------

  function RunOf(runs: seq<Mark>, edge: nat): Option<Bits> {
    if runs == [] then None
    else if runs[0].edge == edge then Some(runs[0].bits)
    else RunOf(runs[1..], edge)
  }

  lemma {:induction false} RunOfAdded(runs: seq<Mark>, edge: nat, bits: Bits, e: nat)
    ensures RunOf(AddRun(runs, edge, bits), e)
         == if e != edge then RunOf(runs, e)
            else if RunOf(runs, e).Some? then Some(RunOf(runs, e).value.Or(bits)) else Some(bits)
  {
    if runs != [] && runs[0].edge != edge {
      RunOfAdded(runs[1..], edge, bits, e);
    }
  }

  /** The strokes one edge left, in order. */
  function OfEdge(strokes: seq<Stroke>, edge: nat): seq<Stroke> {
    if strokes == [] then []
    else
      var n := |strokes| - 1;
      OfEdge(strokes[..n], edge) + if strokes[n].edge == edge then [strokes[n]] else []
  }

  ghost predicate SomeCovers(strokes: seq<Stroke>, x: int, y: int) {
    exists s :: s in strokes && s.Covers(x, y)
  }

  lemma CoversSnoc(strokes: seq<Stroke>, s: Stroke, x: int, y: int)
    ensures SomeCovers(strokes + [s], x, y) <==> SomeCovers(strokes, x, y) || s.Covers(x, y)
  {
    assert s in strokes + [s];
  }

  /** A cell's run for an edge is what that edge's strokes alone would have left in it. */
  lemma {:induction false} RunMeansEdge(strokes: seq<Stroke>, x: int, y: int, edge: nat)
    ensures RunOf(CellAfter(strokes, x, y).runs, edge)
         == if SomeCovers(OfEdge(strokes, edge), x, y) then Some(CellAfter(OfEdge(strokes, edge), x, y).bits) else None
    ensures !SomeCovers(OfEdge(strokes, edge), x, y) ==> CellAfter(OfEdge(strokes, edge), x, y).bits == NO_BITS
  {
    if strokes != [] {
      var n := |strokes| - 1;
      var s := strokes[n];
      RunMeansEdge(strokes[..n], x, y, edge);
      RunOfAdded(CellAfter(strokes[..n], x, y).runs, s.edge, s.BitsAt(x, y), edge);
      var own := OfEdge(strokes[..n], edge);
      CoversSnoc(own, s, x, y);
      assert (own + [s])[..|own|] == own;
      assert own + [] == own;
    }
  }

  ghost predicate DistinctEdges(runs: seq<Mark>) {
    runs != [] ==> RunOf(runs[1..], runs[0].edge).None? && DistinctEdges(runs[1..])
  }

  lemma {:induction false} AddRunDistinct(runs: seq<Mark>, edge: nat, bits: Bits)
    requires DistinctEdges(runs)
    ensures DistinctEdges(AddRun(runs, edge, bits))
  {
    if runs != [] && runs[0].edge != edge {
      AddRunDistinct(runs[1..], edge, bits);
      RunOfAdded(runs[1..], edge, bits, runs[0].edge);
      assert AddRun(runs, edge, bits)[1..] == AddRun(runs[1..], edge, bits);
    }
  }

  function Union(runs: seq<Mark>): Bits {
    if runs == [] then NO_BITS else runs[0].bits.Or(Union(runs[1..]))
  }

  lemma {:induction false} UnionAdded(runs: seq<Mark>, edge: nat, bits: Bits)
    ensures Union(AddRun(runs, edge, bits)) == Union(runs).Or(bits)
  {
    if runs != [] && runs[0].edge != edge {
      UnionAdded(runs[1..], edge, bits);
      assert AddRun(runs, edge, bits)[1..] == AddRun(runs[1..], edge, bits);
    }
  }

  /** A cell's bits are the union of its runs, one run to an edge. */
  lemma {:induction false} BitsAreRuns(strokes: seq<Stroke>, x: int, y: int)
    ensures var c := CellAfter(strokes, x, y); c.bits == Union(c.runs) && DistinctEdges(c.runs)
  {
    if strokes != [] {
      var n := |strokes| - 1;
      var c, s := CellAfter(strokes[..n], x, y), strokes[n];
      BitsAreRuns(strokes[..n], x, y);
      UnionAdded(c.runs, s.edge, s.BitsAt(x, y));
      AddRunDistinct(c.runs, s.edge, s.BitsAt(x, y));
    }
  }

  // ---- ink ------------------------------------------------------------------------

  ghost predicate Colours(strokes: seq<Stroke>, x: int, y: int, colour: Option<Colour>) {
    exists s :: s in strokes && s.Covers(x, y) && s.colour == colour
  }

  lemma ColoursSnoc(strokes: seq<Stroke>, s: Stroke, x: int, y: int, colour: Option<Colour>)
    ensures Colours(strokes + [s], x, y, colour) <==>
        Colours(strokes, x, y, colour) || (s.Covers(x, y) && s.colour == colour)
  {
    assert s in strokes + [s];
  }

  /** Ink is unset where nothing was painted, one colour where only that one was, and mixed where two were. */
  lemma {:induction false} InkMeansColours(strokes: seq<Stroke>, x: int, y: int, a: Option<Colour>, b: Option<Colour>)
    ensures var ink := CellAfter(strokes, x, y).ink;
            && (ink == Unset ==> !Colours(strokes, x, y, a))
            && (ink.One? ==> Colours(strokes, x, y, ink.colour) && (Colours(strokes, x, y, a) ==> a == ink.colour))
            && (Colours(strokes, x, y, a) && Colours(strokes, x, y, b) && a != b ==> ink == Mixed)
  {
    if strokes != [] {
      var n := |strokes| - 1;
      var before, s := strokes[..n], strokes[n];
      assert strokes == before + [s];
      var ink := CellAfter(before, x, y).ink;
      InkMeansColours(before, x, y, a, b);
      InkMeansColours(before, x, y, b, a);
      InkMeansColours(before, x, y, s.colour, a);
      InkMeansColours(before, x, y, s.colour, b);
      ColoursSnoc(before, s, x, y, a);
      ColoursSnoc(before, s, x, y, b);
      if CellAfter(strokes, x, y).ink.One? {
        ColoursSnoc(before, s, x, y, CellAfter(strokes, x, y).ink.colour);
      }
    }
  }

  /** Mixed ink always has two colours to show for it. */
  lemma {:induction false} MixedHasTwo(strokes: seq<Stroke>, x: int, y: int) returns (a: Option<Colour>,
    b: Option<Colour>)
    requires CellAfter(strokes, x, y).ink == Mixed
    ensures a != b && Colours(strokes, x, y, a) && Colours(strokes, x, y, b)
  {
    var n := |strokes| - 1;
    var before, s := strokes[..n], strokes[n];
    assert strokes == before + [s];
    if CellAfter(before, x, y).ink == Mixed {
      a, b := MixedHasTwo(before, x, y);
    } else {
      a, b := CellAfter(before, x, y).ink.colour, s.colour;
      InkMeansColours(before, x, y, a, b);
    }
    ColoursSnoc(before, s, x, y, a);
    ColoursSnoc(before, s, x, y, b);
  }

  // ---- the branch that reaches furthest ------------------------------------------------

  ghost predicate TurnsHere(s: Stroke, x: int, y: int) {
    !s.level && s.Covers(x, y) && (s.BitsAt(x, y).u || s.BitsAt(x, y).d)
  }

  /** Where verticals meet, the cell remembers the colour of a longest one. */
  lemma {:induction false} TurnIsLongest(strokes: seq<Stroke>, x: int, y: int)
    ensures var c := CellAfter(strokes, x, y);
            && c.reach >= 0
            && (forall s :: s in strokes && TurnsHere(s, x, y) ==> s.Reach() <= c.reach)
            && (if c.turn == Unset then c.reach == 0
                else exists s :: s in strokes && TurnsHere(s, x, y) && s.Reach() == c.reach && c.turn == One(s.colour))
  {
    if strokes != [] {
      var n := |strokes| - 1;
      var before, s := strokes[..n], strokes[n];
      TurnIsLongest(before, x, y);
      assert strokes == before + [s];
      var c := CellAfter(before, x, y);
      if c.turn != Unset {
        var held :| held in before && TurnsHere(held, x, y) && held.Reach() == c.reach && c.turn == One(held.colour);
        assert held in strokes;
      }
      assert s in strokes;
    }
  }

  // ---- order ------------------------------------------------------------------------

  ghost predicate SameStrokes(a: seq<Stroke>, b: seq<Stroke>) {
    forall s :: s in a <==> s in b
  }

  lemma SameColours(a: seq<Stroke>, b: seq<Stroke>, x: int, y: int, colour: Option<Colour>)
    requires SameStrokes(a, b)
    ensures Colours(a, x, y, colour) <==> Colours(b, x, y, colour)
  {
  }

  lemma SameInk(a: seq<Stroke>, b: seq<Stroke>, x: int, y: int)
    requires SameStrokes(a, b)
    ensures CellAfter(a, x, y).ink == Unset ==> CellAfter(b, x, y).ink == Unset
    ensures CellAfter(a, x, y).ink == Mixed ==> CellAfter(b, x, y).ink == Mixed
    ensures CellAfter(a, x, y).ink.One? && CellAfter(b, x, y).ink.One? ==>
              CellAfter(a, x, y).ink == CellAfter(b, x, y).ink
  {
    var ia, ib := CellAfter(a, x, y).ink, CellAfter(b, x, y).ink;
    if ia == Mixed {
      var p, q := MixedHasTwo(a, x, y);
      SameColours(a, b, x, y, p);
      SameColours(a, b, x, y, q);
      InkMeansColours(b, x, y, p, q);
    } else if ib.One? {
      SameColours(a, b, x, y, ib.colour);
      InkMeansColours(b, x, y, ib.colour, ib.colour);
      InkMeansColours(a, x, y, ib.colour, ib.colour);
    } else if ib == Mixed {
      var p, q := MixedHasTwo(b, x, y);
      SameColours(a, b, x, y, p);
      InkMeansColours(a, x, y, p, q);
    }
  }

  /** Bits and ink do not depend on the order of the strokes, nor on painting one twice. */
  lemma OrderIrrelevant(a: seq<Stroke>, b: seq<Stroke>, x: int, y: int)
    requires SameStrokes(a, b)
    ensures CellAfter(a, x, y).bits == CellAfter(b, x, y).bits
    ensures CellAfter(a, x, y).ink == CellAfter(b, x, y).ink
  {
    BitsMeanStrokes(a, x, y);
    BitsMeanStrokes(b, x, y);
    SameInk(a, b, x, y);
    SameInk(b, a, x, y);
  }

  datatype Painted = Painted(edge: nat, points: seq<(int, int)>, colour: Option<Colour>)

  /** Everything a list of routes paints. */
  function AllStrokes(routes: seq<Painted>): seq<Stroke> {
    if routes == [] then []
    else
      var n := |routes| - 1;
      AllStrokes(routes[..n]) + StrokesOf(routes[n].edge, routes[n].points, routes[n].colour)
  }

  lemma {:induction false} StrokeOfSomeRoute(routes: seq<Painted>, s: Stroke)
    ensures s in AllStrokes(routes) <==> exists r :: r in routes && s in StrokesOf(r.edge, r.points, r.colour)
  {
    if routes != [] {
      var n := |routes| - 1;
      StrokeOfSomeRoute(routes[..n], s);
      assert routes == routes[..n] + [routes[n]];
    }
  }

  /** Two canvases of one shape that were given the same routes, in any order, show the same cells and ink. */
  lemma RoutesInAnyOrder(one: Canvas, two: Canvas, a: seq<Painted>, b: seq<Painted>, i: nat)
    requires one.Valid() && two.Valid() && one.strokes == AllStrokes(a) && two.strokes == AllStrokes(b)
    requires one.w == two.w && one.h == two.h && one.dx == two.dx && one.dy == two.dy
    requires multiset(a) == multiset(b) && i < one.w * one.h
    ensures one.cells[i] == two.cells[i] && one.ink[i] == two.ink[i]
  {
    SameRoutesSameStrokes(a, b);
    assert one.CellAt(i) == CellAfter(one.strokes, one.X(i), one.Y(i));
    assert two.CellAt(i) == CellAfter(two.strokes, two.X(i), two.Y(i));
    OrderIrrelevant(one.strokes, two.strokes, one.X(i), one.Y(i));
  }

  lemma SameRoutesSameStrokes(a: seq<Painted>, b: seq<Painted>)
    requires multiset(a) == multiset(b)
    ensures SameStrokes(AllStrokes(a), AllStrokes(b))
  {
    forall r ensures r in a <==> r in b {
      assert r in a <==> r in multiset(a);
      assert r in b <==> r in multiset(b);
    }
    forall s ensures s in AllStrokes(a) <==> s in AllStrokes(b) {
      StrokeOfSomeRoute(a, s);
      StrokeOfSomeRoute(b, s);
    }
  }

  // ---- bridges ------------------------------------------------------------------------

  lemma {:induction false} FirstRunIsRun(runs: seq<Mark>, bits: Bits)
    requires DistinctEdges(runs) && FirstRun(runs, bits).Some?
    ensures RunOf(runs, FirstRun(runs, bits).value) == Some(bits)
  {
    if runs[0].bits != bits {
      FirstRunIsRun(runs[1..], bits);
    }
  }

  /** A bridged cell is crossed by two different edges that are not one line. */
  lemma BridgedByTwo(strokes: seq<Stroke>, x: int, y: int, ends: seq<Ends>, colours: seq<Option<Colour>>)
    returns (across: nat, down: nat)
    requires Crosses(ends, colours, CellAfter(strokes, x, y).runs)
    ensures across != down && across < |ends| && down < |ends| && !OneLine(ends, colours, across, down)
    ensures CellAfter(OfEdge(strokes, across), x, y).bits == ACROSS
    ensures CellAfter(OfEdge(strokes, down), x, y).bits == DOWN
  {
    var runs := CellAfter(strokes, x, y).runs;
    BitsAreRuns(strokes, x, y);
    across, down := FirstRun(runs, ACROSS).value, FirstRun(runs, DOWN).value;
    FirstRunIsRun(runs, ACROSS);
    FirstRunIsRun(runs, DOWN);
    RunMeansEdge(strokes, x, y, across);
    RunMeansEdge(strokes, x, y, down);
  }

  predicate IsCut(o: Option<(char, Ink)>) {
    o.Some? && (o.value.0 == '╴' || o.value.0 == '╶')
  }

  /** No bridge is painted over by a cut, and each keeps those beside it in its row, of which there is one at least. */
  lemma BridgesKeepCuts(canvas: Canvas, ends: seq<Ends>, colours: seq<Option<Colour>>, over: seq<Option<(char, Ink)>>,
                        was: seq<Option<(char, Ink)>>, i: nat)
    requires canvas.Valid() && |over| == |was| == canvas.w * canvas.h && i < |over|
    requires forall j :: 0 <= j < |over| ==>
      over[j] == Overlay(canvas.cells[..], canvas.runs[..], canvas.ink[..], canvas.turn[..], canvas.w,
                         ends, colours, was[j], j)
    requires Bridged(canvas.cells[..], canvas.runs[..], canvas.w, ends, colours, i)
    ensures over[i] == Some(('│', canvas.turn[i].0))
    ensures CutLeft(canvas.cells[..], canvas.w, i) || CutRight(canvas.cells[..], canvas.w, i)
    ensures CutLeft(canvas.cells[..], canvas.w, i) ==> i % canvas.w > 0 && IsCut(over[i - 1])
    ensures CutRight(canvas.cells[..], canvas.w, i) ==> i % canvas.w + 1 < canvas.w && IsCut(over[i + 1])
  {
    var cs, rs := canvas.cells[..], canvas.runs[..];
    forall j: nat | j < |over| && Bridged(cs, rs, canvas.w, ends, colours, j) ensures cs[j] != ACROSS {
      assert canvas.CellAt(j) == CellAfter(canvas.strokes, canvas.X(j), canvas.Y(j));
      CellHoldsRuns(canvas.strokes, canvas.X(j), canvas.Y(j));
      BridgedIsNotPlain(cs, rs, canvas.w, ends, colours, j);
    }
  }

  /** Cuts appear only on plain level runs beside a bridge. */
  lemma CutsBesideBridges(cells: seq<Bits>, runs: seq<seq<Mark>>, inks: seq<Ink>, turns: seq<(Ink, int)>, w: nat,
                          ends: seq<Ends>, colours: seq<Option<Colour>>, j: nat)
    requires j < |cells| == |runs| == |inks| == |turns|
    requires IsCut(Overlay(cells, runs, inks, turns, w, ends, colours, None, j))
    ensures cells[j] == ACROSS
    ensures (j + 1 < |cells| && Bridged(cells, runs, w, ends, colours, j + 1) && (j + 1) % w > 0)
         || (j > 0 && Bridged(cells, runs, w, ends, colours, j - 1) && (j - 1) % w + 1 < w)
  {
  }
}
