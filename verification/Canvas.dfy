/** The edge canvas: routes painted into cells, and crossings bridged afterwards. */
module EdgeCanvas {
  import opened Names

  /** Which sides of a cell a line leaves by. */
  datatype Bits = Bits(l: bool, r: bool, u: bool, d: bool) {
    function Or(b: Bits): Bits {
      Bits(l || b.l, r || b.r, u || b.u, d || b.d)
    }
  }

  const NO_BITS := Bits(false, false, false, false)
  const ACROSS := Bits(true, true, false, false)
  const DOWN := Bits(false, false, true, true)

  type Colour = nat

  /** One colour per cell: unset, one edge's colour, or mixed. */
  datatype Ink = Unset | One(colour: Option<Colour>) | Mixed

  datatype Heading = Right | Up

  /** What one edge left in a cell. */
  datatype Mark = Mark(edge: nat, bits: Bits)

  /** All a cell remembers of what was painted over it. */
  datatype Cell = Cell(bits: Bits, ink: Ink, turn: Ink, reach: int, runs: seq<Mark>)

  const BLANK := Cell(NO_BITS, Unset, Unset, 0, [])

  function AddInk(ink: Ink, colour: Option<Colour>): Ink {
    match ink
    case Unset => One(colour)
    case One(c) => if c == colour then ink else Mixed
    case Mixed => Mixed
  }

  function AddRun(runs: seq<Mark>, edge: nat, bits: Bits): seq<Mark> {
    if runs == [] then [Mark(edge, bits)]
    else if runs[0].edge == edge then [Mark(edge, runs[0].bits.Or(bits))] + runs[1..]
    else [runs[0]] + AddRun(runs[1..], edge, bits)
  }

  function Paint(c: Cell, edge: nat, bits: Bits, colour: Option<Colour>, reach: int): Cell {
    var turns := (bits.u || bits.d) && reach > c.reach;
    Cell(c.bits.Or(bits), AddInk(c.ink, colour),
         if turns then One(colour) else c.turn, if turns then reach else c.reach, AddRun(c.runs, edge, bits))
  }

  // ---- what was painted -------------------------------------------------------

  /** A straight line from `lo` to `hi`, in row `at` when it is level and in column `at` when it is not. */
  datatype Stroke = Stroke(edge: nat, level: bool, at: int, lo: int, hi: int, colour: Option<Colour>) {
    predicate Covers(x: int, y: int) {
      if level then y == at && lo <= x <= hi else x == at && lo <= y <= hi
    }

    function BitsAt(x: int, y: int): Bits {
      if level then Bits(x > lo, x < hi, false, false) else Bits(false, false, y > lo, y < hi)
    }

    function Reach(): int {
      if level then 0 else hi - lo + 1
    }
  }

  function PaintStroke(c: Cell, s: Stroke, x: int, y: int): Cell {
    if s.Covers(x, y) then Paint(c, s.edge, s.BitsAt(x, y), s.colour, s.Reach()) else c
  }

  /** What a cell must hold after the strokes, one after another. */
  function CellAfter(strokes: seq<Stroke>, x: int, y: int): Cell {
    if strokes == [] then BLANK
    else
      var n := |strokes| - 1;
      PaintStroke(CellAfter(strokes[..n], x, y), strokes[n], x, y)
  }

  /** The stroke between two corner points; anything not level is drawn down the first point's column. */
  function StrokeBetween(edge: nat, p: (int, int), q: (int, int), colour: Option<Colour>): Stroke {
    if p.1 == q.1 then Stroke(edge, true, p.1, Min(p.0, q.0), Max(p.0, q.0), colour)
    else Stroke(edge, false, p.0, Min(p.1, q.1), Max(p.1, q.1), colour)
  }

  function StrokesOf(edge: nat, points: seq<(int, int)>, colour: Option<Colour>): seq<Stroke>
    decreases |points|
  {
    if |points| < 2 then []
    else
      var n := |points| - 1;
      StrokesOf(edge, points[..n], colour) + [StrokeBetween(edge, points[n - 1], points[n], colour)]
  }

  // ---- rows and columns ---------------------------------------------------------

  lemma Scaled(a: int, b: int, w: nat)
    ensures a <= b ==> a * w <= b * w
  {
  }

  lemma RowColumn(q: nat, r: nat, w: nat)
    requires r < w
    ensures (q * w + r) / w == q && (q * w + r) % w == r
  {
    var i := q * w + r;
    assert i == (i / w) * w + i % w;
    Scaled(i / w + 1, q, w);
    Scaled(q + 1, i / w, w);
  }

  lemma InBounds(q: nat, r: nat, w: nat, h: nat)
    requires r < w && q < h
    ensures q * w + r < w * h
  {
    Scaled(q + 1, h, w);
  }

  lemma RowOf(i: nat, w: nat, h: nat)
    requires i < w * h
    ensures w > 0 && i / w < h && i == (i / w) * w + i % w
  {
    assert w == 0 ==> w * h == 0;
    Scaled(h, i / w, w);
  }

  // ---- crossings -----------------------------------------------------------------

  /** The first edge that left exactly these bits in a cell. */
  function FirstRun(runs: seq<Mark>, bits: Bits): (r: Option<nat>)
    ensures r.Some? ==> Mark(r.value, bits) in runs
    ensures r.None? ==> forall m :: m in runs ==> m.bits != bits
  {
    if runs == [] then None
    else if runs[0].bits == bits then Some(runs[0].edge)
    else FirstRun(runs[1..], bits)
  }

  type Ends = (nat, nat)

  function ColourOf(colours: seq<Option<Colour>>, edge: nat): Option<Colour> {
    if edge < |colours| then colours[edge] else None
  }

  /** Two edges that meet at a shared end and carry one colour read as one line. */
  predicate OneLine(ends: seq<Ends>, colours: seq<Option<Colour>>, a: nat, b: nat)
    requires a < |ends| && b < |ends|
  {
    (ends[a].0 == ends[b].0 || ends[a].1 == ends[b].1) && ColourOf(colours, a) == ColourOf(colours, b)
  }

  /** One known edge straight across, another straight down, and the two are not one line. */
  predicate Crosses(ends: seq<Ends>, colours: seq<Option<Colour>>, runs: seq<Mark>) {
    var across, down := FirstRun(runs, ACROSS), FirstRun(runs, DOWN);
    && across.Some? && down.Some? && across.value < |ends| && down.value < |ends|
    && !OneLine(ends, colours, across.value, down.value)
  }

  predicate SameRow(i: nat, w: nat) {
    w > 0 && i % w + 1 < w
  }

  /** A cell to bridge: a crossing with a plain level run on one side at least. */
  predicate Bridged(cells: seq<Bits>, runs: seq<seq<Mark>>, w: nat, ends: seq<Ends>, colours: seq<Option<Colour>>,
    i: nat)
    requires i < |cells| == |runs|
  {
    Crosses(ends, colours, runs[i]) && (CutLeft(cells, w, i) || CutRight(cells, w, i))
  }

  predicate CutLeft(cells: seq<Bits>, w: nat, i: nat)
    requires i < |cells|
  {
    w > 0 && i > 0 && i % w > 0 && cells[i - 1] == ACROSS
  }

  predicate CutRight(cells: seq<Bits>, w: nat, i: nat)
    requires i < |cells|
  {
    SameRow(i, w) && i + 1 < |cells| && cells[i + 1] == ACROSS
  }

  /** What bridging paints over a cell: the vertical at a crossing, a cut beside one, else what was there. */
  function Overlay(cells: seq<Bits>, runs: seq<seq<Mark>>, inks: seq<Ink>, turns: seq<(Ink, int)>, w: nat,
                   ends: seq<Ends>, colours: seq<Option<Colour>>, was: Option<(char, Ink)>, j: nat): Option<(char, Ink)>
    requires j < |cells| == |runs| == |inks| == |turns|
  {
    if Bridged(cells, runs, w, ends, colours, j) then Some(('│', turns[j].0))
    else if j + 1 < |cells| && Bridged(cells, runs, w, ends, colours, j + 1) && CutLeft(cells, w, j + 1)
    then Some(('╴', inks[j]))
    else if j > 0 && Bridged(cells, runs, w, ends, colours, j - 1) && CutRight(cells, w, j - 1)
    then Some(('╶', inks[j]))
    else was
  }

  /** A cell's bits are at least those of each of its runs, so a bridged cell is never a plain level run. */
  ghost predicate HoldsRuns(bits: Bits, runs: seq<Mark>) {
    forall m :: m in runs ==> bits.Or(m.bits) == bits
  }

  lemma BridgedIsNotPlain(cells: seq<Bits>, runs: seq<seq<Mark>>, w: nat, ends: seq<Ends>,
    colours: seq<Option<Colour>>, i: nat)
    requires i < |cells| == |runs| && HoldsRuns(cells[i], runs[i]) && Bridged(cells, runs, w, ends, colours, i)
    ensures cells[i] != ACROSS
  {
    assert cells[i].Or(DOWN) == cells[i];
  }

  lemma BesideInRow(i: nat, w: nat, h: nat)
    requires i < w * h
    ensures w > 0 && (i % w > 0 ==> i > 0) && (i % w + 1 < w ==> i + 1 < w * h)
  {
    RowOf(i, w, h);
    if i % w + 1 < w {
      InBounds(i / w, i % w + 1, w, h);
    }
  }

  class Canvas {
    const w: nat
    const h: nat
    const dx: int
    const dy: int
    const cells: array<Bits>
    const ink: array<Ink>
    const turn: array<(Ink, int)>
    const heads: array<Option<(Ink, Heading)>>
    const runs: array<seq<Mark>>
    const over: array<Option<(char, Ink)>>
    var edge: nat
    ghost var strokes: seq<Stroke>

    ghost predicate Shaped() {
      && cells.Length == ink.Length == turn.Length == heads.Length == runs.Length == over.Length == w * h
    }

    function CellAt(i: nat): Cell
      requires i < cells.Length && i < ink.Length && i < turn.Length && i < runs.Length
      reads cells, ink, turn, runs
    {
      Cell(cells[i], ink[i], turn[i].0, turn[i].1, runs[i])
    }

    function X(i: nat): int {
      if w == 0 then dx else dx + i % w
    }

    function Y(i: nat): int {
      if w == 0 then dy else dy + i / w
    }

    /** Every cell holds what the strokes so far leave in it. */
    ghost predicate Valid()
      reads this, cells, ink, turn, runs
    {
      Shaped() && forall i :: 0 <= i < w * h ==> CellAt(i) == CellAfter(strokes, X(i), Y(i))
    }

    constructor (w: nat, h: nat, dx: int, dy: int)
      ensures this.w == w && this.h == h && this.dx == dx && this.dy == dy
      ensures Valid() && strokes == [] && forall i :: 0 <= i < w * h ==> over[i] == None && heads[i] == None
      ensures fresh(cells) && fresh(ink) && fresh(turn) && fresh(heads) && fresh(runs) && fresh(over)
    {
      this.w, this.h, this.dx, this.dy := w, h, dx, dy;
      cells := new Bits[w * h](_ => NO_BITS);
      ink := new Ink[w * h](_ => Unset);
      turn := new (Ink, int)[w * h](_ => (Unset, 0));
      heads := new Option<(Ink, Heading)>[w * h](_ => None);
      runs := new seq<Mark>[w * h](_ => []);
      over := new Option<(char, Ink)>[w * h](_ => None);
      edge := 0;
      strokes := [];
    }

    function Index(x: int, y: int): (r: Option<nat>)
    {
      if x < dx || y < dy || x - dx >= w || y - dy >= h then None
      else
        Scaled(0, y - dy, w);
        Some((y - dy) * w + (x - dx))
    }

    /** A position in the canvas has one cell, and that cell has this position. */
    lemma IndexIsPosition(x: int, y: int, i: nat)
      requires i < w * h
      ensures Index(x, y) == Some(i) <==> X(i) == x && Y(i) == y
    {
      RowOf(i, w, h);
      if Index(x, y).Some? {
        RowColumn(y - dy, x - dx, w);
      }
    }

    lemma IndexInBounds(x: int, y: int)
      ensures Index(x, y).Some? ==> Index(x, y).value < w * h
    {
      if Index(x, y).Some? {
        InBounds(y - dy, x - dx, w, h);
      }
    }

    method Set(x: int, y: int, bits: Bits, colour: Option<Colour>, reach: int)
      requires Shaped()
      modifies cells, ink, turn, runs
      ensures forall i :: 0 <= i < w * h ==>
                CellAt(i) == if Index(x, y) == Some(i) then Paint(old(CellAt(i)), edge, bits, colour, reach)
                             else old(CellAt(i))
    {
      IndexInBounds(x, y);
      if Index(x, y).Some? {
        var i := Index(x, y).value;
        cells[i] := cells[i].Or(bits);
        ink[i] := AddInk(ink[i], colour);
        if (bits.u || bits.d) && reach > turn[i].1 {
          turn[i] := (One(colour), reach);
        }
        runs[i] := AddRun(runs[i], edge, bits);
      }
    }

    method HLine(y: int, x0: int, x1: int, colour: Option<Colour>)
      requires Valid()
      modifies this`strokes, cells, ink, turn, runs
      ensures Valid() && strokes == old(strokes) + [Stroke(edge, true, y, Min(x0, x1), Max(x0, x1), colour)]
    {
      var a, b := Min(x0, x1), Max(x0, x1);
      ghost var s := Stroke(edge, true, y, a, b, colour);
      var x := a;
      while x <= b
        invariant a <= x <= b + 1 && strokes == old(strokes)
        invariant forall i :: 0 <= i < w * h ==>
            CellAt(i) == if Y(i) == y && a <= X(i) < x then PaintStroke(CellAfter(strokes, X(i), Y(i)), s, X(i), Y(i))
                         else CellAfter(strokes, X(i), Y(i))
      {
        forall i: nat | i < w * h ensures Index(x, y) == Some(i) <==> X(i) == x && Y(i) == y {
          IndexIsPosition(x, y, i);
        }
        Set(x, y, Bits(x > a, x < b, false, false), colour, 0);
        x := x + 1;
      }
      assert (strokes + [s])[..|strokes|] == strokes;
      strokes := strokes + [s];
    }

    method VLine(x: int, y0: int, y1: int, colour: Option<Colour>)
      requires Valid()
      modifies this`strokes, cells, ink, turn, runs
      ensures Valid() && strokes == old(strokes) + [Stroke(edge, false, x, Min(y0, y1), Max(y0, y1), colour)]
    {
      var a, b := Min(y0, y1), Max(y0, y1);
      ghost var s := Stroke(edge, false, x, a, b, colour);
      var y := a;
      while y <= b
        invariant a <= y <= b + 1 && strokes == old(strokes)
        invariant forall i :: 0 <= i < w * h ==>
            CellAt(i) == if X(i) == x && a <= Y(i) < y then PaintStroke(CellAfter(strokes, X(i), Y(i)), s, X(i), Y(i))
                         else CellAfter(strokes, X(i), Y(i))
      {
        forall i: nat | i < w * h ensures Index(x, y) == Some(i) <==> X(i) == x && Y(i) == y {
          IndexIsPosition(x, y, i);
        }
        Set(x, y, Bits(false, false, y > a, y < b), colour, b - a + 1);
        y := y + 1;
      }
      assert (strokes + [s])[..|strokes|] == strokes;
      strokes := strokes + [s];
    }

    /** An orthogonal path through the corner points, for one edge. */
    method Path(edge: nat, points: seq<(int, int)>, colour: Option<Colour>)
      requires Valid()
      modifies this`edge, this`strokes, cells, ink, turn, runs
      ensures Valid() && strokes == old(strokes) + StrokesOf(edge, points, colour)
    {
      this.edge := edge;
      if points == [] {
        return;
      }
      assert StrokesOf(edge, points[..1], colour) == [];
      for k := 1 to |points|
        invariant Valid() && this.edge == edge
        invariant strokes == old(strokes) + StrokesOf(edge, points[..k], colour)
      {
        var p, q := points[k - 1], points[k];
        assert points[..k + 1][..k] == points[..k];
        if p.1 == q.1 {
          HLine(p.1, p.0, q.0, colour);
        } else {
          VLine(p.0, p.1, q.1, colour);
        }
      }
      assert points[..|points|] == points;
    }

    /** An arrowhead: the first heading stays, and two colours mix. */
    method Head(x: int, y: int, colour: Option<Colour>, heading: Heading)
      requires Shaped()
      modifies heads
      ensures forall i :: 0 <= i < w * h ==>
                heads[i] == if Index(x, y) != Some(i) then old(heads[i])
                            else if old(heads[i]).None? then Some((One(colour), heading))
                            else if old(heads[i]).value.0 == One(colour) then old(heads[i])
                            else Some((Mixed, old(heads[i]).value.1))
    {
      IndexInBounds(x, y);
      if Index(x, y).Some? {
        var i := Index(x, y).value;
        match heads[i]
        case None => heads[i] := Some((One(colour), heading));
        case Some((ink, first)) =>
          if ink != One(colour) {
            heads[i] := Some((Mixed, first));
          }
      }
    }

    /** Bridge one cell, if its crossing is not one line and a level run beside it can be cut. */
    method BridgeCell(ends: seq<Ends>, colours: seq<Option<Colour>>, i: nat)
      requires Shaped() && i < over.Length
      modifies over
      ensures forall j :: 0 <= j < over.Length ==>
                over[j] == OverlayNext(cells[..], runs[..], ink[..], turn[..], w, ends, colours, old(over[j]), j, i)
    {
      BesideInRow(i, w, h);
      if !Crosses(ends, colours, runs[i]) {
        return;
      }
      var left := i % w > 0 && cells[i - 1] == ACROSS;
      var right := i % w + 1 < w && cells[i + 1] == ACROSS;
      if !left && !right {
        return;
      }
      over[i] := Some(('│', turn[i].0));
      if left {
        over[i - 1] := Some(('╴', ink[i - 1]));
      }
      if right {
        over[i + 1] := Some(('╶', ink[i + 1]));
      }
    }

    /** Draw the vertical over every crossing that is not one line, and break the level run beside it. */
    method Bridge(ends: seq<Ends>, colours: seq<Option<Colour>>)
      requires Valid()
      modifies over
      ensures forall j :: 0 <= j < w * h ==>
                over[j] == Overlay(cells[..], runs[..], ink[..], turn[..], w, ends, colours, old(over[j]), j)
    {
      ghost var cs, rs, ks, ts, was := cells[..], runs[..], ink[..], turn[..], over[..];
      for i := 0 to cells.Length
        invariant forall j :: 0 <= j < w * h ==> over[j] == OverlayUpTo(cs, rs, ks, ts, w, ends, colours, was[j], j, i)
      {
        ghost var before := over[..];
        BridgeCell(ends, colours, i);
        forall j: nat | j < w * h ensures over[j] == OverlayUpTo(cs, rs, ks, ts, w, ends, colours, was[j], j, i + 1) {
          CellHoldsRuns(strokes, X(j), Y(j));
          assert CellAt(j) == CellAfter(strokes, X(j), Y(j));
          assert over[j] == OverlayNext(cs, rs, ks, ts, w, ends, colours, before[j], j, i);
          OverlayStep(cs, rs, ks, ts, w, ends, colours, was[j], j, i);
        }
      }
    }
  }

  /** The overlay once the cells before `n` have been looked at. */
  ghost function OverlayUpTo(cells: seq<Bits>, runs: seq<seq<Mark>>, inks: seq<Ink>, turns: seq<(Ink, int)>, w: nat,
                             ends: seq<Ends>, colours: seq<Option<Colour>>, was: Option<(char, Ink)>,
                             j: nat, n: nat): Option<(char, Ink)>
    requires j < |cells| == |runs| == |inks| == |turns|
  {
    if j < n && Bridged(cells, runs, w, ends, colours, j) then Some(('│', turns[j].0))
    else if j + 1 < n && j + 1 < |cells| && Bridged(cells, runs, w, ends, colours, j + 1) && CutLeft(cells, w, j + 1)
    then Some(('╴', inks[j]))
    else if 0 < j <= n && Bridged(cells, runs, w, ends, colours, j - 1) && CutRight(cells, w, j - 1)
    then Some(('╶', inks[j]))
    else was
  }

  /** What looking at cell `i` does to the overlay of cell `j`. */
  ghost function OverlayNext(cells: seq<Bits>, runs: seq<seq<Mark>>, inks: seq<Ink>, turns: seq<(Ink, int)>, w: nat,
                             ends: seq<Ends>, colours: seq<Option<Colour>>, before: Option<(char, Ink)>,
                             j: nat, i: nat): Option<(char, Ink)>
    requires j < |cells| == |runs| == |inks| == |turns| && i < |cells|
  {
    if !Bridged(cells, runs, w, ends, colours, i) then before
    else if j == i then Some(('│', turns[j].0))
    else if j + 1 == i && CutLeft(cells, w, i) then Some(('╴', inks[j]))
    else if j == i + 1 && CutRight(cells, w, i) then Some(('╶', inks[j]))
    else before
  }

  lemma OverlayStep(cells: seq<Bits>, runs: seq<seq<Mark>>, inks: seq<Ink>, turns: seq<(Ink, int)>, w: nat,
                    ends: seq<Ends>, colours: seq<Option<Colour>>, was: Option<(char, Ink)>, j: nat, i: nat)
    requires j < |cells| == |runs| == |inks| == |turns| && i < |cells|
    requires HoldsRuns(cells[j], runs[j])
    ensures OverlayUpTo(cells, runs, inks, turns, w, ends, colours, was, j, i + 1)
         == OverlayNext(cells, runs, inks, turns, w, ends, colours,
                        OverlayUpTo(cells, runs, inks, turns, w, ends, colours, was, j, i), j, i)
  {
    if Bridged(cells, runs, w, ends, colours, j) {
      BridgedIsNotPlain(cells, runs, w, ends, colours, j);
    }
  }

  lemma {:induction false} AddRunHolds(bits: Bits, runs: seq<Mark>, edge: nat, b: Bits)
    requires HoldsRuns(bits, runs)
    ensures HoldsRuns(bits.Or(b), AddRun(runs, edge, b))
  {
    if runs != [] {
      assert runs[0] in runs;
      if runs[0].edge != edge {
        assert HoldsRuns(bits, runs[1..]);
        AddRunHolds(bits, runs[1..], edge, b);
      } else {
        assert forall m :: m in runs[1..] ==> m in runs;
      }
    }
  }

  lemma {:induction false} CellHoldsRuns(strokes: seq<Stroke>, x: int, y: int)
    ensures HoldsRuns(CellAfter(strokes, x, y).bits, CellAfter(strokes, x, y).runs)
  {
    if strokes != [] {
      var n := |strokes| - 1;
      CellHoldsRuns(strokes[..n], x, y);
      var c, s := CellAfter(strokes[..n], x, y), strokes[n];
      AddRunHolds(c.bits, c.runs, s.edge, s.BitsAt(x, y));
    }
  }
}
