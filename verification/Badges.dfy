/** Packing a card's badges into rows. */
module Badges {

  type Row = (nat, nat)

  /** The width of labels `a..b` on one row, a single space between neighbours. */
  function RowWidth(labels: seq<string>, a: nat, b: nat): nat
    requires a < b <= |labels|
  {
    if b == a + 1 then |labels[a]| else RowWidth(labels, a, b - 1) + 1 + |labels[b - 1]|
  }

  /** A row holds one label, however wide, or fits the width. */
  predicate Fits(labels: seq<string>, width: nat, row: Row)
    requires row.0 < row.1 <= |labels|
  {
    row.1 == row.0 + 1 || RowWidth(labels, row.0, row.1) <= width
  }

  /** Consecutive, non-empty ranges that cover the first `n` labels. */
  ghost predicate IsSplit(rows: seq<Row>, n: nat) {
    && (forall k :: 0 <= k < |rows| ==> rows[k].0 < rows[k].1 <= n)
    && (forall k :: 0 < k < |rows| ==> rows[k].0 == rows[k - 1].1)
    && (if rows == [] then n == 0 else rows[0].0 == 0 && rows[|rows| - 1].1 == n)
  }

  ghost predicate AllFit(labels: seq<string>, width: nat, rows: seq<Row>) {
    forall k :: 0 <= k < |rows| ==> rows[k].0 < rows[k].1 <= |labels| && Fits(labels, width, rows[k])
  }

  /** No row could have taken the first label of the next one. */
  ghost predicate Full(labels: seq<string>, width: nat, rows: seq<Row>) {
    forall k :: 0 <= k < |rows| - 1 ==>
      rows[k].0 < rows[k].1 < |labels| && RowWidth(labels, rows[k].0, rows[k].1 + 1) > width
  }

  lemma {:induction false} WiderRow(labels: seq<string>, a: nat, b: nat, c: nat, d: nat)
    requires a <= b < c <= d <= |labels|
    ensures RowWidth(labels, b, c) <= RowWidth(labels, a, d)
    decreases d - a
  {
    if c < d {
      WiderRow(labels, a, b, c, d - 1);
    } else if a < b {
      WiderRow(labels, a + 1, b, c, d);
      FirstLabel(labels, a, d);
    }
  }

  lemma {:induction false} FirstLabel(labels: seq<string>, a: nat, d: nat)
    requires a + 1 < d <= |labels|
    ensures RowWidth(labels, a, d) == |labels[a]| + 1 + RowWidth(labels, a + 1, d)
    decreases d
  {
    if a + 2 < d {
      FirstLabel(labels, a, d - 1);
    }
  }

  /** Greedy stays ahead: after as many rows it has placed at least as many labels as any other split that fits. */
  lemma {:induction false} GreedyAhead(labels: seq<string>, width: nat, rows: seq<Row>, other: seq<Row>, k: nat)
    requires IsSplit(rows, |labels|) && Full(labels, width, rows)
    requires IsSplit(other, |labels|) && AllFit(labels, width, other)
    requires k < |rows| && k < |other|
    ensures other[k].1 <= rows[k].1
  {
    if k > 0 {
      GreedyAhead(labels, width, rows, other, k - 1);
    }
    if k < |rows| - 1 && other[k].1 > rows[k].1 {
      WiderRow(labels, other[k].0, rows[k].0, rows[k].1 + 1, other[k].1);
    }
  }

  /** So no split that fits has fewer rows. */
  lemma GreedyIsLeast(labels: seq<string>, width: nat, rows: seq<Row>, other: seq<Row>)
    requires IsSplit(rows, |labels|) && Full(labels, width, rows)
    requires IsSplit(other, |labels|) && AllFit(labels, width, other)
    ensures |rows| <= |other|
  {
    if 0 < |other| < |rows| {
      GreedyAhead(labels, width, rows, other, |other| - 1);
      RowsAscend(rows, |labels|, |other| - 1);
    }
  }

  lemma {:induction false} RowsAscend(rows: seq<Row>, n: nat, k: nat)
    requires IsSplit(rows, n) && k < |rows| - 1
    ensures rows[k].1 < n
  {
    assert rows[k + 1].0 == rows[k + 1 - 1].1;
  }

  /** The rows from label `i` on, when the row in hand began at `start` and has taken `used`. */
  function RowsFrom(labels: seq<string>, width: nat, i: nat, start: nat, used: nat): seq<Row>
    requires i <= |labels|
    decreases |labels| - i
  {
    if i == |labels| then [(start, i)]
    else
      var gap := if used > 0 then 1 else 0;
      if used > 0 && used + gap + |labels[i]| > width
      then [(start, i)] + RowsFrom(labels, width, i + 1, i, |labels[i]|)
      else RowsFrom(labels, width, i + 1, start, used + gap + |labels[i]|)
  }

  function Packed(labels: seq<string>, width: nat): seq<Row> {
    if labels == [] || width == 0 then [] else RowsFrom(labels, width, 0, 0, 0)
  }

  // ---- fewest rows -------------------------------------------------------------

  /** Consecutive, non-empty ranges from `start` to `n`. */
  ghost predicate Covers(rows: seq<Row>, start: nat, n: nat) {
    && (forall k :: 0 <= k < |rows| ==> rows[k].0 < rows[k].1 <= n)
    && (forall k :: 0 < k < |rows| ==> rows[k].0 == rows[k - 1].1)
    && rows != [] && rows[0].0 == start && rows[|rows| - 1].1 == n
  }

  lemma CoversBefore(row: Row, rows: seq<Row>, n: nat)
    requires row.0 < row.1 && Covers(rows, row.1, n)
    ensures Covers([row] + rows, row.0, n)
  {
  }

  lemma FullBefore(labels: seq<string>, width: nat, row: Row, rows: seq<Row>)
    requires row.0 < row.1 < |labels| && RowWidth(labels, row.0, row.1 + 1) > width && Full(labels, width, rows)
    ensures Full(labels, width, [row] + rows)
  {
  }

  /** Before label `i`: `used` never counts more than the row in hand is wide. */
  predicate Taken(labels: seq<string>, i: nat, start: nat, used: nat) {
    start <= i <= |labels| && if start == i then i == 0 && used == 0 else used <= RowWidth(labels, start, i)
  }

  lemma TakenNext(labels: seq<string>, i: nat, start: nat, used: nat)
    requires Taken(labels, i, start, used) && i < |labels|
    ensures Taken(labels, i + 1, start, used + (if used > 0 then 1 else 0) + |labels[i]|)
    ensures Taken(labels, i + 1, i, |labels[i]|)
    ensures used > 0 ==> start < i && used <= RowWidth(labels, start, i)
  {
  }

  lemma LastRow(labels: seq<string>, width: nat, start: nat)
    requires start < |labels|
    ensures Covers([(start, |labels|)], start, |labels|) && Full(labels, width, [(start, |labels|)])
  {
  }

  lemma RowBefore(labels: seq<string>, width: nat, start: nat, i: nat, rows: seq<Row>)
    requires start < i < |labels| && RowWidth(labels, start, i) + 1 + |labels[i]| > width
    requires Covers(rows, i, |labels|) && Full(labels, width, rows)
    ensures Covers([(start, i)] + rows, start, |labels|) && Full(labels, width, [(start, i)] + rows)
  {
    CoversBefore((start, i), rows, |labels|);
    FullBefore(labels, width, (start, i), rows);
  }

  /**
   * The rows still to come cover the labels still to place, each but the last closed because the next label
   * did not fit.
   */
  lemma {:induction false} RowsFromPack(labels: seq<string>, width: nat, i: nat, start: nat, used: nat)
    requires labels != [] && Taken(labels, i, start, used)
    ensures var rows := RowsFrom(labels, width, i, start, used);
            Covers(rows, start, |labels|) && Full(labels, width, rows)
    decreases |labels| - i
  {
    if i == |labels| {
      LastRow(labels, width, start);
    } else {
      TakenNext(labels, i, start, used);
      if used > 0 && used + 1 + |labels[i]| > width {
        RowsFromPack(labels, width, i + 1, i, |labels[i]|);
        RowBefore(labels, width, start, i, RowsFrom(labels, width, i + 1, i, |labels[i]|));
      } else {
        RowsFromPack(labels, width, i + 1, start, used + (if used > 0 then 1 else 0) + |labels[i]|);
      }
    }
  }

  /** The rows are consecutive, non-empty and cover all labels, and no such split whose rows fit has fewer. */
  lemma PackedIsLeast(labels: seq<string>, width: nat)
    requires width > 0
    ensures IsSplit(Packed(labels, width), |labels|)
    ensures forall other :: IsSplit(other, |labels|) && AllFit(labels, width, other) ==>
        |Packed(labels, width)| <= |other|
  {
    if labels != [] {
      RowsFromPack(labels, width, 0, 0, 0);
      var rows := RowsFrom(labels, width, 0, 0, 0);
      forall other | IsSplit(other, |labels|) && AllFit(labels, width, other) ensures |rows| <= |other| {
        GreedyIsLeast(labels, width, rows, other);
      }
    }
  }

  // ---- fitting -----------------------------------------------------------------

  /** An empty label is last, or is followed by nothing but one more empty label. */
  ghost predicate Tidy(labels: seq<string>) {
    forall i :: 0 <= i < |labels| && labels[i] == "" ==> TidyAt(labels, i)
  }

  ghost predicate TidyAt(labels: seq<string>, i: nat)
    requires i < |labels|
  {
    i + 1 == |labels| || (i + 2 == |labels| && labels[i + 1] == "")
  }

  /** The row in hand fits, and `used` is its width unless it holds nothing but empty labels. */
  ghost predicate InHand(labels: seq<string>, width: nat, i: nat, start: nat, used: nat)
    requires start <= i <= |labels|
  {
    if start == i then i == 0 && used == 0
    else
      && Fits(labels, width, (start, i))
      && (if labels[start] == "" then used == 0 else used == RowWidth(labels, start, i))
  }

  lemma {:induction false} WidthIsPositive(labels: seq<string>, a: nat, b: nat)
    requires a < b <= |labels|
    ensures RowWidth(labels, a, b) >= |labels[a]|
  {
    if b > a + 1 {
      WidthIsPositive(labels, a, b - 1);
    }
  }

  lemma InHandNext(labels: seq<string>, width: nat, i: nat, start: nat, used: nat)
    requires width > 0 && Tidy(labels) && start <= i < |labels| && InHand(labels, width, i, start, used)
    requires !(used > 0 && used + 1 + |labels[i]| > width)
    ensures InHand(labels, width, i + 1, start, used + (if used > 0 then 1 else 0) + |labels[i]|)
  {
    if start < i {
      if labels[start] == "" {
        assert TidyAt(labels, start);
      } else {
        WidthIsPositive(labels, start, i);
      }
    }
  }

  lemma FitsBefore(labels: seq<string>, width: nat, row: Row, rows: seq<Row>)
    requires row.0 < row.1 <= |labels| && Fits(labels, width, row) && AllFit(labels, width, rows)
    ensures AllFit(labels, width, [row] + rows)
  {
  }

  lemma {:induction false} TidyFits(labels: seq<string>, width: nat, i: nat, start: nat, used: nat)
    requires width > 0 && Tidy(labels) && labels != [] && start <= i <= |labels|
    requires InHand(labels, width, i, start, used)
    ensures AllFit(labels, width, RowsFrom(labels, width, i, start, used))
    decreases |labels| - i
  {
    if i < |labels| {
      if used > 0 && used + 1 + |labels[i]| > width {
        TidyFits(labels, width, i + 1, i, |labels[i]|);
        FitsBefore(labels, width, (start, i), RowsFrom(labels, width, i + 1, i, |labels[i]|));
      } else {
        InHandNext(labels, width, i, start, used);
        TidyFits(labels, width, i + 1, start, used + (if used > 0 then 1 else 0) + |labels[i]|);
      }
    }
  }

  /** The row in hand is the first of the rows still to come, and holds every label it has taken. */
  lemma {:induction false} FirstRow(labels: seq<string>, width: nat, i: nat, start: nat, used: nat)
    requires start <= i <= |labels| && labels != []
    ensures var rows := RowsFrom(labels, width, i, start, used); rows != [] && rows[0].0 == start && rows[0].1 >= i
    decreases |labels| - i
  {
    if i < |labels| && !(used > 0 && used + (if used > 0 then 1 else 0) + |labels[i]| > width) {
      FirstRow(labels, width, i + 1, start, used + (if used > 0 then 1 else 0) + |labels[i]|);
    }
  }

  lemma {:induction false} PackedAt(labels: seq<string>, width: nat, i: nat)
    returns (rows: seq<Row>, start: nat, used: nat)
    requires labels != [] && width > 0 && i <= |labels|
    ensures start <= i && (used > 0 ==> start < i)
    ensures Packed(labels, width) == rows + RowsFrom(labels, width, i, start, used)
  {
    if i == 0 {
      rows, start, used := [], 0, 0;
    } else {
      rows, start, used := PackedAt(labels, width, i - 1);
      if used > 0 && used + 1 + |labels[i - 1]| > width {
        var more := RowsFrom(labels, width, i, i - 1, |labels[i - 1]|);
        assert rows + ([(start, i - 1)] + more) == rows + [(start, i - 1)] + more;
        rows, start, used := rows + [(start, i - 1)], i - 1, |labels[i - 1]|;
      } else {
        used := used + (if used > 0 then 1 else 0) + |labels[i - 1]|;
      }
    }
  }

  /** At width one an empty label leaves a row in hand that has taken nothing. */
  lemma EmptyTakesNothing(labels: seq<string>, i: nat) returns (rows: seq<Row>, start: nat)
    requires i < |labels| && labels[i] == ""
    ensures start <= i && Packed(labels, 1) == rows + RowsFrom(labels, 1, i + 1, start, 0)
  {
    var used;
    rows, start, used := PackedAt(labels, 1, i);
    if used > 0 {
      var more := RowsFrom(labels, 1, i + 1, i, 0);
      assert rows + ([(start, i)] + more) == rows + [(start, i)] + more;
      rows, start := rows + [(start, i)], i;
    }
  }

  lemma TooWide(labels: seq<string>, start: nat, i: nat, end: nat)
    requires start <= i && i + 2 <= end <= |labels| && (labels[i + 1] != "" || i + 3 <= end)
    ensures RowWidth(labels, start, end) > 1
  {
    assert RowWidth(labels, i, i + 2) == |labels[i]| + 1 + |labels[i + 1]|;
    if labels[i + 1] != "" {
      WiderRow(labels, start, i, i + 2, end);
    } else {
      assert RowWidth(labels, i, i + 3) == RowWidth(labels, i, i + 2) + 1 + |labels[i + 2]|;
      WiderRow(labels, start, i, i + 3, end);
    }
  }

  /** So the labels after it share its row, which is too wide unless there is only one of them and it is empty. */
  lemma UntidyOverflows(labels: seq<string>, i: nat)
    requires i < |labels| && labels[i] == "" && !TidyAt(labels, i)
    ensures !AllFit(labels, 1, Packed(labels, 1))
  {
    var rows, start := EmptyTakesNothing(labels, i);
    var rest := RowsFrom(labels, 1, i + 1, start, 0);
    assert rest == RowsFrom(labels, 1, i + 2, start, |labels[i + 1]|);
    if labels[i + 1] == "" {
      assert rest == RowsFrom(labels, 1, i + 3, start, |labels[i + 2]|);
      FirstRow(labels, 1, i + 3, start, |labels[i + 2]|);
    } else {
      FirstRow(labels, 1, i + 2, start, |labels[i + 1]|);
    }
    assert Packed(labels, 1)[|rows|] == rest[0];
    if rest[0].1 <= |labels| {
      TooWide(labels, start, i, rest[0].1);
    }
  }

  /** The rows fit at every width if and only if empty labels come only at the end, two at most. */
  lemma FitsExactly(labels: seq<string>)
    ensures (forall width: nat :: width > 0 ==> AllFit(labels, width, Packed(labels, width))) <==> Tidy(labels)
  {
    if Tidy(labels) {
      forall width: nat | width > 0 ensures AllFit(labels, width, Packed(labels, width)) {
        if labels != [] {
          TidyFits(labels, width, 0, 0, 0);
        }
      }
    } else {
      var i :| 0 <= i < |labels| && labels[i] == "" && !TidyAt(labels, i);
      UntidyOverflows(labels, i);
    }
  }

  /** An empty label at the start of a row leaves no gap behind it, and the row comes out one too wide. */
  lemma EmptyLabelOverflows()
    ensures var labels := ["", "reading-sensors"]; Packed(labels, 15) == [(0, 2)] && RowWidth(labels, 0, 2) == 16
  {
    var labels := ["", "reading-sensors"];
    assert RowsFrom(labels, 15, 2, 0, 15) == [(0, 2)];
    assert RowsFrom(labels, 15, 1, 0, 0) == RowsFrom(labels, 15, 2, 0, 15);
    assert RowWidth(labels, 0, 2) == RowWidth(labels, 0, 1) + 1 + |labels[1]|;
  }

  /** Split the labels into rows of whole badges, first come first placed. */
  method BadgeRows(labels: seq<string>, width: nat) returns (rows: seq<Row>)
    ensures rows == Packed(labels, width)
  {
    if labels == [] || width == 0 {
      return [];
    }
    rows := [];
    var start, used := 0, 0;
    for i := 0 to |labels|
      invariant start >= 0 && used >= 0
      invariant Packed(labels, width) == rows + RowsFrom(labels, width, i, start, used)
    {
      var w := |labels[i]|;
      var gap := if used > 0 then 1 else 0;
      if used > 0 && used + gap + w > width {
        rows := rows + [(start, i)];
        start, used := i, w;
      } else {
        used := used + gap + w;
      }
    }
    rows := rows + [(start, |labels|)];
  }
}
