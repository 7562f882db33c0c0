/** Content-fitted column widths, and the exact sharing of what is left over. */
module TableColumns {
  import opened Names

  const U16_MAX: nat := 0xFFFF

  datatype Constraint = Length(cells: nat) | Min(cells: nat)

  // ---- fitting -----------------------------------------------------------------

  /** How wide column `i` must be for the first `n` rows; a short row has no cell there. */
  function Widest(header: seq<nat>, rows: seq<seq<nat>>, n: nat, i: nat): nat
    requires i < |header| && n <= |rows|
  {
    if n == 0 then header[i]
    else if i < |rows[n - 1]| then Max(Widest(header, rows, n - 1, i), rows[n - 1][i])
    else Widest(header, rows, n - 1, i)
  }

  /** A width is least: it holds every cell of its column and is one of them. */
  lemma {:induction false} WidestMeans(header: seq<nat>, rows: seq<seq<nat>>, n: nat, i: nat)
    requires i < |header| && n <= |rows|
    ensures var w := Widest(header, rows, n, i);
            && header[i] <= w
            && (forall k :: 0 <= k < n && i < |rows[k]| ==> rows[k][i] <= w)
            && (w == header[i] || exists k :: 0 <= k < n && i < |rows[k]| && rows[k][i] == w)
  {
    if n > 0 {
      WidestMeans(header, rows, n - 1, i);
    }
  }

  function Fitted(header: seq<nat>, rows: seq<seq<nat>>): (r: seq<nat>)
    ensures |r| == |header|
    ensures forall i :: 0 <= i < |r| ==> r[i] == Names.Min(Widest(header, rows, |rows|, i), U16_MAX)
  {
    seq(|header|, i requires 0 <= i < |header| => Names.Min(Widest(header, rows, |rows|, i), U16_MAX))
  }

  /** `header` and `rows` are the widths of the cell texts; one constraint per column, the last taking the rest. */
  method Fit(header: seq<nat>, rows: seq<seq<nat>>) returns (cols: seq<Constraint>)
    ensures |cols| == |header|
    ensures forall i :: 0 <= i < |cols| ==>
              cols[i] == if i + 1 == |cols| then Min(Fitted(header, rows)[i]) else Length(Fitted(header, rows)[i])
  {
    var w := header;
    for k := 0 to |rows|
      invariant |w| == |header| && forall i :: 0 <= i < |w| ==> w[i] == Widest(header, rows, k, i)
    {
      var row := rows[k];
      for i := 0 to Names.Min(|row|, |header|)
        invariant |w| == |header|
        invariant forall j :: 0 <= j < i ==> w[j] == Widest(header, rows, k + 1, j)
        invariant forall j :: i <= j < |w| ==> w[j] == Widest(header, rows, k, j)
      {
        w := w[i := Max(w[i], row[i])];
      }
    }
    cols := [];
    for i := 0 to |w|
      invariant |cols| == i
      invariant forall j :: 0 <= j < i ==>
                  cols[j] == if j + 1 == |w| then Min(Fitted(header, rows)[j]) else Length(Fitted(header, rows)[j])
    {
      var x := Names.Min(w[i], U16_MAX);
      cols := cols + [if i + 1 == |w| then Min(x) else Length(x)];
    }
  }

  // ---- filling -----------------------------------------------------------------

  function Sum(w: seq<nat>): nat {
    if w == [] then 0 else Sum(w[..|w| - 1]) + w[|w| - 1]
  }

  /** The spacing between `n` columns; a count beyond 16 bits counts as none. */
  function Gaps(n: nat, spacing: nat): nat {
    spacing * if n <= 1 || n - 1 > U16_MAX then 0 else n - 1
  }

  /** How wide a table of these columns is. */
  function Width(w: seq<nat>, spacing: nat): nat {
    Sum(w) + Gaps(|w|, spacing)
  }

  /** The fitted widths of the growing columns together; an index out of range is passed over. */
  function Basis(w: seq<nat>, grow: seq<nat>): nat {
    if grow == [] then 0
    else
      var n := |grow| - 1;
      Basis(w, grow[..n]) + if grow[n] < |w| then w[grow[n]] else 0
  }

  /** `leftover` times `col` over `basis`, rounded down. */
  function Portion(leftover: nat, col: nat, basis: nat): (share: nat)
    requires basis > 0
    ensures share * basis <= leftover * col
  {
    RoundsDown(leftover * col, basis);
    leftover * col / basis
  }

  lemma RoundsDown(x: nat, basis: nat)
    requires basis > 0
    ensures x / basis >= 0 && (x / basis) * basis <= x
  {
  }

  /**
   * A column's share, rounded down; the last one takes the rest. Nothing when 16-bit arithmetic over- or
   * underflows.
   */
  function OneShare(last: bool, col: nat, leftover: nat, basis: nat, given: nat): Option<nat>
    requires basis > 0
  {
    if last && given > leftover then None
    else if !last && leftover * col > U16_MAX then None
    else
      var share := if last then leftover - given else Portion(leftover, col, basis);
      if col + share > U16_MAX || given + share > U16_MAX then None else Some(share)
  }

  /** Hand out shares from column `k` of `grow` on; an index out of range is passed over. */
  function Share(w: seq<nat>, grow: seq<nat>, k: nat, leftover: nat, basis: nat, given: nat): (r: Option<seq<nat>>)
    requires k <= |grow| && basis > 0
    ensures r.Some? ==> |r.value| == |w|
    decreases |grow| - k
  {
    if k == |grow| then Some(w)
    else if grow[k] >= |w| then Share(w, grow, k + 1, leftover, basis, given)
    else
      match OneShare(k + 1 == |grow|, w[grow[k]], leftover, basis, given)
      case None => None
      case Some(share) => Share(w[grow[k] := w[grow[k]] + share], grow, k + 1, leftover, basis, given + share)
  }

  function Leftover(w: seq<nat>, width: nat, spacing: nat): nat {
    if Width(w, spacing) < width then width - Width(w, spacing) else 0
  }

  /** The filled widths; nothing when 16-bit arithmetic overflows. */
  function Filled(w: seq<nat>, width: nat, spacing: nat, grow: seq<nat>): (r: Option<seq<nat>>)
    ensures r.Some? ==> |r.value| == |w|
  {
    if Width(w, spacing) > U16_MAX || Basis(w, grow) > U16_MAX then None
    else Share(w, grow, 0, Leftover(w, width, spacing), Max(Basis(w, grow), 1), 0)
  }

  /** Fitted widths that together span `width`: the columns in `grow` share what is left over. */
  method Fill(header: seq<nat>, rows: seq<seq<nat>>, width: nat, spacing: nat, grow: seq<nat>)
    returns (r: Option<seq<nat>>)
    requires width <= U16_MAX && spacing <= U16_MAX
    ensures r == Filled(Fitted(header, rows), width, spacing, grow)
  {
    var fitted := Fit(header, rows);
    var w := Cells(fitted);
    assert w == Fitted(header, rows);
    var used := Width(w, spacing);
    if used > U16_MAX {
      return None;
    }
    var leftover := if used < width then width - used else 0;
    var sum := Basis(w, grow);
    if sum > U16_MAX {
      return None;
    }
    r := HandOut(w, grow, leftover, Max(sum, 1));
  }

  function Cells(cols: seq<Constraint>): (w: seq<nat>)
    ensures |w| == |cols| && forall i :: 0 <= i < |w| ==> w[i] == cols[i].cells
  {
    seq(|cols|, i requires 0 <= i < |cols| => cols[i].cells)
  }

  method HandOut(fitted: seq<nat>, grow: seq<nat>, leftover: nat, basis: nat) returns (r: Option<seq<nat>>)
    requires basis > 0
    ensures r == Share(fitted, grow, 0, leftover, basis, 0)
  {
    var w: seq<nat>, given: nat := fitted, 0;
    for k := 0 to |grow|
      invariant |w| == |fitted|
      invariant Share(fitted, grow, 0, leftover, basis, 0) == Share(w, grow, k, leftover, basis, given)
    {
      var i := grow[k];
      if i < |w| {
        var share := OneShare(k + 1 == |grow|, w[i], leftover, basis, given);
        if share.None? {
          return None;
        }
        w := w[i := w[i] + share.value];
        given := given + share.value;
      }
    }
    return Some(w);
  }

  // ---- exactness ---------------------------------------------------------------

  lemma {:induction false} SumUpdate(w: seq<nat>, i: nat, x: nat)
    requires i < |w|
    ensures Sum(w[i := x]) == Sum(w) - w[i] + x && w[i] <= Sum(w)
  {
    var n := |w| - 1;
    var u := w[i := x];
    if i == n {
      assert u[..n] == w[..n];
    } else {
      assert u[..n] == w[..n][i := x];
      SumUpdate(w[..n], i, x);
    }
  }

  ghost predicate Distinct(grow: seq<nat>) {
    forall j, k :: 0 <= j < k < |grow| ==> grow[j] != grow[k]
  }

  lemma BasisNext(w: seq<nat>, grow: seq<nat>, k: nat)
    requires k < |grow|
    ensures Basis(w, grow[..k + 1]) == Basis(w, grow[..k]) + if grow[k] < |w| then w[grow[k]] else 0
  {
    assert grow[..k + 1][..k] == grow[..k];
  }

  lemma {:induction false} BasisPrefix(w: seq<nat>, grow: seq<nat>, k: nat)
    requires k <= |grow|
    ensures Basis(w, grow[..k]) <= Basis(w, grow)
    decreases |grow| - k
  {
    if k < |grow| {
      BasisNext(w, grow, k);
      BasisPrefix(w, grow, k + 1);
    } else {
      assert grow[..k] == grow;
    }
  }

  lemma ScaleMonotone(a: nat, b: nat, c: nat)
    requires b <= c
    ensures a * b <= a * c
  {
  }

  lemma CancelScale(a: nat, b: nat, basis: nat)
    requires basis > 0
    ensures a * basis <= b * basis ==> a <= b
  {
    if a > b {
      ScaleMonotone(basis, b + 1, a);
    }
  }

  /** Rounding every share down keeps what is given in proportion to the columns served. */
  lemma NextShare(given: nat, leftover: nat, basis: nat, served: nat, col: nat, share: nat)
    requires basis > 0 && share * basis <= leftover * col
    requires given * basis <= leftover * served && served + col <= basis
    ensures (given + share) * basis <= leftover * (served + col) && given + share <= leftover
  {
    assert (given + share) * basis == given * basis + share * basis;
    assert leftover * (served + col) == leftover * served + leftover * col;
    ScaleMonotone(leftover, served + col, basis);
    CancelScale(given + share, leftover, basis);
  }

  /** No share computed on the way leaves 16 bits. */
  ghost predicate ProductsFit(w: seq<nat>, grow: seq<nat>, k: nat, leftover: nat) {
    forall j :: k <= j < |grow| - 1 && grow[j] < |w| ==> leftover * w[grow[j]] <= U16_MAX
  }

  ghost predicate Served(grow: seq<nat>, k: nat, i: nat) {
    exists j :: k <= j < |grow| && grow[j] == i
  }

  /** Where sharing stands before column `k` of `grow`; `w` are the fitted widths. */
  ghost predicate Standing(w: seq<nat>, now: seq<nat>, grow: seq<nat>, k: nat, leftover: nat, basis: nat, given: nat)
    requires k <= |grow|
  {
    && |now| == |w|
    && basis > 0 && Basis(w, grow) <= basis
    && Sum(w) + leftover <= U16_MAX
    && Sum(now) == Sum(w) + given
    && given * basis <= leftover * Basis(w, grow[..k])
    && given <= leftover
    && (forall i :: 0 <= i < |w| && Served(grow, k, i) ==> now[i] == w[i])
  }

  /** Every column with its proportional share of what is left over, rounded down. */
  function Due(w: seq<nat>, leftover: nat, basis: nat): (r: seq<nat>)
    requires basis > 0
    ensures |r| == |w| && forall i :: 0 <= i < |w| ==> r[i] == w[i] + Portion(leftover, w[i], basis)
  {
    seq(|w|, i requires 0 <= i < |w| => w[i] + Portion(leftover, w[i], basis))
  }

  /**
   * What sharing from column `k` on makes of the widths; `total` is the fitted sum and `due` the proportional
   * widths.
   */
  ghost predicate Shared(now: seq<nat>, grow: seq<nat>, k: nat, due: seq<nat>, total: nat, leftover: nat, r: seq<nat>)
    requires |due| == |now|
  {
    && |r| == |now|
    && (forall i :: 0 <= i < |now| ==> now[i] <= r[i])
    && (forall i :: 0 <= i < |now| && !Served(grow, k, i) ==> r[i] == now[i])
    && (forall j :: k <= j < |grow| - 1 && grow[j] < |now| ==> r[grow[j]] == due[grow[j]])
    && Sum(r) <= total + leftover
    && (k < |grow| && grow[|grow| - 1] < |now| ==> Sum(r) == total + leftover)
  }

  lemma ServedMore(grow: seq<nat>, k: nat, i: nat)
    requires k < |grow|
    ensures Served(grow, k, i) <==> grow[k] == i || Served(grow, k + 1, i)
  {
  }

  /** A share handed out leaves everything standing. */
  lemma StandingNext(w: seq<nat>, now: seq<nat>, grow: seq<nat>, k: nat, leftover: nat, basis: nat,
    given: nat, share: nat)
    requires k < |grow| && grow[k] < |w| && Distinct(grow) && Standing(w, now, grow, k, leftover, basis, given)
    requires share * basis <= leftover * w[grow[k]]
    ensures now[grow[k]] == w[grow[k]] && w[grow[k]] + share <= U16_MAX && given + share <= leftover
    ensures Standing(w, now[grow[k] := w[grow[k]] + share], grow, k + 1, leftover, basis, given + share)
  {
    var i := grow[k];
    assert Served(grow, k, i);
    BasisNext(w, grow, k);
    BasisPrefix(w, grow, k + 1);
    NextShare(given, leftover, basis, Basis(w, grow[..k]), w[i], share);
    SumUpdate(now, i, w[i] + share);
    forall c | 0 <= c < |w| && Served(grow, k + 1, c) ensures c != i && Served(grow, k, c) {
      ServedMore(grow, k, c);
    }
  }

  lemma StandingSkip(w: seq<nat>, now: seq<nat>, grow: seq<nat>, k: nat, leftover: nat, basis: nat, given: nat)
    requires k < |grow| && grow[k] >= |w| && Standing(w, now, grow, k, leftover, basis, given)
    ensures Standing(w, now, grow, k + 1, leftover, basis, given)
  {
    BasisNext(w, grow, k);
    forall c | 0 <= c < |w| && Served(grow, k + 1, c) ensures Served(grow, k, c) {
      ServedMore(grow, k, c);
    }
  }

  lemma SharedNext(now: seq<nat>, grow: seq<nat>, k: nat, due: seq<nat>, total: nat, leftover: nat, r: seq<nat>)
    requires k + 1 < |grow| && grow[k] < |now| == |due| && Distinct(grow) && now[grow[k]] <= due[grow[k]]
    requires Shared(now[grow[k] := due[grow[k]]], grow, k + 1, due, total, leftover, r)
    ensures Shared(now, grow, k, due, total, leftover, r)
  {
    forall i | 0 <= i < |now| && !Served(grow, k, i) ensures i != grow[k] && !Served(grow, k + 1, i) {
      ServedMore(grow, k, i);
    }
    assert !Served(grow, k + 1, grow[k]);
  }

  lemma SharedSkip(now: seq<nat>, grow: seq<nat>, k: nat, due: seq<nat>, total: nat, leftover: nat, r: seq<nat>)
    requires k < |grow| && grow[k] >= |now| == |due| && Shared(now, grow, k + 1, due, total, leftover, r)
    ensures Shared(now, grow, k, due, total, leftover, r)
  {
    forall i | 0 <= i < |now| && !Served(grow, k, i) ensures !Served(grow, k + 1, i) {
      ServedMore(grow, k, i);
    }
  }

  /** The last growing column takes what the others left, and that is never negative. */
  lemma LastShare(w: seq<nat>, now: seq<nat>, grow: seq<nat>, k: nat, due: seq<nat>, leftover: nat,
    basis: nat, given: nat)
    returns (r: seq<nat>)
    requires k + 1 == |grow| && grow[k] < |w| == |due| && Standing(w, now, grow, k, leftover, basis, given)
    ensures Share(now, grow, k, leftover, basis, given) == Some(r) && Shared(now, grow, k, due, Sum(w), leftover, r)
  {
    var i := grow[k];
    assert Served(grow, k, i);
    r := now[i := now[i] + (leftover - given)];
    SumUpdate(now, i, r[i]);
  }

  lemma PlainShare(col: nat, leftover: nat, basis: nat, given: nat, share: nat)
    requires basis > 0 && share == Portion(leftover, col, basis) && leftover * col <= U16_MAX
    requires col + share <= U16_MAX && given + share <= U16_MAX
    ensures OneShare(false, col, leftover, basis, given) == Some(share)
  {
  }

  lemma ShareUnfolds(now: seq<nat>, grow: seq<nat>, k: nat, leftover: nat, basis: nat, given: nat, share: nat)
    requires k < |grow| && grow[k] < |now| && basis > 0
    requires OneShare(k + 1 == |grow|, now[grow[k]], leftover, basis, given) == Some(share)
    ensures Share(now, grow, k, leftover, basis, given) ==
            Share(now[grow[k] := now[grow[k]] + share], grow, k + 1, leftover, basis, given + share)
  {
  }

  /** A growing column before the last gets its proportional share. */
  lemma MiddleShare(w: seq<nat>, now: seq<nat>, grow: seq<nat>, k: nat, due: seq<nat>, leftover: nat,
    basis: nat, given: nat)
    returns (given': nat)
    requires k + 1 < |grow| && grow[k] < |w| && Distinct(grow) && Standing(w, now, grow, k, leftover, basis, given)
    requires leftover * w[grow[k]] <= U16_MAX && due == Due(w, leftover, basis)
    ensures now[grow[k]] <= due[grow[k]]
    ensures Standing(w, now[grow[k] := due[grow[k]]], grow, k + 1, leftover, basis, given')
    ensures Share(now, grow, k, leftover, basis, given) ==
            Share(now[grow[k] := due[grow[k]]], grow, k + 1, leftover, basis, given')
  {
    var i := grow[k];
    var share := Portion(leftover, w[i], basis);
    StandingNext(w, now, grow, k, leftover, basis, given, share);
    PlainShare(now[i], leftover, basis, given, share);
    ShareUnfolds(now, grow, k, leftover, basis, given, share);
    given' := given + share;
  }

  lemma {:induction false} ShareExact(
    w: seq<nat>, now: seq<nat>, grow: seq<nat>, k: nat, due: seq<nat>, leftover: nat, basis: nat, given: nat)
    returns (r: seq<nat>)
    requires k <= |grow| && Distinct(grow) && Standing(w, now, grow, k, leftover, basis, given)
    requires ProductsFit(w, grow, k, leftover) && due == Due(w, leftover, basis)
    ensures Share(now, grow, k, leftover, basis, given) == Some(r) && Shared(now, grow, k, due, Sum(w), leftover, r)
    decreases |grow| - k
  {
    if k == |grow| {
      r := now;
    } else if grow[k] >= |w| {
      StandingSkip(w, now, grow, k, leftover, basis, given);
      r := ShareExact(w, now, grow, k + 1, due, leftover, basis, given);
      SharedSkip(now, grow, k, due, Sum(w), leftover, r);
    } else if k + 1 == |grow| {
      r := LastShare(w, now, grow, k, due, leftover, basis, given);
    } else {
      var given' := MiddleShare(w, now, grow, k, due, leftover, basis, given);
      r := ShareExact(w, now[grow[k] := due[grow[k]]], grow, k + 1, due, leftover, basis, given');
      SharedNext(now, grow, k, due, Sum(w), leftover, r);
    }
  }

  /** A product that leaves 16 bits stops the sharing. */
  lemma {:induction false} ShareOverflows(w: seq<nat>, now: seq<nat>, grow: seq<nat>, k: nat, leftover: nat,
    basis: nat, given: nat)
    requires k <= |grow| && basis > 0 && |now| == |w| && Distinct(grow)
    requires forall i :: 0 <= i < |w| && Served(grow, k, i) ==> now[i] == w[i]
    requires !ProductsFit(w, grow, k, leftover)
    ensures Share(now, grow, k, leftover, basis, given) == None
    decreases |grow| - k
  {
    if k < |grow| {
      var i := grow[k];
      assert Served(grow, k, i);
      forall c | 0 <= c < |w| && Served(grow, k + 1, c) ensures c != i && Served(grow, k, c) {
        ServedMore(grow, k, c);
      }
      if i >= |w| {
        ShareOverflows(w, now, grow, k + 1, leftover, basis, given);
      } else {
        match OneShare(k + 1 == |grow|, now[i], leftover, basis, given)
        case None =>
        case Some(share) => ShareOverflows(w, now[i := now[i] + share], grow, k + 1, leftover, basis, given + share);
      }
    }
  }

  /** Whatever `grow` names, sharing takes nothing away and hands out exactly what is left over. */
  lemma {:induction false} ShareConserves(now: seq<nat>, grow: seq<nat>, k: nat, leftover: nat, basis: nat, given: nat)
    requires k <= |grow| && basis > 0
    ensures var r := Share(now, grow, k, leftover, basis, given);
            r.Some? ==>
              && (forall i :: 0 <= i < |now| ==> now[i] <= r.value[i])
              && (forall i :: 0 <= i < |now| && !Served(grow, k, i) ==> r.value[i] == now[i])
              && (k < |grow| && grow[|grow| - 1] < |now| ==> Sum(r.value) + given == Sum(now) + leftover)
    decreases |grow| - k
  {
    if k < |grow| {
      forall i: nat ensures Served(grow, k, i) <==> grow[k] == i || Served(grow, k + 1, i) {
        ServedMore(grow, k, i);
      }
      if grow[k] >= |now| {
        ShareConserves(now, grow, k + 1, leftover, basis, given);
      } else {
        match OneShare(k + 1 == |grow|, now[grow[k]], leftover, basis, given)
        case None =>
        case Some(share) =>
          SumUpdate(now, grow[k], now[grow[k]] + share);
          ShareConserves(now[grow[k] := now[grow[k]] + share], grow, k + 1, leftover, basis, given + share);
      }
    }
  }

  /**
   * No column shrinks, the others keep their fitted width, and with a last column to take the rest they span
   * `width`.
   */
  ghost predicate Spans(w: seq<nat>, width: nat, spacing: nat, grow: seq<nat>, r: seq<nat>) {
    && |r| == |w|
    && (forall i :: 0 <= i < |w| ==> w[i] <= r[i])
    && (forall i :: 0 <= i < |w| && !Served(grow, 0, i) ==> r[i] == w[i])
    && (grow != [] && grow[|grow| - 1] < |w| ==> Width(r, spacing) == Max(width, Width(w, spacing)))
  }

  /** Every growing column but the last has its proportional share, and they span no more than `width`. */
  ghost predicate Proportional(w: seq<nat>, width: nat, spacing: nat, grow: seq<nat>, r: seq<nat>)
    requires |r| == |w|
  {
    && (forall j :: 0 <= j < |grow| - 1 && grow[j] < |w| ==>
          r[grow[j]] == Due(w, Leftover(w, width, spacing), Max(Basis(w, grow), 1))[grow[j]])
    && Width(r, spacing) <= Max(width, Width(w, spacing))
  }

  lemma {:induction false} SumCovers(w: seq<nat>, grow: seq<nat>, rest: seq<nat>)
    requires Distinct(grow) && |rest| == |w|
    requires forall i :: 0 <= i < |w| ==> rest[i] == if Served(grow, 0, i) then 0 else w[i]
    ensures Sum(w) == Sum(rest) + Basis(w, grow)
    decreases |grow|
  {
    if grow == [] {
      assert forall i :: 0 <= i < |w| ==> rest[i] == w[i];
      assert rest == w;
    } else {
      var n := |grow| - 1;
      var before, g := grow[..n], grow[n];
      ServedLast(grow);
      if g < |w| {
        SumCovers(w, before, rest[g := w[g]]);
        SumUpdate(rest, g, w[g]);
      } else {
        SumCovers(w, before, rest);
      }
    }
  }

  lemma ServedLast(grow: seq<nat>)
    requires grow != [] && Distinct(grow)
    ensures forall i :: Served(grow, 0, i) <==> Served(grow[..|grow| - 1], 0, i) || grow[|grow| - 1] == i
    ensures !Served(grow[..|grow| - 1], 0, grow[|grow| - 1])
  {
    var n := |grow| - 1;
    forall i: nat | Served(grow, 0, i) ensures Served(grow[..n], 0, i) || grow[n] == i {
      var j :| 0 <= j < |grow| && grow[j] == i;
      assert j < n ==> grow[..n][j] == i;
    }
    forall i: nat | Served(grow[..n], 0, i) || grow[n] == i ensures Served(grow, 0, i) {
      if grow[n] != i {
        var j :| 0 <= j < n && grow[..n][j] == i;
        assert grow[j] == i;
      }
    }
  }

  /** Distinct columns are never wider together than the whole table. */
  lemma BasisWithinSum(w: seq<nat>, grow: seq<nat>)
    requires Distinct(grow)
    ensures Basis(w, grow) <= Sum(w)
  {
    SumCovers(w, grow, seq(|w|, i requires 0 <= i < |w| => if Served(grow, 0, i) then 0 else w[i]));
  }

  lemma DistinctIsExact(w: seq<nat>, width: nat, spacing: nat, grow: seq<nat>)
    requires width <= U16_MAX && Distinct(grow)
    ensures var r := Filled(w, width, spacing, grow);
            && (r.Some? <==> Width(w, spacing) <= U16_MAX && ProductsFit(w, grow, 0, Leftover(w, width, spacing)))
            && (r.Some? ==> Proportional(w, width, spacing, grow, r.value))
  {
    if Width(w, spacing) <= U16_MAX {
      BasisWithinSum(w, grow);
      var leftover, basis := Leftover(w, width, spacing), Max(Basis(w, grow), 1);
      assert grow[..0] == [];
      if ProductsFit(w, grow, 0, leftover) {
        var r := ShareExact(w, w, grow, 0, Due(w, leftover, basis), leftover, basis, 0);
      } else {
        ShareOverflows(w, w, grow, 0, leftover, basis, 0);
      }
    }
  }

  /**
   * Filling is exact. Whatever columns grow, the widths it returns span `width`, no column shrinks and
   * the columns that do not grow keep their fitted width. For distinct growing columns it returns widths
   * exactly when the fitted width and the products of the shares stay within 16 bits, and shares in
   * proportion.
   */
  lemma FillIsExact(w: seq<nat>, width: nat, spacing: nat, grow: seq<nat>)
    requires width <= U16_MAX
    ensures var r := Filled(w, width, spacing, grow);
            && (r.Some? ==> Spans(w, width, spacing, grow, r.value))
            && (Distinct(grow) ==>
                  && (r.Some? <==> Width(w, spacing) <= U16_MAX && ProductsFit(w, grow, 0, Leftover(w, width, spacing)))
                  && (r.Some? ==> Proportional(w, width, spacing, grow, r.value)))
  {
    if Width(w, spacing) <= U16_MAX && Basis(w, grow) <= U16_MAX {
      ShareConserves(w, grow, 0, Leftover(w, width, spacing), Max(Basis(w, grow), 1), 0);
    }
    if Distinct(grow) {
      DistinctIsExact(w, width, spacing, grow);
    }
  }

  /** The edge table with one long edge, on a wide terminal: the product of the first share leaves 16 bits. */
  lemma WideColumnOverflows()
    ensures Filled([130, 4, 7, 5, 4, 9], 700, 2, [0, 1]) == None
  {
    var w, grow := [130, 4, 7, 5, 4, 9], [0, 1];
    SumOfSix(w);
    assert Width(w, 2) == 169 && Leftover(w, 700, 2) == 531;
    assert 531 * w[grow[0]] > U16_MAX;
    FillIsExact(w, 700, 2, grow);
  }

  lemma SumOfSix(w: seq<nat>)
    requires |w| == 6
    ensures Sum(w) == w[0] + w[1] + w[2] + w[3] + w[4] + w[5]
  {
    assert w[..5][..4] == w[..4] && w[..4][..3] == w[..3] && w[..3][..2] == w[..2] && w[..2][..1] == w[..1] &&
      w[..1][..0] == [];
    assert Sum(w[..1]) == w[0] && Sum(w[..2]) == Sum(w[..1]) + w[1] && Sum(w[..3]) == Sum(w[..2]) + w[2];
    assert Sum(w[..4]) == Sum(w[..3]) + w[3] && Sum(w[..5]) == Sum(w[..4]) + w[4];
  }
}
