/** What a tail has sent after any run, and when it returns, told without the tail's own memory. */
module LogEnding {
  import opened Names
  import opened LogTail
  import opened LogDelivery

  // ---- one session ---------------------------------------------------------

  /** A line handed over again: at the newest stamp sent, and so far received less often than it had been sent. */
  predicate Resent(sent: seq<Line>, got: seq<Line>, line: Line) {
    line.at.Some? && line.at == Newest(sent) && Copies(got, line) < Copies(sent, line)
  }

  /** The lines of a session that are not handed over again. */
  function Fresh(sent: seq<Line>, got: seq<Line>): seq<Line> {
    if got == [] then []
    else var n := |got| - 1; Fresh(sent, got[..n]) + if Resent(sent, got[..n], got[n]) then [] else [got[n]]
  }

  /** No more than `n` lines. */
  function Cut(lines: seq<Line>, n: nat): seq<Line> {
    if |lines| <= n then lines else lines[..n]
  }

  lemma FreshNext(sent: seq<Line>, got: seq<Line>, line: Line)
    ensures Fresh(sent, got + [line]) == Fresh(sent, got) + if Resent(sent, got, line) then [] else [line]
  {
    assert (got + [line])[..|got|] == got;
  }

  lemma {:induction false} FreshGrows(sent: seq<Line>, got: seq<Line>, more: seq<Line>)
    ensures Fresh(sent, got) <= Fresh(sent, got + more)
    decreases |more|
  {
    if more == [] {
      assert got + more == got;
    } else {
      var n := |more| - 1;
      FreshGrows(sent, got, more[..n]);
      FreshNext(sent, got + more[..n], more[n]);
      assert got + more[..n] + [more[n]] == got + more;
    }
  }

  /** What is left of the replay counts when `got` has been received after `sent`. */
  ghost predicate Awaits(replayAt: Option<Timestamp>, replay: map<string, nat>, sent: seq<Line>, got: seq<Line>) {
    && replayAt == Newest(sent)
    && (replayAt.None? ==> forall text :: Count(replay, text) == 0)
    && (replayAt.Some? ==> forall text :: AwaitsText(replayAt, replay, sent, got, text))
  }

  ghost predicate AwaitsText(replayAt: Option<Timestamp>, replay: map<string, nat>, sent: seq<Line>, got: seq<Line>,
    text: string) {
    Count(replay, text) == Max(0, Copies(sent, Line(replayAt, text)) - Copies(got, Line(replayAt, text)))
  }

  lemma ReplaysIsResent(replayAt: Option<Timestamp>, replay: map<string, nat>, sent: seq<Line>, got: seq<Line>,
    line: Line)
    requires Awaits(replayAt, replay, sent, got)
    ensures Replays(replayAt, replay, line) <==> Resent(sent, got, line)
  {
    if line.at == replayAt && replayAt.Some? {
      assert line == Line(replayAt, line.text);
      assert AwaitsText(replayAt, replay, sent, got, line.text);
    }
  }

  lemma AwaitsNext(replayAt: Option<Timestamp>, replay: map<string, nat>, sent: seq<Line>, got: seq<Line>, line: Line)
    requires Awaits(replayAt, replay, sent, got)
    ensures var replay' := if Replays(replayAt, replay, line) then replay[line.text := replay[line.text] - 1]
        else replay;
            Awaits(replayAt, replay', sent, got + [line])
  {
    var replay' := if Replays(replayAt, replay, line) then replay[line.text := replay[line.text] - 1] else replay;
    if replayAt.Some? {
      forall text ensures AwaitsText(replayAt, replay', sent, got + [line], text) {
        assert AwaitsText(replayAt, replay, sent, got, text);
        SnocCopies(got, line, Line(replayAt, text));
        assert line == Line(line.at, line.text);
      }
    }
  }

  /** From `s` on as much of `due` is sent as the consumer takes, and the tail returns exactly when that is not all. */
  ghost predicate Sends(s: State, s': State, due: seq<Line>) {
    && |s.sent| <= |due|
    && (s'.done <==> |due| > |s.sent| + s.room)
    && s'.sent == Cut(due, |s.sent| + s.room)
    && (!s'.done ==> s'.room == |s.sent| + s.room - |due|)
  }

  /** Within a session on a tail that had sent `sent`: `got` has been received, and its fresh lines sent. */
  ghost predicate Midway(s: State, replayAt: Option<Timestamp>, replay: map<string, nat>, sent: seq<Line>,
    got: seq<Line>) {
    !s.done && Awaits(replayAt, replay, sent, got) && s.sent == sent + Fresh(sent, got)
  }

  lemma ReceivesNext(items: seq<Item>, got: seq<Line>)
    requires items != [] && items[0].Got?
    ensures got + Received(items) == got + [items[0].line] + Received(items[1..])
  {
  }

  lemma ReplayGoes(s: State, replayAt: Option<Timestamp>, replay: map<string, nat>, sent: seq<Line>, got: seq<Line>,
    line: Line)
    requires Midway(s, replayAt, replay, sent, got) && Replays(replayAt, replay, line)
    ensures Midway(s, replayAt, replay[line.text := replay[line.text] - 1], sent, got + [line])
  {
    ReplaysIsResent(replayAt, replay, sent, got, line);
    AwaitsNext(replayAt, replay, sent, got, line);
    FreshNext(sent, got, line);
    assert Fresh(sent, got) + [] == Fresh(sent, got);
  }

  lemma FreshGoes(s: State, replayAt: Option<Timestamp>, replay: map<string, nat>, sent: seq<Line>, got: seq<Line>,
    line: Line)
    requires Midway(s, replayAt, replay, sent, got) && !Replays(replayAt, replay, line) && s.room > 0
    ensures Midway(Send(Note(s, line), line), replayAt, replay, sent, got + [line])
  {
    ReplaysIsResent(replayAt, replay, sent, got, line);
    AwaitsNext(replayAt, replay, sent, got, line);
    FreshNext(sent, got, line);
    Associate(sent, Fresh(sent, got), line);
  }

  lemma Associate(a: seq<Line>, b: seq<Line>, line: Line)
    ensures a + b + [line] == a + (b + [line])
  {
  }

  /** A consumer without room for a line that is due ends the tail. */
  lemma NoRoom(s: State, line: Line, due: seq<Line>)
    requires !s.done && s.room == 0 && |s.sent| < |due| && due[..|s.sent|] == s.sent
    ensures Sends(s, Send(Note(s, line), line), due)
  {
  }

  lemma DueLater(sent: seq<Line>, got: seq<Line>, line: Line, more: seq<Line>)
    requires !Resent(sent, got, line)
    ensures var now, due := sent + Fresh(sent, got), sent + Fresh(sent, got + [line] + more);
            |now| < |due| && due[..|now|] == now
  {
    FreshNext(sent, got, line);
    FreshGrows(sent, got + [line], more);
    StartsWithSent(sent, Fresh(sent, got), line, Fresh(sent, got + [line] + more));
  }

  lemma Refused(s: State, replayAt: Option<Timestamp>, replay: map<string, nat>, sent: seq<Line>, got: seq<Line>,
    line: Line, more: seq<Line>, due: seq<Line>)
    requires Midway(s, replayAt, replay, sent, got) && !Replays(replayAt, replay, line) && s.room == 0
    requires due == sent + Fresh(sent, got + [line] + more)
    ensures Sends(s, Send(Note(s, line), line), due)
  {
    ReplaysIsResent(replayAt, replay, sent, got, line);
    DueLater(sent, got, line, more);
    NoRoom(s, line, due);
  }

  lemma StartsWithSent(sent: seq<Line>, some: seq<Line>, line: Line, all: seq<Line>)
    requires some + [line] <= all
    ensures |sent + some| < |sent + all| && (sent + all)[..|sent + some|] == sent + some
  {
    assert forall i :: 0 <= i < |some| ==> all[i] == (some + [line])[i];
  }

  lemma SendsOneMore(s: State, line: Line, s': State, due: seq<Line>)
    requires !s.done && s.room > 0 && Sends(Send(Note(s, line), line), s', due)
    ensures Sends(s, s', due)
  {
  }

  lemma {:induction false} DeliverSends(s: State, replayAt: Option<Timestamp>, replay: map<string, nat>,
    items: seq<Item>,
    sent: seq<Line>, got: seq<Line>, due: seq<Line>)
    requires Midway(s, replayAt, replay, sent, got) && due == sent + Fresh(sent, got + Received(items))
    ensures Sends(s, Deliver(s, replayAt, replay, items), due)
    decreases |items|
  {
    if items == [] || items[0].Broken? {
      assert got + Received(items) == got;
    } else {
      var line, rest := items[0].line, items[1..];
      ReceivesNext(items, got);
      if Replays(replayAt, replay, line) {
        ReplayGoes(s, replayAt, replay, sent, got, line);
        DeliverSends(s, replayAt, replay[line.text := replay[line.text] - 1], rest, sent, got + [line], due);
      } else if s.room == 0 {
        Refused(s, replayAt, replay, sent, got, line, Received(rest), due);
      } else {
        var s1 := Send(Note(s, line), line);
        FreshGoes(s, replayAt, replay, sent, got, line);
        DeliverSends(s1, replayAt, replay, rest, sent, got + [line], due);
        SendsOneMore(s, line, Deliver(s1, replayAt, replay, rest), due);
      }
    }
  }

  lemma MidwayAtStart(s: State)
    requires Tracks(s) && !s.done
    ensures Midway(s.(failures := 0), s.lastTs, s.boundary, s.sent, [])
  {
    if s.lastTs.Some? {
      forall text ensures AwaitsText(s.lastTs, s.boundary, s.sent, [], text) {
        assert Count(s.boundary, text) == Copies(s.sent, Line(s.lastTs, text));
      }
    }
  }

  /** A session sends what it brings that is fresh, as much as the consumer takes. */
  lemma SessionSends(s: State, items: seq<Item>)
    requires Tracks(s) && !s.done
    ensures Sends(s, AfterOpen(s, Opened(items)), s.sent + Fresh(s.sent, Received(items)))
  {
    MidwayAtStart(s);
    assert [] + Received(items) == Received(items);
    DeliverSends(s.(failures := 0), s.lastTs, s.boundary, items, s.sent, [], s.sent + Fresh(s.sent, Received(items)));
  }

  // ---- whole runs ----------------------------------------------------------------

  /** What a run would send to a consumer without limits: of every session what had not been sent before. */
  function Wanted(script: seq<Open>): seq<Line> {
    if script == [] then []
    else
      var n := |script| - 1;
      var before := Wanted(script[..n]);
      match script[n]
      case Opened(items) => before + Fresh(before, Received(items))
      case Failed(_) => before
  }

  /** The last five opens failed. */
  predicate FiveFailed(script: seq<Open>) {
    |script| >= 5 && forall i :: |script| - 5 <= i < |script| ==> script[i].Failed?
  }

  /** A tail has reason to return: more is wanted than the consumer takes, or five opens in a row have failed. */
  predicate Over(script: seq<Open>, room: nat) {
    |Wanted(script)| > room || FiveFailed(script)
  }

  ghost predicate OverAt(script: seq<Open>, room: nat, n: nat) {
    n <= |script| && Over(script[..n], room)
  }

  /** A tail that gives up says so in one more line. */
  function Told(script: seq<Open>, room: nat): seq<Line> {
    Wanted(script) + if |Wanted(script)| <= room &&
      FiveFailed(script) then [FailureLine(script[|script| - 1].error)] else []
  }

  function Asked(script: seq<Open>, since: Option<Timestamp>): Option<Timestamp> {
    if Newest(Wanted(script)).Some? then Newest(Wanted(script)) else since
  }

  predicate NeverOpened(script: seq<Open>) {
    forall i :: 0 <= i < |script| ==> script[i].Failed?
  }

  /** How many opens failed since the last that did not. */
  function FailedLately(script: seq<Open>): nat {
    if script == [] || script[|script| - 1].Opened? then 0 else FailedLately(script[..|script| - 1]) + 1
  }

  lemma {:induction false} FailedLatelyMeans(script: seq<Open>)
    ensures FailedLately(script) <= |script|
    ensures forall i :: |script| - FailedLately(script) <= i < |script| ==> script[i].Failed?
    ensures FailedLately(script) < |script| ==> script[|script| - FailedLately(script) - 1].Opened?
  {
    if script != [] && script[|script| - 1].Failed? {
      FailedLatelyMeans(script[..|script| - 1]);
    }
  }

  lemma FiveIsLately(script: seq<Open>)
    ensures FiveFailed(script) <==> FailedLately(script) >= 5
  {
    FailedLatelyMeans(script);
  }

  /** A tail that goes on stands where its script leaves it, whatever the bounds of the backlog were. */
  ghost predicate GoesOn(since: Option<Timestamp>, tailLines: Option<nat>, room: nat, script: seq<Open>, s: State) {
    && !s.done && Tracks(s) && s.failures == FailedLately(script) < 5
    && s.sent == Wanted(script) && |s.sent| + s.room == room
    && s.since == (if NeverOpened(script) then since else Asked(script, since))
    && s.tailLines == (if NeverOpened(script) then tailLines else None)
  }

  ghost predicate Returned(room: nat, script: seq<Open>, s: State) {
    s.done && Over(script, room) && s.sent == Cut(Told(script, room), room)
  }

  lemma FailedGoesOn(since: Option<Timestamp>, tailLines: Option<nat>, room: nat, script: seq<Open>, s: State,
    error: string)
    requires GoesOn(since, tailLines, room, script, s)
    ensures var script', s' := script + [Failed(error)], AfterOpen(s, Failed(error));
            if Over(script', room) then Returned(room, script', s') else GoesOn(since, tailLines, room, script', s')
  {
    var script' := script + [Failed(error)];
    assert script'[..|script'| - 1] == script;
    FiveIsLately(script');
    FailureTracks(s, error);
    assert NeverOpened(script') <==> NeverOpened(script) by {
      assert forall i :: 0 <= i < |script| ==> script'[i] == script[i];
    }
    assert Wanted(script') == Wanted(script);
  }

  lemma NewestStays(a: seq<Line>, b: seq<Line>)
    ensures Newest(a).Some? ==> Newest(a + b).Some?
  {
    NewestIsNewest(a);
    NewestIsNewest(a + b);
    if Newest(a).Some? {
      var l :| l in a && l.at == Newest(a);
      assert l in a + b;
    }
  }

  lemma OpenedNext(script: seq<Open>, items: seq<Item>)
    ensures var script' := script + [Opened(items)];
            && Wanted(script') == Wanted(script) + Fresh(Wanted(script), Received(items))
            && FailedLately(script') == 0 && !FiveFailed(script') && !NeverOpened(script')
  {
    var script' := script + [Opened(items)];
    assert script'[..|script'| - 1] == script && script'[|script|] == Opened(items);
    FiveIsLately(script');
  }

  /** What a session asks for afterwards: what is newer than anything sent, or what was asked for before. */
  lemma AsksNext(since: Option<Timestamp>, tailLines: Option<nat>, room: nat, script: seq<Open>, s: State,
    items: seq<Item>)
    requires GoesOn(since, tailLines, room, script, s)
    requires AfterOpen(s, Opened(items)).lastTs == Newest(Wanted(script + [Opened(items)]))
    requires !AfterOpen(s, Opened(items)).done
    ensures AfterOpen(s, Opened(items)).since == Asked(script + [Opened(items)], since)
  {
    DeliverKeeps(s.(failures := 0), s.lastTs, s.boundary, items);
    OpenedNext(script, items);
    NewestStays(Wanted(script), Fresh(Wanted(script), Received(items)));
  }

  lemma OpenedGoesOn(since: Option<Timestamp>, tailLines: Option<nat>, room: nat, script: seq<Open>, s: State,
    items: seq<Item>)
    requires GoesOn(since, tailLines, room, script, s)
    ensures var script', s' := script + [Opened(items)], AfterOpen(s, Opened(items));
            if Over(script', room) then Returned(room, script', s') else GoesOn(since, tailLines, room, script', s')
  {
    var script', s' := script + [Opened(items)], AfterOpen(s, Opened(items));
    OpenedNext(script, items);
    SessionSends(s, items);
    if !s'.done {
      OpenedTracks(s, items);
      AsksNext(since, tailLines, room, script, s, items);
    }
  }

  /** The first moment at which a tail has reason to return. */
  ghost predicate EndsAt(script: seq<Open>, room: nat, n: nat) {
    OverAt(script, room, n) && forall m: nat :: m < n ==> !OverAt(script, room, m)
  }

  lemma OverEarlier(script: seq<Open>, open: Open, room: nat, n: nat)
    requires n <= |script|
    ensures OverAt(script + [open], room, n) <==> OverAt(script, room, n)
  {
    assert (script + [open])[..n] == script[..n];
  }

  lemma StartGoesOn(since: Option<Timestamp>, tailLines: Option<nat>, room: nat)
    ensures GoesOn(since, tailLines, room, [], Start(since, tailLines, room))
  {
  }

  /** Either it goes on, or it returned when it first had reason to. */
  ghost predicate Ran(since: Option<Timestamp>, tailLines: Option<nat>, room: nat, script: seq<Open>, s: State) {
    || (GoesOn(since, tailLines, room, script, s) && forall n: nat :: !OverAt(script, room, n))
    || exists n: nat :: EndsAt(script, room, n) && Returned(room, script[..n], s)
  }

  lemma RanOn(since: Option<Timestamp>, tailLines: Option<nat>, room: nat, script: seq<Open>, open: Open, s: State)
    requires GoesOn(since, tailLines, room, script, s) && forall n: nat :: !OverAt(script, room, n)
    ensures Ran(since, tailLines, room, script + [open], AfterOpen(s, open))
  {
    var script' := script + [open];
    match open {
      case Failed(error) => FailedGoesOn(since, tailLines, room, script, s, error);
      case Opened(items) => OpenedGoesOn(since, tailLines, room, script, s, items);
    }
    assert script'[..|script'|] == script';
    forall n: nat | n <= |script| ensures !OverAt(script', room, n) {
      OverEarlier(script, open, room, n);
    }
    if Over(script', room) {
      assert EndsAt(script', room, |script'|) && Returned(room, script'[..|script'|], AfterOpen(s, open));
    }
  }

  lemma RanOut(since: Option<Timestamp>, tailLines: Option<nat>, room: nat, script: seq<Open>, open: Open, s: State,
    n: nat)
    requires EndsAt(script, room, n) && Returned(room, script[..n], s)
    ensures Ran(since, tailLines, room, script + [open], s)
  {
    var script' := script + [open];
    forall m: nat | m <= n ensures OverAt(script', room, m) <==> OverAt(script, room, m) {
      OverEarlier(script, open, room, m);
    }
    assert script'[..n] == script[..n];
    assert EndsAt(script', room, n) && Returned(room, script'[..n], s);
  }

  lemma {:induction false} RunRan(since: Option<Timestamp>, tailLines: Option<nat>, room: nat, script: seq<Open>)
    ensures Ran(since, tailLines, room, script, Run(Start(since, tailLines, room), script))
    decreases |script|
  {
    var s0 := Start(since, tailLines, room);
    if script == [] {
      StartGoesOn(since, tailLines, room);
      assert forall n: nat :: !OverAt(script, room, n);
    } else {
      var n := |script| - 1;
      var some, open := script[..n], script[n];
      assert script == some + [open];
      RunRan(since, tailLines, room, some);
      RunAppend(s0, some, open);
      var s := Run(s0, some);
      if s.done {
        var m: nat :| EndsAt(some, room, m) && Returned(room, some[..m], s);
        RanOut(since, tailLines, room, some, open, s, m);
      } else {
        RanOn(since, tailLines, room, some, open, s);
      }
    }
  }

  /**
   * Every run of every tail: it has returned if and only if at some moment more was wanted than the consumer
   * takes or five opens in a row had failed. Until then it has sent what was wanted; what it had sent at the
   * first such moment, cut to what the consumer takes, is all it ever sends.
   */
  lemma TailEnds(since: Option<Timestamp>, tailLines: Option<nat>, room: nat, script: seq<Open>)
    ensures var end := Run(Start(since, tailLines, room), script);
            && (end.done <==>
                (exists n: nat :: n <= |script| && (|Wanted(script[..n])| > room || FiveFailed(script[..n]))))
            && (!end.done ==> end.sent == Wanted(script))
            && (forall n: nat :: EndsAt(script, room, n) ==> end.sent == Cut(Told(script[..n], room), room))
  {
    RunRan(since, tailLines, room, script);
    var end := Run(Start(since, tailLines, room), script);
    if end.done {
      var n: nat :| EndsAt(script, room, n) && Returned(room, script[..n], end);
      assert OverAt(script, room, n);
      forall m: nat | EndsAt(script, room, m) ensures m == n {
        OneEnd(script, room, m, n);
      }
    } else {
      forall n: nat | n <= |script| ensures !(|Wanted(script[..n])| > room || FiveFailed(script[..n])) {
        assert !OverAt(script, room, n);
      }
    }
  }

  lemma OneEnd(script: seq<Open>, room: nat, m: nat, n: nat)
    requires EndsAt(script, room, m) && EndsAt(script, room, n)
    ensures m == n
  {
  }

  /**
   * What a tail that goes on asks for next: the newest stamp it has sent, and no backlog limit once it was
   * connected.
   */
  lemma TailAsks(since: Option<Timestamp>, tailLines: Option<nat>, room: nat, script: seq<Open>)
    ensures var end := Run(Start(since, tailLines, room), script);
            !end.done ==>
              && end.since == (if NeverOpened(script) || Newest(end.sent).None? then since else Newest(end.sent))
              && end.tailLines == (if NeverOpened(script) then tailLines else None)
  {
    RunRan(since, tailLines, room, script);
  }

  /** A container without output whose first connection drops is followed on. */
  lemma EmptySessionGoesOn(line: Line)
    ensures var end := Run(Start(None, None, 10), [Opened([]), Opened([Got(line)])]);
            !end.done && end.sent == [line]
  {
    var s0, one := Start(None, None, 10), [Got(line)];
    assert one[1..] == [] && [Opened([]), Opened(one)][1..] == [Opened(one)] && [Opened(one)][1..] == [];
    var s1 := AfterOpen(s0, Opened([]));
    assert Deliver(s1, None, map[], one) == Deliver(Send(Note(s1, line), line), None, map[], []);
    assert Run(s0, [Opened([]), Opened(one)]) == Run(s1, [Opened(one)]) == AfterOpen(s1, Opened(one));
  }
}
