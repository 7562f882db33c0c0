/** What the consumer of a followed log gets, over every run. */
module LogDelivery {
  import opened Names
  import opened LogTail

  /** The lines of a session that reached the tail: everything before the stream broke. */
  function Received(items: seq<Item>): seq<Line> {
    if items == [] || items[0].Broken? then [] else [items[0].line] + Received(items[1..])
  }

  /** The lines of a session that were taken for replays and not sent. */
  function Suppressed(s: State, replayAt: Option<Timestamp>, replay: map<string, nat>, items: seq<Item>): seq<Line>
    decreases |items|
  {
    if s.done || items == [] || items[0].Broken? then []
    else
      var line := items[0].line;
      if Replays(replayAt, replay, line)
      then [line] + Suppressed(s, replayAt, replay[line.text := replay[line.text] - 1], items[1..])
      else Suppressed(Send(Note(s, line), line), replayAt, replay, items[1..])
  }

  /** How many of `lines` are `line`. */
  function Copies(lines: seq<Line>, line: Line): nat {
    if lines == [] then 0 else (if lines[0] == line then 1 else 0) + Copies(lines[1..], line)
  }

  lemma {:induction false} CopiesCount(lines: seq<Line>, line: Line)
    ensures Copies(lines, line) == multiset(lines)[line]
  {
    if lines != [] {
      CopiesCount(lines[1..], line);
      assert lines == [lines[0]] + lines[1..];
    }
  }

  lemma {:induction false} NoCopies(lines: seq<Line>, line: Line)
    requires line !in lines
    ensures Copies(lines, line) == 0
  {
    if lines != [] {
      NoCopies(lines[1..], line);
    }
  }

  lemma {:induction false} SnocCopies(lines: seq<Line>, last: Line, line: Line)
    ensures Copies(lines + [last], line) == Copies(lines, line) + if last == line then 1 else 0
  {
    if lines != [] {
      SnocCopies(lines[1..], last, line);
      assert (lines + [last])[1..] == lines[1..] + [last];
    }
  }

  // ---- with no assumption on the server -----------------------------------

  /** The newest stamp among the lines, if any has one. */
  function Newest(lines: seq<Line>): Option<Timestamp> {
    if lines == [] then None
    else
      var n := |lines| - 1;
      var before, at := Newest(lines[..n]), lines[n].at;
      if before.None? || (at.Some? && at.value > before.value) then at else before
  }

  lemma {:induction false} NewestIsNewest(lines: seq<Line>)
    ensures forall l :: l in lines && l.at.Some? ==> Newest(lines).Some? && l.at.value <= Newest(lines).value
    ensures Newest(lines).Some? ==> exists l :: l in lines && l.at == Newest(lines)
  {
    if lines != [] {
      var n := |lines| - 1;
      NewestIsNewest(lines[..n]);
      assert lines == lines[..n] + [lines[n]];
    }
  }

  /** The tail's memory is the newest stamp it sent and the texts it sent with it, counted. */
  ghost predicate Tracks(s: State) {
    && s.lastTs == Newest(s.sent)
    && (s.lastTs.None? ==> s.boundary == map[])
    && (s.lastTs.Some? ==> forall text :: Count(s.boundary, text) == Copies(s.sent, Line(s.lastTs, text)))
  }

  lemma NoteIsNewest(s: State, line: Line)
    requires s.lastTs == Newest(s.sent)
    ensures Note(s, line).lastTs == Newest(s.sent + [line])
  {
    assert (s.sent + [line])[..|s.sent|] == s.sent;
  }

  lemma NoteCounts(s: State, line: Line, text: string)
    requires Tracks(s)
    ensures var s' := Note(s, line);
            s'.lastTs.Some? ==> Count(s'.boundary, text) == Copies(s.sent + [line], Line(s'.lastTs, text))
  {
    var s' := Note(s, line);
    SnocCopies(s.sent, line, Line(s'.lastTs, text));
    if s'.lastTs != s.lastTs {
      NewerIsNew(s.sent, s'.lastTs, text);
    }
  }

  lemma SendTracks(s: State, line: Line)
    requires Tracks(s) && s.room > 0
    ensures Tracks(Send(Note(s, line), line))
  {
    var s' := Send(Note(s, line), line);
    NoteIsNewest(s, line);
    if s'.lastTs.Some? {
      forall text ensures Count(s'.boundary, text) == Copies(s'.sent, Line(s'.lastTs, text)) {
        NoteCounts(s, line, text);
      }
    }
  }

  lemma NewerIsNew(lines: seq<Line>, at: Option<Timestamp>, text: string)
    requires at.Some? && (Newest(lines).Some? ==> Newest(lines).value < at.value)
    ensures Copies(lines, Line(at, text)) == 0
  {
    NewestIsNewest(lines);
    NoCopies(lines, Line(at, text));
  }

  lemma {:induction false} DeliverTracks(s: State, replayAt: Option<Timestamp>, replay: map<string, nat>,
    items: seq<Item>)
    requires Tracks(s)
    ensures var s' := Deliver(s, replayAt, replay, items); !s'.done ==> Tracks(s')
    decreases |items|
  {
    if !(s.done || items == [] || items[0].Broken?) {
      var line := items[0].line;
      if Replays(replayAt, replay, line) {
        DeliverTracks(s, replayAt, replay[line.text := replay[line.text] - 1], items[1..]);
      } else if s.room > 0 {
        SendTracks(s, line);
        DeliverTracks(Send(Note(s, line), line), replayAt, replay, items[1..]);
      }
    }
  }

  /** A failure line has no stamp, so it leaves the memory as it was. */
  lemma FailureTracks(s: State, error: string)
    requires Tracks(s)
    ensures Tracks(AfterOpen(s, Failed(error)))
  {
    var line := FailureLine(error);
    assert (s.sent + [line])[..|s.sent|] == s.sent;
    forall text
      ensures Copies(s.sent + [line], Line(s.lastTs, text))
           == Copies(s.sent, Line(s.lastTs, text)) + if s.lastTs.None? && text == line.text then 1 else 0 {
      SnocCopies(s.sent, line, Line(s.lastTs, text));
    }
  }

  /**
   * Over every run, whatever the cluster answers: while the tail follows and when it gives up. Only a tail
   * whose last line the consumer refused has noted a line it did not send.
   */
  lemma {:induction false} RunTracks(s: State, script: seq<Open>)
    requires Tracks(s) && !s.done && s.failures < MAX_OPEN_FAILURES
    ensures var end := Run(s, script); !end.done || end.failures == MAX_OPEN_FAILURES ==> Tracks(end)
    decreases |script|
  {
    if script != [] {
      var s1 := AfterOpen(s, script[0]);
      match script[0]
      case Opened(items) =>
        DeliverKeeps(s.(failures := 0), s.lastTs, s.boundary, items);
        DeliverTracks(s.(failures := 0), s.lastTs, s.boundary, items);
        if !s1.done {
          RunTracks(s1, script[1..]);
        }
      case Failed(error) =>
        FailureTracks(s, error);
        if !s1.done {
          RunTracks(s1, script[1..]);
        }
    }
  }

  /** How many of `lines` are still to be taken for replays. */
  ghost predicate Accounts(replayAt: Option<Timestamp>, replay: map<string, nat>, lines: multiset<Line>) {
    forall text :: Count(replay, text) == lines[Line(replayAt, text)]
  }

  lemma AccountsStep(replayAt: Option<Timestamp>, replay: map<string, nat>, left: multiset<Line>, first: Line)
    returns (left': multiset<Line>)
    requires Accounts(replayAt, replay, left) && Replays(replayAt, replay, first)
    ensures left[first] > 0 && left' == left[first := left[first] - 1]
    ensures Accounts(replayAt, replay[first.text := replay[first.text] - 1], left')
  {
    assert first == Line(replayAt, first.text);
    left' := left[first := left[first] - 1];
  }

  /** Every line a session hands over is either sent or suppressed. */
  lemma {:induction false} SessionConserves(s: State, replayAt: Option<Timestamp>, replay: map<string, nat>,
    items: seq<Item>, line: Line)
    requires !Deliver(s, replayAt, replay, items).done
    ensures Copies(Deliver(s, replayAt, replay, items).sent, line) +
        Copies(Suppressed(s, replayAt, replay, items), line)
         == Copies(s.sent, line) + Copies(Received(items), line)
    decreases |items|
  {
    if items == [] || items[0].Broken? {
      return;
    }
    var first, rest := items[0].line, items[1..];
    assert Received(items) == [first] + Received(rest);
    if Replays(replayAt, replay, first) {
      var replay' := replay[first.text := replay[first.text] - 1];
      SessionConserves(s, replayAt, replay', rest, line);
      assert Suppressed(s, replayAt, replay, items) == [first] + Suppressed(s, replayAt, replay', rest);
    } else {
      var s1 := Send(Note(s, first), first);
      assert !s1.done && s1.sent == s.sent + [first];
      SnocCopies(s.sent, first, line);
      SessionConserves(s1, replayAt, replay, rest, line);
      assert Suppressed(s, replayAt, replay, items) == Suppressed(s1, replayAt, replay, rest);
    }
  }

  /**
   * `left` are the sent copies not yet matched by a replay: of every line at
   * the reopen stamp the first `left` copies received are suppressed, and of
   * every other line none.
   */
  lemma {:induction false} SuppressesLeft(
    s: State, replayAt: Option<Timestamp>, replay: map<string, nat>, items: seq<Item>, left: multiset<Line>, line: Line)
    requires Accounts(replayAt, replay, left)
    requires !Deliver(s, replayAt, replay, items).done
    ensures Copies(Suppressed(s, replayAt, replay, items), line)
         == if line.at == replayAt then Min(Copies(Received(items), line), left[line]) else 0
    decreases |items|
  {
    if !(items == [] || items[0].Broken?) {
      var first := items[0].line;
      if Replays(replayAt, replay, first) {
        var replay' := replay[first.text := replay[first.text] - 1];
        var left' := AccountsStep(replayAt, replay, left, first);
        SuppressesLeft(s, replayAt, replay', items[1..], left', line);
      } else {
        assert first.at == replayAt ==> left[first] == 0 by {
          assert first == Line(first.at, first.text);
        }
        SuppressesLeft(Send(Note(s, first), first), replayAt, replay, items[1..], left, line);
      }
    }
  }

  /** What the tail holds in hand when it reopens: every sent copy at the newest stamp. */
  lemma Outstanding(s: State) returns (left: multiset<Line>)
    requires Tracks(s)
    ensures Accounts(s.lastTs, s.boundary, left)
    ensures forall line :: left[line] == if s.lastTs.Some? then Copies(s.sent, line) else 0
  {
    left := if s.lastTs.Some? then multiset(s.sent) else multiset{};
    forall line ensures left[line] == if s.lastTs.Some? then Copies(s.sent, line) else 0 {
      CopiesCount(s.sent, line);
    }
  }

  /**
   * What a session does to each line's count, assuming nothing of the server:
   * at the reopen stamp the copies sent become the larger of those sent before
   * and those received now; anywhere else every copy received is sent.
   */
  lemma SessionCounts(s: State, items: seq<Item>, line: Line)
    requires Tracks(s) && !AfterOpen(s, Opened(items)).done
    ensures var before, got := Copies(s.sent, line), Copies(Received(items), line);
            Copies(AfterOpen(s, Opened(items)).sent, line)
              == if s.lastTs.Some? && line.at == s.lastTs then Max(before, got) else before + got
  {
    var s0 := s.(failures := 0);
    var left := Outstanding(s);
    SuppressesLeft(s0, s.lastTs, s.boundary, items, left, line);
    SessionConserves(s0, s.lastTs, s.boundary, items, line);
  }

  /** Every suppressed line had been sent before the session, copy for copy. */
  lemma SuppressedWereSent(s: State, items: seq<Item>, line: Line)
    requires Tracks(s) && !AfterOpen(s, Opened(items)).done
    ensures Copies(Suppressed(s.(failures := 0), s.lastTs, s.boundary, items), line) <= Copies(s.sent, line)
  {
    var left := Outstanding(s);
    SuppressesLeft(s.(failures := 0), s.lastTs, s.boundary, items, left, line);
  }

  // ---- with a log that only grows ------------------------------------------

  /** Every line has a stamp, and none is older than the newest before it. */
  ghost predicate Ordered(log: seq<Line>) {
    log != [] ==>
      var n := |log| - 1;
      && Ordered(log[..n])
      && log[n].at.Some?
      && (Newest(log[..n]).Some? ==> Newest(log[..n]).value <= log[n].at.value)
  }

  lemma {:induction false} OrderedPairs(log: seq<Line>)
    requires Ordered(log)
    ensures forall i :: 0 <= i < |log| ==> log[i].at.Some?
    ensures forall i, j :: 0 <= i < j < |log| ==> log[i].at.value <= log[j].at.value
    ensures log != [] ==> Newest(log) == log[|log| - 1].at
  {
    if log != [] {
      var n := |log| - 1;
      OrderedPairs(log[..n]);
      NewestIsNewest(log[..n]);
      forall i, j | 0 <= i < j < |log|
        ensures log[i].at.Some? && log[j].at.Some? && log[i].at.value <= log[j].at.value {
        assert log[..n][i] == log[i];
        assert log[i] in log[..n];
        assert j < n ==> log[..n][j] == log[j];
      }
    }
  }

  lemma {:induction false} OrderedSlice(log: seq<Line>, k: nat, end: nat)
    requires Ordered(log) && k <= end <= |log|
    ensures Ordered(log[k..end])
    decreases |log|
  {
    var n := |log| - 1;
    if k == end {
    } else if end <= n {
      assert log[..n][k..end] == log[k..end];
      OrderedSlice(log[..n], k, end);
    } else {
      assert log[..n][k..n] == log[k..n];
      OrderedSlice(log[..n], k, n);
      OrderedPairs(log);
      OrderedPairs(log[k..n]);
      assert log[k..end][..n - k] == log[k..n];
    }
  }

  predicate AtOrAfter(line: Line, since: Option<Timestamp>) {
    since.Some? ==> line.at.Some? && line.at.value >= since.value
  }

  /** What a server holds for an inclusive lower bound. */
  function Since(log: seq<Line>, since: Option<Timestamp>): seq<Line> {
    if log == [] then []
    else
      var n := |log| - 1;
      Since(log[..n], since) + if AtOrAfter(log[n], since) then [log[n]] else []
  }

  /** The first line of an ordered log that the lower bound lets through. */
  ghost predicate StartsAt(log: seq<Line>, since: Option<Timestamp>, k: nat) {
    && k <= |log|
    && (k > 0 ==> !AtOrAfter(log[k - 1], since))
    && (k < |log| ==> AtOrAfter(log[k], since))
  }

  lemma StartSplits(log: seq<Line>, since: Option<Timestamp>, k: nat)
    requires Ordered(log) && StartsAt(log, since, k)
    ensures forall i :: 0 <= i < |log| ==> (AtOrAfter(log[i], since) <==> k <= i)
  {
    OrderedPairs(log);
  }

  lemma SinceMore(log: seq<Line>, since: Option<Timestamp>, k: nat) returns (k': nat)
    requires log != []
    requires StartsAt(log[..|log| - 1], since, k) && Since(log[..|log| - 1], since) == log[..|log| - 1][k..]
    requires AtOrAfter(log[|log| - 1], since) || k == |log| - 1
    ensures StartsAt(log, since, k') && Since(log, since) == log[k'..]
  {
    var n := |log| - 1;
    var before := log[..n];
    if AtOrAfter(log[n], since) {
      assert log[k..] == before[k..] + [log[n]];
      k' := k;
    } else {
      assert before[n..] == [];
      k' := n + 1;
    }
  }

  lemma {:induction false} SinceIsSuffix(log: seq<Line>, since: Option<Timestamp>) returns (k: nat)
    requires Ordered(log)
    ensures StartsAt(log, since, k) && Since(log, since) == log[k..]
  {
    if log == [] {
      return 0;
    }
    k := SinceIsSuffix(log[..|log| - 1], since);
    if !AtOrAfter(log[|log| - 1], since) {
      NothingBefore(log, since, k);
    }
    k := SinceMore(log, since, k);
  }

  lemma NothingBefore(log: seq<Line>, since: Option<Timestamp>, k: nat)
    requires Ordered(log) && log != [] && StartsAt(log[..|log| - 1], since, k)
    requires !AtOrAfter(log[|log| - 1], since)
    ensures k == |log| - 1
  {
    OrderedPairs(log);
  }

  lemma {:induction false} SincePrefix(log: seq<Line>, longer: seq<Line>, since: Option<Timestamp>)
    requires log <= longer
    ensures Since(log, since) <= Since(longer, since)
    decreases |longer|
  {
    if log != longer {
      var n := |longer| - 1;
      assert longer[..n][..|log|] == log;
      SincePrefix(log, longer[..n], since);
    }
  }

  /**
   * One attempt to open the stream, with the container's log when it was opened and by the time the session
   * was over.
   */
  datatype Visit = Visit(open: Open, backlog: seq<Line>, log: seq<Line>)

  /** How many lines of the backlog `tail_lines` leaves out. */
  function Skipped(tailLines: Option<nat>, backlog: seq<Line>, since: Option<Timestamp>): nat {
    var n := |Since(backlog, since)|;
    if tailLines.None? || n <= tailLines.value then 0 else n - tailLines.value
  }

  function Opens(visits: seq<Visit>): seq<Open> {
    if visits == [] then [] else [visits[0].open] + Opens(visits[1..])
  }

  /** What a stream opened in this state has to hand over: the backlog the bounds let through, and what was added. */
  function Offered(s: State, visit: Visit): seq<Line> {
    var skip, lines := Skipped(s.tailLines, visit.backlog, s.since), Since(visit.log, s.since);
    if skip <= |lines| then lines[skip..] else []
  }

  /** Each session hands over an arbitrarily cut prefix of what it was opened for. */
  ghost predicate Faithful(s: State, visits: seq<Visit>)
    decreases |visits|
  {
    !s.done && visits != [] ==>
      && (visits[0].open.Opened? ==> Received(visits[0].open.items) <= Offered(s, visits[0]))
      && Faithful(AfterOpen(s, visits[0].open), visits[1..])
  }

  /** The log is only ever appended to, up to `final`. */
  ghost predicate AppendOnly(visits: seq<Visit>, final: seq<Line>) {
    && (forall i :: 0 <= i < |visits| ==> visits[i].backlog <= visits[i].log <= final)
    && (forall i, j :: 0 <= i < j < |visits| ==> visits[i].log <= visits[j].backlog)
  }

  /**
   * Between sessions: what was sent is the log from line `k` on, as far as it
   * got, and the stream will be reopened no later than where it stopped.
   */
  ghost predicate OnTrack(s: State, log: seq<Line>, k: nat) {
    && k + |s.sent| <= |log| && s.sent == log[k..k + |s.sent|]
    && Tracks(s) && s.tailLines.None? && s.failures < MAX_OPEN_FAILURES
    && (s.sent == [] ==> StartsAt(log, s.since, k))
    && (s.sent != [] ==> s.since == s.lastTs)
    && (s.sent != [] && k > 0 ==> log[k - 1].at != s.lastTs)
  }

  ghost predicate AllAt(lines: seq<Line>, at: Option<Timestamp>) {
    lines != [] ==> lines[0].at == at && AllAt(lines[1..], at)
  }

  ghost predicate NoneAt(lines: seq<Line>, at: Option<Timestamp>) {
    lines != [] ==> lines[0].at != at && NoneAt(lines[1..], at)
  }

  /** `replay` counts exactly the texts of `lines`, which all carry the reopen stamp. */
  ghost predicate Replaying(replayAt: Option<Timestamp>, replay: map<string, nat>, lines: seq<Line>) {
    && AllAt(lines, replayAt)
    && (forall text :: Count(replay, text) == Copies(lines, Line(replayAt, text)))
  }

  lemma ReplayStep(replayAt: Option<Timestamp>, replay: map<string, nat>, pending: seq<Line>)
    requires pending != [] && Replaying(replayAt, replay, pending)
    ensures Replays(replayAt, replay, pending[0])
    ensures Replaying(replayAt, replay[pending[0].text := replay[pending[0].text] - 1], pending[1..])
  {
    var first := pending[0];
    assert first == Line(replayAt, first.text);
    var replay' := replay[first.text := replay[first.text] - 1];
    forall text ensures Count(replay', text) == Copies(pending[1..], Line(replayAt, text)) {
      assert Count(replay, text) == Copies(pending, Line(replayAt, text));
    }
  }

  lemma NothingLeftToReplay(replayAt: Option<Timestamp>, replay: map<string, nat>, line: Line)
    requires Replaying(replayAt, replay, [])
    ensures !Replays(replayAt, replay, line)
  {
    assert Count(replay, line.text) == Copies([], Line(replayAt, line.text));
  }

  /** With nothing left to replay, every line is passed on until the consumer goes away. */
  lemma {:induction false} PassesAll(s: State, replayAt: Option<Timestamp>, replay: map<string, nat>, items: seq<Item>)
    requires !s.done && Replaying(replayAt, replay, [])
    ensures var s' := Deliver(s, replayAt, replay, items);
            if s'.done then s.sent <= s'.sent < s.sent + Received(items) else s'.sent == s.sent + Received(items)
    decreases |items|
  {
    if items != [] && items[0].Got? {
      var first, rest := items[0].line, items[1..];
      NothingLeftToReplay(replayAt, replay, first);
      assert s.sent + Received(items) == (s.sent + [first]) + Received(rest);
      if s.room > 0 {
        PassesAll(Send(Note(s, first), first), replayAt, replay, rest);
      }
    }
  }

  /** A session that hands over what is pending again skips it, and passes on only what comes after. */
  lemma {:induction false} SkipsPending(
    s: State, replayAt: Option<Timestamp>, replay: map<string, nat>, items: seq<Item>, pending: seq<Line>)
    requires !s.done && Replaying(replayAt, replay, pending)
    requires Received(items) <= pending || pending <= Received(items)
    ensures var s', got := Deliver(s, replayAt, replay, items), Received(items);
            if |got| <= |pending| then s'.sent == s.sent && !s'.done
            else if s'.done then s.sent <= s'.sent < s.sent + got[|pending|..]
            else s'.sent == s.sent + got[|pending|..]
    decreases |items|
  {
    if pending == [] {
      PassesAll(s, replayAt, replay, items);
    } else if items != [] && items[0].Got? {
      var first, rest := items[0].line, items[1..];
      assert Received(items)[1..] == Received(rest);
      assert first == Received(items)[0] == pending[0];
      ReplayStep(replayAt, replay, pending);
      SkipsPending(s, replayAt, replay[first.text := replay[first.text] - 1], rest, pending[1..]);
      assert |Received(items)| > |pending| ==> Received(items)[|pending|..] == Received(rest)[|pending[1..]|..];
    }
  }

  lemma {:induction false} CopiesAfter(earlier: seq<Line>, pending: seq<Line>, line: Line)
    requires NoneAt(earlier, line.at)
    ensures Copies(earlier + pending, line) == Copies(pending, line)
  {
    if earlier == [] {
      assert earlier + pending == pending;
    } else {
      CopiesAfter(earlier[1..], pending, line);
      assert (earlier + pending)[1..] == earlier[1..] + pending;
    }
  }

  lemma StartIsUnique(log: seq<Line>, since: Option<Timestamp>, j: nat, k: nat)
    requires Ordered(log) && StartsAt(log, since, j) && StartsAt(log, since, k)
    ensures j == k
  {
    StartSplits(log, since, j);
    StartSplits(log, since, k);
    assert j < |log| ==> (AtOrAfter(log[j], since) <==> k <= j);
    assert k < |log| ==> (AtOrAfter(log[k], since) <==> j <= k);
  }

  lemma StampsRise(log: seq<Line>, i: nat, j: nat)
    requires Ordered(log) && i <= j < |log|
    ensures log[i].at.Some? && log[j].at.Some? && log[i].at.value <= log[j].at.value
  {
    OrderedPairs(log);
  }

  /** Where a reopened stream starts: somewhere in what was sent, at the first line of its newest stamp. */
  lemma ReopensInside(s: State, log: seq<Line>, k: nat, from: nat)
    requires Ordered(log) && OnTrack(s, log, k) && StartsAt(log, s.since, from)
    ensures k <= from <= k + |s.sent|
  {
    if s.sent == [] {
      StartIsUnique(log, s.since, from, k);
    } else {
      LastStamp(log, k, k + |s.sent|);
      if k > 0 {
        StampsRise(log, k - 1, k + |s.sent| - 1);
      }
      StartSplits(log, s.since, from);
      assert AtOrAfter(log[k + |s.sent| - 1], s.since);
      assert k > 0 ==> !AtOrAfter(log[k - 1], s.since);
    }
  }

  lemma LastStamp(log: seq<Line>, k: nat, end: nat)
    requires Ordered(log) && k < end <= |log|
    ensures Newest(log[k..end]) == log[end - 1].at && log[end - 1].at.Some?
  {
    OrderedSlice(log, k, end);
    OrderedPairs(log[k..end]);
  }

  /** The boundary memory is exactly what a reopened stream will hand over again. */
  lemma ReopensReplaying(s: State, log: seq<Line>, k: nat, from: nat, end: nat)
    requires Ordered(log) && Tracks(s) && k <= from <= end <= |log| && s.sent == log[k..end]
    requires k < end ==> StartsAt(log, s.lastTs, from)
    ensures Replaying(s.lastTs, s.boundary, log[from..end])
  {
    if k == end {
      assert log[from..end] == [];
    } else {
      LastStamp(log, k, end);
      StampsApart(log, k, from, end, s.lastTs);
      SliceSplits(log, k, from, end);
      BoundaryCounts(s, log[k..from], log[from..end]);
    }
  }

  lemma DropOfSlice(log: seq<Line>, from: nat, end: nat, to: nat)
    requires from <= end <= to <= |log|
    ensures log[from..to][end - from..] == log[end..to]
  {
  }

  lemma SliceSplits(log: seq<Line>, k: nat, from: nat, end: nat)
    requires k <= from <= end <= |log|
    ensures log[k..end] == log[k..from] + log[from..end]
  {
  }

  lemma StampsApart(log: seq<Line>, k: nat, from: nat, end: nat, at: Option<Timestamp>)
    requires Ordered(log) && k <= from <= end <= |log| && k < end && StartsAt(log, at, from)
    requires at.Some? && log[end - 1].at == at
    ensures NoneAt(log[k..from], at) && AllAt(log[from..end], at)
  {
    PendingAtStamp(log, from, end, at);
    EarlierBefore(log, k, from, at);
  }

  lemma BoundaryCounts(s: State, earlier: seq<Line>, pending: seq<Line>)
    requires Tracks(s) && s.lastTs.Some? && s.sent == earlier + pending
    requires NoneAt(earlier, s.lastTs) && AllAt(pending, s.lastTs)
    ensures Replaying(s.lastTs, s.boundary, pending)
  {
    forall text ensures Count(s.boundary, text) == Copies(pending, Line(s.lastTs, text)) {
      CopiesAfter(earlier, pending, Line(s.lastTs, text));
    }
  }

  lemma {:induction false} PendingAtStamp(log: seq<Line>, from: nat, end: nat, since: Option<Timestamp>)
    requires Ordered(log) && from <= end <= |log| && since.Some?
    requires from < end ==> AtOrAfter(log[from], since)
    requires from < end ==> log[end - 1].at == since
    ensures AllAt(log[from..end], since)
    decreases end - from
  {
    if from < end {
      OrderedPairs(log);
      PendingAtStamp(log, from + 1, end, since);
      assert log[from..end][1..] == log[from + 1..end];
    }
  }

  lemma {:induction false} EarlierBefore(log: seq<Line>, k: nat, from: nat, since: Option<Timestamp>)
    requires k <= from && Ordered(log) && StartsAt(log, since, from)
    ensures NoneAt(log[k..from], since)
    decreases from - k
  {
    if k < from {
      StartSplits(log, since, from);
      assert !AtOrAfter(log[k], since);
      EarlierBefore(log, k + 1, from, since);
      assert log[k..from][1..] == log[k + 1..from];
    }
  }

  /** A session opened on a task that has sent `log[k..end]`, and handed `log[from..to]`. */
  lemma SessionOutcome(s: State, items: seq<Item>, log: seq<Line>, k: nat, from: nat, end: nat, to: nat)
    requires !s.done && k <= from <= end <= |log| && s.sent == log[k..end]
    requires Replaying(s.lastTs, s.boundary, log[from..end])
    requires from <= to <= |log| && Received(items) == log[from..to]
    ensures var s', reach := Deliver(s, s.lastTs, s.boundary, items), Max(end, to);
            if s'.done then s.sent <= s'.sent && s'.sent < log[k..reach] else s'.sent == log[k..reach]
  {
    SkipsPending(s, s.lastTs, s.boundary, items, log[from..end]);
    if to > end {
      DropOfSlice(log, from, end, to);
      SliceSplits(log, k, end, to);
    }
  }

  /** The line before the track is strictly older than whatever is sent last. */
  lemma BeforeTrack(s: State, log: seq<Line>, k: nat, end: nat)
    requires Ordered(log) && OnTrack(s, log, k) && 0 < k < end <= |log| && k + |s.sent| <= end
    ensures log[k - 1].at != log[end - 1].at
  {
    OrderedPairs(log);
    if s.sent == [] {
      assert !AtOrAfter(log[k - 1], s.since) && AtOrAfter(log[end - 1], s.since);
    } else {
      LastStamp(log, k, k + |s.sent|);
    }
  }

  /** What the server holds for a reopened stream, and how it overlaps what was sent. */
  lemma Reopens(s: State, log: seq<Line>, k: nat) returns (from: nat, end: nat)
    requires Ordered(log) && OnTrack(s, log, k)
    ensures k <= from <= end == k + |s.sent| <= |log| && Since(log, s.since) == log[from..]
    ensures s.sent == log[k..end]
    ensures Replaying(s.lastTs, s.boundary, log[from..end])
  {
    end := k + |s.sent|;
    from := SinceIsSuffix(log, s.since);
    ReopensInside(s, log, k, from);
    ReopensReplaying(s, log, k, from, end);
  }

  /** How far a session brings a task that has sent `log[k..end]`. */
  lemma SessionReach(s: State, items: seq<Item>, log: seq<Line>, k: nat, from: nat, end: nat) returns (reach: nat)
    requires !s.done && k <= from <= end <= |log| && s.sent == log[k..end]
    requires Replaying(s.lastTs, s.boundary, log[from..end]) && Received(items) <= log[from..]
    ensures end <= reach <= |log| && (Received(items) == log[from..] ==> reach == |log|)
    ensures s.sent <= AfterOpen(s, Opened(items)).sent <= log[k..]
    ensures !AfterOpen(s, Opened(items)).done ==> AfterOpen(s, Opened(items)).sent == log[k..reach]
  {
    var to := from + |Received(items)|;
    PrefixOfSuffix(Received(items), log, from);
    SessionOutcome(s.(failures := 0), items, log, k, from, end, to);
    reach := Max(end, to);
    assert log[k..][..reach - k] == log[k..reach];
  }

  /** A session that ended the tail has not sent all of it. */
  lemma SessionShort(s: State, items: seq<Item>, log: seq<Line>, k: nat, from: nat, end: nat)
    requires !s.done && k <= from <= end <= |log| && s.sent == log[k..end]
    requires Replaying(s.lastTs, s.boundary, log[from..end]) && Received(items) <= log[from..]
    ensures AfterOpen(s, Opened(items)).done ==> |AfterOpen(s, Opened(items)).sent| < |log| - k
  {
    PrefixOfSuffix(Received(items), log, from);
    SessionOutcome(s.(failures := 0), items, log, k, from, end, from + |Received(items)|);
  }

  lemma PrefixOfSuffix(a: seq<Line>, log: seq<Line>, from: nat)
    requires from <= |log| && a <= log[from..]
    ensures a == log[from..from + |a|]
  {
  }

  /** A session that ended on its own leaves a task that is still on track. */
  lemma StaysOnTrack(s: State, s': State, log: seq<Line>, k: nat, reach: nat)
    requires Ordered(log) && OnTrack(s, log, k) && Tracks(s')
    requires k + |s.sent| <= reach <= |log| && s'.sent == log[k..reach]
    requires s'.tailLines.None? && s'.failures < MAX_OPEN_FAILURES
    requires s'.since == if s'.lastTs.Some? then s'.lastTs else s.since
    ensures OnTrack(s', log, k)
  {
    if k < reach {
      LastStamp(log, k, reach);
      if k > 0 {
        BeforeTrack(s, log, k, reach);
      }
    }
  }

  /** A session sends a little more of the track, wherever it is cut, and leaves the tail on it. */
  lemma SessionKeepsTrack(s: State, items: seq<Item>, log: seq<Line>, k: nat)
    requires Ordered(log) && OnTrack(s, log, k) && !s.done
    requires Received(items) <= Since(log, s.since)
    ensures AfterOpen(s, Opened(items)).sent <= log[k..]
    ensures !AfterOpen(s, Opened(items)).done ==> OnTrack(AfterOpen(s, Opened(items)), log, k)
  {
    var from, end := Reopens(s, log, k);
    var reach := SessionReach(s, items, log, k, from, end);
    var s' := AfterOpen(s, Opened(items));
    if !s'.done {
      OpenedTracks(s, items);
      StaysOnTrack(s, s', log, k, reach);
    }
  }

  /** A session that is not cut sends all of it. */
  lemma UncutSessionSendsAll(s: State, items: seq<Item>, log: seq<Line>, k: nat)
    requires Ordered(log) && OnTrack(s, log, k) && !s.done
    requires Received(items) == Since(log, s.since)
    ensures !AfterOpen(s, Opened(items)).done ==> AfterOpen(s, Opened(items)).sent == log[k..]
    ensures AfterOpen(s, Opened(items)).done ==> |AfterOpen(s, Opened(items)).sent| < |log| - k
  {
    var from, end := Reopens(s, log, k);
    UncutReach(s, items, log, k, from, end);
  }

  lemma UncutReach(s: State, items: seq<Item>, log: seq<Line>, k: nat, from: nat, end: nat)
    requires !s.done && k <= from <= end <= |log| && s.sent == log[k..end]
    requires Replaying(s.lastTs, s.boundary, log[from..end]) && Received(items) == log[from..]
    ensures !AfterOpen(s, Opened(items)).done ==> AfterOpen(s, Opened(items)).sent == log[k..]
    ensures AfterOpen(s, Opened(items)).done ==> |AfterOpen(s, Opened(items)).sent| < |log| - k
  {
    var reach := SessionReach(s, items, log, k, from, end);
    SessionShort(s, items, log, k, from, end);
  }

  /** What opening a stream leaves besides the lines sent. */
  lemma OpenedTracks(s: State, items: seq<Item>)
    requires Tracks(s) && !AfterOpen(s, Opened(items)).done
    ensures var s' := AfterOpen(s, Opened(items));
            && Tracks(s') && s'.tailLines.None? && s'.failures == 0
            && s'.since == if s'.lastTs.Some? then s'.lastTs else s.since
  {
    DeliverTracks(s.(failures := 0), s.lastTs, s.boundary, items);
    DeliverKeeps(s.(failures := 0), s.lastTs, s.boundary, items);
  }

  lemma {:induction false} DeliverKeeps(s: State, replayAt: Option<Timestamp>, replay: map<string, nat>,
    items: seq<Item>)
    ensures var s' := Deliver(s, replayAt, replay, items); s'.since == s.since && s'.failures == s.failures
    decreases |items|
  {
    if !(s.done || items == [] || items[0].Broken?) {
      var line := items[0].line;
      if Replays(replayAt, replay, line) {
        DeliverKeeps(s, replayAt, replay[line.text := replay[line.text] - 1], items[1..]);
      } else {
        DeliverKeeps(Send(Note(s, line), line), replayAt, replay, items[1..]);
      }
    }
  }

  /** The lines delivered are a prefix of `target`; a task that gave up has said so in one more line. */
  ghost predicate DeliversPrefix(s: State, target: seq<Line>) {
    || s.sent <= target
    || (s.done && s.failures == MAX_OPEN_FAILURES && s.sent != [] && s.sent[|s.sent| - 1].at.None?
        && s.sent[..|s.sent| - 1] <= target)
  }

  lemma SliceIsPrefix(log: seq<Line>, k: nat, n: nat)
    requires k + n <= |log|
    ensures log[k..k + n] <= log[k..]
  {
  }

  lemma GivesUp(s: State, error: string, target: seq<Line>)
    requires s.sent <= target && !s.done && s.failures < MAX_OPEN_FAILURES && AfterOpen(s, Failed(error)).done
    ensures DeliversPrefix(AfterOpen(s, Failed(error)), target)
  {
    var s' := AfterOpen(s, Failed(error));
    if s.room > 0 {
      assert s'.sent == s.sent + [FailureLine(error)];
      assert s'.sent[..|s'.sent| - 1] == s.sent;
    }
  }

  lemma FailedKeepsTrack(s: State, error: string, log: seq<Line>, k: nat)
    requires OnTrack(s, log, k) && !s.done
    ensures var s' := AfterOpen(s, Failed(error));
            if s'.done then DeliversPrefix(s', log[k..]) else OnTrack(s', log, k)
  {
    if AfterOpen(s, Failed(error)).done {
      SliceIsPrefix(log, k, |s.sent|);
      GivesUp(s, error, log[k..]);
    }
  }

  lemma {:induction false} RunKeepsTrack(s: State, visits: seq<Visit>, final: seq<Line>, k: nat)
    requires Ordered(final) && OnTrack(s, final, k) && !s.done
    requires AppendOnly(visits, final) && Faithful(s, visits)
    ensures var end := Run(s, Opens(visits));
            DeliversPrefix(end, final[k..]) && (!end.done ==> OnTrack(end, final, k))
    decreases |visits|
  {
    if visits != [] {
      var s1 := AfterOpen(s, visits[0].open);
      assert Opens(visits)[0] == visits[0].open && Opens(visits)[1..] == Opens(visits[1..]);
      assert Run(s, Opens(visits)) == Run(s1, Opens(visits[1..]));
      if visits[0].open.Opened? {
        SincePrefix(visits[0].log, final, s.since);
        assert Offered(s, visits[0]) == Since(visits[0].log, s.since);
        SessionKeepsTrack(s, visits[0].open.items, final, k);
      } else {
        FailedKeepsTrack(s, visits[0].open.error, final, k);
      }
      if !s1.done {
        RunKeepsTrack(s1, visits[1..], final, k);
      }
    }
  }

  /**
   * Exactly once, in order: whatever sessions are cut and whatever opens fail,
   * the lines sent are a prefix of the log from the bound on.
   */
  lemma ExactlyOnce(since: Option<Timestamp>, room: nat, visits: seq<Visit>, final: seq<Line>)
    requires Ordered(final) && AppendOnly(visits, final)
    requires Faithful(Start(since, None, room), visits)
    ensures DeliversPrefix(Run(Start(since, None, room), Opens(visits)), Since(final, since))
  {
    var k := SinceIsSuffix(final, since);
    RunKeepsTrack(Start(since, None, room), visits, final, k);
  }

  lemma {:induction false} RunAppend(s: State, script: seq<Open>, open: Open)
    ensures var mid := Run(s, script);
            Run(s, script + [open]) == if mid.done then mid else AfterOpen(mid, open)
    decreases |script|
  {
    if script == [] {
      assert script + [open] == [open];
    } else if !s.done {
      assert (script + [open])[1..] == script[1..] + [open];
      RunAppend(AfterOpen(s, script[0]), script[1..], open);
    }
  }

  /** What is sent is taken off the consumer's room, and a session ends the tail only when none is left. */
  lemma {:induction false} DeliverFills(s: State, replayAt: Option<Timestamp>, replay: map<string, nat>,
    items: seq<Item>)
    requires !s.done
    ensures var s' := Deliver(s, replayAt, replay, items);
            |s'.sent| + s'.room == |s.sent| + s.room && (s'.done ==> s'.room == 0)
    decreases |items|
  {
    if items != [] && items[0].Got? {
      var line := items[0].line;
      if Replays(replayAt, replay, line) {
        DeliverFills(s, replayAt, replay[line.text := replay[line.text] - 1], items[1..]);
      } else if s.room > 0 {
        DeliverFills(Send(Note(s, line), line), replayAt, replay, items[1..]);
      }
    }
  }

  lemma {:induction false} RunFills(s: State, script: seq<Open>)
    requires !s.done
    ensures !Run(s, script).done ==> |Run(s, script).sent| + Run(s, script).room == |s.sent| + s.room
    decreases |script|
  {
    if script != [] {
      var s1 := AfterOpen(s, script[0]);
      if script[0].Opened? {
        DeliverFills(s.(failures := 0), s.lastTs, s.boundary, script[0].items);
      }
      if !s1.done {
        RunFills(s1, script[1..]);
      }
    }
  }

  /** Where a run that goes on stands in the final log. */
  lemma RunOnTrack(since: Option<Timestamp>, room: nat, visits: seq<Visit>, final: seq<Line>)
    returns (k: nat, mid: State, target: seq<Line>)
    requires Ordered(final) && AppendOnly(visits, final)
    requires Faithful(Start(since, None, room), visits)
    ensures mid == Run(Start(since, None, room), Opens(visits)) && target == Since(final, since)
    ensures k <= |final| && target == final[k..]
    ensures !mid.done ==> OnTrack(mid, final, k) && |mid.sent| + mid.room == room
  {
    k := SinceIsSuffix(final, since);
    RunKeepsTrack(Start(since, None, room), visits, final, k);
    RunFills(Start(since, None, room), Opens(visits));
    mid, target := Run(Start(since, None, room), Opens(visits)), Since(final, since);
  }

  lemma UncutSessionEnds(mid: State, items: seq<Item>, final: seq<Line>, k: nat, room: nat, target: seq<Line>)
    requires Ordered(final) && OnTrack(mid, final, k) && !mid.done && |mid.sent| + mid.room == room
    requires Received(items) == Since(final, mid.since) && k <= |final| && target == final[k..]
    ensures var end := AfterOpen(mid, Opened(items));
            if |target| > room then end.done else !end.done && end.sent == target
  {
    UncutSessionSendsAll(mid, items, final, k);
    DeliverFills(mid.(failures := 0), mid.lastTs, mid.boundary, items);
  }

  /** An uncut session, after any such run, brings the consumer the whole of it if it takes that many lines. */
  lemma UncutSessionCatchesUp(since: Option<Timestamp>, room: nat, visits: seq<Visit>, final: seq<Line>,
    items: seq<Item>)
    requires Ordered(final) && AppendOnly(visits, final)
    requires Faithful(Start(since, None, room), visits)
    requires var mid := Run(Start(since, None, room), Opens(visits));
             !mid.done && Received(items) == Since(final, mid.since)
    ensures var end := Run(Start(since, None, room), Opens(visits) + [Opened(items)]);
            if |Since(final, since)| > room then end.done else !end.done && end.sent == Since(final, since)
  {
    var k, mid, target := RunOnTrack(since, room, visits, final);
    RunAppend(Start(since, None, room), Opens(visits), Opened(items));
    UncutSessionEnds(mid, items, final, k, room, target);
  }

  // ---- with a bounded backlog ----------------------------------------------

  lemma DropDrop(log: seq<Line>, k: nat, skip: nat)
    requires k + skip <= |log|
    ensures log[k..][skip..] == log[k + skip..]
  {
  }

  /** What the bounds let through is a piece of the final log that starts where they cut it off. */
  lemma BoundInLog(visit: Visit, final: seq<Line>, since: Option<Timestamp>, k: nat, tailLines: Option<nat>)
    requires Ordered(final) && StartsAt(final, since, k) && visit.backlog <= visit.log <= final
    ensures Skipped(tailLines, visit.backlog, since) <= |Since(visit.log, since)|
    ensures Since(final, since) == final[k..] && Since(visit.log, since) <= final[k..]
  {
    SincePrefix(visit.backlog, visit.log, since);
    SincePrefix(visit.log, final, since);
    var j := SinceIsSuffix(final, since);
    StartIsUnique(final, since, j, k);
  }

  /** A task whose first session handed over `lines` and then ended. */
  ghost predicate SentFirst(s: State, since: Option<Timestamp>, lines: seq<Line>) {
    && Tracks(s) && s.sent == lines && s.tailLines.None? && s.failures == 0
    && s.since == if s.lastTs.Some? then s.lastTs else since
  }

  lemma FirstSession(since: Option<Timestamp>, tailLines: Option<nat>, room: nat, items: seq<Item>)
    ensures var s1 := AfterOpen(Start(since, tailLines, room), Opened(items));
            !s1.done ==> SentFirst(s1, since, Received(items))
  {
    var s0 := Start(since, tailLines, room);
    PassesAll(s0, None, map[], items);
    if !AfterOpen(s0, Opened(items)).done {
      OpenedTracks(s0, items);
    }
  }

  /**
   * What the first session must avoid when the bound lets lines through from
   * `k` on and the backlog began at `cut`: handing over nothing at all when
   * lines were left out, or ending on the stamp of the last line left out.
   */
  predicate CleanCut(log: seq<Line>, k: nat, cut: nat, got: nat)
    requires k <= cut && cut + got <= |log|
  {
    cut == k || (got > 0 && log[cut - 1].at != log[cut + got - 1].at)
  }

  /** After a clean start the run is on the track that begins where the backlog was cut off. */
  lemma CleanStartIsOnTrack(s1: State, since: Option<Timestamp>, final: seq<Line>, k: nat, cut: nat, lines: seq<Line>)
    requires Ordered(final) && StartsAt(final, since, k) && k <= cut && cut + |lines| <= |final|
    requires SentFirst(s1, since, lines) && lines == final[cut..cut + |lines|]
    requires CleanCut(final, k, cut, |lines|)
    ensures OnTrack(s1, final, cut)
  {
    if lines != [] {
      LastStamp(final, cut, cut + |lines|);
      CleanCutIsOlder(final, since, k, cut, |lines|);
    }
  }

  lemma CleanCutIsOlder(final: seq<Line>, since: Option<Timestamp>, k: nat, cut: nat, got: nat)
    requires Ordered(final) && StartsAt(final, since, k) && k <= cut && cut + got <= |final|
    requires CleanCut(final, k, cut, got) && got > 0
    ensures cut > 0 ==> final[cut - 1].at != final[cut + got - 1].at
  {
    if cut == k && k > 0 {
      StartBefore(final, since, k, k + got);
    }
  }

  lemma StartBefore(log: seq<Line>, since: Option<Timestamp>, k: nat, end: nat)
    requires Ordered(log) && StartsAt(log, since, k) && 0 < k < end <= |log|
    ensures log[k - 1].at != log[end - 1].at
  {
    StartSplits(log, since, k);
    assert !AtOrAfter(log[k - 1], since) && AtOrAfter(log[end - 1], since);
  }

  lemma TailRun(s1: State, since: Option<Timestamp>, visits: seq<Visit>, final: seq<Line>, k: nat, cut: nat,
    lines: seq<Line>)
    requires Ordered(final) && StartsAt(final, since, k) && k <= cut && cut + |lines| <= |final|
    requires SentFirst(s1, since, lines) && lines == final[cut..cut + |lines|] && CleanCut(final, k, cut, |lines|)
    requires AppendOnly(visits, final) && !s1.done && Faithful(s1, visits)
    ensures DeliversPrefix(Run(s1, Opens(visits)), final[cut..])
  {
    CleanStartIsOnTrack(s1, since, final, k, cut, lines);
    RunKeepsTrack(s1, visits, final, cut);
  }

  lemma FewerCopiesShorter(a: seq<Line>, b: seq<Line>)
    requires forall line :: Copies(a, line) <= Copies(b, line)
    ensures |a| <= |b|
  {
    forall line ensures multiset(a)[line] <= multiset(b)[line] {
      CopiesCount(a, line);
      CopiesCount(b, line);
    }
    assert multiset(b) == multiset(a) + (multiset(b) - multiset(a));
  }

  /** A session never ends with fewer lines sent than it received. */
  lemma SendsNoFewer(s: State, items: seq<Item>)
    requires Tracks(s) && !AfterOpen(s, Opened(items)).done
    ensures |AfterOpen(s, Opened(items)).sent| >= |Received(items)|
  {
    var s', got := AfterOpen(s, Opened(items)), Received(items);
    forall line ensures Copies(got, line) <= Copies(s'.sent, line) {
      SessionCounts(s, items, line);
    }
    FewerCopiesShorter(got, s'.sent);
  }

  /** Reopened after an unclean start, the stream begins with lines the bound had left out. */
  lemma UncleanReopensEarlier(s1: State, final: seq<Line>, since: Option<Timestamp>, k: nat, cut: nat, lines: seq<Line>)
    requires Ordered(final) && StartsAt(final, since, k) && k <= cut && cut + |lines| <= |final|
    requires SentFirst(s1, since, lines) && lines == final[cut..cut + |lines|]
    requires !CleanCut(final, k, cut, |lines|)
    ensures |Since(final, s1.since)| > |final| - cut
  {
    var got := |lines|;
    if got > 0 {
      LastStamp(final, cut, cut + got);
    } else {
      StartSplits(final, since, k);
    }
    SinceIncludes(final, s1.since, cut - 1);
  }

  lemma SinceIncludes(log: seq<Line>, since: Option<Timestamp>, i: nat)
    requires Ordered(log) && i < |log| && AtOrAfter(log[i], since)
    ensures |Since(log, since)| >= |log| - i
  {
    var from := SinceIsSuffix(log, since);
    StartSplits(log, since, from);
  }

  // ---- after failed opens --------------------------------------------------------

  ghost predicate AllFailed(visits: seq<Visit>, n: nat)
    requires n <= |visits|
  {
    forall i :: 0 <= i < n ==> visits[i].open.Failed?
  }

  /** Fewer failed opens than the limit leave nothing behind but their number. */
  lemma {:induction false} FailuresPass(s: State, visits: seq<Visit>, n: nat)
    requires n <= |visits| && AllFailed(visits, n) && !s.done && s.failures + n < MAX_OPEN_FAILURES
    ensures Run(s, Opens(visits)) == Run(s.(failures := s.failures + n), Opens(visits[n..]))
    ensures Faithful(s, visits) ==> Faithful(s.(failures := s.failures + n), visits[n..])
    decreases n
  {
    if n == 0 {
      assert visits[0..] == visits;
    } else {
      assert visits[0].open.Failed?;
      var s1 := AfterOpen(s, visits[0].open);
      assert s1 == s.(failures := s.failures + 1);
      assert Opens(visits)[1..] == Opens(visits[1..]);
      FailuresPass(s1, visits[1..], n - 1);
      assert visits[1..][n - 1..] == visits[n..];
    }
  }

  /** A stream that opens forgets the failures before it. */
  lemma OpenedForgets(s: State, n: nat, items: seq<Item>)
    ensures AfterOpen(s.(failures := n), Opened(items)) == AfterOpen(s, Opened(items))
  {
  }

  /** The first stream to open, after `n` failures. */
  ghost predicate OpensFirst(visits: seq<Visit>, n: nat) {
    n < |visits| && n < MAX_OPEN_FAILURES && AllFailed(visits, n) && visits[n].open.Opened?
  }

  /**
   * What a stream must avoid when `skip` lines are left out: handing over none, or ending on the stamp of
   * the last line left out.
   */
  predicate Clean(lines: seq<Line>, skip: nat, got: nat) {
    skip == 0 || (got > 0 && skip + got <= |lines| && lines[skip - 1].at != lines[skip + got - 1].at)
  }

  ghost predicate CleanStart(visit: Visit, since: Option<Timestamp>, tailLines: Option<nat>)
    requires visit.open.Opened?
  {
    Clean(Since(visit.log, since), Skipped(tailLines, visit.backlog, since), |Received(visit.open.items)|)
  }

  /** After the failures the run goes on from the first stream as if it were the first visit. */
  lemma FirstStream(since: Option<Timestamp>, tailLines: Option<nat>, room: nat, visits: seq<Visit>, n: nat)
    returns (s1: State)
    requires OpensFirst(visits, n) && Faithful(Start(since, tailLines, room), visits)
    ensures s1 == AfterOpen(Start(since, tailLines, room), visits[n].open)
    ensures Run(Start(since, tailLines, room), Opens(visits)) == Run(s1, Opens(visits[n + 1..]))
    ensures Faithful(s1, visits[n + 1..])
    ensures Received(visits[n].open.items) <= Offered(Start(since, tailLines, room), visits[n])
  {
    var s0 := Start(since, tailLines, room);
    FailuresPass(s0, visits, n);
    OpenedForgets(s0, n, visits[n].open.items);
    s1 := AfterOpen(s0, visits[n].open);
    var rest := visits[n..];
    assert rest[0] == visits[n] && rest[1..] == visits[n + 1..];
    assert Opens(rest)[1..] == Opens(rest[1..]);
  }

  /** Lines from a piece of the final log: where they stand in it, and whether they start cleanly there. */
  lemma PlaceLines(lines: seq<Line>, final: seq<Line>, k: nat, skip: nat, got: seq<Line>)
    requires k <= |final| && lines <= final[k..] && skip <= |lines| && got <= lines[skip..]
    ensures k + skip + |got| <= |final| && got == final[k + skip..k + skip + |got|]
    ensures CleanCut(final, k, k + skip, |got|) <==> Clean(lines, skip, |got|)
  {
    assert forall i :: 0 <= i < |lines| ==> lines[i] == final[k..][i];
    assert forall i :: 0 <= i < |got| ==> got[i] == lines[skip..][i];
  }

  /** The first stream's lines are the piece of the final log at `cut`, cleanly or not. */
  ghost predicate PlacedAt(final: seq<Line>, since: Option<Timestamp>, k: nat, cut: nat, got: seq<Line>, clean: bool) {
    && StartsAt(final, since, k) && k <= cut && cut + |got| <= |final| && got == final[cut..cut + |got|]
    && (clean <==> CleanCut(final, k, cut, |got|))
  }

  lemma OfferedFirst(visit: Visit, since: Option<Timestamp>, tailLines: Option<nat>, room: nat)
    requires Skipped(tailLines, visit.backlog, since) <= |Since(visit.log, since)|
    ensures Offered(Start(since, tailLines, room), visit) ==
        Since(visit.log, since)[Skipped(tailLines, visit.backlog, since)..]
  {
  }

  lemma PlacePiece(lines: seq<Line>, final: seq<Line>, since: Option<Timestamp>, k: nat, skip: nat, got: seq<Line>,
    clean: bool)
    requires StartsAt(final, since, k) && lines <= final[k..] && skip <= |lines| && got <= lines[skip..]
    requires clean <==> Clean(lines, skip, |got|)
    ensures PlacedAt(final, since, k, k + skip, got, clean)
  {
    PlaceLines(lines, final, k, skip, got);
  }

  lemma CutsOff(final: seq<Line>, since: Option<Timestamp>, k: nat, skip: nat)
    requires k + skip <= |final| && Since(final, since) == final[k..]
    ensures CutAt(final, since, skip, k + skip)
  {
    DropDrop(final, k, skip);
  }

  lemma PlaceAt(lines: seq<Line>, final: seq<Line>, since: Option<Timestamp>, k: nat, skip: nat, got: seq<Line>)
    returns (cut: nat, clean: bool)
    requires StartsAt(final, since, k) && Since(final, since) == final[k..]
    requires lines <= final[k..] && skip <= |lines| && got <= lines[skip..]
    ensures PlacedAt(final, since, k, cut, got, clean) && CutAt(final, since, skip, cut)
    ensures clean <==> Clean(lines, skip, |got|)
  {
    cut, clean := k + skip, Clean(lines, skip, |got|);
    PlacePiece(lines, final, since, k, skip, got, clean);
    CutsOff(final, since, k, skip);
  }

  lemma PlaceOffered(visit: Visit, since: Option<Timestamp>, tailLines: Option<nat>, room: nat, final: seq<Line>,
    k: nat)
    returns (cut: nat, clean: bool)
    requires StartsAt(final, since, k) && visit.open.Opened? && Since(final, since) == final[k..]
    requires Since(visit.log, since) <= final[k..]
    requires Skipped(tailLines, visit.backlog, since) <= |Since(visit.log, since)|
    requires Received(visit.open.items) <= Offered(Start(since, tailLines, room), visit)
    ensures PlacedAt(final, since, k, cut, Received(visit.open.items), clean)
    ensures clean <==> CleanStart(visit, since, tailLines)
    ensures CutAt(final, since, Skipped(tailLines, visit.backlog, since), cut)
  {
    var lines, skip := Since(visit.log, since), Skipped(tailLines, visit.backlog, since);
    OfferedFirst(visit, since, tailLines, room);
    cut, clean := PlaceAt(lines, final, since, k, skip, Received(visit.open.items));
  }

  lemma PlaceFirst(visit: Visit, since: Option<Timestamp>, tailLines: Option<nat>, room: nat, final: seq<Line>)
    returns (k: nat, cut: nat, clean: bool)
    requires Ordered(final) && visit.backlog <= visit.log <= final && visit.open.Opened?
    requires Received(visit.open.items) <= Offered(Start(since, tailLines, room), visit)
    ensures PlacedAt(final, since, k, cut, Received(visit.open.items), clean)
    ensures clean <==> CleanStart(visit, since, tailLines)
    ensures CutAt(final, since, Skipped(tailLines, visit.backlog, since), cut)
  {
    k := SinceIsSuffix(final, since);
    BoundInLog(visit, final, since, k, tailLines);
    cut, clean := PlaceOffered(visit, since, tailLines, room, final, k);
  }

  /** A first stream the consumer did not outlast has sent a prefix of its lines. */
  lemma FirstStreamDone(since: Option<Timestamp>, tailLines: Option<nat>, room: nat, items: seq<Item>,
    target: seq<Line>)
    requires AfterOpen(Start(since, tailLines, room), Opened(items)).done && Received(items) <= target
    ensures AfterOpen(Start(since, tailLines, room), Opened(items)).sent <= target
  {
    PassesAll(Start(since, tailLines, room), None, map[], items);
  }

  lemma LaterVisits(visits: seq<Visit>, n: nat, final: seq<Line>)
    requires AppendOnly(visits, final) && n < |visits|
    ensures visits[n].backlog <= visits[n].log <= final && AppendOnly(visits[n + 1..], final)
  {
  }

  /** The final log from line `cut` on is what the bound lets through without its first `skip` lines. */
  ghost predicate CutAt(final: seq<Line>, since: Option<Timestamp>, skip: nat, cut: nat) {
    skip <= |Since(final, since)| && cut <= |final| && Since(final, since)[skip..] == final[cut..]
  }

  lemma FromPlaced(since: Option<Timestamp>, tailLines: Option<nat>, room: nat, items: seq<Item>, later: seq<Visit>,
    s1: State,
    final: seq<Line>, k: nat, cut: nat, clean: bool)
    requires Ordered(final) && PlacedAt(final, since, k, cut, Received(items), clean) && clean
    requires s1 == AfterOpen(Start(since, tailLines, room), Opened(items)) && Faithful(s1, later)
    requires AppendOnly(later, final)
    ensures DeliversPrefix(Run(s1, Opens(later)), final[cut..])
  {
    if s1.done {
      SliceIsPrefix(final, cut, |Received(items)|);
      FirstStreamDone(since, tailLines, room, items, final[cut..]);
    } else {
      FirstSession(since, tailLines, room, items);
      TailRun(s1, since, later, final, k, cut, Received(items));
    }
  }

  lemma FromFirstStream(since: Option<Timestamp>, tailLines: Option<nat>, room: nat, visit: Visit, later: seq<Visit>,
    s1: State, final: seq<Line>) returns (cut: nat)
    requires Ordered(final) && visit.backlog <= visit.log <= final && visit.open.Opened?
    requires CleanStart(visit, since, tailLines)
    requires Received(visit.open.items) <= Offered(Start(since, tailLines, room), visit)
    requires s1 == AfterOpen(Start(since, tailLines, room), visit.open) && Faithful(s1, later)
    requires AppendOnly(later, final)
    ensures CutAt(final, since, Skipped(tailLines, visit.backlog, since), cut)
    ensures DeliversPrefix(Run(s1, Opens(later)), final[cut..])
  {
    var k, clean;
    k, cut, clean := PlaceFirst(visit, since, tailLines, room, final);
    FromPlaced(since, tailLines, room, visit.open.items, later, s1, final, k, cut, clean);
  }

  /**
   * With a bounded first backlog: after any number of failed opens short of giving up, a clean start,
   * and any sessions cut anywhere and opens failing after it, the lines sent are a prefix of the log
   * from where the backlog was cut off.
   */
  lemma TailLinesOnce(since: Option<Timestamp>, tailLines: Option<nat>, room: nat, visits: seq<Visit>, n: nat,
    final: seq<Line>)
    requires Ordered(final) && AppendOnly(visits, final) && Faithful(Start(since, tailLines, room), visits)
    requires OpensFirst(visits, n) && CleanStart(visits[n], since, tailLines)
    ensures var skip := Skipped(tailLines, visits[n].backlog, since);
            && skip <= |Since(final, since)|
            && DeliversPrefix(Run(Start(since, tailLines, room), Opens(visits)), Since(final, since)[skip..])
  {
    var s1 := FirstStream(since, tailLines, room, visits, n);
    LaterVisits(visits, n, final);
    var cut := FromFirstStream(since, tailLines, room, visits[n], visits[n + 1..], s1, final);
  }

  lemma SecondPlaced(since: Option<Timestamp>, tailLines: Option<nat>, room: nat, items: seq<Item>, second: seq<Item>,
    s1: State,
    final: seq<Line>, k: nat, cut: nat, clean: bool)
    requires Ordered(final) && PlacedAt(final, since, k, cut, Received(items), clean)
    requires s1 == AfterOpen(Start(since, tailLines, room), Opened(items)) && !s1.done
    requires Received(second) == Since(final, s1.since) && !AfterOpen(s1, Opened(second)).done
    ensures AfterOpen(s1, Opened(second)).sent == final[cut..] <==> clean
  {
    FirstSession(since, tailLines, room, items);
    SecondSession(s1, since, second, final, k, cut, Received(items));
  }

  lemma SameTarget(sent: seq<Line>, final: seq<Line>, since: Option<Timestamp>, skip: nat, cut: nat)
    requires CutAt(final, since, skip, cut)
    ensures skip <= |Since(final, since)| && (sent == Since(final, since)[skip..] <==> sent == final[cut..])
  {
  }

  /** The two streams, without what failed before them. */
  lemma TwoStreams(since: Option<Timestamp>, tailLines: Option<nat>, room: nat, visit: Visit, second: seq<Item>,
    s1: State,
    final: seq<Line>)
    requires Ordered(final) && visit.backlog <= visit.log <= final && visit.open.Opened?
    requires Received(visit.open.items) <= Offered(Start(since, tailLines, room), visit)
    requires s1 == AfterOpen(Start(since, tailLines, room), visit.open) && !s1.done
    requires Received(second) == Since(final, s1.since) && !AfterOpen(s1, Opened(second)).done
    ensures var skip := Skipped(tailLines, visit.backlog, since);
            && skip <= |Since(final, since)|
            && (AfterOpen(s1, Opened(second)).sent == Since(final, since)[skip..] <==>
              CleanStart(visit, since, tailLines))
  {
    var k, cut, clean := PlaceFirst(visit, since, tailLines, room, final);
    SecondPlaced(since, tailLines, room, visit.open.items, second, s1, final, k, cut, clean);
    SameTarget(AfterOpen(s1, Opened(second)).sent, final, since, Skipped(tailLines, visit.backlog, since), cut);
  }

  lemma LastStream(since: Option<Timestamp>, tailLines: Option<nat>, room: nat, visits: seq<Visit>, n: nat,
    second: seq<Item>)
    returns (s1: State)
    requires OpensFirst(visits, n) && Faithful(Start(since, tailLines, room), visits) && |visits| == n + 1
    ensures s1 == AfterOpen(Start(since, tailLines, room), visits[n].open) ==
        Run(Start(since, tailLines, room), Opens(visits))
    ensures Received(visits[n].open.items) <= Offered(Start(since, tailLines, room), visits[n])
    ensures !s1.done ==>
              Run(Start(since, tailLines, room), Opens(visits) + [Opened(second)]) == AfterOpen(s1, Opened(second))
  {
    s1 := FirstStream(since, tailLines, room, visits, n);
    RunAppend(Start(since, tailLines, room), Opens(visits), Opened(second));
  }

  /**
   * Exactly when a bounded backlog is delivered once: failed opens, a first stream cut anywhere, and
   * then one that is not cut. Without a clean start the second stream sends lines that had been left out.
   */
  lemma TailLinesExact(since: Option<Timestamp>, tailLines: Option<nat>, room: nat, visits: seq<Visit>, n: nat,
    second: seq<Item>, final: seq<Line>)
    requires Ordered(final) && AppendOnly(visits, final) && Faithful(Start(since, tailLines, room), visits)
    requires OpensFirst(visits, n) && |visits| == n + 1
    requires var s1 := Run(Start(since, tailLines, room), Opens(visits));
             !s1.done && Received(second) == Since(final, s1.since) && !AfterOpen(s1, Opened(second)).done
    ensures var skip := Skipped(tailLines, visits[n].backlog, since);
            && skip <= |Since(final, since)|
            && (Run(Start(since, tailLines, room), Opens(visits) + [Opened(second)]).sent == Since(final, since)[skip..]
                <==> CleanStart(visits[n], since, tailLines))
  {
    var s1 := LastStream(since, tailLines, room, visits, n, second);
    LaterVisits(visits, n, final);
    TwoStreams(since, tailLines, room, visits[n], second, s1, final);
  }

  /** Two lines with one stamp and a backlog of one: the line left out is sent after the one that was not. */
  lemma LeftOutLineReturns(a: Line, b: Line, room: nat)
    requires a.at.Some? && a.at == b.at && a != b && room >= 2
    ensures Run(Start(None, Some(1), room), [Opened([Got(b)]), Opened([Got(a), Got(b)])]).sent == [b, a]
  {
    var s0 := Start(None, Some(1), room);
    var one, two := [Got(b)], [Got(a), Got(b)];
    assert one[1..] == [] && two[1..] == one;
    assert Deliver(s0, None, map[], one) == Deliver(Send(Note(s0, b), b), None, map[], []);
    var s1 := AfterOpen(s0, Opened(one));
    assert s1 == State(b.at, None, b.at, map[b.text := 1], 0, [b], room - 1, false);
    assert a.text != b.text;
    var noted := Send(Note(s1, a), a);
    assert Deliver(s1, b.at, map[b.text := 1], two) == Deliver(noted, b.at, map[b.text := 1], one);
    assert Deliver(noted, b.at, map[b.text := 1], one) == Deliver(noted, b.at, map[b.text := 1][b.text := 0], []);
    var script := [Opened(one), Opened(two)];
    var last := script[1..];
    assert last == [Opened(two)] && last[1..] == [];
    assert Run(s0, script) == Run(s1, last) == Run(AfterOpen(s1, Opened(two)), []);
  }

  lemma SecondSession(s1: State, since: Option<Timestamp>, second: seq<Item>, final: seq<Line>, k: nat,
    cut: nat, lines: seq<Line>)
    requires Ordered(final) && StartsAt(final, since, k) && k <= cut && cut + |lines| <= |final|
    requires SentFirst(s1, since, lines) && lines == final[cut..cut + |lines|] && !s1.done
    requires Received(second) == Since(final, s1.since) && !AfterOpen(s1, Opened(second)).done
    ensures AfterOpen(s1, Opened(second)).sent == final[cut..] <==> CleanCut(final, k, cut, |lines|)
  {
    if CleanCut(final, k, cut, |lines|) {
      CleanStartIsOnTrack(s1, since, final, k, cut, lines);
      UncutSessionSendsAll(s1, second, final, cut);
    } else {
      SendsNoFewer(s1, second);
      UncleanReopensEarlier(s1, final, since, k, cut, lines);
    }
  }
}
