/** One container's log, followed across sessions that may be cut anywhere. */
module LogTail {
  import opened Names

  type Timestamp = int

  datatype Line = Line(at: Option<Timestamp>, text: string)

  /** What the stream hands over next: a line, or an error that ends the session. */
  datatype Item = Got(line: Line) | Broken

  /** What one attempt to open the stream came to. */
  datatype Open = Failed(error: string) | Opened(items: seq<Item>)

  const MAX_OPEN_FAILURES: nat := 5

  /**
   * The tail between two lines. `room` is how many more lines the consumer
   * takes before it goes away; `done` says the tail has returned.
   */
  datatype State = State(
    since: Option<Timestamp>, tailLines: Option<nat>,
    lastTs: Option<Timestamp>, boundary: map<string, nat>, failures: nat,
    sent: seq<Line>, room: nat, done: bool)

  function Start(since: Option<Timestamp>, tailLines: Option<nat>, room: nat): State {
    State(since, tailLines, None, map[], 0, [], room, false)
  }

  function Count(counts: map<string, nat>, text: string): nat {
    if text in counts then counts[text] else 0
  }

  /** A replayed line: same stamp as the last one sent, and a copy of it still to be accounted for. */
  predicate Replays(replayAt: Option<Timestamp>, replay: map<string, nat>, line: Line) {
    line.at == replayAt && Count(replay, line.text) > 0
  }

  /** Remember the newest stamp and how often each text was seen at it. */
  function Note(s: State, line: Line): State {
    if line.at.None? then s
    else if s.lastTs.None? then s.(lastTs := line.at, boundary := s.boundary[line.text := 1])
    else if line.at.value > s.lastTs.value then s.(lastTs := line.at, boundary := map[line.text := 1])
    else if line.at.value == s.lastTs.value
    then s.(boundary := s.boundary[line.text := Count(s.boundary, line.text) + 1])
    else s
  }

  function Send(s: State, line: Line): State {
    if s.room == 0 then s.(done := true) else s.(sent := s.sent + [line], room := s.room - 1)
  }

  /** One session, from the lines the stream hands over until it breaks, ends or the consumer is gone. */
  function Deliver(s: State, replayAt: Option<Timestamp>, replay: map<string, nat>, items: seq<Item>): State
    decreases |items|
  {
    if s.done || items == [] || items[0].Broken? then s
    else
      var line := items[0].line;
      if Replays(replayAt, replay, line)
      then Deliver(s, replayAt, replay[line.text := replay[line.text] - 1], items[1..])
      else Deliver(Send(Note(s, line), line), replayAt, replay, items[1..])
  }

  function FailureLine(error: string): Line {
    Line(None, "<tail failed: " + error + ">")
  }

  function AfterOpen(s: State, open: Open): State {
    match open
    case Failed(error) =>
      var s' := s.(failures := s.failures + 1);
      if s'.failures >= MAX_OPEN_FAILURES then Send(s', FailureLine(error)).(done := true) else s'
    case Opened(items) =>
      var s' := Deliver(s.(failures := 0), s.lastTs, s.boundary, items);
      if s'.done then s'
      else s'.(since := if s'.lastTs.Some? then s'.lastTs else s'.since, tailLines := None)
  }

  /** The whole run, over whatever the cluster answers. */
  function Run(s: State, script: seq<Open>): State
    decreases |script|
  {
    if s.done || script == [] then s else Run(AfterOpen(s, script[0]), script[1..])
  }

  class TailTask {
    var since: Option<Timestamp>
    var tailLines: Option<nat>
    /** The channel to the consumer: what it has taken, and how much more it will. */
    var sent: seq<Line>
    var room: nat

    constructor (since: Option<Timestamp>, tailLines: Option<nat>, room: nat)
      ensures this.since == since && this.tailLines == tailLines && this.sent == [] && this.room == room
    {
      this.since, this.tailLines, this.sent, this.room := since, tailLines, [], room;
    }

    method TrySend(line: Line) returns (ok: bool)
      modifies this`sent, this`room
      ensures ok <==> old(room) > 0
      ensures sent == (if ok then old(sent) + [line] else old(sent))
      ensures room == (if ok then old(room) - 1 else 0)
    {
      ok := room > 0;
      if ok {
        sent, room := sent + [line], room - 1;
      }
    }

    /** Drain one open stream: skip what was already sent, pass on the rest. */
    method Drain(items: seq<Item>, lastTs0: Option<Timestamp>, boundary0: map<string, nat>)
      returns (returned: bool, lastTs: Option<Timestamp>, boundary: map<string, nat>)
      modifies this`sent, this`room
      ensures State(since, tailLines, lastTs, boundary, 0, sent, room, returned)
           == Deliver(old(State(since, tailLines, lastTs0, boundary0, 0, sent, room, false)), lastTs0, boundary0, items)
    {
      var replayAt, replay := lastTs0, boundary0;
      lastTs, boundary := lastTs0, boundary0;
      ghost var goal := Deliver(State(since, tailLines, lastTs0, boundary0, 0, sent, room, false), lastTs0, boundary0,
        items);
      var i := 0;
      while i < |items| && items[i].Got?
        invariant 0 <= i <= |items|
        invariant Deliver(State(since, tailLines, lastTs, boundary, 0, sent, room, false), replayAt, replay,
            items[i..]) == goal
      {
        assert items[i..][0] == items[i] && items[i..][1..] == items[i + 1..];
        var line := items[i].line;
        i := i + 1;
        if line.at == replayAt && line.text in replay && replay[line.text] > 0 {
          replay := replay[line.text := replay[line.text] - 1];
          continue;
        }
        if line.at.Some? {
          if lastTs.Some? && line.at.value > lastTs.value {
            lastTs, boundary := line.at, map[line.text := 1];
          } else if lastTs.Some? && line.at.value == lastTs.value {
            boundary := boundary[line.text := Count(boundary, line.text) + 1];
          } else if lastTs.None? {
            lastTs, boundary := line.at, boundary[line.text := 1];
          }
        }
        var ok := TrySend(line);
        if !ok {
          return true, lastTs, boundary;
        }
      }
      return false, lastTs, boundary;
    }

    /** Follow the log until the script of the cluster's answers runs out or the tail returns. */
    method Follow(script: seq<Open>) returns (returned: bool)
      modifies this
      ensures var end := Run(old(State(since, tailLines, None, map[], 0, sent, room, false)), script);
              && since == end.since && tailLines == end.tailLines && sent == end.sent && room == end.room
              && returned == end.done
    {
      ghost var goal := Run(State(since, tailLines, None, map[], 0, sent, room, false), script);
      var lastTs: Option<Timestamp> := None;
      var boundary: map<string, nat> := map[];
      var failures := 0;
      for k := 0 to |script|
        invariant Run(State(since, tailLines, lastTs, boundary, failures, sent, room, false), script[k..]) == goal
      {
        assert script[k..][0] == script[k] && script[k..][1..] == script[k + 1..];
        match script[k]
        case Failed(error) =>
          failures := failures + 1;
          if failures >= MAX_OPEN_FAILURES {
            var _ := TrySend(FailureLine(error));
            return true;
          }
        case Opened(items) =>
          failures := 0;
          var gone;
          gone, lastTs, boundary := Drain(items, lastTs, boundary);
          if gone {
            return true;
          }
          since := if lastTs.Some? then lastTs else since;
          tailLines := None;
      }
      return false;
    }
  }
}
