/** The log panel: a bounded ring of lines and a view that follows it or is pinned to a line. */
module LogView {
  import opened Names

  const CAPACITY: nat := 5000

  datatype Key = Down | Up | PageDown | PageUp | End | Quit | Back | OtherKey

  datatype Event = Arrived(line: string) | Failed(error: string) | Pressed(key: Key) | Tick

  datatype Action = QuitAll | GoBack

  // ---- the view as the reader sees it ------------------------------------------

  /** Every line ever received, and the line the view is pinned to, counted from the first. */
  datatype Sight = Sight(received: seq<string>, pin: Option<nat>)

  /** How many of the oldest lines are gone. */
  function Dropped(received: seq<string>): nat {
    if |received| <= CAPACITY then 0 else |received| - CAPACITY
  }

  function Held(received: seq<string>): seq<string> {
    received[Dropped(received)..]
  }

  /** Pinned to a line that is held and is not the last. */
  ghost predicate Good(s: Sight) {
    s.pin.Some? ==> Dropped(s.received) <= s.pin.value && s.pin.value + 1 < |s.received|
  }

  /** Move the top line; with no more than a page below it, the view follows the tail again. */
  function Moved(s: Sight, delta: int, page: nat): Sight {
    var last := Max(Dropped(s.received), |s.received| - page);
    var top := if s.pin.Some? then s.pin.value else last;
    var next := Max(Dropped(s.received), top + delta);
    s.(pin := if next >= last then None else Some(next))
  }

  function Delta(key: Key): int {
    match key
    case Down => 1
    case Up => -1
    case PageDown => 20
    case PageUp => -20
    case _ => 0
  }

  function Seen(s: Sight, e: Event): Sight {
    match e
    case Arrived(line) =>
      var received := s.received + [line];
      Sight(received, if s.pin.None? then None else Some(Max(s.pin.value, Dropped(received))))
    case Pressed(End) => s.(pin := None)
    case Pressed(key) => if Delta(key) == 0 then s else Moved(s, Delta(key), 1)
    case _ => s
  }

  // ---- the panel ---------------------------------------------------------------

  class LogsPanel {
    var lines: seq<string>
    /** `None` follows the tail; `Some(n)` is pinned so that the top line is index `n`. */
    var scroll: Option<nat>
    var error: Option<string>
    ghost var received: seq<string>

    ghost predicate Valid()
      reads this
    {
      lines == Held(received) && (scroll.Some? ==> scroll.value + 1 < |lines|)
    }

    ghost function View(): Sight
      reads this
    {
      Sight(received, if scroll.None? then None else Some(Dropped(received) + scroll.value))
    }

    constructor ()
      ensures Valid() && View() == Sight([], None) && error == None
    {
      lines, scroll, error, received := [], None, None, [];
    }

    method ScrollBy(delta: int, page: nat)
      requires Valid()
      modifies this`scroll
      ensures View() == Moved(old(View()), delta, page) && (page > 0 ==> Valid())
    {
      var max: nat := if |lines| < page then 0 else |lines| - page;
      var cur := if scroll.Some? then scroll.value else max;
      var moved: nat := if cur + delta < 0 then 0 else cur + delta;
      var next := if moved < max then moved else max;
      scroll := if next >= max then None else Some(next);
    }

    method Receive(line: string)
      requires Valid()
      modifies this`lines, this`scroll, this`received
      ensures Valid() && View() == Seen(old(View()), Arrived(line))
    {
      if |lines| == CAPACITY {
        lines := lines[1..];
        if scroll.Some? {
          scroll := Some(if scroll.value == 0 then 0 else scroll.value - 1);
        }
      }
      lines := lines + [line];
      received := received + [line];
    }

    /** One event: what the view becomes, and what the panel asks for. */
    method Update(e: Event) returns (action: Option<Action>, stopLogs: bool)
      requires Valid()
      modifies this
      ensures Valid() && View() == Seen(old(View()), e)
      ensures action == if e == Pressed(Quit) then Some(QuitAll) else if e == Pressed(Back) then Some(GoBack) else None
      ensures stopLogs <==> action.Some?
      ensures error == if e.Failed? then Some(e.error) else old(error)
    {
      action, stopLogs := None, false;
      match e {
        case Arrived(line) => Receive(line);
        case Failed(err) => error := Some(err);
        case Pressed(key) =>
          match key {
            case Quit => action, stopLogs := Some(QuitAll), true;
            case Back => action, stopLogs := Some(GoBack), true;
            case Down => ScrollBy(1, 1);
            case Up => ScrollBy(-1, 1);
            case PageDown => ScrollBy(20, 1);
            case PageUp => ScrollBy(-20, 1);
            case End => scroll := None;
            case OtherKey =>
          }
        case Tick =>
      }
    }
  }

  // ---- over whole runs ---------------------------------------------------------

  function Watched(s: Sight, events: seq<Event>): Sight {
    if events == [] then s else Seen(Watched(s, events[..|events| - 1]), events[|events| - 1])
  }

  /** The lines among the events. */
  function LinesOf(events: seq<Event>): seq<string> {
    if events == [] then []
    else
      var e := events[|events| - 1];
      LinesOf(events[..|events| - 1]) + if e.Arrived? then [e.line] else []
  }

  /** On any run the view is pinned to a held line that is not the last, and nothing received is lost track of. */
  lemma {:induction false} AlwaysGood(s: Sight, events: seq<Event>)
    requires Good(s)
    ensures Good(Watched(s, events)) && Watched(s, events).received == s.received + LinesOf(events)
  {
    if events != [] {
      AlwaysGood(s, events[..|events| - 1]);
    }
  }

  /** The line at the top of a pinned view is the line it is pinned to. */
  lemma TopLine(s: Sight)
    requires Good(s) && s.pin.Some?
    ensures var i := s.pin.value - Dropped(s.received);
            0 <= i && i + 1 < |Held(s.received)| && Held(s.received)[i] == s.received[s.pin.value]
  {
  }

  ghost predicate NoKeys(events: seq<Event>) {
    forall i :: 0 <= i < |events| ==> !events[i].Pressed?
  }

  /** Between key presses a pinned view stays on its line until that line is dropped, then shows the oldest held. */
  lemma {:induction false} PinStaysPut(s: Sight, events: seq<Event>)
    requires Good(s) && NoKeys(events)
    ensures var s' := Watched(s, events);
            s'.pin == if s.pin.None? then None else Some(Max(s.pin.value, Dropped(s'.received)))
  {
    if events != [] {
      var n := |events| - 1;
      PinStaysPut(s, events[..n]);
      AlwaysGood(s, events[..n]);
      assert !events[n].Pressed?;
    }
  }

  /** Moving up and down again changes nothing, except for a pinned view that the oldest held line stopped. */
  lemma UpAndDown(s: Sight, delta: nat)
    requires Good(s) && delta > 0
    ensures Moved(Moved(s, 0 - delta, 1), delta, 1) == s <==> s.pin.None? || s.pin.value >= Dropped(s.received) + delta
  {
    var up := Moved(s, 0 - delta, 1);
    if s.pin.Some? && s.pin.value < Dropped(s.received) + delta {
      assert up.pin == Some(Dropped(s.received));
    }
  }
}
