/** How a wait ends, and a roll, told by the cluster's answers. */
module RollEnding {
  import opened Names
  import opened Pods
  import opened RollingRestart

  // ---- one wait ------------------------------------------------------------

  /** The world after so many listings. */
  function Polled(w: World, n: nat): World {
    if n == 0 then w else Listing(Polled(w, n - 1)).world
  }

  /** The cluster answers every call up to number `k`. */
  predicate Answers(w: World, k: nat) {
    k < |w.script| && forall j :: 0 <= j <= k ==> w.script[j].failure.None?
  }

  predicate Recovered(pods: seq<Pod>, name: string, target: nat) {
    Gone(pods, name) && UpCount(pods) >= target
  }

  /** Listing number `k` shows the pod gone and the target running again. */
  predicate RecoveredAt(w: World, name: string, target: nat, k: nat) {
    Answers(w, k) && Recovered(Polled(w, k + 1).pods, name, target)
  }

  ghost predicate WaitsWell(w: World, name: string, target: nat) {
    exists k: nat :: RecoveredAt(w, name, target, k)
  }

  /** The first call that fails, or the end of the script. */
  predicate FailsFirst(w: World, n: nat) {
    && n <= |w.script| && (forall j :: 0 <= j < n ==> w.script[j].failure.None?)
    && (n < |w.script| ==> w.script[n].failure.Some?)
  }

  function FailureAt(w: World, n: nat): Error {
    if n < |w.script| && w.script[n].failure.Some? then w.script[n].failure.value else Timeout
  }

  lemma ListingAnswers(w: World)
    ensures if w.script == [] then Listing(w).value == Err(Timeout)
            else
              && Listing(w).world.script == w.script[1..]
              && (if w.script[0].failure.Some? then Listing(w).value == Err(w.script[0].failure.value)
                  else Listing(w).value == Ok(Listing(w).world.pods))
  {
  }

  lemma {:induction false} PolledShift(w: World, n: nat)
    ensures Polled(w, n + 1) == Polled(Listing(w).world, n)
  {
    if n > 0 {
      PolledShift(w, n - 1);
    }
  }

  lemma AnswersShift(w: World, rest: World, k: nat)
    requires w.script != [] && w.script[0].failure.None? && rest.script == w.script[1..]
    ensures Answers(w, k + 1) <==> Answers(rest, k)
    ensures FailsFirst(w, k + 1) <==> FailsFirst(rest, k)
    ensures FailureAt(w, k + 1) == FailureAt(rest, k)
  {
    assert forall j :: 0 <= j < |rest.script| ==> rest.script[j] == w.script[j + 1];
    if FailsFirst(rest, k) {
      assert forall j :: 0 < j < k + 1 ==> w.script[j] == rest.script[j - 1];
    }
    if Answers(rest, k) {
      assert forall j :: 0 < j <= k + 1 ==> w.script[j] == rest.script[j - 1];
    }
  }

  lemma RecoveredShift(w: World, name: string, target: nat, k: nat)
    requires w.script != [] && w.script[0].failure.None?
    ensures RecoveredAt(w, name, target, k + 1) <==> RecoveredAt(Listing(w).world, name, target, k)
  {
    ListingAnswers(w);
    PolledShift(w, k + 1);
    AnswersShift(w, Listing(w).world, k);
  }

  lemma RecoveredNow(w: World, name: string, target: nat)
    ensures RecoveredAt(w, name, target, 0) <==>
              w.script != [] && w.script[0].failure.None? && Recovered(Listing(w).world.pods, name, target)
  {
    assert Polled(w, 1) == Listing(Polled(w, 0)).world;
  }

  /** Where a wait ends: at the first listing that shows the pod replaced, or at the first call that fails. */
  ghost predicate WaitEnds(w: World, name: string, target: nat, end: Outcome<Option<Error>>) {
    || (end.value.None? && exists k: nat :: RecoversFirst(w, name, target, k) && end.world == Polled(w, k + 1))
    || (&& end.value.Some? && !WaitsWell(w, name, target)
        && (exists n: nat :: FailsFirst(w, n) && end.value == Some(FailureAt(w, n))))
  }

  ghost predicate RecoversFirst(w: World, name: string, target: nat, k: nat) {
    RecoveredAt(w, name, target, k) && forall j: nat :: j < k ==> !RecoveredAt(w, name, target, j)
  }

  lemma FailsNow(w: World, name: string, target: nat)
    requires w.script == [] || w.script[0].failure.Some?
    ensures !WaitsWell(w, name, target) && FailsFirst(w, 0)
    ensures Awaited(w, name, target).value == Some(FailureAt(w, 0))
  {
    ListingAnswers(w);
    forall k: nat ensures !RecoveredAt(w, name, target, k) {
      assert Answers(w, k) ==> w.script[0].failure.None?;
    }
  }

  lemma NotEarlier(w: World, name: string, target: nat, k: nat)
    requires w.script != [] && w.script[0].failure.None? && !RecoveredAt(w, name, target, 0)
    requires forall j: nat :: j < k ==> !RecoveredAt(Listing(w).world, name, target, j)
    ensures forall j: nat :: j < k + 1 ==> !RecoveredAt(w, name, target, j)
  {
    forall j: nat | j < k + 1 ensures !RecoveredAt(w, name, target, j) {
      if j > 0 {
        RecoveredShift(w, name, target, j - 1);
      }
    }
  }

  lemma WellLater(w: World, name: string, target: nat, k: nat)
    requires w.script != [] && w.script[0].failure.None? && !RecoveredAt(w, name, target, 0)
    requires RecoversFirst(Listing(w).world, name, target, k)
    ensures RecoversFirst(w, name, target, k + 1) && Polled(Listing(w).world, k + 1) == Polled(w, k + 2)
  {
    PolledShift(w, k + 1);
    RecoveredShift(w, name, target, k);
    NotEarlier(w, name, target, k);
  }

  lemma FailsLater(w: World, name: string, target: nat, n: nat)
    requires w.script != [] && w.script[0].failure.None? && !RecoveredAt(w, name, target, 0)
    requires !WaitsWell(Listing(w).world, name, target) && FailsFirst(Listing(w).world, n)
    ensures !WaitsWell(w, name, target) && FailsFirst(w, n + 1) && FailureAt(w, n + 1) == FailureAt(Listing(w).world, n)
  {
    ListingAnswers(w);
    AnswersShift(w, Listing(w).world, n);
    forall k: nat ensures !RecoveredAt(w, name, target, k) {
      if k > 0 {
        RecoveredShift(w, name, target, k - 1);
      }
    }
  }

  lemma {:induction false} AwaitedEnds(w: World, name: string, target: nat)
    ensures WaitEnds(w, name, target, Awaited(w, name, target))
    decreases |w.script|
  {
    ListingAnswers(w);
    RecoveredNow(w, name, target);
    var end := Awaited(w, name, target);
    if w.script == [] || w.script[0].failure.Some? {
      FailsNow(w, name, target);
    } else if Recovered(Listing(w).world.pods, name, target) {
      assert RecoversFirst(w, name, target, 0) && end.world == Polled(w, 0 + 1);
    } else {
      var rest := Listing(w).world;
      AwaitedEnds(rest, name, target);
      if end.value.None? {
        var k: nat :| RecoversFirst(rest, name, target, k) && end.world == Polled(rest, k + 1);
        WellLater(w, name, target, k);
      } else {
        var n: nat :| FailsFirst(rest, n) && end.value == Some(FailureAt(rest, n));
        FailsLater(w, name, target, n);
      }
    }
  }

  /**
   * A wait ends well if and only if some listing before the first call that fails shows the pod gone and the
   * target running; otherwise it ends with that call's failure, or in a timeout when the cluster stops answering.
   */
  lemma WaitEndsWell(w: World, name: string, target: nat)
    ensures var end := Awaited(w, name, target).value;
            && (end.None? <==> exists k: nat :: Answers(w, k) && Recovered(Polled(w, k + 1).pods, name, target))
            && (forall n: nat :: end.Some? && FailsFirst(w, n) ==> end.value == FailureAt(w, n))
  {
    AwaitedEnds(w, name, target);
    var end := Awaited(w, name, target).value;
    if end.None? {
      var k: nat :| RecoversFirst(w, name, target, k);
      assert RecoveredAt(w, name, target, k);
    } else {
      forall k: nat ensures !(Answers(w, k) && Recovered(Polled(w, k + 1).pods, name, target)) {
        assert !RecoveredAt(w, name, target, k);
      }
      var m: nat :| FailsFirst(w, m) && end == Some(FailureAt(w, m));
      forall n: nat | FailsFirst(w, n) ensures n == m {
        OneFailure(w, m, n);
      }
    }
  }

  lemma OneFailure(w: World, m: nat, n: nat)
    requires FailsFirst(w, m) && FailsFirst(w, n)
    ensures m == n
  {
  }

  // ---- a roll ------------------------------------------------------------------

  /** One pod's turn: its deletion is answered and, unless it is a dry run, its wait ends well. */
  ghost predicate TurnGoesWell(w: World, name: string, target: nat, dryRun: bool) {
    && w.script != [] && w.script[0].failure.None?
    && (dryRun || WaitsWell(Deleting(w, name, false).world, name, target))
  }

  /** Why a turn does not go well: its deletion's failure, or the first failure of its wait. */
  ghost predicate TurnFails(w: World, name: string, target: nat, dryRun: bool, error: Error) {
    && !TurnGoesWell(w, name, target, dryRun)
    && if w.script == [] || w.script[0].failure.Some? then error == FailureAt(w, 0)
       else FailsWith(Deleting(w, name, false).world, error)
  }

  ghost predicate FailsWith(w: World, error: Error) {
    exists n: nat :: FailsFirst(w, n) && error == FailureAt(w, n)
  }

  lemma OneEnds(w: World, name: string, target: nat, dryRun: bool)
    ensures var end := RolledOne(w, name, target, dryRun).value;
            if end.None? then TurnGoesWell(w, name, target, dryRun) else TurnFails(w, name, target, dryRun, end.value)
  {
    if !dryRun {
      var d := Deleting(w, name, false).world;
      AwaitedEnds(d, name, target);
      if WaitsWell(d, name, target) {
        assert Awaited(d, name, target).value.None?;
      }
    }
  }

  /** The world in which turn `i` of a roll begins. */
  function WorldAt(w: World, names: seq<string>, target: nat, dryRun: bool, i: nat): World
    requires i <= |names|
  {
    Rolled(w, names[..i], target, dryRun).world
  }

  ghost predicate WellAt(w: World, names: seq<string>, target: nat, dryRun: bool, i: nat) {
    i < |names| && TurnGoesWell(WorldAt(w, names, target, dryRun, i), names[i], target, dryRun)
  }

  lemma WellEarlier(w: World, names: seq<string>, target: nat, dryRun: bool, n: nat, i: nat)
    requires i < n <= |names|
    ensures WellAt(w, names[..n], target, dryRun, i) <==> WellAt(w, names, target, dryRun, i)
    ensures WorldAt(w, names[..n], target, dryRun, i) == WorldAt(w, names, target, dryRun, i)
  {
    assert names[..n][..i] == names[..i];
  }

  /** Turn `i` is the first not to go well, for this reason. */
  ghost predicate FailsAt(w: World, names: seq<string>, target: nat, dryRun: bool, i: nat, error: Error) {
    && i < |names| && TurnFails(WorldAt(w, names, target, dryRun, i), names[i], target, dryRun, error)
    && forall j: nat :: j < i ==> WellAt(w, names, target, dryRun, j)
  }

  /** A roll ends well when every turn does; otherwise with the failure of the first that does not. */
  ghost predicate RollEnds(w: World, names: seq<string>, target: nat, dryRun: bool, value: Option<Error>) {
    if value.None? then AllWell(w, names, target, dryRun) else FailsSomewhere(w, names, target, dryRun, value.value)
  }

  ghost predicate AllWell(w: World, names: seq<string>, target: nat, dryRun: bool) {
    forall i: nat :: i < |names| ==> WellAt(w, names, target, dryRun, i)
  }

  ghost predicate FailsSomewhere(w: World, names: seq<string>, target: nat, dryRun: bool, error: Error) {
    exists i: nat :: FailsAt(w, names, target, dryRun, i, error)
  }

  lemma FailedAlready(w: World, names: seq<string>, target: nat, dryRun: bool, n: nat, i: nat, error: Error)
    requires n <= |names| && FailsAt(w, names[..n], target, dryRun, i, error)
    ensures FailsAt(w, names, target, dryRun, i, error)
  {
    forall j: nat | j <= i ensures WellAt(w, names[..n], target, dryRun, j) <==> WellAt(w, names, target, dryRun, j) {
      WellEarlier(w, names, target, dryRun, n, j);
    }
    WellEarlier(w, names, target, dryRun, n, i);
  }

  lemma LastTurn(w: World, names: seq<string>, target: nat, dryRun: bool)
    requires names != [] && RollEnds(w, names[..|names| - 1], target, dryRun, None)
    ensures RollEnds(w, names, target, dryRun,
        RolledOne(WorldAt(w, names, target, dryRun, |names| - 1), names[|names| - 1], target, dryRun).value)
  {
    var n := |names| - 1;
    forall j: nat | j < n ensures WellAt(w, names, target, dryRun, j) {
      WellEarlier(w, names, target, dryRun, n, j);
      assert WellAt(w, names[..n], target, dryRun, j);
    }
    OneEnds(WorldAt(w, names, target, dryRun, n), names[n], target, dryRun);
    var end := RolledOne(WorldAt(w, names, target, dryRun, n), names[n], target, dryRun).value;
    if end.Some? {
      assert FailsAt(w, names, target, dryRun, n, end.value);
    }
  }

  lemma {:induction false} RolledEnds(w: World, names: seq<string>, target: nat, dryRun: bool)
    ensures RollEnds(w, names, target, dryRun, Rolled(w, names, target, dryRun).value)
    decreases |names|
  {
    if names != [] {
      var n := |names| - 1;
      var before := Rolled(w, names[..n], target, dryRun);
      RolledEnds(w, names[..n], target, dryRun);
      if before.value.None? {
        LastTurn(w, names, target, dryRun);
      } else {
        var i: nat :| FailsAt(w, names[..n], target, dryRun, i, before.value.value);
        FailedAlready(w, names, target, dryRun, n, i, before.value.value);
      }
    }
  }

  lemma FailedIsNotWell(w: World, names: seq<string>, target: nat, dryRun: bool, error: Error)
    requires FailsSomewhere(w, names, target, dryRun, error)
    ensures !AllWell(w, names, target, dryRun)
  {
    var i: nat :| FailsAt(w, names, target, dryRun, i, error);
    assert !WellAt(w, names, target, dryRun, i);
  }

  lemma Answered(w: World, dryRun: bool)
    requires w.script != [] && w.script[0].failure.None?
    ensures var start, value := Listing(w).world, Restarted(w, dryRun).value;
            var names, target := NamesOf(SortByName(start.pods)), UpCount(start.pods);
            var roll := Rolled(start, names, target, dryRun);
            value == if roll.value.Some? then Err(roll.value.value) else Ok(names)
  {
    ListingAnswers(w);
  }

  /**
   * A restart answers with the listed names in order if and only if the cluster answers the opening list and
   * every deletion, and every wait shows its pod replaced before a call fails. Otherwise it answers with the
   * first failure.
   */
  lemma RestartEnds(w: World, dryRun: bool)
    ensures var value, start := Restarted(w, dryRun).value, Listing(w).world;
            if w.script == [] || w.script[0].failure.Some? then value == Err(FailureAt(w, 0))
            else
              var names, target := NamesOf(SortByName(start.pods)), UpCount(start.pods);
              if AllWell(start, names, target, dryRun) then value == Ok(names)
              else value.Err? && FailsSomewhere(start, names, target, dryRun, value.error)
  {
    if w.script == [] || w.script[0].failure.Some? {
      ListingAnswers(w);
    } else {
      Answered(w, dryRun);
      var start := Listing(w).world;
      var names, target := NamesOf(SortByName(start.pods)), UpCount(start.pods);
      RolledEnds(start, names, target, dryRun);
      var roll := Rolled(start, names, target, dryRun).value;
      if roll.Some? {
        FailedIsNotWell(start, names, target, dryRun, roll.value);
      }
    }
  }

  /** A pod that is still there at the first poll and replaced at the second: the restart waits for it. */
  lemma SecondPollSees(a: Pod, b: Pod)
    requires IsUp(a) && IsUp(b) && a.name != b.name
    ensures var quiet := Turn([], None);
            Restarted(World([a], None, [quiet, quiet, quiet, Turn([[b]], None)]), false).value == Ok([a.name])
  {
    var quiet, last := Turn([], None), Turn([[b]], None);
    var script := [quiet, quiet, quiet, last];
    var w0 := World([a], None, script);
    assert script[1..] == [quiet, quiet, last] && script[1..][1..] == [quiet, last] &&
      script[1..][1..][1..] == [last] && [last][1..] == [];
    OneUp(a);
    OneUp(b);
    QuietTurn(w0);
    var w1 := World([a], None, [quiet, quiet, last]);
    assert Listing(w0).world == w1 && Listing(w0).value == Ok([a]);
    QuietTurn(w1);
    var w2 := World([a], Some(a.name), [quiet, last]);
    assert Deleting(w1, a.name, false).world == w2;
    QuietTurn(w2);
    var w3 := World([a], Some(a.name), [last]);
    assert !Gone([a], a.name) && Listing(w2).world == w3;
    ReplacingTurn(w3, a, b);
    assert Awaited(w3, a.name, 1).value == None;
    assert Awaited(w2, a.name, 1).value == None;
    OneName(a);
    assert Rolled(w1, [a.name], 1, false).value == None by {
      assert [a.name][..0] == [] && Rolled(w1, [], 1, false) == Outcome(w1, [], None);
    }
  }

  lemma OneUp(p: Pod)
    requires IsUp(p)
    ensures UpCount([p]) == 1
  {
    assert [p][1..] == [] && UpCount([]) == 0;
  }

  lemma QuietTurn(w: World)
    requires w.script != [] && w.script[0] == Turn([], None)
    ensures Turned(w) == Outcome(w.(script := w.script[1..]), [], None)
  {
  }

  lemma ReplacingTurn(w: World, a: Pod, b: Pod)
    requires w == World([a], Some(a.name), [Turn([[b]], None)]) && IsUp(b) && a.name != b.name
    ensures Listing(w).value == Ok([b]) && Gone([b], a.name)
  {
    var worlds := [[b]];
    assert worlds[..0] == [] && worlds[0] == [b];
    var w' := w.(script := w.script[1..]);
    assert OthersUp([a], Some(a.name)) == 0 by {
      assert [a][1..] == [];
    }
    assert Drift(w', []).world == w' && Moved(w', [b]).pods == [b];
    assert Drift(w', worlds).world.pods == [b];
  }

  lemma OneName(a: Pod)
    ensures NamesOf(SortByName([a])) == [a.name]
  {
    SortMeans([a]);
    assert |SortByName([a])| == |multiset(SortByName([a]))| == 1;
    assert SortByName([a])[0] in multiset(SortByName([a]));
  }
}
