/** Restarting the pods of a vertex one at a time, against a cluster that moves on its own. */
module RollingRestart {
  import opened Names
  import opened Text
  import opened Sorting
  import opened Pods

  datatype Error = Timeout | Api(message: string)

  // ---- counting ----------------------------------------------------------------

  predicate AllUp(containers: seq<Container>) {
    forall i :: 0 <= i < |containers| ==> containers[i].isInit || containers[i].running
  }

  /** Phase Running with every container that is not an init container running. */
  predicate IsUp(p: Pod) {
    p.phase == Running && AllUp(p.containers)
  }

  function UpCount(pods: seq<Pod>): nat {
    if pods == [] then 0 else UpCount(pods[1..]) + if IsUp(pods[0]) then 1 else 0
  }

  /** How many are up that do not bear the name of the pod being deleted. */
  function OthersUp(pods: seq<Pod>, doomed: Option<string>): nat {
    if pods == [] then 0
    else OthersUp(pods[1..], doomed) + if IsUp(pods[0]) && doomed != Some(pods[0].name) then 1 else 0
  }

  predicate Gone(pods: seq<Pod>, name: string) {
    forall i :: 0 <= i < |pods| ==> pods[i].name != name
  }

  predicate DistinctPods(pods: seq<Pod>) {
    forall i, j :: 0 <= i < j < |pods| ==> pods[i].name != pods[j].name
  }

  lemma {:induction false} OthersAreFewer(pods: seq<Pod>, doomed: Option<string>)
    ensures OthersUp(pods, doomed) <= UpCount(pods)
    ensures doomed.None? || Gone(pods, doomed.value) ==> OthersUp(pods, doomed) == UpCount(pods)
  {
    if pods != [] {
      OthersAreFewer(pods[1..], doomed);
    }
  }

  /** Names are distinct, so one deletion costs at most one running pod. */
  lemma {:induction false} OneDoomed(pods: seq<Pod>, name: string)
    requires DistinctPods(pods)
    ensures UpCount(pods) <= OthersUp(pods, Some(name)) + 1
  {
    if pods != [] {
      if pods[0].name == name {
        OthersAreFewer(pods[1..], Some(name));
      } else {
        OneDoomed(pods[1..], name);
      }
    }
  }

  // ---- the cluster -------------------------------------------------------------

  /** What the cluster does before it answers a call, and whether it answers. */
  datatype Turn = Turn(worlds: seq<seq<Pod>>, failure: Option<Error>)

  /** The pods a selector matches, the one being deleted, and how the cluster will move. */
  datatype World = World(pods: seq<Pod>, doomed: Option<string>, script: seq<Turn>)

  /** One instant of a run: a move of the cluster's own, a listing, or a deletion. */
  datatype Entry = Drifted(pods: seq<Pod>) | Listed(pods: seq<Pod>) | Deleted(pods: seq<Pod>, name: string)

  /** What a call comes to: the world after it, the instants it took, and its answer. */
  datatype Outcome<R> = Outcome(world: World, log: seq<Entry>, value: R)

  /** On its own the cluster may lose the pod being deleted, and never lowers the number of others running. */
  predicate Steady(now: seq<Pod>, next: seq<Pod>, doomed: Option<string>) {
    DistinctPods(next) && OthersUp(now, doomed) <= OthersUp(next, doomed)
  }

  /** A move that is not steady does not happen. */
  function Moved(w: World, next: seq<Pod>): World {
    if Steady(w.pods, next, w.doomed) then w.(pods := next) else w
  }

  function Drift(w: World, worlds: seq<seq<Pod>>): (r: Outcome<()>)
    ensures r.world.script == w.script
    decreases |worlds|
  {
    if worlds == [] then Outcome(w, [], ())
    else
      var n := |worlds| - 1;
      var before := Drift(w, worlds[..n]);
      var after := Moved(before.world, worlds[n]);
      Outcome(after, before.log + [Drifted(after.pods)], ())
  }

  /** The cluster's own moves up to its next answer; a cluster without a next answer never gives one. */
  function Turned(w: World): (r: Outcome<Option<Error>>)
    ensures r.value.None? ==> |r.world.script| < |w.script|
  {
    if w.script == [] then Outcome(w, [], Some(Timeout))
    else
      var drift := Drift(w.(script := w.script[1..]), w.script[0].worlds);
      Outcome(drift.world, drift.log, w.script[0].failure)
  }

  /** A pod a listing no longer shows is no longer being deleted; another may take its name. */
  function Listing(w: World): (r: Outcome<Result<seq<Pod>, Error>>)
    ensures r.value.Ok? ==> |r.world.script| < |w.script|
  {
    var turn := Turned(w);
    var pods, doomed := turn.world.pods, turn.world.doomed;
    if turn.value.Some? then Outcome(turn.world, turn.log, Err(turn.value.value))
    else
      Outcome(turn.world.(doomed := if doomed.Some? && Gone(pods, doomed.value) then None else doomed),
              turn.log + [Listed(pods)], Ok(pods))
  }

  /** A deletion dooms the pod even when the answer is an error; a dry run dooms nothing. */
  function Deleting(w: World, name: string, dryRun: bool): Outcome<Option<Error>> {
    var turn := Turned(w);
    if dryRun then turn
    else Outcome(turn.world.(doomed := Some(name)), turn.log + [Deleted(turn.world.pods, name)], turn.value)
  }

  class Cluster {
    var pods: seq<Pod>
    var doomed: Option<string>
    var script: seq<Turn>
    ghost var log: seq<Entry>

    function View(): World
      reads this
    {
      World(pods, doomed, script)
    }

    constructor (pods: seq<Pod>, script: seq<Turn>)
      ensures View() == World(pods, None, script) && log == []
    {
      this.pods, this.script, doomed, log := pods, script, None, [];
    }

    method Turn() returns (failure: Option<Error>)
      modifies this
      ensures var turn := Turned(old(View()));
              View() == turn.world && log == old(log) + turn.log && failure == turn.value
    {
      if script == [] {
        return Some(Timeout);
      }
      var turn := script[0];
      script := script[1..];
      ghost var start := View();
      for i := 0 to |turn.worlds|
        invariant View() == Drift(start, turn.worlds[..i]).world && log == old(log) + Drift(start, turn.worlds[..i]).log
      {
        assert turn.worlds[..i + 1][..i] == turn.worlds[..i];
        if Steady(pods, turn.worlds[i], doomed) {
          pods := turn.worlds[i];
        }
        log := log + [Drifted(pods)];
      }
      assert turn.worlds[..|turn.worlds|] == turn.worlds;
      failure := turn.failure;
    }

    method List() returns (r: Result<seq<Pod>, Error>)
      modifies this
      ensures var l := Listing(old(View())); View() == l.world && log == old(log) + l.log && r == l.value
    {
      var failure := Turn();
      if failure.Some? {
        return Err(failure.value);
      }
      log := log + [Listed(pods)];
      if doomed.Some? && Gone(pods, doomed.value) {
        doomed := None;
      }
      r := Ok(pods);
    }

    method Delete(name: string, dryRun: bool) returns (r: Option<Error>)
      modifies this
      ensures var d := Deleting(old(View()), name, dryRun); View() == d.world && log == old(log) + d.log && r == d.value
    {
      r := Turn();
      if !dryRun {
        doomed := Some(name);
        log := log + [Deleted(pods, name)];
      }
    }
  }

  // ---- sorting by name ---------------------------------------------------------

  predicate ByName(p: Pod, q: Pod) {
    NotAfter(p.name, q.name)
  }

  function SortByName(pods: seq<Pod>): seq<Pod> {
    Sort(pods, ByName)
  }

  lemma ByNameIsOrder()
    ensures IsOrder(ByName)
  {
    forall p, q ensures ByName(p, q) || ByName(q, p) {
      NotAfterTotal(p.name, q.name);
    }
    forall p, q, r | ByName(p, q) && ByName(q, r) ensures ByName(p, r) {
      NotAfterTransitive(p.name, q.name, r.name);
    }
  }

  /** The pods in ascending order of name, each as often as listed. */
  lemma SortMeans(pods: seq<Pod>)
    ensures forall i, j :: 0 <= i < j < |SortByName(pods)| ==>
        NotAfter(SortByName(pods)[i].name, SortByName(pods)[j].name)
    ensures multiset(SortByName(pods)) == multiset(pods)
  {
    ByNameIsOrder();
    SortAscends(pods, ByName);
    SortKeeps(pods, ByName);
    forall i, j | 0 <= i < j < |SortByName(pods)| ensures NotAfter(SortByName(pods)[i].name, SortByName(pods)[j].name) {
      assert ByName(Sort(pods, ByName)[i], Sort(pods, ByName)[j]);
    }
  }

  function NamesOf(pods: seq<Pod>): (r: seq<string>)
    ensures |r| == |pods| && forall i :: 0 <= i < |r| ==> r[i] == pods[i].name
  {
    seq(|pods|, i requires 0 <= i < |pods| => pods[i].name)
  }

  // ---- the roll ----------------------------------------------------------------

  /** Poll until the deleted pod is gone and as many run as before. */
  function Awaited(w: World, name: string, target: nat): Outcome<Option<Error>>
    decreases |w.script|
  {
    var now := Listing(w);
    match now.value
    case Err(e) => Outcome(now.world, now.log, Some(e))
    case Ok(pods) =>
      if Gone(pods, name) && UpCount(pods) >= target then Outcome(now.world, now.log, None)
      else
        var more := Awaited(now.world, name, target);
        Outcome(more.world, now.log + more.log, more.value)
  }

  /** One pod's turn: delete it and, unless it is a dry run, wait for its replacement. */
  function RolledOne(w: World, name: string, target: nat, dryRun: bool): Outcome<Option<Error>> {
    var d := Deleting(w, name, dryRun);
    if d.value.Some? || dryRun then d
    else
      var more := Awaited(d.world, name, target);
      Outcome(more.world, d.log + more.log, more.value)
  }

  /** A roll with one more turn, unless it has failed. */
  function Continued(roll: Outcome<Option<Error>>, name: string, target: nat, dryRun: bool): Outcome<Option<Error>> {
    if roll.value.Some? then roll
    else
      var one := RolledOne(roll.world, name, target, dryRun);
      Outcome(one.world, roll.log + one.log, one.value)
  }

  /** The pods in turn, up to the first failure. */
  function Rolled(w: World, names: seq<string>, target: nat, dryRun: bool): Outcome<Option<Error>>
    decreases |names|
  {
    if names == [] then Outcome(w, [], None)
    else var n := |names| - 1; Continued(Rolled(w, names[..n], target, dryRun), names[n], target, dryRun)
  }

  /** The opening list, and everything after it. */
  function Restarted(w: World, dryRun: bool): Outcome<Result<seq<string>, Error>> {
    var opening := Listing(w);
    match opening.value
    case Err(e) => Outcome(opening.world, opening.log, Err(e))
    case Ok(first) =>
      var names := NamesOf(SortByName(first));
      var roll := Rolled(opening.world, names, UpCount(first), dryRun);
      Outcome(roll.world, opening.log + roll.log, if roll.value.Some? then Err(roll.value.value) else Ok(names))
  }

  lemma Regroup(a: seq<Entry>, b: seq<Entry>, c: seq<Entry>)
    ensures a + (b + c) == a + b + c
  {
  }

  method AwaitRecovery(c: Cluster, name: string, target: nat) returns (r: Option<Error>)
    modifies c
    ensures var a := Awaited(old(c.View()), name, target);
            c.View() == a.world && c.log == old(c.log) + a.log && r == a.value
  {
    ghost var all, rest, start, before := Awaited(c.View(), name, target), Awaited(c.View(), name, target), c.log, [];
    while true
      invariant c.log == start + before
      invariant rest == Awaited(c.View(), name, target)
      invariant all.world == rest.world && all.log == before + rest.log && all.value == rest.value
      decreases |c.script|
    {
      ghost var now := Listing(c.View());
      var pods := c.List();
      Regroup(start, before, now.log);
      if pods.Err? {
        return Some(pods.error);
      }
      if Gone(pods.value, name) && UpCount(pods.value) >= target {
        return None;
      }
      rest := Awaited(c.View(), name, target);
      Regroup(before, now.log, rest.log);
      before := before + now.log;
    }
  }

  method RollOne(c: Cluster, name: string, target: nat, dryRun: bool) returns (r: Option<Error>)
    modifies c
    ensures var one := RolledOne(old(c.View()), name, target, dryRun);
            c.View() == one.world && c.log == old(c.log) + one.log && r == one.value
  {
    r := c.Delete(name, dryRun);
    if r.None? && !dryRun {
      r := AwaitRecovery(c, name, target);
    }
  }

  lemma NextRoll(w: World, names: seq<string>, target: nat, dryRun: bool, i: nat)
    requires i < |names|
    ensures Rolled(w, names[..i + 1], target, dryRun) ==
        Continued(Rolled(w, names[..i], target, dryRun), names[i], target, dryRun)
  {
    assert names[..i + 1][..i] == names[..i];
  }

  /** What the first `i` pods of a roll come to. */
  ghost predicate RolledTo(w: World, names: seq<string>, i: nat, target: nat, dryRun: bool,
    roll: Outcome<Option<Error>>) {
    i <= |names| && roll == Rolled(w, names[..i], target, dryRun)
  }

  /** The turn of pod `i`, in the roll that began in the world `w` with the log `start`. */
  method RollNext(c: Cluster, names: seq<string>, i: nat, target: nat, dryRun: bool,
    ghost w: World, ghost start: seq<Entry>, ghost roll: Outcome<Option<Error>>)
    returns (failure: Option<Error>, ghost next: Outcome<Option<Error>>)
    requires i < |names| && RolledTo(w, names, i, target, dryRun, roll) && roll.value.None?
    requires c.View() == roll.world && c.log == start + roll.log
    modifies c
    ensures RolledTo(w, names, i + 1, target, dryRun, next) && failure == next.value
    ensures c.View() == next.world && c.log == start + next.log
  {
    NextRoll(w, names, target, dryRun, i);
    ghost var one := RolledOne(roll.world, names[i], target, dryRun);
    Regroup(start, roll.log, one.log);
    next := Outcome(one.world, roll.log + one.log, one.value);
    failure := RollOne(c, names[i], target, dryRun);
  }

  method Roll(c: Cluster, names: seq<string>, target: nat, dryRun: bool) returns (r: Result<seq<string>, Error>)
    modifies c
    ensures var roll := Rolled(old(c.View()), names, target, dryRun);
            && c.View() == roll.world && c.log == old(c.log) + roll.log
            && r == if roll.value.Some? then Err(roll.value.value) else Ok(names)
  {
    ghost var w, start := c.View(), c.log;
    ghost var roll: Outcome<Option<Error>> := Outcome(w, [], None);
    var deleted: seq<string> := [];
    for i := 0 to |names|
      invariant |deleted| == i && deleted <= names
      invariant RolledTo(w, names, i, target, dryRun, roll) && roll.value.None?
      invariant c.View() == roll.world && c.log == start + roll.log
    {
      var failure;
      failure, roll := RollNext(c, names, i, target, dryRun, w, start, roll);
      deleted := deleted + [names[i]];
      if failure.Some? {
        RollEnds(w, names, i + 1, target, dryRun, roll);
        return Err(failure.value);
      }
    }
    RollEnds(w, names, |names|, target, dryRun, roll);
    assert deleted == names;
    r := Ok(deleted);
  }

  lemma RollEnds(w: World, names: seq<string>, i: nat, target: nat, dryRun: bool, roll: Outcome<Option<Error>>)
    requires RolledTo(w, names, i, target, dryRun, roll) && (roll.value.Some? || i == |names|)
    ensures roll == Rolled(w, names, target, dryRun)
  {
    if roll.value.Some? {
      FailureStays(w, names, target, dryRun, i);
    } else {
      assert names[..i] == names;
    }
  }

  /**
   * Delete the selected pods one at a time, each time waiting until as many run as at the start.
   * The log grows by exactly the instants of the run.
   */
  method Restart(c: Cluster, dryRun: bool) returns (r: Result<seq<string>, Error>)
    modifies c
    ensures var run := Restarted(old(c.View()), dryRun);
            c.View() == run.world && c.log == old(c.log) + run.log && r == run.value
  {
    var listed := c.List();
    if listed.Err? {
      return Err(listed.error);
    }
    var pods := SortByName(listed.value);
    var target := UpCount(listed.value);
    r := Roll(c, NamesOf(pods), target, dryRun);
  }

  lemma {:induction false} FailureStays(w: World, names: seq<string>, target: nat, dryRun: bool, k: nat)
    requires k <= |names| && Rolled(w, names[..k], target, dryRun).value.Some?
    ensures Rolled(w, names, target, dryRun) == Rolled(w, names[..k], target, dryRun)
    decreases |names|
  {
    if k < |names| {
      var n := |names| - 1;
      assert names[..n][..k] == names[..k];
      FailureStays(w, names[..n], target, dryRun, k);
      assert Rolled(w, names, target, dryRun) ==
        Continued(Rolled(w, names[..n], target, dryRun), names[n], target, dryRun);
    } else {
      assert names[..k] == names;
    }
  }

  // ---- what a run looks like -----------------------------------------------------

  /** The deleted pod that has not yet been seen replaced. */
  ghost function Pending(log: seq<Entry>, target: nat): Option<string> {
    if log == [] then None
    else
      var before := Pending(log[..|log| - 1], target);
      match log[|log| - 1]
      case Deleted(_, name) => Some(name)
      case Listed(pods) => if before.Some? && Gone(pods, before.value) && UpCount(pods) >= target then None else before
      case Drifted(_) => before
  }

  /** At every instant at most one pod short of the target; every deletion with the target met and none pending. */
  ghost predicate Orderly(log: seq<Entry>, target: nat) {
    log == [] ||
    (var before, e := log[..|log| - 1], log[|log| - 1];
     && Orderly(before, target)
     && UpCount(e.pods) + 1 >= target
     && (e.Deleted? ==> UpCount(e.pods) >= target && Pending(before, target) == None))
  }

  ghost function Deletions(log: seq<Entry>): seq<string> {
    if log == [] then []
    else
      var e := log[|log| - 1];
      Deletions(log[..|log| - 1]) + if e.Deleted? then [e.name] else []
  }

  /** Between two entries some listing no longer had the pod deleted at `i` and again had enough running. */
  ghost predicate Replaced(log: seq<Entry>, i: nat, end: nat, target: nat)
    requires i < end <= |log| && log[i].Deleted?
  {
    exists k :: i < k < end && log[k].Listed? && Gone(log[k].pods, log[i].name) && UpCount(log[k].pods) >= target
  }

  /** In an orderly log the count never falls more than one short, and only from the target up is anything deleted. */
  lemma {:induction false} OrderlyCounts(log: seq<Entry>, target: nat)
    requires Orderly(log, target)
    ensures forall i :: 0 <= i < |log| ==>
        UpCount(log[i].pods) + 1 >= target && (log[i].Deleted? ==> UpCount(log[i].pods) >= target)
  {
    if log != [] {
      OrderlyCounts(log[..|log| - 1], target);
    }
  }

  /**
   * In an orderly log every deleted pod is seen replaced before the next deletion, and before the end if none
   * is pending.
   */
  lemma {:induction false} OrderlyReplaces(log: seq<Entry>, target: nat, i: nat)
    requires Orderly(log, target) && i < |log| && log[i].Deleted?
    ensures forall j :: i < j < |log| && log[j].Deleted? ==> Replaced(log, i, j, target)
    ensures Replaced(log, i, |log|, target) || Pending(log, target) == Some(log[i].name)
    decreases |log|
  {
    var n := |log| - 1;
    var before := log[..n];
    if i < n {
      OrderlyReplaces(before, target, i);
      assert before[i] == log[i];
      forall j | i < j <= n && Replaced(before, i, j, target)
        ensures Replaced(log, i, j, target) && Replaced(log, i, n + 1, target) {
        var k :| i < k < j && before[k].Listed? && Gone(before[k].pods, before[i].name) &&
          UpCount(before[k].pods) >= target;
        assert log[k] == before[k];
      }
      forall j | i < j < n && log[j].Deleted? ensures Replaced(log, i, j, target) {
        assert before[j] == log[j];
      }
      if log[n].Listed? && Gone(log[n].pods, log[i].name) && UpCount(log[n].pods) >= target {
        assert Replaced(log, i, n + 1, target);
      }
    }
  }

  // ---- every run is orderly ------------------------------------------------------

  /** Where a roll stands: the log so far, the deletion that is pending, and those made. */
  ghost predicate Stands(log: seq<Entry>, target: nat, pending: Option<string>, deletions: seq<string>) {
    Orderly(log, target) && Pending(log, target) == pending && Deletions(log) == deletions
  }

  lemma Snoc(log: seq<Entry>, e: Entry)
    ensures (log + [e])[..|log + [e]| - 1] == log && (log + [e])[|log + [e]| - 1] == e
  {
  }

  /** The cluster's own moves lose nobody but the doomed pod, so they change nothing a roll stands for. */
  lemma {:induction false} DriftKeeps(w: World, worlds: seq<seq<Pod>>, done: seq<Entry>, target: nat,
    pending: Option<string>,
    deletions: seq<string>)
    requires DistinctPods(w.pods) && OthersUp(w.pods, w.doomed) + 1 >= target
    requires Stands(done, target, pending, deletions)
    ensures var d := Drift(w, worlds);
            && d.world.doomed == w.doomed && DistinctPods(d.world.pods)
            && OthersUp(w.pods, w.doomed) <= OthersUp(d.world.pods, w.doomed)
            && Stands(done + d.log, target, pending, deletions)
    decreases |worlds|
  {
    if worlds == [] {
      assert done + [] == done;
    } else {
      var n := |worlds| - 1;
      DriftKeeps(w, worlds[..n], done, target, pending, deletions);
      var before := Drift(w, worlds[..n]);
      var after := Moved(before.world, worlds[n]);
      DriftedStands(done + before.log, after.pods, w.doomed, target, pending, deletions);
      assert done + (before.log + [Drifted(after.pods)]) == done + before.log + [Drifted(after.pods)];
    }
  }

  lemma DriftedStands(log: seq<Entry>, pods: seq<Pod>, doomed: Option<string>, target: nat, pending: Option<string>,
    deletions: seq<string>)
    requires Stands(log, target, pending, deletions) && OthersUp(pods, doomed) + 1 >= target
    ensures Stands(log + [Drifted(pods)], target, pending, deletions)
  {
    Snoc(log, Drifted(pods));
    OthersAreFewer(pods, doomed);
    assert deletions + [] == deletions;
  }

  lemma TurnKeeps(w: World, done: seq<Entry>, target: nat, pending: Option<string>, deletions: seq<string>)
    requires DistinctPods(w.pods) && OthersUp(w.pods, w.doomed) + 1 >= target
    requires Stands(done, target, pending, deletions)
    ensures var turn := Turned(w);
            && turn.world.doomed == w.doomed && DistinctPods(turn.world.pods)
            && OthersUp(w.pods, w.doomed) <= OthersUp(turn.world.pods, w.doomed)
            && Stands(done + turn.log, target, pending, deletions)
  {
    if w.script == [] {
      assert done + [] == done;
    } else {
      DriftKeeps(w.(script := w.script[1..]), w.script[0].worlds, done, target, pending, deletions);
    }
  }

  lemma ListedStands(log: seq<Entry>, pods: seq<Pod>, doomed: Option<string>, target: nat, name: string,
    deletions: seq<string>)
    requires Stands(log, target, Some(name), deletions) && OthersUp(pods, doomed) + 1 >= target
    ensures var back := Gone(pods, name) && UpCount(pods) >= target;
            Stands(log + [Listed(pods)], target, if back then None else Some(name), deletions)
  {
    Snoc(log, Listed(pods));
    OthersAreFewer(pods, doomed);
    assert deletions + [] == deletions;
  }

  lemma DeletedStands(log: seq<Entry>, pods: seq<Pod>, target: nat, name: string, deletions: seq<string>)
    requires Stands(log, target, None, deletions) && UpCount(pods) >= target && DistinctPods(pods)
    ensures Stands(log + [Deleted(pods, name)], target, Some(name), deletions + [name])
    ensures OthersUp(pods, Some(name)) + 1 >= target
  {
    Snoc(log, Deleted(pods, name));
    OneDoomed(pods, name);
  }

  /** A pod that is being deleted, or has been seen gone. */
  ghost predicate Dooms(w: World, name: string) {
    w.doomed == Some(name) || w.doomed == None
  }

  lemma ListingKeeps(w: World, name: string, target: nat, done: seq<Entry>, deletions: seq<string>)
    requires DistinctPods(w.pods) && OthersUp(w.pods, w.doomed) + 1 >= target && Dooms(w, name)
    requires Stands(done, target, Some(name), deletions)
    ensures var now := Listing(w);
            if now.value.Err? then Stands(done + now.log, target, Some(name), deletions)
            else
              var pods := now.value.value;
              var back := Gone(pods, name) && UpCount(pods) >= target;
              && Stands(done + now.log, target, if back then None else Some(name), deletions)
              && now.world.pods == pods && DistinctPods(pods) && Dooms(now.world, name)
              && OthersUp(pods, now.world.doomed) + 1 >= target
              && (back ==> now.world.doomed == None)
  {
    TurnKeeps(w, done, target, Some(name), deletions);
    var turn, now := Turned(w), Listing(w);
    if now.value.Ok? {
      var pods := now.value.value;
      ListedStands(done + turn.log, pods, w.doomed, target, name, deletions);
      assert done + now.log == done + turn.log + [Listed(pods)];
      OthersAreFewer(pods, w.doomed);
      OthersAreFewer(pods, None);
    }
  }

  /** Polling keeps the run orderly, and ends well only with nothing pending and the target running again. */
  lemma {:induction false} AwaitedKeeps(w: World, name: string, target: nat, done: seq<Entry>, deletions: seq<string>)
    requires DistinctPods(w.pods) && OthersUp(w.pods, w.doomed) + 1 >= target && Dooms(w, name)
    requires Stands(done, target, Some(name), deletions)
    ensures var a := Awaited(w, name, target);
            if a.value.Some? then Stands(done + a.log, target, Some(name), deletions)
            else Stands(done + a.log, target, None, deletions) && Ready(a.world, target)
    decreases |w.script|
  {
    ListingKeeps(w, name, target, done, deletions);
    var now := Listing(w);
    if now.value.Ok? && !(Gone(now.value.value, name) && UpCount(now.value.value) >= target) {
      AwaitedKeeps(now.world, name, target, done + now.log, deletions);
      var more := Awaited(now.world, name, target);
      assert done + (now.log + more.log) == done + now.log + more.log;
    }
  }

  /** Nothing is being deleted and the target runs. */
  ghost predicate Ready(w: World, target: nat) {
    DistinctPods(w.pods) && w.doomed == None && UpCount(w.pods) >= target
  }

  lemma DeletingKeeps(w: World, name: string, target: nat, done: seq<Entry>, deletions: seq<string>)
    requires Ready(w, target) && Stands(done, target, None, deletions)
    ensures var d := Deleting(w, name, false);
            && DistinctPods(d.world.pods) && d.world.doomed == Some(name) &&
              OthersUp(d.world.pods, Some(name)) + 1 >= target
            && Stands(done + d.log, target, Some(name), deletions + [name])
  {
    OthersAreFewer(w.pods, None);
    TurnKeeps(w, done, target, None, deletions);
    var turn, d := Turned(w), Deleting(w, name, false);
    OthersAreFewer(turn.world.pods, None);
    DeletedStands(done + turn.log, turn.world.pods, target, name, deletions);
    Regroup(done, turn.log, [Deleted(turn.world.pods, name)]);
  }

  lemma DryRunKeeps(w: World, name: string, target: nat, done: seq<Entry>, deletions: seq<string>)
    requires Ready(w, target) && Stands(done, target, None, deletions)
    ensures var d := Deleting(w, name, true); Stands(done + d.log, target, None, deletions) && Ready(d.world, target)
  {
    OthersAreFewer(w.pods, None);
    TurnKeeps(w, done, target, None, deletions);
    OthersAreFewer(Turned(w).world.pods, None);
  }

  lemma OneKeeps(w: World, name: string, target: nat, dryRun: bool, done: seq<Entry>, deletions: seq<string>)
    requires Ready(w, target) && Stands(done, target, None, deletions)
    ensures var one := RolledOne(w, name, target, dryRun);
            && Orderly(done + one.log, target)
            && Deletions(done + one.log) == (if dryRun then deletions else deletions + [name])
            && (one.value.None? ==> Pending(done + one.log, target) == None && Ready(one.world, target))
  {
    if dryRun {
      DryRunKeeps(w, name, target, done, deletions);
    } else {
      var d := Deleting(w, name, false);
      DeletingKeeps(w, name, target, done, deletions);
      if d.value.None? {
        AwaitedKeeps(d.world, name, target, done + d.log, deletions + [name]);
        Regroup(done, d.log, Awaited(d.world, name, target).log);
      }
    }
  }

  /** An orderly roll that has deleted `names` in order as far as it got, all of them when it ends well. */
  ghost predicate RollsTo(roll: Outcome<Option<Error>>, names: seq<string>, target: nat) {
    && Orderly(roll.log, target)
    && Deletions(roll.log) <= names
    && (roll.value.None? ==> Stands(roll.log, target, None, names) && Ready(roll.world, target))
  }

  /** One more turn of a roll, whatever it has come to. */
  lemma ContinuedRolls(roll: Outcome<Option<Error>>, name: string, target: nat, dryRun: bool, names: seq<string>)
    requires RollsTo(roll, if dryRun then [] else names, target)
    ensures RollsTo(Continued(roll, name, target, dryRun), if dryRun then [] else names + [name], target)
  {
    if roll.value.None? {
      OneKeeps(roll.world, name, target, dryRun, roll.log, if dryRun then [] else names);
    } else if !dryRun {
      assert names <= names + [name];
    }
  }

  lemma RollLast(w: World, some: seq<string>, x: string, target: nat, dryRun: bool)
    requires RollsTo(Rolled(w, some, target, dryRun), if dryRun then [] else some, target)
    ensures RollsTo(Rolled(w, some + [x], target, dryRun), if dryRun then [] else some + [x], target)
  {
    var names := some + [x];
    assert names[..|names| - 1] == some && names[|names| - 1] == x;
    ContinuedRolls(Rolled(w, some, target, dryRun), x, target, dryRun, some);
  }

  /** Rolling through the names keeps the run orderly however it ends. */
  lemma {:induction false} RollKeeps(w: World, names: seq<string>, target: nat, dryRun: bool)
    requires Ready(w, target)
    ensures RollsTo(Rolled(w, names, target, dryRun), if dryRun then [] else names, target)
    decreases |names|
  {
    if names != [] {
      var some, x := names[..|names| - 1], names[|names| - 1];
      assert names == some + [x];
      RollKeeps(w, some, target, dryRun);
      RollLast(w, some, x, target, dryRun);
    }
  }

  /** Nothing is deleted before or by the opening list. */
  lemma OpeningDeletesNothing(w: World)
    requires DistinctPods(w.pods) && w.doomed == None
    ensures Deletions(Listing(w).log) == []
  {
    TurnKeeps(w, [], 0, None, []);
    var turn := Turned(w);
    assert [] + turn.log == turn.log;
    if turn.value.None? {
      Snoc(turn.log, Listed(turn.world.pods));
    }
  }

  /** The opening list shows distinct pods and leaves nothing being deleted. */
  lemma OpeningIsReady(w: World)
    requires DistinctPods(w.pods) && w.doomed == None
    ensures var opening := Listing(w);
            && (opening.value.Ok? ==> Ready(opening.world, UpCount(opening.value.value)))
            && (opening.value.Ok? ==> opening.world.pods == opening.value.value)
  {
    TurnKeeps(w, [], 0, None, []);
  }

  /**
   * Against any cluster that on its own never lowers the number of pods running, everything after the
   * opening list is orderly for the number running in it, however the run ends; the deletions are a
   * prefix of its names in ascending order, and on success all of them, each seen replaced. A run
   * without an opening list, or a dry run, deletes nothing.
   */
  lemma RestartIsOrderly(w: World, dryRun: bool)
    requires DistinctPods(w.pods) && w.doomed == None
    ensures var run, opening := Restarted(w, dryRun), Listing(w);
            && Deletions(opening.log) == []
            && (opening.value.Err? ==> run.log == opening.log && run.value.Err?)
            && (opening.value.Ok? ==>
                  var first := opening.value.value;
                  var names, target := NamesOf(SortByName(first)), UpCount(first);
                  && opening.log <= run.log && opening.log != [] && opening.log[|opening.log| - 1] == Listed(first)
                  && var rest := run.log[|opening.log|..];
                     && Orderly(rest, target)
                     && (if dryRun then Deletions(rest) == [] else Deletions(rest) <= names)
                     && (run.value.Ok? ==> run.value.value == names)
                     && (run.value.Ok? && !dryRun ==> Deletions(rest) == names && Pending(rest, target) == None))
  {
    OpeningDeletesNothing(w);
    OpeningIsReady(w);
    var opening := Listing(w);
    if opening.value.Ok? {
      var first := opening.value.value;
      RollKeeps(opening.world, NamesOf(SortByName(first)), UpCount(first), dryRun);
      var roll := Rolled(opening.world, NamesOf(SortByName(first)), UpCount(first), dryRun);
      assert (opening.log + roll.log)[|opening.log|..] == roll.log;
    }
  }
}
