/** What the supervisor's tails are after any run of events, told from the events alone. */
module SupervisorHistory {
  import opened Names
  import opened Pods
  import opened LogSupervisor

  /** What an event meant when it happened: a task that joined well is the end of its key's tail. */
  datatype Fact =
    | PodApplied(pod: Pod)
    | PodDeleted(name: string)
    | ResyncBegan
    | ResyncEnded
    | TailCompleted(key: Key)
    | Nothing

  function FactOf(st: State, ev: Event): Fact {
    match ev
    case Applied(pod) => PodApplied(pod)
    case Deleted(name) => PodDeleted(name)
    case Resync => ResyncBegan
    case ResyncDone => ResyncEnded
    case WatchError => Nothing
    case Joined(task, ok) => if ok && task in st.tasks then TailCompleted(st.tasks[task].key) else Nothing
  }

  function Facts(sel: ContainerSelect, events: seq<Event>): (h: seq<Fact>)
    ensures |h| == |events|
    decreases |events|
  {
    if events == [] then []
    else
      var n := |events| - 1;
      Facts(sel, events[..n]) + [FactOf(Run(sel, Initial, events[..n]), events[n])]
  }

  predicate Starts(sel: ContainerSelect, fact: Fact, key: Key) {
    && fact.PodApplied? && !Terminal(fact.pod) && fact.pod.name == key.0
    && key.1 in SelectContainers(fact.pod, sel) && RunningIn(fact.pod, key.1)
  }

  /** Before moment `j`, the pod was applied after the latest resync began. */
  ghost predicate Mentioned(h: seq<Fact>, j: nat, name: string)
    requires j <= |h|
  {
    exists i :: 0 <= i < j && MentionedAt(h, i, j, name)
  }

  ghost predicate MentionedAt(h: seq<Fact>, i: nat, j: nat, name: string)
    requires i < j <= |h|
  {
    h[i].PodApplied? && h[i].pod.name == name && forall m :: i < m < j ==> !h[m].ResyncBegan?
  }

  ghost predicate Stops(h: seq<Fact>, j: nat, key: Key)
    requires j < |h|
  {
    match h[j]
    case PodDeleted(name) => name == key.0
    case PodApplied(pod) => Terminal(pod) && pod.name == key.0
    case TailCompleted(k) => k == key
    case ResyncEnded => !Mentioned(h, j, key.0)
    case _ => false
  }

  /** Some fact starts the tail and no later one stops it. */
  ghost predicate Tailed(sel: ContainerSelect, h: seq<Fact>, key: Key) {
    exists i :: 0 <= i < |h| && StartedFor(sel, h, i, key)
  }

  ghost predicate StartedFor(sel: ContainerSelect, h: seq<Fact>, i: nat, key: Key)
    requires i < |h|
  {
    Starts(sel, h[i], key) && forall j :: i < j < |h| ==> !Stops(h, j, key)
  }

  // ---- one more fact -------------------------------------------------------

  lemma MentionedEarlier(h: seq<Fact>, fact: Fact, j: nat, name: string)
    requires j <= |h|
    ensures Mentioned(h + [fact], j, name) <==> Mentioned(h, j, name)
  {
    forall i | 0 <= i < j ensures MentionedAt(h + [fact], i, j, name) <==> MentionedAt(h, i, j, name) {
      assert forall m :: 0 <= m < j ==> (h + [fact])[m] == h[m];
    }
  }

  lemma MentionedNow(h: seq<Fact>, fact: Fact, name: string)
    ensures Mentioned(h + [fact], |h| + 1, name) <==>
              (fact.PodApplied? && fact.pod.name == name) || (Mentioned(h, |h|, name) && !fact.ResyncBegan?)
  {
    var h' := h + [fact];
    assert h'[|h|] == fact;
    forall i | 0 <= i < |h|
      ensures MentionedAt(h', i, |h'|, name) <==> MentionedAt(h, i, |h|, name) && !fact.ResyncBegan? {
      assert forall m :: 0 <= m < |h| ==> h'[m] == h[m];
    }
    assert MentionedAt(h', |h|, |h'|, name) <==> fact.PodApplied? && fact.pod.name == name;
  }

  lemma StopsEarlier(h: seq<Fact>, fact: Fact, j: nat, key: Key)
    requires j < |h|
    ensures Stops(h + [fact], j, key) <==> Stops(h, j, key)
  {
    MentionedEarlier(h, fact, j, key.0);
  }

  lemma StartedEarlier(sel: ContainerSelect, h: seq<Fact>, fact: Fact, i: nat, key: Key)
    requires i < |h|
    ensures StartedFor(sel, h + [fact], i, key) <==> StartedFor(sel, h, i, key) && !Stops(h + [fact], |h|, key)
  {
    var h' := h + [fact];
    assert h'[i] == h[i];
    forall j | 0 <= j < |h| ensures Stops(h', j, key) <==> Stops(h, j, key) {
      StopsEarlier(h, fact, j, key);
    }
  }

  lemma TailedNow(sel: ContainerSelect, h: seq<Fact>, fact: Fact, key: Key)
    ensures Tailed(sel, h + [fact], key) <==>
              Starts(sel, fact, key) || (Tailed(sel, h, key) && !Stops(h + [fact], |h|, key))
  {
    var h' := h + [fact];
    assert h'[|h|] == fact;
    forall i | 0 <= i < |h|
      ensures StartedFor(sel, h', i, key) <==> StartedFor(sel, h, i, key) && !Stops(h', |h|, key)
    {
      StartedEarlier(sel, h, fact, i, key);
    }
    assert StartedFor(sel, h', |h|, key) <==> Starts(sel, fact, key);
  }

  // ---- one step ------------------------------------------------------------

  lemma {:induction false} SpawnMissingKeys(st: State, pod: Pod, names: seq<string>, key: Key)
    ensures key in SpawnMissing(st, pod, names).tails <==>
              key in st.tails || (key.0 == pod.name && key.1 in names && RunningIn(pod, key.1))
    decreases |names|
  {
    if names != [] {
      var k := (pod.name, names[0]);
      var st' := if RunningIn(pod, names[0]) && k !in st.tails then Spawn(st, k) else st;
      SpawnMissingKeys(st', pod, names[1..], key);
    }
  }

  lemma {:induction false} SpawnMissingKeepsSeen(st: State, pod: Pod, names: seq<string>)
    ensures SpawnMissing(st, pod, names).seen == st.seen
    decreases |names|
  {
    if names != [] {
      var k := (pod.name, names[0]);
      var st' := if RunningIn(pod, names[0]) && k !in st.tails then Spawn(st, k) else st;
      SpawnMissingKeepsSeen(st', pod, names[1..]);
    }
  }

  lemma StepTails(sel: ContainerSelect, st: State, ev: Event, h: seq<Fact>, key: Key)
    requires key.0 in st.seen <==> Mentioned(h, |h|, key.0)
    ensures var h' := h + [FactOf(st, ev)];
            key in Step(sel, st, ev).tails <==>
              Starts(sel, FactOf(st, ev), key) || (key in st.tails && !Stops(h', |h|, key))
  {
    var fact := FactOf(st, ev);
    assert (h + [fact])[|h|] == fact;
    match ev
    case Applied(pod) =>
      if !Terminal(pod) {
        SpawnMissingKeys(st.(seen := st.seen + {pod.name}), pod, SelectContainers(pod, sel), key);
      }
    case ResyncDone =>
      MentionedEarlier(h, fact, |h|, key.0);
      if key in st.tails {
        assert key.0 in Gone(st) <==> key.0 !in st.seen;
      }
    case _ =>
  }

  lemma StepSeen(sel: ContainerSelect, st: State, ev: Event, h: seq<Fact>, name: string)
    requires name in st.seen <==> Mentioned(h, |h|, name)
    ensures name in Step(sel, st, ev).seen <==> Mentioned(h + [FactOf(st, ev)], |h| + 1, name)
  {
    MentionedNow(h, FactOf(st, ev), name);
    if ev.Applied? && !Terminal(ev.pod) {
      SpawnMissingKeepsSeen(st.(seen := st.seen + {ev.pod.name}), ev.pod, SelectContainers(ev.pod, sel));
    }
  }

  // ---- every run -----------------------------------------------------------

  /** After any run, `seen` is what was applied since the latest resync began. */
  lemma {:induction false} SeenFollowsHistory(sel: ContainerSelect, events: seq<Event>, name: string)
    ensures name in Run(sel, Initial, events).seen <==> Mentioned(Facts(sel, events), |events|, name)
    decreases |events|
  {
    if events != [] {
      var n := |events| - 1;
      SeenFollowsHistory(sel, events[..n], name);
      StepSeen(sel, Run(sel, Initial, events[..n]), events[n], Facts(sel, events[..n]), name);
    }
  }

  /**
   * After any run a key has a tail exactly when some live `Applied` started it
   * and nothing since has stopped it.
   */
  lemma {:induction false} TailsFollowHistory(sel: ContainerSelect, events: seq<Event>, key: Key)
    ensures key in Run(sel, Initial, events).tails <==> Tailed(sel, Facts(sel, events), key)
    decreases |events|
  {
    if events != [] {
      var n := |events| - 1;
      var st, h, ev := Run(sel, Initial, events[..n]), Facts(sel, events[..n]), events[n];
      TailsFollowHistory(sel, events[..n], key);
      SeenFollowsHistory(sel, events[..n], key.0);
      StepTails(sel, st, ev, h, key);
      TailedNow(sel, h, FactOf(st, ev), key);
    }
  }

  // ---- one live tail per key -----------------------------------------------

  predicate Live(st: State, id: nat) {
    id in st.tasks && !st.tasks[id].aborted
  }

  /** Every task that still runs is the one its key's handle belongs to. */
  ghost predicate OneLive(st: State) {
    && (forall id :: Live(st, id) ==> st.tasks[id].key in st.tails && st.tails[st.tasks[id].key] == id)
    && (forall k :: k in st.tails && st.tails[k] in st.tasks ==> st.tasks[st.tails[k]] == Task(k, false))
    && (forall id :: id in st.tasks ==> id < st.next)
    && (forall k :: k in st.tails ==> st.tails[k] < st.next)
  }

  /** A task that returned its key after another task had been spawned for it. */
  predicate Untidy(st: State, ev: Event) {
    && ev.Joined? && ev.ok && ev.task in st.tasks
    && var key := st.tasks[ev.task].key;
       key in st.tails && st.tails[key] != ev.task && st.tails[key] in st.tasks
  }

  lemma StopKeepsOneLive(st: State, pods: set<string>)
    requires OneLive(st)
    ensures OneLive(StopPods(st, pods))
    ensures forall id :: Live(StopPods(st, pods), id) <==> Live(st, id) && st.tasks[id].key.0 !in pods
  {
    var st' := StopPods(st, pods);
    forall id | id in st.tasks
      ensures st'.tasks[id].aborted <==> st.tasks[id].aborted || st.tasks[id].key.0 in pods
    {
      if Live(st, id) {
        assert st.tails[st.tasks[id].key] == id;
      }
    }
  }

  lemma {:induction false} SpawnKeepsOneLive(st: State, pod: Pod, names: seq<string>)
    requires OneLive(st)
    ensures OneLive(SpawnMissing(st, pod, names))
    decreases |names|
  {
    if names != [] {
      var k := (pod.name, names[0]);
      var st' := if RunningIn(pod, names[0]) && k !in st.tails then Spawn(st, k) else st;
      SpawnKeepsOneLive(st', pod, names[1..]);
    }
  }

  /** A step keeps one live tail per key exactly when it is not an untidy join. */
  lemma StepOneLive(sel: ContainerSelect, st: State, ev: Event)
    requires OneLive(st)
    ensures OneLive(Step(sel, st, ev)) <==> !Untidy(st, ev)
  {
    match ev
    case Applied(pod) =>
      var st' := st.(seen := st.seen + {pod.name});
      if Terminal(pod) {
        StopKeepsOneLive(st', {pod.name});
      } else {
        SpawnKeepsOneLive(st', pod, SelectContainers(pod, sel));
      }
    case Deleted(name) => StopKeepsOneLive(st, {name});
    case ResyncDone => StopKeepsOneLive(st, Gone(st));
    case Joined(task, ok) =>
      if Untidy(st, ev) {
        var key := st.tasks[task].key;
        var st' := Step(sel, st, ev);
        assert Live(st', st.tails[key]) && st'.tasks[st.tails[key]].key == key && key !in st'.tails;
      }
    case _ =>
  }

  ghost predicate AlwaysOneLive(sel: ContainerSelect, events: seq<Event>)
    decreases |events|
  {
    OneLive(Run(sel, Initial, events)) && (events != [] ==> AlwaysOneLive(sel, events[..|events| - 1]))
  }

  predicate AlwaysTidy(sel: ContainerSelect, events: seq<Event>)
    decreases |events|
  {
    events != [] ==>
      var n := |events| - 1;
      AlwaysTidy(sel, events[..n]) && !Untidy(Run(sel, Initial, events[..n]), events[n])
  }

  /** Over whole runs: one live tail per key at every moment, exactly when no join was untidy. */
  lemma {:induction false} RunOneLive(sel: ContainerSelect, events: seq<Event>)
    ensures AlwaysOneLive(sel, events) <==> AlwaysTidy(sel, events)
    decreases |events|
  {
    if events != [] {
      var n := |events| - 1;
      RunOneLive(sel, events[..n]);
      if OneLive(Run(sel, Initial, events[..n])) {
        StepOneLive(sel, Run(sel, Initial, events[..n]), events[n]);
      }
    }
  }

  /** The events that stop a pod: a deletion, a terminal apply, or a resync's end that did not mention it. */
  predicate StopsPod(st: State, ev: Event, name: string) {
    match ev
    case Applied(pod) => Terminal(pod) && pod.name == name
    case Deleted(gone) => gone == name
    case ResyncDone => name !in st.seen
    case _ => false
  }

  /** With one live tail per key, a stop leaves exactly the running tasks of the pods it does not stop. */
  lemma StopLeavesNone(sel: ContainerSelect, st: State, ev: Event, name: string)
    requires OneLive(st) && StopsPod(st, ev, name)
    ensures forall id :: Live(Step(sel, st, ev), id) <==> Live(st, id) && !StopsPod(st, ev, st.tasks[id].key.0)
    ensures forall id :: Live(Step(sel, st, ev), id) ==> Step(sel, st, ev).tasks[id] == st.tasks[id]
  {
    match ev
    case Applied(pod) => StopKeepsOneLive(st.(seen := st.seen + {pod.name}), {pod.name});
    case Deleted(_) => StopKeepsOneLive(st, {name});
    case ResyncDone => StopKeepsOneLive(st, Gone(st));
  }

  lemma {:induction false} NothingMissing(st: State, pod: Pod, names: seq<string>)
    requires forall n :: n in names && RunningIn(pod, n) ==> (pod.name, n) in st.tails
    ensures SpawnMissing(st, pod, names) == st
    decreases |names|
  {
    if names != [] {
      NothingMissing(st, pod, names[1..]);
    }
  }

  /** Seeing the same live pod again changes nothing, so it spawns nothing. */
  lemma AppliedTwice(sel: ContainerSelect, st: State, pod: Pod)
    requires !Terminal(pod)
    ensures Step(sel, Step(sel, st, Applied(pod)), Applied(pod)) == Step(sel, st, Applied(pod))
  {
    var names := SelectContainers(pod, sel);
    var st0 := st.(seen := st.seen + {pod.name});
    var st1 := SpawnMissing(st0, pod, names);
    SpawnMissingKeepsSeen(st0, pod, names);
    assert st1.(seen := st1.seen + {pod.name}) == st1;
    forall n | n in names && RunningIn(pod, n) ensures (pod.name, n) in st1.tails {
      SpawnMissingKeys(st0, pod, names, (pod.name, n));
    }
    NothingMissing(st1, pod, names);
  }

  /**
   * Joins are by key, not by task: a task that returns just before it is
   * aborted can take its successor's handle with it, and the next `Applied`
   * then starts a second tail beside the one already running.
   */
  lemma TwoTailsForOneKey(sel: ContainerSelect, pod: Pod, name: string)
    requires !Terminal(pod) && SelectContainers(pod, sel) == [name] && RunningIn(pod, name)
    ensures var st := Run(sel, Initial, [Applied(pod), Deleted(pod.name), Applied(pod), Joined(0, true), Applied(pod)]);
            Live(st, 1) && Live(st, 2) && st.tasks[1].key == st.tasks[2].key
  {
    var key := (pod.name, name);
    RunOfFive(sel, Applied(pod), Deleted(pod.name), Applied(pod), Joined(0, true), Applied(pod));
    SpawnsOne(sel, Initial, pod, name);
    var s1 := Step(sel, Initial, Applied(pod));
    StopsOne(sel, s1, key);
    var s2 := Step(sel, s1, Deleted(pod.name));
    SpawnsOne(sel, s2, pod, name);
    var s3 := Step(sel, s2, Applied(pod));
    JoinsFirst(sel, s3, key);
    SpawnsOne(sel, Step(sel, s3, Joined(0, true)), pod, name);
  }

  /** Deleting the pod of the one tail there is. */
  lemma StopsOne(sel: ContainerSelect, st: State, key: Key)
    requires st.tails == map[key := 0] && st.tasks == map[0 := Task(key, false)]
    ensures var st' := Step(sel, st, Deleted(key.0));
            st'.tails == map[] && st'.tasks == map[0 := Task(key, true)] && st'.next == st.next && st'.seen == st.seen
  {
  }

  /** The first task's join takes the second's handle with it. */
  lemma JoinsFirst(sel: ContainerSelect, st: State, key: Key)
    requires st.tails == map[key := 1] && st.tasks == map[0 := Task(key, true), 1 := Task(key, false)] && st.next == 2
    ensures var st' := Step(sel, st, Joined(0, true));
            st'.tails == map[] && st'.tasks == map[1 := Task(key, false)] && st'.next == 2
  {
  }

  lemma RunOfFive(sel: ContainerSelect, a: Event, b: Event, c: Event, d: Event, e: Event)
    ensures Run(sel, Initial, [a, b, c, d, e])
         == Step(sel, Step(sel, Step(sel, Step(sel, Step(sel, Initial, a), b), c), d), e)
  {
    var events := [a, b, c, d, e];
    RunNext(sel, events, 0);
    RunNext(sel, events, 1);
    RunNext(sel, events, 2);
    RunNext(sel, events, 3);
    RunNext(sel, events, 4);
    assert events[..0] == [] && events[..5] == events;
  }

  lemma RunNext(sel: ContainerSelect, events: seq<Event>, n: nat)
    requires n < |events|
    ensures Run(sel, Initial, events[..n + 1]) == Step(sel, Run(sel, Initial, events[..n]), events[n])
  {
    assert events[..n + 1][..n] == events[..n];
  }

  lemma SpawnsOne(sel: ContainerSelect, st: State, pod: Pod, name: string)
    requires !Terminal(pod) && SelectContainers(pod, sel) == [name] && RunningIn(pod, name)
    requires (pod.name, name) !in st.tails
    ensures Step(sel, st, Applied(pod)) == Spawn(st.(seen := st.seen + {pod.name}), (pod.name, name))
  {
    var st0, key := st.(seen := st.seen + {pod.name}), (pod.name, name);
    var names := [name];
    assert SpawnMissing(st0, pod, names) == SpawnMissing(Spawn(st0, key), pod, names[1..]);
    assert names[1..] == [];
  }
}
