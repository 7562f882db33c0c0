/** The supervisor that keeps one log tail per pod and container under a stream of watch events. */
module LogSupervisor {
  import opened Names
  import opened Pods

  datatype ContainerSelect = Default | Named(names: seq<string>) | All

  type Key = (string, string)

  const MAIN_CONTAINER := "numa"

  // ---- which containers --------------------------------------------------

  predicate HasContainer(pod: Pod, name: string) {
    exists i :: 0 <= i < |pod.containers| && pod.containers[i].name == name
  }

  function NonInit(containers: seq<Container>): (names: seq<string>)
    ensures forall n :: n in names <==>
        exists i :: 0 <= i < |containers| && containers[i].name == n && !containers[i].isInit
  {
    if containers == [] then []
    else (if containers[0].isInit then [] else [containers[0].name]) + NonInit(containers[1..])
  }

  function Found(pod: Pod, names: seq<string>): (r: seq<string>)
    ensures forall n :: n in r <==> n in names && HasContainer(pod, n)
  {
    if names == [] then []
    else (if HasContainer(pod, names[0]) then [names[0]] else []) + Found(pod, names[1..])
  }

  /** Pick the containers to tail on a pod. */
  function SelectContainers(pod: Pod, sel: ContainerSelect): (r: seq<string>)
    ensures forall n :: n in r ==> HasContainer(pod, n)
    ensures sel.All? ==> forall n :: n in r <==>
        exists i :: 0 <= i < |pod.containers| && pod.containers[i].name == n && !pod.containers[i].isInit
    ensures sel.Named? ==> forall n :: n in r <==> n in sel.names && HasContainer(pod, n)
    ensures sel.Default? ==> forall n :: n in r <==>
        HasContainer(pod, n) && (n == MAIN_CONTAINER || pod.defaultContainer == Some(n))
  {
    match sel
    case All => NonInit(pod.containers)
    case Named(names) => Found(pod, names)
    case Default =>
      var main := Found(pod, [MAIN_CONTAINER]);
      if pod.defaultContainer.Some? && pod.defaultContainer.value !in main &&
        HasContainer(pod, pod.defaultContainer.value)
      then main + [pod.defaultContainer.value]
      else main
  }

  predicate Terminal(pod: Pod) {
    pod.phase == Succeeded || pod.phase == Failed
  }

  predicate RunningIn(pod: Pod, name: string) {
    exists i :: 0 <= i < |pod.containers| && pod.containers[i].name == name && pod.containers[i].running
  }

  // ---- one step ------------------------------------------------------------

  datatype Task = Task(key: Key, aborted: bool)

  /**
   * What `select!` hands over next. A joined task is `ok` when it returned its
   * key and not when it was cancelled or panicked.
   */
  datatype Event =
    | Applied(pod: Pod)
    | Deleted(name: string)
    | Resync
    | ResyncDone
    | WatchError
    | Joined(task: nat, ok: bool)

  /** `tails` holds the abort handles, `tasks` the join set, `next` the next task's id. */
  datatype State = State(tails: map<Key, nat>, tasks: map<nat, Task>, seen: set<string>, next: nat)

  const Initial := State(map[], map[], {}, 0)

  function Aborted(tasks: map<nat, Task>, ids: set<nat>): map<nat, Task> {
    map id | id in tasks :: if id in ids then tasks[id].(aborted := true) else tasks[id]
  }

  /** Abort and forget every tail of the pods. */
  function StopPods(st: State, pods: set<string>): State {
    var ids := set k | k in st.tails && k.0 in pods :: st.tails[k];
    st.(tails := map k | k in st.tails && k.0 !in pods :: st.tails[k], tasks := Aborted(st.tasks, ids))
  }

  function Spawn(st: State, key: Key): State {
    st.(tails := st.tails[key := st.next], tasks := st.tasks[st.next := Task(key, false)], next := st.next + 1)
  }

  function SpawnMissing(st: State, pod: Pod, names: seq<string>): State
    decreases |names|
  {
    if names == [] then st
    else
      var key := (pod.name, names[0]);
      var st' := if RunningIn(pod, names[0]) && key !in st.tails then Spawn(st, key) else st;
      SpawnMissing(st', pod, names[1..])
  }

  function Gone(st: State): set<string> {
    set k | k in st.tails && k.0 !in st.seen :: k.0
  }

  function Step(sel: ContainerSelect, st: State, ev: Event): State {
    match ev
    case Applied(pod) =>
      var st' := st.(seen := st.seen + {pod.name});
      if Terminal(pod) then StopPods(st', {pod.name})
      else SpawnMissing(st', pod, SelectContainers(pod, sel))
    case Deleted(name) => StopPods(st, {name})
    case Resync => st.(seen := {})
    case ResyncDone => StopPods(st, Gone(st))
    case WatchError => st
    case Joined(task, ok) =>
      if task !in st.tasks then st
      else
        st.(tails := if ok then st.tails - {st.tasks[task].key} else st.tails, tasks := st.tasks - {task})
  }

  function Run(sel: ContainerSelect, st: State, events: seq<Event>): State
    decreases |events|
  {
    if events == [] then st
    else
      var n := |events| - 1;
      Step(sel, Run(sel, st, events[..n]), events[n])
  }

  class Supervisor {
    const sel: ContainerSelect
    var tails: map<Key, nat>
    var tasks: map<nat, Task>
    var seen: set<string>
    var next: nat

    ghost function View(): State
      reads this
    {
      State(tails, tasks, seen, next)
    }

    constructor (sel: ContainerSelect)
      ensures this.sel == sel && View() == Initial
    {
      this.sel, tails, tasks, seen, next := sel, map[], map[], {}, 0;
    }

    /** `retain` over the tails, aborting what it drops. */
    method StopPod(pod: string)
      modifies this
      ensures View() == StopPods(old(View()), {pod})
    {
      var ids := set k | k in tails && k.0 == pod :: tails[k];
      tails := map k | k in tails && k.0 != pod :: tails[k];
      tasks := map id | id in tasks :: if id in ids then tasks[id].(aborted := true) else tasks[id];
      assert ids == set k | k in old(tails) && k.0 in {pod} :: old(tails)[k];
    }

    method SpawnTail(key: Key)
      modifies this
      ensures View() == Spawn(old(View()), key)
    {
      tasks := tasks[next := Task(key, false)];
      tails := tails[key := next];
      next := next + 1;
    }

    method OnApplied(pod: Pod)
      modifies this
      ensures View() == Step(sel, old(View()), Applied(pod))
    {
      seen := seen + {pod.name};
      if Terminal(pod) {
        StopPod(pod.name);
        return;
      }
      var names := SelectContainers(pod, sel);
      ghost var goal := SpawnMissing(View(), pod, names);
      for i := 0 to |names|
        invariant SpawnMissing(View(), pod, names[i..]) == goal
      {
        assert names[i..][0] == names[i] && names[i..][1..] == names[i + 1..];
        var key := (pod.name, names[i]);
        if RunningIn(pod, names[i]) && key !in tails {
          SpawnTail(key);
        }
      }
    }

    /** Stop, one pod after another, every pod the resync did not mention. */
    method OnResyncDone()
      modifies this
      ensures View() == Step(sel, old(View()), ResyncDone)
    {
      var gone := set k | k in tails && k.0 !in seen :: k.0;
      ghost var all := gone;
      ghost var before := View();
      StopNone(before);
      while gone != {}
        invariant gone <= all
        invariant View() == StopPods(before, all - gone)
        decreases gone
      {
        var p :| p in gone;
        StopTwice(before, all - gone, p);
        assert all - gone + {p} == all - (gone - {p});
        StopPod(p);
        gone := gone - {p};
      }
      assert all - gone == Gone(before);
    }

    /** One turn of the loop. */
    method OnEvent(ev: Event)
      modifies this
      ensures View() == Step(sel, old(View()), ev)
    {
      match ev
      case Applied(pod) => OnApplied(pod);
      case Deleted(name) => StopPod(name);
      case Resync => seen := {};
      case ResyncDone => OnResyncDone();
      case WatchError =>
      case Joined(task, ok) =>
        if task in tasks {
          if ok {
            tails := tails - {tasks[task].key};
          }
          tasks := tasks - {task};
        }
    }

    /** The loop, until the events end or the consumer is gone; then every task left is aborted. */
    method Loop(events: seq<Event>)
      modifies this
      ensures var end := Run(sel, old(View()), events);
              View() == end.(tasks := Aborted(end.tasks, end.tasks.Keys))
    {
      for i := 0 to |events|
        invariant View() == Run(sel, old(View()), events[..i])
      {
        assert events[..i + 1][..i] == events[..i];
        OnEvent(events[i]);
      }
      assert events[..|events|] == events;
      tasks := map id | id in tasks :: tasks[id].(aborted := true);
    }
  }

  lemma StopNone(st: State)
    ensures StopPods(st, {}) == st
  {
    var st' := StopPods(st, {});
    assert st'.tails == st.tails && st'.tasks == st.tasks;
  }

  lemma StopTwice(st: State, done: set<string>, p: string)
    requires p !in done
    ensures StopPods(StopPods(st, done), {p}) == StopPods(st, done + {p})
  {
    var once := StopPods(st, done);
    var twice, both := StopPods(once, {p}), StopPods(st, done + {p});
    assert twice.tails == both.tails;
    forall id | id in st.tasks ensures twice.tasks[id] == both.tasks[id] {
    }
    assert twice.tasks == both.tasks;
  }
}
