/** network-stop against every interleaving of control-loop steps and network-retry. */
module NetworkStop {
  /** Where a thread is. The numbers carried along are the epochs it read. */
  datatype Thread =
    // step: between reading the epoch and taking the network lock, then past its check
    | Stepping(epoch: nat)
    | Applying(epoch: nat)
    // network-retry: before the pause lock, then inside it after the epoch test, after the file was
    // written, after the engine was stopped
    | Retrying(epoch: nat)
    | RetryTested
    | RetrySaved
    | RetryStopped
    // network-stop, always under the pause lock: flag set, file attempted, engine stopped
    | Stopping
    | StopSaved
    | StopDone

  /** networkEpoch, the paused flag and its file, the engine, and the two locks. */
  datatype World = World(epoch: nat, paused: bool, disk: bool, running: bool,
                         pauseLock: Lock, netLock: Lock, threads: map<nat, Thread>)

  datatype Lock = Free | Held(id: nat)

  datatype Event =
    | StepReads(id: nat)
    | StepChecks(id: nat)
    | StepApplies(id: nat, ok: bool, stops: bool, left: bool)
    | StepLeaves(id: nat)
    | RetryReads(id: nat)
    | RetryTests(id: nat)
    | RetrySaves(id: nat, ok: bool)
    | RetryStops(id: nat)
    | RetryClears(id: nat)
    | StopSets(id: nat)
    | StopSaves(id: nat, ok: bool)
    | StopStops(id: nat)
    | StopReturns(id: nat)
    | OtherStop
    | Crash

  const BOOT := World(0, false, false, false, Free, Free, map[])

  predicate At(w: World, id: nat, t: Thread) {
    id in w.threads && w.threads[id] == t
  }

  predicate Enabled(w: World, e: Event) {
    match e
    case StepReads(id) => id !in w.threads
    case StepChecks(id) => id in w.threads && w.threads[id].Stepping? && w.netLock == Free
    case StepApplies(id, _, _, _) => id in w.threads && w.threads[id].Applying?
    case StepLeaves(id) => id in w.threads && w.threads[id].Stepping?
    case RetryReads(id) => id !in w.threads
    case RetryTests(id) => id in w.threads && w.threads[id].Retrying? && w.pauseLock == Free
    case RetrySaves(id, _) => At(w, id, RetryTested)
    case RetryStops(id) => At(w, id, RetrySaved) && w.netLock == Free
    case RetryClears(id) => At(w, id, RetryStopped)
    case StopSets(id) => id !in w.threads && w.pauseLock == Free
    case StopSaves(id, _) => At(w, id, Stopping)
    case StopStops(id) => At(w, id, StopSaved) && w.netLock == Free
    case StopReturns(id) => At(w, id, StopDone)
    case OtherStop => w.netLock == Free
    case Crash => true
  }

  /** stopNetworkLocked: the epoch moves and the engine stops. */
  function StopEngine(w: World): World {
    w.(epoch := w.epoch + 1, running := false)
  }

  function Move(w: World, id: nat, t: Thread): World {
    w.(threads := w.threads[id := t])
  }

  function Leave(w: World, id: nat): World {
    w.(threads := w.threads - {id})
  }

  function Do(w: World, e: Event): World
    requires Enabled(w, e)
  {
    match e
    case StepReads(id) => Move(w, id, Stepping(w.epoch))
    // Under the network lock: a paused runtime or a moved epoch ends the step.
    case StepChecks(id) =>
      if w.paused || w.epoch != w.threads[id].epoch then Leave(w, id)
      else Move(w.(netLock := Held(id)), id, Applying(w.threads[id].epoch))
    // The step may come back to its second check with the same epoch. A failed first Apply stops
    // the engine, a failed second one leaves it in some state.
    case StepApplies(id, ok, stops, left) =>
      if ok then Move(w.(running := true, netLock := Free), id, Stepping(w.threads[id].epoch))
      else if stops then Leave(StopEngine(w).(netLock := Free), id)
      else Leave(w.(running := left, netLock := Free), id)
    case StepLeaves(id) => Leave(w, id)
    case RetryReads(id) => Move(w, id, Retrying(w.epoch))
    case RetryTests(id) =>
      if w.epoch != w.threads[id].epoch then Leave(w, id)
      else Move(w.(pauseLock := Held(id)), id, RetryTested)
    case RetrySaves(id, ok) =>
      if ok then Move(w.(disk := false), id, RetrySaved) else Leave(w.(pauseLock := Free), id)
    case RetryStops(id) => Move(StopEngine(w), id, RetryStopped)
    case RetryClears(id) => Leave(w.(paused := false, pauseLock := Free), id)
    case StopSets(id) => Move(w.(paused := true, epoch := w.epoch + 1, pauseLock := Held(id)), id, Stopping)
    case StopSaves(id, ok) => Move(if ok then w.(disk := true) else w, id, StopSaved)
    case StopStops(id) => Move(StopEngine(w), id, StopDone)
    case StopReturns(id) => Leave(w.(pauseLock := Free), id)
    case OtherStop => StopEngine(w)
    case Crash => World(0, w.disk, w.disk, false, Free, Free, map[])
  }

  /** The worlds of a run, or nothing if an event was not enabled. */
  function After(es: seq<Event>): seq<World>
    ensures |After(es)| <= 1
  {
    if es == [] then [BOOT]
    else
      var before := After(es[..|es| - 1]);
      if before != [] && Enabled(before[0], es[|es| - 1]) then [Do(before[0], es[|es| - 1])] else []
  }

  // ---------------------------------------------------------------- the locks

  /** Locks are held by the threads that are past taking them; nobody read an epoch of the future;
      a step that passed its check still sees the epoch it read and no pause that has finished. */
  ghost predicate Inv(w: World) {
    forall id <- w.threads :: ThreadOk(w, id)
  }

  ghost predicate ThreadOk(w: World, id: nat)
    requires id in w.threads
  {
    match w.threads[id]
    case Stepping(epoch) => epoch <= w.epoch
    case Retrying(epoch) => epoch <= w.epoch
    case Applying(epoch) => w.netLock == Held(id) && epoch <= w.epoch
    case Stopping => w.pauseLock == Held(id) && w.paused
    case StopSaved => w.pauseLock == Held(id) && w.paused
    case StopDone => w.pauseLock == Held(id) && w.paused
    case _ => w.pauseLock == Held(id)
  }

  lemma StepKeeps(w: World, e: Event)
    requires Inv(w) && Enabled(w, e)
    ensures Inv(Do(w, e))
  {
    var w' := Do(w, e);
    forall id | id in w'.threads
      ensures ThreadOk(w', id)
    {
      if id in w.threads {
        assert ThreadOk(w, id);
      }
      match e
      case StepApplies(i, _, _, _) => assert ThreadOk(w, i);
      case RetrySaves(i, _) => assert ThreadOk(w, i);
      case RetryStops(i) => assert ThreadOk(w, i);
      case RetryClears(i) => assert ThreadOk(w, i);
      case StopSaves(i, _) => assert ThreadOk(w, i);
      case StopStops(i) => assert ThreadOk(w, i);
      case StopReturns(i) => assert ThreadOk(w, i);
      case _ =>
    }
  }

  lemma {:induction false} RunKeeps(es: seq<Event>)
    requires After(es) != []
    ensures Inv(After(es)[0])
  {
    if es != [] {
      RunKeeps(es[..|es| - 1]);
      StepKeeps(After(es[..|es| - 1])[0], es[|es| - 1]);
    }
  }

  // ---------------------------------------------------------------- stop wins

  /** Stopped for good: paused, the engine down, nobody about to apply, and every retry under way
      read its epoch before the stop finished. */
  ghost predicate Stopped(w: World) {
    && w.paused && !w.running
    && forall id <- w.threads ::
         && !w.threads[id].Applying?
         && !w.threads[id].RetryTested? && !w.threads[id].RetrySaved? && !w.threads[id].RetryStopped?
         && (w.threads[id].Retrying? ==> w.threads[id].epoch < w.epoch)
  }

  /** The engine stop inside network-stop establishes it. */
  lemma StopEstablishes(w: World, id: nat)
    requires Inv(w) && Enabled(w, StopStops(id))
    ensures Stopped(Do(w, StopStops(id)))
  {
    assert ThreadOk(w, id);
    forall i | i in w.threads
      ensures ThreadOk(w, i)
    {
    }
  }

  lemma StoppedStays(w: World, e: Event)
    requires Inv(w) && Enabled(w, e) && Stopped(w)
    requires !e.RetryReads? && !e.Crash?
    ensures Stopped(Do(w, e))
  {
  }

  /** The last event of a prefix of a run was enabled, in a state that satisfies the invariant. */
  lemma LastOf(es: seq<Event>, n: nat)
    requires After(es) != [] && 0 < n <= |es|
    ensures After(es[..n - 1]) != [] && Inv(After(es[..n - 1])[0]) && Enabled(After(es[..n - 1])[0], es[n - 1])
    ensures After(es[..n]) == [Do(After(es[..n - 1])[0], es[n - 1])]
  {
    Prefix(es, n);
    Prefix(es, n - 1);
    assert es[..n][..n - 1] == es[..n - 1] && es[..n][n - 1] == es[n - 1];
    RunKeeps(es[..n - 1]);
  }

  lemma {:induction false} StoppedRun(es: seq<Event>, k: nat, n: nat)
    requires After(es) != [] && k < n <= |es| && es[k].StopStops?
    requires forall i :: k < i < n ==> !es[i].RetryReads? && !es[i].Crash?
    ensures After(es[..n]) != [] && Stopped(After(es[..n])[0])
    decreases n
  {
    LastOf(es, n);
    if n == k + 1 {
      StopEstablishes(After(es[..k])[0], es[k].id);
    } else {
      StoppedRun(es, k, n - 1);
      StoppedStays(After(es[..n - 1])[0], es[n - 1]);
    }
  }

  lemma {:induction false} Prefix(es: seq<Event>, n: nat)
    requires After(es) != [] && n <= |es|
    ensures After(es[..n]) != []
    decreases |es|
  {
    if n < |es| {
      Prefix(es[..|es| - 1], n);
      assert es[..|es| - 1][..n] == es[..n];
    } else {
      assert es[..n] == es;
    }
  }

  /** Stop wins: once a network-stop has stopped the engine, then until somebody asks for a new
      retry the runtime stays paused and the engine stays down, whatever steps were in flight and
      whatever retries had read their epoch before. */
  lemma StopWins(es: seq<Event>, k: nat, n: nat)
    requires After(es) != [] && k < n <= |es| && es[k].StopStops?
    requires forall i :: k < i < n ==> !es[i].RetryReads? && !es[i].Crash?
    ensures After(es[..n]) != []
    ensures var w := After(es[..n])[0]; w.paused && !w.running
  {
    StoppedRun(es, k, n);
  }

  // ---------------------------------------------------------------- across a crash

  /** As Stopped, and the pause is on disk. */
  ghost predicate StoppedOnDisk(w: World) {
    Stopped(w) && w.disk
  }

  lemma OnDiskStays(w: World, e: Event)
    requires Inv(w) && Enabled(w, e) && StoppedOnDisk(w) && !e.RetryReads?
    ensures StoppedOnDisk(Do(w, e))
  {
  }

  /** If the pause was saved, the stop survives crashes as well. */
  lemma {:induction false} SavedStopSurvivesCrashes(es: seq<Event>, k: nat, n: nat)
    requires After(es) != [] && k < n <= |es| && es[k].StopStops?
    requires After(es[..k + 1]) != [] && After(es[..k + 1])[0].disk
    requires forall i :: k < i < n ==> !es[i].RetryReads?
    ensures After(es[..n]) != [] && StoppedOnDisk(After(es[..n])[0])
    decreases n
  {
    LastOf(es, n);
    if n == k + 1 {
      StopEstablishes(After(es[..k])[0], es[k].id);
    } else {
      SavedStopSurvivesCrashes(es, k, n - 1);
      OnDiskStays(After(es[..n - 1])[0], es[n - 1]);
    }
  }
}
