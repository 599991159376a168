/** What the runtime is after any run, read off its events, and exactly when a step applies and a retry goes through. */
module NetworkExact {
  import opened NetworkStop

  predicate Ran(es: seq<Event>) {
    After(es) != []
  }

  function Init(es: seq<Event>): seq<Event>
    requires es != []
  {
    es[..|es| - 1]
  }

  function Final(es: seq<Event>): Event
    requires es != []
  {
    es[|es| - 1]
  }

  // ---------------------------------------------------------------- the flags

  /** What an event makes of the pause file: a write that succeeds says paused or not. */
  predicate SavedBy(e: Event, saved: bool) {
    match e
    case StopSaves(_, ok) => ok || saved
    case RetrySaves(_, ok) => !ok && saved
    case _ => saved
  }

  /** Of the flag: a network-stop sets it first, a retry clears it last, and after a crash the file says it. */
  predicate SetBy(e: Event, paused: bool, saved: bool) {
    match e
    case StopSets(_) => true
    case RetryClears(_) => false
    case Crash => saved
    case _ => paused
  }

  /** Of the engine: a step starts it, unless its Apply fails, and a failed one may leave it running. */
  predicate UpBy(e: Event, up: bool) {
    match e
    case StepApplies(_, ok, stops, left) => ok || (!stops && left)
    case RetryStops(_) => false
    case StopStops(_) => false
    case OtherStop => false
    case Crash => false
    case _ => up
  }

  predicate PauseSaved(es: seq<Event>) {
    es != [] && SavedBy(Final(es), PauseSaved(Init(es)))
  }

  predicate PauseSet(es: seq<Event>) {
    es != [] && SetBy(Final(es), PauseSet(Init(es)), PauseSaved(Init(es)))
  }

  predicate EngineUp(es: seq<Event>) {
    es != [] && UpBy(Final(es), EngineUp(Init(es)))
  }

  lemma FlagsStep(w: World, e: Event)
    requires Enabled(w, e)
    ensures Do(w, e).disk == SavedBy(e, w.disk) && Do(w, e).paused == SetBy(e, w.paused, w.disk)
    ensures Do(w, e).running == UpBy(e, w.running)
  {
  }

  /** The flags are what the events say. */
  lemma {:induction false} FlagsExactly(es: seq<Event>)
    requires Ran(es)
    ensures After(es)[0].disk == PauseSaved(es)
    ensures After(es)[0].paused == PauseSet(es)
    ensures After(es)[0].running == EngineUp(es)
  {
    if es != [] {
      FlagsExactly(Init(es));
      FlagsStep(After(Init(es))[0], Final(es));
    }
  }

  // ---------------------------------------------------------------- epochs

  /** The events that move the epoch: a network-stop twice, any other stop of the engine once. */
  predicate MovesEpoch(e: Event) {
    || e.StopSets? || e.StopStops? || e.RetryStops? || e.OtherStop?
    || (e.StepApplies? && !e.ok && e.stops)
  }

  predicate Quiet(es: seq<Event>, m: nat, n: nat)
    requires m <= n <= |es|
  {
    forall j :: m <= j < n ==> !MovesEpoch(es[j])
  }

  predicate NoCrash(es: seq<Event>, m: nat, n: nat)
    requires m <= n <= |es|
  {
    forall j :: m <= j < n ==> !es[j].Crash?
  }

  /** A thread that read the epoch: a step or a retry. */
  predicate Reader(t: Thread) {
    t.Stepping? || t.Applying? || t.Retrying?
  }

  /** Event m is the one in which the thread read its epoch. */
  predicate ReadAt(es: seq<Event>, id: nat, m: nat) {
    m < |es| && (es[m] == StepReads(id) || es[m] == RetryReads(id))
    && (forall j :: m < j < |es| ==> es[j] != StepReads(id) && es[j] != RetryReads(id) && !es[j].Crash?)
  }

  function EpochAt(es: seq<Event>, m: nat): nat
    requires m <= |es| && Ran(es[..m])
  {
    After(es[..m])[0].epoch
  }

  lemma WorldAt(es: seq<Event>, n: nat)
    requires Ran(es) && n <= |es|
    ensures Ran(es[..n])
  {
    Prefix(es, n);
  }

  /** Who is a reader after an event has just read the epoch, or was one and carries the same. */
  lemma ReaderStep(w: World, e: Event, id: nat)
    requires Enabled(w, e) && id in Do(w, e).threads && Reader(Do(w, e).threads[id])
    ensures if e == StepReads(id) || e == RetryReads(id) then Do(w, e).threads[id].epoch == w.epoch
            else !e.Crash? && id in w.threads && Reader(w.threads[id])
                 && w.threads[id].epoch == Do(w, e).threads[id].epoch
  {
  }

  /** A thread carries the epoch of the moment it read it. */
  lemma {:induction false} ThreadRead(es: seq<Event>, id: nat) returns (m: nat)
    requires Ran(es) && id in After(es)[0].threads && Reader(After(es)[0].threads[id])
    ensures ReadAt(es, id, m) && Ran(es[..m]) && After(es)[0].threads[id].epoch == EpochAt(es, m)
  {
    assert es != [];
    ReaderStep(After(Init(es))[0], Final(es), id);
    if Final(es) == StepReads(id) || Final(es) == RetryReads(id) {
      m := |es| - 1;
    } else {
      m := ThreadRead(Init(es), id);
      ReadStays(es, id, m);
    }
  }

  lemma ReadStays(es: seq<Event>, id: nat, m: nat)
    requires es != [] && ReadAt(Init(es), id, m) && Ran(Init(es)[..m])
    requires Final(es) != StepReads(id) && Final(es) != RetryReads(id) && !Final(es).Crash?
    ensures ReadAt(es, id, m) && Init(es)[..m] == es[..m]
  {
    assert forall j :: 0 <= j < |es| - 1 ==> es[j] == Init(es)[j];
  }

  lemma EpochStep(w: World, e: Event)
    requires Enabled(w, e) && !e.Crash?
    ensures w.epoch <= Do(w, e).epoch && (Do(w, e).epoch == w.epoch <==> !MovesEpoch(e))
  {
  }

  lemma QuietSnoc(es: seq<Event>, m: nat, n: nat)
    requires m < n <= |es|
    ensures Quiet(es, m, n) <==> Quiet(es, m, n - 1) && !MovesEpoch(es[n - 1])
  {
  }

  lemma EpochMoves(es: seq<Event>, n: nat)
    requires Ran(es) && 0 < n <= |es| && !es[n - 1].Crash?
    ensures Ran(es[..n - 1]) && Ran(es[..n]) && EpochAt(es, n - 1) <= EpochAt(es, n)
    ensures EpochAt(es, n - 1) == EpochAt(es, n) <==> !MovesEpoch(es[n - 1])
  {
    LastOf(es, n);
    EpochStep(After(es[..n - 1])[0], es[n - 1]);
  }

  /** The epoch stands still exactly while nothing moves it. */
  lemma {:induction false} EpochExactly(es: seq<Event>, m: nat, n: nat)
    requires Ran(es) && m <= n <= |es| && NoCrash(es, m, n)
    ensures Ran(es[..m]) && Ran(es[..n]) && EpochAt(es, m) <= EpochAt(es, n)
    ensures EpochAt(es, m) == EpochAt(es, n) <==> Quiet(es, m, n)
    decreases n
  {
    WorldAt(es, m);
    WorldAt(es, n);
    if m < n {
      EpochExactly(es, m, n - 1);
      EpochMoves(es, n);
      QuietSnoc(es, m, n);
    }
  }

  // ---------------------------------------------------------------- who goes on

  lemma CheckStep(w: World, id: nat)
    requires Enabled(w, StepChecks(id))
    ensures At(Do(w, StepChecks(id)), id, Applying(w.epoch)) <==> !w.paused && w.epoch == w.threads[id].epoch
    ensures id in Do(w, StepChecks(id)).threads <==> !w.paused && w.epoch == w.threads[id].epoch
  {
  }

  lemma TestStep(w: World, id: nat)
    requires Enabled(w, RetryTests(id))
    ensures At(Do(w, RetryTests(id)), id, RetryTested) <==> w.epoch == w.threads[id].epoch
    ensures id in Do(w, RetryTests(id)).threads <==> w.epoch == w.threads[id].epoch
  {
  }

  /** At its check a step goes on to apply exactly when no network-stop is in force and nothing has moved the epoch
      since it read it; otherwise it ends. */
  lemma StepGoesOn(es: seq<Event>, n: nat, id: nat, m: nat)
    requires Ran(es) && n < |es| && es[n] == StepChecks(id) && ReadAt(es[..n], id, m)
    ensures Ran(es[..n]) && Ran(es[..n + 1])
    ensures var w, goesOn := After(es[..n + 1])[0], !PauseSet(es[..n]) && Quiet(es, m, n);
            && (At(w, id, Applying(After(es[..n])[0].epoch)) <==> goesOn)
            && (id in w.threads <==> goesOn)
  {
    LastOf(es, n + 1);
    FlagsExactly(es[..n]);
    Compared(es, n, id, m);
    CheckStep(After(es[..n])[0], id);
  }

  /** At its test a retry goes on exactly when nothing has moved the epoch since it read it; otherwise it ends. */
  lemma RetryGoesOn(es: seq<Event>, n: nat, id: nat, m: nat)
    requires Ran(es) && n < |es| && es[n] == RetryTests(id) && ReadAt(es[..n], id, m)
    ensures Ran(es[..n + 1])
    ensures var w := After(es[..n + 1])[0];
            && (At(w, id, RetryTested) <==> Quiet(es, m, n))
            && (id in w.threads <==> Quiet(es, m, n))
  {
    LastOf(es, n + 1);
    Compared(es, n, id, m);
    TestStep(After(es[..n])[0], id);
  }

  lemma SameRead(es: seq<Event>, id: nat, m: nat, k: nat)
    requires ReadAt(es, id, m) && ReadAt(es, id, k)
    ensures m == k
  {
  }

  lemma Compared(es: seq<Event>, n: nat, id: nat, m: nat)
    requires Ran(es) && n < |es| && Ran(es[..n]) && ReadAt(es[..n], id, m)
    requires id in After(es[..n])[0].threads && Reader(After(es[..n])[0].threads[id])
    ensures After(es[..n])[0].epoch == After(es[..n])[0].threads[id].epoch <==> Quiet(es, m, n)
  {
    var k := ThreadRead(es[..n], id);
    SameRead(es[..n], id, m, k);
    assert es[..n][..m] == es[..m];
    forall j | m <= j < n
      ensures !es[j].Crash?
    {
      assert es[..n][j] == es[j];
    }
    EpochExactly(es, m, n);
  }

  // ---------------------------------------------------------------- stop, retry, run

  /** A network-stop, a retry, and a step that brings the engine up again. */
  function Restarted(): seq<Event> {
    [StopSets(0), StopSaves(0, true), StopStops(0), StopReturns(0), RetryReads(1), RetryTests(1), RetrySaves(1, true),
      RetryStops(1), RetryClears(1), StepReads(2), StepChecks(2), StepApplies(2, true, false, false)]
  }

  function Worlds(): seq<World> {
    [BOOT, World(1, true, false, false, Held(0), Free, map[0 := Stopping]),
      World(1, true, true, false, Held(0), Free, map[0 := StopSaved]),
      World(2, true, true, false, Held(0), Free, map[0 := StopDone]),
      World(2, true, true, false, Free, Free, map[]),
      World(2, true, true, false, Free, Free, map[1 := Retrying(2)]),
      World(2, true, true, false, Held(1), Free, map[1 := RetryTested]),
      World(2, true, false, false, Held(1), Free, map[1 := RetrySaved]),
      World(3, true, false, false, Held(1), Free, map[1 := RetryStopped]),
      World(3, false, false, false, Free, Free, map[]),
      World(3, false, false, false, Free, Free, map[2 := Stepping(3)]),
      World(3, false, false, false, Free, Held(2), map[2 := Applying(3)]),
      World(3, false, false, true, Free, Free, map[2 := Stepping(3)])]
  }

  lemma StopMoves(n: nat)
    requires n < 4
    ensures Enabled(Worlds()[n], Restarted()[n]) && Do(Worlds()[n], Restarted()[n]) == Worlds()[n + 1]
  {
    assert Worlds()[0] == BOOT && Worlds()[n].threads[0 := Stopping] == map[0 := Stopping];
    assert Worlds()[n].threads[0 := StopSaved] == map[0 := StopSaved];
    assert Worlds()[n].threads[0 := StopDone] == map[0 := StopDone];
    assert Worlds()[n].threads - {0} == map[];
  }

  lemma RetryMoves(n: nat)
    requires 4 <= n < 9
    ensures Enabled(Worlds()[n], Restarted()[n]) && Do(Worlds()[n], Restarted()[n]) == Worlds()[n + 1]
  {
    assert Worlds()[n].threads[1 := Retrying(2)] == map[1 := Retrying(2)];
    assert Worlds()[n].threads[1 := RetryTested] == map[1 := RetryTested];
    assert Worlds()[n].threads[1 := RetrySaved] == map[1 := RetrySaved];
    assert Worlds()[n].threads[1 := RetryStopped] == map[1 := RetryStopped];
    assert Worlds()[n].threads - {1} == map[];
  }

  lemma StepMoves(n: nat)
    requires 9 <= n < 12
    ensures Enabled(Worlds()[n], Restarted()[n]) && Do(Worlds()[n], Restarted()[n]) == Worlds()[n + 1]
  {
    assert Worlds()[n].threads[2 := Stepping(3)] == map[2 := Stepping(3)];
    assert Worlds()[n].threads[2 := Applying(3)] == map[2 := Applying(3)];
  }

  lemma Moves(n: nat)
    requires n < 12
    ensures Enabled(Worlds()[n], Restarted()[n]) && Do(Worlds()[n], Restarted()[n]) == Worlds()[n + 1]
  {
    if n < 4 {
      StopMoves(n);
    } else if n < 9 {
      RetryMoves(n);
    } else {
      StepMoves(n);
    }
  }

  lemma {:induction false} Reaches(n: nat)
    requires n <= 12
    ensures After(Restarted()[..n]) == [Worlds()[n]]
  {
    if n > 0 {
      Reaches(n - 1);
      Moves(n - 1);
      assert Restarted()[..n][..n - 1] == Restarted()[..n - 1];
    }
  }

  /** A stop is not for ever: after a retry the next step applies. Then a crash, or any stop of the engine, may come. */
  lemma RetryRestarts()
    ensures Ran(Restarted()) && Ran(Restarted()[..4])
    ensures var w := After(Restarted()[..4])[0]; w.paused && w.disk && !w.running
    ensures var w := After(Restarted())[0];
            && w.running && !w.paused && !w.disk && w.netLock == Free && Enabled(w, OtherStop) && Enabled(w, Crash)
  {
    Reaches(4);
    Reaches(12);
    assert Restarted()[..12] == Restarted();
  }
}
