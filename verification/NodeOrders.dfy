/** A restart order that is followed by a configuration update is carried out all the same. */
module NodeOrders {
  import opened Bytes
  import opened Files
  import opened NodeAgent
  import Nodes

  /** The restart is ordered as revision 2; the configuration becomes revision 3; only then the node syncs. */
  function Followed(): seq<Event> {
    [EvServer(0, Nodes.EvAct(1, Nodes.Restart, 3, 0, 0)), EvServer(0, Nodes.EvUpdate(1, 6, 2)), EvCall([], 0, [3]),
      EvReceive(false), EvTake(Kept)]
  }

  function UpdatedDb(): Nodes.Db {
    Nodes.Db(map[1 := Nodes.Node(6, Nodes.Active, 1, 3, 0, None)], map[(1, 1) := 5, (1, 2) := 5, (1, 3) := 6],
             map[7 := Nodes.Binding(1, 1, true)], map[], map[3 := Order(Nodes.Waiting, 0)])
  }

  ghost function Reached(n: nat): World
    requires n <= 5
  {
    After(ME, JustEnrolled(), 0, Followed()[..n])
  }

  lemma Onward(n: nat)
    requires n < 5
    ensures Reached(n + 1) == Step(ME, Reached(n), Followed()[n])
  {
    assert Followed()[..n + 1][..n] == Followed()[..n];
  }

  lemma Updated()
    ensures Reached(2) == World(UpdatedDb(), NEW, NEW, Idle, None, 0, multiset{}, {}, {})
  {
    assert Followed()[..0] == [];
    Onward(0);
    Onward(1);
    var db := JustEnrolled();
    assert Nodes.Bound(db, 1) by { assert db.bindings[7].node == 1 && db.bindings[7].current; }
    assert Nodes.Write(db, 0, Nodes.EvAct(1, Nodes.Restart, 3, 0, 0)) == Ordered(Nodes.Waiting, 0);
    assert Nodes.Write(Ordered(Nodes.Waiting, 0), 0, Nodes.EvUpdate(1, 6, 2)) == UpdatedDb();
  }

  lemma FirstSync()
    ensures Nodes.Sync(UpdatedDb(), 7, RequestOf(ME, NEW, []), 0) == Nodes.Done(UpdatedDb())
    ensures Nodes.IsPage(UpdatedDb().ops, 1, 1, 0, [3]) && List(UpdatedDb().ops, [3]) == [Order3()]
  {
    assert Nodes.Settle(UpdatedDb().ops, 1, 1, 0, 0) == UpdatedDb().ops;
  }

  function Order3(): Listed {
    Listed(3, 1, 2, Nodes.OP_LIFE, true)
  }

  lemma ListedThen()
    ensures Reached(3)
            == World(UpdatedDb(), NEW, NEW, Waiting([], Reply(3, 6, [Order3()])), None, 0, multiset{}, {},
                     {RequestOf(ME, NEW, [])})
  {
    Updated();
    Onward(2);
    FirstSync();
  }

  lemma WorkingThen()
    ensures Reached(4)
            == World(UpdatedDb(), NEW, NEW, Working([Order3()], 3), Some(Choice(3, Some(6))), 0, multiset{}, {},
                     {RequestOf(ME, NEW, [])})
  {
    ListedThen();
    Onward(3);
    assert Remaining(NEW, [], 0) == NEW;
  }

  function Local(state: LocalState, applied: int, config: Option<nat>): Saved {
    Saved(map[3 := LocalOp(2, Nodes.OP_LIFE, true, state, 0)], applied, config)
  }

  lemma TakenThen()
    ensures Reached(5)
            == World(UpdatedDb(), Local(Running, 0, None), Local(Running, 0, None), Working([], 3),
                     Some(Choice(3, Some(6))), 0, multiset{3}, {3}, {RequestOf(ME, NEW, [])})
  {
    WorkingThen();
    Onward(4);
    assert NEW.ops[3 := LocalOp(2, Nodes.OP_LIFE, true, Running, 0)] == Local(Running, 0, None).ops;
    assert [Order3()][1..] == [];
  }

  /** The reply names revision 3, the order 2: it stops the network, once, and once only whatever comes after. */
  lemma UpdateDoesNotHideTheOrder(later: seq<Event>)
    ensures Enrolled(ME, JustEnrolled())
    ensures After(ME, JustEnrolled(), 0, Followed()).stops == multiset{3}
    ensures After(ME, JustEnrolled(), 0, Followed() + later).stops[3] == 1
  {
    JustEnrolledIs();
    TakenThen();
    assert Followed()[..5] == Followed();
    StopsStay(Followed(), later);
    OneStopPerOrder(ME, JustEnrolled(), 0, Followed() + later, 3);
  }

  /** A stop is never undone. */
  lemma {:induction false} StopsStay(es: seq<Event>, later: seq<Event>)
    ensures After(ME, JustEnrolled(), 0, es).stops <= After(ME, JustEnrolled(), 0, es + later).stops
  {
    if later == [] {
      assert es + later == es;
    } else {
      var init, last := later[..|later| - 1], later[|later| - 1];
      StopsStay(es, init);
      assert (es + later)[..|es + later| - 1] == es + init && (es + later)[|es + later| - 1] == last;
      StepStops(After(ME, JustEnrolled(), 0, es + init), last);
    }
  }

  lemma StepStops(w: World, e: Event)
    ensures w.stops <= Step(ME, w, e).stops
  {
  }
  // ---------------------------------------------------------------- and is acknowledged

  /** The round ends, the new configuration comes into force, the next call reports it, and its reply is worked off. */
  function Completed(): seq<Event> {
    Followed() + [EvEnd(true, Kept), EvApplied(Kept), EvCall([3], 1, []), EvReceive(false), EvEnd(true, Kept)]
  }

  ghost function Stage(n: nat): World
    requires n <= 10
  {
    After(ME, JustEnrolled(), 0, Completed()[..n])
  }

  lemma Forward(n: nat)
    requires n < 10
    ensures Stage(n + 1) == Step(ME, Stage(n), Completed()[n])
  {
    assert Completed()[..n + 1][..n] == Completed()[..n];
  }

  lemma RunningThen()
    ensures var w := Stage(5);
            && w.server == UpdatedDb() && w.mem == Local(Running, 0, None) && w.disk == w.mem
            && w.phase == Working([], 3) && w.selected == Some(Choice(3, Some(6))) && w.clock == 0
  {
    TakenThen();
    assert Completed()[..5] == Followed()[..5];
  }

  lemma AppliedThen()
    ensures var w := Stage(7);
            && w.server == UpdatedDb() && w.mem == Local(Succeeded, 3, Some(6)) && w.disk == w.mem
            && w.phase == Idle && w.clock == 0
  {
    RunningThen();
    Forward(5);
    Forward(6);
    assert InForce(Local(Running, 0, None), Choice(3, Some(6))) == Local(Succeeded, 3, Some(6));
  }

  function CompletedDb(): Nodes.Db {
    UpdatedDb().(nodes := map[1 := Nodes.Node(6, Nodes.Active, 1, 3, 3, Some(6))],
                 ops := map[3 := Order(Nodes.Succeeded, 0)])
  }

  lemma CompletedSync()
    ensures Nodes.Sync(UpdatedDb(), 7, RequestOf(ME, Local(Succeeded, 3, Some(6)), [3]), 1)
            == Nodes.Done(CompletedDb())
  {
    var req := RequestOf(ME, Local(Succeeded, 3, Some(6)), [3]);
    var ops := UpdatedDb().ops;
    assert req.results == [Nodes.Result(3, Nodes.Succeeded, 0)];
    assert req.results[..0] == [];
    assert Nodes.ApplyResults(ops, 1, 1, 3, 1, []) == ops;
    assert Nodes.ApplyResult(ops, 1, 1, 3, 1, req.results[0]) == CompletedDb().ops;
    assert Nodes.Settle(CompletedDb().ops, 1, 1, 3, 1) == CompletedDb().ops;
  }

  lemma ReportedThen()
    ensures var w := Stage(8);
            && w.server == CompletedDb() && w.mem == Local(Succeeded, 3, Some(6)) && w.clock == 0
            && w.phase == Waiting([Nodes.Result(3, Nodes.Succeeded, 0)], Reply(3, 6, []))
  {
    AppliedThen();
    Forward(7);
    CompletedSync();
    assert RequestOf(ME, Local(Succeeded, 3, Some(6)), [3]).results == [Nodes.Result(3, Nodes.Succeeded, 0)];
    assert Nodes.IsPage(CompletedDb().ops, 1, 1, 1, []);
    assert List(CompletedDb().ops, []) == [];
  }

  lemma NothingRemains()
    ensures Remaining(Local(Succeeded, 3, Some(6)), [Nodes.Result(3, Nodes.Succeeded, 0)], 0)
            == Saved(map[], 3, Some(6))
  {
    var sent := [Nodes.Result(3, Nodes.Succeeded, 0)];
    assert sent[0].id == 3 && Acked(sent, 3);
    assert Remaining(Local(Succeeded, 3, Some(6)), sent, 0).ops == map[];
  }

  lemma ReplyForgets(w: World)
    requires w.mem == Local(Succeeded, 3, Some(6)) && w.clock == 0
    requires w.phase == Waiting([Nodes.Result(3, Nodes.Succeeded, 0)], Reply(3, 6, []))
    ensures var x := Receive(w, false);
            x.server == w.server && x.mem == Saved(map[], 3, Some(6)) && x.phase == Working([], 3)
  {
    NothingRemains();
  }

  lemma ForgottenThen()
    ensures var w := Stage(9);
            w.server == CompletedDb() && w.mem == Saved(map[], 3, Some(6)) && w.phase == Working([], 3)
  {
    ReportedThen();
    Forward(8);
    assert Stage(9) == Receive(Stage(8), false);
    ReplyForgets(Stage(8));
  }

  /** Then the control plane has the order as succeeded and the new configuration as applied, and the agent has
      forgotten the order, in memory and on the file. */
  lemma OrderCompletes()
    ensures Enrolled(ME, JustEnrolled())
    ensures var w := After(ME, JustEnrolled(), 0, Completed());
            && 3 in w.server.ops && w.server.ops[3].state == Nodes.Succeeded
            && 1 in w.server.nodes && w.server.nodes[1].applied == 3 && w.server.nodes[1].reported == Some(6)
            && w.mem == Saved(map[], 3, Some(6)) && w.disk == w.mem && w.phase == Idle
  {
    JustEnrolledIs();
    ForgottenThen();
    Forward(9);
    assert Completed()[..10] == Completed();
  }
}
