/** The agent's side as it runs: prepareNode's loops over results, local operations and orders. */
module NodeRuntime {
  import opened Bytes
  import opened Files
  import Nodes
  import opened NodeAgent

  /** Working through orders with one save each, until none is left or a save has failed. */
  function Work(me: Identity, w: World, saves: seq<Save>): World
    requires w.phase.Working? ==> |saves| >= |w.phase.queue|
    decreases if w.phase.Working? then |w.phase.queue| else 0
  {
    if w.phase.Working? && w.phase.queue != [] then Work(me, Take(me, w, saves[0]), saves[1..]) else w
  }

  lemma WorkOne(me: Identity, w: World, listed: seq<Listed>, revision: nat, saves: seq<Save>, i: nat)
    requires i < |listed| <= |saves| && w.phase == Working(listed[i..], revision)
    ensures listed[i..][0] == listed[i] && listed[i..][1..] == listed[i + 1..]
    ensures Work(me, w, saves[i..]) == Work(me, Take(me, w, saves[i]), saves[i + 1..])
  {
    assert saves[i..][0] == saves[i] && saves[i..][1..] == saves[i + 1..];
  }

  /** The whole of prepareNode after its reply: what the class method below is proved to do. */
  function Prepared(me: Identity, w: World, keep: bool, saves: seq<Save>, changed: bool, last: Save): World
    requires w.phase.Waiting? && |saves| >= |w.phase.reply.listed|
  {
    End(Work(me, Receive(w, keep), saves), changed, last)
  }

  /** Each piece of the work is an event of the protocol, so the protocol's invariant carries over. */
  lemma {:induction false} WorkKeeps(me: Identity, w: World, saves: seq<Save>)
    requires Inv(me, w) && (w.phase.Working? ==> |saves| >= |w.phase.queue|)
    ensures Inv(me, Work(me, w, saves))
    decreases if w.phase.Working? then |w.phase.queue| else 0
  {
    if w.phase.Working? && w.phase.queue != [] {
      TakeKeeps(me, w, saves[0]);
      WorkKeeps(me, Take(me, w, saves[0]), saves[1..]);
    }
  }

  lemma PreparedKeeps(me: Identity, w: World, keep: bool, saves: seq<Save>, changed: bool, last: Save)
    requires Inv(me, w) && w.phase.Waiting? && |saves| >= |w.phase.reply.listed|
    ensures Inv(me, Prepared(me, w, keep, saves, changed, last))
  {
    ReceiveKeeps(me, w, keep);
    WorkKeeps(me, Receive(w, keep), saves);
    EndKeeps(me, Work(me, Receive(w, keep), saves), changed, last);
  }

  // ---------------------------------------------------------------- which orders a round carries out

  /** The orders of a page have different identifiers. */
  predicate Distinct(queue: seq<Listed>) {
    forall i, j :: 0 <= i < j < |queue| ==> queue[i].id != queue[j].id
  }

  /** Judged by what is in memory when the round begins. */
  predicate Due(me: Identity, w: World, i: nat)
    requires w.phase.Working? && i < |w.phase.queue|
  {
    Wanted(me, w.mem, w.clock, w.phase.revision, w.phase.queue[i])
  }

  /** Every order up to n that was due had its save succeed. */
  predicate SavedUpTo(me: Identity, w: World, saves: seq<Save>, n: nat)
    requires w.phase.Working? && n <= |w.phase.queue| <= |saves|
  {
    forall j :: 0 <= j < n && Due(me, w, j) ==> saves[j].Kept?
  }

  lemma DueLater(me: Identity, w: World, save: Save, i: nat)
    requires w.phase.Working? && 0 < i < |w.phase.queue| && Distinct(w.phase.queue) && Take(me, w, save).phase.Working?
    ensures Take(me, w, save).phase.queue == w.phase.queue[1..] && Due(me, Take(me, w, save), i - 1) == Due(me, w, i)
  {
    assert w.phase.queue[1..][i - 1] == w.phase.queue[i];
  }

  lemma FaultedStays(me: Identity, w: World, saves: seq<Save>)
    requires !w.phase.Working?
    ensures Work(me, w, saves) == w
  {
  }

  lemma FirstTaken(me: Identity, w: World, saves: seq<Save>)
    requires w.phase.Working? && w.phase.queue != [] && |saves| >= |w.phase.queue| && Distinct(w.phase.queue)
    ensures Take(me, w, saves[0]).phase.Working? <==> (Due(me, w, 0) ==> saves[0].Kept?)
    ensures forall id :: Take(me, w, saves[0]).stops[id]
                         == w.stops[id] + if Due(me, w, 0) && saves[0].Kept? && w.phase.queue[0].restart
                           && w.phase.queue[0].id == id then 1 else 0
  {
  }

  /** The stops an order adds in a round over the queue of w. */
  function Stops(me: Identity, w: World, saves: seq<Save>, i: nat): nat
    requires w.phase.Working? && i < |w.phase.queue| <= |saves|
  {
    if w.phase.queue[i].restart && Due(me, w, i) && SavedUpTo(me, w, saves, i + 1) then 1 else 0
  }

  lemma StopsLater(me: Identity, w: World, saves: seq<Save>, i: nat)
    requires w.phase.Working? && 0 < i < |w.phase.queue| <= |saves| && Distinct(w.phase.queue)
    requires Take(me, w, saves[0]).phase.Working?
    ensures DueTail(me, w, saves, i)
  {
    var x := Take(me, w, saves[0]);
    forall j | 0 < j <= i
      ensures Due(me, x, j - 1) == Due(me, w, j) && saves[1..][j - 1] == saves[j]
    {
      DueLater(me, w, saves[0], j);
    }
    DueLater(me, w, saves[0], i);
    assert x.phase.queue[i - 1] == w.phase.queue[i];
    FirstTaken(me, w, saves);
    if SavedUpTo(me, w, saves, i + 1) {
      forall j | 0 <= j < i && Due(me, x, j)
        ensures saves[1..][j].Kept?
      {
        assert Due(me, w, j + 1);
      }
    }
    if SavedUpTo(me, x, saves[1..], i) {
      forall j | 0 <= j < i + 1 && Due(me, w, j)
        ensures saves[j].Kept?
      {
        assert j > 0 ==> Due(me, x, j - 1) && saves[1..][j - 1] == saves[j];
      }
    }
  }

  /** Once the first order is dealt with, the others stand as before. */
  predicate DueTail(me: Identity, w: World, saves: seq<Save>, i: nat)
    requires w.phase.Working? && 0 < i < |w.phase.queue| <= |saves|
  {
    var x := Take(me, w, saves[0]);
    x.phase.Working? && |x.phase.queue| == |w.phase.queue| - 1
      && Stops(me, x, saves[1..], i - 1) == Stops(me, w, saves, i)
  }

  /** Over a whole round, whatever happens to its saves: a listed order stops the network
      exactly when it is a restart of
      the agent's generation, has not expired, its revision is at most the reply's, the agent does not know it yet,
      and its save and those of all such orders before it succeeded. */
  lemma {:induction false} ExecutedExactly(me: Identity, w: World, saves: seq<Save>, i: nat)
    requires w.phase.Working? && i < |w.phase.queue| <= |saves| && Distinct(w.phase.queue)
    ensures Work(me, w, saves).stops[w.phase.queue[i].id] == w.stops[w.phase.queue[i].id] + Stops(me, w, saves, i)
    decreases |w.phase.queue|
  {
    var x, id := Take(me, w, saves[0]), w.phase.queue[i].id;
    FirstTaken(me, w, saves);
    if !x.phase.Working? {
      FaultedStays(me, x, saves[1..]);
      assert Due(me, w, 0);
    } else if i > 0 {
      StopsLater(me, w, saves, i);
      DueLater(me, w, saves[0], i);
      assert x.phase.queue[i - 1] == w.phase.queue[i];
      ExecutedExactly(me, x, saves[1..], i - 1);
    } else {
      NotListedNotStopped(me, x, saves[1..], id);
    }
  }

  lemma {:induction false} NotListedNotStopped(me: Identity, w: World, saves: seq<Save>, id: nat)
    requires w.phase.Working? && |w.phase.queue| <= |saves| && forall i :: 0 <= i < |w.phase.queue| ==>
             w.phase.queue[i].id != id
    ensures Work(me, w, saves).stops[id] == w.stops[id]
    decreases |w.phase.queue|
  {
    if w.phase.queue != [] {
      var x := Take(me, w, saves[0]);
      if x.phase.Working? {
        NotListedNotStopped(me, x, saves[1..], id);
      } else {
        FaultedStays(me, x, saves[1..]);
      }
    }
  }

  class Runtime {
    const me: Identity
    var operations: map<nat, LocalOp>
    var applied: int
    var config: Option<nat>
    var disk: Saved
    var selected: Option<Choice>
    var stops: multiset<nat>
    ghost var restarted: set<nat>
    ghost var requests: set<Nodes.Request>

    constructor (me: Identity)
      ensures this.me == me && Mem() == NEW && disk == NEW && selected == None && stops == multiset{} && restarted == {}
              && requests == {}
    {
      this.me := me;
      operations, applied, config, disk, selected, stops := map[], 0, None, NEW, None, multiset{};
      restarted, requests := {}, {};
    }

    function Mem(): Saved
      reads this
    {
      Saved(operations, applied, config)
    }

    ghost function View(server: Nodes.Db, phase: Phase, clock: int): World
      reads this
    {
      World(server, Mem(), disk, phase, selected, clock, stops, restarted, requests)
    }

    /** saveNodeState: what is on disk afterwards, and whether the caller hears of it. */
    method SaveState(save: Save) returns (ok: bool)
      modifies `disk
      ensures disk == Written(save, old(disk), Mem()) && ok == save.Kept?
    {
      if save != Lost {
        disk := Mem();
      }
      ok := save == Kept;
    }

    /** Deletes what the committed reply acknowledges, result by result. */
    method Acknowledge(sent: seq<Nodes.Result>)
      modifies `operations
      ensures operations == map id | id in old(operations) && !Acked(sent, id) :: old(operations)[id]
    {
      var i := 0;
      while i < |sent|
        invariant 0 <= i <= |sent|
        invariant operations == map id | id in old(operations) && !Acked(sent[..i], id) :: old(operations)[id]
      {
        AckedMore(sent, i);
        if sent[i].state == Nodes.Succeeded || sent[i].state == Nodes.Failed {
          operations := operations - {sent[i].id};
        }
        i := i + 1;
      }
      assert sent[..i] == sent;
    }

    /** Deletes what has expired, in whatever order the map is walked. */
    method DropExpired(clock: int)
      modifies `operations
      ensures operations == map id | id in old(operations)
              && !(clock > old(operations)[id].expires) :: old(operations)[id]
    {
      var todo := operations.Keys;
      while todo != {}
        invariant todo <= old(operations).Keys
        invariant operations == map id | id in old(operations)
                  && (id in todo || !(clock > old(operations)[id].expires)) :: old(operations)[id]
        decreases |todo|
      {
        var id :| id in todo;
        if clock > operations[id].expires {
          operations := operations - {id};
        }
        todo := todo - {id};
      }
    }

    /** The loop over the orders of a reply: checkpoint, then restart. */
    method Execute(ghost server: Nodes.Db, listed: seq<Listed>, revision: nat, clock: int, saves: seq<Save>)
        returns (ok: bool)
      requires |saves| >= |listed|
      modifies this
      ensures var w := Work(me, old(View(server, Working(listed, revision), clock)), saves);
              w == View(server, if ok then Working([], revision) else Faulted, clock)
    {
      var i := 0;
      while i < |listed|
        invariant 0 <= i <= |listed|
        invariant Work(me, View(server, Working(listed[i..], revision), clock), saves[i..])
                  == Work(me, old(View(server, Working(listed, revision), clock)), saves)
      {
        var o := listed[i];
        ghost var w := View(server, Working(listed[i..], revision), clock);
        WorkOne(me, w, listed, revision, saves, i);
        if o.generation != me.generation || o.expires < clock || o.revision > revision || o.id in operations {
          i := i + 1;
          continue;
        }
        operations := operations[o.id := LocalOp(o.revision, o.expires, o.restart, Running, 0)];
        ok := SaveState(saves[i]);
        if !ok {
          assert View(server, Faulted, clock) == Take(me, w, saves[i]);
          return;
        }
        if o.restart {
          stops := stops + multiset{o.id};
          restarted := restarted + {o.id};
        }
        assert View(server, Working(listed[i + 1..], revision), clock) == Take(me, w, saves[i]);
        i := i + 1;
      }
      ok := true;
    }

    /** prepareNode, from the reply on. */
    method Prepare(ghost server: Nodes.Db, sent: seq<Nodes.Result>, reply: Reply, keep: bool, clock: int,
                   saves: seq<Save>, changed: bool, last: Save) returns (ok: bool)
      requires |saves| >= |reply.listed|
      modifies this
      ensures Prepared(me, old(View(server, Waiting(sent, reply), clock)), keep, saves, changed, last)
              == View(server, if ok then Idle else Faulted, clock)
    {
      ghost var w := View(server, Waiting(sent, reply), clock);
      Acknowledge(sent);
      selected := Some(if keep then Choice(applied, config) else Choice(reply.revision, Some(reply.config)));
      DropExpired(clock);
      assert operations == Remaining(w.mem, sent, clock).ops;
      assert View(server, Working(reply.listed, reply.revision), clock) == Receive(w, keep);
      ok := Execute(server, reply.listed, reply.revision, clock, saves);
      if ok && changed {
        ok := SaveState(last);
      }
    }

    /** nodeApplied. */
    method Applied(ghost server: Nodes.Db, clock: int, save: Save) returns (ok: bool)
      requires selected.Some?
      modifies this
      ensures Apply(old(View(server, Idle, clock)), save) == View(server, if ok then Idle else Faulted, clock)
    {
      var c := selected.value;
      applied, config := c.revision, c.config;
      var todo := operations.Keys;
      while todo != {}
        invariant applied == c.revision && config == c.config && disk == old(disk) && selected == old(selected)
        invariant stops == old(stops) && restarted == old(restarted) && requests == old(requests)
        invariant todo <= old(operations).Keys == operations.Keys
        invariant forall id <- operations ::
          operations[id] == if id in todo then old(operations)[id] else InForce(old(Mem()), c).ops[id]
        decreases |todo|
      {
        var id :| id in todo;
        if operations[id].state == Running && operations[id].revision <= c.revision {
          operations := operations[id := operations[id].(state := Succeeded)];
        }
        todo := todo - {id};
      }
      assert Mem() == InForce(old(Mem()), c);
      ok := SaveState(save);
    }
  }

  lemma AckedMore(sent: seq<Nodes.Result>, i: nat)
    requires i < |sent|
    ensures forall id :: Acked(sent[..i + 1], id) <==>
              Acked(sent[..i], id) || (sent[i].id == id && (sent[i].state.Succeeded? || sent[i].state.Failed?))
  {
    forall id
      ensures Acked(sent[..i + 1], id) <==>
                Acked(sent[..i], id) || (sent[i].id == id && (sent[i].state.Succeeded? || sent[i].state.Failed?))
    {
      if Acked(sent[..i], id) {
        var j :| 0 <= j < i && sent[..i][j].id == id && (sent[..i][j].state.Succeeded? || sent[..i][j].state.Failed?);
        assert sent[..i + 1][j] == sent[..i][j];
      }
      if sent[i].id == id && (sent[i].state.Succeeded? || sent[i].state.Failed?) {
        assert sent[..i + 1][i] == sent[i];
      }
      if Acked(sent[..i + 1], id) {
        var j :| 0 <= j < i + 1 && sent[..i + 1][j].id == id
          && (sent[..i + 1][j].state.Succeeded? || sent[..i + 1][j].state.Failed?);
        assert j < i ==> sent[..i][j] == sent[j];
      }
    }
  }
}
