/**
 * A node's agent and the control plane together: reports, lost replies, failing saves and crashes.
 * The agent keeps node-state.json on disk and a copy in memory; restarts go through its checkpoint.
 */
module NodeAgent {
  import opened Bytes
  import opened Files
  import Nodes
  import NodeHistory

  /** Who the agent is: its device is bound to this node in this generation. */
  datatype Identity = Identity(device: nat, node: nat, generation: nat)

  datatype LocalState = Running | Succeeded | Failed

  datatype LocalOp = LocalOp(revision: nat, expires: int, restart: bool, state: LocalState, error: nat)

  /** node-state.json. */
  datatype Saved = Saved(ops: map<nat, LocalOp>, applied: int, config: Option<nat>)

  datatype Listed = Listed(id: nat, generation: nat, revision: nat, expires: int, restart: bool)

  datatype Reply = Reply(revision: nat, config: nat, listed: seq<Listed>)

  /** Between rounds, awaiting a reply, working through the operations listed, or having failed. */
  datatype Phase = Idle | Waiting(sent: seq<Nodes.Result>, reply: Reply) | Working(queue: seq<Listed>, revision: nat)
      | Faulted

  datatype Choice = Choice(revision: int, config: Option<nat>)

  /** stops counts what prepareNode stopped the network for; restarted adds checkpoints that a crash came after;
      requests are all that were ever sent. */
  datatype World = World(server: Nodes.Db, mem: Saved, disk: Saved, phase: Phase, selected: Option<Choice>, clock: int,
                         stops: multiset<nat>, restarted: set<nat>, requests: set<Nodes.Request>)

  // ---------------------------------------------------------------- the agent's steps

  function ResultState(state: LocalState): Nodes.OpState {
    match state
    case Running => Nodes.Running
    case Succeeded => Nodes.Succeeded
    case Failed => Nodes.Failed
  }

  predicate Sendable(mem: Saved, clock: int, ids: seq<nat>) {
    |ids| <= Nodes.MAX_RESULTS && forall i :: 0 <= i < |ids| ==> ids[i] in mem.ops && clock < mem.ops[ids[i]].expires
  }

  function Report(mem: Saved, ids: seq<nat>): seq<Nodes.Result>
    requires forall i :: 0 <= i < |ids| ==> ids[i] in mem.ops
  {
    seq(|ids|, i requires 0 <= i < |ids| => Nodes.Result(ids[i], ResultState(mem.ops[ids[i]].state),
      mem.ops[ids[i]].error))
  }

  function RequestOf(me: Identity, mem: Saved, ids: seq<nat>): Nodes.Request
    requires forall i :: 0 <= i < |ids| ==> ids[i] in mem.ops
  {
    Nodes.Request(me.generation, mem.applied, mem.config, Report(mem, ids))
  }

  function List(ops: map<nat, Nodes.Operation>, page: seq<nat>): seq<Listed>
    requires forall i :: 0 <= i < |page| ==> page[i] in ops
  {
    seq(|page|, i requires 0 <= i < |page| =>
      var o := ops[page[i]];
      Listed(page[i], o.generation, o.revision, o.expires, o.action.Restart?))
  }

  predicate Acked(sent: seq<Nodes.Result>, id: nat) {
    exists i :: 0 <= i < |sent| && sent[i].id == id && (sent[i].state.Succeeded? || sent[i].state.Failed?)
  }

  /** What a reply leaves in memory: acknowledged ends and expired operations go. */
  function Remaining(mem: Saved, sent: seq<Nodes.Result>, clock: int): Saved {
    mem.(ops := map id | id in mem.ops && !Acked(sent, id) && !(clock > mem.ops[id].expires) :: mem.ops[id])
  }

  predicate Skipped(me: Identity, mem: Saved, clock: int, revision: nat, o: Listed) {
    o.generation != me.generation || o.expires < clock || o.revision > revision || o.id in mem.ops
  }

  /** An order to carry out: of this generation, not expired, for a revision the reply has reached, and new here. */
  predicate Wanted(me: Identity, mem: Saved, clock: int, revision: nat, o: Listed) {
    o.generation == me.generation && clock <= o.expires && o.revision <= revision && o.id !in mem.ops
  }

  /** nodeApplied: the selected configuration is in force. */
  function InForce(mem: Saved, c: Choice): Saved {
    Saved(map id | id in mem.ops ::
            if mem.ops[id].state.Running? && mem.ops[id].revision <= c.revision then mem.ops[id].(state := Succeeded)
              else mem.ops[id],
          c.revision, c.config)
  }

  /** Run, after a round that failed: what was running has failed. */
  function Given(mem: Saved, error: nat): Saved {
    mem.(ops := map id | id in mem.ops ::
      if mem.ops[id].state.Running? then mem.ops[id].(state := Failed, error := error) else mem.ops[id])
  }

  // ---------------------------------------------------------------- events

  /**
   * EvSend: a request leaves. EvCall: one leaves, the control plane processes it, and its reply is awaited; a
   * client call sends up to three. EvLate: a copy of any request ever sent arrives, and nobody hears the reply.
   */
  datatype Event =
    | EvServer(now: int, event: Nodes.Event)
    | EvSend(ids: seq<nat>)
    | EvCall(ids: seq<nat>, now: int, page: seq<nat>)
    | EvLate(request: Nodes.Request, now: int)
    | EvReceive(keep: bool)
    | EvTake(save: Save)
    | EvEnd(changed: bool, save: Save)
    | EvApplied(save: Save)
    | EvFault
    | EvMark(error: nat, save: Save)
    | EvCrash
    | EvTick(clock: int)

  /** A round begins or its call is repeated: until the reply arrives the agent is waiting. */
  predicate Calling(w: World, ids: seq<nat>) {
    (w.phase.Idle? || w.phase.Waiting?) && Sendable(w.mem, w.clock, ids)
  }

  function Send(me: Identity, w: World, ids: seq<nat>): World {
    if Calling(w, ids) then w.(requests := w.requests + {RequestOf(me, w.mem, ids)}) else w
  }

  /** A request reaches the control plane, or is refused there. */
  ghost function Call(me: Identity, w: World, ids: seq<nat>, now: int, page: seq<nat>): World {
    if Calling(w, ids) then
      var req := RequestOf(me, w.mem, ids);
      match Nodes.Sync(w.server, me.device, req, now)
      case Fail(_) => w.(phase := Faulted, requests := w.requests + {req})
      case Done(x) =>
        if me.node in x.nodes && Nodes.IsPage(x.ops, me.node, me.generation, now, page) then
          w.(server := x, requests := w.requests + {req},
             phase := Waiting(req.results,
               Reply(x.nodes[me.node].revision, x.nodes[me.node].config, List(x.ops, page))))
        else w
    else w
  }

  /** A copy that was under way all the time, or is repeated by the network. */
  ghost function Late(me: Identity, w: World, request: Nodes.Request, now: int): World {
    if request in w.requests then w.(server := Nodes.Write(w.server, now, Nodes.EvSync(me.device, request))) else w
  }

  /** The reply arrives. While its port is not approved the node keeps the configuration in force. */
  function Receive(w: World, keep: bool): World {
    if w.phase.Waiting? then
      var r := w.phase.reply;
      w.(mem := Remaining(w.mem, w.phase.sent, w.clock),
         selected := Some(if keep then Choice(w.mem.applied, w.mem.config) else Choice(r.revision, Some(r.config))),
         phase := Working(r.listed, r.revision))
    else w
  }

  /** The next operation listed: checkpoint first, and only then the restart. */
  function Take(me: Identity, w: World, save: Save): World {
    if w.phase.Working? && w.phase.queue != [] then
      var o := w.phase.queue[0];
      if Skipped(me, w.mem, w.clock, w.phase.revision, o) then
        w.(phase := Working(w.phase.queue[1..], w.phase.revision))
      else
        var mem := w.mem.(ops := w.mem.ops[o.id := LocalOp(o.revision, o.expires, o.restart, Running, 0)]);
        if save.Kept? then
          w.(mem := mem, disk := mem, phase := Working(w.phase.queue[1..], w.phase.revision),
             stops := if o.restart then w.stops + multiset{o.id} else w.stops,
             restarted := if o.restart then w.restarted + {o.id} else w.restarted)
        else w.(mem := mem, disk := Written(save, w.disk, mem), phase := Faulted)
    else w
  }

  function End(w: World, changed: bool, save: Save): World {
    if w.phase.Working? && w.phase.queue == [] then
      if !changed then w.(phase := Idle)
      else w.(disk := Written(save, w.disk, w.mem), phase := if save.Kept? then Idle else Faulted)
    else w
  }

  function Apply(w: World, save: Save): World {
    if w.phase.Idle? && w.selected.Some? then
      var mem := InForce(w.mem, w.selected.value);
      w.(mem := mem, disk := Written(save, w.disk, mem), phase := if save.Kept? then Idle else Faulted)
    else w
  }

  function Mark(w: World, error: nat, save: Save): World {
    if w.phase.Faulted? then
      var mem := Given(w.mem, error);
      w.(mem := mem, disk := Written(save, w.disk, mem), phase := Idle)
    else w
  }

  /** A crash ends the process and with it the network; the next one starts from the file. */
  function Crash(w: World): World {
    w.(mem := w.disk, phase := Idle, selected := None,
      restarted := w.restarted + (set id | id in w.disk.ops && w.disk.ops[id].restart))
  }

  ghost function Step(me: Identity, w: World, e: Event): World {
    match e
    case EvServer(now, event) =>
      if event.EvSync? && event.device == me.device then w else w.(server := Nodes.Write(w.server, now, event))
    case EvSend(ids) => Send(me, w, ids)
    case EvCall(ids, now, page) => Call(me, w, ids, now, page)
    case EvLate(request, now) => Late(me, w, request, now)
    case EvReceive(keep) => Receive(w, keep)
    case EvTake(save) => Take(me, w, save)
    case EvEnd(changed, save) => End(w, changed, save)
    case EvApplied(save) => Apply(w, save)
    case EvFault => w.(phase := Faulted)
    case EvMark(error, save) => Mark(w, error, save)
    case EvCrash => Crash(w)
    case EvTick(clock) => if clock >= w.clock then w.(clock := clock) else w
  }

  const NEW := Saved(map[], 0, None)

  /** Enrollment has bound the device; no restart has been ordered yet in this generation. */
  ghost predicate Enrolled(me: Identity, server: Nodes.Db) {
    && Nodes.Sound(server) && BoundTo(me, server)
    && forall id <- server.ops :: Mine(me, server.ops[id]) ==> !server.ops[id].action.Restart?
  }

  predicate BoundTo(me: Identity, server: Nodes.Db) {
    me.device in server.bindings && server.bindings[me.device].node == me.node
      && server.bindings[me.device].generation == me.generation
  }

  predicate Mine(me: Identity, o: Nodes.Operation) {
    o.node == me.node && o.generation == me.generation
  }

  ghost function After(me: Identity, server: Nodes.Db, clock: int, es: seq<Event>): World {
    if es == [] then World(server, NEW, NEW, Idle, None, clock, multiset{}, {}, {})
    else Step(me, After(me, server, clock, es[..|es| - 1]), es[|es| - 1])
  }

  // ---------------------------------------------------------------- the invariant

  predicate Matches(me: Identity, ops: map<nat, Nodes.Operation>, id: nat, revision: nat, expires: int, restart: bool) {
    id in ops && Mine(me, ops[id]) && ops[id].revision == revision && ops[id].expires == expires
    && (restart <==> ops[id].action.Restart?)
  }

  /** Local operations are copies of orders the control plane has given this node. */
  predicate Copies(me: Identity, ops: map<nat, Nodes.Operation>, s: Saved) {
    forall id <- s.ops :: Matches(me, ops, id, s.ops[id].revision, s.ops[id].expires, s.ops[id].restart)
  }

  /** Locally succeeded means covered by what is applied. */
  predicate Covered(s: Saved) {
    forall id <- s.ops :: s.ops[id].state.Succeeded? ==> s.ops[id].revision <= s.applied
  }

  /** The control plane has closed it, or it has expired here. */
  predicate Gone(ops: map<nat, Nodes.Operation>, clock: int, id: nat) {
    id in ops && (!Nodes.Open(ops[id].state) || ops[id].expires < clock)
  }

  /** What has been executed is remembered, or will never be listed again. */
  predicate Remembers(ops: map<nat, Nodes.Operation>, clock: int, stops: multiset<nat>, s: Saved) {
    forall id <- stops :: id in s.ops || Gone(ops, clock, id)
  }

  /** A restart counts as succeeded only after a restart. */
  predicate Honest(s: Saved, restarted: set<nat>) {
    forall id <- s.ops :: s.ops[id].restart && s.ops[id].state.Succeeded? ==> id in restarted
  }

  predicate Ran(s: Saved, restarted: set<nat>) {
    forall id <- s.ops :: s.ops[id].restart && s.ops[id].state.Running? ==> id in restarted
  }

  /** Orders in hand are the control plane's, and none of them is one that was executed and forgotten. */
  predicate InHand(me: Identity, ops: map<nat, Nodes.Operation>, clock: int, stops: multiset<nat>, mem: Saved,
      listed: seq<Listed>) {
    forall i :: 0 <= i < |listed| ==>
      && Matches(me, ops, listed[i].id, listed[i].revision, listed[i].expires, listed[i].restart)
      && (listed[i].id in stops ==> listed[i].id in mem.ops || listed[i].expires < clock)
  }

  ghost predicate PhaseOk(me: Identity, w: World) {
    match w.phase
    case Idle => Ran(w.mem, w.restarted)
    case Waiting(sent, reply) =>
      && Ran(w.mem, w.restarted) && reply.revision >= w.mem.applied
      && InHand(me, w.server.ops, w.clock, w.stops, w.mem, reply.listed)
      && (forall i :: 0 <= i < |reply.listed| ==> !Acked(sent, reply.listed[i].id))
      && (forall id :: Acked(sent, id) ==> id in w.server.ops && !Nodes.Open(w.server.ops[id].state))
    case Working(queue, revision) =>
      Ran(w.mem, w.restarted) && InHand(me, w.server.ops, w.clock, w.stops, w.mem, queue)
    case Faulted => true
  }

  /** Success on record means a restart happened. */
  predicate RecordHonest(me: Identity, ops: map<nat, Nodes.Operation>, restarted: set<nat>) {
    forall id <- ops :: Mine(me, ops[id]) && ops[id].action.Restart? && ops[id].state == Nodes.Succeeded ==>
      id in restarted
  }

  /** A request reports a restart as succeeded only after a restart. */
  predicate Truthful(me: Identity, ops: map<nat, Nodes.Operation>, restarted: set<nat>, request: Nodes.Request) {
    forall i :: 0 <= i < |request.results| && request.results[i].state.Succeeded? ==>
      var id := request.results[i].id;
      id in ops && (Mine(me, ops[id]) && ops[id].action.Restart? ==> id in restarted)
  }

  predicate AllTruthful(me: Identity, ops: map<nat, Nodes.Operation>, restarted: set<nat>,
      requests: set<Nodes.Request>) {
    forall r <- requests :: Truthful(me, ops, restarted, r)
  }

  ghost predicate Inv(me: Identity, w: World) {
    && Nodes.Sound(w.server) && BoundTo(me, w.server)
    && Copies(me, w.server.ops, w.mem) && Copies(me, w.server.ops, w.disk)
    && Covered(w.mem) && Covered(w.disk)
    && Remembers(w.server.ops, w.clock, w.stops, w.mem) && Remembers(w.server.ops, w.clock, w.stops, w.disk)
    && Honest(w.mem, w.restarted) && Honest(w.disk, w.restarted)
    && (w.selected.Some? ==> w.selected.value.revision >= w.mem.applied)
    && PhaseOk(me, w) && RecordHonest(me, w.server.ops, w.restarted)
    && AllTruthful(me, w.server.ops, w.restarted, w.requests)
    && (forall id <- w.stops :: w.stops[id] == 1)
  }

  // ---------------------------------------------------------------- the control plane moves

  lemma OpsLastKeeps(me: Identity, a: map<nat, Nodes.Operation>, b: map<nat, Nodes.Operation>, clock: int,
      stops: multiset<nat>, s: Saved)
    requires NodeHistory.OpsLast(a, b)
    ensures Copies(me, a, s) ==> Copies(me, b, s)
    ensures Remembers(a, clock, stops, s) ==> Remembers(b, clock, stops, s)
  {
    forall id | id in a
      ensures id in b && NodeHistory.OpLasts(a[id], b[id])
    {
    }
  }

  lemma InHandLasts(me: Identity, a: map<nat, Nodes.Operation>, b: map<nat, Nodes.Operation>, clock: int,
      stops: multiset<nat>, mem: Saved, listed: seq<Listed>)
    requires NodeHistory.OpsLast(a, b) && InHand(me, a, clock, stops, mem, listed)
    ensures InHand(me, b, clock, stops, mem, listed)
  {
    forall i | 0 <= i < |listed|
      ensures Matches(me, b, listed[i].id, listed[i].revision, listed[i].expires, listed[i].restart)
    {
      assert NodeHistory.OpLasts(a[listed[i].id], b[listed[i].id]);
    }
  }

  lemma TruthfulLasts(me: Identity, a: map<nat, Nodes.Operation>, b: map<nat, Nodes.Operation>, restarted: set<nat>,
                      requests: set<Nodes.Request>)
    requires NodeHistory.OpsLast(a, b) && AllTruthful(me, a, restarted, requests)
    ensures AllTruthful(me, b, restarted, requests)
  {
    forall r, i | r in requests && 0 <= i < |r.results| && r.results[i].state.Succeeded?
      ensures r.results[i].id in b
      ensures Mine(me, b[r.results[i].id]) && b[r.results[i].id].action.Restart? ==> r.results[i].id in restarted
    {
      assert Truthful(me, a, restarted, r);
      assert NodeHistory.OpLasts(a[r.results[i].id], b[r.results[i].id]);
    }
  }

  lemma PhaseLasts(me: Identity, w: World, server: Nodes.Db)
    requires PhaseOk(me, w) && NodeHistory.OpsLast(w.server.ops, server.ops)
    ensures PhaseOk(me, w.(server := server))
  {
    match w.phase
    case Waiting(sent, reply) =>
      InHandLasts(me, w.server.ops, server.ops, w.clock, w.stops, w.mem, reply.listed);
      forall id | Acked(sent, id)
        ensures id in server.ops && !Nodes.Open(server.ops[id].state)
      {
        assert NodeHistory.OpLasts(w.server.ops[id], server.ops[id]);
      }
    case Working(queue, revision) => InHandLasts(me, w.server.ops, server.ops, w.clock, w.stops, w.mem, queue);
    case _ =>
  }

  /** A restart is ordered in the state pending. */
  lemma NewRestartWaits(db: Nodes.Db, now: int, e: Nodes.Event, id: nat)
    requires id !in db.ops && id in Nodes.Write(db, now, e).ops && Nodes.Write(db, now, e).ops[id].action.Restart?
    ensures Nodes.Write(db, now, e).ops[id].state == Nodes.Waiting
  {
    if e.EvSync? && Nodes.Step(db, now, e).Done? {
      NodeHistory.SyncOps(db, e.device, e.request, now);
    }
  }

  /** Nobody else's transaction makes this node's restart succeed. */
  lemma OthersDoNotSucceed(me: Identity, db: Nodes.Db, now: int, e: Nodes.Event, restarted: set<nat>)
    requires Nodes.Sound(db) && BoundTo(me, db) && RecordHonest(me, db.ops, restarted)
    requires !(e.EvSync? && e.device == me.device)
    ensures RecordHonest(me, Nodes.Write(db, now, e).ops, restarted)
  {
    var x := Nodes.Write(db, now, e);
    NodeHistory.WriteLasts(db, now, e);
    forall id | id in x.ops && Mine(me, x.ops[id]) && x.ops[id].action.Restart? && x.ops[id].state == Nodes.Succeeded
      ensures id in restarted
    {
      if id !in db.ops {
        NewRestartWaits(db, now, e, id);
      } else {
        assert NodeHistory.OpLasts(db.ops[id], x.ops[id]);
        if db.ops[id].state != Nodes.Succeeded {
          NodeHistory.SuccessIsCovered(db, now, e, id);
        }
      }
    }
  }

  /** The agent stays as it is, but for its phase, while the control plane moves on. */
  lemma Proceeds(me: Identity, w: World, server: Nodes.Db, phase: Phase)
    requires Inv(me, w) && Nodes.Sound(server) && BoundTo(me, server) && NodeHistory.OpsLast(w.server.ops, server.ops)
    requires RecordHonest(me, server.ops, w.restarted) && PhaseOk(me, w.(server := server, phase := phase))
    ensures Inv(me, w.(server := server, phase := phase))
  {
    OpsLastKeeps(me, w.server.ops, server.ops, w.clock, w.stops, w.mem);
    OpsLastKeeps(me, w.server.ops, server.ops, w.clock, w.stops, w.disk);
    TruthfulLasts(me, w.server.ops, server.ops, w.restarted, w.requests);
  }

  lemma ServerKeeps(me: Identity, w: World, now: int, e: Nodes.Event)
    requires Inv(me, w) && !(e.EvSync? && e.device == me.device)
    ensures Inv(me, w.(server := Nodes.Write(w.server, now, e)))
  {
    var server := Nodes.Write(w.server, now, e);
    NodeHistory.WriteSound(w.server, now, e);
    NodeHistory.WriteLasts(w.server, now, e);
    PhaseLasts(me, w, server);
    OthersDoNotSucceed(me, w.server, now, e, w.restarted);
    Proceeds(me, w, server, w.phase);
  }

  // ---------------------------------------------------------------- a round

  lemma ReportIsReportable(mem: Saved, ids: seq<nat>)
    requires forall i :: 0 <= i < |ids| ==> ids[i] in mem.ops
    ensures forall i :: 0 <= i < |ids| ==> Nodes.Reportable(Report(mem, ids)[i])
  {
  }

  /** After a sync an open operation of the node is one it may be handed. */
  lemma OpenIsListable(db: Nodes.Db, me: Identity, req: Nodes.Request, now: int, id: nat)
    requires BoundTo(me, db) && Nodes.Sync(db, me.device, req, now).Done?
             && id in Nodes.Sync(db, me.device, req, now).db.ops
    requires var o := Nodes.Sync(db, me.device, req, now).db.ops[id]; o.node == me.node && Nodes.Open(o.state)
    ensures Nodes.Listable(Nodes.Sync(db, me.device, req, now).db.ops[id], me.node, me.generation, now)
  {
    var n := db.bindings[me.device].node;
    var before := Nodes.ApplyResults(db.ops, n, db.nodes[n].generation, req.applied, now, req.results);
    assert Nodes.Sync(db, me.device, req, now).db.ops[id]
      == Nodes.Settled(before[id], n, db.nodes[n].generation, req.applied, now);
  }

  /** What the report acknowledges is closed at the control plane when the reply is written. */
  lemma AckedIsClosed(me: Identity, w: World, ids: seq<nat>, now: int, id: nat)
    requires Inv(me, w) && Sendable(w.mem, w.clock, ids)
    requires Nodes.Sync(w.server, me.device, RequestOf(me, w.mem, ids), now).Done?
    requires Acked(Report(w.mem, ids), id)
    ensures var x := Nodes.Sync(w.server, me.device, RequestOf(me, w.mem, ids), now).db;
            id in x.ops && !Nodes.Open(x.ops[id].state)
  {
    var req := RequestOf(me, w.mem, ids);
    var i :| 0 <= i < |req.results| && req.results[i].id == id
      && (req.results[i].state.Succeeded? || req.results[i].state.Failed?);
    assert id == ids[i] && id in w.mem.ops;
    NodeHistory.AcknowledgedIsGone(w.server, me.device, req, now, i);
    NodeHistory.SyncOps(w.server, me.device, req, now);
    var x := Nodes.Sync(w.server, me.device, req, now).db;
    assert NodeHistory.OpLasts(w.server.ops[id], x.ops[id]);
    if Nodes.Open(x.ops[id].state) {
      OpenIsListable(w.server, me, req, now, id);
    }
  }

  /** What the agent reports is true when it is sent. */
  lemma RequestIsTruthful(me: Identity, w: World, ids: seq<nat>)
    requires Inv(me, w) && Sendable(w.mem, w.clock, ids)
    ensures Truthful(me, w.server.ops, w.restarted, RequestOf(me, w.mem, ids))
  {
    var req := RequestOf(me, w.mem, ids);
    forall i | 0 <= i < |req.results| && req.results[i].state.Succeeded?
      ensures req.results[i].id in w.server.ops
      ensures Mine(me, w.server.ops[req.results[i].id]) && w.server.ops[req.results[i].id].action.Restart? ==>
                req.results[i].id in w.restarted
    {
      var id := ids[i];
      assert Matches(me, w.server.ops, id, w.mem.ops[id].revision, w.mem.ops[id].expires, w.mem.ops[id].restart);
    }
  }

  /** A restart recorded as succeeded in a sync was reported so, and therefore happened. */
  lemma SyncRecordHonest(me: Identity, w: World, req: Nodes.Request, now: int)
    requires Inv(me, w) && Truthful(me, w.server.ops, w.restarted, req)
    requires Nodes.Sync(w.server, me.device, req, now).Done?
    ensures RecordHonest(me, Nodes.Sync(w.server, me.device, req, now).db.ops, w.restarted)
  {
    var x := Nodes.Sync(w.server, me.device, req, now).db;
    NodeHistory.SyncOps(w.server, me.device, req, now);
    forall id | id in x.ops && Mine(me, x.ops[id]) && x.ops[id].action.Restart? && x.ops[id].state == Nodes.Succeeded
      ensures id in w.restarted
    {
      assert NodeHistory.OpLasts(w.server.ops[id], x.ops[id]);
      if w.server.ops[id].state != Nodes.Succeeded {
        NodeHistory.SuccessIsReported(w.server, me.device, req, now, id);
        var i :| 0 <= i < |req.results| && req.results[i].id == id && req.results[i].state.Succeeded?;
      }
    }
  }

  lemma SendKeeps(me: Identity, w: World, ids: seq<nat>)
    requires Inv(me, w)
    ensures Inv(me, Send(me, w, ids))
  {
    if Calling(w, ids) {
      RequestIsTruthful(me, w, ids);
    }
  }

  /** A late copy closes operations at most, and says nothing that is not true. */
  lemma LateKeeps(me: Identity, w: World, req: Nodes.Request, now: int)
    requires Inv(me, w)
    ensures Inv(me, Late(me, w, req, now))
  {
    if req in w.requests && Nodes.Sync(w.server, me.device, req, now).Done? {
      var x := Nodes.Sync(w.server, me.device, req, now).db;
      NodeHistory.SyncSound(w.server, me.device, req, now);
      NodeHistory.SyncOps(w.server, me.device, req, now);
      SyncedBinding(w.server, me, req, now);
      SyncRecordHonest(me, w, req, now);
      PhaseLasts(me, w, x);
      Proceeds(me, w, x, w.phase);
    }
  }

  /** What a sync lists is the control plane's, is not acknowledged by its request, and was
      not executed and forgotten. */
  lemma ListedInHand(me: Identity, w: World, ids: seq<nat>, now: int, page: seq<nat>, x: Nodes.Db)
    requires Inv(me, w) && Calling(w, ids)
    requires Nodes.Sync(w.server, me.device, RequestOf(me, w.mem, ids), now) == Nodes.Done(x)
    requires Nodes.IsPage(x.ops, me.node, me.generation, now, page)
    ensures InHand(me, x.ops, w.clock, w.stops, w.mem, List(x.ops, page))
    ensures forall i :: 0 <= i < |page| ==> !Acked(Report(w.mem, ids), List(x.ops, page)[i].id)
  {
    NodeHistory.SyncOps(w.server, me.device, RequestOf(me, w.mem, ids), now);
    var listed := List(x.ops, page);
    forall i | 0 <= i < |listed|
      ensures Matches(me, x.ops, listed[i].id, listed[i].revision, listed[i].expires, listed[i].restart)
      ensures !Acked(Report(w.mem, ids), listed[i].id)
      ensures listed[i].id in w.stops ==> listed[i].id in w.mem.ops || listed[i].expires < w.clock
    {
      assert Nodes.Listable(x.ops[page[i]], me.node, me.generation, now);
      if Acked(Report(w.mem, ids), page[i]) {
        AckedIsClosed(me, w, ids, now, page[i]);
      }
      if listed[i].id in w.stops && listed[i].id !in w.mem.ops {
        assert Gone(w.server.ops, w.clock, page[i]);
        assert NodeHistory.OpLasts(w.server.ops[page[i]], x.ops[page[i]]);
      }
    }
  }

  lemma CallPhase(me: Identity, w: World, ids: seq<nat>, now: int, page: seq<nat>)
    requires Inv(me, w) && Calling(w, ids)
    requires Nodes.Sync(w.server, me.device, RequestOf(me, w.mem, ids), now).Done?
    requires var x := Nodes.Sync(w.server, me.device, RequestOf(me, w.mem, ids), now).db;
             me.node in x.nodes && Nodes.IsPage(x.ops, me.node, me.generation, now, page)
    ensures PhaseOk(me, Call(me, w, ids, now, page))
  {
    var x := Nodes.Sync(w.server, me.device, RequestOf(me, w.mem, ids), now).db;
    ListedInHand(me, w, ids, now, page, x);
    forall id | Acked(Report(w.mem, ids), id)
      ensures id in x.ops && !Nodes.Open(x.ops[id].state)
    {
      AckedIsClosed(me, w, ids, now, id);
    }
  }

  lemma SyncedBinding(db: Nodes.Db, me: Identity, req: Nodes.Request, now: int)
    requires BoundTo(me, db) && Nodes.Sync(db, me.device, req, now).Done?
    ensures BoundTo(me, Nodes.Sync(db, me.device, req, now).db)
  {
  }

  lemma CallDone(me: Identity, w: World, ids: seq<nat>, now: int, page: seq<nat>)
    requires Inv(me, w) && Calling(w, ids)
    requires Nodes.Sync(w.server, me.device, RequestOf(me, w.mem, ids), now).Done?
    requires var x := Nodes.Sync(w.server, me.device, RequestOf(me, w.mem, ids), now).db;
             me.node in x.nodes && Nodes.IsPage(x.ops, me.node, me.generation, now, page)
    ensures Inv(me, Call(me, w, ids, now, page))
  {
    var req := RequestOf(me, w.mem, ids);
    var x := Nodes.Sync(w.server, me.device, req, now).db;
    NodeHistory.SyncSound(w.server, me.device, req, now);
    NodeHistory.SyncOps(w.server, me.device, req, now);
    SyncedBinding(w.server, me, req, now);
    SendKeeps(me, w, ids);
    SyncRecordHonest(me, Send(me, w, ids), req, now);
    CallPhase(me, w, ids, now, page);
    Proceeds(me, Send(me, w, ids), x, Call(me, w, ids, now, page).phase);
  }

  lemma CallKeeps(me: Identity, w: World, ids: seq<nat>, now: int, page: seq<nat>)
    requires Inv(me, w)
    ensures Inv(me, Call(me, w, ids, now, page))
  {
    SendKeeps(me, w, ids);
    if Calling(w, ids) {
      match Nodes.Sync(w.server, me.device, RequestOf(me, w.mem, ids), now)
      case Fail(_) =>
      case Done(x) =>
        if me.node in x.nodes && Nodes.IsPage(x.ops, me.node, me.generation, now, page) {
          CallDone(me, w, ids, now, page);
        }
    }
  }

  lemma ReceiveKeeps(me: Identity, w: World, keep: bool)
    requires Inv(me, w)
    ensures Inv(me, Receive(w, keep))
  {
    if w.phase.Waiting? {
      var y := Receive(w, keep);
      forall id | id in w.stops
        ensures id in y.mem.ops || Gone(w.server.ops, w.clock, id)
      {
        assert id in w.mem.ops ==>
          Matches(me, w.server.ops, id, w.mem.ops[id].revision, w.mem.ops[id].expires, w.mem.ops[id].restart);
      }
      var listed := w.phase.reply.listed;
      forall i | 0 <= i < |listed|
        ensures listed[i].id in w.stops ==> listed[i].id in y.mem.ops || listed[i].expires < w.clock
      {
        var id := listed[i].id;
        assert Matches(me, w.server.ops, id, listed[i].revision, listed[i].expires, listed[i].restart);
        assert id in w.mem.ops ==>
          Matches(me, w.server.ops, id, w.mem.ops[id].revision, w.mem.ops[id].expires, w.mem.ops[id].restart);
      }
    }
  }

  /** An order is executed only if it never was: anything executed before is in memory or has expired. */
  lemma NewOrder(me: Identity, w: World)
    requires Inv(me, w) && w.phase.Working? && w.phase.queue != []
    requires !Skipped(me, w.mem, w.clock, w.phase.revision, w.phase.queue[0])
    ensures w.phase.queue[0].id !in w.stops
  {
  }

  lemma TakePhase(me: Identity, w: World, save: Save)
    requires Inv(me, w)
    ensures PhaseOk(me, Take(me, w, save))
  {
    if w.phase.Working? && w.phase.queue != [] {
      var q, y := w.phase.queue, Take(me, w, save);
      forall i | 0 <= i < |q[1..]|
        ensures q[1..][i] == q[i + 1]
      {
      }
      if !Skipped(me, w.mem, w.clock, w.phase.revision, q[0]) && save.Kept? {
        forall i | 0 < i < |q|
          ensures q[i].id in y.stops ==> q[i].id in y.mem.ops || q[i].expires < y.clock
        {
        }
      }
    }
  }

  lemma TakeKeeps(me: Identity, w: World, save: Save)
    requires Inv(me, w)
    ensures Inv(me, Take(me, w, save))
  {
    TakePhase(me, w, save);
    if w.phase.Working? && w.phase.queue != [] {
      var o := w.phase.queue[0];
      assert Matches(me, w.server.ops, o.id, o.revision, o.expires, o.restart);
      if !Skipped(me, w.mem, w.clock, w.phase.revision, o) {
        NewOrder(me, w);
      }
    }
  }

  lemma EndKeeps(me: Identity, w: World, changed: bool, save: Save)
    requires Inv(me, w)
    ensures Inv(me, End(w, changed, save))
  {
  }

  lemma ApplyKeeps(me: Identity, w: World, save: Save)
    requires Inv(me, w)
    ensures Inv(me, Apply(w, save))
  {
  }

  lemma MarkKeeps(me: Identity, w: World, error: nat, save: Save)
    requires Inv(me, w)
    ensures Inv(me, Mark(w, error, save))
  {
  }

  lemma CrashKeeps(me: Identity, w: World)
    requires Inv(me, w)
    ensures Inv(me, Crash(w))
  {
  }

  lemma TickKeeps(me: Identity, w: World, clock: int)
    requires Inv(me, w) && clock >= w.clock
    ensures Inv(me, w.(clock := clock))
  {
    var y := w.(clock := clock);
    match w.phase
    case Waiting(sent, reply) => assert InHand(me, y.server.ops, clock, y.stops, y.mem, reply.listed);
    case Working(queue, revision) => assert InHand(me, y.server.ops, clock, y.stops, y.mem, queue);
    case _ =>
  }

  lemma StepKeeps(me: Identity, w: World, e: Event)
    requires Inv(me, w)
    ensures Inv(me, Step(me, w, e))
  {
    match e
    case EvServer(now, event) =>
      if !(event.EvSync? && event.device == me.device) {
        ServerKeeps(me, w, now, event);
      }
    case EvSend(ids) => SendKeeps(me, w, ids);
    case EvCall(ids, now, page) => CallKeeps(me, w, ids, now, page);
    case EvLate(request, now) => LateKeeps(me, w, request, now);
    case EvReceive(keep) => ReceiveKeeps(me, w, keep);
    case EvTake(save) => TakeKeeps(me, w, save);
    case EvEnd(changed, save) => EndKeeps(me, w, changed, save);
    case EvApplied(save) => ApplyKeeps(me, w, save);
    case EvFault =>
    case EvMark(error, save) => MarkKeeps(me, w, error, save);
    case EvCrash => CrashKeeps(me, w);
    case EvTick(clock) =>
      if clock >= w.clock {
        TickKeeps(me, w, clock);
      }
  }

  lemma {:induction false} AlwaysInv(me: Identity, server: Nodes.Db, clock: int, es: seq<Event>)
    requires Enrolled(me, server)
    ensures Inv(me, After(me, server, clock, es))
  {
    if es != [] {
      AlwaysInv(me, server, clock, es[..|es| - 1]);
      StepKeeps(me, After(me, server, clock, es[..|es| - 1]), es[|es| - 1]);
    }
  }

  // ---------------------------------------------------------------- the main results

  /** Whatever is lost, resent or crashes, one restart order stops the network at most once. */
  lemma OneStopPerOrder(me: Identity, server: Nodes.Db, clock: int, es: seq<Event>, id: nat)
    requires Enrolled(me, server)
    ensures After(me, server, clock, es).stops[id] <= 1
  {
    AlwaysInv(me, server, clock, es);
  }

  /** A restart the control plane shows as succeeded has happened: by its own stop, or by a
      crash after its checkpoint. */
  lemma SuccessMeansRestarted(me: Identity, server: Nodes.Db, clock: int, es: seq<Event>, id: nat)
    requires Enrolled(me, server)
    requires var ops := After(me, server, clock, es).server.ops;
             id in ops && Mine(me, ops[id]) && ops[id].action.Restart? && ops[id].state == Nodes.Succeeded
    ensures id in After(me, server, clock, es).restarted
  {
    AlwaysInv(me, server, clock, es);
  }

  // ---------------------------------------------------------------- when an order is carried out

  /** A restart order that is to be carried out was never executed, and is now exactly when its save succeeds; any
      other order is passed over. */
  lemma TakenExactly(me: Identity, w: World, save: Save)
    requires Inv(me, w) && w.phase.Working? && w.phase.queue != [] && w.phase.queue[0].restart
    ensures var o, x := w.phase.queue[0], Take(me, w, save);
            if Wanted(me, w.mem, w.clock, w.phase.revision, o) then
              && o.id !in w.stops && (o.id in x.stops <==> save.Kept?)
              && (save.Kept? <==> !x.phase.Faulted?)
              && (save.Lost? ==> x.disk == w.disk) && (!save.Lost? ==> o.id in x.disk.ops && x.disk.ops[o.id].restart)
            else x == w.(phase := Working(w.phase.queue[1..], w.phase.revision))
  {
    if Wanted(me, w.mem, w.clock, w.phase.revision, w.phase.queue[0]) {
      NewOrder(me, w);
    }
  }

  // ---------------------------------------------------------------- an order that is never carried out

  const ME := Identity(7, 1, 1)

  /** Node 1 with device 7 bound to it, and nothing ordered yet. */
  function JustEnrolled(): Nodes.Db {
    Nodes.Db(map[1 := Nodes.Node(5, Nodes.Active, 1, 1, 0, None)], map[(1, 1) := 5],
      map[7 := Nodes.Binding(1, 1, true)], map[], map[])
  }

  lemma JustEnrolledIs()
    ensures Enrolled(ME, JustEnrolled())
  {
    var db := JustEnrolled();
    assert Nodes.Bound(db, 1) by { assert db.bindings[7].node == 1 && db.bindings[7].current; }
  }

  function Order(state: Nodes.OpState, error: nat): Nodes.Operation {
    Nodes.Operation(1, 1, 2, Nodes.Restart, 0, Nodes.OP_LIFE, state, error)
  }

  function Ordered(state: Nodes.OpState, error: nat): Nodes.Db {
    Nodes.Db(map[1 := Nodes.Node(5, Nodes.Active, 1, 2, 0, None)], map[(1, 1) := 5, (1, 2) := 5],
             map[7 := Nodes.Binding(1, 1, true)], map[], map[3 := Order(state, error)])
  }

  /** The order is listed; the save of its checkpoint fails; the failed round marks it failed;
      the next call reports that. */
  function Unsaved(): seq<Event> {
    [EvServer(0, Nodes.EvAct(1, Nodes.Restart, 3, 0, 0)), EvCall([], 0, [3]), EvReceive(false), EvTake(Lost),
      EvMark(9, Kept), EvCall([3], 1, [])]
  }

  function Held(state: LocalState, error: nat): Saved {
    Saved(map[3 := LocalOp(2, Nodes.OP_LIFE, true, state, error)], 0, None)
  }

  ghost function Stage(n: nat): World
    requires n <= 6
  {
    After(ME, JustEnrolled(), 0, Unsaved()[..n])
  }

  lemma Next(n: nat)
    requires n < 6
    ensures Stage(n + 1) == Step(ME, Stage(n), Unsaved()[n])
  {
    assert Unsaved()[..n + 1][..n] == Unsaved()[..n];
  }

  lemma OrderPlaced()
    ensures Stage(1) == World(Ordered(Nodes.Waiting, 0), NEW, NEW, Idle, None, 0, multiset{}, {}, {})
  {
    assert Unsaved()[..0] == [];
    Next(0);
    var db := JustEnrolled();
    assert Nodes.Bound(db, 1) by { assert db.bindings[7].node == 1 && db.bindings[7].current; }
    assert Nodes.Write(db, 0, Nodes.EvAct(1, Nodes.Restart, 3, 0, 0)) == Ordered(Nodes.Waiting, 0);
  }

  lemma OrderListed()
    ensures Stage(2) == World(Ordered(Nodes.Waiting, 0), NEW, NEW,
                              Waiting([], Reply(2, 5, [Listed(3, 1, 2, Nodes.OP_LIFE, true)])), None, 0, multiset{}, {},
                                {RequestOf(ME, NEW, [])})
  {
    OrderPlaced();
    Next(1);
    var db := Ordered(Nodes.Waiting, 0);
    var req := RequestOf(ME, NEW, []);
    assert Nodes.Settle(db.ops, 1, 1, 0, 0) == db.ops;
    assert Nodes.Sync(db, 7, req, 0) == Nodes.Done(db);
    assert List(db.ops, [3]) == [Listed(3, 1, 2, Nodes.OP_LIFE, true)];
  }

  lemma OrderReceived()
    ensures Stage(3).mem == NEW && Stage(3).phase == Working([Listed(3, 1, 2, Nodes.OP_LIFE, true)], 2)
            && Stage(3).clock == 0
    ensures Stage(3).server == Ordered(Nodes.Waiting, 0) && Stage(3).stops == multiset{} && Stage(3).restarted == {}
  {
    OrderListed();
    Next(2);
  }

  lemma OrderTaken()
    ensures Stage(4).mem == Held(Running, 0) && Stage(4).phase == Faulted && Stage(4).clock == 0
    ensures Stage(4).server == Ordered(Nodes.Waiting, 0) && Stage(4).stops == multiset{} && Stage(4).restarted == {}
  {
    OrderReceived();
    Next(3);
  }

  lemma OrderFailed()
    ensures Stage(5).mem == Held(Failed, 9) && Stage(5).phase == Idle && Stage(5).clock == 0
    ensures Stage(5).server == Ordered(Nodes.Waiting, 0) && Stage(5).stops == multiset{} && Stage(5).restarted == {}
  {
    OrderTaken();
    Next(4);
    assert Given(Held(Running, 0), 9) == Held(Failed, 9);
  }

  lemma OrderClosed()
    ensures Nodes.Sync(Ordered(Nodes.Waiting, 0), 7, RequestOf(ME, Held(Failed, 9), [3]), 1)
            == Nodes.Done(Ordered(Nodes.Failed, 9))
  {
    var db := Ordered(Nodes.Waiting, 0);
    var rs := Report(Held(Failed, 9), [3]);
    assert rs == [Nodes.Result(3, Nodes.Failed, 9)] && rs[..0] == [];
    assert Nodes.ApplyResults(db.ops, 1, 1, 0, 1, rs[..0]) == db.ops;
    assert Nodes.ApplyResults(db.ops, 1, 1, 0, 1, rs) == map[3 := Order(Nodes.Failed, 9)];
    assert Nodes.Settle(map[3 := Order(Nodes.Failed, 9)], 1, 1, 0, 1) == map[3 := Order(Nodes.Failed, 9)];
  }

  /** At most one stop is not exactly one: here the order ends as failed at the control plane,
      and nothing was ever stopped. */
  lemma UnsavedOrderIsNeverCarriedOut()
    ensures Enrolled(ME, JustEnrolled())
    ensures var w := After(ME, JustEnrolled(), 0, Unsaved());
            && 3 in w.server.ops && w.server.ops[3].action.Restart? && w.server.ops[3].state == Nodes.Failed
            && w.stops[3] == 0 && 3 !in w.restarted
  {
    JustEnrolledIs();
    OrderFailed();
    Next(5);
    assert Unsaved()[..6] == Unsaved();
    OrderClosed();
    assert Nodes.IsPage(Ordered(Nodes.Failed, 9).ops, 1, 1, 1, []);
  }
}
