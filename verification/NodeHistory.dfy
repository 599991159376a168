/** Node history: what every transaction keeps, what none takes back, and when an operation has succeeded. */
module NodeHistory {
  import opened Bytes
  import opened Nodes

  // ---------------------------------------------------------------- one report at a time

  /** The same operation, whatever has become of it. */
  predicate SameOrder(a: Operation, b: Operation) {
    && b.node == a.node && b.generation == a.generation && b.revision == a.revision && b.action == a.action
    && b.created == a.created && b.expires == a.expires
  }

  /** An operation that has ended stays exactly as it ended. */
  predicate OpLasts(a: Operation, b: Operation) {
    SameOrder(a, b) && (!Open(a.state) ==> b == a)
  }

  predicate OpsLast(a: map<nat, Operation>, b: map<nat, Operation>) {
    forall id <- a :: id in b && OpLasts(a[id], b[id])
  }

  /** Between a and b an operation succeeds only under the report it needs. */
  predicate Justified(a: map<nat, Operation>, b: map<nat, Operation>, n: nat, generation: nat, applied: int) {
    forall id <- a :: id in b && a[id].state != Succeeded && b[id].state == Succeeded ==>
      a[id].node == n && a[id].generation == generation && a[id].revision <= applied
  }

  lemma {:induction false} ResultsLast(ops: map<nat, Operation>, n: nat, generation: nat, applied: int, now: int,
      rs: seq<Result>)
    requires forall i :: 0 <= i < |rs| ==> Reportable(rs[i])
    ensures var x := ApplyResults(ops, n, generation, applied, now, rs);
            x.Keys == ops.Keys && OpsLast(ops, x) && Justified(ops, x, n, generation, applied)
  {
    if rs != [] {
      ResultsLast(ops, n, generation, applied, now, rs[..|rs| - 1]);
      var x := ApplyResults(ops, n, generation, applied, now, rs[..|rs| - 1]);
      OneResultLasts(ops, x, n, generation, applied, now, rs[|rs| - 1]);
    }
  }

  lemma OneResultLasts(ops: map<nat, Operation>, x: map<nat, Operation>, n: nat, generation: nat, applied: int,
      now: int, r: Result)
    requires x.Keys == ops.Keys && OpsLast(ops, x) && Justified(ops, x, n, generation, applied)
    ensures var y := ApplyResult(x, n, generation, applied, now, r);
            y.Keys == ops.Keys && OpsLast(ops, y) && Justified(ops, y, n, generation, applied)
  {
  }

  lemma SettleLasts(ops: map<nat, Operation>, n: nat, generation: nat, applied: int, now: int)
    ensures OpsLast(ops, Settle(ops, n, generation, applied, now))
    ensures forall id <- ops :: Settle(ops, n, generation, applied, now)[id].state == Succeeded ==>
            ops[id].state == Succeeded
  {
  }

  lemma SyncOps(db: Db, d: nat, req: Request, now: int)
    requires Sync(db, d, req, now).Done?
    ensures var n := db.bindings[d].node;
            && OpsLast(db.ops, Sync(db, d, req, now).db.ops)
            && Sync(db, d, req, now).db.ops.Keys == db.ops.Keys
            && Justified(db.ops, Sync(db, d, req, now).db.ops, n, db.nodes[n].generation, req.applied)
  {
    var n := db.bindings[d].node;
    var g := db.nodes[n].generation;
    ResultsLast(db.ops, n, g, req.applied, now, req.results);
    SettleLasts(ApplyResults(db.ops, n, g, req.applied, now, req.results), n, g, req.applied, now);
  }

  // ---------------------------------------------------------------- soundness

  lemma ConfigAdded(nodes: map<nat, Node>, configs: map<(nat, nat), nat>, n: nat, node: Node)
    requires ConfigsExact(nodes, configs) && n in nodes && node.revision == nodes[n].revision + 1
    ensures ConfigsExact(nodes[n := node], configs[(n, node.revision) := node.config])
    ensures (n, node.revision) !in configs
  {
  }

  lemma ReportsGrow(nodes: map<nat, Node>, configs: map<(nat, nat), nat>, n: nat, node: Node)
    requires ConfigsExact(nodes, configs) && ReportsFit(nodes, configs) && n in nodes
             && node.revision == nodes[n].revision + 1
    requires node.applied <= 0 || (node.applied == nodes[n].applied && node.reported == nodes[n].reported)
    ensures ReportsFit(nodes[n := node], configs[(n, node.revision) := node.config])
  {
  }

  lemma OpsGrow(nodes: map<nat, Node>, ops: map<nat, Operation>, n: nat, node: Node)
    requires OpsFit(nodes, ops) && n in nodes && node.revision >= nodes[n].revision
             && node.generation >= nodes[n].generation
    ensures OpsFit(nodes[n := node], ops)
  {
  }

  lemma CreateSound(db: Db, n: nat, config: nat)
    requires Sound(db) && Create(db, n, config).Done?
    ensures Sound(Create(db, n, config).db)
  {
    var x := Create(db, n, config).db;
    StillBound(db, x);
    forall m, r
      ensures (m, r) in x.configs <==> m in x.nodes && 1 <= r <= x.nodes[m].revision
    {
      assert (m, r) in db.configs <==> m in db.nodes && 1 <= r <= db.nodes[m].revision;
    }
  }

  lemma StillBound(a: Db, b: Db)
    requires forall d <- a.bindings :: a.bindings[d].current ==> d in b.bindings && b.bindings[d] == a.bindings[d]
    ensures forall n :: Bound(a, n) ==> Bound(b, n)
  {
    forall n | Bound(a, n)
      ensures Bound(b, n)
    {
      var d :| d in a.bindings && a.bindings[d].node == n && a.bindings[d].current;
      assert d in b.bindings && b.bindings[d].node == n && b.bindings[d].current;
    }
  }

  /** Nodes in service are still bound when bindings stay and no node newly enters service. */
  lemma StatesKept(a: Db, b: Db)
    requires StatesFit(a.nodes, a) && forall n :: Bound(a, n) ==> Bound(b, n)
    requires forall n <- b.nodes ::
               b.nodes[n].state.Pending? || (n in a.nodes && b.nodes[n].state == a.nodes[n].state) || Bound(b, n)
    ensures StatesFit(b.nodes, b)
  {
    forall n | n in b.nodes && (b.nodes[n].state.Active? || b.nodes[n].state.Draining? || b.nodes[n].state.Disabled?)
      ensures Bound(b, n)
    {
      assert !Bound(b, n) ==> Bound(a, n);
    }
  }

  lemma UpdateSound(db: Db, n: nat, config: nat, expected: nat)
    requires Sound(db) && Update(db, n, config, expected).Done?
    ensures Sound(Update(db, n, config, expected).db)
  {
    var x := Update(db, n, config, expected).db;
    var node := db.nodes[n].(config := config, revision := db.nodes[n].revision + 1);
    ConfigAdded(db.nodes, db.configs, n, node);
    ReportsGrow(db.nodes, db.configs, n, node);
    OpsGrow(db.nodes, db.ops, n, node);
    KeptFits(db, n, node);
    StillBound(db, x);
    StatesKept(db, x);
  }

  lemma EnrollBindings(nodes: map<nat, Node>, bindings: map<nat, Binding>, n: nat, device: nat)
    requires BindingsFit(nodes, bindings) && OneEach(bindings) && n in nodes && nodes[n].state.Pending?
             && device !in bindings
    ensures var after := bindings[device := Binding(n, nodes[n].generation, true)];
            BindingsFit(nodes[n := nodes[n].(state := Active)], after) && OneEach(after)
  {
  }

  lemma StateConfigs(nodes: map<nat, Node>, configs: map<(nat, nat), nat>, n: nat, state: NodeState)
    requires ConfigsExact(nodes, configs) && ReportsFit(nodes, configs) && n in nodes
    ensures ConfigsExact(nodes[n := nodes[n].(state := state)], configs)
            && ReportsFit(nodes[n := nodes[n].(state := state)], configs)
  {
    SyncConfigs(nodes, configs, n, nodes[n].(state := state));
  }

  lemma EnrollSound(db: Db, key: nat, device: nat, known: bool, now: int)
    requires Sound(db) && Enroll(db, key, device, known, now).Done?
    ensures Sound(Enroll(db, key, device, known, now).db)
  {
    var x := Enroll(db, key, device, known, now).db;
    var n := db.keys[key].node;
    EnrollBindings(db.nodes, db.bindings, n, device);
    StateConfigs(db.nodes, db.configs, n, Active);
    OpsGrow(db.nodes, db.ops, n, x.nodes[n]);
    StillBound(db, x);
    assert Bound(x, n) by { assert x.bindings[device].node == n && x.bindings[device].current; }
    StatesKept(db, x);
  }

  lemma UnbindFits(db: Db, n: nat, node: Node)
    requires BindingsFit(db.nodes, db.bindings) && OneEach(db.bindings) && n in db.nodes
    requires (node.state.Revoked? && node.generation == db.nodes[n].generation)
             || (node.state.Pending? && node.generation == db.nodes[n].generation + 1)
    ensures BindingsFit(db.nodes[n := node], Unbind(db.bindings, n)) && OneEach(Unbind(db.bindings, n))
  {
  }

  lemma StatesUnbound(db: Db, x: Db, n: nat)
    requires StatesFit(db.nodes, db) && n in db.nodes
    requires x.bindings == Unbind(db.bindings, n) && x.nodes.Keys == db.nodes.Keys
    requires x.nodes[n].state.Revoked? || x.nodes[n].state.Pending?
    requires forall m <- db.nodes :: m != n ==> x.nodes[m] == db.nodes[m]
    ensures StatesFit(x.nodes, x)
  {
    forall m | m in x.nodes && (x.nodes[m].state.Active? || x.nodes[m].state.Draining? || x.nodes[m].state.Disabled?)
      ensures Bound(x, m)
    {
      assert Bound(db, m);
      var d :| d in db.bindings && db.bindings[d].node == m && db.bindings[d].current;
      assert d in x.bindings && x.bindings[d].node == m && x.bindings[d].current;
    }
  }

  lemma KeptFits(db: Db, n: nat, node: Node)
    requires BindingsFit(db.nodes, db.bindings) && n in db.nodes && node.generation == db.nodes[n].generation
    requires node.state == db.nodes[n].state
             || (!db.nodes[n].state.Pending? && !db.nodes[n].state.Revoked? && !node.state.Pending?
                && !node.state.Revoked?)
    ensures BindingsFit(db.nodes[n := node], db.bindings)
  {
  }

  lemma BoundNotPending(db: Db, n: nat)
    requires BindingsFit(db.nodes, db.bindings) && Bound(db, n)
    ensures n in db.nodes && !db.nodes[n].state.Pending? && !db.nodes[n].state.Revoked?
  {
    var d :| d in db.bindings && db.bindings[d].node == n && db.bindings[d].current;
  }

  lemma PermanentBindings(db: Db, n: nat, action: Action, op: nat, created: nat, clock: int)
    requires Sound(db) && Act(db, n, action, op, created, clock).Done? && Permanent(action)
    ensures var x := Act(db, n, action, op, created, clock).db;
            BindingsFit(x.nodes, x.bindings) && OneEach(x.bindings) && StatesFit(x.nodes, x)
  {
    var x := Act(db, n, action, op, created, clock).db;
    UnbindFits(db, n, x.nodes[n]);
    StatesUnbound(db, x, n);
  }

  lemma ActBindings(db: Db, n: nat, action: Action, op: nat, created: nat, clock: int)
    requires Sound(db) && Act(db, n, action, op, created, clock).Done? && !Permanent(action)
    ensures var x := Act(db, n, action, op, created, clock).db;
            BindingsFit(x.nodes, x.bindings) && OneEach(x.bindings) && StatesFit(x.nodes, x)
  {
    var x := Act(db, n, action, op, created, clock).db;
    if action.Disable? {
      BoundNotPending(db, n);
    }
    KeptFits(db, n, x.nodes[n]);
    StillBound(db, x);
    assert Bound(db, n) ==> Bound(x, n);
    assert db.nodes[n].state.Disabled? || db.nodes[n].state.Draining? ==> Bound(db, n);
    StatesKept(db, x);
  }

  lemma ActSound(db: Db, n: nat, action: Action, op: nat, created: nat, clock: int)
    requires Sound(db) && Act(db, n, action, op, created, clock).Done?
    ensures Sound(Act(db, n, action, op, created, clock).db)
  {
    var x := Act(db, n, action, op, created, clock).db;
    ConfigAdded(db.nodes, db.configs, n, x.nodes[n]);
    ReportsGrow(db.nodes, db.configs, n, x.nodes[n]);
    OpsGrow(db.nodes, db.ops, n, x.nodes[n]);
    if Permanent(action) {
      PermanentBindings(db, n, action, op, created, clock);
    } else {
      ActBindings(db, n, action, op, created, clock);
    }
  }

  lemma SyncSound(db: Db, d: nat, req: Request, now: int)
    requires Sound(db) && Sync(db, d, req, now).Done?
    ensures Sound(Sync(db, d, req, now).db)
  {
    var x := Sync(db, d, req, now).db;
    var n := db.bindings[d].node;
    SyncOps(db, d, req, now);
    OpsGrow(db.nodes, db.ops, n, x.nodes[n]);
    SyncedOps(x.nodes, db.ops, x.ops);
    KeptFits(db, n, x.nodes[n]);
    StillBound(db, x);
    SyncConfigs(db.nodes, db.configs, n, x.nodes[n]);
  }

  lemma SyncedOps(nodes: map<nat, Node>, a: map<nat, Operation>, b: map<nat, Operation>)
    requires OpsFit(nodes, a) && OpsLast(a, b) && b.Keys == a.Keys
    ensures OpsFit(nodes, b)
  {
    forall id | id in b
      ensures b[id].node in nodes && b[id].generation <= nodes[b[id].node].generation
              && 1 <= b[id].revision <= nodes[b[id].node].revision
    {
      assert OpLasts(a[id], b[id]);
    }
  }

  lemma SyncConfigs(nodes: map<nat, Node>, configs: map<(nat, nat), nat>, n: nat, node: Node)
    requires ConfigsExact(nodes, configs) && ReportsFit(nodes, configs) && n in nodes
    requires node.config == nodes[n].config && node.revision == nodes[n].revision
    requires node.applied > 0 ==> (n, node.applied) in configs && node.reported == Some(configs[(n, node.applied)])
    ensures ConfigsExact(nodes[n := node], configs) && ReportsFit(nodes[n := node], configs)
  {
    forall m, r
      ensures (m, r) in configs <==> m in nodes[n := node] && 1 <= r <= nodes[n := node][m].revision
    {
      assert (m, r) in configs <==> m in nodes && 1 <= r <= nodes[m].revision;
    }
  }

  lemma WriteSound(db: Db, now: int, e: Event)
    requires Sound(db)
    ensures Sound(Write(db, now, e))
  {
    if Step(db, now, e).Done? {
      match e
      case EvCreate(node, config) => CreateSound(db, node, config);
      case EvUpdate(node, config, expected) => UpdateSound(db, node, config, expected);
      case EvKey(node, key) => StillBound(db, Step(db, now, e).db);
      case EvEnroll(key, device, known) => EnrollSound(db, key, device, known, now);
      case EvAct(node, action, op, created, clock) => ActSound(db, node, action, op, created, clock);
      case EvSync(device, request) => SyncSound(db, device, request, now);
    }
  }

  // ---------------------------------------------------------------- nothing is taken back

  /** Revisions and generations only grow, a new revision comes with every change, and revoked stays revoked. */
  predicate NodesLast(a: map<nat, Node>, b: map<nat, Node>) {
    forall n <- a :: n in b && b[n].revision >= a[n].revision && b[n].generation >= a[n].generation
      && (a[n].state.Revoked? ==> b[n] == a[n])
      && (b[n].revision == a[n].revision ==> b[n].config == a[n].config && b[n].generation == a[n].generation)
  }

  predicate ConfigsLast(a: map<(nat, nat), nat>, b: map<(nat, nat), nat>) {
    forall k <- a :: k in b && b[k] == a[k]
  }

  predicate BindingsLast(a: map<nat, Binding>, b: map<nat, Binding>) {
    forall d <- a :: d in b && b[d].node == a[d].node && b[d].generation == a[d].generation
      && (b[d].current ==> a[d].current)
  }

  predicate Lasting(a: Db, b: Db) {
    NodesLast(a.nodes, b.nodes) && ConfigsLast(a.configs, b.configs) && BindingsLast(a.bindings, b.bindings)
      && OpsLast(a.ops, b.ops)
  }

  lemma Still(a: Db)
    ensures Lasting(a, a)
  {
  }

  lemma SyncLasts(db: Db, d: nat, req: Request, now: int)
    requires Sync(db, d, req, now).Done?
    ensures Lasting(db, Sync(db, d, req, now).db)
  {
    SyncOps(db, d, req, now);
    Still(db);
  }

  lemma UpdateLasts(db: Db, n: nat, config: nat, expected: nat)
    requires Update(db, n, config, expected).Done?
    ensures Lasting(db, Update(db, n, config, expected).db)
  {
    Still(db);
  }

  lemma EnrollLasts(db: Db, key: nat, device: nat, known: bool, now: int)
    requires Enroll(db, key, device, known, now).Done?
    ensures Lasting(db, Enroll(db, key, device, known, now).db)
  {
    Still(db);
  }

  lemma WriteLasts(db: Db, now: int, e: Event)
    ensures Lasting(db, Write(db, now, e))
  {
    if Step(db, now, e).Fail? {
      Still(db);
    } else {
      match e
      case EvSync(device, request) => SyncLasts(db, device, request, now);
      case EvAct(node, action, op, created, clock) => ActLasts(db, node, action, op, created, clock);
      case EvUpdate(node, config, expected) => UpdateLasts(db, node, config, expected);
      case EvEnroll(key, device, known) => EnrollLasts(db, key, device, known, now);
      case EvCreate(node, config) =>
      case EvKey(node, key) => Still(db);
    }
  }

  lemma ActLasts(db: Db, n: nat, action: Action, op: nat, created: nat, clock: int)
    requires Act(db, n, action, op, created, clock).Done?
    ensures Lasting(db, Act(db, n, action, op, created, clock).db)
  {
  }

  datatype Tx = Tx(now: int, event: Event)

  ghost function After(run: seq<Tx>): (db: Db)
    ensures Sound(db)
  {
    if run == [] then Db(map[], map[], map[], map[], map[])
    else
      var last := run[|run| - 1];
      WriteSound(After(run[..|run| - 1]), last.now, last.event);
      Write(After(run[..|run| - 1]), last.now, last.event)
  }

  lemma LastLasts(run: seq<Tx>)
    requires run != []
    ensures Lasting(After(run[..|run| - 1]), After(run))
  {
    var last := run[|run| - 1];
    WriteLasts(After(run[..|run| - 1]), last.now, last.event);
  }

  lemma Later(a: Db, b: Db, c: Db)
    requires Lasting(a, b) && Lasting(b, c)
    ensures Lasting(a, c)
  {
    forall id | id in a.ops
      ensures id in c.ops && OpLasts(a.ops[id], c.ops[id])
    {
      assert OpLasts(a.ops[id], b.ops[id]) && OpLasts(b.ops[id], c.ops[id]);
    }
  }

  /**
   * Between any two moments of any run: stored configurations never change, revisions and generations
   * never decrease, a revision shows one configuration, ended operations stay as they ended, a retired
   * binding stays retired, and a revoked node does not change at all.
   */
  lemma {:induction false} HistoryLasts(run: seq<Tx>, i: nat)
    requires i <= |run|
    ensures Lasting(After(run[..i]), After(run))
  {
    if i == |run| {
      assert run[..i] == run;
      Still(After(run));
    } else {
      var init := run[..|run| - 1];
      assert init[..i] == run[..i];
      HistoryLasts(init, i);
      LastLasts(run);
      Later(After(run[..i]), After(init), After(run));
    }
  }

  // ---------------------------------------------------------------- revisions count the changes

  /** The tables after a run, and the configurations that node n was given in it: one for each change that succeeded,
      in order; an action repeats the last. */
  ghost function History(run: seq<Tx>, n: nat): (Db, seq<nat>) {
    if run == [] then (Db(map[], map[], map[], map[], map[]), [])
    else
      var (db, cs) := History(run[..|run| - 1], n);
      (Write(db, run[|run| - 1].now, run[|run| - 1].event),
        Extended(cs, db, run[|run| - 1].now, run[|run| - 1].event, n))
  }

  ghost function Configs(run: seq<Tx>, n: nat): seq<nat> {
    History(run, n).1
  }

  ghost function Extended(cs: seq<nat>, db: Db, now: int, e: Event, n: nat): seq<nat> {
    if Step(db, now, e).Fail? then cs
    else if e.EvCreate? && e.node == n then cs + [e.config]
    else if e.EvUpdate? && e.node == n then cs + [e.config]
    else if e.EvAct? && e.node == n && cs != [] then cs + [cs[|cs| - 1]]
    else cs
  }

  /** Revision r of node n is its r-th configuration, and the node shows the last. */
  ghost predicate Counts(db: Db, n: nat, cs: seq<nat>) {
    && (n in db.nodes <==> cs != [])
    && (n in db.nodes ==> db.nodes[n].revision == |cs| && db.nodes[n].config == cs[|cs| - 1])
    && (forall r: nat :: (n, r) in db.configs <==> 1 <= r <= |cs|)
    && (forall r: nat :: 1 <= r <= |cs| ==> db.configs[(n, r)] == cs[r - 1])
  }

  lemma CountsOn(db: Db, now: int, e: Event, n: nat, cs: seq<nat>)
    requires Counts(db, n, cs)
    ensures Counts(Write(db, now, e), n, Extended(cs, db, now, e, n))
  {
  }

  lemma {:induction false} HistoryCounts(run: seq<Tx>, n: nat)
    ensures Counts(History(run, n).0, n, History(run, n).1)
  {
    if run != [] {
      var last := run[|run| - 1];
      HistoryCounts(run[..|run| - 1], n);
      var (db, cs) := History(run[..|run| - 1], n);
      CountsOn(db, last.now, last.event, n, cs);
    }
  }

  lemma {:induction false} HistoryIsAfter(run: seq<Tx>, n: nat)
    ensures History(run, n).0 == After(run)
  {
    if run != [] {
      HistoryIsAfter(run[..|run| - 1], n);
    }
  }

  /** In every run the revision of a node is the number of its changes, and each number keeps the
      configuration of its change. */
  lemma RevisionCounts(run: seq<Tx>, n: nat)
    ensures Counts(After(run), n, Configs(run, n))
  {
    HistoryCounts(run, n);
    HistoryIsAfter(run, n);
  }

  /**
   * An operation that was open becomes succeeded only in a sync by the device bound to its node in its
   * generation, whose report covers its revision with the configuration stored under the revision applied.
   */
  lemma SuccessIsCovered(db: Db, now: int, e: Event, id: nat)
    requires Sound(db) && id in db.ops && db.ops[id].state != Succeeded
    requires id in Write(db, now, e).ops && Write(db, now, e).ops[id].state == Succeeded
    ensures e.EvSync? && e.device in db.bindings && db.bindings[e.device].current
    ensures db.bindings[e.device].node == db.ops[id].node && db.bindings[e.device].generation == db.ops[id].generation
    ensures 1 <= db.ops[id].revision <= e.request.applied
    ensures (db.ops[id].node, e.request.applied as nat) in db.configs
            && e.request.config == Some(db.configs[(db.ops[id].node, e.request.applied as nat)])
  {
    assert Step(db, now, e).Done?;
    if e.EvSync? {
      SyncOps(db, e.device, e.request, now);
    }
  }

  // ---------------------------------------------------------------- what a report achieves

  lemma ClosedSticks(ops: map<nat, Operation>, n: nat, generation: nat, applied: int, now: int, r: Result, id: nat)
    requires id in ops && !Listable(ops[id], n, generation, now) && Reportable(r)
    ensures !Listable(ApplyResult(ops, n, generation, applied, now, r)[id], n, generation, now)
  {
  }

  /** A reported end, once covered, leaves the operation closed or not the node's to have. */
  lemma {:induction false} ReportedIsClosed(ops: map<nat, Operation>, n: nat, generation: nat, applied: int, now: int,
      rs: seq<Result>, i: nat)
    requires i < |rs| && rs[i].id in ops && forall j :: 0 <= j < |rs| ==> Reportable(rs[j])
    requires rs[i].state.Failed? || (rs[i].state.Succeeded? && ops[rs[i].id].revision <= applied)
    ensures var x := ApplyResults(ops, n, generation, applied, now, rs);
            rs[i].id in x && !Listable(x[rs[i].id], n, generation, now)
  {
    var init := rs[..|rs| - 1];
    ResultsLast(ops, n, generation, applied, now, init);
    var x := ApplyResults(ops, n, generation, applied, now, init);
    assert OpLasts(ops[rs[i].id], x[rs[i].id]);
    if i < |rs| - 1 {
      assert init[i] == rs[i];
      ReportedIsClosed(ops, n, generation, applied, now, init, i);
      ClosedSticks(x, n, generation, applied, now, rs[|rs| - 1], rs[i].id);
    }
  }

  /** After a sync, an operation whose end it reported is not handed out again. */
  lemma AcknowledgedIsGone(db: Db, d: nat, req: Request, now: int, i: nat)
    requires Sync(db, d, req, now).Done? && i < |req.results| && req.results[i].id in db.ops
    requires req.results[i].state.Failed?
             || (req.results[i].state.Succeeded? && db.ops[req.results[i].id].revision <= req.applied)
    ensures var n := db.bindings[d].node;
            var x := Sync(db, d, req, now).db;
            req.results[i].id in x.ops && !Listable(x.ops[req.results[i].id], n, db.nodes[n].generation, now)
  {
    var n := db.bindings[d].node;
    ReportedIsClosed(db.ops, n, db.nodes[n].generation, req.applied, now, req.results, i);
  }

  /** Between ops and x an operation succeeds only because some result says so. */
  predicate Said(ops: map<nat, Operation>, x: map<nat, Operation>, rs: seq<Result>) {
    forall id <- ops :: id in x && ops[id].state != Succeeded && x[id].state == Succeeded ==>
      exists i :: 0 <= i < |rs| && rs[i].id == id && rs[i].state.Succeeded?
  }

  lemma {:induction false} SuccessWasSaid(ops: map<nat, Operation>, n: nat, generation: nat, applied: int, now: int,
      rs: seq<Result>)
    ensures Said(ops, ApplyResults(ops, n, generation, applied, now, rs), rs)
  {
    if rs != [] {
      var init := rs[..|rs| - 1];
      var x := ApplyResults(ops, n, generation, applied, now, init);
      var y := ApplyResults(ops, n, generation, applied, now, rs);
      SuccessWasSaid(ops, n, generation, applied, now, init);
      forall id | id in ops && id in y && ops[id].state != Succeeded && y[id].state == Succeeded
        ensures exists i :: 0 <= i < |rs| && rs[i].id == id && rs[i].state.Succeeded?
      {
        if id in x && x[id].state == Succeeded {
          var i :| 0 <= i < |init| && init[i].id == id && init[i].state.Succeeded?;
          assert rs[i] == init[i];
        } else {
          assert rs[|rs| - 1].id == id;
        }
      }
    }
  }

  lemma SuccessIsReported(db: Db, d: nat, req: Request, now: int, id: nat)
    requires Sync(db, d, req, now).Done? && id in db.ops && db.ops[id].state != Succeeded
    requires id in Sync(db, d, req, now).db.ops && Sync(db, d, req, now).db.ops[id].state == Succeeded
    ensures exists i :: 0 <= i < |req.results| && req.results[i].id == id && req.results[i].state.Succeeded?
  {
    var n := db.bindings[d].node;
    var g := db.nodes[n].generation;
    SuccessWasSaid(db.ops, n, g, req.applied, now, req.results);
    SettleLasts(ApplyResults(db.ops, n, g, req.applied, now, req.results), n, g, req.applied, now);
  }
}
