/** The control plane's nodes: configurations by revision, bindings by generation, and operations. */
module Nodes {
  import opened Bytes
  import opened Times

  const MAX_RESULTS := 64
  const KEY_LIFE := 1800 * SECOND
  const OP_LIFE := 24 * HOUR

  datatype NodeState = Pending | Active | Draining | Disabled | Revoked

  /** config stands for name, region, address, roles and notes; applied and reported for the report's
      AppliedRevision and AppliedConfig. */
  datatype Node = Node(config: nat, state: NodeState, generation: nat, revision: nat, applied: int,
      reported: Option<nat>)

  datatype Binding = Binding(node: nat, generation: nat, current: bool)

  datatype Key = Key(node: nat, generation: nat, revision: nat, expires: int, consumed: bool, revoked: bool)

  datatype Action = Drain | Resume | Disable | Revoke | Replace | Restart | RevokeKey

  datatype OpState = Waiting | Running | Succeeded | Failed | Expired | Superseded

  /** error is a code, 0 for none; created orders operations as created_at and id do. */
  datatype Operation = Operation(node: nat, generation: nat, revision: nat, action: Action, created: nat, expires: int,
                                 state: OpState, error: nat)

  datatype Db = Db(nodes: map<nat, Node>, configs: map<(nat, nat), nat>, bindings: map<nat, Binding>,
                   keys: map<nat, Key>, ops: map<nat, Operation>)

  datatype Code = Invalid | NotFound | NodeRevoked | GenerationStale | NotAuthorized | AppliedInvalid
                | RevisionConflict | StateConflict | EnrollmentUnusable | Internal

  datatype Outcome = Done(db: Db) | Fail(code: Code)

  predicate Open(state: OpState) {
    state.Waiting? || state.Running?
  }

  ghost predicate Bound(db: Db, n: nat) {
    exists d :: d in db.bindings && db.bindings[d].node == n && db.bindings[d].current
  }

  function RevokeKeys(keys: map<nat, Key>, n: nat): map<nat, Key> {
    map k | k in keys :: if keys[k].node == n && !keys[k].consumed then keys[k].(revoked := true) else keys[k]
  }

  /** revokeNode for good: no binding of the node stays current. */
  function Unbind(bindings: map<nat, Binding>, n: nat): map<nat, Binding> {
    map d | d in bindings :: if bindings[d].node == n && bindings[d].current then bindings[d].(current := false)
      else bindings[d]
  }

  // ---------------------------------------------------------------- operators' changes

  /** createNode, with a fresh identifier. */
  function Create(db: Db, n: nat, config: nat): Outcome {
    if n in db.nodes || (n, 1) in db.configs then Fail(Internal)
    else Done(db.(nodes := db.nodes[n := Node(config, Pending, 1, 1, 0, None)],
      configs := db.configs[(n, 1) := config]))
  }

  /** updateNode. */
  function Update(db: Db, n: nat, config: nat, expected: nat): Outcome {
    if n !in db.nodes then Fail(NotFound)
    else
      var node := db.nodes[n];
      if node.state.Revoked? then Fail(NodeRevoked)
      else if node.revision != expected then Fail(RevisionConflict)
      else if (n, node.revision + 1) in db.configs then Fail(Internal)
      else Done(db.(nodes := db.nodes[n := node.(config := config, revision := node.revision + 1)],
                    keys := RevokeKeys(db.keys, n),
                    configs := db.configs[(n, node.revision + 1) := config]))
  }

  /** issueEnrollmentKey. */
  function IssueKey(db: Db, n: nat, key: nat, now: int): Outcome {
    if n !in db.nodes then Fail(NotFound)
    else if !db.nodes[n].state.Pending? then Fail(StateConflict)
    else
      var issued := Key(n, db.nodes[n].generation, db.nodes[n].revision, now + KEY_LIFE, false, false);
      Done(db.(keys := RevokeKeys(db.keys, n)[key := issued]))
  }

  /** completeEnrollment; `known` says that the devices table already has the device. */
  function Enroll(db: Db, key: nat, device: nat, known: bool, now: int): Outcome {
    if key !in db.keys || db.keys[key].consumed || db.keys[key].revoked || db.keys[key].expires <= now then
      Fail(EnrollmentUnusable)
    else
      var k := db.keys[key];
      if k.node !in db.nodes then Fail(NotFound)
      else
        var node := db.nodes[k.node];
        if node.generation != k.generation || node.revision != k.revision || !node.state.Pending? then
          Fail(EnrollmentUnusable)
        else if known || device in db.bindings then Fail(StateConflict)
        else Done(db.(keys := db.keys[key := k.(consumed := true)],
                      bindings := db.bindings[device := Binding(k.node, k.generation, true)],
                      nodes := db.nodes[k.node := node.(state := Active)]))
  }

  /** The state an action leads to, or why it may not be taken. */
  ghost function Target(db: Db, n: nat, action: Action): Option<NodeState>
    requires n in db.nodes
  {
    var state := db.nodes[n].state;
    match action
    case Drain => if state.Active? then Some(Draining) else None
    case Resume => if state.Disabled? || state.Draining? then Some(Active) else None
    case Disable => if Bound(db, n) then Some(Disabled) else None
    case Revoke => Some(Revoked)
    case Replace => Some(Pending)
    case Restart => if Bound(db, n) && !state.Disabled? then Some(state) else None
    case RevokeKey => Some(state)
  }

  predicate Permanent(action: Action) {
    action.Revoke? || action.Replace?
  }

  /** nodeAction, with a fresh operation identifier; clock is the one expires_at is read from. */
  ghost function Act(db: Db, n: nat, action: Action, op: nat, created: nat, clock: int): Outcome {
    if n !in db.nodes then Fail(NotFound)
    else
      var node := db.nodes[n];
      if node.state.Revoked? then Fail(NodeRevoked)
      else if Target(db, n, action).None? then Fail(StateConflict)
      else if (n, node.revision + 1) in db.configs || op in db.ops then Fail(Internal)
      else
        var generation := if action.Replace? then node.generation + 1 else node.generation;
        var next := Node(node.config, Target(db, n, action).value, generation, node.revision + 1,
                         if action.Replace? then 0 else node.applied, if action.Replace? then None else node.reported);
        Done(Db(db.nodes[n := next],
                db.configs[(n, next.revision) := node.config],
                if Permanent(action) then Unbind(db.bindings, n) else db.bindings,
                if action.Restart? then db.keys else RevokeKeys(db.keys, n),
                db.ops[op := Operation(n, generation, next.revision, action, created, clock + OP_LIFE,
                                       if Permanent(action) || action.RevokeKey? then Succeeded else Waiting, 0)]))
  }

  // ---------------------------------------------------------------- synchronization

  datatype Result = Result(id: nat, state: OpState, error: nat)

  datatype Request = Request(generation: nat, applied: int, config: Option<nat>, results: seq<Result>)

  /** safeNodeCode: only failures carry a code. */
  function SafeCode(r: Result): nat {
    if r.state.Failed? then r.error else 0
  }

  predicate Reportable(r: Result) {
    r.state.Succeeded? || r.state.Failed? || r.state.Running?
  }

  /** The WHERE clause of the update a result makes. */
  predicate Takes(o: Operation, n: nat, generation: nat, applied: int, now: int, r: Result) {
    && o.node == n && o.generation == generation && Open(o.state) && o.expires > now
    && (o.state != r.state || o.error != SafeCode(r))
    && (r.state.Succeeded? ==> o.revision <= applied)
  }

  function ApplyResult(ops: map<nat, Operation>, n: nat, generation: nat, applied: int, now: int,
      r: Result): map<nat, Operation> {
    if r.id in ops && Takes(ops[r.id], n, generation, applied, now, r) then
      ops[r.id := ops[r.id].(state := r.state, error := SafeCode(r))]
    else ops
  }

  function ApplyResults(ops: map<nat, Operation>, n: nat, generation: nat, applied: int, now: int,
      rs: seq<Result>): map<nat, Operation> {
    if rs == [] then ops
    else ApplyResult(ApplyResults(ops, n, generation, applied, now, rs[..|rs| - 1]), n, generation, applied, now,
      rs[|rs| - 1])
  }

  /** What runs out, and what an applied configuration makes pointless. */
  function Settled(o: Operation, n: nat, generation: nat, applied: int, now: int): Operation {
    if o.node == n && Open(o.state) && (o.expires <= now || o.generation != generation) then o.(state := Expired)
    else if o.node == n && o.state.Waiting? && o.revision < applied && !o.action.Restart? then o.(state := Superseded)
    else o
  }

  function Settle(ops: map<nat, Operation>, n: nat, generation: nat, applied: int, now: int): map<nat, Operation> {
    map id | id in ops :: Settled(ops[id], n, generation, applied, now)
  }

  /** nodeForDevice. */
  function DeviceFault(db: Db, d: nat): Option<Code> {
    if d in db.bindings && db.bindings[d].node in db.nodes then
      var b := db.bindings[d];
      var node := db.nodes[b.node];
      if node.state.Revoked? then Some(NodeRevoked)
      else if b.current && b.generation == node.generation then None
      else if b.generation != node.generation then Some(GenerationStale)
      else Some(NotAuthorized)
    else Some(NotAuthorized)
  }

  /** The applied configuration must be one the control plane has stored under that revision. */
  function AppliedFault(db: Db, n: nat, req: Request): Option<Code>
    requires n in db.nodes
  {
    if req.applied > db.nodes[n].revision then Some(AppliedInvalid)
    else if req.applied > 0 then
      if req.config.Some? && (n, req.applied) in db.configs && db.configs[(n, req.applied)] == req.config.value then
        None
      else Some(AppliedInvalid)
    else if req.config.Some? then Some(AppliedInvalid)
    else None
  }

  /** SyncNode's transaction. */
  function Sync(db: Db, d: nat, req: Request, now: int): Outcome {
    if |req.results| > MAX_RESULTS then Fail(Invalid)
    else if DeviceFault(db, d).Some? then Fail(DeviceFault(db, d).value)
    else
      var n := db.bindings[d].node;
      var node := db.nodes[n];
      if req.generation != node.generation then Fail(GenerationStale)
      else if AppliedFault(db, n, req).Some? then Fail(AppliedFault(db, n, req).value)
      else if exists i :: 0 <= i < |req.results| && !Reportable(req.results[i]) then Fail(Invalid)
      else
        Done(db.(ops := Settle(ApplyResults(db.ops, n, node.generation, req.applied, now, req.results), n,
          node.generation, req.applied, now),
                 nodes := db.nodes[n := node.(applied := req.applied, reported := req.config)]))
  }

  predicate Listable(o: Operation, n: nat, generation: nat, now: int) {
    o.node == n && o.generation == generation && Open(o.state) && o.expires > now
  }

  /** The operations a sync hands out: open ones, the oldest first, at most 64. */
  predicate IsPage(ops: map<nat, Operation>, n: nat, generation: nat, now: int, page: seq<nat>) {
    && |page| <= MAX_RESULTS
    && (forall i :: 0 <= i < |page| ==> page[i] in ops && Listable(ops[page[i]], n, generation, now))
    && (forall i, j :: 0 <= i < j < |page| ==> page[i] != page[j] && ops[page[i]].created <= ops[page[j]].created)
    && (forall id <- ops :: Listable(ops[id], n, generation, now) && id !in page ==>
          |page| == MAX_RESULTS && forall p <- page :: ops[p].created <= ops[id].created)
  }

  // ---------------------------------------------------------------- events and runs

  datatype Event =
    | EvCreate(node: nat, config: nat)
    | EvUpdate(node: nat, config: nat, expected: nat)
    | EvKey(node: nat, key: nat)
    | EvEnroll(key: nat, device: nat, known: bool)
    | EvAct(node: nat, action: Action, op: nat, created: nat, clock: int)
    | EvSync(device: nat, request: Request)

  ghost function Step(db: Db, now: int, e: Event): Outcome {
    match e
    case EvCreate(node, config) => Create(db, node, config)
    case EvUpdate(node, config, expected) => Update(db, node, config, expected)
    case EvKey(node, key) => if key in db.keys then Fail(Internal) else IssueKey(db, node, key, now)
    case EvEnroll(key, device, known) => Enroll(db, key, device, known, now)
    case EvAct(node, action, op, created, clock) => Act(db, node, action, op, created, clock)
    case EvSync(device, request) => Sync(db, device, request, now)
  }

  ghost function Write(db: Db, now: int, e: Event): Db {
    match Step(db, now, e)
    case Done(x) => x
    case Fail(_) => db
  }

  // ---------------------------------------------------------------- what every state satisfies

  /** Revisions 1 to the current one each have exactly one stored configuration, and the node shows the last. */
  ghost predicate ConfigsExact(nodes: map<nat, Node>, configs: map<(nat, nat), nat>) {
    && (forall n, r :: (n, r) in configs <==> n in nodes && 1 <= r <= nodes[n].revision)
    && (forall n <- nodes :: (n, nodes[n].revision) in configs && configs[(n, nodes[n].revision)] == nodes[n].config)
  }

  /** A current binding belongs to its node's present generation; bindings never come from the future. */
  predicate BindingsFit(nodes: map<nat, Node>, bindings: map<nat, Binding>) {
    forall d <- bindings :: var b := bindings[d];
      && b.node in nodes && b.generation <= nodes[b.node].generation
      && (b.current ==>
            b.generation == nodes[b.node].generation && !nodes[b.node].state.Pending? && !nodes[b.node].state.Revoked?)
      && (nodes[b.node].state.Pending? ==> b.generation < nodes[b.node].generation)
  }

  /** One device per node and generation. */
  predicate OneEach(bindings: map<nat, Binding>) {
    forall a, b :: (a in bindings && b in bindings && bindings[a].node == bindings[b].node
                    && bindings[a].generation == bindings[b].generation) ==> a == b
  }

  ghost predicate StatesFit(nodes: map<nat, Node>, db: Db) {
    forall n <- nodes :: nodes[n].state.Active? || nodes[n].state.Draining? || nodes[n].state.Disabled? ==> Bound(db, n)
  }

  predicate OpsFit(nodes: map<nat, Node>, ops: map<nat, Operation>) {
    forall id <- ops :: var o := ops[id];
      && o.node in nodes && o.generation <= nodes[o.node].generation && 1 <= o.revision <= nodes[o.node].revision
  }

  /** What a report claims as applied is a stored configuration. */
  predicate ReportsFit(nodes: map<nat, Node>, configs: map<(nat, nat), nat>) {
    forall n <- nodes :: nodes[n].applied > 0 ==>
      (n, nodes[n].applied) in configs && nodes[n].reported == Some(configs[(n, nodes[n].applied)])
  }

  ghost predicate Sound(db: Db) {
    && ConfigsExact(db.nodes, db.configs) && BindingsFit(db.nodes, db.bindings) && OneEach(db.bindings)
    && StatesFit(db.nodes, db) && OpsFit(db.nodes, db.ops) && ReportsFit(db.nodes, db.configs)
  }
}
