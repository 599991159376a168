/** Exactly when the transactions on nodes succeed, what they leave, and what becomes of every operation at a sync. */
module NodeExact {
  import opened Bytes
  import opened Nodes
  import Sets

  // ---------------------------------------------------------------- operators

  /** The node's present device. */
  predicate HasDevice(db: Db, n: nat) {
    exists d <- db.bindings :: db.bindings[d].node == n && db.bindings[d].current
  }

  /** The action may be taken on the node as it is. */
  predicate Permits(db: Db, n: nat, action: Action)
    requires n in db.nodes
  {
    match action
    case Drain => db.nodes[n].state == Active
    case Resume => db.nodes[n].state == Disabled || db.nodes[n].state == Draining
    case Disable => HasDevice(db, n)
    case Restart => HasDevice(db, n) && db.nodes[n].state != Disabled
    case _ => true
  }

  /** The state it leads to. */
  function Leads(state: NodeState, action: Action): NodeState {
    match action
    case Drain => Draining
    case Resume => Active
    case Disable => Disabled
    case Revoke => Revoked
    case Replace => Pending
    case _ => state
  }

  lemma TargetIs(db: Db, n: nat, action: Action)
    requires n in db.nodes
    ensures Target(db, n, action) == if Permits(db, n, action) then Some(Leads(db.nodes[n].state, action)) else None
  {
    assert HasDevice(db, n) <==> Bound(db, n) by {
      if d :| d in db.bindings && db.bindings[d].node == n && db.bindings[d].current {
      }
    }
  }

  /** The configuration of the next revision is not stored yet. */
  lemma NextIsFree(db: Db, n: nat)
    requires Sound(db) && n in db.nodes
    ensures (n, db.nodes[n].revision + 1) !in db.configs
  {
  }

  /** An action succeeds exactly on a node that is there, not revoked, and in a state for it. */
  lemma ActedExactly(db: Db, n: nat, action: Action, op: nat, created: nat, clock: int)
    requires Sound(db) && op !in db.ops
    ensures Act(db, n, action, op, created, clock).Done?
            <==> n in db.nodes && db.nodes[n].state != Revoked && Permits(db, n, action)
    ensures n in db.nodes && db.nodes[n].state != Revoked && !Permits(db, n, action) ==>
              Act(db, n, action, op, created, clock) == Fail(StateConflict)
  {
    if n in db.nodes {
      TargetIs(db, n, action);
      NextIsFree(db, n);
    }
  }

  /** What it leaves: the next revision of the node with its configuration stored again; an operation for a day, which
      waits for the node unless it is done with; a replaced or revoked node without a device; and for all but a
      restart, no usable key. */
  lemma ActedLeaves(db: Db, n: nat, action: Action, op: nat, created: nat, clock: int)
    requires Act(db, n, action, op, created, clock).Done?
    ensures n in db.nodes
    ensures var x, node := Act(db, n, action, op, created, clock).db, db.nodes[n];
            var generation := if action == Replace then node.generation + 1 else node.generation;
            && n in x.nodes && x.nodes[n].state == Leads(node.state, action) && x.nodes[n].config == node.config
            && x.nodes[n].generation == generation && x.nodes[n].revision == node.revision + 1
            && x.nodes[n].applied == (if action == Replace then 0 else node.applied)
            && (forall o <- db.nodes :: o != n ==> o in x.nodes && x.nodes[o] == db.nodes[o])
            && x.configs == db.configs[(n, node.revision + 1) := node.config]
            && x.ops == db.ops[op := Operation(n, generation, node.revision + 1, action, created,
                clock + 86_400_000_000_000, if action in {Revoke, Replace, RevokeKey} then Succeeded else Waiting, 0)]
  {
    TargetIs(db, n, action);
  }

  lemma ActedUnbinds(db: Db, n: nat, action: Action, op: nat, created: nat, clock: int)
    requires Act(db, n, action, op, created, clock).Done?
    ensures var x := Act(db, n, action, op, created, clock).db;
            && x.bindings.Keys == db.bindings.Keys && x.keys.Keys == db.keys.Keys
            && (forall d <- db.bindings :: x.bindings[d]
                  == db.bindings[d].(current := db.bindings[d].current
                      && !(db.bindings[d].node == n && (action == Revoke || action == Replace))))
            && (forall k <- db.keys :: x.keys[k]
                  == db.keys[k].(revoked := db.keys[k].revoked
                      || (db.keys[k].node == n && !db.keys[k].consumed && action != Restart)))
  {
  }

  /** A configuration is changed exactly in the revision that the operator names. */
  lemma UpdatedExactly(db: Db, n: nat, config: nat, expected: nat)
    requires Sound(db)
    ensures Update(db, n, config, expected).Done?
            <==> n in db.nodes && db.nodes[n].state != Revoked && db.nodes[n].revision == expected
    ensures n in db.nodes && db.nodes[n].state != Revoked && db.nodes[n].revision != expected ==>
              Update(db, n, config, expected) == Fail(RevisionConflict)
    ensures Update(db, n, config, expected).Done? ==>
              var x := Update(db, n, config, expected).db;
              && x.nodes == db.nodes[n := db.nodes[n].(config := config, revision := expected + 1)]
              && x.configs == db.configs[(n, expected + 1) := config]
              && x.ops == db.ops && x.bindings == db.bindings
              && x.keys.Keys == db.keys.Keys
              && forall k <- db.keys :: x.keys[k]
                   == db.keys[k].(revoked := db.keys[k].revoked || (db.keys[k].node == n && !db.keys[k].consumed))
  {
    if n in db.nodes {
      NextIsFree(db, n);
    }
  }

  /** A key is issued exactly for a pending node; it is good for half an hour, and the only one. */
  lemma KeyedExactly(db: Db, n: nat, key: nat, now: int)
    requires key !in db.keys
    ensures IssueKey(db, n, key, now).Done? <==> n in db.nodes && db.nodes[n].state == Pending
    ensures IssueKey(db, n, key, now).Done? ==>
              var x := IssueKey(db, n, key, now).db;
              && x == db.(keys := x.keys) && x.keys.Keys == db.keys.Keys + {key}
              && x.keys[key] == Key(n, db.nodes[n].generation, db.nodes[n].revision, now + 1_800_000_000_000, false,
                                    false)
              && forall k <- db.keys :: x.keys[k]
                   == db.keys[k].(revoked := db.keys[k].revoked || (db.keys[k].node == n && !db.keys[k].consumed))
  {
  }

  /** A key may be used once, before it ends, while the node is as it was when the key was issued. */
  predicate KeyFits(db: Db, key: nat, now: int) {
    && key in db.keys && !db.keys[key].consumed && !db.keys[key].revoked && now < db.keys[key].expires
    && db.keys[key].node in db.nodes
    && var node := db.nodes[db.keys[key].node];
    && node.state == Pending && node.generation == db.keys[key].generation && node.revision == db.keys[key].revision
  }

  /** A device is enrolled exactly with such a key, if no table knows it; the node is active, and the key used. */
  lemma EnrolledExactly(db: Db, key: nat, device: nat, known: bool, now: int)
    ensures Enroll(db, key, device, known, now).Done? <==> KeyFits(db, key, now) && !known && device !in db.bindings
    ensures Enroll(db, key, device, known, now).Done? ==>
              var x, k := Enroll(db, key, device, known, now).db, db.keys[key];
              && x.keys == db.keys[key := k.(consumed := true)]
              && x.bindings == db.bindings[device := Binding(k.node, k.generation, true)]
              && x.nodes == db.nodes[k.node := db.nodes[k.node].(state := Active)]
              && x.configs == db.configs && x.ops == db.ops
  {
  }

  // ---------------------------------------------------------------- a sync

  /** The device is the present one of a node that is not revoked. */
  predicate Speaks(db: Db, d: nat) {
    && d in db.bindings && db.bindings[d].current && db.bindings[d].node in db.nodes
    && db.nodes[db.bindings[d].node].state != Revoked
    && db.bindings[d].generation == db.nodes[db.bindings[d].node].generation
  }

  /** What the node says it runs is a stored configuration, or none. */
  predicate ReportFits(db: Db, n: nat, req: Request)
    requires n in db.nodes
  {
    && req.applied <= db.nodes[n].revision
    && if req.applied <= 0 then req.config == None
       else req.config.Some? && (n, req.applied) in db.configs && db.configs[(n, req.applied)] == req.config.value
  }

  predicate ResultsFit(rs: seq<Result>) {
    && |rs| <= 64
    && forall i :: 0 <= i < |rs| ==> rs[i].state == Succeeded || rs[i].state == Failed || rs[i].state == Running
  }

  /** A sync is accepted exactly from a node's present device, of its generation, with a report and results that fit;
      the node then has the report, and only operations change besides. */
  lemma SyncedExactly(db: Db, d: nat, req: Request, now: int)
    ensures Sync(db, d, req, now).Done?
            <==> && Speaks(db, d) && req.generation == db.bindings[d].generation
                 && ReportFits(db, db.bindings[d].node, req) && ResultsFit(req.results)
    ensures Sync(db, d, req, now).Done? ==>
              var x, n := Sync(db, d, req, now).db, db.bindings[d].node;
              && x.nodes == db.nodes[n := db.nodes[n].(applied := req.applied, reported := req.config)]
              && x == db.(nodes := x.nodes, ops := x.ops) && x.ops.Keys == db.ops.Keys
    ensures |req.results| <= 64 && Speaks(db, d) && req.generation != db.bindings[d].generation ==>
              Sync(db, d, req, now) == Fail(GenerationStale)
  {
    if Sync(db, d, req, now).Done? {
      SameOps(db.ops, db.bindings[d].node, req.generation, req.applied, now, req.results);
    }
  }

  lemma {:induction false} SameOps(ops: map<nat, Operation>, n: nat, generation: nat, applied: int, now: int,
      rs: seq<Result>)
    ensures ApplyResults(ops, n, generation, applied, now, rs).Keys == ops.Keys
  {
    if rs != [] {
      SameOps(ops, n, generation, applied, now, rs[..|rs| - 1]);
    }
  }

  // ---------------------------------------------------------------- operations at a sync

  /** Result i is about operation id, and ends it: a failure, or a success that the applied revision covers. */
  predicate Closes(rs: seq<Result>, i: int, id: nat, revision: nat, applied: int) {
    0 <= i < |rs| && rs[i].id == id && (rs[i].state == Failed || (rs[i].state == Succeeded && revision <= applied))
  }

  predicate FirstToClose(rs: seq<Result>, i: int, id: nat, revision: nat, applied: int) {
    && Closes(rs, i, id, revision, applied)
    && forall j :: 0 <= j < i ==> !Closes(rs, j, id, revision, applied)
  }

  predicate SaysRunning(rs: seq<Result>, i: int, id: nat) {
    0 <= i < |rs| && rs[i].id == id && rs[i].state == Running
  }

  /** Operation o of this node, waiting or running in this generation, is after the results: ended as the first that
      ends it says, or running if one says so, or as before. */
  ghost predicate Took(o: Operation, after: Operation, id: nat, rs: seq<Result>, applied: int) {
    && after == o.(state := after.state, error := after.error)
    && (forall i :: FirstToClose(rs, i, id, o.revision, applied) ==>
          after.state == rs[i].state && after.error == if rs[i].state == Failed then rs[i].error else 0)
    && ((forall i :: !Closes(rs, i, id, o.revision, applied)) ==>
          if exists i :: SaysRunning(rs, i, id) then after.state == Running && after.error == 0 else after == o)
  }

  lemma {:induction false} ResultsTaken(ops: map<nat, Operation>, n: nat, generation: nat, applied: int, now: int,
      rs: seq<Result>, id: nat)
    requires id in ops && ResultsFit(rs)
    ensures id in ApplyResults(ops, n, generation, applied, now, rs)
    ensures var o, x := ops[id], ApplyResults(ops, n, generation, applied, now, rs)[id];
            if o.node == n && o.generation == generation && Open(o.state) && now < o.expires then
              Took(o, x, id, rs, applied)
            else x == o
  {
    if rs != [] {
      var init := rs[..|rs| - 1];
      ResultsTaken(ops, n, generation, applied, now, init, id);
      var y := ApplyResults(ops, n, generation, applied, now, init);
      if ops[id].node == n && ops[id].generation == generation && Open(ops[id].state) && now < ops[id].expires {
        OneMore(ops[id], y[id], id, rs, applied, ApplyResult(y, n, generation, applied, now, rs[|rs| - 1])[id]);
      }
    }
  }

  /** One more result. */
  lemma OneMore(o: Operation, y: Operation, id: nat, rs: seq<Result>, applied: int, x: Operation)
    requires rs != [] && Open(o.state) && Took(o, y, id, rs[..|rs| - 1], applied)
    requires var r := rs[|rs| - 1];
             && (r.state == Succeeded || r.state == Failed || r.state == Running)
             && x == if r.id == id && Open(y.state) && (r.state == Succeeded ==> o.revision <= applied) then
                       y.(state := r.state, error := if r.state == Failed then r.error else 0) else y
    ensures Took(o, x, id, rs, applied)
  {
    var init, last := rs[..|rs| - 1], |rs| - 1;
    forall i | 0 <= i < last
      ensures Closes(rs, i, id, o.revision, applied) <==> Closes(init, i, id, o.revision, applied)
    {
      assert rs[i] == init[i];
    }
    if i :| Closes(init, i, id, o.revision, applied) {
      var k := FirstIndex(init, id, o.revision, applied, i);
      assert FirstToClose(rs, k, id, o.revision, applied);
    }
    if forall i :: !Closes(rs, i, id, o.revision, applied) {
      NoneCloses(o, y, id, rs, applied, x);
    }
  }

  lemma NoneCloses(o: Operation, y: Operation, id: nat, rs: seq<Result>, applied: int, x: Operation)
    requires rs != [] && Open(o.state) && Took(o, y, id, rs[..|rs| - 1], applied)
    requires forall i :: !Closes(rs, i, id, o.revision, applied)
    requires var r := rs[|rs| - 1];
             && (r.state == Succeeded || r.state == Failed || r.state == Running)
             && x == if r.id == id && Open(y.state) && (r.state == Succeeded ==> o.revision <= applied) then
                       y.(state := r.state, error := if r.state == Failed then r.error else 0) else y
    ensures if exists i :: SaysRunning(rs, i, id) then x == o.(state := Running, error := 0) else x == o
  {
    var init, last := rs[..|rs| - 1], |rs| - 1;
    forall i
      ensures !Closes(init, i, id, o.revision, applied)
    {
      assert Closes(init, i, id, o.revision, applied) ==> Closes(rs, i, id, o.revision, applied);
    }
    assert !Closes(rs, last, id, o.revision, applied);
    if rs[last].id == id && rs[last].state == Running {
      assert SaysRunning(rs, last, id);
    } else {
      assert forall i :: SaysRunning(rs, i, id) <==> SaysRunning(init, i, id);
    }
  }

  lemma {:induction false} FirstIndex(rs: seq<Result>, id: nat, revision: nat, applied: int, i: int) returns (k: int)
    requires Closes(rs, i, id, revision, applied)
    ensures FirstToClose(rs, k, id, revision, applied)
    decreases i
  {
    if j :| 0 <= j < i && Closes(rs, j, id, revision, applied) {
      k := FirstIndex(rs, id, revision, applied, j);
    } else {
      k := i;
    }
  }

  /** The operation is this node's, and waits or runs. */
  predicate IsOpen(o: Operation, n: nat) {
    o.node == n && (o.state == Waiting || o.state == Running)
  }

  /** What a sync makes of operation o. */
  ghost predicate Becomes(o: Operation, after: Operation, id: nat, n: nat, req: Request, now: int) {
    if !IsOpen(o, n) then after == o
    else if o.expires <= now || o.generation != req.generation then after == o.(state := Expired)
    else
      exists mid :: Took(o, mid, id, req.results, req.applied)
                    && after == if mid.state == Waiting && o.revision < req.applied && o.action != Restart then
                                  mid.(state := Superseded) else mid
  }

  /** An operation that has run out or is of another generation expires; one that waits, and is neither reported nor a
      restart, is superseded by a later applied revision; a reported one is as reported. No other changes. */
  lemma OperationsExactly(db: Db, d: nat, req: Request, now: int, id: nat)
    requires Sync(db, d, req, now).Done? && id in db.ops
    ensures id in Sync(db, d, req, now).db.ops
    ensures Becomes(db.ops[id], Sync(db, d, req, now).db.ops[id], id, db.bindings[d].node, req, now)
  {
    var n := db.bindings[d].node;
    SyncedExactly(db, d, req, now);
    ResultsTaken(db.ops, n, req.generation, req.applied, now, req.results, id);
    var mid := ApplyResults(db.ops, n, req.generation, req.applied, now, req.results)[id];
    var o := db.ops[id];
    if IsOpen(o, n) && now < o.expires && o.generation == req.generation {
      assert Took(o, mid, id, req.results, req.applied);
    }
  }

  // ---------------------------------------------------------------- what is handed out

  /** The operations that a sync could hand out now. */
  function Due(ops: map<nat, Operation>, n: nat, generation: nat, now: int): set<nat> {
    set id | id in ops && IsOpen(ops[id], n) && ops[id].generation == generation && now < ops[id].expires
  }

  /** A page lists operations that are due, the oldest first; it leaves one out only behind 64 that are as old. */
  lemma PageExactly(ops: map<nat, Operation>, n: nat, generation: nat, now: int, page: seq<nat>)
    ensures IsPage(ops, n, generation, now, page)
            <==> && |page| <= 64 && (forall i :: 0 <= i < |page| ==> page[i] in Due(ops, n, generation, now))
                 && (forall i, j :: 0 <= i < j < |page| ==>
                       page[i] in ops && page[j] in ops && page[i] != page[j]
                       && ops[page[i]].created <= ops[page[j]].created)
                 && (forall id <- Due(ops, n, generation, now) :: id !in page ==>
                       |page| == 64 && forall p <- page :: p in ops && ops[p].created <= ops[id].created)
  {
    assert forall id <- ops :: id in Due(ops, n, generation, now) <==> Listable(ops[id], n, generation, now);
  }

  function Elements(page: seq<nat>): (s: set<nat>)
    ensures forall p :: p in s <==> p in page
  {
    set p | p in page
  }

  lemma ElementsSnoc(init: seq<nat>, last: nat)
    ensures Elements(init + [last]) == Elements(init) + {last}
  {
  }

  lemma {:induction false} PageCard(page: seq<nat>)
    requires forall i, j :: 0 <= i < j < |page| ==> page[i] != page[j]
    ensures |Elements(page)| == |page|
  {
    if page == [] {
      assert Elements(page) == {};
    } else {
      var init, last := page[..|page| - 1], page[|page| - 1];
      assert page == init + [last];
      PageCard(init);
      ElementsSnoc(init, last);
      assert last !in Elements(init);
    }
  }

  /** When no more than 64 are due, every one of them is handed out. */
  lemma AllHandedOut(ops: map<nat, Operation>, n: nat, generation: nat, now: int, page: seq<nat>)
    requires IsPage(ops, n, generation, now, page) && |Due(ops, n, generation, now)| <= 64
    ensures forall id :: id in page <==> id in Due(ops, n, generation, now)
  {
    PageExactly(ops, n, generation, now, page);
    if id :| id in Due(ops, n, generation, now) && id !in page {
      PageCard(page);
      assert |Elements(page) + {id}| == 65;
      Sets.CardLe(Elements(page) + {id}, Due(ops, n, generation, now));
    }
  }
}
