/** What each step of a node's agent does to its file, its memory and its reports, field by field. */
module NodeSteps {
  import opened Bytes
  import opened Files
  import opened NodeAgent
  import Nodes

  /** The reply acknowledges the end of the operation: it was reported as succeeded or failed. */
  predicate EndReported(sent: seq<Nodes.Result>, id: nat) {
    exists r <- sent :: r.id == id && (r.state == Nodes.Succeeded || r.state == Nodes.Failed)
  }

  /** A report is of the generation, the applied revision and its configuration, and of the operations as they are. */
  lemma ReportedExactly(me: Identity, mem: Saved, ids: seq<nat>)
    requires forall i :: 0 <= i < |ids| ==> ids[i] in mem.ops
    ensures var req := RequestOf(me, mem, ids);
            && req.generation == me.generation && req.applied == mem.applied && req.config == mem.config
            && |req.results| == |ids|
            && forall i :: 0 <= i < |ids| ==>
                 && req.results[i].id == ids[i] && req.results[i].error == mem.ops[ids[i]].error
                 && (req.results[i].state == Nodes.Running <==> mem.ops[ids[i]].state == Running)
                 && (req.results[i].state == Nodes.Succeeded <==> mem.ops[ids[i]].state == Succeeded)
                 && (req.results[i].state == Nodes.Failed <==> mem.ops[ids[i]].state == Failed)
  {
  }

  /** A call reports at most 64 operations, none of them expired; it is made between rounds or repeats one. */
  lemma CalledExactly(w: World, ids: seq<nat>)
    ensures Calling(w, ids)
            <==> && (w.phase == Idle || w.phase.Waiting?) && |ids| <= 64
                 && forall id <- ids :: id in w.mem.ops && w.clock < w.mem.ops[id].expires
  {
    assert forall i :: 0 <= i < |ids| ==> ids[i] in ids;
  }

  /** A reply leaves exactly the operations whose end it does not acknowledge and that have not expired; the node is
      to run what the reply says, or what it runs. */
  lemma ReceivedExactly(w: World, keep: bool)
    requires w.phase.Waiting?
    ensures var x, r := Receive(w, keep), w.phase.reply;
            && (forall id :: id in x.mem.ops
                  <==> id in w.mem.ops && w.clock <= w.mem.ops[id].expires && !EndReported(w.phase.sent, id))
            && (forall id <- x.mem.ops :: x.mem.ops[id] == w.mem.ops[id])
            && x.mem.applied == w.mem.applied && x.mem.config == w.mem.config
            && x.selected == Some(if keep then Choice(w.mem.applied, w.mem.config)
                                  else Choice(r.revision, Some(r.config)))
            && x.phase == Working(r.listed, r.revision)
            && x == w.(mem := x.mem, selected := x.selected, phase := x.phase)
  {
    forall id
      ensures Acked(w.phase.sent, id) <==> EndReported(w.phase.sent, id)
    {
      AckedIs(w.phase.sent, id);
    }
  }

  lemma AckedIs(sent: seq<Nodes.Result>, id: nat)
    ensures Acked(sent, id) <==> EndReported(sent, id)
  {
    if r :| r in sent && r.id == id && (r.state == Nodes.Succeeded || r.state == Nodes.Failed) {
      var i :| 0 <= i < |sent| && sent[i] == r;
    }
  }

  /** An order is taken up on the file first: what is kept of it is the order, running. */
  lemma TakenLeaves(me: Identity, w: World, save: Save)
    requires w.phase.Working? && w.phase.queue != []
    requires Wanted(me, w.mem, w.clock, w.phase.revision, w.phase.queue[0])
    ensures var x, o := Take(me, w, save), w.phase.queue[0];
            && x.mem == w.mem.(ops := w.mem.ops[o.id := LocalOp(o.revision, o.expires, o.restart, Running, 0)])
            && x.disk == (if save == Lost then w.disk else x.mem)
            && x.phase == (if save == Kept then Working(w.phase.queue[1..], w.phase.revision) else Faulted)
            && x.stops == (if save == Kept && o.restart then w.stops + multiset{o.id} else w.stops)
            && x.server == w.server && x.requests == w.requests
  {
  }

  /** Once the selected configuration is in force, every running operation that it covers has succeeded; that is
      the record from then on, on the file unless the save came to nothing. */
  lemma AppliedExactly(w: World, save: Save)
    requires w.phase == Idle && w.selected.Some?
    ensures var x, c := Apply(w, save), w.selected.value;
            && x.mem.applied == c.revision && x.mem.config == c.config && x.mem.ops.Keys == w.mem.ops.Keys
            && (forall id <- w.mem.ops :: x.mem.ops[id] == w.mem.ops[id].(state :=
                  if w.mem.ops[id].state == Running && w.mem.ops[id].revision <= c.revision then Succeeded
                  else w.mem.ops[id].state))
            && x.disk == (if save == Lost then w.disk else x.mem)
            && x.phase == (if save == Kept then Idle else Faulted)
            && x == w.(mem := x.mem, disk := x.disk, phase := x.phase)
  {
  }

  /** After a round that failed, what was running has failed, with the round's error. */
  lemma FailedExactly(w: World, error: nat, save: Save)
    requires w.phase == Faulted
    ensures var x := Mark(w, error, save);
            && x.mem.applied == w.mem.applied && x.mem.config == w.mem.config && x.mem.ops.Keys == w.mem.ops.Keys
            && (forall id <- w.mem.ops :: x.mem.ops[id]
                  == if w.mem.ops[id].state == Running then w.mem.ops[id].(state := Failed, error := error)
                     else w.mem.ops[id])
            && x.disk == (if save == Lost then w.disk else x.mem) && x.phase == Idle
            && x == w.(mem := x.mem, disk := x.disk, phase := x.phase)
  {
  }

  /** The end of a round saves what changed; a save that fails fails the round. */
  lemma EndedExactly(w: World, changed: bool, save: Save)
    requires w.phase.Working? && w.phase.queue == []
    ensures var x := End(w, changed, save);
            && x.disk == (if changed && save != Lost then w.mem else w.disk)
            && x.phase == (if changed && save != Kept then Faulted else Idle)
            && x == w.(disk := x.disk, phase := x.phase)
  {
  }

  /** The reply lists the orders as the control plane has them. */
  lemma ListedExactly(ops: map<nat, Nodes.Operation>, page: seq<nat>)
    requires forall i :: 0 <= i < |page| ==> page[i] in ops
    ensures |List(ops, page)| == |page|
    ensures forall i :: 0 <= i < |page| ==>
              var o, l := ops[page[i]], List(ops, page)[i];
              && l.id == page[i] && l.generation == o.generation && l.revision == o.revision
              && l.expires == o.expires && (l.restart <==> o.action == Nodes.Restart)
  {
  }
}
