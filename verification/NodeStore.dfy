/** The node transactions as they run: reported results one by one, then a page of open operations. */
module NodeStore {
  import opened Bytes
  import opened Nodes

  predicate Older(ops: map<nat, Operation>, a: nat, b: nat)
    requires a in ops && b in ops
  {
    ops[a].created <= ops[b].created
  }

  lemma {:induction false} OldestFrom(ops: map<nat, Operation>, rest: set<nat>, a: nat)
    requires rest <= ops.Keys && a in rest
    ensures exists id :: id in rest && forall o <- rest :: Older(ops, id, o)
    decreases ops[a].created
  {
    if b :| b in rest && !Older(ops, a, b) {
      OldestFrom(ops, rest, b);
    } else {
      assert forall o <- rest :: Older(ops, a, o);
    }
  }

  class NodeTables {
    var nodes: map<nat, Node>
    var configs: map<(nat, nat), nat>
    var bindings: map<nat, Binding>
    var keys: map<nat, Key>
    var ops: map<nat, Operation>

    constructor ()
      ensures Tables() == Db(map[], map[], map[], map[], map[]) && Sound(Tables())
    {
      nodes, configs, bindings, keys, ops := map[], map[], map[], map[], map[];
    }

    function Tables(): Db
      reads this
    {
      Db(nodes, configs, bindings, keys, ops)
    }

    /** The loop of SyncNode over the reported results; stops at one that cannot be reported. */
    method Take(n: nat, generation: nat, applied: int, now: int, rs: seq<Result>) returns (valid: bool)
      modifies `ops
      ensures valid == forall i :: 0 <= i < |rs| ==> Reportable(rs[i])
      ensures valid ==> ops == ApplyResults(old(ops), n, generation, applied, now, rs)
    {
      var i := 0;
      while i < |rs|
        invariant 0 <= i <= |rs| && forall j :: 0 <= j < i ==> Reportable(rs[j])
        invariant ops == ApplyResults(old(ops), n, generation, applied, now, rs[..i])
      {
        var r := rs[i];
        if r.state != Succeeded && r.state != Failed && r.state != Running {
          return false;
        }
        if r.id in ops && Takes(ops[r.id], n, generation, applied, now, r) {
          ops := ops[r.id := ops[r.id].(state := r.state, error := SafeCode(r))];
        }
        assert rs[..i + 1][..i] == rs[..i];
        i := i + 1;
      }
      assert rs[..i] == rs;
      valid := true;
    }

    /** The oldest open operations of the node, at most 64. */
    method Page(n: nat, generation: nat, now: int) returns (page: seq<nat>)
      ensures IsPage(ops, n, generation, now, page)
    {
      page := [];
      var rest := set id | id in ops && Listable(ops[id], n, generation, now);
      while rest != {} && |page| < MAX_RESULTS
        invariant |page| <= MAX_RESULTS && rest <= ops.Keys
        invariant forall id :: id in ops && Listable(ops[id], n, generation, now) <==> id in rest || id in page
        invariant forall i :: 0 <= i < |page| ==> page[i] in ops && page[i] !in rest
        invariant forall i, j :: 0 <= i < j < |page| ==> page[i] != page[j] && Older(ops, page[i], page[j])
        invariant forall p <- page, o <- rest :: p in ops && Older(ops, p, o)
        decreases |rest|
      {
        var some :| some in rest;
        OldestFrom(ops, rest, some);
        var id :| id in rest && forall o <- rest :: Older(ops, id, o);
        assert forall i :: 0 <= i < |page| ==> page[i] in page;
        page, rest := page + [id], rest - {id};
      }
      assert forall i :: 0 <= i < |page| ==> page[i] in page;
    }

    /** SyncNode: all of it is rolled back when it fails. */
    method Sync(d: nat, req: Request, now: int) returns (fault: Option<Code>, page: seq<nat>)
      modifies this
      ensures match Nodes.Sync(old(Tables()), d, req, now)
              case Done(x) =>
                fault == None && Tables() == x
                && IsPage(ops, old(bindings)[d].node, old(nodes)[old(bindings)[d].node].generation, now, page)
              case Fail(c) => fault == Some(c) && Tables() == old(Tables())
    {
      page := [];
      if |req.results| > MAX_RESULTS {
        return Some(Invalid), [];
      }
      fault := DeviceFault(Tables(), d);
      if fault.Some? {
        return;
      }
      var n := bindings[d].node;
      var node := nodes[n];
      if req.generation != node.generation {
        return Some(GenerationStale), [];
      }
      fault := AppliedFault(Tables(), n, req);
      if fault.Some? {
        return;
      }
      var before := ops;
      var valid := Take(n, node.generation, req.applied, now, req.results);
      if !valid {
        ops := before;
        return Some(Invalid), [];
      }
      ops := map id | id in ops :: Settled(ops[id], n, node.generation, req.applied, now);
      nodes := nodes[n := node.(applied := req.applied, reported := req.config)];
      page := Page(n, node.generation, now);
    }
  }
}
