/** At most one effect per request, over every run of transactions and sweeps. */
module ReceiptRuns {
  import opened Bytes
  import opened Receipts
  import opened Redaction
  import opened Times

  /** A mutation, a sweep of the receipts, or any other transaction on the tables. */
  datatype Event<D> =
    | Mutation(request: Request, now: int, refusal: Option<string>, outcome: Business<D>)
    | Sweep(now: int)
    | Other(db: Tables<D>)

  function Next<D>(s: Store<D>, e: Event<D>): (r: (Store<D>, Option<Reply>)) {
    match e
    case Mutation(q, now, refusal, outcome) =>
      var (s', reply) := Mutate(s, q, now, refusal, outcome);
      (s', Option.Some(reply))
    case Sweep(now) => (s.(rows := Prune(s.rows, now)), None)
    case Other(db) => (s.(db := db), None)
  }

  /** The store after a run that starts without receipts. */
  function After<D>(db: Tables<D>, es: seq<Event<D>>): Store<D> {
    if es == [] then Store(db, map[]) else Next(After(db, es[..|es| - 1]), es[|es| - 1]).0
  }

  function ReplyAt<D>(db: Tables<D>, es: seq<Event<D>>, i: nat): Option<Reply>
    requires i < |es|
  {
    Next(After(db, es[..i]), es[i]).1
  }

  /** The business function ran at i and its outcome was recorded. */
  predicate Ran<D>(db: Tables<D>, es: seq<Event<D>>, i: nat)
    requires i < |es|
  {
    ReplyAt(db, es, i).Some? && ReplyAt(db, es, i).value.Fresh?
  }

  predicate SameIntent(a: Request, b: Request) {
    a.subject == b.subject && a.key == b.key && a.request == b.request && a.deadline == b.deadline
  }

  /** One key with one deadline, whatever the request says. */
  predicate SameCommand(a: Request, b: Request) {
    a.subject == b.subject && a.key == b.key && a.deadline == b.deadline
  }

  /** No mutation runs on an older transaction clock than a sweep before it. A transaction takes
      its clock before it waits for the lock, so this is an assumption about the lock queue. */
  predicate SweepsNotOvertaken<D>(es: seq<Event<D>>) {
    forall i, j :: 0 <= i < j < |es| && es[i].Sweep? && es[j].Mutation? ==> es[i].now <= es[j].now
  }

  /** What the run knows about an intent that ran at i: its row still covers its deadline, and is
      the original one if the digest matches; or a sweep later than the deadline took it. */
  predicate Remembered<D>(db: Tables<D>, es: seq<Event<D>>, q: Request, receipt: Receipt) {
    && q.deadline.Some?
    && var rows, at := After(db, es).rows, (q.subject, q.key);
    || (at in rows && rows[at].expires >= q.deadline.value
        && (rows[at].digest == Digest(q.request, q.deadline.value) ==> rows[at].receipt == receipt))
    || SweptPast(es, 0, q.deadline.value)
  }

  /** Some sweep from event `from` on saw the deadline passed. */
  predicate SweptPast<D>(es: seq<Event<D>>, from: nat, deadline: int) {
    exists k :: from <= k < |es| && es[k].Sweep? && es[k].now > deadline
  }

  lemma RunRecords<D>(db: Tables<D>, es: seq<Event<D>>, e: Event<D>)
    requires Next(After(db, es), e).1.Some? && Next(After(db, es), e).1.value.Fresh?
    ensures e.Mutation? && e.request.deadline.Some? && e.request.deadline.value > e.now
    ensures !Visible(After(db, es).rows, (e.request.subject, e.request.key), e.now)
    ensures Next(After(db, es), e).0.rows
            == After(db, es).rows[(e.request.subject, e.request.key) :=
                 Row(Digest(e.request.request, e.request.deadline.value), Next(After(db, es), e).1.value.receipt,
                     e.request.deadline.value)]
  {
  }

  lemma Unfold<D>(db: Tables<D>, es: seq<Event<D>>, n: nat)
    requires n < |es|
    ensures After(db, es[..n + 1]) == Next(After(db, es[..n]), es[n]).0
  {
    assert es[..n + 1][..n] == es[..n] && es[..n + 1][n] == es[n];
  }

  /** A refusal, the first receipt, or what may still be said of it. */
  predicate OneOutcome(reply: Reply, receipt: Receipt) {
    reply.Refused? || reply == Replay(receipt) || reply == Redacted(Emptied(receipt))
  }

  /** The next event keeps the memory of a remembered intent. */
  lemma RememberStep<D>(db: Tables<D>, es: seq<Event<D>>, n: nat, q: Request, receipt: Receipt)
    requires n < |es| && SweepsNotOvertaken(es)
    requires Remembered(db, es[..n], q, receipt)
    ensures Remembered(db, es[..n + 1], q, receipt)
    ensures es[n].Mutation? && SameIntent(es[n].request, q) ==>
              OneOutcome(ReplyAt(db, es, n).value, receipt)
    ensures es[n].Mutation? && SameCommand(es[n].request, q) ==> !Ran(db, es, n)
  {
    Unfold(db, es, n);
    var s, e, at := After(db, es[..n]), es[n], (q.subject, q.key);
    if SweptPast(es[..n], 0, q.deadline.value) {
      var k :| 0 <= k < n && es[..n][k].Sweep? && es[..n][k].now > q.deadline.value;
      assert es[..n + 1][k] == es[k];
    } else {
      if e.Sweep? && at !in Prune(s.rows, e.now) {
        assert es[..n + 1][n] == e;
      }
    }
  }

  lemma {:induction false} RememberedSince<D>(db: Tables<D>, es: seq<Event<D>>, i: nat, n: nat, q: Request,
      receipt: Receipt)
    requires i < n <= |es| && SweepsNotOvertaken(es)
    requires es[i].Mutation? && SameCommand(es[i].request, q) && ReplyAt(db, es, i) == Option.Some(Fresh(receipt))
    ensures Remembered(db, es[..n], q, receipt)
    decreases n
  {
    if n == i + 1 {
      Unfold(db, es, i);
      RunRecords(db, es[..i], es[i]);
    } else {
      RememberedSince(db, es, i, n - 1, q, receipt);
      RememberStep(db, es, n - 1, q, receipt);
    }
  }

  /** The first outcome is the only one: once an intent ran, every later request with the same
      subject, key, body and deadline is refused or gets the first receipt, whole or emptied. */
  lemma FirstOutcomeOnly<D>(db: Tables<D>, es: seq<Event<D>>, i: nat, j: nat, receipt: Receipt)
    requires i < j < |es| && SweepsNotOvertaken(es) && es[i].Mutation? && es[j].Mutation?
    requires SameIntent(es[i].request, es[j].request) && ReplyAt(db, es, i) == Option.Some(Fresh(receipt))
    ensures OneOutcome(ReplyAt(db, es, j).value, receipt)
  {
    RememberedSince(db, es, i, j, es[j].request, receipt);
    RememberStep(db, es, j, es[j].request, receipt);
  }

  /** At most once, for ever: of all requests with one key and one deadline, equal or not, at most one runs. */
  lemma RunsAtMostOnce<D>(db: Tables<D>, es: seq<Event<D>>, i: nat, j: nat)
    requires i < |es| && j < |es| && SweepsNotOvertaken(es) && es[i].Mutation? && es[j].Mutation?
    requires SameCommand(es[i].request, es[j].request) && Ran(db, es, i) && Ran(db, es, j)
    ensures i == j
  {
    if i < j {
      RememberedSince(db, es, i, j, es[j].request, ReplyAt(db, es, i).value.receipt);
      RememberStep(db, es, j, es[j].request, ReplyAt(db, es, i).value.receipt);
    } else if j < i {
      RememberedSince(db, es, j, i, es[i].request, ReplyAt(db, es, j).value.receipt);
      RememberStep(db, es, i, es[i].request, ReplyAt(db, es, j).value.receipt);
    }
  }

  /** The assumption is needed: a request that took its clock before a sweep but got the lock after
      it runs its business function again. */
  lemma OvertakenSweepRunsTwice<D>(db: Tables<D>, q: Request, ok: Business<D>)
    requires GoodKey(q.key) && q.deadline == Option.Some(15) && ok.Done?
    ensures var es := [Mutation(q, 5, None, ok), Sweep(20), Mutation(q, 10, None, ok)];
            Ran(db, es, 0) && Ran(db, es, 2)
  {
    var e0, e1, e2 := Mutation(q, 5, None, ok), Sweep(20), Mutation(q, 10, None, ok);
    var es := [e0, e1, e2];
    assert es[..0] == [] && es[..1] == [e0] && es[..2] == [e0, e1];
    Unfold(db, es, 0);
    Unfold(db, es, 1);
    assert After(db, es[..2]).rows == map[];
  }

  predicate SameKey(a: Request, b: Request) {
    a.subject == b.subject && a.key == b.key
  }

  predicate RanUnder<D>(db: Tables<D>, es: seq<Event<D>>, m: nat, q: Request)
    requires m < |es|
  {
    es[m].Mutation? && SameKey(es[m].request, q) && Ran(db, es, m)
  }

  /** Event i is the last before n that ran under the key of q. */
  predicate LastRun<D>(db: Tables<D>, es: seq<Event<D>>, i: nat, n: nat, q: Request)
    requires i < n <= |es|
  {
    RanUnder(db, es, i, q) && forall m :: i < m < n ==> !RanUnder(db, es, m, q)
  }

  lemma NotFreshKeepsRows<D>(s: Store<D>, e: Event<D>, at: At)
    requires e.Mutation? && (!Next(s, e).1.value.Fresh? || (e.request.subject, e.request.key) != at)
    ensures at in Next(s, e).0.rows <==> at in s.rows
    ensures at in s.rows ==> Next(s, e).0.rows[at] == s.rows[at]
  {
  }

  lemma SweptSnoc<D>(es: seq<Event<D>>, i: nat, n: nat, deadline: int)
    requires i < n < |es|
    ensures SweptPast(es[..n + 1], i, deadline)
            <==> SweptPast(es[..n], i, deadline) || (es[n].Sweep? && es[n].now > deadline)
  {
    if SweptPast(es[..n], i, deadline) {
      var k :| i <= k < n && es[..n][k].Sweep? && es[..n][k].now > deadline;
      assert es[..n + 1][k] == es[..n][k];
    }
    if SweptPast(es[..n + 1], i, deadline) {
      var k :| i <= k < n + 1 && es[..n + 1][k].Sweep? && es[..n + 1][k].now > deadline;
      assert k < n ==> es[..n][k] == es[..n + 1][k];
    }
    assert es[..n + 1][n] == es[n];
  }

  /** The row of q with this receipt is there exactly until swept. */
  predicate RowIs(rows: map<At, Row>, q: Request, receipt: Receipt, swept: bool) {
    var at := (q.subject, q.key);
    && q.deadline.Some?
    && (at in rows <==> !swept)
    && (at in rows ==> rows[at] == Row(Digest(q.request, q.deadline.value), receipt, q.deadline.value))
  }

  /** Whatever else arrives under the key: the row of the last request that ran stands until swept. */
  lemma {:induction false} RowUntilSwept<D>(db: Tables<D>, es: seq<Event<D>>, i: nat, n: nat)
    requires i < n <= |es| && es[i].Mutation? && es[i].request.deadline.Some? && LastRun(db, es, i, n, es[i].request)
    ensures RowIs(After(db, es[..n]).rows, es[i].request, ReplyAt(db, es, i).value.receipt,
                  SweptPast(es[..n], i, es[i].request.deadline.value))
    decreases n
  {
    var q, deadline := es[i].request, es[i].request.deadline.value;
    Unfold(db, es, n - 1);
    if n == i + 1 {
      RunRecords(db, es[..i], es[i]);
      assert es[..n][i] == es[i];
    } else {
      RowUntilSwept(db, es, i, n - 1);
      SweptSnoc(es, i, n - 1, deadline);
      assert !RanUnder(db, es, n - 1, q);
      if es[n - 1].Mutation? {
        NotFreshKeepsRows(After(db, es[..n - 1]), es[n - 1], (q.subject, q.key));
      }
    }
  }

  /** The same, seen from another request under the key. */
  lemma LastRowIs<D>(db: Tables<D>, es: seq<Event<D>>, i: nat, n: nat, q: Request)
    requires i < n <= |es| && LastRun(db, es, i, n, q)
    ensures es[i].Mutation? && es[i].request.deadline.Some?
    ensures RowIs(After(db, es[..n]).rows, es[i].request, ReplyAt(db, es, i).value.receipt,
                  SweptPast(es[..n], i, es[i].request.deadline.value))
  {
    RunRecords(db, es[..i], es[i]);
    forall m | i < m < n
      ensures !RanUnder(db, es, m, es[i].request)
    {
      assert !RanUnder(db, es, m, q);
    }
    RowUntilSwept(db, es, i, n);
  }

  lemma {:induction false} NoRunNoRow<D>(db: Tables<D>, es: seq<Event<D>>, n: nat, q: Request)
    requires n <= |es| && forall m :: 0 <= m < n ==> !RanUnder(db, es, m, q)
    ensures (q.subject, q.key) !in After(db, es[..n]).rows
    decreases n
  {
    if n == 0 {
      assert es[..0] == [];
    } else {
      NoRunNoRow(db, es, n - 1, q);
      Unfold(db, es, n - 1);
      assert !RanUnder(db, es, n - 1, q);
      if es[n - 1].Mutation? {
        NotFreshKeepsRows(After(db, es[..n - 1]), es[n - 1], (q.subject, q.key));
      }
    }
  }

  /** The deadline is ahead, by an hour at most. */
  predicate InTime(deadline: Option<int>, now: int) {
    deadline.Some? && now < deadline.value <= now + 3_600_000_000_000
  }

  /** Nothing but the receipts stands between a request and its business function. */
  predicate Unhindered<D>(e: Event<D>) {
    && e.Mutation? && 16 <= |e.request.key| <= 128 && e.refusal.None?
    && !e.outcome.Broken? && (e.outcome.Failed? ==> e.outcome.status < 500 && e.outcome.status !in {401, 429})
  }

  /** A request under a key that nothing ran under runs exactly when it is timely. */
  lemma RunsFirstExactly<D>(db: Tables<D>, es: seq<Event<D>>, j: nat)
    requires j < |es| && Unhindered(es[j]) && forall m :: 0 <= m < j ==> !RanUnder(db, es, m, es[j].request)
    ensures Ran(db, es, j) <==> InTime(es[j].request.deadline, es[j].now)
  {
    NoRunNoRow(db, es, j, es[j].request);
  }

  /** In any run, a request runs under a key that was used before exactly when it is timely and the
      last request that ran under the key has expired by this one's clock, or was swept as expired. */
  lemma RunsAgainExactly<D>(db: Tables<D>, es: seq<Event<D>>, i: nat, j: nat)
    requires i < j < |es| && Unhindered(es[j]) && es[i].Mutation? && LastRun(db, es, i, j, es[j].request)
    ensures es[i].request.deadline.Some?
    ensures var deadline := es[i].request.deadline.value;
            Ran(db, es, j) <==> && InTime(es[j].request.deadline, es[j].now)
                                && (deadline <= es[j].now || SweptPast(es[..j], i, deadline))
  {
    LastRowIs(db, es, i, j, es[j].request);
  }

  /** The business function has no conflict of its own to report. */
  predicate OwnCode<D>(e: Event<D>)
    requires e.Mutation?
  {
    && (e.outcome.Broken? ==> e.outcome.code != "request_idempotency_conflict")
    && (e.outcome.Failed? ==> e.outcome.code != "request_idempotency_conflict")
  }

  /** In any run, a timely request meets a conflict exactly when the last request that ran under its key
      still stands and differs from it, in its content or its deadline. */
  lemma ConflictExactly<D>(db: Tables<D>, es: seq<Event<D>>, i: nat, j: nat)
    requires i < j < |es| && Unhindered(es[j]) && OwnCode(es[j]) && es[i].Mutation?
             && LastRun(db, es, i, j, es[j].request)
    requires InTime(es[j].request.deadline, es[j].now)
    ensures es[i].request.deadline.Some?
    ensures var deadline := es[i].request.deadline.value;
            ReplyAt(db, es, j).value == Refused("request_idempotency_conflict")
            <==> && es[j].now < deadline && !SweptPast(es[..j], i, deadline)
                 && !SameIntent(es[i].request, es[j].request)
  {
    LastRowIs(db, es, i, j, es[j].request);
  }

  /** In any run, with any other transactions in between: an authorized, timely copy of the last request that ran
      under its key gets what may be shown of the first receipt now, and changes nothing, unless its row was swept. */
  lemma CopyIsShown<D>(db: Tables<D>, es: seq<Event<D>>, i: nat, j: nat)
    requires i < j < |es| && es[j].Mutation? && LastRun(db, es, i, j, es[j].request)
    requires SameIntent(es[i].request, es[j].request) && es[j].refusal.None?
             && InTime(es[j].request.deadline, es[j].now)
    ensures es[i].request.deadline.Some?
    ensures !SweptPast(es[..j], i, es[i].request.deadline.value) ==>
              && After(db, es[..j + 1]) == After(db, es[..j])
              && ReplyAt(db, es, j)
                 == Option.Some(Shown(After(db, es[..j]).db, es[j].now, es[j].request.subject,
                   ReplyAt(db, es, i).value.receipt))
  {
    LastRowIs(db, es, i, j, es[j].request);
    Unfold(db, es, j);
  }

  /** Asking for the result under a key is answered like a copy of the request that last ran under it: not found
      once its row was swept, expired from its deadline on, and otherwise what may be shown of its receipt now. */
  lemma AskedExactly<D>(db: Tables<D>, es: seq<Event<D>>, i: nat, q: Request, now: int)
    requires i < |es| && LastRun(db, es, i, |es|, q)
    ensures es[i].Mutation? && es[i].request.deadline.Some?
    ensures var deadline := es[i].request.deadline.value;
            Ask(After(db, es), q.subject, q.key, now)
            == if SweptPast(es, i, deadline) then Refused("operation_not_found")
               else if deadline <= now then Refused("operation_expired")
               else Shown(After(db, es).db, now, q.subject, ReplyAt(db, es, i).value.receipt)
  {
    LastRowIs(db, es, i, |es|, q);
    assert es[..|es|] == es;
  }

  /** Of the requests that ran under a key, one was the last. */
  lemma {:induction false} TheLast<D>(db: Tables<D>, es: seq<Event<D>>, m: nat, n: nat, q: Request) returns (i: nat)
    requires m < n <= |es| && RanUnder(db, es, m, q)
    ensures i < n && LastRun(db, es, i, n, q)
    decreases n
  {
    if RanUnder(db, es, n - 1, q) {
      i := n - 1;
    } else {
      i := TheLast(db, es, m, n - 1, q);
    }
  }

  // ---------------------------------------------------------------- sweeping cannot be seen

  /** The same run with nothing ever swept. */
  function Unswept<D>(es: seq<Event<D>>): seq<Event<D>> {
    if es == [] then []
    else Unswept(es[..|es| - 1]) + if es[|es| - 1].Sweep? then [] else [es[|es| - 1]]
  }

  /** Every sweep so far was made by this time. */
  predicate SweptBy<D>(es: seq<Event<D>>, now: int) {
    forall i :: 0 <= i < |es| && es[i].Sweep? ==> es[i].now <= now
  }

  lemma {:induction false} UnsweptIsAlike<D>(db: Tables<D>, es: seq<Event<D>>, now: int)
    requires SweepsNotOvertaken(es) && SweptBy(es, now)
    ensures Alike(After(db, es), After(db, Unswept(es)), now)
  {
    if es != [] {
      var init, e := es[..|es| - 1], es[|es| - 1];
      forall i | 0 <= i < |init|
        ensures init[i] == es[i]
      {
      }
      if e.Sweep? {
        UnsweptIsAlike(db, init, now);
        assert Unswept(es) == Unswept(init);
        PruneLater(After(db, init).rows, e.now, now);
      } else if e.Other? {
        assert Unswept(es)[..|Unswept(es)| - 1] == Unswept(init);
        UnsweptIsAlike(db, init, now);
      } else {
        assert Unswept(es)[..|Unswept(es)| - 1] == Unswept(init);
        var since := Earlier(e.now, now);
        UnsweptIsAlike(db, init, since);
        MutateAlike(After(db, init), After(db, Unswept(init)), since, e.request, e.now, e.refusal, e.outcome);
        PruneLater(After(db, es).rows, since, now);
        PruneLater(After(db, Unswept(es)).rows, since, now);
      }
    }
  }

  /** The bounded table stands for one that forgets nothing: with or without sweeps, every request
      gets the same reply and the business state is the same. */
  lemma SweepingIsInvisible<D>(db: Tables<D>, es: seq<Event<D>>, e: Event<D>)
    requires SweepsNotOvertaken(es + [e]) && e.Mutation?
    ensures Next(After(db, es), e).1 == Next(After(db, Unswept(es)), e).1
    ensures Next(After(db, es), e).0.db == Next(After(db, Unswept(es)), e).0.db
  {
    forall i, j | 0 <= i < j < |es| && es[i].Sweep? && es[j].Mutation?
      ensures es[i].now <= es[j].now
    {
      assert (es + [e])[i] == es[i] && (es + [e])[j] == es[j];
    }
    forall i | 0 <= i < |es| && es[i].Sweep?
      ensures es[i].now <= e.now
    {
      assert (es + [e])[i] == es[i] && (es + [e])[|es|] == e;
    }
    UnsweptIsAlike(db, es, e.now);
    MutateAlike(After(db, es), After(db, Unswept(es)), e.now, e.request, e.now, e.refusal, e.outcome);
  }
}
