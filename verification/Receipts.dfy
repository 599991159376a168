/** The receipt table behind every mutating request (mutateChecked and the Sweep of receipts). */
module Receipts {
  import opened Bytes
  import opened Redaction
  import opened Times
  import Rooms

  /** The digest of a request. Hashes are injective, so it is the request and its deadline. */
  datatype Digest = Digest(request: string, deadline: int)

  /** What the wire carries: the subject is authenticated, path is the room that the path names, the
      deadline is None when the header does not parse. */
  datatype Request = Request(subject: Subject, key: string, path: Option<nat>, request: string, deadline: Option<int>)

  datatype Row = Row(digest: Digest, receipt: Receipt, expires: int)

  /** Receipts are looked up under the subject and its key. */
  type At = (Subject, string)

  /** The tables behind rooms and leases, and all the others. */
  datatype Tables<D> = Tables(rooms: Rooms.Db, rest: D)

  /** What the business function returns when it runs inside its savepoint. */
  datatype Business<D> =
    | Done(db: Tables<D>, status: nat, data: Data)
    | Failed(code: string, status: nat)
    | Broken(code: string)

  datatype Reply = Refused(code: string) | Fresh(receipt: Receipt) | Replay(receipt: Receipt)
      | Redacted(receipt: Receipt)

  datatype Store<D> = Store(db: Tables<D>, rows: map<At, Row>)

  predicate GoodKey(key: string) {
    16 <= |key| <= 128
  }

  /** The deadline test against the transaction clock. */
  function Timely(deadline: Option<int>, now: int): (refusal: Option<string>) {
    if deadline.None? || deadline.value > now + HOUR then Option.Some("out_of_range")
    else if !(deadline.value > now) then Option.Some("operation_expired")
    else None
  }

  /** A row the SELECT sees: not expired. */
  predicate Visible(rows: map<At, Row>, at: At, now: int) {
    at in rows && rows[at].expires > now
  }

  /** Business failures that are recorded; the others abort the transaction. */
  predicate Recorded(status: nat) {
    status < 500 && status != 401 && status != 429
  }

  /** One transaction. `refusal` is what the authorization check says, `outcome` what the business
      function would do if it ran now. */
  function Mutate<D>(s: Store<D>, q: Request, now: int, refusal: Option<string>,
      outcome: Business<D>): (r: (Store<D>, Reply)) {
    if !GoodKey(q.key) then (s, Refused("request_idempotency_required"))
    else if refusal.Some? then (s, Refused(refusal.value))
    else if Timely(q.deadline, now).Some? then (s, Refused(Timely(q.deadline, now).value))
    else
      var at, digest := (q.subject, q.key), Digest(q.request, q.deadline.value);
      if Visible(s.rows, at, now) then
        if s.rows[at].digest != digest then (s, Refused("request_idempotency_conflict"))
        else (s, Shown(s.db, now, q.subject, s.rows[at].receipt))
      else Run(s, at, q.path, digest, outcome)
  }

  /** What a recorded receipt is answered with. */
  function Shown<D>(db: Tables<D>, now: int, subject: Subject, receipt: Receipt): (r: Reply) {
    match VisibleReceipt(db.rooms, now, subject, receipt)
    case Whole => Replay(receipt)
    case Hidden => Redacted(Emptied(receipt))
    case Obsolete => Refused("lease_replay_obsolete")
  }

  /** operationReceipt: asking for the result under a key, without sending the request again. */
  function Ask<D>(s: Store<D>, subject: Subject, key: string, now: int): (r: Reply) {
    var at := (subject, key);
    if at !in s.rows then Refused("operation_not_found")
    else if s.rows[at].expires <= now then Refused("operation_expired")
    else Shown(s.db, now, subject, s.rows[at].receipt)
  }

  /** The business function in its savepoint, then the receipt row. */
  function Run<D>(s: Store<D>, at: At, path: Option<nat>, digest: Digest,
      outcome: Business<D>): (r: (Store<D>, Reply)) {
    match outcome
    case Broken(code) => (s, Refused(code))
    case Failed(code, status) =>
      if !Recorded(status) then (s, Refused(code))
      else
        var receipt := Receipt(path, status, code, NOTHING, digest.deadline);
        (s.(rows := s.rows[at := Row(digest, receipt, digest.deadline)]), Fresh(receipt))
    case Done(db, status, data) =>
      var receipt := Receipt(path, status, "ok", data, digest.deadline);
      (Store(db, s.rows[at := Row(digest, receipt, digest.deadline)]), Fresh(receipt))
  }

  /** A sweep drops the rows that have expired. */
  function Prune(rows: map<At, Row>, now: int): (r: map<At, Row>) {
    map at | at in rows && !(rows[at].expires < now) :: rows[at]
  }

  // ---------------------------------------------------------------- what a client may rely on

  /** How a copy of a request that ran is answered, whatever has happened to the tables since and whatever the
      business function would do now. It changes nothing. In time it gets the first receipt exactly when nothing
      is looked at, or its lease still stands and it is about no room or about one the device may see; it is
      refused exactly when its lease no longer stands; and it gets the redaction otherwise. */
  lemma RetryReplays<D>(s: Store<D>, q: Request, now: int, first: Business<D>, db: Tables<D>, later: int,
      again: Business<D>)
    requires Mutate(s, q, now, None, first).1.Fresh?
    ensures var (x, reply) := Mutate(s, q, now, None, first);
            var (y, copy) := Mutate(x.(db := db), q, later, None, again);
            var receipt, d := reply.receipt, q.subject;
            && y == x.(db := db)
            && (later < q.deadline.value <= later + 3_600_000_000_000 ==>
                  && (copy == Replay(receipt)
                      <==> Exempt(d, receipt) || (LeaseGood(db, later, d, receipt) && RoomSeen(db, later, d, receipt)))
                  && (copy == Refused("lease_replay_obsolete")
                     <==> !Exempt(d, receipt) && !LeaseGood(db, later, d, receipt))
                  && (copy.Replay? || copy.Refused? || copy == Redacted(Emptied(receipt))))
            && (!(later < q.deadline.value <= later + 3_600_000_000_000) ==>
               copy == Refused(Timely(q.deadline, later).value))
  {
  }

  predicate LeaseGood<D>(db: Tables<D>, now: int, subject: Subject, r: Receipt)
    requires !Exempt(subject, r)
  {
    r.data.lease.Some? ==> LeaseStands(db.rooms, now, subject.id, r.data.lease.value)
  }

  predicate RoomSeen<D>(db: Tables<D>, now: int, subject: Subject, r: Receipt)
    requires !Exempt(subject, r)
  {
    RoomOf(r).Some? ==> MaySee(db.rooms, now, subject.id, RoomOf(r).value, CodeOf(r.data))
  }

  /** Two stores that a sweep now would leave alike. */
  predicate Alike<D(==)>(a: Store<D>, b: Store<D>, now: int) {
    a.db == b.db && Prune(a.rows, now) == Prune(b.rows, now)
  }

  lemma SameRow(a: map<At, Row>, b: map<At, Row>, at: At, now: int)
    requires Prune(a, now) == Prune(b, now)
    ensures at in a && !(a[at].expires < now) ==> at in b && a[at] == b[at]
  {
    if at in a && !(a[at].expires < now) {
      assert at in Prune(a, now) && Prune(a, now)[at] == a[at];
      assert at in Prune(b, now) && Prune(b, now)[at] == b[at];
    }
  }

  /** A later sweep needs no earlier one. */
  lemma PruneLater(rows: map<At, Row>, since: int, now: int)
    requires since <= now
    ensures Prune(Prune(rows, since), now) == Prune(rows, now)
  {
  }

  lemma PutAlike(a: map<At, Row>, b: map<At, Row>, at: At, row: Row, now: int)
    requires Prune(a, now) == Prune(b, now)
    ensures Prune(a[at := row], now) == Prune(b[at := row], now)
  {
    var keys := a.Keys + b.Keys + {at};
    forall k | k in keys
      ensures k in Prune(a[at := row], now) <==> k in Prune(b[at := row], now)
      ensures k in Prune(a[at := row], now) ==> Prune(a[at := row], now)[k] == Prune(b[at := row], now)[k]
    {
      SameRow(a, b, k, now);
      SameRow(b, a, k, now);
    }
  }

  lemma MutateAlike<D>(a: Store<D>, b: Store<D>, now: int, q: Request, clock: int, refusal: Option<string>,
      outcome: Business<D>)
    requires Alike(a, b, now) && now <= clock
    ensures Mutate(a, q, clock, refusal, outcome).1 == Mutate(b, q, clock, refusal, outcome).1
    ensures Alike(Mutate(a, q, clock, refusal, outcome).0, Mutate(b, q, clock, refusal, outcome).0, now)
  {
    var at := (q.subject, q.key);
    SameRow(a.rows, b.rows, at, now);
    SameRow(b.rows, a.rows, at, now);
    var (x, reply) := Mutate(a, q, clock, refusal, outcome);
    if reply.Fresh? {
      PutAlike(a.rows, b.rows, at, x.rows[at], now);
    }
  }

  // ---------------------------------------------------------------- the table

  class ReceiptStore<D> {
    var db: Tables<D>
    var rows: map<At, Row>

    constructor (db: Tables<D>)
      ensures Contents() == Store(db, map[])
    {
      this.db := db;
      rows := map[];
    }

    function Contents(): Store<D>
      reads this
    {
      Store(db, rows)
    }

    /** mutateChecked. The business function works on the live state; a failure restores it. */
    method MutateChecked(q: Request, now: int, refusal: Option<string>, fn: Tables<D> -> Business<D>)
        returns (reply: Reply)
      modifies this
      ensures (Contents(), reply) == Mutate(old(Contents()), q, now, refusal, fn(old(db)))
      ensures !reply.Fresh? ==> Contents() == old(Contents())
      ensures fn(old(db)).Failed? ==> db == old(db)
    {
      if |q.key| < 16 || |q.key| > 128 {
        return Refused("request_idempotency_required");
      }
      if refusal.Some? {
        return Refused(refusal.value);
      }
      if q.deadline.None? || q.deadline.value > now + HOUR {
        return Refused("out_of_range");
      }
      var deadline := q.deadline.value;
      if !(deadline > now) {
        return Refused("operation_expired");
      }
      var at, digest := (q.subject, q.key), Digest(q.request, deadline);
      if at in rows && rows[at].expires > now {
        if rows[at].digest != digest {
          return Refused("request_idempotency_conflict");
        }
        reply := Visible(now, q.subject, rows[at].receipt);
        return;
      }
      var outcome := fn(db);
      var receipt;
      match outcome {
        case Broken(code) => return Refused(code);
        case Failed(code, status) =>
          if status >= 500 || status == 401 || status == 429 {
            return Refused(code);
          }
          receipt := Receipt(q.path, status, code, NOTHING, deadline);
        case Done(after, status, data) =>
          db := after;
          receipt := Receipt(q.path, status, "ok", data, deadline);
      }
      rows := rows[at := Row(digest, receipt, deadline)];
      reply := Fresh(receipt);
    }

    /** visibleReceipt, query by query. */
    method Visible(now: int, subject: Subject, receipt: Receipt) returns (reply: Reply)
      ensures reply == Shown(db, now, subject, receipt)
    {
      if receipt.status >= 400 || subject.Admin? || receipt.data.Opaque? {
        return Replay(receipt);
      }
      var d, value := subject.id, receipt.data;
      if value.lease.Some? {
        var c := value.lease.value;
        if !(c in db.rooms.certs && c.device == d && !db.rooms.certs[c] && c.expires > now) {
          return Refused("lease_replay_obsolete");
        }
      }
      var room := value.room;
      if receipt.path.Some? {
        room := receipt.path;
      }
      if room.None? {
        return Replay(receipt);
      }
      var owner, member := Owns(db.rooms, now, d, room.value), Belongs(db.rooms, now, d, room.value);
      var code := value.code;
      if value.invitation.Some? {
        code := value.invitation;
      }
      var valid := owner || member;
      if code.Some? {
        valid := false;
        if owner {
          valid := Invites(db.rooms, now, room.value, code.value);
        }
      }
      if !valid {
        return Redacted(receipt.(status := 200, code := "operation_result_redacted", data := NOTHING));
      }
      return Replay(receipt);
    }

    /** operationReceipt, past its session check. */
    method OperationReceipt(subject: Subject, key: string, now: int) returns (reply: Reply)
      ensures reply == Ask(Contents(), subject, key, now)
    {
      var at := (subject, key);
      if at !in rows {
        return Refused("operation_not_found");
      }
      if rows[at].expires <= now {
        return Refused("operation_expired");
      }
      reply := Visible(now, subject, rows[at].receipt);
    }
  }
}
