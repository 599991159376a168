/** Exactly what one request does to the receipt table, what it is told, and what is shown of a recorded result. */
module ReceiptExact {
  import opened Bytes
  import opened Receipts
  import opened Redaction
  import Rooms

  // ---------------------------------------------------------------- one request

  /** A receipt stands under the subject's key: its deadline is ahead. */
  predicate Stands(rows: map<At, Row>, q: Request, now: int) {
    (q.subject, q.key) in rows && now < rows[(q.subject, q.key)].expires
  }

  /** The request may be looked at: a key of 16 to 128 characters, an authorized subject, a deadline at most an
      hour ahead. */
  predicate Admitted(q: Request, now: int, refusal: Option<string>) {
    && 16 <= |q.key| <= 128 && refusal.None?
    && q.deadline.Some? && now < q.deadline.value <= now + 3_600_000_000_000
  }

  /** Why it may not, the first reason first. */
  predicate Rejection(q: Request, now: int, refusal: Option<string>, code: string) {
    if |q.key| < 16 || |q.key| > 128 then code == "request_idempotency_required"
    else if refusal.Some? then code == refusal.value
    else if q.deadline.Some? && q.deadline.value <= now then code == "operation_expired"
    else code == "out_of_range"
  }

  /** Successes are recorded, and failures that would come again. */
  predicate Kept<D>(b: Business<D>) {
    b.Done? || (b.Failed? && b.status < 500 && b.status != 401 && b.status != 429)
  }

  /** The business function runs, and its outcome is recorded, exactly for an admitted request under a key nothing
      stands under; then the tables are as a success left them, or as before, and the receipt stands until the
      deadline. Any other request changes nothing. */
  lemma RunExactly<D>(s: Store<D>, q: Request, now: int, refusal: Option<string>, b: Business<D>)
    ensures var (x, reply) := Mutate(s, q, now, refusal, b);
            && (reply.Fresh? <==> Admitted(q, now, refusal) && !Stands(s.rows, q, now) && Kept(b))
            && (!reply.Fresh? ==> x == s)
            && (reply.Fresh? ==>
                 && x.db == (if b.Done? then b.db else s.db)
                 && reply.receipt == Receipt(q.path, b.status, if b.Done? then "ok" else b.code,
                    if b.Done? then b.data else Fields("null", None, None, None, None), q.deadline.value)
                 && x.rows == s.rows[(q.subject, q.key) :=
                    Row(Digest(q.request, q.deadline.value), reply.receipt, q.deadline.value)])
  {
  }

  /** What a request is told that does not run: why it is not admitted, that the key stands for another request, what
      may be shown of the receipt, or the failure that is not recorded. */
  lemma ToldExactly<D>(s: Store<D>, q: Request, now: int, refusal: Option<string>, b: Business<D>)
    ensures var reply := Mutate(s, q, now, refusal, b).1;
            if !Admitted(q, now, refusal) then reply.Refused? && Rejection(q, now, refusal, reply.code)
            else if !Stands(s.rows, q, now) then !Kept(b) ==> reply == Refused(b.code)
            else
              var row := s.rows[(q.subject, q.key)];
              if row.digest.request == q.request && row.digest.deadline == q.deadline.value then
                Shows(s.db.rooms, now, q.subject, row.receipt, reply)
              else reply == Refused("request_idempotency_conflict")
  {
    if Stands(s.rows, q, now) {
      ShownExactly(s.db, now, q.subject, s.rows[(q.subject, q.key)].receipt);
    }
  }

  // ---------------------------------------------------------------- what is shown

  predicate OpenRoom(db: Rooms.Db, now: int, r: nat) {
    r in db.rooms && !db.rooms[r].closed && now < db.rooms[r].expires
  }

  predicate OwnerNow(db: Rooms.Db, now: int, d: nat, r: nat) {
    OpenRoom(db, now, r) && d in db.devices && db.rooms[r].owner == db.devices[d].user
  }

  predicate MemberNow(db: Rooms.Db, now: int, d: nat, r: nat) {
    OpenRoom(db, now, r) && Rooms.Key(r, d) in db.members && db.members[Rooms.Key(r, d)].active
  }

  predicate CodeNow(db: Rooms.Db, now: int, r: nat, code: nat) {
    code in db.invites && db.invites[code].room == r && now < db.invites[code].expires
  }

  /** Looked at: a device's successful result, in a form that can be read. */
  predicate Examined(subject: Subject, r: Receipt) {
    r.status < 400 && subject.Device? && r.data.Fields?
  }

  /** The lease in it is the device's, on record, not revoked and not over. */
  predicate LeaseNow(db: Rooms.Db, now: int, subject: Subject, r: Receipt)
    requires Examined(subject, r)
  {
    r.data.lease.Some? ==>
      var c := r.data.lease.value;
      c in db.certs && !db.certs[c] && c.device == subject.id && now < c.expires
  }

  /** The room in it, that of the path first, is one the device owns or is in; an invitation code is its owner's, while
      it lasts. */
  predicate RoomNow(db: Rooms.Db, now: int, subject: Subject, r: Receipt)
    requires Examined(subject, r)
  {
    var room := if r.path.Some? then r.path else r.data.room;
    var code := if r.data.invitation.Some? then r.data.invitation else r.data.code;
    room.Some? ==>
      if code.Some? then OwnerNow(db, now, subject.id, room.value) && CodeNow(db, now, room.value, code.value)
      else OwnerNow(db, now, subject.id, room.value) || MemberNow(db, now, subject.id, room.value)
  }

  predicate Shows(db: Rooms.Db, now: int, subject: Subject, r: Receipt, reply: Reply) {
    if !Examined(subject, r) then reply == Replay(r)
    else if !LeaseNow(db, now, subject, r) then reply == Refused("lease_replay_obsolete")
    else if RoomNow(db, now, subject, r) then reply == Replay(r)
    else
      reply == Redacted(Receipt(r.path, 200, "operation_result_redacted", Fields("null", None, None, None, None),
                                r.deadline))
  }

  /** A receipt is shown as it was when it need not be looked at, or is still the device's to see; without its data
      when the room in it is not; and not at all when its lease is over. */
  lemma ShownExactly<D>(db: Tables<D>, now: int, subject: Subject, r: Receipt)
    ensures Shows(db.rooms, now, subject, r, Shown(db, now, subject, r))
  {
  }

  /** The same for asking without sending the request again. */
  lemma AskedNow<D>(s: Store<D>, subject: Subject, key: string, now: int)
    ensures var at, reply := (subject, key), Ask(s, subject, key, now);
            if at !in s.rows then reply == Refused("operation_not_found")
            else if s.rows[at].expires <= now then reply == Refused("operation_expired")
            else Shows(s.db.rooms, now, subject, s.rows[at].receipt, reply)
  {
    var at := (subject, key);
    if at in s.rows {
      ShownExactly(s.db, now, subject, s.rows[at].receipt);
    }
  }
}
