/** What is shown of a recorded receipt when it is asked for again: visibleReceipt, on the tables as they are now. */
module Redaction {
  import opened Bytes
  import opened Rooms

  /** Whose key it is. Administrators are the subjects that begin with "admin:". */
  datatype Subject = Device(id: nat) | Admin(name: string)

  /** The data of a result. Fields are those that are looked at: the room and the invitation in it, a code
      and a fingerprint of its own. Opaque data does not decode into them. */
  datatype Data =
    | Opaque(text: string)
    | Fields(text: string, room: Option<nat>, invitation: Option<nat>, code: Option<nat>, lease: Option<Cert>)

  /** path is the room that the path of the request names, unless it names none. */
  datatype Receipt = Receipt(path: Option<nat>, status: nat, code: string, data: Data, deadline: int)

  const NOTHING := Fields("null", None, None, None, None)

  datatype Sight = Whole | Hidden | Obsolete

  /** The room a receipt is about: the path goes before the data. */
  function RoomOf(r: Receipt): Option<nat>
    requires r.data.Fields?
  {
    if r.path.Some? then r.path else r.data.room
  }

  /** The invitation code a receipt shows. */
  function CodeOf(data: Data): Option<nat> {
    if data.Opaque? then None else if data.invitation.Some? then data.invitation else data.code
  }

  predicate Standing(db: Db, now: int, r: nat) {
    r in db.rooms && !db.rooms[r].closed && db.rooms[r].expires > now
  }

  /** The room is open and belongs to the device's user. */
  predicate Owns(db: Db, now: int, d: nat, r: nat) {
    Standing(db, now, r) && d in db.devices && db.rooms[r].owner == db.devices[d].user
  }

  /** The room is open and the device is an active member. */
  predicate Belongs(db: Db, now: int, d: nat, r: nat) {
    Standing(db, now, r) && Key(r, d) in db.members && db.members[Key(r, d)].active
  }

  predicate Invites(db: Db, now: int, r: nat, code: nat) {
    code in db.invites && db.invites[code].room == r && db.invites[code].expires > now
  }

  predicate LeaseStands(db: Db, now: int, d: nat, c: Cert) {
    c in db.certs && c.device == d && !db.certs[c] && c.expires > now
  }

  /** Errors, administrators and data without the fields are not looked at. */
  predicate Exempt(subject: Subject, r: Receipt) {
    r.status >= 400 || subject.Admin? || r.data.Opaque?
  }

  /** The device may see what a receipt says about room r now. */
  predicate MaySee(db: Db, now: int, d: nat, r: nat, code: Option<nat>) {
    if code.Some? then Owns(db, now, d, r) && Invites(db, now, r, code.value)
    else Owns(db, now, d, r) || Belongs(db, now, d, r)
  }

  /** visibleReceipt: as a whole, without its data, or not at all. */
  function VisibleReceipt(db: Db, now: int, subject: Subject, r: Receipt): Sight {
    if Exempt(subject, r) then Whole
    else if r.data.lease.Some? && !LeaseStands(db, now, subject.id, r.data.lease.value) then Obsolete
    else if RoomOf(r).None? || MaySee(db, now, subject.id, RoomOf(r).value, CodeOf(r.data)) then Whole
    else Hidden
  }

  /** What is left of a receipt whose contents are no longer the subject's to see. */
  function Emptied(r: Receipt): Receipt {
    r.(status := 200, code := "operation_result_redacted", data := NOTHING)
  }
}
