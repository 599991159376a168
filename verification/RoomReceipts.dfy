/** The receipts of room requests, over whatever becomes of the rooms they are about. */
module RoomReceipts {
  import opened Bytes
  import opened Redaction
  import opened RoomHistory
  import opened RoomRuns
  import opened RoomSafety
  import opened Rooms
  import ReceiptRuns
  import Receipts
  import RoomEffects

  // ---------------------------------------------------------------- who may own a room

  predicate SameOwners(a: map<nat, Room>, b: map<nat, Room>) {
    forall r <- a :: r in b && b[r].owner == a[r].owner
  }

  /** A room passes to nobody but one of its active members. */
  predicate PassedOn(a: Db, b: Db) {
    forall r <- a.rooms :: r in b.rooms &&
      (b.rooms[r].owner == a.rooms[r].owner
       || exists k <- a.members :: k.room == r && a.members[k].active && a.members[k].user == b.rooms[r].owner)
  }

  lemma SamePassed(a: Db, b: Db)
    requires SameOwners(a.rooms, b.rooms)
    ensures PassedOn(a, b)
  {
  }

  lemma StaleOwners(db: Db, now: int, d: nat)
    ensures SameOwners(db.rooms, EndStale(db, now, d).rooms)
  {
  }

  lemma AddedOwners(db: Db, now: int, pool: Pool, k: Key)
    requires AddMember(db, now, pool, k).Done?
    ensures SameOwners(db.rooms, AddMember(db, now, pool, k).db.rooms)
  {
    StaleOwners(db, now, k.device);
  }

  lemma JoinedOwners(db: Db, now: int, pool: Pool, k: Key)
    requires Joined(db, now, pool, k).Done?
    ensures SameOwners(db.rooms, Joined(db, now, pool, k).db.rooms)
  {
    AddedOwners(db, now, pool, k);
  }

  lemma InvitedOwners(db: Db, now: int, r: nat, code: nat)
    requires Invited(db, now, r, code).Done?
    ensures SameOwners(db.rooms, Raised(Invited(db, now, r, code).db.rooms, r))
  {
  }

  lemma CreatedOwners(db: Db, now: int, pool: Pool, k: Key, game: nat, expected: nat, code: nat)
    requires CreateRoom(db, now, pool, k, game, expected, code).Done?
    ensures SameOwners(db.rooms, CreateRoom(db, now, pool, k, game, expected, code).db.rooms)
  {
    var room := Room(db.devices[k.device].user, game, CAPACITY, 1, now + ROOM_LIFE, false);
    var a := db.(rooms := db.rooms[k.room := room]);
    AddedOwners(a, now, pool, k);
    InvitedOwners(AddMember(a, now, pool, k).db, now, k.room, code);
  }

  lemma ActedPasses(db: Db, now: int, k: Key, action: Action)
    requires k.device in db.devices && k.room in db.rooms && Acted(db, now, k, action).Done?
    ensures PassedOn(db, Acted(db, now, k, action).db)
  {
    if action.Transfer? {
      assert Key(k.room, action.device) in db.members;
    } else {
      SamePassed(db, Acted(db, now, k, action).db);
    }
  }

  lemma JoinOwners(db: Db, now: int, pool: Pool, d: nat, code: nat)
    requires JoinRoom(db, now, pool, d, code).Done?
    ensures SameOwners(db.rooms, JoinRoom(db, now, pool, d, code).db.rooms)
  {
    if ActiveFault(db, now, Key(db.invites[code].room, d)).Some? {
      JoinedOwners(db, now, pool, Key(db.invites[code].room, d));
    }
  }

  lemma OwnerJoinOwners(db: Db, now: int, pool: Pool, k: Key, expected: nat)
    requires OwnerJoin(db, now, pool, k, expected).Done?
    ensures SameOwners(db.rooms, OwnerJoin(db, now, pool, k, expected).db.rooms)
  {
    if ActiveFault(db, now, k).Some? {
      JoinedOwners(db, now, pool, k);
    }
  }

  lemma HeartbeatOwners(db: Db, now: int, k: Key, version: bool, mac: MacText)
    requires Heartbeat(db, now, k, version, mac).Done?
    ensures SameOwners(db.rooms, Heartbeat(db, now, k, version, mac).db.rooms)
  {
  }

  lemma LeaveOwners(db: Db, now: int, k: Key)
    requires Leave(db, now, k).Done?
    ensures SameOwners(db.rooms, Leave(db, now, k).db.rooms)
  {
  }

  lemma AdminOwners(db: Db, now: int, r: nat, kicked: Option<nat>)
    requires AdminRoomAction(db, now, r, kicked).Done?
    ensures SameOwners(db.rooms, AdminRoomAction(db, now, r, kicked).db.rooms)
  {
  }

  lemma RoomActionPasses(db: Db, now: int, k: Key, action: Action, expected: nat)
    requires RoomAction(db, now, k, action, expected).Done?
    ensures PassedOn(db, RoomAction(db, now, k, action, expected).db)
  {
    if !(action.CloseRoom? && db.rooms[k.room].closed) {
      ActedPasses(db, now, k, action);
    }
  }

  lemma PlayingPasses(db: Db, pool: Pool, now: int, op: Op)
    requires Step(db, now, pool, op).Done? && Playing(op)
    ensures PassedOn(db, Step(db, now, pool, op).db)
  {
    if op.OpRoom? {
      RoomActionPasses(db, now, op.k, op.action, op.expected);
    } else {
      PlayingOwners(db, pool, now, op);
      SamePassed(db, Step(db, now, pool, op).db);
    }
  }

  lemma PlayingOwners(db: Db, pool: Pool, now: int, op: Op)
    requires Step(db, now, pool, op).Done? && Playing(op) && !op.OpRoom?
    ensures SameOwners(db.rooms, Step(db, now, pool, op).db.rooms)
  {
    match op
    case OpCreate(k, game, expected, code) => CreatedOwners(db, now, pool, k, game, expected, code);
    case OpJoin(device, code) => JoinOwners(db, now, pool, device, code);
    case OpOwnerJoin(k, expected) => OwnerJoinOwners(db, now, pool, k, expected);
    case OpHeartbeat(k, version, mac) => HeartbeatOwners(db, now, k, version, mac);
    case OpLeave(k) => LeaveOwners(db, now, k);
    case OpAdminRoom(room, kicked) => AdminOwners(db, now, room, kicked);
  }

  lemma CutOwners(db: Db, now: int, user: nat, device: Option<nat>, closeOwned: bool)
    ensures SameOwners(db.rooms, CutOff(db, now, user, device, closeOwned).rooms)
  {
  }

  lemma SweptOwners(db: Db, now: int, required: set<nat>)
    ensures SameOwners(db.rooms, Sweep(db, now, required).rooms)
  {
    var x := EnforceUpdates(db, now, required);
    assert SameOwners(db.rooms, x.rooms);
    assert SameOwners(x.rooms, RunOut(x, now, ExpiredRooms(x, now)).rooms);
  }

  lemma GrantsCutOwners(db: Db, now: int, user: nat, device: Option<nat>)
    ensures SameOwners(db.rooms, CutOff(RevokeGrants(db, user, device), now, user, device, false).rooms)
  {
    CutOwners(RevokeGrants(db, user, device), now, user, device, false);
  }

  lemma UserActionOwners(db: Db, now: int, user: nat, action: AccountAction)
    requires UserAction(db, now, user, action).Done?
    ensures SameOwners(db.rooms, UserAction(db, now, user, action).db.rooms)
  {
    match action
    case Enable =>
    case Disable =>
    case Delete => CutOwners(SetStanding(db, user, Deleted), now, user, None, true);
    case LogoutAll => GrantsCutOwners(db, now, user, None);
    case RevokeOne(d) => GrantsCutOwners(db, now, user, Some(d));
  }

  lemma TakeoverOwners(db: Db, now: int, d: nat, seen: Key, expected: nat)
    requires Takeover(db, now, d, seen, expected).Done?
    ensures SameOwners(db.rooms, Takeover(db, now, d, seen, expected).db.rooms)
  {
  }

  lemma RevokedOwners(db: Db, now: int, d: nat, target: nat)
    requires RevokeDevice(db, now, d, target).Done?
    ensures SameOwners(db.rooms, RevokeDevice(db, now, d, target).db.rooms)
  {
    GrantsCutOwners(db, now, db.devices[d].user, Some(target));
  }

  lemma LogoutOwners(db: Db, now: int, d: nat)
    requires Logout(db, now, d).Done?
    ensures SameOwners(db.rooms, Logout(db, now, d).db.rooms)
  {
    GrantsCutOwners(db, now, db.devices[d].user, Some(d));
  }

  lemma ExpellingOwners(db: Db, pool: Pool, now: int, op: Op)
    requires Step(db, now, pool, op).Done? && Expelling(op)
    ensures SameOwners(db.rooms, Step(db, now, pool, op).db.rooms)
  {
    match op
    case OpTakeover(device, seen, expected) => TakeoverOwners(db, now, device, seen, expected);
    case OpRevokeDevice(device, target) => RevokedOwners(db, now, device, target);
    case OpLogout(device) => LogoutOwners(db, now, device);
    case OpUser(user, account) => UserActionOwners(db, now, user, account);
    case OpSweep(required) => SweptOwners(db, now, required);
  }

  lemma WritePasses(db: Db, pool: Pool, now: int, op: Op)
    ensures PassedOn(db, Write(db, now, pool, op))
  {
    if Step(db, now, pool, op).Done? {
      if Playing(op) {
        PlayingPasses(db, pool, now, op);
      } else if Expelling(op) {
        ExpellingOwners(db, pool, now, op);
        SamePassed(db, Write(db, now, pool, op));
      } else {
        SamePassed(db, Write(db, now, pool, op));
      }
    }
  }

  // ---------------------------------------------------------------- nothing to see for good

  /** The room is closed, or the device's user is banned from it and does not own it. */
  predicate ShutFor(db: Db, d: nat, r: nat) {
    && r in db.rooms
    && (db.rooms[r].closed
        || (d in db.devices && (r, db.devices[d].user) in db.bans && db.rooms[r].owner != db.devices[d].user))
  }

  /** A closed room stays closed, and a banned user never comes to own the room. */
  lemma ShutStays(db: Db, pool: Pool, now: int, op: Op, d: nat, r: nat)
    requires Sound(db, pool) && ShutFor(db, d, r)
    ensures ShutFor(Write(db, now, pool, op), d, r)
  {
    var x := Write(db, now, pool, op);
    WriteLasts(db, pool, now, op);
    WritePasses(db, pool, now, op);
    assert r in x.rooms;
  }

  lemma {:induction false} ShutForGood(run: seq<Tx>, pool: Pool, i: nat, d: nat, r: nat)
    requires i <= |run| && ShutFor(After(run[..i], pool), d, r)
    ensures ShutFor(After(run, pool), d, r)
  {
    if i == |run| {
      assert run[..i] == run;
    } else {
      var init, last := run[..|run| - 1], run[|run| - 1];
      assert init[..i] == run[..i];
      ShutForGood(init, pool, i, d, r);
      AlwaysSound(init, pool);
      ShutStays(After(init, pool), pool, last.now, last.op, d, r);
    }
  }

  /** In a sound state, a device that a room is shut for may see nothing of it. */
  lemma ShutSeesNothing(db: Db, pool: Pool, now: int, d: nat, r: nat, code: Option<nat>)
    requires Sound(db, pool) && ShutFor(db, d, r)
    ensures !MaySee(db, now, d, r, code)
  {
  }

  /** Once a room is closed, or a user is banned from it and does not own it, no receipt about the room is ever
      shown to a device of that user again, by any copy or question, in any run. */
  lemma RedactedForGood(run: seq<Tx>, pool: Pool, i: nat, d: nat, receipt: Receipt, now: int)
    requires i <= |run| && !Exempt(Device(d), receipt) && RoomOf(receipt).Some?
    requires ShutFor(After(run[..i], pool), d, RoomOf(receipt).value)
    ensures VisibleReceipt(After(run, pool), now, Device(d), receipt) != Whole
  {
    ShutForGood(run, pool, i, d, RoomOf(receipt).value);
    AlwaysSound(run, pool);
    ShutSeesNothing(After(run, pool), pool, now, d, RoomOf(receipt).value, CodeOf(receipt.data));
  }

  /** The owner closes the room: from then on nothing about it is shown to anyone, the close itself included. */
  lemma CloseRedacts(run: seq<Tx>, pool: Pool, i: nat, d: nat, receipt: Receipt, now: int)
    requires i < |run| && run[i].op.OpRoom? && run[i].op.action.CloseRoom?
    requires Step(After(run[..i], pool), run[i].now, pool, run[i].op).Done?
    requires !Exempt(Device(d), receipt) && RoomOf(receipt) == Some(run[i].op.k.room)
    ensures VisibleReceipt(After(run, pool), now, Device(d), receipt) != Whole
  {
    var db, op := After(run[..i], pool), run[i].op;
    assert run[..i + 1][..i] == run[..i];
    AlwaysSound(run[..i], pool);
    RoomEffects.RoomActionDoes(db, pool, run[i].now, op.k, op.action, op.expected);
    RedactedForGood(run, pool, i + 1, d, receipt, now);
  }

  /** The owner kicks a member: from then on nothing about the room is shown to any device of that user. */
  lemma KickRedacts(run: seq<Tx>, pool: Pool, i: nat, d: nat, receipt: Receipt, now: int)
    requires i < |run| && run[i].op.OpRoom? && run[i].op.action.Kick?
    requires Step(After(run[..i], pool), run[i].now, pool, run[i].op).Done?
    requires var db := After(run[..i], pool);
             && run[i].op.action.device in db.devices && d in db.devices
             && db.devices[d].user == db.devices[run[i].op.action.device].user
    requires !Exempt(Device(d), receipt) && RoomOf(receipt) == Some(run[i].op.k.room)
    ensures VisibleReceipt(After(run, pool), now, Device(d), receipt) != Whole
  {
    var db, op := After(run[..i], pool), run[i].op;
    assert run[..i + 1][..i] == run[..i];
    AlwaysSound(run[..i], pool);
    KickShuts(db, pool, run[i].now, op.k, op.action.device, op.expected, d);
    RedactedForGood(run, pool, i + 1, d, receipt, now);
  }

  lemma KickShuts(db: Db, pool: Pool, now: int, k: Key, device: nat, expected: nat, d: nat)
    requires Sound(db, pool) && RoomAction(db, now, k, Kick(device), expected).Done?
    requires device in db.devices && d in db.devices && db.devices[d].user == db.devices[device].user
    ensures ShutFor(RoomAction(db, now, k, Kick(device), expected).db, d, k.room)
  {
  }

  /** A member that is not the owner leaves: right after it, a copy of the request gets the redaction. */
  lemma LeaveRedacts(db: Db, pool: Pool, now: int, k: Key, receipt: Receipt)
    requires Sound(db, pool) && Leave(db, now, k).Done? && !Owns(db, now, k.device, k.room)
    requires !Exempt(Device(k.device), receipt) && RoomOf(receipt) == Some(k.room) && receipt.data.lease.None?
    ensures VisibleReceipt(Leave(db, now, k).db, now, Device(k.device), receipt) == Hidden
  {
    RoomEffects.LeaveEnds(db, pool, now, k);
  }

  /** A room lease is shown again only while its device is an active member of that room at the leased address. */
  lemma LeasesAreTheMembers(run: seq<Tx>, pool: Pool, d: nat, receipt: Receipt, now: int)
    requires !Exempt(Device(d), receipt) && receipt.data.lease.Some? && receipt.data.lease.value.room.Some?
    requires VisibleReceipt(After(run, pool), now, Device(d), receipt) != Obsolete
    ensures var c, members := receipt.data.lease.value, After(run, pool).members;
            && c.device == d && c.expires > now
            && Key(c.room.value, d) in members && members[Key(c.room.value, d)].active
               && members[Key(c.room.value, d)].ip == c.ip
  {
    AlwaysSound(run, pool);
    assert Names(After(run, pool).members, receipt.data.lease.value);
  }

  // ---------------------------------------------------------------- invitations

  /** The invitation codes an operation draws. */
  function Drawn(op: Op): set<nat> {
    match op
    case OpCreate(_, _, _, code) => {code}
    case OpRoom(_, action, _) => if action.NewInvite? then {action.code} else {}
    case _ => {}
  }

  lemma CreateDraws(db: Db, now: int, pool: Pool, k: Key, game: nat, expected: nat, code: nat)
    requires CreateRoom(db, now, pool, k, game, expected, code).Done?
    ensures CreateRoom(db, now, pool, k, game, expected, code).db.invites.Keys <= db.invites.Keys + {code}
  {
    var room := Room(db.devices[k.device].user, game, CAPACITY, 1, now + ROOM_LIFE, false);
    var a := db.(rooms := db.rooms[k.room := room]);
    var b := AddMember(a, now, pool, k).db;
    assert b.invites == db.invites;
    assert Invited(b, now, k.room, code).db.invites.Keys <= db.invites.Keys + {code};
  }

  lemma RoomActionDraws(db: Db, now: int, k: Key, action: Action, expected: nat)
    requires RoomAction(db, now, k, action, expected).Done?
    ensures RoomAction(db, now, k, action, expected).db.invites.Keys <= db.invites.Keys
            + Drawn(OpRoom(k, action, expected))
  {
  }

  lemma JoinedDraws(db: Db, now: int, pool: Pool, k: Key)
    requires Joined(db, now, pool, k).Done?
    ensures Joined(db, now, pool, k).db.invites == db.invites
  {
  }

  lemma JoinDraws(db: Db, now: int, pool: Pool, d: nat, code: nat)
    requires JoinRoom(db, now, pool, d, code).Done?
    ensures JoinRoom(db, now, pool, d, code).db.invites == db.invites
  {
    if ActiveFault(db, now, Key(db.invites[code].room, d)).Some? {
      JoinedDraws(db, now, pool, Key(db.invites[code].room, d));
    }
  }

  lemma OwnerJoinDraws(db: Db, now: int, pool: Pool, k: Key, expected: nat)
    requires OwnerJoin(db, now, pool, k, expected).Done?
    ensures OwnerJoin(db, now, pool, k, expected).db.invites == db.invites
  {
    if ActiveFault(db, now, k).Some? {
      JoinedDraws(db, now, pool, k);
    }
  }

  lemma PlayingDraws(db: Db, pool: Pool, now: int, op: Op)
    requires Step(db, now, pool, op).Done? && Playing(op)
    ensures Step(db, now, pool, op).db.invites.Keys <= db.invites.Keys + Drawn(op)
  {
    match op
    case OpCreate(k, game, expected, code) => CreateDraws(db, now, pool, k, game, expected, code);
    case OpRoom(k, action, expected) => RoomActionDraws(db, now, k, action, expected);
    case OpJoin(device, code) => JoinDraws(db, now, pool, device, code);
    case OpOwnerJoin(k, expected) => OwnerJoinDraws(db, now, pool, k, expected);
    case _ =>
  }

  lemma UserActionDraws(db: Db, now: int, user: nat, action: AccountAction)
    requires UserAction(db, now, user, action).Done?
    ensures UserAction(db, now, user, action).db.invites.Keys <= db.invites.Keys
  {
  }

  lemma ExpellingDraws(db: Db, pool: Pool, now: int, op: Op)
    requires Step(db, now, pool, op).Done? && Expelling(op)
    ensures Step(db, now, pool, op).db.invites.Keys <= db.invites.Keys
  {
    match op
    case OpUser(user, account) => UserActionDraws(db, now, user, account);
    case _ =>
  }

  lemma OtherDraws(db: Db, pool: Pool, now: int, op: Op)
    requires Step(db, now, pool, op).Done? && !Playing(op) && !Expelling(op)
    ensures Step(db, now, pool, op).db.invites == db.invites
  {
  }

  /** Only creating a room and renewing its invitation bring codes into the table. */
  lemma WriteDraws(db: Db, pool: Pool, now: int, op: Op)
    ensures Write(db, now, pool, op).invites.Keys <= db.invites.Keys + Drawn(op)
  {
    if Step(db, now, pool, op).Done? {
      if Playing(op) {
        PlayingDraws(db, pool, now, op);
      } else if Expelling(op) {
        ExpellingDraws(db, pool, now, op);
      } else {
        OtherDraws(db, pool, now, op);
      }
    }
  }

  lemma {:induction false} CodeStaysGone(run: seq<Tx>, pool: Pool, i: nat, code: nat)
    requires i <= |run| && code !in After(run[..i], pool).invites
    requires forall j :: i <= j < |run| ==> code !in Drawn(run[j].op)
    ensures code !in After(run, pool).invites
  {
    if i == |run| {
      assert run[..i] == run;
    } else {
      var init, last := run[..|run| - 1], run[|run| - 1];
      assert init[..i] == run[..i];
      CodeStaysGone(init, pool, i, code);
      WriteDraws(After(init, pool), pool, last.now, last.op);
    }
  }

  /** An invitation that was replaced, revoked or swept, or whose room changed hands or was closed, is never shown
      again by the receipt that brought it, as long as no code is drawn twice. */
  lemma CodeRedactedForGood(run: seq<Tx>, pool: Pool, i: nat, d: nat, receipt: Receipt, now: int)
    requires !Exempt(Device(d), receipt) && RoomOf(receipt).Some? && CodeOf(receipt.data).Some?
    requires i <= |run| && CodeOf(receipt.data).value !in After(run[..i], pool).invites
    requires forall j :: i <= j < |run| ==> CodeOf(receipt.data).value !in Drawn(run[j].op)
    ensures VisibleReceipt(After(run, pool), now, Device(d), receipt) != Whole
  {
    CodeStaysGone(run, pool, i, CodeOf(receipt.data).value);
  }

  // ---------------------------------------------------------------- whoever is shown a code

  /** Request e of the device of k was answered with invitation `code` to room k.room. */
  predicate Answers<D>(e: ReceiptRuns.Event<D>, k: Key, code: nat)
    requires e.Mutation? && e.outcome.Done?
  {
    && e.outcome.status < 400 && e.request.subject == Device(k.device)
    && e.outcome.data.Fields? && CodeOf(e.outcome.data) == Some(code)
    && (if e.request.path.Some? then e.request.path else e.outcome.data.room) == Some(k.room)
  }

  /** Request e carried out the room operation op, which drew the code that e was answered with. */
  ghost predicate Issues<D>(db: Db, pool: Pool, e: ReceiptRuns.Event<D>, op: Op)
    requires e.Mutation? && e.outcome.Done?
  {
    && Step(db, e.now, pool, op) == Done(e.outcome.db.rooms)
    && ((op.OpCreate? && Answers(e, op.k, op.code))
        || (op.OpRoom? && op.action.NewInvite? && Answers(e, op.k, op.action.code)))
  }

  predicate ShowsCode<D>(e: ReceiptRuns.Event<D>) {
    e.Mutation? && e.request.subject.Device? && e.outcome.Done? && CodeOf(e.outcome.data).Some?
  }

  /** A device is answered with a code only by the two room operations that draw one. */
  ghost predicate Honest<D>(db: Db, pool: Pool, e: ReceiptRuns.Event<D>) {
    ShowsCode(e) ==> exists op :: Issues(db, pool, e, op)
  }

  ghost predicate AllHonest<D>(db: Receipts.Tables<D>, pool: Pool, es: seq<ReceiptRuns.Event<D>>) {
    forall m :: 0 <= m < |es| ==> Honest(ReceiptRuns.After(db, es[..m]).db.rooms, pool, es[m])
  }

  /** The room is the device's and open, and the code lets into it. */
  predicate CodeIsTheirs(db: Db, now: int, d: nat, receipt: Receipt)
    requires CodeOf(receipt.data).Some?
  {
    && RoomOf(receipt).Some?
    && Owns(db, now, d, RoomOf(receipt).value)
    && Invites(db, now, RoomOf(receipt).value, CodeOf(receipt.data).value)
  }

  lemma CreateIsTheirs(db: Db, pool: Pool, now: int, k: Key, game: nat, expected: nat, code: nat)
    requires CreateRoom(db, now, pool, k, game, expected, code).Done?
    ensures var x := CreateRoom(db, now, pool, k, game, expected, code).db;
            Owns(x, now, k.device, k.room) && Invites(x, now, k.room, code)
  {
    RoomEffects.CreatedRoom(db, pool, now, k, game, expected, code);
    CreatedOpen(db, pool, now, k, game, expected, code);
  }

  lemma CreatedOpen(db: Db, pool: Pool, now: int, k: Key, game: nat, expected: nat, code: nat)
    requires CreateRoom(db, now, pool, k, game, expected, code).Done?
    ensures var x := CreateRoom(db, now, pool, k, game, expected, code).db;
            k.room in x.rooms && !x.rooms[k.room].closed && x.devices == db.devices
  {
    var room := Room(db.devices[k.device].user, game, CAPACITY, 1, now + ROOM_LIFE, false);
    var a := db.(rooms := db.rooms[k.room := room]);
    var b := AddMember(a, now, pool, k).db;
    RoomEffects.SameRoomsAfterStale(a, now, k.device, k.room);
    assert !b.rooms[k.room].closed && b.devices == db.devices;
    RoomEffects.OneInvitation(b, now, k.room, code);
  }

  lemma InviteIsTheirs(db: Db, now: int, k: Key, code: nat, expected: nat)
    requires RoomAction(db, now, k, NewInvite(code), expected).Done?
    ensures var x := RoomAction(db, now, k, NewInvite(code), expected).db;
            Owns(x, now, k.device, k.room) && Invites(x, now, k.room, code)
  {
    RoomEffects.OneInvitation(db, now, k.room, code);
  }

  lemma IssuedIsTheirs<D>(db: Db, pool: Pool, e: ReceiptRuns.Event<D>, op: Op, k: Key, code: nat)
    requires e.Mutation? && e.outcome.Done? && Issues(db, pool, e, op)
    requires (k, code) == if op.OpCreate? then (op.k, op.code) else (op.k, op.action.code)
    ensures Owns(e.outcome.db.rooms, e.now, k.device, k.room) && Invites(e.outcome.db.rooms, e.now, k.room, code)
  {
    if op.OpCreate? {
      CreateIsTheirs(db, pool, e.now, k, op.game, op.expected, code);
    } else {
      InviteIsTheirs(db, e.now, k, code, op.expected);
    }
  }

  /** A receipt that shows a code names the room it is for, and is no error. */
  predicate Proper(receipt: Receipt) {
    CodeOf(receipt.data).Some? ==> receipt.status < 400 && RoomOf(receipt).Some?
  }

  predicate RowsProper(rows: map<Receipts.At, Receipts.Row>) {
    forall at <- rows :: at.0.Device? ==> Proper(rows[at].receipt)
  }

  lemma NextProper<D>(s: Receipts.Store<D>, pool: Pool, e: ReceiptRuns.Event<D>)
    requires RowsProper(s.rows) && Honest(s.db.rooms, pool, e)
    ensures RowsProper(ReceiptRuns.Next(s, e).0.rows)
  {
  }

  lemma {:induction false} AlwaysProper<D>(db: Receipts.Tables<D>, pool: Pool, es: seq<ReceiptRuns.Event<D>>)
    requires AllHonest(db, pool, es)
    ensures RowsProper(ReceiptRuns.After(db, es).rows)
  {
    if es != [] {
      var init, last := es[..|es| - 1], |es| - 1;
      forall m | 0 <= m < last
        ensures Honest(ReceiptRuns.After(db, init[..m]).db.rooms, pool, init[m])
      {
        assert init[..m] == es[..m];
      }
      AlwaysProper(db, pool, init);
      NextProper(ReceiptRuns.After(db, init), pool, es[last]);
    }
  }

  /** What a reply tells. */
  function Told(reply: Receipts.Reply): Option<Receipt> {
    if reply.Refused? then None else Some(reply.receipt)
  }

  lemma FreshIsTheirs<D>(s: Receipts.Store<D>, pool: Pool, e: ReceiptRuns.Event<D>)
    requires e.Mutation? && e.request.subject.Device? && Honest(s.db.rooms, pool, e)
    requires ReceiptRuns.Next(s, e).1.value.Fresh? && CodeOf(ReceiptRuns.Next(s, e).1.value.receipt.data).Some?
    ensures CodeIsTheirs(ReceiptRuns.Next(s, e).0.db.rooms, e.now, e.request.subject.id,
            ReceiptRuns.Next(s, e).1.value.receipt)
  {
    assert ShowsCode(e);
    var op :| Issues(s.db.rooms, pool, e, op);
    IssuedIsTheirs(s.db.rooms, pool, e, op, op.k, if op.OpCreate? then op.code else op.action.code);
  }

  lemma ShownIsTheirs<D>(db: Receipts.Tables<D>, now: int, d: nat, receipt: Receipt)
    requires Proper(receipt) && Told(Receipts.Shown(db, now, Device(d), receipt)).Some?
    requires CodeOf(Told(Receipts.Shown(db, now, Device(d), receipt)).value.data).Some?
    ensures CodeIsTheirs(db.rooms, now, d, Told(Receipts.Shown(db, now, Device(d), receipt)).value)
  {
  }

  /** Invitations stay with the owner: over any run of requests, copies, sweeps and other transactions, a device
      that is told an invitation code, whether by the request that drew it or by a copy, owns the room at that
      moment, the room is open, and the code lets into it. */
  lemma CodesAreTheOwners<D>(db: Receipts.Tables<D>, pool: Pool, es: seq<ReceiptRuns.Event<D>>, j: nat)
    requires AllHonest(db, pool, es) && j < |es| && es[j].Mutation? && es[j].request.subject.Device?
    requires var told := Told(ReceiptRuns.ReplyAt(db, es, j).value); told.Some? && CodeOf(told.value.data).Some?
    ensures CodeIsTheirs(ReceiptRuns.After(db, es[..j + 1]).db.rooms, es[j].now, es[j].request.subject.id,
                         Told(ReceiptRuns.ReplyAt(db, es, j).value).value)
  {
    var s, e := ReceiptRuns.After(db, es[..j]), es[j];
    ReceiptRuns.Unfold(db, es, j);
    forall m | 0 <= m < j
      ensures Honest(ReceiptRuns.After(db, es[..j][..m]).db.rooms, pool, es[..j][m])
    {
      assert es[..j][..m] == es[..m];
    }
    AlwaysProper(db, pool, es[..j]);
    if ReceiptRuns.ReplyAt(db, es, j).value.Fresh? {
      FreshIsTheirs(s, pool, e);
    } else {
      var at := (e.request.subject, e.request.key);
      ShownIsTheirs(s.db, e.now, e.request.subject.id, s.rows[at].receipt);
    }
  }

  /** The same when a device asks for the result under a key. */
  lemma AskedCodesAreTheOwners<D>(db: Receipts.Tables<D>, pool: Pool, es: seq<ReceiptRuns.Event<D>>, d: nat,
      key: string, now: int)
    requires AllHonest(db, pool, es)
    requires var told := Told(Receipts.Ask(ReceiptRuns.After(db, es), Device(d), key, now));
             told.Some? && CodeOf(told.value.data).Some?
    ensures CodeIsTheirs(ReceiptRuns.After(db, es).db.rooms, now, d,
                         Told(Receipts.Ask(ReceiptRuns.After(db, es), Device(d), key, now)).value)
  {
    AlwaysProper(db, pool, es);
    var s := ReceiptRuns.After(db, es);
    ShownIsTheirs(s.db, now, d, s.rows[(Device(d), key)].receipt);
  }
}
