/** What no transaction ever takes back: bans, closures, revocations, and who a device belongs to. */
module RoomHistory {
  import opened Bytes
  import opened Rooms
  import opened RoomSafety
  import opened RoomRuns

  /** Rooms stay, and stay closed; their capacity and expiry are fixed. */
  predicate RoomsLast(a: map<nat, Room>, b: map<nat, Room>) {
    forall r <- a :: r in b && (a[r].closed ==> b[r].closed) && b[r].capacity == a[r].capacity
      && b[r].expires == a[r].expires
  }

  predicate DevicesLast(a: map<nat, Grant>, b: map<nat, Grant>) {
    forall d <- a :: d in b && b[d].user == a[d].user && (a[d].revoked ==> b[d].revoked)
  }

  /** A certificate stays, and stays revoked, until it has expired. */
  predicate CertsLast(a: map<Cert, bool>, b: map<Cert, bool>, now: int) {
    forall c <- a :: c.expires < now || (c in b && (a[c] ==> b[c]))
  }

  predicate Lasting(a: Db, b: Db, now: int) {
    a.bans <= b.bans && RoomsLast(a.rooms, b.rooms) && DevicesLast(a.devices, b.devices)
      && CertsLast(a.certs, b.certs, now)
  }

  lemma Later(a: Db, b: Db, c: Db, now: int)
    requires Lasting(a, b, now) && Lasting(b, c, now)
    ensures Lasting(a, c, now)
  {
  }

  // ---------------------------------------------------------------- the pieces

  lemma RevokeLasts(db: Db, now: int, ts: set<Target>)
    ensures Lasting(db, Revoke(db, now, ts), now)
  {
  }

  lemma EndingLasts(db: Db, now: int, ts: set<Target>)
    ensures Lasting(db, BumpEach(Revoke(db, now, ts), ts), now)
  {
  }

  /** Whatever else changes: bans may grow, and the other three tables are as they were. */
  lemma SameLasts(a: Db, b: Db, now: int)
    requires a.bans <= b.bans && b.rooms == a.rooms && b.devices == a.devices && b.certs == a.certs
    ensures Lasting(a, b, now)
  {
  }

  lemma RaisedLasts(rooms: map<nat, Room>, r: nat)
    ensures RoomsLast(rooms, Raised(rooms, r))
  {
  }

  lemma BumpLasts(db: Db, r: nat, now: int)
    ensures Lasting(db, Bump(db, r), now)
  {
    RaisedLasts(db.rooms, r);
  }

  lemma AddLasts(db: Db, now: int, pool: Pool, k: Key)
    requires AddMember(db, now, pool, k).Done?
    ensures Lasting(db, AddMember(db, now, pool, k).db, now)
  {
    var x := EndStale(db, now, k.device);
    EndingLasts(db, now, StaleTargets(db, now, k.device));
    SameLasts(x, AddMember(db, now, pool, k).db, now);
    Later(db, x, AddMember(db, now, pool, k).db, now);
  }

  lemma JoinedLasts(db: Db, now: int, pool: Pool, k: Key)
    requires Joined(db, now, pool, k).Done?
    ensures Lasting(db, Joined(db, now, pool, k).db, now)
  {
    var x := AddMember(db, now, pool, k).db;
    AddLasts(db, now, pool, k);
    BumpLasts(x, k.room, now);
    Later(db, x, Bump(x, k.room), now);
  }

  lemma InvitedLasts(db: Db, now: int, r: nat, code: nat)
    requires Invited(db, now, r, code).Done?
    ensures Lasting(db, Invited(db, now, r, code).db, now)
  {
  }

  lemma CreatedLasts(db: Db, now: int, pool: Pool, k: Key, game: nat, expected: nat, code: nat)
    requires CreateRoom(db, now, pool, k, game, expected, code).Done?
    ensures Lasting(db, CreateRoom(db, now, pool, k, game, expected, code).db, now)
  {
    var room := Room(db.devices[k.device].user, game, CAPACITY, 1, now + ROOM_LIFE, false);
    var a := db.(rooms := db.rooms[k.room := room]);
    var b := AddMember(a, now, pool, k).db;
    var c := Invited(b, now, k.room, code).db;
    AddLasts(a, now, pool, k);
    InvitedLasts(b, now, k.room, code);
    BumpLasts(c, k.room, now);
    Later(b, c, Bump(c, k.room), now);
    Later(a, b, Bump(c, k.room), now);
    Later(db, a, Bump(c, k.room), now);
  }

  lemma HeartbeatLasts(db: Db, now: int, k: Key, version: bool, mac: MacText)
    requires Heartbeat(db, now, k, version, mac).Done?
    ensures Lasting(db, Heartbeat(db, now, k, version, mac).db, now)
  {
  }

  lemma ShutLasts(db: Db, now: int, r: nat)
    ensures Lasting(db, Shut(db, now, r), now)
  {
    RevokeLasts(db, now, {All(r)});
    var x := DropInvites(Close(Revoke(db, now, {All(r)}), {r}), {r});
    assert Lasting(Revoke(db, now, {All(r)}), x, now);
    Later(db, Revoke(db, now, {All(r)}), x, now);
    BumpLasts(x, r, now);
    Later(db, x, Bump(x, r), now);
  }

  lemma KickLasts(db: Db, now: int, target: Key)
    ensures Lasting(db, Bump(Ban(Revoke(db, now, {One(target.room, target.device)}), target), target.room), now)
  {
    var x := Revoke(db, now, {One(target.room, target.device)});
    RevokeLasts(db, now, {One(target.room, target.device)});
    SameLasts(x, Ban(x, target), now);
    BumpLasts(Ban(x, target), target.room, now);
    Later(db, x, Ban(x, target), now);
    Later(db, Ban(x, target), Bump(Ban(x, target), target.room), now);
  }

  lemma LeaveLasts(db: Db, now: int, k: Key)
    requires Leave(db, now, k).Done?
    ensures Lasting(db, Leave(db, now, k).db, now)
  {
    var x := Revoke(db, now, {One(k.room, k.device)});
    RevokeLasts(db, now, {One(k.room, k.device)});
    BumpLasts(x, k.room, now);
    Later(db, x, Bump(x, k.room), now);
  }

  lemma ActedLasts(db: Db, now: int, k: Key, action: Action)
    requires k.device in db.devices && k.room in db.rooms && Acted(db, now, k, action).Done?
    ensures Lasting(db, Acted(db, now, k, action).db, now)
  {
    match action
    case Kick(device) => KickLasts(db, now, Key(k.room, device));
    case Transfer(device) =>
    case CloseRoom => ShutLasts(db, now, k.room);
    case NewInvite(code) => InvitedLasts(db, now, k.room, code);
    case RevokeInvite =>
      BumpLasts(DropInvites(db, {k.room}), k.room, now);
  }

  lemma CutLasts(db: Db, now: int, user: nat, device: Option<nat>, closeOwned: bool, rs: set<nat>)
    ensures Lasting(db, CutIn(db, now, user, device, closeOwned, rs), now)
  {
    RevokeLasts(db, now, Cut(db, user, device, closeOwned, rs));
  }

  lemma GrantsCutLasts(db: Db, now: int, user: nat, device: Option<nat>)
    ensures Lasting(db, CutOff(RevokeGrants(db, user, device), now, user, device, false), now)
  {
    var x := RevokeGrants(db, user, device);
    assert Lasting(db, x, now);
    CutLasts(x, now, user, device, false, Visited(x, user, device, false));
    Later(db, x, CutOff(x, now, user, device, false), now);
  }

  lemma UserActionLasts(db: Db, now: int, user: nat, action: AccountAction)
    requires UserAction(db, now, user, action).Done?
    ensures Lasting(db, UserAction(db, now, user, action).db, now)
  {
    match action
    case Enable => SameLasts(db, SetStanding(db, user, Active), now);
    case Disable => SameLasts(db, SetStanding(db, user, Disabled), now);
    case Delete =>
      var x := SetStanding(db, user, Deleted);
      SameLasts(db, x, now);
      CutLasts(x, now, user, None, true, Visited(x, user, None, true));
      Later(db, x, CutOff(x, now, user, None, true), now);
    case LogoutAll => GrantsCutLasts(db, now, user, None);
    case RevokeOne(d) => GrantsCutLasts(db, now, user, Some(d));
  }

  lemma SweepLasts(db: Db, now: int, required: set<nat>)
    ensures Lasting(db, Sweep(db, now, required), now)
  {
    var x := EnforceUpdates(db, now, required);
    var y := RunOut(x, now, ExpiredRooms(x, now));
    EndingLasts(db, now, OutdatedTargets(db.members, required));
    RevokeLasts(x, now, Marks(ExpiredRooms(x, now)));
    assert Lasting(Revoke(x, now, Marks(ExpiredRooms(x, now))), y, now);
    Later(x, Revoke(x, now, Marks(ExpiredRooms(x, now))), y, now);
    assert Lasting(y, Forget(y, now), now);
    Later(db, x, y, now);
    Later(db, y, Forget(y, now), now);
  }

  lemma LeaseLasts(db: Db, now: int, k: Key, s: Signing)
    requires LeaseRoom(db, now, k, s).Done?
    ensures Lasting(db, LeaseRoom(db, now, k, s).db, now)
  {
  }

  lemma NodeLeaseLasts(db: Db, now: int, d: nat, serving: bool, s: Signing)
    requires LeaseNode(db, d, serving, s).Done?
    ensures Lasting(db, LeaseNode(db, d, serving, s).db, now)
  {
  }

  lemma EnrollLasts(db: Db, now: int, pool: Pool, d: nat)
    requires Enroll(db, now, pool, d).Done?
    ensures Lasting(db, Enroll(db, now, pool, d).db, now)
  {
    SameLasts(db, Enroll(db, now, pool, d).db, now);
  }

  lemma RevokeNodeLasts(db: Db, now: int, d: nat, permanent: bool)
    ensures Lasting(db, RevokeNode(db, now, d, permanent), now)
  {
    assert CertsLast(db.certs, RevokeDeviceCerts(db.certs, d), now);
  }

  // ---------------------------------------------------------------- every transaction, every run

  lemma PlayingLasts(db: Db, pool: Pool, now: int, op: Op)
    requires Step(db, now, pool, op).Done? && Playing(op)
    ensures Lasting(db, Step(db, now, pool, op).db, now)
  {
    SameLasts(db, db, now);
    match op
    case OpCreate(k, game, expected, code) => CreatedLasts(db, now, pool, k, game, expected, code);
    case OpJoin(device, code) =>
      if ActiveFault(db, now, Key(db.invites[code].room, device)).Some? {
        JoinedLasts(db, now, pool, Key(db.invites[code].room, device));
      }
    case OpOwnerJoin(k, expected) =>
      if ActiveFault(db, now, k).Some? {
        JoinedLasts(db, now, pool, k);
      }
    case OpHeartbeat(k, version, mac) => HeartbeatLasts(db, now, k, version, mac);
    case OpLeave(k) => LeaveLasts(db, now, k);
    case OpRoom(k, action, expected) =>
      if !(action.CloseRoom? && db.rooms[k.room].closed) {
        ActedLasts(db, now, k, action);
      }
    case OpAdminRoom(room, kicked) =>
      match kicked {
        case None => ShutLasts(db, now, room);
        case Some(d) => KickLasts(db, now, Key(room, d));
      }
  }

  lemma TakeoverLasts(db: Db, now: int, d: nat, seen: Key, expected: nat)
    requires Takeover(db, now, d, seen, expected).Done?
    ensures Lasting(db, Takeover(db, now, d, seen, expected).db, now)
  {
    EndingLasts(db, now, ElsewhereTargets(db, db.devices[d].user, d));
  }

  lemma RevokedLasts(db: Db, now: int, d: nat, target: nat)
    requires RevokeDevice(db, now, d, target).Done?
    ensures Lasting(db, RevokeDevice(db, now, d, target).db, now)
  {
    SameLasts(db, db, now);
    GrantsCutLasts(db, now, db.devices[d].user, Some(target));
  }

  lemma LogoutLasts(db: Db, now: int, d: nat)
    requires Logout(db, now, d).Done?
    ensures Lasting(db, Logout(db, now, d).db, now)
  {
    GrantsCutLasts(db, now, db.devices[d].user, Some(d));
  }

  lemma ExpellingLasts(db: Db, pool: Pool, now: int, op: Op)
    requires Step(db, now, pool, op).Done? && Expelling(op)
    ensures Lasting(db, Step(db, now, pool, op).db, now)
  {
    match op
    case OpTakeover(device, seen, expected) => TakeoverLasts(db, now, device, seen, expected);
    case OpRevokeDevice(device, target) => RevokedLasts(db, now, device, target);
    case OpLogout(device) => LogoutLasts(db, now, device);
    case OpUser(user, account) => UserActionLasts(db, now, user, account);
    case OpSweep(required) => SweepLasts(db, now, required);
  }

  lemma OtherLasts(db: Db, pool: Pool, now: int, op: Op)
    requires Step(db, now, pool, op).Done? && !Playing(op) && !Expelling(op)
    ensures Lasting(db, Step(db, now, pool, op).db, now)
  {
    match op
    case OpLease(k, signing) => LeaseLasts(db, now, k, signing);
    case OpNodeLease(device, serving, signing) => NodeLeaseLasts(db, now, device, serving, signing);
    case OpEnroll(device) => EnrollLasts(db, now, pool, device);
    case OpRevokeNode(device, permanent) => RevokeNodeLasts(db, now, device, permanent);
    case OpRegister(device, user, registered, expires) =>
    case OpExtend(device, until) =>
    case OpGame(game, row) =>
  }

  lemma WriteLasts(db: Db, pool: Pool, now: int, op: Op)
    ensures Lasting(db, Write(db, now, pool, op), now)
  {
    if Step(db, now, pool, op).Fail? {
      SameLasts(db, db, now);
    } else if Playing(op) {
      PlayingLasts(db, pool, now, op);
    } else if Expelling(op) {
      ExpellingLasts(db, pool, now, op);
    } else {
      OtherLasts(db, pool, now, op);
    }
  }

  lemma {:induction false} BansLast(run: seq<Tx>, pool: Pool, i: nat)
    requires i <= |run|
    ensures After(run[..i], pool).bans <= After(run, pool).bans
    ensures RoomsLast(After(run[..i], pool).rooms, After(run, pool).rooms)
  {
    if i == |run| {
      assert run[..i] == run;
    } else {
      var init, last := run[..|run| - 1], run[|run| - 1];
      BansLast(init, pool, i);
      assert init[..i] == run[..i];
      WriteLasts(After(init, pool), pool, last.now, last.op);
    }
  }

  /** A user once banned from a room is never active there again, and a closed room never holds anyone again. */
  lemma OutForGood(run: seq<Tx>, pool: Pool, i: nat, k: Key)
    requires i <= |run| && k in After(run, pool).members
    requires (k.room, After(run, pool).members[k].user) in After(run[..i], pool).bans
             || (k.room in After(run[..i], pool).rooms && After(run[..i], pool).rooms[k.room].closed)
    ensures !After(run, pool).members[k].active
  {
    BansLast(run, pool, i);
    AlwaysSound(run, pool);
  }

  // ---------------------------------------------------------------- revocation is immediate

  /** A certificate of this room membership is no longer good. */
  predicate NoCertFor(db: Db, k: Key) {
    forall c <- db.certs :: c.room == Some(k.room) && c.device == k.device ==> db.certs[c]
  }

  /** In a sound state, a membership that is not active has no unrevoked certificate. */
  lemma InactiveHasNone(db: Db, pool: Pool, k: Key)
    requires Sound(db, pool) && (k in db.members ==> !db.members[k].active)
    ensures NoCertFor(db, k)
  {
    forall c | c in db.certs && c.room == Some(k.room) && c.device == k.device
      ensures db.certs[c]
    {
    }
  }

  /** Cutting a user off leaves none of the chosen memberships active, and with deletion no owned room open. */
  lemma CutLeavesNothing(db: Db, pool: Pool, now: int, user: nat, device: Option<nat>, closeOwned: bool)
    requires Sound(db, pool)
    ensures var x := CutOff(db, now, user, device, closeOwned);
            && (forall k <- x.members :: x.members[k].user == user && Picked(device, k.device) ==>
               !x.members[k].active && NoCertFor(x, k))
            && (closeOwned ==> forall r <- x.rooms :: x.rooms[r].owner == user ==> x.rooms[r].closed)
  {
    var rs := Visited(db, user, device, closeOwned);
    var ts, x := Cut(db, user, device, closeOwned, rs), CutOff(db, now, user, device, closeOwned);
    CutInSound(db, pool, now, user, device, closeOwned, rs);
    forall k | k in x.members && x.members[k].user == user && Picked(device, k.device)
      ensures !x.members[k].active && NoCertFor(x, k)
    {
      if db.members[k].active {
        CutHits(db, user, device, closeOwned, k);
      }
      InactiveHasNone(x, pool, k);
    }
  }

  lemma CutHits(db: Db, user: nat, device: Option<nat>, closeOwned: bool, k: Key)
    requires Connected(db, user, device, k)
    ensures Hits(Cut(db, user, device, closeOwned, Visited(db, user, device, closeOwned)), k)
  {
    var rs := Visited(db, user, device, closeOwned);
    assert k.room in rs;
    if Ends(db, user, closeOwned, k.room) {
      assert k.room in Ending(db, user, closeOwned, rs);
      assert All(k.room) in Cut(db, user, device, closeOwned, rs);
    } else {
      assert One(k.room, k.device) in Cut(db, user, device, closeOwned, rs);
    }
  }

  /** Nobody of this user is active on another device. */
  predicate OnlyOn(db: Db, user: nat, d: nat) {
    forall k <- db.members :: db.members[k].active && db.members[k].user == user ==> k.device == d
  }

  lemma TakeoverClears(db: Db, now: int, d: nat, user: nat)
    ensures OnlyOn(BumpEach(Revoke(db, now, ElsewhereTargets(db, user, d)), ElsewhereTargets(db, user, d)), user, d)
  {
    var ts := ElsewhereTargets(db, user, d);
    forall k | k in db.members && Deactivate(db.members, ts)[k].active && db.members[k].user == user
      ensures k.device == d
    {
      assert Elsewhere(db, user, d, k) ==> One(k.room, k.device) in ts;
    }
  }

  lemma OnlyOnIsAvailable(db: Db, now: int, d: nat)
    requires d in db.devices && OnlyOn(db, db.devices[d].user, d)
    ensures Available(db, now, d) != Fail(AccountInUse)
  {
    var y := EndStale(db, now, d);
    forall k | Occupies(y, d, k)
      ensures HereAlready(y, d)
    {
      assert db.members[k].active && k.device == d;
    }
  }

  /** After a takeover the user is active on the taking device or nowhere, so joining is not refused for it. */
  lemma TakeoverLeavesNothing(db: Db, now: int, d: nat, seen: Key, expected: nat)
    requires Takeover(db, now, d, seen, expected).Done?
    ensures var x := Takeover(db, now, d, seen, expected).db;
            d in x.devices && OnlyOn(x, x.devices[d].user, d) && Available(x, now, d) != Fail(AccountInUse)
  {
    TakeoverClears(db, now, d, db.devices[d].user);
    OnlyOnIsAvailable(Takeover(db, now, d, seen, expected).db, now, d);
  }

  /** After a sweep nobody is active in an expired room or on an outdated client. */
  lemma SweepLeavesNothing(db: Db, pool: Pool, now: int, required: set<nat>)
    requires Sound(db, pool)
    ensures var x := Sweep(db, now, required);
            forall k <- x.members :: x.members[k].active ==>
              k.device !in required && k.room in x.rooms && x.rooms[k.room].expires > now
  {
    var x, y := EnforceUpdates(db, now, required), Sweep(db, now, required);
    var rs := ExpiredRooms(x, now);
    EndAllSound(db, pool, now, OutdatedTargets(db.members, required));
    forall k | k in y.members && y.members[k].active
      ensures k.device !in required && k.room in y.rooms && y.rooms[k.room].expires > now
    {
      assert Outdated(db.members, required, k) ==> One(k.room, k.device) in OutdatedTargets(db.members, required);
      assert k.room in rs ==> All(k.room) in Marks(rs);
      assert !x.rooms[k.room].closed;
    }
  }
}
