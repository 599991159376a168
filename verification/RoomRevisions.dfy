/** Room revisions: whatever members can see of a room changes only together with its revision. */
module RoomRevisions {
  import opened Bytes
  import opened Rooms
  import opened RoomRuns

  datatype Presence = Presence(user: nat, ip: int, mac: Option<seq<byte>>)

  function Roster(members: map<Key, Member>, r: nat): map<Key, Presence> {
    map k | k in members && k.room == r && members[k].active :: Presence(members[k].user, members[k].ip, members[k].mac)
  }

  /** Room r has moved on, or it is the room it was. */
  predicate MovedOrSame(before: Db, after: Db, r: nat)
    requires r in before.rooms
  {
    && r in after.rooms && after.rooms[r].revision >= before.rooms[r].revision
    && (after.rooms[r].revision == before.rooms[r].revision
        ==> after.rooms[r] == before.rooms[r] && Roster(after.members, r) == Roster(before.members, r))
  }

  predicate Numbered(before: Db, after: Db) {
    forall r <- before.rooms :: MovedOrSame(before, after, r)
  }

  lemma Onwards(a: Db, b: Db, c: Db)
    requires Numbered(a, b) && Numbered(b, c)
    ensures Numbered(a, c)
  {
    forall r | r in a.rooms
      ensures MovedOrSame(a, c, r)
    {
      assert MovedOrSame(a, b, r) && MovedOrSame(b, c, r);
    }
  }

  /** Rooms and memberships untouched. */
  lemma SameIsNumbered(before: Db, after: Db)
    requires after.rooms == before.rooms && after.members == before.members
    ensures Numbered(before, after)
  {
  }

  // ---------------------------------------------------------------- steps that touch memberships

  predicate Spared(ts: set<Target>, r: nat) {
    forall t <- ts :: t.room != r
  }

  lemma SparedRoster(members: map<Key, Member>, ts: set<Target>, r: nat)
    requires Spared(ts, r)
    ensures Roster(Deactivate(members, ts), r) == Roster(members, r)
  {
    forall k | k in members && k.room == r
      ensures !Hits(ts, k)
    {
    }
  }

  /** Revoking targets, where every room that holds one gets a new number and the others stay. */
  lemma RevokingIsNumbered(before: Db, after: Db, ts: set<Target>)
    requires after.members == Deactivate(before.members, ts)
    requires forall r <- before.rooms :: r in after.rooms
               && (after.rooms[r].revision > before.rooms[r].revision
                  || (after.rooms[r] == before.rooms[r] && Spared(ts, r)))
    ensures Numbered(before, after)
  {
    forall r | r in before.rooms
      ensures MovedOrSame(before, after, r)
    {
      if Spared(ts, r) {
        SparedRoster(before.members, ts, r);
      }
    }
  }

  lemma EndingIsNumbered(db: Db, now: int, ts: set<Target>)
    ensures Numbered(db, BumpEach(Revoke(db, now, ts), ts))
  {
    var x := BumpEach(Revoke(db, now, ts), ts);
    forall r | r in db.rooms
      ensures r in x.rooms
              && (x.rooms[r].revision > db.rooms[r].revision || (x.rooms[r] == db.rooms[r] && Spared(ts, r)))
    {
      if t :| t in ts && t.room == r {
        assert t in At(ts, r);
      } else {
        assert At(ts, r) == {};
      }
    }
    RevokingIsNumbered(db, x, ts);
  }

  /** Rewriting one membership row, and its room's number. */
  lemma RowIsNumbered(db: Db, k: Key, row: Member, after: Db)
    requires after.members == db.members[k := row]
    requires forall r <- db.rooms :: r in after.rooms && (r != k.room ==> after.rooms[r] == db.rooms[r])
    requires k.room in db.rooms ==> after.rooms[k.room].revision > db.rooms[k.room].revision
    ensures Numbered(db, after)
  {
    forall r | r in db.rooms
      ensures MovedOrSame(db, after, r)
    {
      if r != k.room {
        assert Roster(after.members, r) == Roster(db.members, r);
      }
    }
  }

  lemma SeenIsNumbered(db: Db, now: int, k: Key)
    requires k in db.members
    ensures Numbered(db, Seen(db, now, k))
  {
    forall r | r in db.rooms
      ensures MovedOrSame(db, Seen(db, now, k), r)
    {
      assert Roster(Seen(db, now, k).members, r) == Roster(db.members, r);
    }
  }

  lemma JoinedIsNumbered(db: Db, now: int, pool: Pool, k: Key)
    requires Joined(db, now, pool, k).Done?
    ensures Numbered(db, Joined(db, now, pool, k).db)
  {
    var x := EndStale(db, now, k.device);
    EndingIsNumbered(db, now, StaleTargets(db, now, k.device));
    var y := Joined(db, now, pool, k).db;
    RowIsNumbered(x, k, y.members[k], y);
    Onwards(db, x, y);
  }

  lemma InvitedIsNumbered(db: Db, now: int, r: nat, code: nat)
    requires Invited(db, now, r, code).Done?
    ensures Numbered(db, Invited(db, now, r, code).db)
    ensures r in Invited(db, now, r, code).db.rooms
            && Invited(db, now, r, code).db.rooms[r] == db.rooms[r].(revision := db.rooms[r].revision + 1)
    ensures Invited(db, now, r, code).db.members == db.members
  {
  }

  lemma BumpIsNumbered(db: Db, r: nat)
    ensures Numbered(db, Bump(db, r))
  {
  }

  /** A room that is new to the tables changes none of the old ones. */
  lemma CreatedIsNumbered(db: Db, now: int, pool: Pool, k: Key, game: nat, expected: nat, code: nat)
    requires CreateRoom(db, now, pool, k, game, expected, code).Done?
    ensures Numbered(db, CreateRoom(db, now, pool, k, game, expected, code).db)
  {
    var room := Room(db.devices[k.device].user, game, CAPACITY, 1, now + ROOM_LIFE, false);
    var a := db.(rooms := db.rooms[k.room := room]);
    var b := AddMember(a, now, pool, k).db;
    var c := Invited(b, now, k.room, code).db;
    assert Numbered(db, a);
    JoinedIsNumbered(a, now, pool, k);
    assert Numbered(a, Bump(b, k.room));
    forall r | r in db.rooms
      ensures MovedOrSame(db, Bump(c, k.room), r)
    {
      assert MovedOrSame(a, Bump(b, k.room), r);
      InvitedIsNumbered(b, now, k.room, code);
      assert Bump(c, k.room).rooms[r] == Bump(b, k.room).rooms[r];
    }
  }

  // ---------------------------------------------------------------- actions on a room

  lemma MacIsNumbered(db: Db, now: int, k: Key, version: bool, mac: MacText)
    requires Heartbeat(db, now, k, version, mac).Done?
    ensures Numbered(db, Heartbeat(db, now, k, version, mac).db)
  {
    if mac.Parsed? && db.members[k].mac != Some(mac.octets) {
      var x := SetMac(db, k, mac.octets);
      RowIsNumbered(db, k, x.members[k], x);
      SeenIsNumbered(x, now, k);
      Onwards(db, x, Seen(x, now, k));
    } else {
      SeenIsNumbered(db, now, k);
    }
  }

  lemma OneRoomIsNumbered(before: Db, after: Db, ts: set<Target>, r: nat)
    requires after.members == Deactivate(before.members, ts) && forall t <- ts :: t.room == r
    requires r in before.rooms && r in after.rooms && after.rooms[r].revision > before.rooms[r].revision
    requires forall o <- before.rooms :: o in after.rooms && (o != r ==> after.rooms[o] == before.rooms[o])
    ensures Numbered(before, after)
  {
    RevokingIsNumbered(before, after, ts);
  }

  lemma LeftIsNumbered(db: Db, now: int, k: Key)
    requires Leave(db, now, k).Done?
    ensures Numbered(db, Leave(db, now, k).db)
  {
    if SelfFault(db, now, k).None? {
      OneRoomIsNumbered(db, Leave(db, now, k).db, {One(k.room, k.device)}, k.room);
    }
  }

  lemma ShutIsNumbered(db: Db, now: int, r: nat)
    requires r in db.rooms
    ensures Numbered(db, Shut(db, now, r))
  {
    OneRoomIsNumbered(db, Shut(db, now, r), {All(r)}, r);
  }

  lemma KickIsNumbered(db: Db, now: int, target: Key)
    requires target.room in db.rooms
    ensures Numbered(db, Bump(Ban(Revoke(db, now, {One(target.room, target.device)}), target), target.room))
  {
    var ts := {One(target.room, target.device)};
    var banned := Ban(Revoke(db, now, ts), target);
    assert banned.members == Deactivate(db.members, ts) && banned.rooms == db.rooms;
    KickedIsNumbered(db, banned, ts, target.room);
  }

  lemma KickedIsNumbered(db: Db, banned: Db, ts: set<Target>, r: nat)
    requires banned.members == Deactivate(db.members, ts) && banned.rooms == db.rooms
    requires r in db.rooms && forall t <- ts :: t.room == r
    ensures Numbered(db, Bump(banned, r))
  {
    OneRoomIsNumbered(db, Bump(banned, r), ts, r);
  }

  lemma ActedIsNumbered(db: Db, now: int, k: Key, action: Action)
    requires k.device in db.devices && k.room in db.rooms && Acted(db, now, k, action).Done?
    ensures Numbered(db, Acted(db, now, k, action).db)
  {
    match action
    case Kick(device) => KickIsNumbered(db, now, Key(k.room, device));
    case Transfer(device) =>
    case CloseRoom => ShutIsNumbered(db, now, k.room);
    case NewInvite(code) => InvitedIsNumbered(db, now, k.room, code);
    case RevokeInvite =>
      BumpIsNumbered(DropInvites(db, {k.room}), k.room);
  }

  lemma RoomActionIsNumbered(db: Db, now: int, k: Key, action: Action, expected: nat)
    requires RoomAction(db, now, k, action, expected).Done?
    ensures Numbered(db, RoomAction(db, now, k, action, expected).db)
  {
    if !(action.CloseRoom? && db.rooms[k.room].closed) {
      ActedIsNumbered(db, now, k, action);
    }
  }

  lemma AdminIsNumbered(db: Db, now: int, r: nat, kicked: Option<nat>)
    requires AdminRoomAction(db, now, r, kicked).Done?
    ensures Numbered(db, AdminRoomAction(db, now, r, kicked).db)
  {
    match kicked
    case None => ShutIsNumbered(db, now, r);
    case Some(d) => KickIsNumbered(db, now, Key(r, d));
  }

  // ---------------------------------------------------------------- actions on accounts, and the sweep

  lemma MarkedOnce(rs: set<nat>, r: nat)
    ensures r in rs ==> |At(Marks(rs), r)| >= 1
    ensures r !in rs ==> At(Marks(rs), r) == {}
  {
    if r in rs {
      assert All(r) in At(Marks(rs), r);
    }
  }

  lemma CutIsNumbered(db: Db, now: int, user: nat, device: Option<nat>, closeOwned: bool, rs: set<nat>)
    ensures Numbered(db, CutIn(db, now, user, device, closeOwned, rs))
  {
    var ts, x := Cut(db, user, device, closeOwned, rs), CutIn(db, now, user, device, closeOwned, rs);
    forall r | r in db.rooms
      ensures r in x.rooms
              && (x.rooms[r].revision > db.rooms[r].revision || (x.rooms[r] == db.rooms[r] && Spared(ts, r)))
    {
      MarkedOnce(rs, r);
    }
    RevokingIsNumbered(db, x, ts);
  }

  lemma GrantsCutIsNumbered(db: Db, now: int, user: nat, device: Option<nat>)
    ensures Numbered(db, CutOff(RevokeGrants(db, user, device), now, user, device, false))
  {
    var x := RevokeGrants(db, user, device);
    SameIsNumbered(db, x);
    CutIsNumbered(x, now, user, device, false, Visited(x, user, device, false));
    Onwards(db, x, CutOff(x, now, user, device, false));
  }

  lemma UserActionIsNumbered(db: Db, now: int, user: nat, action: AccountAction)
    requires UserAction(db, now, user, action).Done?
    ensures Numbered(db, UserAction(db, now, user, action).db)
  {
    match action
    case Enable => SameIsNumbered(db, SetStanding(db, user, Active));
    case Disable => SameIsNumbered(db, SetStanding(db, user, Disabled));
    case Delete =>
      var x := SetStanding(db, user, Deleted);
      SameIsNumbered(db, x);
      CutIsNumbered(x, now, user, None, true, Visited(x, user, None, true));
      Onwards(db, x, CutOff(x, now, user, None, true));
    case LogoutAll => GrantsCutIsNumbered(db, now, user, None);
    case RevokeOne(d) => GrantsCutIsNumbered(db, now, user, Some(d));
  }

  lemma RunOutIsNumbered(db: Db, now: int, rs: set<nat>)
    ensures Numbered(db, RunOut(db, now, rs))
  {
    var x := RunOut(db, now, rs);
    forall r | r in db.rooms
      ensures r in x.rooms
              && (x.rooms[r].revision > db.rooms[r].revision || (x.rooms[r] == db.rooms[r] && Spared(Marks(rs), r)))
    {
      MarkedOnce(rs, r);
    }
    RevokingIsNumbered(db, x, Marks(rs));
  }

  lemma SweepIsNumbered(db: Db, now: int, required: set<nat>)
    ensures Numbered(db, Sweep(db, now, required))
  {
    var x := EnforceUpdates(db, now, required);
    var y := RunOut(x, now, ExpiredRooms(x, now));
    EndingIsNumbered(db, now, OutdatedTargets(db.members, required));
    RunOutIsNumbered(x, now, ExpiredRooms(x, now));
    Onwards(db, x, y);
    SameIsNumbered(y, Forget(y, now));
    Onwards(db, y, Forget(y, now));
  }

  lemma LeaseIsNumbered(db: Db, now: int, k: Key, s: Signing)
    requires LeaseRoom(db, now, k, s).Done?
    ensures Numbered(db, LeaseRoom(db, now, k, s).db)
  {
    SeenIsNumbered(db, now, k);
    SameIsNumbered(Seen(db, now, k), LeaseRoom(db, now, k, s).db);
    Onwards(db, Seen(db, now, k), LeaseRoom(db, now, k, s).db);
  }

  // ---------------------------------------------------------------- every transaction, every run

  lemma PlayingIsNumbered(db: Db, pool: Pool, now: int, op: Op)
    requires Step(db, now, pool, op).Done? && Playing(op)
    ensures Numbered(db, Step(db, now, pool, op).db)
  {
    match op
    case OpCreate(k, game, expected, code) => CreatedIsNumbered(db, now, pool, k, game, expected, code);
    case OpJoin(device, code) =>
      if ActiveFault(db, now, Key(db.invites[code].room, device)).Some? {
        JoinedIsNumbered(db, now, pool, Key(db.invites[code].room, device));
      }
    case OpOwnerJoin(k, expected) =>
      if ActiveFault(db, now, k).Some? {
        JoinedIsNumbered(db, now, pool, k);
      }
    case OpHeartbeat(k, version, mac) => MacIsNumbered(db, now, k, version, mac);
    case OpLeave(k) => LeftIsNumbered(db, now, k);
    case OpRoom(k, action, expected) => RoomActionIsNumbered(db, now, k, action, expected);
    case OpAdminRoom(room, kicked) => AdminIsNumbered(db, now, room, kicked);
  }

  lemma TakeoverIsNumbered(db: Db, now: int, d: nat, seen: Key, expected: nat)
    requires Takeover(db, now, d, seen, expected).Done?
    ensures Numbered(db, Takeover(db, now, d, seen, expected).db)
  {
    EndingIsNumbered(db, now, ElsewhereTargets(db, db.devices[d].user, d));
  }

  lemma RevokedIsNumbered(db: Db, now: int, d: nat, target: nat)
    requires RevokeDevice(db, now, d, target).Done?
    ensures Numbered(db, RevokeDevice(db, now, d, target).db)
  {
    if db.devices[target].revoked {
      SameIsNumbered(db, db);
    } else {
      GrantsCutIsNumbered(db, now, db.devices[d].user, Some(target));
    }
  }

  lemma LogoutIsNumbered(db: Db, now: int, d: nat)
    requires Logout(db, now, d).Done?
    ensures Numbered(db, Logout(db, now, d).db)
  {
    GrantsCutIsNumbered(db, now, db.devices[d].user, Some(d));
  }

  lemma AccountIsNumbered(db: Db, pool: Pool, now: int, op: Op)
    requires Step(db, now, pool, op).Done? && (op.OpRevokeDevice? || op.OpLogout? || op.OpUser?)
    ensures Numbered(db, Step(db, now, pool, op).db)
  {
    match op
    case OpRevokeDevice(device, target) => RevokedIsNumbered(db, now, device, target);
    case OpLogout(device) => LogoutIsNumbered(db, now, device);
    case OpUser(user, account) => UserActionIsNumbered(db, now, user, account);
  }

  lemma ExpellingIsNumbered(db: Db, pool: Pool, now: int, op: Op)
    requires Step(db, now, pool, op).Done? && Expelling(op)
    ensures Numbered(db, Step(db, now, pool, op).db)
  {
    match op
    case OpTakeover(device, seen, expected) => TakeoverIsNumbered(db, now, device, seen, expected);
    case OpSweep(required) => SweepIsNumbered(db, now, required);
    case _ => AccountIsNumbered(db, pool, now, op);
  }

  lemma OtherIsNumbered(db: Db, pool: Pool, now: int, op: Op)
    requires Step(db, now, pool, op).Done? && !Playing(op) && !Expelling(op)
    ensures Numbered(db, Step(db, now, pool, op).db)
  {
    if op.OpLease? {
      LeaseIsNumbered(db, now, op.k, op.signing);
    } else {
      SameIsNumbered(db, Step(db, now, pool, op).db);
    }
  }

  lemma WriteIsNumbered(db: Db, pool: Pool, now: int, op: Op)
    ensures Numbered(db, Write(db, now, pool, op))
  {
    if Step(db, now, pool, op).Fail? {
      SameIsNumbered(db, db);
    } else if Playing(op) {
      PlayingIsNumbered(db, pool, now, op);
    } else if Expelling(op) {
      ExpellingIsNumbered(db, pool, now, op);
    } else {
      OtherIsNumbered(db, pool, now, op);
    }
  }

  /**
   * Between any two moments of any run, a room whose revision has not changed is the same room with
   * the same members at the same addresses with the same MACs; and revisions never go back.
   */
  lemma {:induction false} SameNumberSameRoom(run: seq<Tx>, pool: Pool, i: nat, r: nat)
    requires i <= |run| && r in After(run[..i], pool).rooms
    ensures MovedOrSame(After(run[..i], pool), After(run, pool), r)
  {
    RunIsNumbered(run, pool, i);
  }

  lemma {:induction false} RunIsNumbered(run: seq<Tx>, pool: Pool, i: nat)
    requires i <= |run|
    ensures Numbered(After(run[..i], pool), After(run, pool))
  {
    if i == |run| {
      assert run[..i] == run;
      SameIsNumbered(After(run, pool), After(run, pool));
    } else {
      var init, last := run[..|run| - 1], run[|run| - 1];
      RunIsNumbered(init, pool, i);
      assert init[..i] == run[..i];
      WriteIsNumbered(After(init, pool), pool, last.now, last.op);
      Onwards(After(run[..i], pool), After(init, pool), After(run, pool));
    }
  }
}
