/** Every transaction keeps the room tables sound, so every run does. */
module RoomRuns {
  import opened Bytes
  import opened Rooms
  import opened RoomSafety
  import opened Times

  // ---------------------------------------------------------------- joining

  lemma InvitedSound(db: Db, pool: Pool, now: int, r: nat, code: nat)
    requires Sound(db, pool) && Invited(db, now, r, code).Done?
    ensures Sound(Invited(db, now, r, code).db, pool)
  {
    var cleared := DropInvites(db, {r});
    DropInvitesSound(db, pool, {r});
    BumpSound(cleared.(invites := cleared.invites[code := Invite(r, Earlier(now + INVITE_LIFE, db.rooms[r].expires))]),
      pool, r);
  }

  lemma NewRoomSound(db: Db, pool: Pool, r: nat, room: Room)
    requires Sound(db, pool) && r !in db.rooms
    ensures Sound(db.(rooms := db.rooms[r := room]), pool)
  {
    assert ActiveIn(db.members, r) == {};
  }

  lemma CreateSound(db: Db, pool: Pool, now: int, k: Key, game: nat, expected: nat, code: nat)
    requires Sound(db, pool) && CreateRoom(db, now, pool, k, game, expected, code).Done?
    ensures Sound(CreateRoom(db, now, pool, k, game, expected, code).db, pool)
  {
    var room := Room(db.devices[k.device].user, game, CAPACITY, 1, now + ROOM_LIFE, false);
    var started := db.(rooms := db.rooms[k.room := room]);
    NewRoomSound(db, pool, k.room, room);
    AddMemberSound(started, pool, now, k);
    var x := AddMember(started, now, pool, k).db;
    InvitedSound(x, pool, now, k.room, code);
    BumpSound(Invited(x, now, k.room, code).db, pool, k.room);
  }

  lemma JoinedSound(db: Db, pool: Pool, now: int, k: Key)
    requires Sound(db, pool) && Joined(db, now, pool, k).Done?
    ensures Sound(Joined(db, now, pool, k).db, pool)
  {
    AddMemberSound(db, pool, now, k);
    BumpSound(AddMember(db, now, pool, k).db, pool, k.room);
  }

  // ---------------------------------------------------------------- being a member

  /** The same rows, up to their MACs and times. */
  predicate Resembles(after: map<Key, Member>, before: map<Key, Member>) {
    && after.Keys == before.Keys
    && forall k <- after ::
         after[k].active == before[k].active && after[k].ip == before[k].ip && after[k].user == before[k].user
  }

  /** Certificates look only at who is active, and where. */
  lemma ResemblingCerts(certs: map<Cert, bool>, before: map<Key, Member>, after: map<Key, Member>)
    requires CertsHold(certs, before) && Resembles(after, before)
    ensures CertsHold(certs, after)
  {
    forall c | c in certs && !certs[c] && c.room.Some?
      ensures Names(after, c)
    {
      assert Names(before, c);
    }
  }

  lemma ResemblingFits(rooms: map<nat, Room>, before: map<Key, Member>, after: map<Key, Member>)
    requires Fits(before, rooms) && Resembles(after, before)
    ensures Fits(after, rooms)
  {
    forall r | r in rooms
      ensures |ActiveIn(after, r)| <= rooms[r].capacity
    {
      assert ActiveIn(after, r) == ActiveIn(before, r);
    }
  }

  lemma ResemblingSeats(before: map<Key, Member>, after: map<Key, Member>, addresses: map<int, Address>)
    requires AllSeated(before, addresses) && Resembles(after, before)
    ensures AllSeated(after, addresses)
  {
    forall k | k in after && after[k].active
      ensures Live(addresses, after[k].ip, OfMember(k.device))
    {
      assert before[k].active;
    }
  }

  lemma ResemblingPlaces(db: Db, after: map<Key, Member>)
    requires Resembles(after, db.members) && Linked(db.members, db.rooms, db.devices)
    requires OnePlace(db.members) && OpenOnly(db.members, db.rooms) && BansHold(db.members, db.bans)
    ensures Linked(after, db.rooms, db.devices) && OnePlace(after) && OpenOnly(after, db.rooms)
            && BansHold(after, db.bans)
  {
  }

  lemma ResemblingSound(db: Db, pool: Pool, after: map<Key, Member>)
    requires Sound(db, pool) && Resembles(after, db.members) && MacsApart(after)
    ensures Sound(db.(members := after), pool)
  {
    ResemblingCerts(db.certs, db.members, after);
    ResemblingFits(db.rooms, db.members, after);
    ResemblingSeats(db.members, after, db.addresses);
    ResemblingPlaces(db, after);
  }

  lemma SeenSound(db: Db, pool: Pool, now: int, k: Key)
    requires Sound(db, pool) && k in db.members
    ensures Sound(Seen(db, now, k), pool)
  {
    var after := Seen(db, now, k).members;
    assert MacsApart(after);
    ResemblingSound(db, pool, after);
  }

  lemma FreeMac(members: map<Key, Member>, k: Key, mac: seq<byte>)
    requires MacsApart(members) && k in members && !MacTaken(members, k, mac)
    ensures MacsApart(members[k := members[k].(mac := Some(mac))])
  {
    var after := members[k := members[k].(mac := Some(mac))];
    forall o | o in after && after[o].active && o.room == k.room && o != k
      ensures after[o].mac != Some(mac)
    {
      assert o in members && members[o].active;
    }
  }

  lemma MacSound(db: Db, pool: Pool, k: Key, mac: seq<byte>)
    requires Sound(db, pool) && k in db.members && !MacTaken(db.members, k, mac)
    ensures Sound(SetMac(db, k, mac), pool)
  {
    var after := db.members[k := db.members[k].(mac := Some(mac))];
    FreeMac(db.members, k, mac);
    ResemblingSound(db, pool, after);
    BumpSound(db.(members := after), pool, k.room);
  }

  lemma HeartbeatSound(db: Db, pool: Pool, now: int, k: Key, version: bool, mac: MacText)
    requires Sound(db, pool) && Heartbeat(db, now, k, version, mac).Done?
    ensures Sound(Heartbeat(db, now, k, version, mac).db, pool)
  {
    if mac.Parsed? {
      MacSound(db, pool, k, mac.octets);
      SeenSound(SetMac(db, k, mac.octets), pool, now, k);
    } else {
      SeenSound(db, pool, now, k);
    }
  }

  lemma LeaveSound(db: Db, pool: Pool, now: int, k: Key)
    requires Sound(db, pool) && Leave(db, now, k).Done?
    ensures Sound(Leave(db, now, k).db, pool)
  {
    RevokeSound(db, pool, now, {One(k.room, k.device)});
    BumpSound(Revoke(db, now, {One(k.room, k.device)}), pool, k.room);
  }

  lemma ActedSound(db: Db, pool: Pool, now: int, k: Key, action: Action)
    requires Sound(db, pool) && k.device in db.devices && k.room in db.rooms && Acted(db, now, k, action).Done?
    ensures Sound(Acted(db, now, k, action).db, pool)
  {
    match action
    case Kick(device) => KickSound(db, pool, now, Key(k.room, device));
    case Transfer(device) =>
      var user := db.members[Key(k.room, device)].user;
      OwnerSound(db, pool, k.room, user);
      var given := db.(rooms := db.rooms[k.room := db.rooms[k.room].(owner := user)]);
      DropInvitesSound(given, pool, {k.room});
      BumpSound(DropInvites(given, {k.room}), pool, k.room);
    case CloseRoom => ShutSound(db, pool, now, k.room);
    case NewInvite(code) => InvitedSound(db, pool, now, k.room, code);
    case RevokeInvite =>
      DropInvitesSound(db, pool, {k.room});
      BumpSound(DropInvites(db, {k.room}), pool, k.room);
  }

  lemma RoomActionSound(db: Db, pool: Pool, now: int, k: Key, action: Action, expected: nat)
    requires Sound(db, pool) && RoomAction(db, now, k, action, expected).Done?
    ensures Sound(RoomAction(db, now, k, action, expected).db, pool)
  {
    if !(action.CloseRoom? && db.rooms[k.room].closed) {
      ActedSound(db, pool, now, k, action);
    }
  }

  lemma AdminSound(db: Db, pool: Pool, now: int, r: nat, kicked: Option<nat>)
    requires Sound(db, pool) && AdminRoomAction(db, now, r, kicked).Done?
    ensures Sound(AdminRoomAction(db, now, r, kicked).db, pool)
  {
    match kicked
    case None => ShutSound(db, pool, now, r);
    case Some(device) => KickSound(db, pool, now, Key(r, device));
  }

  // ---------------------------------------------------------------- accounts and devices

  lemma EndAllSound(db: Db, pool: Pool, now: int, ts: set<Target>)
    requires Sound(db, pool)
    ensures Sound(BumpEach(Revoke(db, now, ts), ts), pool)
  {
    RevokeSound(db, pool, now, ts);
    BumpEachSound(Revoke(db, now, ts), pool, ts);
  }

  lemma CutInSound(db: Db, pool: Pool, now: int, user: nat, device: Option<nat>, closeOwned: bool, rs: set<nat>)
    requires Sound(db, pool)
    ensures Sound(CutIn(db, now, user, device, closeOwned, rs), pool)
  {
    var ts, ended := Cut(db, user, device, closeOwned, rs), Ending(db, user, closeOwned, rs);
    var x := Revoke(db, now, ts);
    RevokeSound(db, pool, now, ts);
    forall k | k in x.members && k.room in ended
      ensures !x.members[k].active
    {
      assert All(k.room) in ts;
      assert Hits(ts, k);
    }
    CloseSound(x, pool, ended);
    DropInvitesSound(Close(x, ended), pool, ended);
    BumpEachSound(DropInvites(Close(x, ended), ended), pool, Marks(rs));
  }

  /** Devices keep their users. */
  lemma DevicesSound(db: Db, pool: Pool, devices: map<nat, Grant>)
    requires Sound(db, pool) && db.devices.Keys <= devices.Keys
    requires forall d <- db.devices :: devices[d].user == db.devices[d].user
    ensures Sound(db.(devices := devices), pool)
  {
  }

  lemma GrantsCutSound(db: Db, pool: Pool, now: int, user: nat, device: Option<nat>, closeOwned: bool)
    requires Sound(db, pool)
    ensures Sound(CutOff(RevokeGrants(db, user, device), now, user, device, closeOwned), pool)
  {
    var x := RevokeGrants(db, user, device);
    DevicesSound(db, pool, x.devices);
    CutInSound(x, pool, now, user, device, closeOwned, Visited(x, user, device, closeOwned));
  }

  lemma UserActionSound(db: Db, pool: Pool, now: int, user: nat, action: AccountAction)
    requires Sound(db, pool) && UserAction(db, now, user, action).Done?
    ensures Sound(UserAction(db, now, user, action).db, pool)
  {
    match action
    case Enable =>
    case Disable =>
    case Delete =>
      var x := SetStanding(db, user, Deleted);
      CutInSound(x, pool, now, user, None, true, Visited(x, user, None, true));
    case LogoutAll => GrantsCutSound(db, pool, now, user, None, false);
    case RevokeOne(d) => GrantsCutSound(db, pool, now, user, Some(d), false);
  }

  // ---------------------------------------------------------------- sweeping

  lemma RunOutSound(db: Db, pool: Pool, now: int, rs: set<nat>)
    requires Sound(db, pool)
    ensures Sound(RunOut(db, now, rs), pool)
  {
    var x := Revoke(db, now, Marks(rs));
    RevokeSound(db, pool, now, Marks(rs));
    forall k | k in x.members && k.room in rs
      ensures !x.members[k].active
    {
      assert All(k.room) in Marks(rs);
      assert Hits(Marks(rs), k);
    }
    CloseSound(x, pool, rs);
    BumpEachSound(Close(x, rs), pool, Marks(rs));
  }

  lemma ForgetSound(db: Db, pool: Pool, now: int)
    requires Sound(db, pool)
    ensures Sound(Forget(db, now), pool)
  {
  }

  lemma SweepSound(db: Db, pool: Pool, now: int, required: set<nat>)
    requires Sound(db, pool)
    ensures Sound(Sweep(db, now, required), pool)
  {
    var x := EnforceUpdates(db, now, required);
    EndAllSound(db, pool, now, OutdatedTargets(db.members, required));
    RunOutSound(x, pool, now, ExpiredRooms(x, now));
    ForgetSound(RunOut(x, now, ExpiredRooms(x, now)), pool, now);
  }

  // ---------------------------------------------------------------- leases and nodes

  lemma RecordSound(db: Db, pool: Pool, c: Cert)
    requires Sound(db, pool) && (c.room.Some? ==> Names(db.members, c))
    ensures Sound(Record(db, c), pool)
  {
  }

  lemma LeaseSound(db: Db, pool: Pool, now: int, k: Key, s: Signing)
    requires Sound(db, pool) && LeaseRoom(db, now, k, s).Done?
    ensures Sound(LeaseRoom(db, now, k, s).db, pool)
  {
    SeenSound(db, pool, now, k);
    assert Names(Seen(db, now, k).members, LeaseCert(db, k, s).value);
    RecordSound(Seen(db, now, k), pool, LeaseCert(db, k, s).value);
  }

  lemma EnrollSound(db: Db, pool: Pool, now: int, d: nat)
    requires Sound(db, pool) && Enroll(db, now, pool, d).Done?
    ensures Sound(Enroll(db, now, pool, d).db, pool)
  {
    var x := Enroll(db, now, pool, d).db;
    AllocateKeeps(db.addresses, now, pool, OfNode(d));
    forall k | k in db.members && db.members[k].active
      ensures Live(x.addresses, db.members[k].ip, OfMember(k.device))
    {
      assert Live(db.addresses, db.members[k].ip, OfMember(k.device));
    }
    forall o | o in x.nodes && x.nodes[o].current
      ensures Live(x.addresses, x.nodes[o].ip, OfNode(o))
    {
      assert o != d ==> Live(db.addresses, db.nodes[o].ip, OfNode(o));
    }
  }

  lemma QuarantineKeeps(db: Db, pool: Pool, d: nat, release: int)
    requires AllSeated(db.members, db.addresses) && NodesSeated(db.nodes, db.addresses) && Ordered(db.addresses, pool)
    requires d in db.nodes
    ensures var after := Quarantined(db.addresses, OfNode(d), release);
            && AllSeated(db.members, after) && Ordered(after, pool)
            && NodesSeated(db.nodes[d := db.nodes[d].(current := false)], after)
  {
    var after := Quarantined(db.addresses, OfNode(d), release);
    forall k | k in db.members && db.members[k].active
      ensures Live(after, db.members[k].ip, OfMember(k.device))
    {
      assert Live(db.addresses, db.members[k].ip, OfMember(k.device));
    }
    forall o | o in db.nodes && db.nodes[o].current && o != d
      ensures Live(after, db.nodes[o].ip, OfNode(o))
    {
      assert Live(db.addresses, db.nodes[o].ip, OfNode(o));
    }
  }

  lemma RevokeNodeSound(db: Db, pool: Pool, now: int, d: nat, permanent: bool)
    requires Sound(db, pool)
    ensures Sound(RevokeNode(db, now, d, permanent), pool)
  {
    if permanent && d in db.nodes {
      QuarantineKeeps(db, pool, d, Latest(db.certs.Keys, d, now + QUARANTINE));
    }
  }

  // ---------------------------------------------------------------- one transaction, and all runs

  lemma PlayerStepSound(db: Db, pool: Pool, now: int, op: Op)
    requires Sound(db, pool) && Step(db, now, pool, op).Done?
    requires Playing(op)
    ensures Sound(Step(db, now, pool, op).db, pool)
  {
    match op
    case OpCreate(k, game, expected, code) => CreateSound(db, pool, now, k, game, expected, code);
    case OpJoin(device, code) =>
      if ActiveFault(db, now, Key(db.invites[code].room, device)).Some? {
        JoinedSound(db, pool, now, Key(db.invites[code].room, device));
      }
    case OpOwnerJoin(k, expected) =>
      if ActiveFault(db, now, k).Some? {
        JoinedSound(db, pool, now, k);
      }
    case OpHeartbeat(k, version, mac) => HeartbeatSound(db, pool, now, k, version, mac);
    case OpLeave(k) =>
      LeaveSound(db, pool, now, k);
    case OpRoom(k, action, expected) => RoomActionSound(db, pool, now, k, action, expected);
    case OpAdminRoom(room, kicked) => AdminSound(db, pool, now, room, kicked);
  }

  lemma AccountStepSound(db: Db, pool: Pool, now: int, op: Op)
    requires Sound(db, pool) && Step(db, now, pool, op).Done? && (op.OpRevokeDevice? || op.OpLogout? || op.OpUser?)
    ensures Sound(Step(db, now, pool, op).db, pool)
  {
    match op
    case OpRevokeDevice(device, target) =>
      GrantsCutSound(db, pool, now, db.devices[device].user, Some(target), false);
    case OpLogout(device) => GrantsCutSound(db, pool, now, db.devices[device].user, Some(device), false);
    case OpUser(user, account) => UserActionSound(db, pool, now, user, account);
  }

  lemma ExpellingStepSound(db: Db, pool: Pool, now: int, op: Op)
    requires Sound(db, pool) && Step(db, now, pool, op).Done? && Expelling(op)
    ensures Sound(Step(db, now, pool, op).db, pool)
  {
    match op
    case OpTakeover(device, seen, expected) =>
      EndAllSound(db, pool, now, ElsewhereTargets(db, db.devices[device].user, device));
    case OpSweep(required) => SweepSound(db, pool, now, required);
    case _ => AccountStepSound(db, pool, now, op);
  }

  lemma OtherStepSound(db: Db, pool: Pool, now: int, op: Op)
    requires Sound(db, pool) && Step(db, now, pool, op).Done? && !Playing(op) && !Expelling(op)
    ensures Sound(Step(db, now, pool, op).db, pool)
  {
    match op
    case OpLease(k, signing) => LeaseSound(db, pool, now, k, signing);
    case OpNodeLease(device, serving, signing) =>
      RecordSound(db, pool, Sign(device, None, db.nodes[device].ip, signing, signing.clock + LEASE).value);
    case OpEnroll(device) => EnrollSound(db, pool, now, device);
    case OpRevokeNode(device, permanent) => RevokeNodeSound(db, pool, now, device, permanent);
    case OpRegister(device, user, registered, expires) =>
      DevicesSound(db, pool, db.devices[device := Grant(user, false, expires)]);
    case OpExtend(device, until) =>
      DevicesSound(db, pool, db.devices[device := db.devices[device].(expires := Some(until))]);
    case OpGame(game, row) =>
  }

  lemma WriteSound(db: Db, pool: Pool, now: int, op: Op)
    requires Sound(db, pool)
    ensures Sound(Write(db, now, pool, op), pool)
  {
    if Step(db, now, pool, op).Done? {
      if Playing(op) {
        PlayerStepSound(db, pool, now, op);
      } else if Expelling(op) {
        ExpellingStepSound(db, pool, now, op);
      } else {
        OtherStepSound(db, pool, now, op);
      }
    }
  }

  datatype Tx = Tx(now: int, op: Op)

  const EMPTY := Db(map[], map[], map[], map[], map[], {}, map[], map[], map[], map[])

  ghost function After(run: seq<Tx>, pool: Pool): Db {
    if run == [] then EMPTY
    else
      var last := run[|run| - 1];
      Write(After(run[..|run| - 1], pool), last.now, pool, last.op)
  }

  /**
   * In every run, whatever the clocks say: one active membership per user, no room over its capacity
   * or open to a banned user, nobody in a closed room, every active member on an address of its own,
   * no MAC twice in a room, and every unrevoked room certificate naming an active member where it is.
   */
  lemma {:induction false} AlwaysSound(run: seq<Tx>, pool: Pool)
    ensures Sound(After(run, pool), pool)
  {
    if run != [] {
      var last := run[|run| - 1];
      AlwaysSound(run[..|run| - 1], pool);
      WriteSound(After(run[..|run| - 1], pool), pool, last.now, last.op);
    }
  }
}
