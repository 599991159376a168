/** What a caller may rely on once a transaction has succeeded: who is in, who is out, and who is untouched. */
module RoomEffects {
  import opened Bytes
  import opened Rooms
  import opened RoomHistory
  import opened RoomRuns
  import opened RoomSafety
  import opened Times

  // ---------------------------------------------------------------- out of a room

  /** The membership is over and nothing that was signed for it is good. */
  predicate OutOf(x: Db, k: Key) {
    (k in x.members ==> !x.members[k].active) && NoCertFor(x, k)
  }

  /** The address it had is nobody's until its quarantine is over. */
  predicate Resting(before: Db, after: Db, now: int, k: Key) {
    k in before.members && before.members[k].active ==>
      var ip := before.members[k].ip;
      ip in after.addresses && after.addresses[ip] == Address(OfMember(k.device), Some(now + 660_000_000_000))
  }

  /** Every other membership is as it was. */
  predicate OthersStay(before: Db, after: Db, k: Key) {
    before.members.Keys == after.members.Keys && forall o <- before.members :: o != k ==>
      after.members[o] == before.members[o]
  }

  /** One membership ends, and only this one. */
  predicate Ended(before: Db, after: Db, now: int, k: Key) {
    OutOf(after, k) && Resting(before, after, now, k) && OthersStay(before, after, k)
  }

  /** Whoever a revocation hits is out. */
  lemma RevokedIsOut(db: Db, pool: Pool, now: int, ts: set<Target>, k: Key)
    requires Sound(db, pool) && Hits(ts, k)
    ensures OutOf(Revoke(db, now, ts), k)
  {
    RevokeSound(db, pool, now, ts);
    InactiveHasNone(Revoke(db, now, ts), pool, k);
  }

  lemma RevokedRests(db: Db, pool: Pool, now: int, ts: set<Target>, k: Key)
    requires AllSeated(db.members, db.addresses) && Hits(ts, k)
    ensures Resting(db, Revoke(db, now, ts), now, k)
  {
    if k in db.members && db.members[k].active {
      assert Live(db.addresses, db.members[k].ip, OfMember(k.device));
      assert Freed(db.members, ts, db.members[k].ip);
    }
  }

  lemma RevokeEnds(db: Db, pool: Pool, now: int, k: Key)
    requires Sound(db, pool)
    ensures Ended(db, Revoke(db, now, {One(k.room, k.device)}), now, k)
  {
    var ts := {One(k.room, k.device)};
    assert One(k.room, k.device) in ts;
    RevokedIsOut(db, pool, now, ts, k);
    RevokedRests(db, pool, now, ts, k);
    forall o | o in db.members && o != k
      ensures !Hits(ts, o)
    {
    }
  }

  /** roomAction with leave: the device is out of the room, whether it was in or not. */
  lemma LeaveEnds(db: Db, pool: Pool, now: int, k: Key)
    requires Sound(db, pool) && Leave(db, now, k).Done?
    ensures var x := Leave(db, now, k).db;
            && SelfFault(x, now, k).Some?
            && (SelfFault(db, now, k).Some? ==> x == db)
            && (SelfFault(db, now, k).None? ==>
               Ended(db, x, now, k) && x.rooms[k.room].revision == db.rooms[k.room].revision + 1)
  {
    if SelfFault(db, now, k).None? {
      RevokeEnds(db, pool, now, k);
    }
  }

  /** Kicked: out, banned, and the room renumbered. */
  predicate Kicked(before: Db, after: Db, now: int, target: Key) {
    && Ended(before, after, now, target)
    && target in before.members && before.members[target].active
    && after.bans == before.bans + {(target.room, before.members[target].user)}
    && after.rooms == Raised(before.rooms, target.room)
  }

  lemma ExpelKicks(db: Db, pool: Pool, now: int, target: Key)
    requires Sound(db, pool) && target in db.members && db.members[target].active
    ensures Kicked(db, Bump(Ban(Revoke(db, now, {One(target.room, target.device)}), target), target.room), now, target)
  {
    RevokeEnds(db, pool, now, target);
  }

  /** Nobody is left in room r, and there is no way in. */
  predicate ShutOut(x: Db, r: nat) {
    && (forall k <- x.members :: k.room == r ==> OutOf(x, k))
    && (forall c <- x.invites :: x.invites[c].room != r)
    && (r in x.rooms ==> x.rooms[r].closed)
  }

  /** Members and invitations of other rooms are as they were. */
  predicate OtherRoomsStay(before: Db, after: Db, r: nat) {
    && before.members.Keys == after.members.Keys && before.rooms.Keys == after.rooms.Keys
    && (forall k <- before.members :: k.room != r ==> after.members[k] == before.members[k])
    && (forall o <- before.rooms :: o != r ==> after.rooms[o] == before.rooms[o])
    && (forall c <- before.invites :: before.invites[c].room != r ==>
       c in after.invites && after.invites[c] == before.invites[c])
  }

  lemma ShutEnds(db: Db, pool: Pool, now: int, r: nat)
    requires Sound(db, pool)
    ensures var x := Shut(db, now, r); ShutOut(x, r) && OtherRoomsStay(db, x, r)
  {
    var x := Shut(db, now, r);
    assert All(r) in {All(r)};
    forall k | k in x.members && k.room == r
      ensures OutOf(x, k)
    {
      RevokedIsOut(db, pool, now, {All(r)}, k);
    }
    ShutSpares(db, now, r);
  }

  lemma ShutSpares(db: Db, now: int, r: nat)
    ensures OtherRoomsStay(db, Shut(db, now, r), r)
    ensures var x := Shut(db, now, r);
            (forall c <- x.invites :: x.invites[c].room != r) && (r in x.rooms ==> x.rooms[r].closed)
  {
  }

  // ---------------------------------------------------------------- what the owner does

  /** What each of the owner's actions has done once it succeeded. */
  predicate OwnerEffect(before: Db, after: Db, now: int, k: Key, action: Action)
    requires k.room in before.rooms && k.room in after.rooms
  {
    var was, stands := before.rooms[k.room], after.rooms[k.room];
    match action
    case Kick(device) => Kicked(before, after, now, Key(k.room, device))
    case Transfer(device) =>
      var heir := Key(k.room, device);
      && heir in before.members && before.members[heir].active
         && stands == was.(owner := before.members[heir].user, revision := was.revision + 1)
      && stands.owner != was.owner && after.members == before.members
         && forall c <- after.invites :: after.invites[c].room != k.room
    case CloseRoom => ShutOut(after, k.room) && OtherRoomsStay(before, after, k.room)
    case NewInvite(code) =>
      && code in after.invites && after.invites[code].room == k.room && after.invites[code].expires <= was.expires
      && (forall c <- after.invites :: after.invites[c].room == k.room ==> c == code)
      && after.members == before.members && stands == was.(revision := was.revision + 1)
    case RevokeInvite =>
      && (forall c <- after.invites :: after.invites[c].room != k.room) && after.members == before.members
      && (after == before || stands == was.(revision := was.revision + 1))
  }

  /** Closing again changes nothing; any other success was the owner's own, on the revision it named, in an
      open room, and has the effect of its action. */
  lemma RoomActionDoes(db: Db, pool: Pool, now: int, k: Key, action: Action, expected: nat)
    requires Sound(db, pool) && RoomAction(db, now, k, action, expected).Done?
    ensures var x := RoomAction(db, now, k, action, expected).db;
            && k.device in db.devices && k.room in db.rooms && k.room in x.rooms
            && db.rooms[k.room].owner == db.devices[k.device].user
            && if action.CloseRoom? && db.rooms[k.room].closed then x == db
               else && db.rooms[k.room].revision == expected
                    && !db.rooms[k.room].closed && db.rooms[k.room].expires > now
                    && OwnerEffect(db, x, now, k, action)
  {
    if !(action.CloseRoom? && db.rooms[k.room].closed) {
      match action
      case Kick(device) => ExpelKicks(db, pool, now, Key(k.room, device));
      case CloseRoom => ShutEnds(db, pool, now, k.room);
      case Transfer(device) => TransferGives(db, now, k, device);
      case _ =>
    }
  }

  lemma TransferGives(db: Db, now: int, k: Key, device: nat)
    requires k.device in db.devices && k.room in db.rooms && db.rooms[k.room].owner == db.devices[k.device].user
    requires Acted(db, now, k, Transfer(device)).Done?
    ensures var x := Acted(db, now, k, Transfer(device)).db;
            k.room in x.rooms && OwnerEffect(db, x, now, k, Transfer(device))
  {
  }

  /** The administrator's close and kick have the same effects, in a room that is still open. */
  lemma AdminDoes(db: Db, pool: Pool, now: int, r: nat, kicked: Option<nat>)
    requires Sound(db, pool) && AdminRoomAction(db, now, r, kicked).Done?
    ensures var x := AdminRoomAction(db, now, r, kicked).db;
            && r in db.rooms && !db.rooms[r].closed
            && if kicked.None? then ShutOut(x, r) && OtherRoomsStay(db, x, r)
               else Kicked(db, x, now, Key(r, kicked.value))
  {
    match kicked
    case None => ShutEnds(db, pool, now, r);
    case Some(device) => ExpelKicks(db, pool, now, Key(r, device));
  }

  // ---------------------------------------------------------------- into a room

  /** The device is in: at a live address of the pool, in the only place of its user, in an open room that has
      not banned it and is not over its capacity. */
  predicate In(x: Db, pool: Pool, now: int, k: Key) {
    && k in x.members && x.members[k].active && k.device in x.devices && x.members[k].user == x.devices[k.device].user
    && pool.base < x.members[k].ip < pool.last && Live(x.addresses, x.members[k].ip, OfMember(k.device))
    && (forall o <- x.members ::
          (x.members[o].active && (x.members[o].user == x.members[k].user || x.members[o].ip == x.members[k].ip)) ==>
            o == k)
    && k.room in x.rooms && !x.rooms[k.room].closed && x.rooms[k.room].expires > now
    && (k.room, x.members[k].user) !in x.bans && |ActiveIn(x.members, k.room)| <= x.rooms[k.room].capacity
  }

  /** Nobody else's membership changes, but those of the same user that should have ended do. */
  predicate OnlyStaleEnd(before: Db, after: Db, now: int, k: Key) {
    forall o <- before.members :: o != k ==>
      && o in after.members
      && after.members[o] == if Stale(before, now, k.device, o) then before.members[o].(active := false)
         else before.members[o]
  }

  lemma SoundIn(x: Db, pool: Pool, now: int, k: Key)
    requires Sound(x, pool) && k in x.members && x.members[k].active && k.room in x.rooms
             && x.rooms[k.room].expires > now
    ensures In(x, pool, now, k)
  {
    assert Live(x.addresses, x.members[k].ip, OfMember(k.device));
    forall o | o in x.members && x.members[o].active && x.members[o].ip == x.members[k].ip
      ensures o == k
    {
      SeatIsPlace(x, pool, o, k);
    }
  }

  lemma StaleHit(db: Db, now: int, d: nat, o: Key)
    requires o in db.members
    ensures Hits(StaleTargets(db, now, d), o) <==> Stale(db, now, d, o)
  {
  }

  /** addMember writes one row over what is left once the stale memberships have ended. */
  lemma AddedShape(db: Db, pool: Pool, now: int, k: Key)
    requires AddMember(db, now, pool, k).Done?
    ensures var x, y := AddMember(db, now, pool, k).db, EndStale(db, now, k.device);
            && k in x.members && x.members[k].active && x.members[k].mac == None && x.members[k].lastSeen == now
            && x == y.(addresses := x.addresses, members := y.members[k := x.members[k]])
            && k.room in y.rooms && y.rooms[k.room].expires > now
  {
  }

  lemma AddedSpares(db: Db, pool: Pool, now: int, k: Key)
    requires AddMember(db, now, pool, k).Done?
    ensures OnlyStaleEnd(db, AddMember(db, now, pool, k).db, now, k)
  {
    var x := AddMember(db, now, pool, k).db;
    AddedShape(db, pool, now, k);
    forall o | o in db.members && o != k
      ensures o in x.members && x.members[o] == if Stale(db, now, k.device, o) then db.members[o].(active := false)
              else db.members[o]
    {
      StaleRow(db, now, k.device, o);
    }
  }

  lemma StaleRow(db: Db, now: int, d: nat, o: Key)
    requires o in db.members
    ensures var x := EndStale(db, now, d);
            o in x.members && x.members[o] == if Stale(db, now, d, o) then db.members[o].(active := false)
              else db.members[o]
  {
    StaleHit(db, now, d, o);
  }

  /** A device that was let in: it is in, the room has a new number, and only stale memberships ended. */
  predicate LetIn(before: Db, after: Db, pool: Pool, now: int, k: Key) {
    && In(after, pool, now, k) && OnlyStaleEnd(before, after, now, k)
    && k.room in before.rooms && after.rooms[k.room].revision > before.rooms[k.room].revision
  }

  lemma JoinedFrom(db: Db, pool: Pool, now: int, k: Key)
    requires Sound(db, pool) && Joined(db, now, pool, k).Done?
    ensures LetIn(db, Joined(db, now, pool, k).db, pool, now, k)
  {
    AddedSpares(db, pool, now, k);
    AddedShape(db, pool, now, k);
    JoinedSound(db, pool, now, k);
    SameRoomsAfterStale(db, now, k.device, k.room);
    SoundIn(Joined(db, now, pool, k).db, pool, now, k);
    EndStaleNumbers(db, now, k.device, k.room);
  }

  lemma EndStaleNumbers(db: Db, now: int, d: nat, r: nat)
    requires r in db.rooms
    ensures EndStale(db, now, d).rooms[r].revision >= db.rooms[r].revision
  {
  }

  /** joinRoom with a good invitation leaves the device in the room it names: let in now, or in as before. */
  lemma JoinLetsIn(db: Db, pool: Pool, now: int, d: nat, code: nat)
    requires Sound(db, pool) && JoinRoom(db, now, pool, d, code).Done?
    ensures code in db.invites && db.invites[code].expires > now
    ensures var x, k := JoinRoom(db, now, pool, d, code).db, Key(db.invites[code].room, d);
            In(x, pool, now, k) && if ActiveFault(db, now, k).None? then x == db else LetIn(db, x, pool, now, k)
  {
    var k := Key(db.invites[code].room, d);
    if ActiveFault(db, now, k).None? {
      SoundIn(db, pool, now, k);
    } else {
      JoinedFrom(db, pool, now, k);
    }
  }

  /** The owner comes back without an invitation. */
  lemma OwnerIsLetIn(db: Db, pool: Pool, now: int, k: Key, expected: nat)
    requires Sound(db, pool) && OwnerJoin(db, now, pool, k, expected).Done?
    ensures var x := OwnerJoin(db, now, pool, k, expected).db;
            && k.device in db.devices && k.room in db.rooms && db.rooms[k.room].owner == db.devices[k.device].user
            && In(x, pool, now, k)
            && if ActiveFault(db, now, k).None? then x == db
               else db.rooms[k.room].revision == expected && LetIn(db, x, pool, now, k)
  {
    if ActiveFault(db, now, k).None? {
      SoundIn(db, pool, now, k);
    } else {
      JoinedFrom(db, pool, now, k);
    }
  }

  /** addMember succeeds exactly when the user is active nowhere but where it should have ended, the device is no
      node's, the room is open, unexpired, not full, has an enabled game and no ban, and an address is left. */
  lemma AdmittedExactly(db: Db, pool: Pool, now: int, k: Key)
    requires Sound(db, pool) && k.device in db.devices
    ensures AddMember(db, now, pool, k).Done?
            <==> && OnlyStale(db, now, k.device) && k.device !in db.nodes && Open(db, now, k)
                 && HasRoom(EndStale(db, now, k.device), now, pool, k)
  {
    StaleOrOccupied(db, now, k.device);
    SameRoomsAfterStale(db, now, k.device, k.room);
    OpenExactly(EndStale(db, now, k.device), now, k);
  }

  /** Wherever the device's user is active, it should not be. */
  predicate OnlyStale(db: Db, now: int, d: nat)
    requires d in db.devices
  {
    forall o <- db.members :: db.members[o].active && db.members[o].user == db.devices[d].user ==> Stale(db, now, d, o)
  }

  predicate Open(db: Db, now: int, k: Key)
    requires k.device in db.devices
  {
    && k.room in db.rooms && db.rooms[k.room].game in db.games && db.rooms[k.room].expires > now
       && !db.rooms[k.room].closed
    && db.games[db.rooms[k.room].game].enabled && (k.room, db.devices[k.device].user) !in db.bans
  }

  ghost predicate HasRoom(db: Db, now: int, pool: Pool, k: Key) {
    && k.room in db.rooms && |ActiveIn(db.members, k.room)| < db.rooms[k.room].capacity
    && Allocate(db.addresses, now, pool, OfMember(k.device)).Some?
  }

  lemma StaleOrOccupied(db: Db, now: int, d: nat)
    requires d in db.devices
    ensures OnlyStale(db, now, d) <==> forall o :: !Occupies(EndStale(db, now, d), d, o)
  {
    var x := EndStale(db, now, d);
    forall o | o in db.members
      ensures Occupies(x, d, o)
              <==> db.members[o].active && db.members[o].user == db.devices[d].user && !Stale(db, now, d, o)
    {
      StaleRow(db, now, d, o);
    }
    assert forall o :: Occupies(x, d, o) ==> o in db.members;
  }

  lemma OpenExactly(db: Db, now: int, k: Key)
    requires k.device in db.devices
    ensures EntryFault(db, now, k).None?
            <==> Open(db, now, k) && |ActiveIn(db.members, k.room)| < db.rooms[k.room].capacity
  {
  }

  lemma SameRoomsAfterStale(db: Db, now: int, d: nat, r: nat)
    ensures var x := EndStale(db, now, d);
            && (r in x.rooms <==> r in db.rooms) && x.games == db.games && x.bans == db.bans && x.devices == db.devices
               && x.nodes == db.nodes
            && (r in db.rooms ==> x.rooms[r] == db.rooms[r].(revision := x.rooms[r].revision))
  {
  }

  /** A new room: its owner is in it alone, it has one invitation, and it ends in a day. */
  lemma CreateOpens(db: Db, pool: Pool, now: int, k: Key, game: nat, expected: nat, code: nat)
    requires Sound(db, pool) && CreateRoom(db, now, pool, k, game, expected, code).Done?
    ensures var x := CreateRoom(db, now, pool, k, game, expected, code).db;
            && k.room !in db.rooms && In(x, pool, now, k) && ActiveIn(x.members, k.room) == {k}
            && x.rooms[k.room].owner == db.devices[k.device].user && x.rooms[k.room].game == game
            && x.rooms[k.room].expires == now + 86_400_000_000_000 && x.rooms[k.room].capacity == 4
            && code in x.invites && x.invites[code] == Invite(k.room, now + 1_800_000_000_000)
            && forall c <- x.invites :: x.invites[c].room == k.room ==> c == code
  {
    var x := CreateRoom(db, now, pool, k, game, expected, code).db;
    CreateSound(db, pool, now, k, game, expected, code);
    CreatedRoom(db, pool, now, k, game, expected, code);
    SoundIn(x, pool, now, k);
    Alone(db, x, k);
  }

  lemma Alone(before: Db, after: Db, k: Key)
    requires Linked(before.members, before.rooms, before.devices) && k.room !in before.rooms
    requires after.members.Keys == before.members.Keys + {k} && after.members[k].active
    ensures ActiveIn(after.members, k.room) == {k}
  {
    forall o | o in ActiveIn(after.members, k.room)
      ensures o == k
    {
      assert o in before.members ==> o.room in before.rooms;
    }
  }

  lemma CreatedRoom(db: Db, pool: Pool, now: int, k: Key, game: nat, expected: nat, code: nat)
    requires CreateRoom(db, now, pool, k, game, expected, code).Done?
    ensures var x := CreateRoom(db, now, pool, k, game, expected, code).db;
            && k.room in x.rooms && x.rooms[k.room].owner == db.devices[k.device].user && x.rooms[k.room].game == game
            && x.rooms[k.room].expires == now + 86_400_000_000_000 && x.rooms[k.room].capacity == 4
            && code in x.invites && x.invites[code] == Invite(k.room, now + 1_800_000_000_000)
            && (forall c <- x.invites :: x.invites[c].room == k.room ==> c == code)
            && k in x.members && x.members[k].active && x.members.Keys == db.members.Keys + {k}
  {
    var room := Room(db.devices[k.device].user, game, CAPACITY, 1, now + ROOM_LIFE, false);
    var started := db.(rooms := db.rooms[k.room := room]);
    AddedShape(started, pool, now, k);
    SameRoomsAfterStale(started, now, k.device, k.room);
    OneInvitation(AddMember(started, now, pool, k).db, now, k.room, code);
  }

  /** A room has one invitation after invitation, and is otherwise only renumbered. */
  lemma OneInvitation(db: Db, now: int, r: nat, code: nat)
    requires Invited(db, now, r, code).Done?
    ensures var x := Invited(db, now, r, code).db;
            && r in x.rooms && x.rooms[r] == db.rooms[r].(revision := db.rooms[r].revision + 1)
               && x.members == db.members
            && code in x.invites && x.invites[code] == Invite(r, Earlier(now + 1_800_000_000_000, db.rooms[r].expires))
            && forall c <- x.invites :: x.invites[c].room == r ==> c == code
  {
  }

  // ---------------------------------------------------------------- being a member

  /** A heartbeat of an active member: it was seen, its MAC is the reported one and nobody else's in the room, the
      room is renumbered exactly when the MAC is new, and nothing else changed. */
  lemma HeartbeatMarks(db: Db, now: int, k: Key, version: bool, mac: MacText)
    requires Heartbeat(db, now, k, version, mac).Done?
    ensures var x := Heartbeat(db, now, k, version, mac).db;
            && ActiveFault(db, now, k).None? && k in x.members && x.members[k].active && x.members[k].lastSeen == now
            && x.members[k].mac == (if mac.Parsed? then Some(mac.octets) else db.members[k].mac)
            && (mac.Parsed? ==> !MacTaken(x.members, k, mac.octets))
            && OthersStay(db, x, k)
            && x.rooms == (if x.members[k].mac != db.members[k].mac then Raised(db.rooms, k.room) else db.rooms)
            && x == db.(members := x.members, rooms := x.rooms)
  {
  }

  // ---------------------------------------------------------------- devices

  /** No session, no membership and no certificate is left to this device. */
  predicate Cleared(x: Db, d: nat) {
    d in x.devices && x.devices[d].revoked && forall k <- x.members :: k.device == d ==> OutOf(x, k)
  }

  /** Other devices keep their grants and memberships. */
  predicate OtherDevicesStay(before: Db, after: Db, d: nat) {
    && before.devices.Keys == after.devices.Keys && before.members.Keys == after.members.Keys
    && (forall o <- before.devices :: o != d ==> after.devices[o] == before.devices[o])
    && (forall k <- before.members :: k.device != d ==> after.members[k] == before.members[k])
  }

  lemma CutHitsOnly(db: Db, user: nat, d: nat, rs: set<nat>, k: Key)
    requires k in db.members && k.device != d
    ensures !Hits(Cut(db, user, Some(d), false, rs), k)
  {
  }

  /** One device of its user is revoked and cut off. */
  function DeviceCut(db: Db, now: int, d: nat): Db
    requires d in db.devices
  {
    CutOff(RevokeGrants(db, db.devices[d].user, Some(d)), now, db.devices[d].user, Some(d), false)
  }

  lemma DeviceCutClears(db: Db, pool: Pool, now: int, d: nat)
    requires Sound(db, pool) && d in db.devices
    ensures Cleared(DeviceCut(db, now, d), d)
  {
    var user := db.devices[d].user;
    var y := RevokeGrants(db, user, Some(d));
    DevicesSound(db, pool, y.devices);
    CutLeavesNothing(y, pool, now, user, Some(d), false);
  }

  lemma DeviceCutSpares(db: Db, now: int, d: nat)
    requires d in db.devices
    ensures OtherDevicesStay(db, DeviceCut(db, now, d), d)
  {
    var user := db.devices[d].user;
    var y := RevokeGrants(db, user, Some(d));
    forall k | k in db.members && k.device != d
      ensures DeviceCut(db, now, d).members[k] == db.members[k]
    {
      CutHitsOnly(y, user, d, Visited(y, user, Some(d), false), k);
    }
  }

  /** revokePlayerDevice: another device of the same registered user is cleared, and only it. */
  lemma RevokeDeviceClears(db: Db, pool: Pool, now: int, d: nat, target: nat)
    requires Sound(db, pool) && RevokeDevice(db, now, d, target).Done?
    ensures var x := RevokeDevice(db, now, d, target).db;
            && d != target && d in db.devices && target in db.devices && db.devices[target].user == db.devices[d].user
            && if db.devices[target].revoked then x == db else Cleared(x, target) && OtherDevicesStay(db, x, target)
  {
    if !db.devices[target].revoked {
      DeviceCutClears(db, pool, now, target);
      DeviceCutSpares(db, now, target);
    }
  }

  /** logoutPlayer: the device itself is cleared, and only it. */
  lemma LogoutClears(db: Db, pool: Pool, now: int, d: nat)
    requires Sound(db, pool) && Logout(db, now, d).Done?
    ensures var x := Logout(db, now, d).db; Cleared(x, d) && OtherDevicesStay(db, x, d) && PlayerFault(x, now, d).Some?
  {
    DeviceCutClears(db, pool, now, d);
    DeviceCutSpares(db, now, d);
  }

  /** Of the chosen devices of the user no membership, no certificate and, if asked for, no owned room is left. */
  predicate NothingLeft(x: Db, user: nat, device: Option<nat>, closeOwned: bool) {
    && (forall k <- x.members :: x.members[k].user == user && Picked(device, k.device) ==> OutOf(x, k))
    && (closeOwned ==> forall r <- x.rooms :: x.rooms[r].owner == user ==> x.rooms[r].closed)
  }

  predicate GrantsGone(x: Db, user: nat, device: Option<nat>) {
    forall d <- x.devices :: x.devices[d].user == user && Picked(device, d) ==> x.devices[d].revoked
  }

  /** What an administrator's action on an account has done once it succeeded. */
  predicate AccountEffect(before: Db, after: Db, user: nat, action: AccountAction) {
    match action
    case Delete => user in after.users && after.users[user].standing.Deleted? && NothingLeft(after, user, None, true)
    case LogoutAll => GrantsGone(after, user, None) && NothingLeft(after, user, None, false)
    case RevokeOne(d) => GrantsGone(after, user, Some(d)) && NothingLeft(after, user, Some(d), false)
    case _ => after == before.(users := after.users) && after.users.Keys == before.users.Keys
  }

  lemma GrantsCutDoes(db: Db, pool: Pool, now: int, user: nat, device: Option<nat>)
    requires Sound(db, pool)
    ensures var x := CutOff(RevokeGrants(db, user, device), now, user, device, false);
            GrantsGone(x, user, device) && NothingLeft(x, user, device, false)
  {
    var y := RevokeGrants(db, user, device);
    DevicesSound(db, pool, y.devices);
    CutLeavesNothing(y, pool, now, user, device, false);
  }

  /** userAction: deletion, logout and revocation leave nothing of what they name; the other
      two touch the account alone. */
  lemma UserActionDoes(db: Db, pool: Pool, now: int, user: nat, action: AccountAction)
    requires Sound(db, pool) && UserAction(db, now, user, action).Done?
    ensures AccountEffect(db, UserAction(db, now, user, action).db, user, action)
  {
    match action
    case Delete => CutLeavesNothing(SetStanding(db, user, Deleted), pool, now, user, None, true);
    case LogoutAll => GrantsCutDoes(db, pool, now, user, None);
    case RevokeOne(d) => GrantsCutDoes(db, pool, now, user, Some(d));
    case _ =>
  }

  /** completeEnrollment: the node's device has a live address of the pool that nobody else has, and every other
      holder keeps its own. */
  lemma EnrollSeats(db: Db, pool: Pool, now: int, d: nat)
    requires Sound(db, pool) && Enroll(db, now, pool, d).Done?
    ensures var x := Enroll(db, now, pool, d).db;
            && d in x.nodes && x.nodes[d].current && pool.base < x.nodes[d].ip < pool.last
            && Live(x.addresses, x.nodes[d].ip, OfNode(d))
            && (forall o <- db.nodes :: o in x.nodes && x.nodes[o] == db.nodes[o])
            && (forall k <- x.members :: x.members[k].active ==> x.members[k].ip != x.nodes[d].ip)
            && (forall ip <- db.addresses :: db.addresses[ip].release.None? ==>
               ip in x.addresses && x.addresses[ip] == db.addresses[ip])
  {
    var x := Enroll(db, now, pool, d).db;
    AllocateKeeps(db.addresses, now, pool, OfNode(d));
    forall k | k in x.members && x.members[k].active
      ensures x.members[k].ip != x.nodes[d].ip
    {
      assert Live(db.addresses, db.members[k].ip, OfMember(k.device));
    }
  }
}
