/** Exactly who is let into a room, read off the tables before the call, and what everybody else is told. */
module RoomAdmission {
  import opened Bytes
  import opened Rooms
  import opened RoomEffects
  import opened RoomRuns
  import opened RoomSafety
  import Quarantine

  // ---------------------------------------------------------------- conditions on the tables

  /** The device is a player's whose account is not deleted, and it is neither revoked nor expired. */
  predicate MayPlay(db: Db, now: int, d: nat) {
    && d in db.devices && db.devices[d].user in db.users && db.users[db.devices[d].user].standing != Deleted
    && !db.devices[d].revoked && (db.devices[d].expires.Some? ==> now < db.devices[d].expires.value)
  }

  predicate InForce(db: Db, now: int, r: nat) {
    r in db.rooms && now < db.rooms[r].expires && !db.rooms[r].closed
  }

  predicate PlaysIn(db: Db, now: int, k: Key) {
    MayPlay(db, now, k.device) && InForce(db, now, k.room) && k in db.members && db.members[k].active
  }

  /** A membership whose room is over, or whose device is. */
  predicate RunOut(db: Db, now: int, o: Key) {
    && o.room in db.rooms && o.device in db.devices
    && (db.rooms[o.room].closed || db.rooms[o.room].expires <= now || db.devices[o.device].revoked
        || (db.devices[o.device].expires.Some? && db.devices[o.device].expires.value <= now))
  }

  /** An active membership of the device's user. */
  predicate OfSameUser(db: Db, d: nat, o: Key) {
    d in db.devices && o in db.members && db.members[o].active && db.members[o].user == db.devices[d].user
  }

  /** The user is active nowhere but where it has run out. */
  predicate FreeToMove(db: Db, now: int, d: nat) {
    forall o <- db.members :: OfSameUser(db, d, o) ==> RunOut(db, now, o)
  }

  /** Those who stay in room r when the run-out memberships of the device's user have ended. */
  function Staying(db: Db, now: int, d: nat, r: nat): set<Key> {
    set o | o in db.members && o.room == r && db.members[o].active && !(OfSameUser(db, d, o) && RunOut(db, now, o))
  }

  /** The device keeps an address that none of those memberships has, or some usable address is unused or overdue. */
  predicate AddressLeft(db: Db, now: int, pool: Pool, d: nat) {
    || (exists ip <- db.addresses :: db.addresses[ip] == Address(OfMember(d), None)
          && forall o <- db.members :: OfSameUser(db, d, o) && RunOut(db, now, o) ==> db.members[o].ip != ip)
    || (exists ip | pool.base < ip < pool.last ::
          ip !in db.addresses || (db.addresses[ip].release.Some? && db.addresses[ip].release.value < now))
  }

  predicate Playable(db: Db, r: nat) {
    r in db.rooms && db.rooms[r].game in db.games && db.games[db.rooms[r].game].enabled
  }

  predicate Banned(db: Db, k: Key) {
    k.device in db.devices && (k.room, db.devices[k.device].user) in db.bans
  }

  /** All that a newcomer needs. */
  predicate Admissible(db: Db, now: int, pool: Pool, k: Key) {
    && k.device in db.devices && FreeToMove(db, now, k.device) && k.device !in db.nodes
    && InForce(db, now, k.room) && Playable(db, k.room) && !Banned(db, k)
    && |Staying(db, now, k.device, k.room)| < db.rooms[k.room].capacity && AddressLeft(db, now, pool, k.device)
  }

  // ---------------------------------------------------------------- admission

  lemma StaleIsRunOut(db: Db, now: int, d: nat, o: Key)
    ensures Stale(db, now, d, o) <==> OfSameUser(db, d, o) && RunOut(db, now, o)
  {
  }

  lemma StayingIs(db: Db, now: int, d: nat, r: nat)
    ensures ActiveIn(EndStale(db, now, d).members, r) == Staying(db, now, d, r)
  {
    forall o | o in db.members
      ensures o in ActiveIn(EndStale(db, now, d).members, r) <==> o in Staying(db, now, d, r)
    {
      StaleRow(db, now, d, o);
      StaleIsRunOut(db, now, d, o);
    }
  }

  /** In a sound state, the addresses after the stale memberships have ended. */
  lemma StaleAddress(db: Db, pool: Pool, now: int, d: nat, ip: int)
    requires Sound(db, pool) && ip in db.addresses
    ensures var rows := EndStale(db, now, d).addresses;
            && ip in rows
            && (rows[ip] == db.addresses[ip]
               || (db.addresses[ip].release.None? && rows[ip].release == Some(now + 660_000_000_000)))
            && (rows[ip] != db.addresses[ip] <==>
                  exists o <- db.members :: OfSameUser(db, d, o) && RunOut(db, now, o) && db.members[o].ip == ip)
  {
    var ts := StaleTargets(db, now, d);
    forall o | o in db.members
      ensures Hits(ts, o) <==> OfSameUser(db, d, o) && RunOut(db, now, o)
    {
      StaleHit(db, now, d, o);
      StaleIsRunOut(db, now, d, o);
    }
    if Freed(db.members, ts, ip) {
      var k :| k in db.members && db.members[k].active && Hits(ts, k) && db.members[k].ip == ip;
      assert Live(db.addresses, db.members[k].ip, OfMember(k.device));
    }
  }

  lemma StaleKeys(db: Db, now: int, d: nat)
    ensures EndStale(db, now, d).addresses.Keys == db.addresses.Keys
  {
  }

  lemma AddressLeftIs(db: Db, pool: Pool, now: int, d: nat)
    requires Sound(db, pool)
    ensures Allocate(EndStale(db, now, d).addresses, now, pool, OfMember(d)).Some? <==> AddressLeft(db, now, pool, d)
  {
    var rows := EndStale(db, now, d).addresses;
    Quarantine.ExhaustedExactly(rows, now, pool, OfMember(d));
    StaleKeys(db, now, d);
    forall ip | ip in db.addresses
      ensures Live(rows, ip, OfMember(d))
              <==> db.addresses[ip] == Address(OfMember(d), None)
                   && forall o <- db.members :: OfSameUser(db, d, o) && RunOut(db, now, o) ==> db.members[o].ip != ip
      ensures Overdue(rows[ip].release, now) <==> db.addresses[ip].release.Some? && db.addresses[ip].release.value < now
    {
      StaleAddress(db, pool, now, d, ip);
    }
  }

  lemma FreeIsOnlyStale(db: Db, now: int, d: nat)
    requires d in db.devices
    ensures OnlyStale(db, now, d) <==> FreeToMove(db, now, d)
  {
    forall o | o in db.members
      ensures Stale(db, now, d, o) <==> OfSameUser(db, d, o) && RunOut(db, now, o)
    {
      StaleIsRunOut(db, now, d, o);
    }
  }

  lemma OpenIs(db: Db, now: int, k: Key)
    requires k.device in db.devices
    ensures Open(db, now, k) <==> InForce(db, now, k.room) && Playable(db, k.room) && !Banned(db, k)
  {
  }

  lemma HasRoomIs(db: Db, pool: Pool, now: int, k: Key)
    requires Sound(db, pool)
    ensures HasRoom(EndStale(db, now, k.device), now, pool, k)
            <==> && k.room in db.rooms && |Staying(db, now, k.device, k.room)| < db.rooms[k.room].capacity
                 && AddressLeft(db, now, pool, k.device)
  {
    AddressLeftIs(db, pool, now, k.device);
    StayingIs(db, now, k.device, k.room);
    SameRoomsAfterStale(db, now, k.device, k.room);
  }

  /** addMember lets a device in exactly when it is admissible. */
  lemma AddedExactly(db: Db, pool: Pool, now: int, k: Key)
    requires Sound(db, pool)
    ensures AddMember(db, now, pool, k).Done? <==> Admissible(db, now, pool, k)
  {
    if k.device in db.devices {
      AdmittedExactly(db, pool, now, k);
      FreeIsOnlyStale(db, now, k.device);
      OpenIs(db, now, k);
      HasRoomIs(db, pool, now, k);
    }
  }

  // ---------------------------------------------------------------- refusals

  /** Why an inadmissible device is not let in; the first reason counts. */
  ghost function Refusal(db: Db, now: int, pool: Pool, k: Key): Code {
    if !FreeToMove(db, now, k.device) then
      if exists o :: OfSameUser(db, k.device, o) && !RunOut(db, now, o) && o.device == k.device then AlreadyJoined
      else AccountInUse
    else if k.device in db.nodes then ScopeConflict
    else if k.room !in db.rooms || db.rooms[k.room].game !in db.games then NotFound
    else if db.rooms[k.room].expires <= now then RoomExpired
    else if db.rooms[k.room].closed then RoomClosed
    else if Banned(db, k) then RoomBanned
    else if !db.games[db.rooms[k.room].game].enabled then GameDisabled
    else if |Staying(db, now, k.device, k.room)| >= db.rooms[k.room].capacity then RoomFull
    else if !AddressLeft(db, now, pool, k.device) then AddressesExhausted
    else Internal
  }

  /** After the stale memberships have ended, the user is active where it has not run out. */
  lemma OccupiesIs(db: Db, now: int, d: nat, o: Key)
    ensures Occupies(EndStale(db, now, d), d, o) <==> OfSameUser(db, d, o) && !RunOut(db, now, o)
  {
    if o in db.members {
      StaleRow(db, now, d, o);
      StaleIsRunOut(db, now, d, o);
    }
  }

  lemma AvailableIs(db: Db, now: int, d: nat)
    ensures Available(db, now, d)
            == if !FreeToMove(db, now, d) then
                 Fail(if exists o :: OfSameUser(db, d, o) && !RunOut(db, now, o) && o.device == d then AlreadyJoined
                   else AccountInUse)
               else if d in db.nodes then Fail(ScopeConflict)
               else Done(EndStale(db, now, d))
  {
    var x := EndStale(db, now, d);
    forall o
      ensures Occupies(x, d, o) <==> OfSameUser(db, d, o) && !RunOut(db, now, o)
    {
      OccupiesIs(db, now, d, o);
    }
  }

  lemma EntryIs(db: Db, now: int, k: Key)
    ensures var x := EndStale(db, now, k.device);
            EntryFault(x, now, k)
            == if k.room !in db.rooms || db.rooms[k.room].game !in db.games then Some(NotFound)
               else if db.rooms[k.room].expires <= now then Some(RoomExpired)
               else if db.rooms[k.room].closed then Some(RoomClosed)
               else if Banned(db, k) then Some(RoomBanned)
               else if !db.games[db.rooms[k.room].game].enabled then Some(GameDisabled)
               else if |Staying(db, now, k.device, k.room)| >= db.rooms[k.room].capacity then Some(RoomFull)
               else None
  {
    StayingIs(db, now, k.device, k.room);
    SameRoomsAfterStale(db, now, k.device, k.room);
  }

  lemma RefusedWith(db: Db, pool: Pool, now: int, k: Key)
    requires Sound(db, pool) && !Admissible(db, now, pool, k)
    ensures AddMember(db, now, pool, k) == Fail(Refusal(db, now, pool, k))
  {
    AvailableIs(db, now, k.device);
    EntryIs(db, now, k);
    AddressLeftIs(db, pool, now, k.device);
  }

  // ---------------------------------------------------------------- the three ways in

  lemma PlaysIs(db: Db, now: int, k: Key)
    ensures ActiveFault(db, now, k).None? <==> PlaysIn(db, now, k)
    ensures PlayerFault(db, now, k.device).None? <==> MayPlay(db, now, k.device)
  {
  }

  /**
   * joinRoom succeeds exactly when the code is known, its invitation ends after now, and the device plays in the room
   * already or may be let in. Otherwise it is told that the invitation is unusable, or why it is not let in.
   */
  lemma JoinedExactly(db: Db, pool: Pool, now: int, d: nat, code: nat)
    requires Sound(db, pool)
    ensures var usable := code in db.invites && now < db.invites[code].expires;
            && (JoinRoom(db, now, pool, d, code).Done?
                <==> usable && var k := Key(db.invites[code].room, d);
                  PlaysIn(db, now, k) || Admissible(db, now, pool, k))
            && (!usable ==> JoinRoom(db, now, pool, d, code) == Fail(InviteUnusable))
            && (usable && !JoinRoom(db, now, pool, d, code).Done? ==>
                  JoinRoom(db, now, pool, d, code) == Fail(Refusal(db, now, pool, Key(db.invites[code].room, d))))
  {
    if code in db.invites && now < db.invites[code].expires {
      var k := Key(db.invites[code].room, d);
      PlaysIs(db, now, k);
      AddedExactly(db, pool, now, k);
      if !Admissible(db, now, pool, k) {
        RefusedWith(db, pool, now, k);
      }
    }
  }

  /** The room belongs to the device's user, who may play. */
  predicate Owns(db: Db, now: int, k: Key) {
    && MayPlay(db, now, k.device) && k.room in db.rooms
    && db.rooms[k.room].owner == db.devices[k.device].user
  }

  predicate OwnsIt(db: Db, now: int, k: Key) {
    Owns(db, now, k) && InForce(db, now, k.room)
  }

  /** playerOwnerJoin succeeds exactly for the owner of an open room that plays in it already, or that names its
      revision and may be let in. */
  lemma OwnerJoinedExactly(db: Db, pool: Pool, now: int, k: Key, expected: nat)
    requires Sound(db, pool)
    ensures OwnerJoin(db, now, pool, k, expected).Done?
            <==> && OwnsIt(db, now, k)
                 && (PlaysIn(db, now, k) || (db.rooms[k.room].revision == expected && Admissible(db, now, pool, k)))
    ensures OwnsIt(db, now, k) && !PlaysIn(db, now, k) && db.rooms[k.room].revision != expected ==>
              OwnerJoin(db, now, pool, k, expected) == Fail(RevisionConflict)
    ensures OwnsIt(db, now, k) && !PlaysIn(db, now, k) && db.rooms[k.room].revision == expected
            && !Admissible(db, now, pool, k) ==>
              OwnerJoin(db, now, pool, k, expected) == Fail(Refusal(db, now, pool, k))
    ensures MayPlay(db, now, k.device) && k.room in db.rooms && !OwnsIt(db, now, k) ==>
              OwnerJoin(db, now, pool, k, expected)
              == Fail(if db.rooms[k.room].owner != db.devices[k.device].user then
                        if exists o <- db.members :: o.room == k.room && db.members[o].user == db.devices[k.device].user
                        then OwnerRequired else NotFound
                      else if db.rooms[k.room].expires <= now then RoomExpired else RoomClosed)
  {
    PlaysIs(db, now, k);
    if OwnsIt(db, now, k) {
      AddedExactly(db, pool, now, k);
      if !Admissible(db, now, pool, k) {
        RefusedWith(db, pool, now, k);
      }
    }
  }

  /** The tables with the new room in them. */
  function Opened(db: Db, now: int, k: Key, game: nat): Db
    requires k.device in db.devices
  {
    db.(rooms := db.rooms[k.room := Room(db.devices[k.device].user, game, 4, 1, now + 86_400_000_000_000, false)])
  }

  /** The game may be played, and the player has seen its current revision. */
  predicate GameFits(db: Db, game: nat, expected: nat) {
    game in db.games && db.games[game].enabled && db.games[game].revision == expected
  }

  /** createRoom succeeds exactly on the current revision of an enabled game, for a device that is free to move, no
      node, and finds an address, with fresh identifiers; else the game is at fault, or the refusal of a newcomer says
      why. */
  lemma CreatedExactly(db: Db, pool: Pool, now: int, k: Key, game: nat, expected: nat, code: nat)
    requires Sound(db, pool) && k.room !in db.rooms && code !in db.invites
    ensures CreateRoom(db, now, pool, k, game, expected, code).Done?
            <==> && GameFits(db, game, expected) && k.device in db.devices && k.device !in db.nodes && !Banned(db, k)
                 && FreeToMove(db, now, k.device) && AddressLeft(db, now, pool, k.device)
    ensures !GameFits(db, game, expected) ==>
              CreateRoom(db, now, pool, k, game, expected, code)
              == Fail(if game !in db.games then NotFound
                      else if !db.games[game].enabled then GameDisabled else RevisionConflict)
    ensures GameFits(db, game, expected) && k.device in db.devices
            && !CreateRoom(db, now, pool, k, game, expected, code).Done? ==>
              CreateRoom(db, now, pool, k, game, expected, code)
              == Fail(Refusal(Opened(db, now, k, game), now, pool, k))
  {
    if GameFits(db, game, expected) && k.device in db.devices {
      var a := Opened(db, now, k, game);
      NewRoomSound(db, pool, k.room, a.rooms[k.room]);
      AddedExactly(a, pool, now, k);
      NewRoomAdmits(db, now, pool, k, game);
      if AddMember(a, now, pool, k).Done? {
        AddedShape(a, pool, now, k);
        CreateIs(db, pool, now, k, game, expected, code);
      } else {
        RefusedWith(a, pool, now, k);
        CreateRefused(db, pool, now, k, game, expected, code);
      }
    }
  }

  lemma NewRoomAdmits(db: Db, now: int, pool: Pool, k: Key, game: nat)
    requires Sound(db, pool) && k.room !in db.rooms && k.device in db.devices
    requires game in db.games && db.games[game].enabled
    ensures Admissible(Opened(db, now, k, game), now, pool, k)
            <==> && FreeToMove(db, now, k.device) && k.device !in db.nodes && !Banned(db, k)
                 && AddressLeft(db, now, pool, k.device)
  {
    var a := Opened(db, now, k, game);
    assert Staying(a, now, k.device, k.room) == {};
    forall o | o in db.members
      ensures RunOut(a, now, o) <==> RunOut(db, now, o)
    {
    }
  }

  lemma CreateRefused(db: Db, pool: Pool, now: int, k: Key, game: nat, expected: nat, code: nat)
    requires k.device in db.devices && k.room !in db.rooms
    requires game in db.games && db.games[game].enabled && db.games[game].revision == expected
    requires AddMember(Opened(db, now, k, game), now, pool, k).Fail?
    ensures CreateRoom(db, now, pool, k, game, expected, code) == AddMember(Opened(db, now, k, game), now, pool, k)
  {
  }

  lemma CreateIs(db: Db, pool: Pool, now: int, k: Key, game: nat, expected: nat, code: nat)
    requires k.device in db.devices && k.room !in db.rooms && code !in db.invites
    requires game in db.games && db.games[game].enabled && db.games[game].revision == expected
    requires var a := Opened(db, now, k, game);
             AddMember(a, now, pool, k).Done? && AddMember(a, now, pool, k).db.invites == db.invites
             && k.room in AddMember(a, now, pool, k).db.rooms
    ensures CreateRoom(db, now, pool, k, game, expected, code).Done?
  {
  }
}
