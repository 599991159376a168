/** Exactly when transactions on rooms, accounts and leases succeed, and what the sweep removes. */
module RoomExact {
  import opened Bytes
  import opened Rooms
  import opened RoomAdmission
  import opened RoomEffects
  import opened RoomSafety
  import Quarantine

  // ---------------------------------------------------------------- members

  /** Somebody else who is active in the room has the MAC. */
  predicate MacElsewhere(db: Db, k: Key, mac: seq<byte>) {
    exists o <- db.members :: o.room == k.room && o.device != k.device && db.members[o].active
                              && db.members[o].mac == Some(mac)
  }

  /** A heartbeat is accepted exactly from an active member that speaks this version, with no MAC or with a good one
      that nobody else in the room has. */
  lemma HeartbeatExactly(db: Db, now: int, k: Key, version: bool, mac: MacText)
    ensures Heartbeat(db, now, k, version, mac).Done?
            <==> && PlaysIn(db, now, k) && version
                 && (mac.Empty? || (mac.Parsed? && !MacElsewhere(db, k, mac.octets)))
    ensures PlaysIn(db, now, k) && !version ==> Heartbeat(db, now, k, version, mac) == Fail(LanVersion)
    ensures PlaysIn(db, now, k) && version && mac.Parsed? && MacElsewhere(db, k, mac.octets) ==>
              Heartbeat(db, now, k, version, mac) == Fail(MacConflict)
  {
    PlaysIs(db, now, k);
  }

  /** Leaving succeeds exactly for a player who is, or was, a member of the room, and ends the membership if the
      room was open to it. */
  lemma LeftExactly(db: Db, pool: Pool, now: int, k: Key)
    requires Sound(db, pool)
    ensures Leave(db, now, k).Done? <==> MayPlay(db, now, k.device) && k.room in db.rooms && k in db.members
    ensures Leave(db, now, k).Done? ==>
              var x := Leave(db, now, k).db;
              if PlaysIn(db, now, k) then Ended(db, x, now, k) && x.rooms == Raised(db.rooms, k.room) else x == db
  {
    PlaysIs(db, now, k);
    if Leave(db, now, k).Done? && PlaysIn(db, now, k) {
      RevokeEnds(db, pool, now, k);
    }
  }

  // ---------------------------------------------------------------- owners

  /** An active player of another user, who can be kicked or made the owner. */
  predicate OtherPlays(db: Db, now: int, k: Key, target: Key) {
    PlaysIn(db, now, target) && k.device in db.devices && db.members[target].user != db.devices[k.device].user
  }

  /** What the owner's action needs of the tables besides. */
  predicate ActionFits(db: Db, now: int, k: Key, action: Action) {
    match action
    case Kick(device) => OtherPlays(db, now, k, Key(k.room, device))
    case Transfer(device) => OtherPlays(db, now, k, Key(k.room, device))
    case NewInvite(code) => code in db.invites ==> db.invites[code].room == k.room
    case _ => true
  }

  lemma ActedExactly(db: Db, now: int, k: Key, action: Action)
    requires Owns(db, now, k) && InForce(db, now, k.room)
    ensures Acted(db, now, k, action).Done? <==> ActionFits(db, now, k, action)
  {
    match action
    case Kick(device) => PlaysIs(db, now, Key(k.room, device));
    case Transfer(device) => PlaysIs(db, now, Key(k.room, device));
    case _ =>
  }

  /** The owner's action succeeds exactly when the room is closed for the second time, or is open, has the revision the
      owner names, and the action fits. */
  lemma ActionExactly(db: Db, now: int, k: Key, action: Action, expected: nat)
    ensures RoomAction(db, now, k, action, expected).Done?
            <==> && Owns(db, now, k)
                 && ((action.CloseRoom? && db.rooms[k.room].closed)
                     || (InForce(db, now, k.room) && db.rooms[k.room].revision == expected
                         && ActionFits(db, now, k, action)))
    ensures MayPlay(db, now, k.device) && k.room in db.rooms && !Owns(db, now, k) ==>
              RoomAction(db, now, k, action, expected) == Fail(OwnerRequired)
    ensures Owns(db, now, k) && InForce(db, now, k.room) && db.rooms[k.room].revision != expected ==>
              RoomAction(db, now, k, action, expected) == Fail(RevisionConflict)
  {
    PlaysIs(db, now, k);
    if Owns(db, now, k) && InForce(db, now, k.room) {
      ActedExactly(db, now, k, action);
    }
  }

  /** The administrator's succeeds exactly in a room that is not closed, on a player who is active there. */
  lemma AdminExactly(db: Db, now: int, r: nat, kicked: Option<nat>)
    ensures AdminRoomAction(db, now, r, kicked).Done?
            <==> && r in db.rooms && !db.rooms[r].closed
                 && (kicked.Some? ==> PlaysIn(db, now, Key(r, kicked.value)))
  {
    if kicked.Some? {
      PlaysIs(db, now, Key(r, kicked.value));
    }
  }

  // ---------------------------------------------------------------- accounts

  /** The device's user is active on another one, as member o. */
  predicate PlaysOnAnother(db: Db, d: nat, o: Key) {
    OfSameUser(db, d, o) && o.device != d
  }

  lemma OnlyAnother(db: Db, pool: Pool, d: nat, a: Key, b: Key)
    requires Sound(db, pool) && PlaysOnAnother(db, d, a) && PlaysOnAnother(db, d, b)
    ensures a == b
  {
  }

  /** A takeover succeeds exactly when the user is active on another device, as the member and in the revision that it
      names; that membership ends. */
  lemma TakenOverExactly(db: Db, pool: Pool, now: int, d: nat, seen: Key, expected: nat)
    requires Sound(db, pool)
    ensures Takeover(db, now, d, seen, expected).Done?
            <==> && MayPlay(db, now, d) && PlaysOnAnother(db, d, seen)
                 && seen.room in db.rooms && db.rooms[seen.room].revision == expected
    ensures Takeover(db, now, d, seen, expected).Done? ==>
              var x := Takeover(db, now, d, seen, expected).db;
              Ended(db, x, now, seen) && x.rooms == Raised(db.rooms, seen.room)
    ensures MayPlay(db, now, d) && !(exists o :: PlaysOnAnother(db, d, o)) ==>
              Takeover(db, now, d, seen, expected) == Fail(StateStale)
  {
    PlaysIs(db, now, Key(0, d));
    if MayPlay(db, now, d) {
      AnotherIs(db, d);
      if o :| PlaysOnAnother(db, d, o) {
        AnotherTargets(db, pool, d, o);
        RevokeEnds(db, pool, now, o);
        OneRaised(db.rooms, o);
      }
    }
  }

  lemma AnotherIs(db: Db, d: nat)
    requires d in db.devices
    ensures forall o :: Elsewhere(db, db.devices[d].user, d, o) <==> PlaysOnAnother(db, d, o)
  {
  }

  lemma AnotherTargets(db: Db, pool: Pool, d: nat, o: Key)
    requires Sound(db, pool) && PlaysOnAnother(db, d, o)
    ensures ElsewhereTargets(db, db.devices[d].user, d) == {One(o.room, o.device)}
    ensures forall k :: Elsewhere(db, db.devices[d].user, d, k) ==> k == o
  {
    AnotherIs(db, d);
    forall k | Elsewhere(db, db.devices[d].user, d, k)
      ensures k == o
    {
      OnlyAnother(db, pool, d, k, o);
    }
    assert Elsewhere(db, db.devices[d].user, d, o);
  }

  lemma OneRaised(rooms: map<nat, Room>, o: Key)
    ensures Renumber(rooms, {One(o.room, o.device)}) == Raised(rooms, o.room)
  {
    var ts := {One(o.room, o.device)};
    assert At(ts, o.room) == ts;
    assert forall r :: r != o.room ==> At(ts, r) == {};
  }

  /** The user of a device that may play is registered. */
  predicate Registered(db: Db, now: int, d: nat) {
    MayPlay(db, now, d) && db.users[db.devices[d].user].registered
  }

  /** A registered user may revoke its other devices, and log out. */
  lemma RevokedExactly(db: Db, now: int, d: nat, target: nat)
    ensures RevokeDevice(db, now, d, target).Done?
            <==> && Registered(db, now, d) && target != d
                 && target in db.devices && db.devices[target].user == db.devices[d].user
    ensures Logout(db, now, d).Done? <==> Registered(db, now, d)
    ensures MayPlay(db, now, d) && !Registered(db, now, d) ==>
              Logout(db, now, d) == RevokeDevice(db, now, d, target) == Fail(GuestForbidden)
  {
    PlaysIs(db, now, Key(0, d));
  }

  /** An administrator's action on an account succeeds exactly when it is there, not
      deleted, and the device is its own. */
  lemma AccountExactly(db: Db, now: int, user: nat, action: AccountAction)
    ensures UserAction(db, now, user, action).Done?
            <==> && user in db.users && db.users[user].standing != Deleted
                 && (action.RevokeOne? ==> action.device in db.devices && db.devices[action.device].user == user)
  {
  }

  /** Nothing that is another user's is touched: its devices, its rooms but for their number, the invitations to them,
      and its memberships outside the rooms that end. */
  predicate OthersUntouched(before: Db, after: Db, user: nat, closing: bool) {
    && before.devices.Keys == after.devices.Keys && before.members.Keys == after.members.Keys
    && before.rooms.Keys == after.rooms.Keys
    && (forall d <- before.devices :: before.devices[d].user != user ==> after.devices[d] == before.devices[d])
    && (forall r <- before.rooms :: before.rooms[r].owner != user || !closing ==>
          after.rooms[r] == before.rooms[r].(revision := after.rooms[r].revision))
    && (forall c <- before.invites ::
          before.invites[c].room !in before.rooms || before.rooms[before.invites[c].room].owner != user || !closing ==>
            c in after.invites && after.invites[c] == before.invites[c])
    && (forall k <- before.members ::
          before.members[k].user != user
          && (k.room !in before.rooms || before.rooms[k.room].owner != user || !closing) ==>
            after.members[k] == before.members[k])
  }

  lemma CutHits(db: Db, user: nat, device: Option<nat>, closing: bool, rs: set<nat>, k: Key)
    requires k in db.members && db.members[k].user != user
    requires k.room !in db.rooms || db.rooms[k.room].owner != user || !closing
    ensures !Hits(Cut(db, user, device, closing, rs), k)
  {
  }

  lemma CutSpares(db: Db, now: int, user: nat, device: Option<nat>, closing: bool)
    ensures OthersUntouched(db, CutOff(db, now, user, device, closing), user, closing)
  {
    var rs := Visited(db, user, device, closing);
    forall k | k in db.members && db.members[k].user != user
               && (k.room !in db.rooms || db.rooms[k.room].owner != user || !closing)
      ensures !Hits(Cut(db, user, device, closing, rs), k)
    {
      CutHits(db, user, device, closing, rs, k);
    }
    CutRooms(db, now, user, device, closing, rs);
  }

  lemma CutRooms(db: Db, now: int, user: nat, device: Option<nat>, closing: bool, rs: set<nat>)
    ensures var x := CutIn(db, now, user, device, closing, rs);
            && x.rooms.Keys == db.rooms.Keys && x.devices == db.devices
            && (forall r <- db.rooms :: db.rooms[r].owner != user || !closing ==>
                  x.rooms[r] == db.rooms[r].(revision := x.rooms[r].revision))
            && (forall c <- db.invites ::
                  db.invites[c].room !in db.rooms || db.rooms[db.invites[c].room].owner != user || !closing ==>
                    c in x.invites && x.invites[c] == db.invites[c])
  {
  }

  /** An action on an account touches nobody else's. */
  lemma AccountSpares(db: Db, now: int, user: nat, action: AccountAction)
    requires UserAction(db, now, user, action).Done?
    ensures OthersUntouched(db, UserAction(db, now, user, action).db, user, action.Delete?)
  {
    match action
    case Delete => CutSpares(SetStanding(db, user, Deleted), now, user, None, true);
    case LogoutAll => CutSpares(RevokeGrants(db, user, None), now, user, None, false);
    case RevokeOne(d) => CutSpares(RevokeGrants(db, user, Some(d)), now, user, Some(d), false);
    case _ =>
  }

  // ---------------------------------------------------------------- leases

  /** The lease would end at m: ten minutes from the signing clock, or with its room, its device's grant or the CA. */
  predicate EndsAt(db: Db, k: Key, s: Signing, m: int) {
    && k.room in db.rooms && k.device in db.devices
    && m <= s.clock + 600_000_000_000 && m <= db.rooms[k.room].expires && m <= s.ca
    && (db.devices[k.device].expires.Some? ==> m <= db.devices[k.device].expires.value)
    && (m in {s.clock + 600_000_000_000, db.rooms[k.room].expires, s.ca} || db.devices[k.device].expires == Some(m))
  }

  /** The certificate: for this member at its address, from half a minute ago to m, cut to the second. */
  function CertTo(db: Db, k: Key, s: Signing, m: int): Cert
    requires k in db.members
  {
    Cert(k.device, Some(k.room), db.members[k].ip, s.key, s.later - 30_000_000_000, m - m % 1_000_000_000)
  }

  /** A member's lease is issued exactly when it plays in the room and a minute or more is left; then the certificate
      is on record, the member was seen, and nothing else changed. */
  lemma LeasedExactly(db: Db, now: int, k: Key, s: Signing, m: int)
    requires EndsAt(db, k, s, m)
    ensures LeaseRoom(db, now, k, s).Done? <==> PlaysIn(db, now, k) && m >= s.later + 60_000_000_000
    ensures LeaseRoom(db, now, k, s).Done? ==>
              var x, c := LeaseRoom(db, now, k, s).db, CertTo(db, k, s, m);
              && x.certs == (if c in db.certs then db.certs else db.certs[c := false])
              && x.members == db.members[k := db.members[k].(lastSeen := now)]
              && x == db.(certs := x.certs, members := x.members)
    ensures PlaysIn(db, now, k) && m < s.later + 60_000_000_000 ==>
              LeaseRoom(db, now, k, s) == Fail(CaUnavailable)
  {
    PlaysIs(db, now, k);
  }

  /** A node's, exactly when its binding is current and the node serves; it ends in ten minutes or with the CA. */
  lemma NodeLeasedExactly(db: Db, d: nat, serving: bool, s: Signing, m: int)
    requires m <= s.clock + 600_000_000_000 && m <= s.ca && m in {s.clock + 600_000_000_000, s.ca}
    ensures LeaseNode(db, d, serving, s).Done?
            <==> d in db.nodes && db.nodes[d].current && serving && m >= s.later + 60_000_000_000
    ensures LeaseNode(db, d, serving, s).Done? ==>
              var x := LeaseNode(db, d, serving, s).db;
              var c := Cert(d, None, db.nodes[d].ip, s.key, s.later - 30_000_000_000, m - m % 1_000_000_000);
              x == db.(certs := if c in db.certs then db.certs else db.certs[c := false])
  {
  }

  // ---------------------------------------------------------------- addresses

  /** The address is taken, or still rests. */
  predicate Unavailable(rows: map<int, Address>, now: int, ip: int) {
    ip in rows && (rows[ip].release.Some? ==> rows[ip].release.value >= now)
  }

  /** A holder keeps the address it has; any other gets the lowest usable one that is available, and addresses whose
      rest is over are forgotten. */
  lemma AllocatedExactly(rows: map<int, Address>, now: int, pool: Pool, h: Holder)
    requires Allocate(rows, now, pool, h).Some?
    ensures var seat := Allocate(rows, now, pool, h).value;
            if exists ip <- rows :: rows[ip] == Address(h, None) then
              seat.ip in rows && rows[seat.ip] == Address(h, None) && seat.addresses == rows
            else
              && pool.base < seat.ip < pool.last && !Unavailable(rows, now, seat.ip)
              && (forall ip | pool.base < ip < seat.ip :: Unavailable(rows, now, ip))
              && seat.addresses == (map ip | ip in rows && Unavailable(rows, now, ip) :: rows[ip])
                                   [seat.ip := Address(h, None)]
  {
    if ip :| ip in rows && rows[ip] == Address(h, None) {
      assert Live(rows, ip, h);
    } else {
      assert forall ip :: !Live(rows, ip, h);
      assert Purge(rows, now) == map ip | ip in rows && Unavailable(rows, now, ip) :: rows[ip];
      Quarantine.LowestIsTaken(rows, now, pool, h);
    }
  }

  // ---------------------------------------------------------------- node devices

  /** A usable address that is nobody's, or whose rest is over. */
  predicate Unused(db: Db, now: int, pool: Pool, ip: int) {
    && pool.base < ip < pool.last
    && (ip in db.addresses ==> db.addresses[ip].release.Some? && db.addresses[ip].release.value < now)
  }

  /** A node's device is enrolled exactly when no table knows it and an address is left for it. */
  lemma EnrolledExactly(db: Db, now: int, pool: Pool, d: nat)
    ensures Enroll(db, now, pool, d).Done?
            <==> && d !in db.devices && d !in db.nodes
                 && ((exists ip <- db.addresses :: db.addresses[ip] == Address(OfNode(d), None))
                     || exists ip :: Unused(db, now, pool, ip))
  {
    forall ip | pool.base < ip < pool.last
      ensures Unused(db, now, pool, ip) <==> !(ip in db.addresses && !Overdue(db.addresses[ip].release, now))
    {
    }
    if ip :| ip in db.addresses && db.addresses[ip] == Address(OfNode(d), None) {
      assert Live(db.addresses, ip, OfNode(d));
    }
    Quarantine.ExhaustedExactly(db.addresses, now, pool, OfNode(d));
  }

  predicate RestsUntil(db: Db, now: int, d: nat, release: Option<int>) {
    && release.Some? && release.value >= now + 660_000_000_000
    && (forall c <- db.certs :: c.device == d ==> c.expires <= release.value)
    && (release.value == now + 660_000_000_000 || exists c <- db.certs :: c.device == d && c.expires == release.value)
  }

  /** What becomes of address ip when the node's device is revoked for good. */
  predicate NodeRow(db: Db, now: int, d: nat, ip: int, row: Address)
    requires ip in db.addresses
  {
    if db.addresses[ip] != Address(OfNode(d), None) then row == db.addresses[ip]
    else row.holder == OfNode(d) && RestsUntil(db, now, d, row.release)
  }

  lemma NodeRowExactly(db: Db, now: int, d: nat, ip: int)
    requires d in db.nodes && ip in db.addresses
    ensures var x := RevokeNode(db, now, d, true);
            x.addresses.Keys == db.addresses.Keys && NodeRow(db, now, d, ip, x.addresses[ip])
  {
    var certs := RevokeDeviceCerts(db.certs, d);
    assert certs.Keys == db.certs.Keys;
  }

  /** Revoking a node revokes exactly its certificates; for good, its address rests for eleven minutes and until the
      last of them has ended, and no longer. */
  lemma NodeRevokedExactly(db: Db, now: int, d: nat, permanent: bool)
    ensures var x := RevokeNode(db, now, d, permanent);
            && x.certs.Keys == db.certs.Keys
            && (forall c <- db.certs :: x.certs[c] == (db.certs[c] || c.device == d))
            && (!permanent || d !in db.nodes ==> x == db.(certs := x.certs))
    ensures permanent && d in db.nodes ==>
              var x := RevokeNode(db, now, d, permanent);
              && x.nodes == db.nodes[d := Binding(db.nodes[d].ip, false)] && x.addresses.Keys == db.addresses.Keys
              && x == db.(certs := x.certs, nodes := x.nodes, addresses := x.addresses)
              && forall ip <- db.addresses :: NodeRow(db, now, d, ip, x.addresses[ip])
  {
    if permanent && d in db.nodes {
      forall ip | ip in db.addresses
        ensures ip in RevokeNode(db, now, d, true).addresses
        ensures NodeRow(db, now, d, ip, RevokeNode(db, now, d, true).addresses[ip])
      {
        NodeRowExactly(db, now, d, ip);
      }
    }
  }

  // ---------------------------------------------------------------- the sweep

  /** The membership goes: its device must be updated, or its room is over. */
  predicate SweptOut(db: Db, now: int, required: set<nat>, k: Key) {
    || (k.device in required && k in db.members && db.members[k].active)
    || (k.room in db.rooms && !db.rooms[k.room].closed && db.rooms[k.room].expires <= now)
  }

  lemma OutdatedIs(db: Db, now: int, required: set<nat>, k: Key)
    requires k in db.members
    ensures Hits(OutdatedTargets(db.members, required), k) <==> k.device in required && db.members[k].active
  {
  }

  lemma ExpiredIs(db: Db, now: int, required: set<nat>, r: nat)
    ensures r in ExpiredRooms(EnforceUpdates(db, now, required), now)
            <==> r in db.rooms && !db.rooms[r].closed && db.rooms[r].expires <= now
  {
  }

  lemma MarksHit(rs: set<nat>, k: Key)
    ensures Hits(Marks(rs), k) <==> k.room in rs
  {
  }

  /** Exactly the memberships of devices to be updated and of rooms that are over end. */
  lemma SweptMembers(db: Db, now: int, required: set<nat>, k: Key)
    requires k in db.members
    ensures k in Sweep(db, now, required).members
    ensures Sweep(db, now, required).members[k]
            == if SweptOut(db, now, required, k) then db.members[k].(active := false) else db.members[k]
  {
    OutdatedIs(db, now, required, k);
    ExpiredIs(db, now, required, k.room);
    MarksHit(ExpiredRooms(EnforceUpdates(db, now, required), now), k);
  }

  /** Exactly the rooms that are over are closed; nothing but numbers changes in the others. */
  lemma SweptRooms(db: Db, now: int, required: set<nat>, r: nat)
    requires r in db.rooms
    ensures r in Sweep(db, now, required).rooms
    ensures var x := Sweep(db, now, required).rooms[r];
            && x == db.rooms[r].(revision := x.revision, closed := x.closed)
            && (x.closed <==> db.rooms[r].closed || db.rooms[r].expires <= now)
  {
    ExpiredIs(db, now, required, r);
  }

  /** Exactly what is past is forgotten: invitations and rested addresses at once, certificates after an hour. */
  lemma SweptAway(db: Db, now: int, required: set<nat>)
    ensures var x := Sweep(db, now, required);
            && (forall c :: c in x.invites <==> c in db.invites && db.invites[c].expires >= now)
            && (forall c <- x.invites :: x.invites[c] == db.invites[c])
            && (forall c :: c in x.certs <==> c in db.certs && c.expires >= now - 3_600_000_000_000)
            && x.users == db.users && x.devices == db.devices && x.games == db.games && x.bans == db.bans
            && x.nodes == db.nodes && x.rooms.Keys == db.rooms.Keys && x.members.Keys == db.members.Keys
  {
  }

  /** The active member at the address is swept out. */
  predicate SeatSwept(db: Db, now: int, required: set<nat>, ip: int, k: Key) {
    k in db.members && db.members[k].active && db.members[k].ip == ip && SweptOut(db, now, required, k)
  }

  /** The sweep frees the address, with the outdated devices or with the rooms that are over. */
  predicate SweepFrees(db: Db, now: int, required: set<nat>, ip: int) {
    var y := EnforceUpdates(db, now, required);
    Freed(db.members, OutdatedTargets(db.members, required), ip) || Freed(y.members, Marks(ExpiredRooms(y, now)), ip)
  }

  lemma OutdatedRow(db: Db, now: int, required: set<nat>, k: Key)
    requires k in db.members
    ensures var y := EnforceUpdates(db, now, required);
            && k in y.members && y.members[k].ip == db.members[k].ip
            && (y.members[k].active <==> db.members[k].active && k.device !in required)
  {
    OutdatedIs(db, now, required, k);
  }

  lemma SeatFreed(db: Db, now: int, required: set<nat>, ip: int, k: Key)
    requires SeatSwept(db, now, required, ip, k)
    ensures SweepFrees(db, now, required, ip)
  {
    var y := EnforceUpdates(db, now, required);
    OutdatedIs(db, now, required, k);
    OutdatedRow(db, now, required, k);
    ExpiredIs(db, now, required, k.room);
    MarksHit(ExpiredRooms(y, now), k);
  }

  lemma FreedSeat(db: Db, now: int, required: set<nat>, ip: int) returns (k: Key)
    requires SweepFrees(db, now, required, ip)
    ensures SeatSwept(db, now, required, ip, k)
  {
    var y := EnforceUpdates(db, now, required);
    var ts, rs := OutdatedTargets(db.members, required), ExpiredRooms(y, now);
    if Freed(db.members, ts, ip) {
      k :| k in db.members && db.members[k].active && Hits(ts, k) && db.members[k].ip == ip;
      OutdatedIs(db, now, required, k);
    } else {
      k :| k in y.members && y.members[k].active && Hits(Marks(rs), k) && y.members[k].ip == ip;
      OutdatedRow(db, now, required, k);
      ExpiredIs(db, now, required, k.room);
      MarksHit(rs, k);
    }
  }

  lemma SweptRow(db: Db, now: int, required: set<nat>, ip: int)
    requires ip in db.addresses && (SweepFrees(db, now, required, ip) ==> db.addresses[ip].release.None?)
    ensures var x, row := Sweep(db, now, required).addresses, db.addresses[ip];
            if SweepFrees(db, now, required, ip) then
              ip in x && x[ip] == Address(row.holder, Some(now + 660_000_000_000))
            else if row.release.Some? && row.release.value < now then ip !in x
            else ip in x && x[ip] == row
  {
  }

  /** An address row is forgotten exactly when its rest is over; one of a swept membership begins its rest of eleven
      minutes, and every other row stays as it is. */
  lemma SweptAddress(db: Db, pool: Pool, now: int, required: set<nat>, ip: int)
    requires Sound(db, pool) && ip in db.addresses
    ensures var x, row := Sweep(db, now, required).addresses, db.addresses[ip];
            if exists k :: SeatSwept(db, now, required, ip, k) then
              ip in x && x[ip] == Address(row.holder, Some(now + 660_000_000_000))
            else if row.release.Some? && row.release.value < now then ip !in x
            else ip in x && x[ip] == row
  {
    if SweepFrees(db, now, required, ip) {
      var k := FreedSeat(db, now, required, ip);
      assert Live(db.addresses, db.members[k].ip, OfMember(k.device));
    }
    if k :| SeatSwept(db, now, required, ip, k) {
      SeatFreed(db, now, required, ip, k);
    }
    SweptRow(db, now, required, ip);
  }
}
