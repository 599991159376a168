/** The control plane's transactions as they run: statement by statement, and loop by loop. */
module Store {
  import opened Bytes
  import opened Rooms
  import opened RoomEffects
  import opened RoomSafety
  import opened RoomRuns
  import opened Times
  import Quarantine

  // ---------------------------------------------------------------- loops add up

  lemma CertsTwice(certs: map<Cert, bool>, a: set<Target>, b: set<Target>)
    ensures RevokeCerts(RevokeCerts(certs, a), b) == RevokeCerts(certs, a + b)
  {
  }

  lemma MembersTwice(members: map<Key, Member>, a: set<Target>, b: set<Target>)
    ensures Deactivate(Deactivate(members, a), b) == Deactivate(members, a + b)
  {
  }

  lemma FreedTwice(members: map<Key, Member>, a: set<Target>, b: set<Target>, ip: int)
    ensures Freed(members, a + b, ip) <==> Freed(members, a, ip) || Freed(Deactivate(members, a), b, ip)
  {
    var x := Deactivate(members, a);
    if Freed(members, a + b, ip) {
      var k :| k in members && members[k].active && Hits(a + b, k) && members[k].ip == ip;
      assert Hits(a, k) || (Hits(b, k) && x[k].active && x[k].ip == ip);
    }
    if Freed(members, a, ip) {
      var k :| k in members && members[k].active && Hits(a, k) && members[k].ip == ip;
      assert Hits(a + b, k);
    }
    if Freed(x, b, ip) {
      var k :| k in x && x[k].active && Hits(b, k) && x[k].ip == ip;
      assert k in members && members[k].active && Hits(a + b, k) && members[k].ip == ip;
    }
  }

  lemma AddressesTwice(addresses: map<int, Address>, members: map<Key, Member>, a: set<Target>, b: set<Target>,
      release: int)
    ensures ReleaseAt(ReleaseAt(addresses, members, a, release), Deactivate(members, a), b, release)
            == ReleaseAt(addresses, members, a + b, release)
  {
    forall ip | ip in addresses
      ensures Freed(members, a + b, ip) <==> Freed(members, a, ip) || Freed(Deactivate(members, a), b, ip)
    {
      FreedTwice(members, a, b, ip);
    }
  }

  /** Revoking one group after another is revoking them at once: the order does not matter. */
  lemma RevokeTwice(db: Db, now: int, a: set<Target>, b: set<Target>)
    ensures Revoke(Revoke(db, now, a), now, b) == Revoke(db, now, a + b)
  {
    CertsTwice(db.certs, a, b);
    MembersTwice(db.members, a, b);
    AddressesTwice(db.addresses, db.members, a, b, now + QUARANTINE);
  }

  lemma AtTwice(a: set<Target>, b: set<Target>, r: nat)
    requires a !! b
    ensures |At(a + b, r)| == |At(a, r)| + |At(b, r)|
  {
    assert At(a + b, r) == At(a, r) + At(b, r);
  }

  lemma RenumberTwice(rooms: map<nat, Room>, a: set<Target>, b: set<Target>)
    requires a !! b
    ensures Renumber(Renumber(rooms, a), b) == Renumber(rooms, a + b)
  {
    forall r | r in rooms
      ensures |At(a + b, r)| == |At(a, r)| + |At(b, r)|
    {
      AtTwice(a, b, r);
    }
  }

  lemma AtOne(t: Target, r: nat)
    ensures |At({t}, r)| == if r == t.room then 1 else 0
  {
    assert At({t}, r) == if r == t.room then {t} else {};
  }

  lemma RaiseOne(rooms: map<nat, Room>, t: Target)
    ensures Raised(rooms, t.room) == Renumber(rooms, {t})
  {
    var a, b := Raised(rooms, t.room), Renumber(rooms, {t});
    assert a.Keys == b.Keys;
    forall r | r in a
      ensures a[r] == b[r]
    {
      AtOne(t, r);
    }
  }

  lemma BumpOne(db: Db, t: Target)
    ensures Bump(db, t.room) == BumpEach(db, {t})
  {
    RaiseOne(db.rooms, t);
  }

  /** Ending two disjoint groups one after the other, each row with its bump, is ending both. */
  lemma EndTwice(db: Db, now: int, a: set<Target>, b: set<Target>)
    requires a !! b
    ensures var x := BumpEach(Revoke(db, now, a), a);
            BumpEach(Revoke(x, now, b), b) == BumpEach(Revoke(db, now, a + b), a + b)
  {
    RevokeTwice(db, now, a, b);
    RenumberTwice(db.rooms, a, b);
  }

  lemma NoneHit(db: Db)
    ensures Deactivate(db.members, {}) == db.members && RevokeCerts(db.certs, {}) == db.certs
    ensures forall release :: ReleaseAt(db.addresses, db.members, {}, release) == db.addresses
    ensures Renumber(db.rooms, {}) == db.rooms && Closed(db.rooms, {}) == db.rooms
  {
    assert forall r :: At({}, r) == {};
    assert Renumber(db.rooms, {}) == db.rooms;
    forall release
      ensures ReleaseAt(db.addresses, db.members, {}, release) == db.addresses
    {
      assert forall ip :: !Freed(db.members, {}, ip);
    }
  }

  lemma RevokeNone(db: Db, now: int)
    ensures Revoke(db, now, {}) == db && BumpEach(db, {}) == db && Close(db, {}) == db
  {
    NoneHit(db);
  }

  lemma RoomsTwice(rooms: map<nat, Room>, ended: set<nat>, a: set<Target>, more: set<nat>, b: set<Target>)
    requires a !! b
    ensures Renumber(Closed(Renumber(Closed(rooms, ended), a), more), b) == Renumber(Closed(rooms, ended + more), a + b)
  {
    var x := Renumber(Closed(Renumber(Closed(rooms, ended), a), more), b);
    var y := Renumber(Closed(rooms, ended + more), a + b);
    forall o | o in rooms
      ensures x[o] == y[o]
    {
      AtTwice(a, b, o);
    }
    assert x.Keys == y.Keys;
  }

  lemma RunOutMore(db: Db, now: int, rs: set<nat>, r: nat)
    requires r !in rs
    ensures Bump(Close(Revoke(RunOut(db, now, rs), now, {All(r)}), {r}), r) == RunOut(db, now, rs + {r})
  {
    assert Marks(rs + {r}) == Marks(rs) + {All(r)};
    RevokeTwice(db, now, Marks(rs), {All(r)});
    RoomsTwice(db.rooms, rs, Marks(rs), {r}, {All(r)});
    BumpOne(Close(Revoke(RunOut(db, now, rs), now, {All(r)}), {r}), All(r));
  }

  lemma CutSplits(db: Db, user: nat, device: Option<nat>, closeOwned: bool, rs: set<nat>, r: nat)
    ensures Cut(db, user, device, closeOwned, rs + {r}) == Cut(db, user, device, closeOwned, rs)
            + Cut(db, user, device, closeOwned, {r})
    ensures Ending(db, user, closeOwned, rs + {r}) == Ending(db, user, closeOwned, rs)
            + Ending(db, user, closeOwned, {r})
    ensures Marks(rs + {r}) == Marks(rs) + Marks({r}) && (r !in rs ==> Marks(rs) !! Marks({r}))
  {
    assert Ending(db, user, closeOwned, rs + {r}) == Ending(db, user, closeOwned, rs)
      + Ending(db, user, closeOwned, {r});
    forall t | t in Cut(db, user, device, closeOwned, rs + {r})
      ensures t in Cut(db, user, device, closeOwned, rs) + Cut(db, user, device, closeOwned, {r})
    {
    }
  }

  /** What is cut in a room depends on its rows and its owner alone. */
  lemma CutLocal(db: Db, x: Db, user: nat, device: Option<nat>, closeOwned: bool, r: nat)
    requires x.members.Keys == db.members.Keys && forall k <- db.members :: k.room == r ==>
             x.members[k] == db.members[k]
    requires x.rooms.Keys == db.rooms.Keys && forall o <- db.rooms :: x.rooms[o].owner == db.rooms[o].owner
    ensures Cut(x, user, device, closeOwned, {r}) == Cut(db, user, device, closeOwned, {r})
    ensures Ending(x, user, closeOwned, {r}) == Ending(db, user, closeOwned, {r})
  {
    assert Ends(x, user, closeOwned, r) <==> Ends(db, user, closeOwned, r);
    assert Ending(x, user, closeOwned, {r}) == Ending(db, user, closeOwned, {r});
    forall k: Key | k.room == r
      ensures Connected(x, user, device, k) <==> Connected(db, user, device, k)
    {
    }
  }

  lemma UnhitRows(members: map<Key, Member>, ts: set<Target>, r: nat)
    requires forall t <- ts :: t.room != r
    ensures forall k <- members :: k.room == r ==> Deactivate(members, ts)[k] == members[k]
  {
    forall k | k in members && k.room == r
      ensures !Hits(ts, k)
    {
    }
  }

  /** Cutting a user off in some rooms changes nothing in another one. */
  lemma CutSpares(db: Db, now: int, user: nat, device: Option<nat>, closeOwned: bool, rs: set<nat>, r: nat)
    requires r !in rs
    ensures var x := CutIn(db, now, user, device, closeOwned, rs);
            && Cut(x, user, device, closeOwned, {r}) == Cut(db, user, device, closeOwned, {r})
            && Ending(x, user, closeOwned, {r}) == Ending(db, user, closeOwned, {r})
  {
    var ts := Cut(db, user, device, closeOwned, rs);
    assert forall t <- ts :: t.room in rs;
    UnhitRows(db.members, ts, r);
    CutLocal(db, CutIn(db, now, user, device, closeOwned, rs), user, device, closeOwned, r);
  }

  lemma InvitesTwice(db: Db, a: set<nat>, b: set<nat>)
    ensures DropInvites(DropInvites(db, a), b).invites == DropInvites(db, a + b).invites
  {
  }

  /** One more room: the order in which a user's rooms are visited does not matter. */
  lemma CutMore(db: Db, now: int, user: nat, device: Option<nat>, closeOwned: bool, rs: set<nat>, r: nat)
    requires r !in rs
    ensures CutIn(CutIn(db, now, user, device, closeOwned, rs), now, user, device, closeOwned, {r})
            == CutIn(db, now, user, device, closeOwned, rs + {r})
  {
    var a, b := Cut(db, user, device, closeOwned, rs), Cut(db, user, device, closeOwned, {r});
    var e, f := Ending(db, user, closeOwned, rs), Ending(db, user, closeOwned, {r});
    CutSplits(db, user, device, closeOwned, rs, r);
    CutSpares(db, now, user, device, closeOwned, rs, r);
    RevokeTwice(db, now, a, b);
    RoomsTwice(db.rooms, e, Marks(rs), f, Marks({r}));
    InvitesTwice(db, e, f);
  }

  /** One more device's rows: they are the same whether the others have been ended or not. */
  lemma EnforceMore(db: Db, now: int, ds: set<nat>, d: nat)
    requires d !in ds
    ensures var x := Rooms.EnforceUpdates(db, now, ds);
            Rooms.EnforceUpdates(x, now, {d}) == Rooms.EnforceUpdates(db, now, ds + {d})
  {
    var a, b := OutdatedTargets(db.members, ds), OutdatedTargets(db.members, {d});
    var x := Rooms.EnforceUpdates(db, now, ds);
    forall k | k in db.members && k.device == d
      ensures x.members[k] == db.members[k]
    {
      assert !Hits(a, k);
    }
    assert OutdatedTargets(x.members, {d}) == b;
    assert OutdatedTargets(db.members, ds + {d}) == a + b;
    EndTwice(db, now, a, b);
  }

  // ---------------------------------------------------------------- the store

  /** A method that reports `fault` and leaves `after` does what `spec` says; after a
      fault everything is rolled back. */
  predicate Agrees(fault: Option<Code>, after: Db, spec: Outcome) {
    match spec
    case Done(x) => fault == None && after == x
    case Fail(c) => fault == Some(c)
  }

  lemma LeasesFit(db: Db, now: int, k: Key, s: Signing)
    requires Rooms.LeaseRoom(db, now, k, s).Done?
    ensures forall c <- Rooms.LeaseRoom(db, now, k, s).db.certs ::
              c in db.certs || Quarantine.LeaseFits(db, now, k, s, c)
  {
    forall c | c in Rooms.LeaseRoom(db, now, k, s).db.certs && c !in db.certs
      ensures Quarantine.LeaseFits(db, now, k, s, c)
    {
      Quarantine.LeaseEnds(db, now, k, s, c);
    }
  }

  class Store {
    const pool: Pool
    var users: map<nat, User>
    var devices: map<nat, Grant>
    var games: map<nat, Game>
    var rooms: map<nat, Room>
    var members: map<Key, Member>
    var bans: set<(nat, nat)>
    var addresses: map<int, Address>
    var certs: map<Cert, bool>
    var invites: map<nat, Invite>
    var nodes: map<nat, Binding>

    constructor (pool: Pool)
      ensures this.pool == pool && Tables() == EMPTY && Sound(Tables(), pool)
    {
      this.pool := pool;
      users, devices, games, rooms, members := map[], map[], map[], map[], map[];
      bans, addresses, certs, invites, nodes := {}, map[], map[], map[], map[];
      new;
      AlwaysSound([], pool);
    }

    function Tables(): Db
      reads this
    {
      Db(users, devices, games, rooms, members, bans, addresses, certs, invites, nodes)
    }

    /** allocate: reuse, clean up, or scan upwards from the first usable address. */
    method Allocate(now: int, holder: Holder) returns (ip: Option<int>)
      requires Ordered(addresses, pool)
      modifies `addresses
      ensures match Rooms.Allocate(old(addresses), now, pool, holder)
              case Some(seat) => ip == Some(seat.ip) && addresses == seat.addresses
              case None => ip == None
    {
      if found :| found in addresses && addresses[found] == Address(holder, None) {
        assert Live(addresses, found, holder);
        return Some(found);
      }
      assert forall a :: !Live(addresses, a, holder);
      addresses := map a | a in addresses && !Overdue(addresses[a].release, now) :: addresses[a];
      assert addresses == Purge(old(addresses), now);
      var used := addresses.Keys;
      var a := pool.base + 1;
      while a < pool.last
        invariant addresses == Purge(old(addresses), now) && used == addresses.Keys
        invariant LowestFree(used, pool.base + 1, pool.last) == LowestFree(used, a, pool.last)
        decreases pool.last - a
      {
        if a !in used {
          addresses := addresses[a := Address(holder, None)];
          return Some(a);
        }
        a := a + 1;
      }
      ip := None;
    }

    /** bump. */
    method Bump(r: nat)
      modifies `rooms
      ensures Tables() == Rooms.Bump(old(Tables()), r)
    {
      if r in rooms {
        rooms := rooms[r := rooms[r].(revision := rooms[r].revision + 1)];
      }
    }

    /** revoke: certificates first, then the addresses of the memberships still active, then those. */
    method Revoke(now: int, t: Target)
      modifies `certs, `addresses, `members
      ensures Tables() == Rooms.Revoke(old(Tables()), now, {t})
    {
      certs := map c | c in certs :: certs[c] || HitsCert({t}, c);
      var ips := set k | k in members && members[k].active && Hits({t}, k) :: members[k].ip;
      assert forall ip :: ip in ips <==> Freed(members, {t}, ip);
      addresses := map ip | ip in addresses ::
        if ip in ips then Address(addresses[ip].holder, Some(now + QUARANTINE)) else addresses[ip];
      members := map k | k in members :: if Hits({t}, k) then members[k].(active := false) else members[k];
    }

    /** Revokes and bumps for one row after the other, in whatever order they come. */
    method EndEach(now: int, ts: set<Target>)
      modifies this
      ensures Tables() == BumpEach(Rooms.Revoke(old(Tables()), now, ts), ts)
    {
      ghost var start, over := Tables(), {};
      var todo := ts;
      RevokeNone(start, now);
      while todo != {}
        invariant over !! todo && over + todo == ts
        invariant Tables() == BumpEach(Rooms.Revoke(start, now, over), over)
        decreases |todo|
      {
        var t :| t in todo;
        EndTwice(start, now, over, {t});
        Revoke(now, t);
        BumpOne(Tables(), t);
        Bump(t.room);
        todo, over := todo - {t}, over + {t};
      }
      assert over == ts;
    }

    /** available: ends what should have ended, then refuses a user who is active anywhere. */
    method Available(now: int, d: nat) returns (fault: Option<Code>)
      requires Sound(Tables(), pool)
      modifies this
      ensures Agrees(fault, Tables(), Rooms.Available(old(Tables()), now, d))
    {
      var stale := set k | k in members && Stale(Tables(), now, d, k) :: One(k.room, k.device);
      assert stale == StaleTargets(Tables(), now, d);
      EndStaleSound(Tables(), pool, now, d);
      EndEach(now, stale);
      assert Tables() == EndStale(old(Tables()), now, d);
      fault := Occupied(d);
      if fault.None? && d in nodes {
        fault := Some(ScopeConflict);
      }
    }

    /** The row in which the device's user is active, if any. */
    method Occupied(d: nat) returns (fault: Option<Code>)
      requires OnePlace(members)
      ensures fault == if exists k :: Occupies(Tables(), d, k)
                       then Some(if HereAlready(Tables(), d) then AlreadyJoined else AccountInUse) else None
    {
      var rows := set k | k in members && Occupies(Tables(), d, k);
      if rows == {} {
        assert forall k :: Occupies(Tables(), d, k) ==> k in rows;
        return None;
      }
      var row :| row in rows;
      assert forall o :: Occupies(Tables(), d, o) ==> o == row;
      fault := Some(if row.device == d then AlreadyJoined else AccountInUse);
    }

    /** The checks of addMember on the room itself. */
    method Entry(now: int, k: Key) returns (fault: Option<Code>)
      ensures fault == EntryFault(Tables(), now, k)
    {
      if k.room !in rooms || rooms[k.room].game !in games {
        return Some(NotFound);
      }
      var r := rooms[k.room];
      if r.expires <= now {
        return Some(RoomExpired);
      }
      if r.closed {
        return Some(RoomClosed);
      }
      if k.device in devices && (k.room, devices[k.device].user) in bans {
        return Some(RoomBanned);
      }
      if !games[r.game].enabled {
        return Some(GameDisabled);
      }
      var count := |set o | o in members && o.room == k.room && members[o].active|;
      fault := if count >= r.capacity then Some(RoomFull) else None;
    }

    /** addMember. */
    method AddMember(now: int, k: Key) returns (fault: Option<Code>)
      requires Sound(Tables(), pool)
      modifies this
      ensures Agrees(fault, Tables(), Rooms.AddMember(old(Tables()), now, pool, k))
    {
      EndStaleSound(Tables(), pool, now, k.device);
      fault := Available(now, k.device);
      if fault.Some? {
        return;
      }
      fault := Entry(now, k);
      if fault.Some? {
        return;
      }
      var ip := Allocate(now, OfMember(k.device));
      if ip.None? {
        return Some(AddressesExhausted);
      }
      if k.device !in devices {
        return Some(Internal);
      }
      var user := if k in members then members[k].user else devices[k.device].user;
      members := members[k := Member(user, ip.value, None, true, now)];
    }

    /** invitation. */
    method Invite(now: int, r: nat, code: nat) returns (fault: Option<Code>)
      modifies this
      ensures Agrees(fault, Tables(), Invited(old(Tables()), now, r, code))
    {
      if r !in rooms {
        return Some(Internal);
      }
      invites := map c | c in invites && invites[c].room !in {r} :: invites[c];
      if code in invites {
        return Some(Internal);
      }
      invites := invites[code := Rooms.Invite(r, Earlier(now + INVITE_LIFE, rooms[r].expires))];
      Bump(r);
      fault := None;
    }

    /** createRoom. */
    method CreateRoom(now: int, k: Key, game: nat, expected: nat, code: nat) returns (fault: Option<Code>)
      requires Sound(Tables(), pool)
      modifies this
      ensures Agrees(fault, Tables(), Rooms.CreateRoom(old(Tables()), now, pool, k, game, expected, code))
      ensures fault.None? ==> In(Tables(), pool, now, k) && ActiveIn(members, k.room) == {k} && code in invites
    {
      if Sound(Tables(), pool) && Rooms.CreateRoom(Tables(), now, pool, k, game, expected, code).Done? {
        CreateOpens(Tables(), pool, now, k, game, expected, code);
      }
      if game !in games {
        return Some(NotFound);
      }
      if !games[game].enabled {
        return Some(GameDisabled);
      }
      if expected != games[game].revision {
        return Some(RevisionConflict);
      }
      if k.device !in devices || k.room in rooms {
        return Some(Internal);
      }
      NewRoomSound(Tables(), pool, k.room, Room(devices[k.device].user, game, CAPACITY, 1, now + ROOM_LIFE, false));
      rooms := rooms[k.room := Room(devices[k.device].user, game, CAPACITY, 1, now + ROOM_LIFE, false)];
      fault := AddMember(now, k);
      if fault.Some? {
        return;
      }
      fault := Invite(now, k.room, code);
      if fault.Some? {
        return;
      }
      Bump(k.room);
    }

    /** addMember and bump, as joinRoom and playerOwnerJoin do for a device that is not active yet. */
    method Join(now: int, k: Key) returns (fault: Option<Code>)
      requires Sound(Tables(), pool)
      modifies this
      ensures Agrees(fault, Tables(), Joined(old(Tables()), now, pool, k))
    {
      fault := AddMember(now, k);
      if fault.None? {
        Bump(k.room);
      }
    }

    /** joinRoom. */
    method JoinRoom(now: int, d: nat, code: nat) returns (fault: Option<Code>)
      requires Sound(Tables(), pool)
      modifies this
      ensures Agrees(fault, Tables(), Rooms.JoinRoom(old(Tables()), now, pool, d, code))
      ensures fault.None? ==> code in old(invites) && In(Tables(), pool, now, Key(old(invites)[code].room, d))
    {
      if Sound(Tables(), pool) && Rooms.JoinRoom(Tables(), now, pool, d, code).Done? {
        JoinLetsIn(Tables(), pool, now, d, code);
      }
      if code !in invites || invites[code].expires <= now {
        return Some(InviteUnusable);
      }
      var k := Key(invites[code].room, d);
      if ActiveFault(Tables(), now, k).None? {
        return None;
      }
      fault := Join(now, k);
    }

    /** heartbeat. */
    method Heartbeat(now: int, k: Key, version: bool, mac: MacText) returns (fault: Option<Code>)
      modifies this
      ensures Agrees(fault, Tables(), Rooms.Heartbeat(old(Tables()), now, k, version, mac))
      ensures fault.None? ==> ActiveFault(old(Tables()), now, k).None? && OthersStay(old(Tables()), Tables(), k)
      ensures fault.None? && mac.Parsed? ==> !MacTaken(members, k, mac.octets)
    {
      if Rooms.Heartbeat(Tables(), now, k, version, mac).Done? {
        HeartbeatMarks(Tables(), now, k, version, mac);
      }
      fault := ActiveFault(Tables(), now, k);
      if fault.Some? {
        return;
      }
      if !version {
        return Some(LanVersion);
      }
      if mac != Empty {
        if mac == Malformed {
          return Some(Invalid);
        }
        fault := Report(k, mac.octets);
        if fault.Some? {
          return;
        }
      }
      members := members[k := members[k].(lastSeen := now)];
    }

    /** The MAC of an active member, unless another one of the room has it. */
    method Report(k: Key, mac: seq<byte>) returns (fault: Option<Code>)
      requires k in members
      modifies `members, `rooms
      ensures if MacTaken(old(members), k, mac) then fault == Some(MacConflict) && Tables() == old(Tables())
              else fault == None && Tables() == SetMac(old(Tables()), k, mac)
    {
      var others := set o | o in members && o.room == k.room && members[o].active && o != k
        && members[o].mac == Some(mac);
      assert forall o ::
          o in others
          <==> o in members && o.room == k.room && members[o].active && o != k && members[o].mac == Some(mac);
      if others != {} {
        return Some(MacConflict);
      }
      if members[k].mac != Some(mac) {
        members := members[k := members[k].(mac := Some(mac))];
        Bump(k.room);
      }
      fault := None;
    }

    /** issueLease for a member: the end is clamped step by step. */
    method LeaseRoom(now: int, k: Key, s: Signing) returns (fault: Option<Code>)
      modifies this
      ensures Agrees(fault, Tables(), Rooms.LeaseRoom(old(Tables()), now, k, s))
      ensures fault.None? ==> forall c <- certs :: c in old(certs) || Quarantine.LeaseFits(old(Tables()), now, k, s, c)
    {
      if Rooms.LeaseRoom(Tables(), now, k, s).Done? {
        LeasesFit(Tables(), now, k, s);
      }
      fault := ActiveFault(Tables(), now, k);
      if fault.Some? {
        return;
      }
      var until := LeaseEnd(k, s);
      var c := Sign(k.device, Some(k.room), members[k].ip, s, until);
      members := members[k := members[k].(lastSeen := now)];
      if c.None? {
        return Some(CaUnavailable);
      }
      if c.value !in certs {
        certs := certs[c.value := false];
      }
    }

    method LeaseEnd(k: Key, s: Signing) returns (until: int)
      requires k.room in rooms && k.device in devices
      ensures until == Clamp(Earlier(s.clock + LEASE, rooms[k.room].expires), devices[k.device].expires)
    {
      until := s.clock + LEASE;
      if rooms[k.room].expires < until {
        until := rooms[k.room].expires;
      }
      var grant := devices[k.device].expires;
      if grant.Some? && grant.value < until {
        until := grant.value;
      }
    }

    method EnforceDevice(now: int, d: nat)
      modifies this
      ensures Tables() == Rooms.EnforceUpdates(old(Tables()), now, {d})
    {
      var rows := set k | k in members && members[k].active && k.device == d :: One(k.room, k.device);
      assert rows == OutdatedTargets(members, {d});
      EndEach(now, rows);
    }

    /** enforceUpdates: device by device, room by room. */
    method EnforceUpdates(now: int, required: set<nat>)
      modifies this
      ensures Tables() == Rooms.EnforceUpdates(old(Tables()), now, required)
    {
      var ids := set k | k in members && members[k].active :: k.device;
      ghost var start := Tables();
      EnforceDevices(now, required, ids);
      EnforceAll(start, now, required, ids);
    }

    /** Its loop, over the devices that are active somewhere. */
    method EnforceDevices(now: int, required: set<nat>, ids: set<nat>)
      modifies this
      ensures Tables() == Rooms.EnforceUpdates(old(Tables()), now, required * ids)
    {
      ghost var start, over := Tables(), {};
      var todo := ids;
      EnforceNone(start, now, required * over);
      while todo != {}
        invariant over !! todo && over + todo == ids
        invariant Tables() == Rooms.EnforceUpdates(start, now, required * over)
        decreases |todo|
      {
        var d :| d in todo;
        EnforceStep(start, now, required, over, d);
        if d in required {
          EnforceDevice(now, d);
        }
        todo, over := todo - {d}, over + {d};
      }
      assert over == ids;
    }

    /** Sweep. */
    method Sweep(now: int, required: set<nat>)
      modifies this
      ensures Tables() == Rooms.Sweep(old(Tables()), now, required)
    {
      EnforceUpdates(now, required);
      var ids := set r | r in rooms && !rooms[r].closed && rooms[r].expires <= now;
      assert ids == ExpiredRooms(Tables(), now);
      Expire(now, ids);
      invites := map c | c in invites && !(invites[c].expires < now) :: invites[c];
      addresses := map ip | ip in addresses && !Overdue(addresses[ip].release, now) :: addresses[ip];
      certs := map c | c in certs && !(c.expires < now - CERT_KEPT) :: certs[c];
    }

    method Ended(now: int, r: nat)
      modifies this
      ensures Tables() == Rooms.Bump(Close(Rooms.Revoke(old(Tables()), now, {All(r)}), {r}), r)
    {
      Revoke(now, All(r));
      Shutter(r);
      Bump(r);
    }

    method Shutter(r: nat)
      modifies `rooms
      ensures Tables() == Close(old(Tables()), {r})
    {
      rooms := map o | o in rooms :: rooms[o].(closed := rooms[o].closed || o in {r});
    }

    /** The loop of Sweep over the rooms that have run out. */
    method Expire(now: int, ids: set<nat>)
      modifies this
      ensures Tables() == RunOut(old(Tables()), now, ids)
    {
      ghost var start, over := Tables(), {};
      var todo := ids;
      assert Marks({}) == {};
      RevokeNone(start, now);
      while todo != {}
        invariant over !! todo && over + todo == ids
        invariant Tables() == RunOut(start, now, over)
        decreases |todo|
      {
        var r :| r in todo;
        RunOutMore(start, now, over, r);
        Ended(now, r);
        todo, over := todo - {r}, over + {r};
      }
      assert over == ids;
    }

    // -------------------------------------------------------------- memberships that end

    /** Several memberships of one room, row by row. */
    method RevokeEach(now: int, ts: set<Target>)
      modifies `certs, `addresses, `members
      ensures Tables() == Rooms.Revoke(old(Tables()), now, ts)
    {
      ghost var start, over := Tables(), {};
      var todo := ts;
      RevokeNone(start, now);
      while todo != {}
        invariant over !! todo && over + todo == ts
        invariant Tables() == Rooms.Revoke(start, now, over)
        decreases |todo|
      {
        var t :| t in todo;
        RevokeTwice(start, now, over, {t});
        Revoke(now, t);
        todo, over := todo - {t}, over + {t};
      }
      assert over == ts;
    }

    method Uninvite(r: nat)
      modifies `invites
      ensures Tables() == DropInvites(old(Tables()), {r})
    {
      invites := map c | c in invites && invites[c].room !in {r} :: invites[c];
    }

    /** The body of the loop of revokeUserConnections. */
    method CutRoom(now: int, user: nat, device: Option<nat>, closeOwned: bool, r: nat)
      modifies this
      ensures Tables() == CutIn(old(Tables()), now, user, device, closeOwned, {r})
    {
      ghost var start := Tables();
      if r in rooms && rooms[r].owner == user && closeOwned {
        OwnedCut(start, now, user, device, closeOwned, r);
        Revoke(now, All(r));
        Shutter(r);
        Uninvite(r);
      } else {
        var rows := set k | k in members && k.room == r && members[k].user == user && members[k].active
          && Picked(device, k.device)
          :: One(k.room, k.device);
        VisitedCut(start, now, user, device, closeOwned, r);
        assert rows == Cut(start, user, device, closeOwned, {r});
        RevokeEach(now, rows);
      }
      BumpOne(Tables(), All(r));
      Bump(r);
    }

    /** revokeUserConnections. */
    method RevokeUserConnections(now: int, user: nat, device: Option<nat>, closeOwned: bool)
      modifies this
      ensures Tables() == CutOff(old(Tables()), now, user, device, closeOwned)
    {
      var ids := Visited(Tables(), user, device, closeOwned);
      CutRooms(now, user, device, closeOwned, ids);
    }

    /** Its loop, over the rooms found. */
    method CutRooms(now: int, user: nat, device: Option<nat>, closeOwned: bool, ids: set<nat>)
      modifies this
      ensures Tables() == CutIn(old(Tables()), now, user, device, closeOwned, ids)
    {
      ghost var start, over := Tables(), {};
      var todo := ids;
      CutNone(start, now, user, device, closeOwned);
      while todo != {}
        invariant over !! todo && over + todo == ids
        invariant Tables() == CutIn(start, now, user, device, closeOwned, over)
        decreases |todo|
      {
        var r :| r in todo;
        CutMore(start, now, user, device, closeOwned, over, r);
        CutRoom(now, user, device, closeOwned, r);
        todo, over := todo - {r}, over + {r};
      }
      assert over == ids;
    }

    /** takeoverPlayer. */
    method Takeover(now: int, d: nat, seen: Key, expected: nat) returns (fault: Option<Code>)
      requires Sound(Tables(), pool)
      modifies this
      ensures Agrees(fault, Tables(), Rooms.Takeover(old(Tables()), now, d, seen, expected))
    {
      fault := PlayerFault(Tables(), now, d);
      if fault.Some? {
        return;
      }
      var user := devices[d].user;
      var rows := set k | k in members && members[k].user == user && members[k].active && k.device != d;
      assert forall k :: k in rows <==> Elsewhere(Tables(), user, d, k);
      if rows == {} {
        return Some(StateStale);
      }
      var row :| row in rows;
      assert Elsewhere(Tables(), user, d, row);
      assert forall k :: Elsewhere(Tables(), user, d, k) ==> k == row;
      if seen != row || row.room !in rooms || rooms[row.room].revision != expected {
        return Some(RevisionConflict);
      }
      var ts := set k | k in rows :: One(k.room, k.device);
      assert ts == ElsewhereTargets(Tables(), user, d);
      EndEach(now, ts);
      fault := None;
    }

    /** The UPDATE that revokes one device of a user, or all of them. */
    method RevokeGrants(user: nat, device: Option<nat>)
      modifies `devices
      ensures Tables() == Rooms.RevokeGrants(old(Tables()), user, device)
    {
      devices := map d | d in devices ::
        if devices[d].user == user && Picked(device, d) then devices[d].(revoked := true) else devices[d];
    }

    /** revokePlayerDevice. */
    method RevokeDevice(now: int, d: nat, target: nat) returns (fault: Option<Code>)
      modifies this
      ensures Agrees(fault, Tables(), Rooms.RevokeDevice(old(Tables()), now, d, target))
      ensures fault.None? && Sound(old(Tables()), pool) && Tables() != old(Tables()) ==>
                Cleared(Tables(), target) && OtherDevicesStay(old(Tables()), Tables(), target)
    {
      if Sound(Tables(), pool) && Rooms.RevokeDevice(Tables(), now, d, target).Done? {
        RevokeDeviceClears(Tables(), pool, now, d, target);
      }
      fault := PlayerFault(Tables(), now, d);
      if fault.Some? {
        return;
      }
      var user := devices[d].user;
      if !users[user].registered {
        return Some(GuestForbidden);
      }
      if target == d {
        return Some(TargetSelf);
      }
      if target !in devices || devices[target].user != user {
        return Some(NotFound);
      }
      if !devices[target].revoked {
        RevokeGrants(user, Some(target));
        RevokeUserConnections(now, user, Some(target), false);
      }
    }

    /** logoutPlayer. */
    method Logout(now: int, d: nat) returns (fault: Option<Code>)
      modifies this
      ensures Agrees(fault, Tables(), Rooms.Logout(old(Tables()), now, d))
      ensures fault.None? && Sound(old(Tables()), pool) ==>
              Cleared(Tables(), d) && OtherDevicesStay(old(Tables()), Tables(), d)
    {
      if Sound(Tables(), pool) && Rooms.Logout(Tables(), now, d).Done? {
        LogoutClears(Tables(), pool, now, d);
      }
      fault := PlayerFault(Tables(), now, d);
      if fault.Some? {
        return;
      }
      var user := devices[d].user;
      if !users[user].registered {
        return Some(GuestForbidden);
      }
      RevokeGrants(user, Some(d));
      RevokeUserConnections(now, user, Some(d), false);
    }

    /** userAction. */
    method UserAction(now: int, user: nat, action: AccountAction) returns (fault: Option<Code>)
      modifies this
      ensures Agrees(fault, Tables(), Rooms.UserAction(old(Tables()), now, user, action))
      ensures fault.None? && Sound(old(Tables()), pool) ==> AccountEffect(old(Tables()), Tables(), user, action)
    {
      if Sound(Tables(), pool) && Rooms.UserAction(Tables(), now, user, action).Done? {
        UserActionDoes(Tables(), pool, now, user, action);
      }
      fault := None;
      if user !in users {
        return Some(NotFound);
      }
      if users[user].standing == Deleted {
        return Some(UserDeleted);
      }
      match action
      case Enable => users := users[user := users[user].(standing := Active)];
      case Disable => users := users[user := users[user].(standing := Disabled)];
      case Delete =>
        users := users[user := users[user].(standing := Deleted)];
        RevokeUserConnections(now, user, None, true);
      case LogoutAll =>
        RevokeGrants(user, None);
        RevokeUserConnections(now, user, None, false);
      case RevokeOne(d) =>
        if d !in devices || devices[d].user != user {
          return Some(NotFound);
        }
        RevokeGrants(user, Some(d));
        RevokeUserConnections(now, user, Some(d), false);
    }

    // -------------------------------------------------------------- actions on rooms

    /** roomAction with action leave. */
    method Leave(now: int, k: Key) returns (fault: Option<Code>)
      modifies this
      ensures Agrees(fault, Tables(), Rooms.Leave(old(Tables()), now, k))
      ensures fault.None? && Sound(old(Tables()), pool) ==> SelfFault(Tables(), now, k).Some?
    {
      if Sound(Tables(), pool) && Rooms.Leave(Tables(), now, k).Done? {
        LeaveEnds(Tables(), pool, now, k);
      }
      fault := PlayerFault(Tables(), now, k.device);
      if fault.Some? {
        return;
      }
      if k.room !in rooms || k !in members {
        return Some(NotFound);
      }
      if SelfFault(Tables(), now, k).None? {
        Revoke(now, One(k.room, k.device));
        Bump(k.room);
      }
      fault := None;
    }

    /** revoke, banMember and bump, for a kick. */
    method Expel(now: int, target: Key)
      modifies this
      ensures Tables() == Rooms.Bump(Ban(Rooms.Revoke(old(Tables()), now, {One(target.room, target.device)}), target),
              target.room)
    {
      Revoke(now, One(target.room, target.device));
      if target in members {
        bans := bans + {(target.room, members[target].user)};
      }
      Bump(target.room);
    }

    method ShutRoom(now: int, r: nat)
      modifies this
      ensures Tables() == Shut(old(Tables()), now, r)
    {
      Revoke(now, All(r));
      Shutter(r);
      Uninvite(r);
      Bump(r);
    }

    /** The action itself, once the owner's checks have passed. */
    method Act(now: int, k: Key, action: Action) returns (fault: Option<Code>)
      requires k.device in devices && k.room in rooms
      modifies this
      ensures Agrees(fault, Tables(), Acted(old(Tables()), now, k, action))
    {
      fault := None;
      match action {
        case Kick(device) =>
          fault := TargetFault(Tables(), now, k, Key(k.room, device));
          if fault.None? {
            Expel(now, Key(k.room, device));
          }
        case Transfer(device) =>
          fault := TargetFault(Tables(), now, k, Key(k.room, device));
          if fault.None? {
            rooms := rooms[k.room := rooms[k.room].(owner := members[Key(k.room, device)].user)];
            Uninvite(k.room);
            Bump(k.room);
          }
        case CloseRoom => ShutRoom(now, k.room);
        case NewInvite(code) => fault := Invite(now, k.room, code);
        case RevokeInvite =>
          if exists c :: c in invites && invites[c].room == k.room {
            Uninvite(k.room);
            Bump(k.room);
          }
      }
    }

    /** roomAction with an owner's action. */
    method RoomAction(now: int, k: Key, action: Action, expected: nat) returns (fault: Option<Code>)
      modifies this
      ensures Agrees(fault, Tables(), Rooms.RoomAction(old(Tables()), now, k, action, expected))
      ensures fault.None? && Sound(old(Tables()), pool) && Tables() != old(Tables()) ==>
                k.room in old(rooms) && k.room in rooms && OwnerEffect(old(Tables()), Tables(), now, k, action)
    {
      if Sound(Tables(), pool) && Rooms.RoomAction(Tables(), now, k, action, expected).Done? {
        RoomActionDoes(Tables(), pool, now, k, action, expected);
      }
      fault := PlayerFault(Tables(), now, k.device);
      if fault.Some? {
        return;
      }
      if k.room !in rooms {
        return Some(NotFound);
      }
      if rooms[k.room].owner != devices[k.device].user {
        return Some(OwnerRequired);
      }
      if action == CloseRoom && rooms[k.room].closed {
        return None;
      }
      fault := OwnerGate(Tables(), now, k, expected);
      if fault.None? {
        fault := Act(now, k, action);
      }
    }

    /** adminRoomAction. */
    method AdminRoomAction(now: int, r: nat, kicked: Option<nat>) returns (fault: Option<Code>)
      modifies this
      ensures Agrees(fault, Tables(), Rooms.AdminRoomAction(old(Tables()), now, r, kicked))
      ensures fault.None? && Sound(old(Tables()), pool) ==>
                if kicked.None? then ShutOut(Tables(), r)
                  else Kicked(old(Tables()), Tables(), now, Key(r, kicked.value))
    {
      if Sound(Tables(), pool) && Rooms.AdminRoomAction(Tables(), now, r, kicked).Done? {
        AdminDoes(Tables(), pool, now, r, kicked);
      }
      if r !in rooms {
        return Some(NotFound);
      }
      if rooms[r].closed {
        return Some(RoomClosed);
      }
      if kicked.None? {
        ShutRoom(now, r);
        return None;
      }
      fault := ActiveFault(Tables(), now, Key(r, kicked.value));
      if fault.None? {
        Expel(now, Key(r, kicked.value));
      }
    }

    // -------------------------------------------------------------- node devices

    /** max(expires_at) over a device's certificates, and at least floor. */
    method LatestExpiry(d: nat, floor: int) returns (release: int)
      ensures release == Latest(certs.Keys, d, floor)
    {
      release := floor;
      var todo := certs.Keys;
      while todo != {}
        invariant todo <= certs.Keys && release >= floor
        invariant forall c <- certs.Keys - todo :: c.device == d ==> c.expires <= release
        invariant release == floor || exists c <- certs.Keys :: c.device == d && c.expires == release
        decreases |todo|
      {
        var c :| c in todo;
        if c.device == d && release < c.expires {
          release := c.expires;
        }
        todo := todo - {c};
      }
      LatestIs(certs.Keys, d, floor, release);
    }

    /** revokeNode. */
    method RevokeNode(now: int, d: nat, permanent: bool)
      modifies this
      ensures Tables() == Rooms.RevokeNode(old(Tables()), now, d, permanent)
    {
      certs := map c | c in certs :: certs[c] || c.device == d;
      assert certs == RevokeDeviceCerts(old(certs), d) && certs.Keys == old(certs).Keys;
      if permanent && d in nodes {
        nodes := nodes[d := nodes[d].(current := false)];
        var release := LatestExpiry(d, now + QUARANTINE);
        addresses := map ip | ip in addresses ::
          if addresses[ip] == Address(OfNode(d), None) then Address(OfNode(d), Some(release)) else addresses[ip];
      }
    }

    /** completeEnrollment, past its key checks. */
    method Enroll(now: int, d: nat) returns (fault: Option<Code>)
      requires Ordered(addresses, pool)
      modifies this
      ensures Agrees(fault, Tables(), Rooms.Enroll(old(Tables()), now, pool, d))
      ensures fault.None? && Sound(old(Tables()), pool) ==>
                d in nodes && Live(addresses, nodes[d].ip, OfNode(d)) && forall k <- members :: members[k].active ==>
                  members[k].ip != nodes[d].ip
    {
      if Sound(Tables(), pool) && Rooms.Enroll(Tables(), now, pool, d).Done? {
        EnrollSeats(Tables(), pool, now, d);
      }
      if d in devices || d in nodes {
        return Some(NodeConflict);
      }
      var ip := Allocate(now, OfNode(d));
      if ip.None? {
        return Some(AddressesExhausted);
      }
      nodes := nodes[d := Binding(ip.value, true)];
      fault := None;
    }

    // -------------------------------------------------------------- transactions

    /** Dispatches the player and administrator requests that touch one room. */
    method Play(now: int, op: Op) returns (fault: Option<Code>)
      requires Sound(Tables(), pool) && Playing(op)
      modifies this
      ensures Agrees(fault, Tables(), Step(old(Tables()), now, pool, op))
    {
      match op
      case OpCreate(k, game, expected, code) => fault := CreateRoom(now, k, game, expected, code);
      case OpJoin(device, code) => fault := JoinRoom(now, device, code);
      case OpOwnerJoin(k, expected) => fault := OwnerJoin(now, k, expected);
      case OpHeartbeat(k, version, mac) => fault := Heartbeat(now, k, version, mac);
      case OpLeave(k) => fault := Leave(now, k);
      case OpRoom(k, action, expected) => fault := RoomAction(now, k, action, expected);
      case OpAdminRoom(room, kicked) => fault := AdminRoomAction(now, room, kicked);
    }

    /** playerOwnerJoin. */
    method OwnerJoin(now: int, k: Key, expected: nat) returns (fault: Option<Code>)
      requires Sound(Tables(), pool)
      modifies this
      ensures Agrees(fault, Tables(), Rooms.OwnerJoin(old(Tables()), now, pool, k, expected))
      ensures fault.None? ==> In(Tables(), pool, now, k)
    {
      if Sound(Tables(), pool) && Rooms.OwnerJoin(Tables(), now, pool, k, expected).Done? {
        OwnerIsLetIn(Tables(), pool, now, k, expected);
      }
      fault := OwnerFault(Tables(), now, k);
      if fault.Some? {
        return;
      }
      if ActiveFault(Tables(), now, k).None? {
        return None;
      }
      if rooms[k.room].revision != expected {
        return Some(RevisionConflict);
      }
      fault := Join(now, k);
    }

    /** Those of accounts, and the sweep. */
    method Account(now: int, op: Op) returns (fault: Option<Code>)
      requires Sound(Tables(), pool) && Expelling(op)
      modifies this
      ensures Agrees(fault, Tables(), Step(old(Tables()), now, pool, op))
    {
      fault := None;
      match op
      case OpTakeover(device, seen, expected) => fault := Takeover(now, device, seen, expected);
      case OpRevokeDevice(device, target) => fault := RevokeDevice(now, device, target);
      case OpLogout(device) => fault := Logout(now, device);
      case OpUser(user, account) => fault := UserAction(now, user, account);
      case OpSweep(required) => Sweep(now, required);
    }

    /** issueLease for a node. */
    method LeaseNode(d: nat, serving: bool, s: Signing) returns (fault: Option<Code>)
      modifies `certs
      ensures Agrees(fault, Tables(), Rooms.LeaseNode(old(Tables()), d, serving, s))
    {
      if d !in nodes || !nodes[d].current || !serving {
        return Some(NodeDisabled);
      }
      var c := Sign(d, None, nodes[d].ip, s, s.clock + LEASE);
      if c.None? {
        return Some(CaUnavailable);
      }
      if c.value !in certs {
        certs := certs[c.value := false];
      }
      fault := None;
    }

    /** verify, for a device that no account knows yet. */
    method Register(d: nat, user: nat, registered: bool, expires: Option<int>) returns (fault: Option<Code>)
      modifies `users, `devices
      ensures Agrees(fault, Tables(), Rooms.Register(old(Tables()), d, user, registered, expires))
    {
      if d in devices || d in nodes {
        return Some(Internal);
      }
      if user in users {
        if users[user].standing == Deleted {
          return Some(AccountDeleted);
        }
        users := users[user := users[user].(registered := true)];
      } else {
        users := users[user := User(registered, Active)];
      }
      devices := devices[d := Grant(user, false, expires)];
      fault := None;
    }

    /** Those of leases, devices, nodes and games. */
    method Serve(now: int, op: Op) returns (fault: Option<Code>)
      requires Sound(Tables(), pool) && !Playing(op) && !Expelling(op)
      modifies this
      ensures Agrees(fault, Tables(), Step(old(Tables()), now, pool, op))
    {
      fault := None;
      match op
      case OpLease(k, signing) => fault := LeaseRoom(now, k, signing);
      case OpNodeLease(device, serving, signing) => fault := LeaseNode(device, serving, signing);
      case OpEnroll(device) => fault := Enroll(now, device);
      case OpRevokeNode(device, permanent) => RevokeNode(now, device, permanent);
      case OpRegister(device, user, registered, expires) => fault := Register(device, user, registered, expires);
      case OpExtend(device, until) =>
        if device !in devices {
          return Some(NotFound);
        }
        devices := devices[device := devices[device].(expires := Some(until))];
      case OpGame(game, row) => games := games[game := row];
    }

    method Perform(now: int, op: Op) returns (fault: Option<Code>)
      requires Sound(Tables(), pool)
      modifies this
      ensures Agrees(fault, Tables(), Step(old(Tables()), now, pool, op))
    {
      if Playing(op) {
        fault := Play(now, op);
      } else if Expelling(op) {
        fault := Account(now, op);
      } else {
        fault := Serve(now, op);
      }
    }

    /** Write around any transaction: what failed is rolled back, and the tables stay sound. */
    method Commit(now: int, op: Op) returns (fault: Option<Code>)
      requires Sound(Tables(), pool)
      modifies this
      ensures Tables() == Write(old(Tables()), now, pool, op)
      ensures Sound(Tables(), pool)
    {
      WriteSound(Tables(), pool, now, op);
      var before := Tables();
      fault := Perform(now, op);
      if fault.Some? {
        Restore(before);
      }
    }

    /** The rollback. */
    method Restore(before: Db)
      modifies this
      ensures Tables() == before
    {
      rooms, members, bans, addresses := before.rooms, before.members, before.bans, before.addresses;
      certs, invites, nodes := before.certs, before.invites, before.nodes;
      users, devices, games := before.users, before.devices, before.games;
    }
  }

  lemma EnforceStep(db: Db, now: int, required: set<nat>, over: set<nat>, d: nat)
    requires d !in over
    ensures d !in required ==> required * (over + {d}) == required * over
    ensures d in required ==>
              var x := Rooms.EnforceUpdates(db, now, required * over);
              Rooms.EnforceUpdates(x, now, {d}) == Rooms.EnforceUpdates(db, now, required * (over + {d}))
  {
    if d in required {
      assert required * (over + {d}) == required * over + {d};
      EnforceMore(db, now, required * over, d);
    } else {
      assert required * (over + {d}) == required * over;
    }
  }

  lemma EnforceNone(db: Db, now: int, none: set<nat>)
    requires none == {}
    ensures Rooms.EnforceUpdates(db, now, none) == db
  {
    assert OutdatedTargets(db.members, none) == {};
    RevokeNone(db, now);
  }

  lemma EnforceAll(db: Db, now: int, required: set<nat>, ids: set<nat>)
    requires forall k <- db.members :: db.members[k].active ==> k.device in ids
    ensures Rooms.EnforceUpdates(db, now, required * ids) == Rooms.EnforceUpdates(db, now, required)
  {
    assert OutdatedTargets(db.members, required * ids) == OutdatedTargets(db.members, required);
  }

  /** Cutting a user off in an owned room closes it for everyone. */
  lemma OwnedCut(db: Db, now: int, user: nat, device: Option<nat>, closeOwned: bool, r: nat)
    requires Ends(db, user, closeOwned, r)
    ensures CutIn(db, now, user, device, closeOwned, {r})
            == BumpEach(DropInvites(Close(Revoke(db, now, {All(r)}), {r}), {r}), {All(r)})
  {
    assert Ending(db, user, closeOwned, {r}) == {r};
    assert Cut(db, user, device, closeOwned, {r}) == {All(r)};
    assert Marks({r}) == {All(r)};
  }

  lemma VisitedCut(db: Db, now: int, user: nat, device: Option<nat>, closeOwned: bool, r: nat)
    requires !Ends(db, user, closeOwned, r)
    ensures CutIn(db, now, user, device, closeOwned, {r})
            == BumpEach(Revoke(db, now, Cut(db, user, device, closeOwned, {r})), {All(r)})
  {
    assert Ending(db, user, closeOwned, {r}) == {};
    assert Marks({r}) == {All(r)};
    NothingEnds(Revoke(db, now, Cut(db, user, device, closeOwned, {r})));
  }

  lemma NothingEnds(db: Db)
    ensures DropInvites(Close(db, {}), {}) == db
  {
    NoneHit(db);
    assert DropInvites(db, {}).invites == db.invites;
  }

  lemma CutNone(db: Db, now: int, user: nat, device: Option<nat>, closeOwned: bool)
    ensures CutIn(db, now, user, device, closeOwned, {}) == db
  {
    assert Ending(db, user, closeOwned, {}) == {};
    assert Cut(db, user, device, closeOwned, {}) == {};
    assert Marks({}) == {};
    RevokeNone(db, now);
    NothingEnds(db);
  }

  lemma LatestIs(cs: set<Cert>, d: nat, floor: int, r: int)
    requires r >= floor && forall c <- cs :: c.device == d ==> c.expires <= r
    requires r == floor || exists c <- cs :: c.device == d && c.expires == r
    ensures Latest(cs, d, floor) == r
  {
  }
}
