/** What happens when a lease is signed too late: exactly when its address is reused, and a run that does it. */
module Aliasing {
  import opened Bytes
  import opened Rooms
  import opened RoomSafety
  import opened RoomRuns
  import opened Times
  import Quarantine
  import RoomEffects
  import Store

  // ---------------------------------------------------------------- exactly when

  /** The scan passes every usable address below ip. */
  predicate PassedOver(addresses: map<int, Address>, pool: Pool, t: int, ip: int) {
    forall x :: pool.base < x < ip ==> x in addresses && !Overdue(addresses[x].release, t)
  }

  /** The next newcomer gets a particular used address exactly when it is overdue and the first such. */
  lemma GivenExactly(addresses: map<int, Address>, pool: Pool, t: int, ip: int, h: Holder)
    requires ip in addresses && pool.base < ip < pool.last && forall x :: !Live(addresses, x, h)
    ensures var seat := Allocate(addresses, t, pool, h);
            seat.Some? && seat.value.ip == ip
            <==> Overdue(addresses[ip].release, t) && PassedOver(addresses, pool, t, ip)
  {
    var used := Purge(addresses, t).Keys;
    var r := LowestFree(used, pool.base + 1, pool.last);
    if Overdue(addresses[ip].release, t) && PassedOver(addresses, pool, t, ip) {
      assert ip !in used;
      forall x | pool.base < x < ip
        ensures x in used
      {
      }
    }
    if r == Some(ip) {
      forall x | pool.base < x < ip
        ensures x in addresses && !Overdue(addresses[x].release, t)
      {
        assert x in used;
      }
    }
  }

  /**
   * Member k's address is released at `now`. The newcomer h that asks at t gets it while certificate c
   * of the old member is still valid exactly when t lies between the end of the quarantine and the end
   * of c, and nothing below is free.
   */
  lemma ReusedWhileValidExactly(db: Db, pool: Pool, now: int, k: Key, c: Cert, t: int, h: Holder)
    requires Sound(db, pool) && k in db.members && db.members[k].active && db.members[k].ip == c.ip
    requires forall x :: !Live(db.addresses, x, h)
    ensures var rows := Revoke(db, now, {One(k.room, k.device)}).addresses;
            var seat := Allocate(rows, t, pool, h);
            seat.Some? && seat.value.ip == c.ip && t <= c.expires
            <==> now + 660_000_000_000 < t <= c.expires && PassedOver(rows, pool, t, c.ip)
  {
    var ts := {One(k.room, k.device)};
    var rows := Revoke(db, now, ts).addresses;
    assert Live(db.addresses, c.ip, OfMember(k.device));
    assert Hits(ts, k);
    assert Freed(db.members, ts, c.ip);
    forall x
      ensures !Live(rows, x, h)
    {
      assert !Live(db.addresses, x, h);
    }
    GivenExactly(rows, pool, t, c.ip, h);
  }

  /** A lease that neither its room, its device's grant nor the CA cuts short. */
  predicate Unclamped(db: Db, k: Key, s: Signing)
    requires k.room in db.rooms && k.device in db.devices
  {
    && s.clock + 600_000_000_000 <= db.rooms[k.room].expires && s.clock + 600_000_000_000 <= s.ca
    && (db.devices[k.device].expires.Some? ==> s.clock + 600_000_000_000 <= db.devices[k.device].expires.value)
  }

  predicate Between(now: int, t: int, c: Cert) {
    now + 660_000_000_000 < t <= c.expires
  }

  /**
   * In clocks: there is a time at which the address of such a lease is free again while the lease is
   * valid exactly when ten minutes from its signing, cut to the second, lie past the quarantine. That
   * takes a signing more than a minute after the release began; one second more always suffices.
   */
  lemma OutlivesExactly(db: Db, k: Key, s: Signing, now: int)
    requires k in db.members && k.room in db.rooms && k.device in db.devices
    requires Unclamped(db, k, s) && LeaseCert(db, k, s).Some?
    ensures (exists t :: Between(now, t, LeaseCert(db, k, s).value))
            <==> Truncated(s.clock + 600_000_000_000) > now + 660_000_000_000
    ensures Truncated(s.clock + 600_000_000_000) > now + 660_000_000_000 ==> s.clock > now + 60_000_000_000
    ensures s.clock >= now + 61_000_000_000 ==> Truncated(s.clock + 600_000_000_000) > now + 660_000_000_000
  {
    var c := LeaseCert(db, k, s).value;
    assert c.expires == Truncated(s.clock + 600_000_000_000);
    if c.expires > now + 660_000_000_000 {
      assert Between(now, c.expires, c);
    }
  }

  // ---------------------------------------------------------------- the next newcomer, after any run

  /** In a sound state, ending a device's stale memberships makes no address free and none overdue. */
  lemma StaleSeats(db: Db, pool: Pool, t: int, d: nat, x: int)
    requires Sound(db, pool)
    ensures var rows := EndStale(db, t, d).addresses;
            && (x in rows <==> x in db.addresses)
            && (x in rows ==> Overdue(rows[x].release, t) == Overdue(db.addresses[x].release, t))
            && forall h :: Live(rows, x, h) ==> Live(db.addresses, x, h)
  {
    var ts := StaleTargets(db, t, d);
    if Freed(db.members, ts, x) {
      var k :| k in db.members && db.members[k].active && Hits(ts, k) && db.members[k].ip == x;
      assert Live(db.addresses, db.members[k].ip, OfMember(k.device));
    }
  }

  /** The one who joins next is given the used address ip exactly when it is overdue and the first such. */
  lemma AddedExactly(db: Db, pool: Pool, t: int, k: Key, ip: int)
    requires Sound(db, pool) && AddMember(db, t, pool, k).Done?
    requires ip in db.addresses && forall x :: !Live(db.addresses, x, OfMember(k.device))
    ensures var x := AddMember(db, t, pool, k).db;
            k in x.members && (x.members[k].ip == ip
              <==> Overdue(db.addresses[ip].release, t) && PassedOver(db.addresses, pool, t, ip))
  {
    var rows := EndStale(db, t, k.device).addresses;
    forall x
      ensures x in rows <==> x in db.addresses
      ensures x in rows ==> Overdue(rows[x].release, t) == Overdue(db.addresses[x].release, t)
      ensures !Live(rows, x, OfMember(k.device))
    {
      StaleSeats(db, pool, t, k.device, x);
    }
    GivenExactly(rows, pool, t, ip, OfMember(k.device));
  }

  lemma CreatedExactly(db: Db, pool: Pool, t: int, k: Key, game: nat, expected: nat, code: nat, ip: int)
    requires Sound(db, pool) && CreateRoom(db, t, pool, k, game, expected, code).Done?
    requires ip in db.addresses && forall x :: !Live(db.addresses, x, OfMember(k.device))
    ensures var x := CreateRoom(db, t, pool, k, game, expected, code).db;
            k in x.members && (x.members[k].ip == ip
              <==> Overdue(db.addresses[ip].release, t) && PassedOver(db.addresses, pool, t, ip))
  {
    var room := Room(db.devices[k.device].user, game, CAPACITY, 1, t + ROOM_LIFE, false);
    var a := db.(rooms := db.rooms[k.room := room]);
    NewRoomSound(db, pool, k.room, room);
    AddedExactly(a, pool, t, k, ip);
  }

  /** Two devices hold certificates for one address that are still valid at u. */
  ghost predicate Aliased(run: seq<Tx>, pool: Pool, u: int, a: Cert, b: Cert) {
    && a in Quarantine.Issued(run, pool) && b in Quarantine.Issued(run, pool)
    && a.ip == b.ip && a.device != b.device && u <= a.expires && u <= b.expires
  }

  /** The address of c, resting until `release`, is given out at t while c is valid at u. */
  predicate FreeTooSoon(addresses: map<int, Address>, pool: Pool, release: int, c: Cert, t: int, u: int) {
    release < t && u <= c.expires && PassedOver(addresses, pool, t, c.ip)
  }

  lemma IssuedStays(run: seq<Tx>, pool: Pool, tx: Tx, c: Cert)
    requires c in Quarantine.Issued(run, pool) || c in After(run + [tx], pool).certs
    ensures c in Quarantine.Issued(run + [tx], pool)
  {
    assert (run + [tx])[..|run|] == run;
  }

  lemma OneMore(run: seq<Tx>, pool: Pool, tx: Tx)
    ensures After(run + [tx], pool) == Write(After(run, pool), tx.now, pool, tx.op)
  {
    assert (run + [tx])[..|run|] == run;
  }

  /** The newcomer's certificate is for its seat, and outlasts the begin of its lease. */
  lemma LeaseAt(run: seq<Tx>, pool: Pool, u: int, k: Key, s: Signing)
    requires LeaseRoom(After(run, pool), u, k, s).Done? && s.later >= u
    ensures var db := After(run, pool);
            && k in db.members && k.room in db.rooms && k.device in db.devices && LeaseCert(db, k, s).Some?
            && var b := LeaseCert(db, k, s).value;
               b in Quarantine.Issued(run + [Tx(u, OpLease(k, s))], pool) && b.ip == db.members[k].ip
                 && b.device == k.device && u <= b.expires
  {
    var db := After(run, pool);
    var b := LeaseCert(db, k, s).value;
    OneMore(run, pool, Tx(u, OpLease(k, s)));
    Quarantine.CertEnds(db, k, s);
    IssuedStays(run, pool, Tx(u, OpLease(k, s)), b);
  }

  /**
   * After any run: certificate c has been issued, and its address rests until `release`. The next newcomer,
   * who creates a room at t and leases it at u, then holds a certificate for the same address beside c, both
   * valid at u, exactly when the rest is over at t, c is not over at u, and every lower address is taken at t.
   */
  lemma NewcomerAliasesExactly(run: seq<Tx>, pool: Pool, c: Cert, release: int, k: Key, game: nat, expected: nat,
      code: nat, t: int, u: int, s: Signing)
    requires var db := After(run, pool);
             && c in Quarantine.Issued(run, pool) && c.ip in db.addresses
             && db.addresses[c.ip] == Address(OfMember(c.device), Some(release))
             && k.device != c.device && (forall x :: !Live(db.addresses, x, OfMember(k.device)))
             && CreateRoom(db, t, pool, k, game, expected, code).Done?
             && LeaseRoom(CreateRoom(db, t, pool, k, game, expected, code).db, u, k, s).Done? && s.later >= u
    ensures var x := CreateRoom(After(run, pool), t, pool, k, game, expected, code).db;
            && k in x.members && k.room in x.rooms && k.device in x.devices && LeaseCert(x, k, s).Some?
            && (Aliased(run + [Tx(t, OpCreate(k, game, expected, code))] + [Tx(u, OpLease(k, s))], pool, u, c,
               LeaseCert(x, k, s).value)
                <==> FreeTooSoon(After(run, pool).addresses, pool, release, c, t, u))
  {
    var create, lease := Tx(t, OpCreate(k, game, expected, code)), Tx(u, OpLease(k, s));
    AlwaysSound(run, pool);
    OneMore(run, pool, create);
    CreatedExactly(After(run, pool), pool, t, k, game, expected, code, c.ip);
    LeaseAt(run + [create], pool, u, k, s);
    IssuedStays(run, pool, create, c);
    IssuedStays(run + [create], pool, lease, c);
  }

  /** There are such times at all. */
  ghost predicate Sometime(addresses: map<int, Address>, pool: Pool, release: int, c: Cert) {
    exists t, u :: t <= u && FreeTooSoon(addresses, pool, release, c, t, u)
  }

  /** There are such times at all exactly when c outlives the rest and every lower address is taken when it ends. */
  lemma SomeTimeExactly(addresses: map<int, Address>, pool: Pool, release: int, c: Cert)
    ensures Sometime(addresses, pool, release, c)
            <==> c.expires > release && PassedOver(addresses, pool, release + 1, c.ip)
  {
    if c.expires > release && PassedOver(addresses, pool, release + 1, c.ip) {
      assert FreeTooSoon(addresses, pool, release, c, release + 1, release + 1);
    }
    if t, u :| t <= u && FreeTooSoon(addresses, pool, release, c, t, u) {
      assert PassedOver(addresses, pool, release + 1, c.ip);
    }
  }

  lemma LeaveRests(db: Db, pool: Pool, now: int, k: Key)
    requires Sound(db, pool) && Leave(db, now, k).Done? && SelfFault(db, now, k).None?
    ensures var rows, ip := Write(db, now, pool, OpLeave(k)).addresses, db.members[k].ip;
            ip in rows && rows[ip] == Address(OfMember(k.device), Some(now + 660_000_000_000))
  {
    RoomEffects.LeaveEnds(db, pool, now, k);
  }

  lemma LeaverRests(run: seq<Tx>, pool: Pool, now: int, k: Key)
    requires Leave(After(run, pool), now, k).Done? && SelfFault(After(run, pool), now, k).None?
    ensures var rows, ip := After(run + [Tx(now, OpLeave(k))], pool).addresses, After(run, pool).members[k].ip;
            ip in rows && rows[ip] == Address(OfMember(k.device), Some(now + 660_000_000_000))
  {
    AlwaysSound(run, pool);
    OneMore(run, pool, Tx(now, OpLeave(k)));
    LeaveRests(After(run, pool), pool, now, k);
  }

  /**
   * The same in clocks, for a member that leaves at `now` after any run: its full lease, signed at clock, can
   * come to share its address with the next newcomer's exactly when ten minutes from the signing, cut to the
   * second, lie past the quarantine, and every lower address is taken when that ends.
   */
  lemma LeaverAliasedExactly(run: seq<Tx>, pool: Pool, now: int, k: Key, c: Cert, clock: int)
    requires Leave(After(run, pool), now, k).Done? && SelfFault(After(run, pool), now, k).None?
    requires c.device == k.device && c.ip == After(run, pool).members[k].ip
             && c.expires == Truncated(clock + 600_000_000_000)
    ensures var rows := After(run + [Tx(now, OpLeave(k))], pool).addresses;
            && c.ip in rows && rows[c.ip] == Address(OfMember(c.device), Some(now + 660_000_000_000))
            && (Sometime(rows, pool, now + 660_000_000_000, c)
                <==> && Truncated(clock + 600_000_000_000) > now + 660_000_000_000
                     && PassedOver(rows, pool, now + 660_000_000_000 + 1, c.ip))
  {
    LeaverRests(run, pool, now, k);
    SomeTimeExactly(After(run + [Tx(now, OpLeave(k))], pool).addresses, pool, now + 660_000_000_000, c);
  }

  // ---------------------------------------------------------------- a run

  /** Nobody is anywhere yet and the first usable address is free at `now`. */
  predicate Vacant(db: Db, pool: Pool, now: int) {
    && (forall k <- db.members :: !db.members[k].active)
    && (pool.base + 1 in db.addresses ==> Overdue(db.addresses[pool.base + 1].release, now))
    && (forall ip <- db.addresses :: db.addresses[ip].release.Some?)
  }

  /** The device may create room k.room with invitation `code`. */
  predicate MayCreate(db: Db, k: Key, code: nat) {
    && k.device in db.devices && k.device !in db.nodes && k.room !in db.rooms && code !in db.invites
    && 0 in db.games && db.games[0] == Game(true, 0) && db.bans == {}
  }

  /** The tables after a join of the first member. */
  predicate Seats(db: Db, x: Db, pool: Pool, now: int, k: Key) {
    && k in x.members && x.members[k].active && x.members[k].ip == pool.base + 1
    && (forall o <- x.members :: o != k ==> !x.members[o].active)
    && x.addresses == Purge(db.addresses, now)[pool.base + 1 := Address(OfMember(k.device), None)]
    && x.certs == db.certs && x.devices == db.devices && x.users == db.users && x.nodes == db.nodes
    && x.games == db.games && x.bans == db.bans
  }

  lemma NoneStale(db: Db, now: int, d: nat)
    requires forall k <- db.members :: !db.members[k].active
    ensures EndStale(db, now, d) == db
  {
    assert StaleTargets(db, now, d) == {};
    Store.RevokeNone(db, now);
  }

  lemma JoinSeats(db: Db, pool: Pool, now: int, k: Key)
    requires Vacant(db, pool, now) && pool.base + 1 < pool.last && EntryFault(db, now, k).None?
    requires k.device in db.devices && k.device !in db.nodes
    ensures AddMember(db, now, pool, k).Done?
    ensures Seats(db, AddMember(db, now, pool, k).db, pool, now, k)
            && AddMember(db, now, pool, k).db.rooms == db.rooms && AddMember(db, now, pool, k).db.invites == db.invites
  {
    NoneStale(db, now, k.device);
    assert forall o :: !Occupies(db, k.device, o);
    assert forall ip :: !Live(db.addresses, ip, OfMember(k.device));
    assert pool.base + 1 !in Purge(db.addresses, now).Keys;
  }

  /** In a vacant state a new room seats its owner on the first usable address. */
  lemma CreateSeats(db: Db, pool: Pool, now: int, k: Key, code: nat)
    requires Vacant(db, pool, now) && MayCreate(db, k, code) && pool.base + 1 < pool.last
    ensures CreateRoom(db, now, pool, k, 0, 0, code).Done?
    ensures var x := CreateRoom(db, now, pool, k, 0, 0, code).db;
            && Seats(db, x, pool, now, k)
            && k.room in x.rooms && !x.rooms[k.room].closed && x.rooms[k.room].expires == now + 86_400_000_000_000
            && x.rooms.Keys == db.rooms.Keys + {k.room} && x.invites.Keys <= db.invites.Keys + {code}
  {
    var a := Started(db, now, k);
    assert ActiveIn(a.members, k.room) == {};
    JoinSeats(a, pool, now, k);
    InvitationGiven(AddMember(a, now, pool, k).db, now, k.room, code);
    CreateIs(db, pool, now, k, code);
  }

  function Started(db: Db, now: int, k: Key): Db
    requires k.device in db.devices
  {
    db.(rooms := db.rooms[k.room := Room(db.devices[k.device].user, 0, 4, 1, now + 86_400_000_000_000, false)])
  }

  lemma CreateIs(db: Db, pool: Pool, now: int, k: Key, code: nat)
    requires MayCreate(db, k, code) && AddMember(Started(db, now, k), now, pool, k).Done?
    requires Invited(AddMember(Started(db, now, k), now, pool, k).db, now, k.room, code).Done?
    ensures CreateRoom(db, now, pool, k, 0, 0, code)
            == Done(Bump(Invited(AddMember(Started(db, now, k), now, pool, k).db, now, k.room, code).db, k.room))
  {
  }

  lemma InvitationGiven(db: Db, now: int, r: nat, code: nat)
    requires r in db.rooms && code !in db.invites
    ensures Invited(db, now, r, code).Done?
    ensures var x := Invited(db, now, r, code).db;
            && x == db.(rooms := x.rooms, invites := x.invites) && x.invites.Keys <= db.invites.Keys + {code}
            && x.rooms == db.rooms[r := db.rooms[r].(revision := db.rooms[r].revision + 1)]
  {
  }

  /** Two players and a game; nothing else yet. */
  function Registered(): Db {
    Db(map[1 := User(false, Active), 2 := User(false, Active)],
      map[1 := Grant(1, false, None), 2 := Grant(2, false, None)],
       map[0 := Game(true, 0)], map[], map[], {}, map[], map[], map[], map[])
  }

  const FAR := 1_000_000_000 * SECOND

  /**
   * Player 1 creates a room and leases at 50 s; the lease is signed at 110 s, a minute after it began.
   * The leave began at 0 s but takes its lock only now. Player 2 creates a room at 661 s.
   */
  function Overtaken(): seq<Tx> {
    [Tx(0, OpGame(0, Game(true, 0))), Tx(0, OpRegister(1, 1, false, None)), Tx(0, OpRegister(2, 2, false, None)),
     Tx(0, OpCreate(Key(1, 1), 0, 0, 1)),
     Tx(50 * SECOND, OpLease(Key(1, 1), Signing(110 * SECOND, 110 * SECOND, 7, FAR))),
     Tx(0, OpLeave(Key(1, 1))),
     Tx(661 * SECOND, OpCreate(Key(2, 2), 0, 0, 2)),
     Tx(661 * SECOND, OpLease(Key(2, 2), Signing(661 * SECOND, 661 * SECOND, 8, FAR)))]
  }

  /** The tables before transaction n. */
  ghost function Stage(pool: Pool, n: nat): Db
    requires n <= 8
  {
    After(Overtaken()[..n], pool)
  }

  lemma Next(pool: Pool, n: nat)
    requires n < 8
    ensures Stage(pool, n + 1) == Write(Stage(pool, n), Overtaken()[n].now, pool, Overtaken()[n].op)
  {
    var run := Overtaken();
    assert run[..n + 1][..n] == run[..n];
  }

  lemma FirstThree(pool: Pool)
    ensures Stage(pool, 3) == Registered()
  {
    assert Overtaken()[..0] == [];
    assert Stage(pool, 0) == EMPTY;
    Next(pool, 0);
    Next(pool, 1);
    Next(pool, 2);
  }

  /** Player d is active in its room d at the first address, the room is open, and its accounts are in order. */
  predicate Settled(db: Db, pool: Pool, d: nat, until: int) {
    var k := Key(d, d);
    && k in db.members && db.members[k].active && db.members[k].ip == pool.base + 1
    && (forall o <- db.members :: o != k ==> !db.members[o].active)
    && d in db.rooms && !db.rooms[d].closed && db.rooms[d].expires == until
    && db.users == Registered().users && db.devices == Registered().devices && db.games == Registered().games
    && db.nodes == map[] && db.bans == {}
  }

  lemma Creates(db: Db, pool: Pool, now: int, d: nat)
    requires d == 1 || d == 2
    requires Vacant(db, pool, now) && pool.base + 1 < pool.last && d !in db.rooms && d !in db.invites
    requires db.users == Registered().users && db.devices == Registered().devices && db.games == Registered().games
    requires db.nodes == map[] && db.bans == {}
    ensures var x := Write(db, now, pool, OpCreate(Key(d, d), 0, 0, d));
            && Settled(x, pool, d, now + 86_400_000_000_000) && x.certs == db.certs
            && x.addresses == Purge(db.addresses, now)[pool.base + 1 := Address(OfMember(d), None)]
            && x.rooms.Keys == db.rooms.Keys + {d} && x.invites.Keys <= db.invites.Keys + {d}
  {
    CreateSeats(db, pool, now, Key(d, d), d);
  }

  function CertOf(pool: Pool, d: nat, s: Signing): Cert {
    Cert(d, Some(d), pool.base + 1, s.key, s.later - 30 * SECOND, Truncated(s.clock + 600_000_000_000))
  }

  lemma LeaseCertIs(db: Db, pool: Pool, d: nat, s: Signing, until: int)
    requires d == 1 || d == 2
    requires Settled(db, pool, d, until) && s.clock == s.later && s.clock + 600_000_000_000 <= until
             && s.clock + 600_000_000_000 <= s.ca
    ensures LeaseCert(db, Key(d, d), s) == Some(CertOf(pool, d, s))
  {
    assert Clamp(Earlier(s.clock + 600_000_000_000, until), None) == s.clock + 600_000_000_000;
  }

  lemma MayAct(db: Db, pool: Pool, now: int, d: nat, until: int)
    requires (d == 1 || d == 2) && Settled(db, pool, d, until) && now < until
    ensures ActiveFault(db, now, Key(d, d)).None?
  {
  }

  lemma Leases(db: Db, pool: Pool, now: int, d: nat, s: Signing, until: int)
    requires d == 1 || d == 2
    requires Settled(db, pool, d, until) && now < until && s.clock == s.later && s.clock + 600_000_000_000 <= until
             && s.clock + 600_000_000_000 <= s.ca
    ensures var x := Write(db, now, pool, OpLease(Key(d, d), s));
            && Settled(x, pool, d, until) && CertOf(pool, d, s) in x.certs
            && x.addresses == db.addresses && x.rooms == db.rooms && x.invites == db.invites
  {
    LeaseIs(db, pool, now, d, s, until);
    RecordSettles(db, pool, now, d, CertOf(pool, d, s), until);
  }

  lemma RecordSettles(db: Db, pool: Pool, now: int, d: nat, c: Cert, until: int)
    requires Settled(db, pool, d, until)
    ensures var x := Record(Seen(db, now, Key(d, d)), c);
            && Settled(x, pool, d, until) && c in x.certs
            && x.addresses == db.addresses && x.rooms == db.rooms && x.invites == db.invites
  {
  }

  lemma LeaseIs(db: Db, pool: Pool, now: int, d: nat, s: Signing, until: int)
    requires d == 1 || d == 2
    requires Settled(db, pool, d, until) && now < until && s.clock == s.later && s.clock + 600_000_000_000 <= until
             && s.clock + 600_000_000_000 <= s.ca
    ensures Write(db, now, pool, OpLease(Key(d, d), s)) == Record(Seen(db, now, Key(d, d)), CertOf(pool, d, s))
  {
    MayAct(db, pool, now, d, until);
    LeaseCertIs(db, pool, d, s, until);
  }

  lemma LeaveIs(db: Db, pool: Pool, now: int, d: nat, until: int)
    requires (d == 1 || d == 2) && Settled(db, pool, d, until) && now < until
    ensures Write(db, now, pool, OpLeave(Key(d, d))) == Bump(Revoke(db, now, {One(d, d)}), d)
  {
    assert SelfFault(db, now, Key(d, d)).None?;
  }

  lemma Leaves(db: Db, pool: Pool, now: int, d: nat, until: int)
    requires (d == 1 || d == 2) && Settled(db, pool, d, until) && now < until
    requires db.addresses == map[pool.base + 1 := Address(OfMember(d), None)]
    ensures var x := Write(db, now, pool, OpLeave(Key(d, d)));
            && (forall o <- x.members :: !x.members[o].active)
            && x.addresses == map[pool.base + 1 := Address(OfMember(d), Some(now + 660_000_000_000))]
            && x.users == db.users && x.devices == db.devices && x.games == db.games && x.nodes == db.nodes
               && x.bans == db.bans
            && x.rooms.Keys == db.rooms.Keys && x.invites == db.invites
  {
    var k, ts := Key(d, d), {One(d, d)};
    LeaveIs(db, pool, now, d, until);
    assert Hits(ts, k);
    assert Freed(db.members, ts, pool.base + 1);
    assert Revoke(db, now, ts).addresses == map[pool.base + 1 := Address(OfMember(d), Some(now + 660_000_000_000))];
  }

  lemma FirstCreates(pool: Pool)
    requires pool.base + 1 < pool.last
    ensures Settled(Stage(pool, 4), pool, 1, 86_400_000_000_000) && Stage(pool, 4).rooms.Keys == {1}
            && Stage(pool, 4).invites.Keys <= {1}
    ensures Stage(pool, 4).addresses == map[pool.base + 1 := Address(OfMember(1), None)]
  {
    FirstThree(pool);
    Next(pool, 3);
    Creates(Registered(), pool, 0, 1);
    assert Purge(map[], 0) == map[];
  }

  lemma LeaseStage(pool: Pool, n: nat, now: int, d: nat, s: Signing, until: int)
    requires n < 8 && Overtaken()[n] == Tx(now, OpLease(Key(d, d), s)) && (d == 1 || d == 2)
    requires Settled(Stage(pool, n), pool, d, until) && now < until
    requires s.clock == s.later && s.clock + 600_000_000_000 <= until && s.clock + 600_000_000_000 <= s.ca
    ensures Settled(Stage(pool, n + 1), pool, d, until) && CertOf(pool, d, s) in Stage(pool, n + 1).certs
    ensures Stage(pool, n + 1).addresses == Stage(pool, n).addresses && Stage(pool, n + 1).rooms == Stage(pool, n).rooms
    ensures Stage(pool, n + 1).invites == Stage(pool, n).invites
  {
    Next(pool, n);
    Leases(Stage(pool, n), pool, now, d, s, until);
  }

  lemma FirstLeases(pool: Pool)
    requires pool.base + 1 < pool.last
    ensures Settled(Stage(pool, 5), pool, 1, 86_400_000_000_000) && Stage(pool, 5).rooms.Keys == {1}
            && Stage(pool, 5).invites.Keys <= {1}
    ensures Stage(pool, 5).addresses == map[pool.base + 1 := Address(OfMember(1), None)]
    ensures Cert(1, Some(1), pool.base + 1, 7, 80 * SECOND, 710 * SECOND) in Stage(pool, 5).certs
  {
    FirstCreates(pool);
    LeaseStage(pool, 4, 50 * SECOND, 1, Signing(110 * SECOND, 110 * SECOND, 7, FAR), 86_400_000_000_000);
  }

  /** What the second player finds: the first address was released until 660 s. */
  predicate Left(x: Db, pool: Pool) {
    && Vacant(x, pool, 661 * SECOND) && 2 !in x.rooms && 2 !in x.invites
    && x.users == Registered().users && x.devices == Registered().devices && x.games == Registered().games
    && x.nodes == map[] && x.bans == {}
  }

  lemma FirstLeaves(pool: Pool)
    requires pool.base + 1 < pool.last
    ensures Left(Stage(pool, 6), pool)
  {
    FirstLeases(pool);
    Next(pool, 5);
    Leaves(Stage(pool, 5), pool, 0, 1, 86_400_000_000_000);
  }

  lemma SecondCreates(pool: Pool)
    requires pool.base + 1 < pool.last
    ensures Settled(Stage(pool, 7), pool, 2, 661 * SECOND + 86_400_000_000_000)
  {
    FirstLeaves(pool);
    Next(pool, 6);
    Creates(Stage(pool, 6), pool, 661 * SECOND, 2);
  }

  lemma SecondLeases(pool: Pool)
    requires pool.base + 1 < pool.last
    ensures Cert(2, Some(2), pool.base + 1, 8, 631 * SECOND, 1261 * SECOND) in Stage(pool, 8).certs
  {
    SecondCreates(pool);
    LeaseStage(pool, 7, 661 * SECOND, 2, Signing(661 * SECOND, 661 * SECOND, 8, FAR),
      661 * SECOND + 86_400_000_000_000);
  }

  lemma {:induction false} IssuedSoFar(run: seq<Tx>, pool: Pool, n: nat, c: Cert)
    requires n <= |run| && c in After(run[..n], pool).certs
    ensures c in Quarantine.Issued(run, pool)
    decreases |run|
  {
    if n == |run| {
      assert run[..n] == run;
    } else {
      assert run[..|run| - 1][..n] == run[..n];
      IssuedSoFar(run[..|run| - 1], pool, n, c);
    }
  }

  /**
   * In this run two devices hold certificates for the first address, both valid until 710 s, after every
   * transaction has begun; and the first one was signed no more than a minute after its own began.
   */
  lemma OvertakenReleaseAliases(pool: Pool)
    requires pool.base + 1 < pool.last
    ensures var a := Cert(1, Some(1), pool.base + 1, 7, 80 * SECOND, 710 * SECOND);
            var b := Cert(2, Some(2), pool.base + 1, 8, 631 * SECOND, 1261 * SECOND);
            && a in Quarantine.Issued(Overtaken(), pool) && b in Quarantine.Issued(Overtaken(), pool)
            && Quarantine.Before(Overtaken(), 700 * SECOND)
            && forall i :: 0 <= i < 8 && Overtaken()[i].op.OpLease? ==>
               Overtaken()[i].op.signing.clock <= Overtaken()[i].now + 60_000_000_000
  {
    FirstIssued(pool);
    SecondIssued(pool);
    InClocks();
  }

  lemma FirstIssued(pool: Pool)
    requires pool.base + 1 < pool.last
    ensures Cert(1, Some(1), pool.base + 1, 7, 80 * SECOND, 710 * SECOND) in Quarantine.Issued(Overtaken(), pool)
  {
    FirstLeases(pool);
    IssuedSoFar(Overtaken(), pool, 5, Cert(1, Some(1), pool.base + 1, 7, 80 * SECOND, 710 * SECOND));
  }

  lemma SecondIssued(pool: Pool)
    requires pool.base + 1 < pool.last
    ensures Cert(2, Some(2), pool.base + 1, 8, 631 * SECOND, 1261 * SECOND) in Quarantine.Issued(Overtaken(), pool)
  {
    SecondLeases(pool);
    IssuedSoFar(Overtaken(), pool, 8, Cert(2, Some(2), pool.base + 1, 8, 631 * SECOND, 1261 * SECOND));
  }

  lemma InClocks()
    ensures Quarantine.Before(Overtaken(), 700 * SECOND)
    ensures forall i :: 0 <= i < 8 && Overtaken()[i].op.OpLease? ==>
            Overtaken()[i].op.signing.clock <= Overtaken()[i].now + 60_000_000_000
  {
  }
}
