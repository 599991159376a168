/**
 * Addresses in time: no two devices ever hold unexpired certificates for one address. Leases run at
 * most ten minutes on the signing clock, released addresses rest eleven on the transaction clock.
 */
module Quarantine {
  import opened Bytes
  import opened Rooms
  import opened RoomSafety
  import opened RoomRuns
  import opened Times
  import RoomHistory

  function HolderOf(c: Cert): Holder {
    if c.room.Some? then OfMember(c.device) else OfNode(c.device)
  }

  /** The address of c is kept for its holder, until it is live no more and then until c has expired. */
  predicate Kept(addresses: map<int, Address>, c: Cert) {
    && c.ip in addresses && addresses[c.ip].holder == HolderOf(c)
    && (addresses[c.ip].release.Some? ==> c.expires <= addresses[c.ip].release.value)
  }

  /** A live address that is released now: a member's for eleven minutes, a node's past all of cs. */
  predicate Rests(before: Address, after: Address, now: int, cs: set<Cert>) {
    && before.release.None? && after.holder == before.holder
    && after.release.Some? && after.release.value >= now + 660_000_000_000
    && (before.holder.OfMember? ==> after.release.value == now + 660_000_000_000)
    && (before.holder.OfNode? ==> forall c <- cs :: c.device == before.holder.device ==>
       c.expires <= after.release.value)
  }

  /** What a transaction at `now` may do to an address row: nothing, release it, or reuse it once it is overdue. */
  predicate AddressesMove(a: map<int, Address>, b: map<int, Address>, now: int, cs: set<Cert>) {
    forall ip <- a :: Overdue(a[ip].release, now) || (ip in b && (b[ip] == a[ip] || Rests(a[ip], b[ip], now, cs)))
  }

  /** The rows move, and only the certificates in `signed` are new, on a live address of their holder. */
  predicate Moves(a: Db, b: Db, now: int, signed: set<Cert>) {
    && AddressesMove(a.addresses, b.addresses, now, a.certs.Keys)
    && forall c <- b.certs :: c in a.certs || (c in signed && Live(b.addresses, c.ip, HolderOf(c)))
  }

  // ---------------------------------------------------------------- the pieces

  lemma MovesOn(a: map<int, Address>, b: map<int, Address>, c: map<int, Address>, now: int, cs: set<Cert>)
    requires AddressesMove(a, b, now, cs) && AddressesMove(b, c, now, cs)
    ensures AddressesMove(a, c, now, cs)
  {
  }

  /** Addresses as they were, and no new certificate. */
  lemma Untouched(before: Db, after: Db, now: int)
    requires after.certs.Keys <= before.certs.Keys && after.addresses == before.addresses
    ensures Moves(before, after, now, {})
  {
  }

  /** One step after another, without new certificates. */
  lemma Then(a: Db, b: Db, c: Db, now: int)
    requires Moves(a, b, now, {}) && Moves(b, c, now, {}) && b.certs.Keys == a.certs.Keys
    ensures Moves(a, c, now, {})
  {
    MovesOn(a.addresses, b.addresses, c.addresses, now, a.certs.Keys);
  }

  lemma RevokeMoves(db: Db, pool: Pool, now: int, ts: set<Target>)
    requires Sound(db, pool)
    ensures Moves(db, Revoke(db, now, ts), now, {}) && Revoke(db, now, ts).certs.Keys == db.certs.Keys
  {
    var x := Revoke(db, now, ts);
    assert x.certs.Keys == db.certs.Keys;
    forall ip | ip in db.addresses && Freed(db.members, ts, ip)
      ensures Rests(db.addresses[ip], x.addresses[ip], now, db.certs.Keys)
    {
      var k :| k in db.members && db.members[k].active && Hits(ts, k) && db.members[k].ip == ip;
      assert Live(db.addresses, ip, OfMember(k.device));
    }
  }

  lemma AllocateMoves(addresses: map<int, Address>, now: int, pool: Pool, h: Holder, cs: set<Cert>)
    requires Allocate(addresses, now, pool, h).Some?
    ensures AddressesMove(addresses, Allocate(addresses, now, pool, h).value.addresses, now, cs)
  {
  }

  lemma AddMemberMoves(db: Db, pool: Pool, now: int, k: Key)
    requires Sound(db, pool) && AddMember(db, now, pool, k).Done?
    ensures Moves(db, AddMember(db, now, pool, k).db, now, {})
  {
    var ts := StaleTargets(db, now, k.device);
    var x := EndStale(db, now, k.device);
    RevokeMoves(db, pool, now, ts);
    AllocateMoves(x.addresses, now, pool, OfMember(k.device), db.certs.Keys);
    MovesOn(db.addresses, x.addresses, AddMember(db, now, pool, k).db.addresses, now, db.certs.Keys);
  }

  lemma JoinedMoves(db: Db, pool: Pool, now: int, k: Key)
    requires Sound(db, pool) && Joined(db, now, pool, k).Done?
    ensures Moves(db, Joined(db, now, pool, k).db, now, {})
  {
    AddMemberMoves(db, pool, now, k);
  }

  lemma CreateMoves(db: Db, pool: Pool, now: int, k: Key, game: nat, expected: nat, code: nat)
    requires Sound(db, pool) && CreateRoom(db, now, pool, k, game, expected, code).Done?
    ensures Moves(db, CreateRoom(db, now, pool, k, game, expected, code).db, now, {})
  {
    var room := Room(db.devices[k.device].user, game, CAPACITY, 1, now + ROOM_LIFE, false);
    var started := db.(rooms := db.rooms[k.room := room]);
    NewRoomSound(db, pool, k.room, room);
    AddMemberMoves(started, pool, now, k);
  }

  /** Revoking targets, and then touching neither certificates nor addresses. */
  lemma EndMoves(db: Db, pool: Pool, now: int, ts: set<Target>, after: Db)
    requires Sound(db, pool)
    requires after.certs == Revoke(db, now, ts).certs && after.addresses == Revoke(db, now, ts).addresses
    ensures Moves(db, after, now, {})
  {
    RevokeMoves(db, pool, now, ts);
  }

  lemma CutMoves(db: Db, pool: Pool, now: int, user: nat, device: Option<nat>, closeOwned: bool)
    requires Sound(db, pool)
    ensures Moves(db, CutOff(db, now, user, device, closeOwned), now, {})
  {
    var ts := Cut(db, user, device, closeOwned, Visited(db, user, device, closeOwned));
    EndMoves(db, pool, now, ts, CutOff(db, now, user, device, closeOwned));
  }

  lemma GrantsCutMoves(db: Db, pool: Pool, now: int, user: nat, device: Option<nat>)
    requires Sound(db, pool)
    ensures Moves(db, CutOff(RevokeGrants(db, user, device), now, user, device, false), now, {})
  {
    DevicesSound(db, pool, RevokeGrants(db, user, device).devices);
    CutMoves(RevokeGrants(db, user, device), pool, now, user, device, false);
  }

  lemma ForgetMoves(db: Db, now: int)
    ensures Moves(db, Forget(db, now), now, {})
  {
  }

  lemma SweepMoves(db: Db, pool: Pool, now: int, required: set<nat>)
    requires Sound(db, pool)
    ensures Moves(db, Sweep(db, now, required), now, {})
  {
    var x := EnforceUpdates(db, now, required);
    EndMoves(db, pool, now, OutdatedTargets(db.members, required), x);
    EndAllSound(db, pool, now, OutdatedTargets(db.members, required));
    var y := RunOut(x, now, ExpiredRooms(x, now));
    EndMoves(x, pool, now, Marks(ExpiredRooms(x, now)), y);
    ForgetMoves(y, now);
    assert y.certs.Keys == x.certs.Keys == db.certs.Keys;
    Then(db, x, y, now);
    Then(db, y, Forget(y, now), now);
  }

  /** A signed certificate ends within the bound it was given, and within the life of its issuer. */
  lemma SignEnds(device: nat, room: Option<nat>, ip: int, s: Signing, until: int)
    requires Sign(device, room, ip, s, until).Some?
    ensures var c := Sign(device, room, ip, s, until).value;
            c.expires <= until && c.expires <= s.ca && c.expires > s.later && c.ip == ip && c.room == room
              && c.device == device
  {
  }

  lemma CertEnds(db: Db, k: Key, s: Signing)
    requires k in db.members && k.room in db.rooms && k.device in db.devices && LeaseCert(db, k, s).Some?
    ensures var c := LeaseCert(db, k, s).value;
            && c.device == k.device && c.room == Some(k.room) && c.ip == db.members[k].ip
            && s.later < c.expires <= s.clock + 600_000_000_000 && c.expires <= db.rooms[k.room].expires
            && (db.devices[k.device].expires.Some? ==> c.expires <= db.devices[k.device].expires.value)
  {
    SignEnds(k.device, Some(k.room), db.members[k].ip, s,
             Clamp(Earlier(s.clock + 600_000_000_000, db.rooms[k.room].expires), db.devices[k.device].expires));
  }

  lemma RecordMoves(db: Db, now: int, c: Cert)
    requires Live(db.addresses, c.ip, HolderOf(c))
    ensures Moves(db, Record(db, c), now, {c})
  {
  }

  /** c is signed for an active member of an open room at its address, and ends with the room, with the device's
      grant, and within ten minutes of signing. */
  predicate LeaseFits(db: Db, now: int, k: Key, s: Signing, c: Cert) {
    && k in db.members && k.room in db.rooms && k.device in db.devices
    && c.device == k.device && c.room == Some(k.room) && c.ip == db.members[k].ip
    && s.later < c.expires <= s.clock + 600_000_000_000 && c.expires <= db.rooms[k.room].expires
    && (db.devices[k.device].expires.Some? ==> c.expires <= db.devices[k.device].expires.value)
    && db.members[k].active && !db.rooms[k.room].closed && now < db.rooms[k.room].expires
  }

  /** What a room lease brings into the table is such a certificate. */
  lemma LeaseEnds(db: Db, now: int, k: Key, s: Signing, c: Cert)
    requires LeaseRoom(db, now, k, s).Done? && c !in db.certs && c in LeaseRoom(db, now, k, s).db.certs
    ensures LeaseFits(db, now, k, s, c)
  {
    CertEnds(db, k, s);
  }

  /** The certificate an operation signs, if any. */
  function FreshOf(db: Db, op: Op): set<Cert> {
    match op
    case OpLease(k, s) =>
      if k in db.members && k.room in db.rooms && k.device in db.devices && LeaseCert(db, k, s).Some?
      then {LeaseCert(db, k, s).value} else {}
    case OpNodeLease(d, serving, s) =>
      if d in db.nodes && Sign(d, None, db.nodes[d].ip, s, s.clock + 600_000_000_000).Some?
      then {Sign(d, None, db.nodes[d].ip, s, s.clock + 600_000_000_000).value} else {}
    case _ => {}
  }

  lemma LeaseMoves(db: Db, pool: Pool, now: int, k: Key, s: Signing)
    requires Sound(db, pool) && LeaseRoom(db, now, k, s).Done?
    ensures Moves(db, LeaseRoom(db, now, k, s).db, now, FreshOf(db, OpLease(k, s)))
  {
    CertEnds(db, k, s);
    assert Live(db.addresses, db.members[k].ip, OfMember(k.device));
    RecordMoves(Seen(db, now, k), now, LeaseCert(db, k, s).value);
  }

  lemma NodeLeaseMoves(db: Db, pool: Pool, now: int, d: nat, serving: bool, s: Signing)
    requires Sound(db, pool) && LeaseNode(db, d, serving, s).Done?
    ensures Moves(db, LeaseNode(db, d, serving, s).db, now, FreshOf(db, OpNodeLease(d, serving, s)))
  {
    SignEnds(d, None, db.nodes[d].ip, s, s.clock + 600_000_000_000);
    assert Live(db.addresses, db.nodes[d].ip, OfNode(d));
    RecordMoves(db, now, Sign(d, None, db.nodes[d].ip, s, s.clock + 600_000_000_000).value);
  }

  /** A retired node's address rests until its last certificate has expired, however late that was signed. */
  lemma RevokeNodeMoves(db: Db, now: int, d: nat, permanent: bool)
    ensures Moves(db, RevokeNode(db, now, d, permanent), now, {})
  {
    var x := RevokeNode(db, now, d, permanent);
    assert x.certs.Keys == db.certs.Keys;
    if permanent && d in db.nodes {
      RetireMoves(db.addresses, now, d, Latest(db.certs.Keys, d, now + 660_000_000_000), db.certs.Keys);
    }
  }

  lemma RetireMoves(addresses: map<int, Address>, now: int, d: nat, release: int, cs: set<Cert>)
    requires release >= now + 660_000_000_000 && forall c <- cs :: c.device == d ==> c.expires <= release
    ensures AddressesMove(addresses, Quarantined(addresses, OfNode(d), release), now, cs)
  {
  }

  // ---------------------------------------------------------------- one transaction

  lemma HeartbeatMoves(db: Db, now: int, k: Key, version: bool, mac: MacText)
    requires Heartbeat(db, now, k, version, mac).Done?
    ensures Moves(db, Heartbeat(db, now, k, version, mac).db, now, {})
  {
    Untouched(db, Heartbeat(db, now, k, version, mac).db, now);
  }

  lemma LeaveMoves(db: Db, pool: Pool, now: int, k: Key)
    requires Sound(db, pool) && Leave(db, now, k).Done?
    ensures Moves(db, Leave(db, now, k).db, now, {})
  {
    if SelfFault(db, now, k).None? {
      EndMoves(db, pool, now, {One(k.room, k.device)}, Leave(db, now, k).db);
    }
  }

  lemma AdminMoves(db: Db, pool: Pool, now: int, r: nat, kicked: Option<nat>)
    requires Sound(db, pool) && AdminRoomAction(db, now, r, kicked).Done?
    ensures Moves(db, AdminRoomAction(db, now, r, kicked).db, now, {})
  {
    match kicked
    case None => EndMoves(db, pool, now, {All(r)}, AdminRoomAction(db, now, r, kicked).db);
    case Some(d) => EndMoves(db, pool, now, {One(r, d)}, AdminRoomAction(db, now, r, kicked).db);
  }

  lemma UserActionMoves(db: Db, pool: Pool, now: int, user: nat, action: AccountAction)
    requires Sound(db, pool) && UserAction(db, now, user, action).Done?
    ensures Moves(db, UserAction(db, now, user, action).db, now, {})
  {
    match action
    case Enable => Untouched(db, SetStanding(db, user, Active), now);
    case Disable => Untouched(db, SetStanding(db, user, Disabled), now);
    case Delete => CutMoves(SetStanding(db, user, Deleted), pool, now, user, None, true);
    case LogoutAll => GrantsCutMoves(db, pool, now, user, None);
    case RevokeOne(d) => GrantsCutMoves(db, pool, now, user, Some(d));
  }

  lemma TakeoverMoves(db: Db, pool: Pool, now: int, d: nat, seen: Key, expected: nat)
    requires Sound(db, pool) && Takeover(db, now, d, seen, expected).Done?
    ensures Moves(db, Takeover(db, now, d, seen, expected).db, now, {})
  {
    EndMoves(db, pool, now, ElsewhereTargets(db, db.devices[d].user, d), Takeover(db, now, d, seen, expected).db);
  }

  lemma DeviceStepsMoves(db: Db, pool: Pool, now: int, d: nat, target: nat)
    requires Sound(db, pool)
    ensures RevokeDevice(db, now, d, target).Done? ==> Moves(db, RevokeDevice(db, now, d, target).db, now, {})
    ensures Logout(db, now, d).Done? ==> Moves(db, Logout(db, now, d).db, now, {})
  {
    if PlayerFault(db, now, d).None? {
      GrantsCutMoves(db, pool, now, db.devices[d].user, Some(target));
      GrantsCutMoves(db, pool, now, db.devices[d].user, Some(d));
    }
  }

  lemma EnrollMoves(db: Db, pool: Pool, now: int, d: nat)
    requires Enroll(db, now, pool, d).Done?
    ensures Moves(db, Enroll(db, now, pool, d).db, now, {})
  {
    AllocateMoves(db.addresses, now, pool, OfNode(d), db.certs.Keys);
  }

  lemma PlayerStepMoves(db: Db, pool: Pool, now: int, op: Op)
    requires Sound(db, pool) && Step(db, now, pool, op).Done?
    requires Playing(op)
    ensures Moves(db, Step(db, now, pool, op).db, now, FreshOf(db, op))
  {
    match op
    case OpCreate(k, game, expected, code) => CreateMoves(db, pool, now, k, game, expected, code);
    case OpJoin(device, code) =>
      if ActiveFault(db, now, Key(db.invites[code].room, device)).Some? {
        JoinedMoves(db, pool, now, Key(db.invites[code].room, device));
      }
    case OpOwnerJoin(k, expected) =>
      if ActiveFault(db, now, k).Some? {
        JoinedMoves(db, pool, now, k);
      }
    case OpHeartbeat(k, version, mac) => HeartbeatMoves(db, now, k, version, mac);
    case OpLeave(k) => LeaveMoves(db, pool, now, k);
    case OpRoom(k, action, expected) => RoomActionMoves(db, pool, now, k, action, expected);
    case OpAdminRoom(room, kicked) => AdminMoves(db, pool, now, room, kicked);
  }

  lemma RoomActionMoves(db: Db, pool: Pool, now: int, k: Key, action: Action, expected: nat)
    requires Sound(db, pool) && RoomAction(db, now, k, action, expected).Done?
    ensures Moves(db, RoomAction(db, now, k, action, expected).db, now, {})
  {
    var x := RoomAction(db, now, k, action, expected).db;
    if action.CloseRoom? && db.rooms[k.room].closed {
      Untouched(db, x, now);
    } else if action.CloseRoom? {
      EndMoves(db, pool, now, {All(k.room)}, x);
    } else if action.Kick? {
      EndMoves(db, pool, now, {One(k.room, action.device)}, x);
    } else {
      Untouched(db, x, now);
    }
  }

  lemma AccountStepMoves(db: Db, pool: Pool, now: int, op: Op)
    requires Sound(db, pool) && Step(db, now, pool, op).Done? && (op.OpRevokeDevice? || op.OpLogout? || op.OpUser?)
    ensures Moves(db, Step(db, now, pool, op).db, now, FreshOf(db, op))
  {
    match op
    case OpRevokeDevice(device, target) => DeviceStepsMoves(db, pool, now, device, target);
    case OpLogout(device) => DeviceStepsMoves(db, pool, now, device, device);
    case OpUser(user, account) => UserActionMoves(db, pool, now, user, account);
  }

  lemma ExpellingStepMoves(db: Db, pool: Pool, now: int, op: Op)
    requires Sound(db, pool) && Step(db, now, pool, op).Done? && Expelling(op)
    ensures Moves(db, Step(db, now, pool, op).db, now, FreshOf(db, op))
  {
    match op
    case OpTakeover(device, seen, expected) => TakeoverMoves(db, pool, now, device, seen, expected);
    case OpSweep(required) => SweepMoves(db, pool, now, required);
    case _ => AccountStepMoves(db, pool, now, op);
  }

  /** Neither certificates nor addresses are touched by these. */
  lemma QuietStepMoves(db: Db, pool: Pool, now: int, op: Op)
    requires Step(db, now, pool, op).Done? && (op.OpRegister? || op.OpExtend? || op.OpGame?)
    ensures Moves(db, Step(db, now, pool, op).db, now, FreshOf(db, op))
  {
    Untouched(db, Step(db, now, pool, op).db, now);
  }

  lemma OtherStepMoves(db: Db, pool: Pool, now: int, op: Op)
    requires Sound(db, pool) && Step(db, now, pool, op).Done?
    requires !Playing(op) && !Expelling(op)
    ensures Moves(db, Step(db, now, pool, op).db, now, FreshOf(db, op))
  {
    match op
    case OpLease(k, signing) => LeaseMoves(db, pool, now, k, signing);
    case OpNodeLease(device, serving, signing) => NodeLeaseMoves(db, pool, now, device, serving, signing);
    case OpEnroll(device) => EnrollMoves(db, pool, now, device);
    case OpRevokeNode(device, permanent) => RevokeNodeMoves(db, now, device, permanent);
    case _ => QuietStepMoves(db, pool, now, op);
  }

  lemma WriteMoves(db: Db, pool: Pool, now: int, op: Op)
    requires Sound(db, pool)
    ensures Moves(db, Write(db, now, pool, op), now, FreshOf(db, op))
  {
    if Step(db, now, pool, op).Done? {
      if Playing(op) {
        PlayerStepMoves(db, pool, now, op);
      } else if Expelling(op) {
        ExpellingStepMoves(db, pool, now, op);
      } else {
        OtherStepMoves(db, pool, now, op);
      }
    }
  }

  // ---------------------------------------------------------------- all runs

  /** No transaction of the run began after `horizon`; they may take the lock in any order. */
  predicate Before(run: seq<Tx>, horizon: int) {
    forall i :: 0 <= i < |run| ==> run[i].now <= horizon
  }

  /** Every certificate any transaction of the run has recorded, swept since or not. */
  ghost function Issued(run: seq<Tx>, pool: Pool): set<Cert> {
    if run == [] then {} else Issued(run[..|run| - 1], pool) + After(run, pool).certs.Keys
  }

  lemma {:induction false} ForgottenExpired(run: seq<Tx>, pool: Pool, c: Cert, horizon: int)
    requires Before(run, horizon) && c in Issued(run, pool) && c !in After(run, pool).certs
    ensures c.expires < horizon
  {
    var init, last := run[..|run| - 1], run[|run| - 1];
    if c in After(init, pool).certs {
      RoomHistory.WriteLasts(After(init, pool), pool, last.now, last.op);
    } else {
      ForgottenExpired(init, pool, c, horizon);
    }
  }

  /** Transaction i recorded c. */
  ghost predicate Records(run: seq<Tx>, pool: Pool, i: nat, c: Cert) {
    i < |run| && c !in After(run[..i], pool).certs && c in After(run[..i + 1], pool).certs
  }

  /** Between a and b, at `now`, the address of c is released, and c outlives the release. */
  predicate Early(a: Db, b: Db, now: int, c: Cert) {
    && c in a.certs && Live(a.addresses, c.ip, HolderOf(c)) && c.expires > now + 660_000_000_000
    && c.ip in b.addresses && b.addresses[c.ip] == Address(HolderOf(c), Some(now + 660_000_000_000))
  }

  /** Transaction j released the address of c, which c outlives. */
  ghost predicate Outlived(run: seq<Tx>, pool: Pool, j: nat, c: Cert) {
    j < |run| && Early(After(run[..j], pool), After(run[..j + 1], pool), run[j].now, c)
  }

  lemma Unfold(run: seq<Tx>, pool: Pool, n: nat)
    requires n < |run|
    ensures After(run[..n + 1], pool) == Write(After(run[..n], pool), run[n].now, pool, run[n].op)
    ensures Sound(After(run[..n], pool), pool)
  {
    assert run[..n + 1][..n] == run[..n];
    AlwaysSound(run[..n], pool);
  }

  /** One transaction leaves a kept address kept, or it is the release that the certificate outlives. */
  lemma KeptStep(a: Db, b: Db, now: int, signed: set<Cert>, c: Cert, horizon: int)
    requires Moves(a, b, now, signed) && now <= horizon <= c.expires
    requires c in a.certs && Kept(a.addresses, c)
    ensures Kept(b.addresses, c) || Early(a, b, now, c)
  {
    assert !Overdue(a.addresses[c.ip].release, now);
  }

  lemma StepMoves(run: seq<Tx>, pool: Pool, m: nat)
    requires m < |run|
    ensures Moves(After(run[..m], pool), After(run[..m + 1], pool), run[m].now,
            FreshOf(After(run[..m], pool), run[m].op))
  {
    Unfold(run, pool, m);
    WriteMoves(After(run[..m], pool), pool, run[m].now, run[m].op);
  }

  lemma KeptNext(run: seq<Tx>, pool: Pool, m: nat, c: Cert, horizon: int)
    requires m < |run| && Before(run, horizon) && horizon <= c.expires
    requires c in After(run[..m], pool).certs && Kept(After(run[..m], pool).addresses, c)
    ensures Kept(After(run[..m + 1], pool).addresses, c) || Outlived(run, pool, m, c)
  {
    StepMoves(run, pool, m);
    KeptStep(After(run[..m], pool), After(run[..m + 1], pool), run[m].now, FreshOf(After(run[..m], pool), run[m].op), c,
      horizon);
  }

  /** A certificate is recorded on a live address of its holder. */
  lemma RecordedLive(run: seq<Tx>, pool: Pool, i: nat, c: Cert)
    requires Records(run, pool, i, c)
    ensures Live(After(run[..i + 1], pool).addresses, c.ip, HolderOf(c))
            && c in FreshOf(After(run[..i], pool), run[i].op)
  {
    Unfold(run, pool, i);
    WriteMoves(After(run[..i], pool), pool, run[i].now, run[i].op);
  }

  /** A certificate that has not expired has its address kept, or some transaction released it too early. */
  lemma {:induction false} KeptOrOutlived(run: seq<Tx>, pool: Pool, n: nat, c: Cert, horizon: int)
    requires n <= |run| && Before(run, horizon) && c in After(run[..n], pool).certs && horizon <= c.expires
    ensures Kept(After(run[..n], pool).addresses, c) || exists j :: 0 <= j < n && Outlived(run, pool, j, c)
  {
    if n > 0 {
      if c in After(run[..n - 1], pool).certs {
        KeptOrOutlived(run, pool, n - 1, c, horizon);
        if Kept(After(run[..n - 1], pool).addresses, c) {
          KeptNext(run, pool, n - 1, c, horizon);
        }
      } else {
        RecordedLive(run, pool, n - 1, c);
      }
    }
  }

  /** Every recorded certificate was recorded by some transaction. */
  lemma {:induction false} RecordedBy(run: seq<Tx>, pool: Pool, n: nat, c: Cert) returns (i: int)
    requires n <= |run| && c in After(run[..n], pool).certs
    ensures 0 <= i < n && Records(run, pool, i, c)
  {
    i := n - 1;
    if n > 0 && c in After(run[..n - 1], pool).certs {
      i := RecordedBy(run, pool, n - 1, c);
    }
  }

  /** Only a room lease records a room certificate, which ends ten minutes after its signing clock or sooner. */
  lemma RoomCertIsLease(run: seq<Tx>, pool: Pool, i: nat, c: Cert)
    requires Records(run, pool, i, c) && c.room.Some?
    ensures run[i].op.OpLease? && c.expires <= run[i].op.signing.clock + 600_000_000_000
  {
    var a := After(run[..i], pool);
    RecordedLive(run, pool, i, c);
    if run[i].op.OpLease? {
      CertEnds(a, run[i].op.k, run[i].op.signing);
    }
  }

  /** Lease i was signed more than a minute after release j of its address began. */
  ghost predicate SignedLate(run: seq<Tx>, pool: Pool, i: nat, j: nat, c: Cert) {
    && i < j < |run| && Records(run, pool, i, c) && Outlived(run, pool, j, c)
    && run[i].op.OpLease? && run[i].op.signing.clock > run[j].now + 60_000_000_000
  }

  /** An early release goes back to a lease that was signed late. */
  lemma OutlivedIsLate(run: seq<Tx>, pool: Pool, j: nat, c: Cert) returns (i: int)
    requires Outlived(run, pool, j, c) && c.room.Some?
    ensures 0 <= i && SignedLate(run, pool, i, j, c)
  {
    i := RecordedBy(run, pool, j, c);
    RoomCertIsLease(run, pool, i, c);
  }

  /** Nodes are never released too early. */
  lemma OnlyRoomsOutlive(run: seq<Tx>, pool: Pool, j: nat, c: Cert)
    requires Outlived(run, pool, j, c)
    ensures c.room.Some?
  {
    var a := After(run[..j], pool);
    Unfold(run, pool, j);
    WriteMoves(a, pool, run[j].now, run[j].op);
    assert a.addresses[c.ip].release.None?;
  }

  /** Some certificate of the address was signed more than a minute after the begin of its release. */
  ghost predicate LateFor(run: seq<Tx>, pool: Pool, a: Cert, b: Cert) {
    exists i, j :: SignedLate(run, pool, i, j, a) || SignedLate(run, pool, i, j, b)
  }

  /**
   * In every run, in whatever order transactions take the lock and whenever leases are signed: two
   * devices hold certificates for one address that are still valid only if one of these leases was
   * signed more than a minute after the transaction that released its address began.
   */
  lemma AliasedOnlyByLateSigning(run: seq<Tx>, pool: Pool, t: int, a: Cert, b: Cert)
    requires Before(run, t) && a in Issued(run, pool) && b in Issued(run, pool)
    requires a.ip == b.ip && a.device != b.device && t <= a.expires && t <= b.expires
    ensures LateFor(run, pool, a, b)
  {
    assert run[..|run|] == run;
    var n := |run|;
    if a !in After(run, pool).certs {
      ForgottenExpired(run, pool, a, t);
    }
    if b !in After(run, pool).certs {
      ForgottenExpired(run, pool, b, t);
    }
    KeptOrOutlived(run, pool, n, a, t);
    KeptOrOutlived(run, pool, n, b, t);
    assert !(Kept(After(run, pool).addresses, a) && Kept(After(run, pool).addresses, b));
    if j :| 0 <= j < n && Outlived(run, pool, j, a) {
      OnlyRoomsOutlive(run, pool, j, a);
      var i := OutlivedIsLate(run, pool, j, a);
    } else {
      var j :| 0 <= j < n && Outlived(run, pool, j, b);
      OnlyRoomsOutlive(run, pool, j, b);
      var i := OutlivedIsLate(run, pool, j, b);
    }
  }

  /** Every room lease is signed at most a minute after each later transaction began. */
  predicate Prompt(run: seq<Tx>) {
    forall i, j :: 0 <= i < j < |run| && run[i].op.OpLease? ==> run[i].op.signing.clock <= run[j].now + 60_000_000_000
  }

  /**
   * No aliasing in time: when leases are signed promptly, all certificates ever issued for an address,
   * revoked or not, that are still valid once all transactions have begun belong to one device.
   */
  lemma OneDevicePerAddress(run: seq<Tx>, pool: Pool, t: int, a: Cert, b: Cert)
    requires Prompt(run) && Before(run, t)
    requires a in Issued(run, pool) && b in Issued(run, pool) && a.ip == b.ip
    requires t <= a.expires && t <= b.expires
    ensures a.device == b.device
  {
    if a.device != b.device {
      AliasedOnlyByLateSigning(run, pool, t, a, b);
    }
  }

  /** allocate fails exactly when nobody of that name holds an address and all usable ones are taken. */
  lemma ExhaustedExactly(addresses: map<int, Address>, now: int, pool: Pool, h: Holder)
    ensures Allocate(addresses, now, pool, h).None?
            <==> (forall ip :: !Live(addresses, ip, h))
                 && (forall ip :: pool.base < ip < pool.last ==>
                    ip in addresses && !Overdue(addresses[ip].release, now))
  {
    var kept := Purge(addresses, now);
    if Allocate(addresses, now, pool, h).None? {
      forall ip | pool.base < ip < pool.last
        ensures ip in addresses && !Overdue(addresses[ip].release, now)
      {
        assert ip in kept.Keys;
      }
    } else if forall ip :: !Live(addresses, ip, h) {
      var ip := Allocate(addresses, now, pool, h).value.ip;
      assert ip !in kept.Keys;
    }
  }

  /** A new address is the lowest usable one that is not taken, and its quarantine is over. */
  lemma LowestIsTaken(addresses: map<int, Address>, now: int, pool: Pool, h: Holder)
    requires forall ip :: !Live(addresses, ip, h)
    requires Allocate(addresses, now, pool, h).Some?
    ensures var ip := Allocate(addresses, now, pool, h).value.ip;
            && pool.base < ip < pool.last
            && (ip in addresses ==> Overdue(addresses[ip].release, now))
            && (forall x :: pool.base < x < ip ==> x in addresses && !Overdue(addresses[x].release, now))
  {
    var kept := Purge(addresses, now);
    var ip := Allocate(addresses, now, pool, h).value.ip;
    assert ip !in kept.Keys;
    forall x | pool.base < x < ip
      ensures x in addresses && !Overdue(addresses[x].release, now)
    {
      assert x in kept.Keys;
    }
  }
}
