/**
 * The tables of the control plane behind rooms, addresses and leases, and what one serialized
 * transaction does to them. Times are nanoseconds; identifiers are numbers, so that hashes are
 * injective. A failed transaction leaves no trace: Fail carries no tables.
 */
module Rooms {
  import opened Bytes
  import opened Times

  const LEASE := 600 * SECOND
  const QUARANTINE := 660 * SECOND
  const MAX_LAG := 60 * SECOND
  const ROOM_LIFE := 24 * HOUR
  const INVITE_LIFE := 1800 * SECOND
  const CERT_KEPT := HOUR
  const CAPACITY := 4

  datatype Standing = Active | Disabled | Deleted

  datatype User = User(registered: bool, standing: Standing)

  datatype Grant = Grant(user: nat, revoked: bool, expires: Option<int>)

  datatype Game = Game(enabled: bool, revision: nat)

  datatype Room = Room(owner: nat, game: nat, capacity: nat, revision: nat, expires: int, closed: bool)

  datatype Key = Key(room: nat, device: nat)

  datatype Member = Member(user: nat, ip: int, mac: Option<seq<byte>>, active: bool, lastSeen: int)

  datatype Holder = OfMember(device: nat) | OfNode(device: nat)

  /**
   * A reserved address. Revocation renames the holder with a random suffix and sets release in the
   * same statement, so a row is renamed exactly when release is present.
   */
  datatype Address = Address(holder: Holder, release: Option<int>)

  /** Everything a certificate signs. Nodes have no room. */
  datatype Cert = Cert(device: nat, room: Option<nat>, ip: int, key: nat, from: int, expires: int)

  datatype Invite = Invite(room: nat, expires: int)

  datatype Binding = Binding(ip: int, current: bool)

  /** certs maps each certificate to its revoked flag. */
  datatype Db = Db(
    users: map<nat, User>, devices: map<nat, Grant>, games: map<nat, Game>, rooms: map<nat, Room>,
    members: map<Key, Member>, bans: set<(nat, nat)>, addresses: map<int, Address>,
    certs: map<Cert, bool>, invites: map<nat, Invite>, nodes: map<nat, Binding>)

  datatype Code =
    | Internal | NotFound | Invalid
    | DeviceUnregistered | AccountDeleted | DeviceRevoked | DeviceExpired | GuestForbidden | UserDeleted
    | AccountInUse | AlreadyJoined | ScopeConflict
    | RoomExpired | RoomClosed | RoomBanned | RoomFull | OwnerRequired | RevisionConflict
    | GameDisabled | InviteUnusable | AddressesExhausted
    | MemberEnded | MemberNotActive | TargetSelf | StateStale | MacConflict | LanVersion
    | CaUnavailable | NodeDisabled | NodeConflict

  datatype Outcome = Done(db: Db) | Fail(code: Code)

  /** The IPv4 addresses of a pool run from base, its network address, to last, its broadcast. */
  datatype Pool = Pool(base: int, last: int)

  // ---------------------------------------------------------------- revoke and bump

  datatype Target = One(room: nat, device: nat) | All(room: nat)

  predicate Hits(ts: set<Target>, k: Key) {
    One(k.room, k.device) in ts || All(k.room) in ts
  }

  predicate HitsCert(ts: set<Target>, c: Cert) {
    c.room.Some? && Hits(ts, Key(c.room.value, c.device))
  }

  /** An active membership that is being revoked sits at this address. */
  predicate Freed(members: map<Key, Member>, ts: set<Target>, ip: int) {
    exists k :: k in members && members[k].active && Hits(ts, k) && members[k].ip == ip
  }

  function RevokeCerts(certs: map<Cert, bool>, ts: set<Target>): map<Cert, bool> {
    map c | c in certs :: certs[c] || HitsCert(ts, c)
  }

  function ReleaseAt(addresses: map<int, Address>, members: map<Key, Member>, ts: set<Target>,
      release: int): map<int, Address> {
    map ip | ip in addresses ::
      if Freed(members, ts, ip) then Address(addresses[ip].holder, Some(release)) else addresses[ip]
  }

  function Deactivate(members: map<Key, Member>, ts: set<Target>): map<Key, Member> {
    map k | k in members :: if Hits(ts, k) then members[k].(active := false) else members[k]
  }

  /** revoke, for all targets at once. */
  function Revoke(db: Db, now: int, ts: set<Target>): Db {
    db.(certs := RevokeCerts(db.certs, ts),
        addresses := ReleaseAt(db.addresses, db.members, ts, now + QUARANTINE),
        members := Deactivate(db.members, ts))
  }

  function At(ts: set<Target>, r: nat): set<Target> {
    set t | t in ts && t.room == r
  }

  function Renumber(rooms: map<nat, Room>, ts: set<Target>): map<nat, Room> {
    map r | r in rooms :: rooms[r].(revision := rooms[r].revision + |At(ts, r)|)
  }

  function Closed(rooms: map<nat, Room>, rs: set<nat>): map<nat, Room> {
    map r | r in rooms :: rooms[r].(closed := rooms[r].closed || r in rs)
  }

  /** bump once for every target, in its room. */
  function BumpEach(db: Db, ts: set<Target>): Db {
    db.(rooms := Renumber(db.rooms, ts))
  }

  function Raised(rooms: map<nat, Room>, r: nat): map<nat, Room> {
    if r in rooms then rooms[r := rooms[r].(revision := rooms[r].revision + 1)] else rooms
  }

  /** bump. */
  function Bump(db: Db, r: nat): Db {
    db.(rooms := Raised(db.rooms, r))
  }

  function Close(db: Db, rs: set<nat>): Db {
    db.(rooms := Closed(db.rooms, rs))
  }

  function DropInvites(db: Db, rs: set<nat>): Db {
    db.(invites := map c | c in db.invites && db.invites[c].room !in rs :: db.invites[c])
  }

  // ---------------------------------------------------------------- addresses

  predicate Live(addresses: map<int, Address>, ip: int, h: Holder) {
    ip in addresses && addresses[ip] == Address(h, None)
  }

  predicate Overdue(release: Option<int>, now: int) {
    release.Some? && release.value < now
  }

  function Purge(addresses: map<int, Address>, now: int): map<int, Address> {
    map ip | ip in addresses && !Overdue(addresses[ip].release, now) :: addresses[ip]
  }

  /** The scan for the lowest unused address from a, below end. */
  function LowestFree(used: set<int>, a: int, end: int): (r: Option<int>)
    ensures r.Some? ==> a <= r.value < end && r.value !in used && forall x :: a <= x < r.value ==> x in used
    ensures r.None? ==> forall x :: a <= x < end ==> x in used
    decreases end - a
  {
    if a >= end then None
    else if a in used then LowestFree(used, a + 1, end)
    else Some(a)
  }

  datatype Seat = Seat(ip: int, addresses: map<int, Address>)

  /** allocate: the address the holder has, or the lowest free one strictly inside the pool. */
  ghost function Allocate(addresses: map<int, Address>, now: int, pool: Pool, h: Holder): Option<Seat> {
    if exists ip :: Live(addresses, ip, h) then
      var ip :| Live(addresses, ip, h);
      Some(Seat(ip, addresses))
    else
      var kept := Purge(addresses, now);
      match LowestFree(kept.Keys, pool.base + 1, pool.last)
      case Some(ip) => Some(Seat(ip, kept[ip := Address(h, None)]))
      case None => None
  }

  // ---------------------------------------------------------------- checks

  predicate Past(expires: Option<int>, now: int) {
    expires.Some? && expires.value <= now
  }

  /** playerUser: why this device may not act, if so. */
  function PlayerFault(db: Db, now: int, d: nat): Option<Code> {
    if d !in db.devices || db.devices[d].user !in db.users then Some(DeviceUnregistered)
    else
      var g := db.devices[d];
      if db.users[g.user].standing.Deleted? then Some(AccountDeleted)
      else if g.revoked then Some(DeviceRevoked)
      else if Past(g.expires, now) then Some(DeviceExpired)
      else None
  }

  /** memberSelf: None when the membership is active. */
  function SelfFault(db: Db, now: int, k: Key): Option<Code> {
    if k !in db.members || k.room !in db.rooms || k.device !in db.devices then Some(NotFound)
    else if db.rooms[k.room].expires <= now then Some(RoomExpired)
    else if db.rooms[k.room].closed then Some(RoomClosed)
    else if db.members[k].active then None
    else Some(MemberEnded)
  }

  /** activeMember. */
  function ActiveFault(db: Db, now: int, k: Key): Option<Code> {
    if PlayerFault(db, now, k.device).Some? then PlayerFault(db, now, k.device) else SelfFault(db, now, k)
  }

  predicate Related(db: Db, r: nat, user: nat) {
    exists k :: k in db.members && k.room == r && db.members[k].user == user
  }

  /** owner. */
  function OwnerFault(db: Db, now: int, k: Key): Option<Code> {
    if PlayerFault(db, now, k.device).Some? then PlayerFault(db, now, k.device)
    else if k.room !in db.rooms then Some(NotFound)
    else
      var r, user := db.rooms[k.room], db.devices[k.device].user;
      if r.owner != user then Some(if Related(db, k.room, user) then OwnerRequired else NotFound)
      else if r.expires <= now then Some(RoomExpired)
      else if r.closed then Some(RoomClosed)
      else None
  }

  // ---------------------------------------------------------------- joining

  /** A membership of the device's user that should already have ended. */
  predicate Stale(db: Db, now: int, d: nat, k: Key) {
    && d in db.devices && k in db.members && k.room in db.rooms && k.device in db.devices
    && db.members[k].user == db.devices[d].user && db.members[k].active
    && (db.rooms[k.room].closed || db.rooms[k.room].expires <= now
        || db.devices[k.device].revoked || Past(db.devices[k.device].expires, now))
  }

  function StaleTargets(db: Db, now: int, d: nat): set<Target> {
    set k | k in db.members && Stale(db, now, d, k) :: One(k.room, k.device)
  }

  function EndStale(db: Db, now: int, d: nat): Db {
    BumpEach(Revoke(db, now, StaleTargets(db, now, d)), StaleTargets(db, now, d))
  }

  predicate Occupies(db: Db, d: nat, k: Key) {
    d in db.devices && k in db.members && db.members[k].active && db.members[k].user == db.devices[d].user
  }

  ghost predicate HereAlready(db: Db, d: nat) {
    exists k :: Occupies(db, d, k) && k.device == d
  }

  /** available. */
  ghost function Available(before: Db, now: int, d: nat): Outcome {
    var db := EndStale(before, now, d);
    if exists k :: Occupies(db, d, k) then Fail(if HereAlready(db, d) then AlreadyJoined else AccountInUse)
    else if d in db.nodes then Fail(ScopeConflict)
    else Done(db)
  }

  function ActiveIn(members: map<Key, Member>, r: nat): set<Key> {
    set k | k in members && k.room == r && members[k].active
  }

  /** The row that addMember writes; a returning device keeps its user and loses its MAC. */
  function Seated(db: Db, now: int, k: Key, seat: Seat): Db
    requires k.device in db.devices
  {
    db.(addresses := seat.addresses,
        members := db.members[k := Member(
          if k in db.members then db.members[k].user else db.devices[k.device].user, seat.ip, None, true, now)])
  }

  /** The room's own reasons to refuse a newcomer, in the order they are checked. */
  function EntryFault(db: Db, now: int, k: Key): Option<Code> {
    if k.room !in db.rooms || db.rooms[k.room].game !in db.games then Some(NotFound)
    else
      var r := db.rooms[k.room];
      if r.expires <= now then Some(RoomExpired)
      else if r.closed then Some(RoomClosed)
      else if k.device in db.devices && (k.room, db.devices[k.device].user) in db.bans then Some(RoomBanned)
      else if !db.games[r.game].enabled then Some(GameDisabled)
      else if |ActiveIn(db.members, k.room)| >= r.capacity then Some(RoomFull)
      else None
  }

  /** addMember. */
  ghost function AddMember(before: Db, now: int, pool: Pool, k: Key): Outcome {
    match Available(before, now, k.device)
    case Fail(c) => Fail(c)
    case Done(db) =>
      if EntryFault(db, now, k).Some? then Fail(EntryFault(db, now, k).value)
      else match Allocate(db.addresses, now, pool, OfMember(k.device))
      case None => Fail(AddressesExhausted)
      case Some(seat) => if k.device in db.devices then Done(Seated(db, now, k, seat)) else Fail(Internal)
  }

  /** invitation: the room's one invitation is replaced by `code`. */
  function Invited(db: Db, now: int, r: nat, code: nat): Outcome {
    var cleared := DropInvites(db, {r});
    if r !in db.rooms || code in cleared.invites then Fail(Internal)
    else Done(Bump(cleared.(invites := cleared.invites[code := Invite(r,
      Earlier(now + INVITE_LIFE, db.rooms[r].expires))]), r))
  }

  /** createRoom, with fresh identifiers for the room and its invitation. */
  ghost function CreateRoom(db: Db, now: int, pool: Pool, k: Key, game: nat, revision: nat, code: nat): Outcome {
    if game !in db.games then Fail(NotFound)
    else if !db.games[game].enabled then Fail(GameDisabled)
    else if revision != db.games[game].revision then Fail(RevisionConflict)
    else if k.device !in db.devices || k.room in db.rooms then Fail(Internal)
    else
      var room := Room(db.devices[k.device].user, game, CAPACITY, 1, now + ROOM_LIFE, false);
      match AddMember(db.(rooms := db.rooms[k.room := room]), now, pool, k)
      case Fail(c) => Fail(c)
      case Done(x) =>
        match Invited(x, now, k.room, code)
        case Fail(c) => Fail(c)
        case Done(y) => Done(Bump(y, k.room))
  }

  ghost function Joined(db: Db, now: int, pool: Pool, k: Key): Outcome {
    match AddMember(db, now, pool, k)
    case Fail(c) => Fail(c)
    case Done(x) => Done(Bump(x, k.room))
  }

  /** joinRoom: an active member may ask again without taking another address. */
  ghost function JoinRoom(db: Db, now: int, pool: Pool, d: nat, code: nat): Outcome {
    if code !in db.invites || db.invites[code].expires <= now then Fail(InviteUnusable)
    else
      var k := Key(db.invites[code].room, d);
      if ActiveFault(db, now, k).None? then Done(db) else Joined(db, now, pool, k)
  }

  /** playerOwnerJoin. */
  ghost function OwnerJoin(db: Db, now: int, pool: Pool, k: Key, revision: nat): Outcome {
    if OwnerFault(db, now, k).Some? then Fail(OwnerFault(db, now, k).value)
    else if ActiveFault(db, now, k).None? then Done(db)
    else if db.rooms[k.room].revision != revision then Fail(RevisionConflict)
    else Joined(db, now, pool, k)
  }

  // ---------------------------------------------------------------- being a member

  predicate MacTaken(members: map<Key, Member>, k: Key, mac: seq<byte>) {
    exists o :: o in members && o.room == k.room && members[o].active && o != k && members[o].mac == Some(mac)
  }

  function SetMac(db: Db, k: Key, mac: seq<byte>): Db
    requires k in db.members
  {
    if db.members[k].mac == Some(mac) then db
    else Bump(db.(members := db.members[k := db.members[k].(mac := Some(mac))]), k.room)
  }

  function Seen(db: Db, now: int, k: Key): Db
    requires k in db.members
  {
    db.(members := db.members[k := db.members[k].(lastSeen := now)])
  }

  /** A MAC string parses to None when it is malformed. */
  datatype MacText = Empty | Malformed | Parsed(octets: seq<byte>)

  /** heartbeat. */
  function Heartbeat(db: Db, now: int, k: Key, version: bool, mac: MacText): Outcome {
    if ActiveFault(db, now, k).Some? then Fail(ActiveFault(db, now, k).value)
    else if !version then Fail(LanVersion)
    else match mac
    case Empty => Done(Seen(db, now, k))
    case Malformed => Fail(Invalid)
    case Parsed(octets) =>
      if MacTaken(db.members, k, octets) then Fail(MacConflict) else Done(Seen(SetMac(db, k, octets), now, k))
  }

  function Ban(db: Db, k: Key): Db {
    if k in db.members then db.(bans := db.bans + {(k.room, db.members[k].user)}) else db
  }

  /** roomAction with action leave. */
  function Leave(db: Db, now: int, k: Key): Outcome {
    if PlayerFault(db, now, k.device).Some? then Fail(PlayerFault(db, now, k.device).value)
    else if k.room !in db.rooms || k !in db.members then Fail(NotFound)
    else if SelfFault(db, now, k).Some? then Done(db)
    else Done(Bump(Revoke(db, now, {One(k.room, k.device)}), k.room))
  }

  datatype Action = Kick(device: nat) | Transfer(device: nat) | CloseRoom | NewInvite(code: nat) | RevokeInvite

  /** The checks every owner's action passes first; None means go on. */
  function OwnerGate(db: Db, now: int, k: Key, revision: nat): Option<Code> {
    if OwnerFault(db, now, k).Some? then OwnerFault(db, now, k)
    else if revision != db.rooms[k.room].revision then Some(RevisionConflict)
    else None
  }

  /** Why a kick or a transfer cannot name this target. */
  function TargetFault(db: Db, now: int, k: Key, target: Key): Option<Code>
    requires k.device in db.devices
  {
    if target !in db.members || !db.members[target].active then Some(MemberNotActive)
    else if db.members[target].user == db.devices[k.device].user then Some(TargetSelf)
    else if ActiveFault(db, now, target).Some? then Some(MemberNotActive)
    else None
  }

  /** What the owner's action does once every check has passed. */
  function Acted(db: Db, now: int, k: Key, action: Action): Outcome
    requires k.device in db.devices && k.room in db.rooms
  {
    match action
    case Kick(device) =>
      var target := Key(k.room, device);
      if TargetFault(db, now, k, target).Some? then Fail(TargetFault(db, now, k, target).value)
      else Done(Bump(Ban(Revoke(db, now, {One(k.room, device)}), target), k.room))
    case Transfer(device) =>
      var target := Key(k.room, device);
      if TargetFault(db, now, k, target).Some? then Fail(TargetFault(db, now, k, target).value)
      else
        var given := db.(rooms := db.rooms[k.room := db.rooms[k.room].(owner := db.members[target].user)]);
        Done(Bump(DropInvites(given, {k.room}), k.room))
    case CloseRoom => Done(Shut(db, now, k.room))
    case NewInvite(code) => Invited(db, now, k.room, code)
    case RevokeInvite =>
      if exists c :: c in db.invites && db.invites[c].room == k.room then Done(Bump(DropInvites(db, {k.room}), k.room))
      else Done(db)
  }

  /** roomAction with an owner's action; closing a closed room again does nothing. */
  function RoomAction(db: Db, now: int, k: Key, action: Action, revision: nat): Outcome {
    if PlayerFault(db, now, k.device).Some? then Fail(PlayerFault(db, now, k.device).value)
    else if k.room !in db.rooms then Fail(NotFound)
    else if db.rooms[k.room].owner != db.devices[k.device].user then Fail(OwnerRequired)
    else if action.CloseRoom? && db.rooms[k.room].closed then Done(db)
    else if OwnerGate(db, now, k, revision).Some? then Fail(OwnerGate(db, now, k, revision).value)
    else Acted(db, now, k, action)
  }

  /** Closing a room: everybody out, no invitation left. */
  function Shut(db: Db, now: int, r: nat): Db {
    Bump(DropInvites(Close(Revoke(db, now, {All(r)}), {r}), {r}), r)
  }

  /** adminRoomAction; None closes, Some kicks. */
  function AdminRoomAction(db: Db, now: int, r: nat, kicked: Option<nat>): Outcome {
    if r !in db.rooms then Fail(NotFound)
    else if db.rooms[r].closed then Fail(RoomClosed)
    else match kicked
    case None => Done(Shut(db, now, r))
    case Some(device) =>
      var target := Key(r, device);
      if ActiveFault(db, now, target).Some? then Fail(ActiveFault(db, now, target).value)
      else Done(Bump(Ban(Revoke(db, now, {One(r, device)}), target), r))
  }

  // ---------------------------------------------------------------- accounts and devices

  predicate Elsewhere(db: Db, user: nat, d: nat, k: Key) {
    k in db.members && db.members[k].user == user && db.members[k].active && k.device != d
  }

  function ElsewhereTargets(db: Db, user: nat, d: nat): set<Target> {
    set k | k in db.members && Elsewhere(db, user, d, k) :: One(k.room, k.device)
  }

  /** takeoverPlayer: the device ends the memberships its user holds on other devices. */
  ghost function Takeover(db: Db, now: int, d: nat, seen: Key, revision: nat): Outcome {
    if PlayerFault(db, now, d).Some? then Fail(PlayerFault(db, now, d).value)
    else
      var user := db.devices[d].user;
      if !exists k :: Elsewhere(db, user, d, k) then Fail(StateStale)
      else
        var k :| Elsewhere(db, user, d, k);
        if seen != k || k.room !in db.rooms || db.rooms[k.room].revision != revision then Fail(RevisionConflict)
        else
          var ts := ElsewhereTargets(db, user, d);
          Done(BumpEach(Revoke(db, now, ts), ts))
  }

  /** None stands for every device of the user. */
  predicate Picked(device: Option<nat>, d: nat) {
    device == None || device == Some(d)
  }

  predicate Connected(db: Db, user: nat, device: Option<nat>, k: Key) {
    k in db.members && db.members[k].user == user && db.members[k].active && Picked(device, k.device)
  }

  function Visited(db: Db, user: nat, device: Option<nat>, closeOwned: bool): set<nat> {
    (set k | k in db.members && Connected(db, user, device, k) :: k.room)
    + (set r | r in db.rooms && db.rooms[r].owner == user && closeOwned && !db.rooms[r].closed)
  }

  predicate Ends(db: Db, user: nat, closeOwned: bool, r: nat) {
    r in db.rooms && db.rooms[r].owner == user && closeOwned
  }

  /** The rooms that end with their owner, among rs. */
  function Ending(db: Db, user: nat, closeOwned: bool, rs: set<nat>): set<nat> {
    set r | r in rs && Ends(db, user, closeOwned, r)
  }

  function Cut(db: Db, user: nat, device: Option<nat>, closeOwned: bool, rs: set<nat>): set<Target> {
    (set r | r in Ending(db, user, closeOwned, rs) :: All(r))
    + (set k | k in db.members && Connected(db, user, device, k) && k.room in rs && !Ends(db, user, closeOwned, k.room)
         :: One(k.room, k.device))
  }

  function Marks(rs: set<nat>): set<Target> {
    set r | r in rs :: All(r)
  }

  /** revokeUserConnections over the rooms rs, for all of them at once. */
  function CutIn(db: Db, now: int, user: nat, device: Option<nat>, closeOwned: bool, rs: set<nat>): Db {
    var ended := Ending(db, user, closeOwned, rs);
    BumpEach(DropInvites(Close(Revoke(db, now, Cut(db, user, device, closeOwned, rs)), ended), ended), Marks(rs))
  }

  function CutOff(db: Db, now: int, user: nat, device: Option<nat>, closeOwned: bool): Db {
    CutIn(db, now, user, device, closeOwned, Visited(db, user, device, closeOwned))
  }

  function RevokeGrants(db: Db, user: nat, device: Option<nat>): Db {
    db.(devices := map d | d in db.devices ::
        if db.devices[d].user == user && Picked(device, d) then db.devices[d].(revoked := true) else db.devices[d])
  }

  /** revokePlayerDevice. */
  function RevokeDevice(db: Db, now: int, d: nat, target: nat): Outcome {
    if PlayerFault(db, now, d).Some? then Fail(PlayerFault(db, now, d).value)
    else
      var user := db.devices[d].user;
      if !db.users[user].registered then Fail(GuestForbidden)
      else if target == d then Fail(TargetSelf)
      else if target !in db.devices || db.devices[target].user != user then Fail(NotFound)
      else if db.devices[target].revoked then Done(db)
      else Done(CutOff(RevokeGrants(db, user, Some(target)), now, user, Some(target), false))
  }

  /** logoutPlayer. */
  function Logout(db: Db, now: int, d: nat): Outcome {
    if PlayerFault(db, now, d).Some? then Fail(PlayerFault(db, now, d).value)
    else
      var user := db.devices[d].user;
      if !db.users[user].registered then Fail(GuestForbidden)
      else Done(CutOff(RevokeGrants(db, user, Some(d)), now, user, Some(d), false))
  }

  datatype AccountAction = Enable | Disable | Delete | LogoutAll | RevokeOne(device: nat)

  function SetStanding(db: Db, user: nat, standing: Standing): Db
    requires user in db.users
  {
    db.(users := db.users[user := db.users[user].(standing := standing)])
  }

  /** userAction. */
  function UserAction(db: Db, now: int, user: nat, action: AccountAction): Outcome {
    if user !in db.users then Fail(NotFound)
    else if db.users[user].standing.Deleted? then Fail(UserDeleted)
    else match action
    case Enable => Done(SetStanding(db, user, Active))
    case Disable => Done(SetStanding(db, user, Disabled))
    case Delete => Done(CutOff(SetStanding(db, user, Deleted), now, user, None, true))
    case LogoutAll => Done(CutOff(RevokeGrants(db, user, None), now, user, None, false))
    case RevokeOne(d) =>
      if d !in db.devices || db.devices[d].user != user then Fail(NotFound)
      else Done(CutOff(RevokeGrants(db, user, Some(d)), now, user, Some(d), false))
  }

  // ---------------------------------------------------------------- sweeping

  predicate Outdated(members: map<Key, Member>, required: set<nat>, k: Key) {
    k in members && members[k].active && k.device in required
  }

  function OutdatedTargets(members: map<Key, Member>, required: set<nat>): set<Target> {
    set k | k in members && Outdated(members, required, k) :: One(k.room, k.device)
  }

  /** enforceUpdates; required holds the devices for which updateRequired says yes. */
  function EnforceUpdates(db: Db, now: int, required: set<nat>): Db {
    BumpEach(Revoke(db, now, OutdatedTargets(db.members, required)), OutdatedTargets(db.members, required))
  }

  function ExpiredRooms(db: Db, now: int): set<nat> {
    set r | r in db.rooms && !db.rooms[r].closed && db.rooms[r].expires <= now
  }

  /** The rooms rs run out. */
  function RunOut(db: Db, now: int, rs: set<nat>): Db {
    BumpEach(Close(Revoke(db, now, Marks(rs)), rs), Marks(rs))
  }

  function Forget(db: Db, now: int): Db {
    db.(invites := map c | c in db.invites && !(db.invites[c].expires < now) :: db.invites[c],
        addresses := Purge(db.addresses, now),
        certs := map c | c in db.certs && !(c.expires < now - CERT_KEPT) :: db.certs[c])
  }

  /** Sweep. */
  function Sweep(db: Db, now: int, required: set<nat>): Db {
    var enforced := EnforceUpdates(db, now, required);
    Forget(RunOut(enforced, now, ExpiredRooms(enforced, now)), now)
  }

  // ---------------------------------------------------------------- leases

  /** What signing needs: the signing clock, read twice, the key, and the end of the CA certificate. */
  datatype Signing = Signing(clock: int, later: int, key: nat, ca: int)

  function Clamp(until: int, grant: Option<int>): int {
    if grant.Some? && grant.value < until then grant.value else until
  }

  function Truncated(t: int): int {
    t - t % 1_000_000_000
  }

  /** Sign; None when less than a minute would be left. */
  function Sign(device: nat, room: Option<nat>, ip: int, s: Signing, until: int): Option<Cert> {
    var until := Earlier(until, s.ca);
    if until - s.later < 60_000_000_000 then None
    else Some(Cert(device, room, ip, s.key, s.later - 30_000_000_000, Truncated(until)))
  }

  /** The certificate row is inserted unless its fingerprint is known; then the old row, revoked or not, stays. */
  function Record(db: Db, c: Cert): Db {
    if c in db.certs then db else db.(certs := db.certs[c := false])
  }

  /** The certificate a member's lease is signed into: clamped to its room and its device's grant. */
  function LeaseCert(db: Db, k: Key, s: Signing): Option<Cert>
    requires k in db.members && k.room in db.rooms && k.device in db.devices
  {
    Sign(k.device, Some(k.room), db.members[k].ip, s,
         Clamp(Earlier(s.clock + LEASE, db.rooms[k.room].expires), db.devices[k.device].expires))
  }

  /** issueLease for a member. */
  function LeaseRoom(db: Db, now: int, k: Key, s: Signing): Outcome {
    if ActiveFault(db, now, k).Some? then Fail(ActiveFault(db, now, k).value)
    else match LeaseCert(db, k, s)
    case None => Fail(CaUnavailable)
    case Some(c) => Done(Record(Seen(db, now, k), c))
  }

  /** issueLease for a node; `serving` says that its node exists in this generation and is active or draining. */
  function LeaseNode(db: Db, d: nat, serving: bool, s: Signing): Outcome {
    if d !in db.nodes || !db.nodes[d].current || !serving then Fail(NodeDisabled)
    else match Sign(d, None, db.nodes[d].ip, s, s.clock + LEASE)
    case None => Fail(CaUnavailable)
    case Some(c) => Done(Record(db, c))
  }

  // ---------------------------------------------------------------- node devices

  /** completeEnrollment, past its key checks, for a device that no table knows. */
  ghost function Enroll(db: Db, now: int, pool: Pool, d: nat): Outcome {
    if d in db.devices || d in db.nodes then Fail(NodeConflict)
    else match Allocate(db.addresses, now, pool, OfNode(d))
    case None => Fail(AddressesExhausted)
    case Some(seat) => Done(db.(addresses := seat.addresses, nodes := db.nodes[d := Binding(seat.ip, true)]))
  }

  function RevokeDeviceCerts(certs: map<Cert, bool>, d: nat): map<Cert, bool> {
    map c | c in certs :: certs[c] || c.device == d
  }

  /** The latest expiry of a device's certificates, and at least floor. */
  ghost function Latest(cs: set<Cert>, d: nat, floor: int): (r: int)
    ensures r >= floor && forall c <- cs :: c.device == d ==> c.expires <= r
    ensures r == floor || exists c <- cs :: c.device == d && c.expires == r
  {
    if cs == {} then floor
    else
      var c :| c in cs;
      var r := Latest(cs - {c}, d, floor);
      if c.device == d && c.expires > r then c.expires else r
  }

  function Quarantined(addresses: map<int, Address>, h: Holder, release: int): map<int, Address> {
    map ip | ip in addresses :: if addresses[ip] == Address(h, None) then Address(h, Some(release)) else addresses[ip]
  }

  /** revokeNode: for a while, or for good with its address released after every certificate. */
  ghost function RevokeNode(db: Db, now: int, d: nat, permanent: bool): Db {
    var certs := RevokeDeviceCerts(db.certs, d);
    if !permanent || d !in db.nodes then db.(certs := certs)
    else db.(certs := certs,
             nodes := db.nodes[d := db.nodes[d].(current := false)],
             addresses := Quarantined(db.addresses, OfNode(d), Latest(db.certs.Keys, d, now + QUARANTINE)))
  }

  // ---------------------------------------------------------------- one transaction

  datatype Op =
    | OpCreate(k: Key, game: nat, expected: nat, code: nat)
    | OpJoin(device: nat, code: nat)
    | OpOwnerJoin(k: Key, expected: nat)
    | OpHeartbeat(k: Key, version: bool, mac: MacText)
    | OpLeave(k: Key)
    | OpRoom(k: Key, action: Action, expected: nat)
    | OpAdminRoom(room: nat, kicked: Option<nat>)
    | OpTakeover(device: nat, seen: Key, expected: nat)
    | OpRevokeDevice(device: nat, target: nat)
    | OpLogout(device: nat)
    | OpUser(user: nat, account: AccountAction)
    | OpSweep(required: set<nat>)
    | OpLease(k: Key, signing: Signing)
    | OpNodeLease(device: nat, serving: bool, signing: Signing)
    | OpEnroll(device: nat)
    | OpRevokeNode(device: nat, permanent: bool)
    | OpRegister(device: nat, user: nat, registered: bool, expires: Option<int>)
    | OpExtend(device: nat, until: int)
    | OpGame(game: nat, row: Game)

  /** What players and administrators do to rooms. */
  predicate Playing(op: Op) {
    op.OpCreate? || op.OpJoin? || op.OpOwnerJoin? || op.OpHeartbeat? || op.OpLeave? || op.OpRoom? || op.OpAdminRoom?
  }

  /** What accounts, and the sweep, do to memberships. */
  predicate Expelling(op: Op) {
    op.OpTakeover? || op.OpRevokeDevice? || op.OpLogout? || op.OpUser? || op.OpSweep?
  }

  /** A new device for a new or an existing account; the devices table refuses one it knows. */
  function Register(db: Db, d: nat, user: nat, registered: bool, expires: Option<int>): Outcome {
    if d in db.devices || d in db.nodes then Fail(Internal)
    else if user in db.users && db.users[user].standing.Deleted? then Fail(AccountDeleted)
    else Done(db.(devices := db.devices[d := Grant(user, false, expires)],
                  users := if user in db.users then db.users[user := db.users[user].(registered := true)]
                           else db.users[user := User(registered, Active)]))
  }

  function Extend(db: Db, d: nat, expires: int): Outcome {
    if d !in db.devices then Fail(NotFound)
    else Done(db.(devices := db.devices[d := db.devices[d].(expires := Some(expires))]))
  }

  ghost function Step(db: Db, now: int, pool: Pool, op: Op): Outcome {
    match op
    case OpCreate(k, game, expected, code) => CreateRoom(db, now, pool, k, game, expected, code)
    case OpJoin(device, code) => JoinRoom(db, now, pool, device, code)
    case OpOwnerJoin(k, expected) => OwnerJoin(db, now, pool, k, expected)
    case OpHeartbeat(k, version, mac) => Heartbeat(db, now, k, version, mac)
    case OpLeave(k) => Leave(db, now, k)
    case OpRoom(k, action, expected) => RoomAction(db, now, k, action, expected)
    case OpAdminRoom(room, kicked) => AdminRoomAction(db, now, room, kicked)
    case OpTakeover(device, seen, expected) => Takeover(db, now, device, seen, expected)
    case OpRevokeDevice(device, target) => RevokeDevice(db, now, device, target)
    case OpLogout(device) => Logout(db, now, device)
    case OpUser(user, account) => UserAction(db, now, user, account)
    case OpSweep(required) => Done(Sweep(db, now, required))
    case OpLease(k, signing) => LeaseRoom(db, now, k, signing)
    case OpNodeLease(device, serving, signing) => LeaseNode(db, device, serving, signing)
    case OpEnroll(device) => Enroll(db, now, pool, device)
    case OpRevokeNode(device, permanent) => Done(RevokeNode(db, now, device, permanent))
    case OpRegister(device, user, registered, expires) => Register(db, device, user, registered, expires)
    case OpExtend(device, until) => Extend(db, device, until)
    case OpGame(game, row) => Done(db.(games := db.games[game := row]))
  }

  /** Write commits what a transaction did, or rolls all of it back. */
  ghost function Write(db: Db, now: int, pool: Pool, op: Op): Db {
    match Step(db, now, pool, op)
    case Done(x) => x
    case Fail(_) => db
  }
}
