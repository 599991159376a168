/** What every transaction on the room tables keeps: memberships, bans, seats, MACs and certificates. */
module RoomSafety {
  import opened Bytes
  import opened Rooms
  import opened Sets

  // ---------------------------------------------------------------- the invariant, table by table

  predicate Linked(members: map<Key, Member>, rooms: map<nat, Room>, devices: map<nat, Grant>) {
    forall k <- members :: k.room in rooms && k.device in devices && members[k].user == devices[k.device].user
  }

  /** A user is active in at most one place. */
  predicate OnePlace(members: map<Key, Member>) {
    forall a, b :: (a in members && b in members && members[a].active && members[b].active
                    && members[a].user == members[b].user) ==> a == b
  }

  predicate Fits(members: map<Key, Member>, rooms: map<nat, Room>) {
    forall r <- rooms :: |ActiveIn(members, r)| <= rooms[r].capacity
  }

  predicate OpenOnly(members: map<Key, Member>, rooms: map<nat, Room>) {
    forall k <- members :: members[k].active && k.room in rooms ==> !rooms[k.room].closed
  }

  predicate BansHold(members: map<Key, Member>, bans: set<(nat, nat)>) {
    forall k <- members :: members[k].active ==> (k.room, members[k].user) !in bans
  }

  /** Every active member holds its address. */
  predicate AllSeated(members: map<Key, Member>, addresses: map<int, Address>) {
    forall k <- members :: members[k].active ==> Live(addresses, members[k].ip, OfMember(k.device))
  }

  /** No two active members of a room have the same MAC. */
  predicate MacsApart(members: map<Key, Member>) {
    forall a, b :: (a in members && b in members && members[a].active && members[b].active && a.room == b.room
                    && members[a].mac.Some? && members[a].mac == members[b].mac) ==> a == b
  }

  predicate Names(members: map<Key, Member>, c: Cert)
    requires c.room.Some?
  {
    var k := Key(c.room.value, c.device);
    k in members && members[k].active && members[k].ip == c.ip
  }

  /** An unrevoked room certificate names an active member at its current address. */
  predicate CertsHold(certs: map<Cert, bool>, members: map<Key, Member>) {
    forall c <- certs :: !certs[c] && c.room.Some? ==> Names(members, c)
  }

  /** A holder has at most one live address, and all addresses are usable ones of the pool. */
  predicate Ordered(addresses: map<int, Address>, pool: Pool) {
    && (forall i, j ::
          (i in addresses && j in addresses && addresses[i] == addresses[j] && addresses[i].release.None?) ==> i == j)
    && (forall ip <- addresses :: pool.base < ip < pool.last)
  }

  predicate NodesSeated(nodes: map<nat, Binding>, addresses: map<int, Address>) {
    forall d <- nodes :: nodes[d].current ==> Live(addresses, nodes[d].ip, OfNode(d))
  }

  predicate Sound(db: Db, pool: Pool) {
    && Linked(db.members, db.rooms, db.devices)
    && OnePlace(db.members)
    && Fits(db.members, db.rooms)
    && OpenOnly(db.members, db.rooms)
    && BansHold(db.members, db.bans)
    && AllSeated(db.members, db.addresses)
    && MacsApart(db.members)
    && CertsHold(db.certs, db.members)
    && Ordered(db.addresses, pool)
    && NodesSeated(db.nodes, db.addresses)
  }

  // ---------------------------------------------------------------- two active members

  /** What the four unique indexes over active members compare: user, device, address, and MAC within a room. */
  predicate SameIndex(members: map<Key, Member>, a: Key, b: Key)
    requires a in members && b in members
  {
    || members[a].user == members[b].user
    || a.device == b.device
    || members[a].ip == members[b].ip
    || (a.room == b.room && members[a].mac.Some? && members[a].mac == members[b].mac)
  }

  /** Active members that agree in any index are the same member, so no index is ever violated. */
  lemma SeatIsPlace(db: Db, pool: Pool, a: Key, b: Key)
    requires Sound(db, pool) && a in db.members && b in db.members
    requires db.members[a].active && db.members[b].active && SameIndex(db.members, a, b)
    ensures a == b
  {
    assert Live(db.addresses, db.members[a].ip, OfMember(a.device));
    assert Live(db.addresses, db.members[b].ip, OfMember(b.device));
  }

  // ---------------------------------------------------------------- revoke

  /** Every row survives, possibly switched off. */
  predicate Fewer(after: map<Key, Member>, before: map<Key, Member>) {
    && after.Keys == before.Keys
    && forall k <- after :: after[k] == before[k] || after[k] == before[k].(active := false)
  }

  lemma FewerKeeps(after: map<Key, Member>, before: map<Key, Member>, rooms: map<nat, Room>, devices: map<nat, Grant>,
      bans: set<(nat, nat)>)
    requires Fewer(after, before)
    requires Linked(before, rooms, devices) && OnePlace(before) && OpenOnly(before, rooms) && BansHold(before, bans)
             && MacsApart(before)
    ensures Linked(after, rooms, devices) && OnePlace(after) && OpenOnly(after, rooms) && BansHold(after, bans)
            && MacsApart(after)
  {
  }

  lemma FewerFits(after: map<Key, Member>, before: map<Key, Member>, rooms: map<nat, Room>)
    requires Fewer(after, before) && Fits(before, rooms)
    ensures Fits(after, rooms)
  {
    forall r | r in rooms
      ensures |ActiveIn(after, r)| <= rooms[r].capacity
    {
      CardLe(ActiveIn(after, r), ActiveIn(before, r));
    }
  }

  lemma RevokeSeats(db: Db, pool: Pool, now: int, ts: set<Target>)
    requires Sound(db, pool)
    ensures AllSeated(Revoke(db, now, ts).members, Revoke(db, now, ts).addresses)
    ensures NodesSeated(db.nodes, Revoke(db, now, ts).addresses)
    ensures Ordered(Revoke(db, now, ts).addresses, pool)
  {
    var x := Revoke(db, now, ts);
    forall k | k in x.members && x.members[k].active
      ensures Live(x.addresses, x.members[k].ip, OfMember(k.device))
    {
      assert Live(db.addresses, db.members[k].ip, OfMember(k.device));
      forall o | o in db.members && db.members[o].active && db.members[o].ip == db.members[k].ip
        ensures o == k
      {
        SeatIsPlace(db, pool, o, k);
      }
      assert !Freed(db.members, ts, db.members[k].ip);
    }
    forall d | d in db.nodes && db.nodes[d].current
      ensures Live(x.addresses, db.nodes[d].ip, OfNode(d))
    {
      assert Live(db.addresses, db.nodes[d].ip, OfNode(d));
      assert !Freed(db.members, ts, db.nodes[d].ip);
    }
  }

  lemma RevokeCertsHold(certs: map<Cert, bool>, members: map<Key, Member>, ts: set<Target>)
    requires CertsHold(certs, members)
    ensures CertsHold(RevokeCerts(certs, ts), Deactivate(members, ts))
  {
  }

  lemma RevokeSound(db: Db, pool: Pool, now: int, ts: set<Target>)
    requires Sound(db, pool)
    ensures Sound(Revoke(db, now, ts), pool)
  {
    var x := Revoke(db, now, ts);
    assert Fewer(x.members, db.members);
    FewerKeeps(x.members, db.members, db.rooms, db.devices, db.bans);
    FewerFits(x.members, db.members, db.rooms);
    RevokeSeats(db, pool, now, ts);
    RevokeCertsHold(db.certs, db.members, ts);
  }

  // ---------------------------------------------------------------- rooms, invitations, bans

  /** Rooms that differ in owner, revision and expiry only. */
  predicate Alike(after: map<nat, Room>, before: map<nat, Room>) {
    && before.Keys <= after.Keys
    && (forall r <- before :: after[r].capacity == before[r].capacity && after[r].closed == before[r].closed)
  }

  lemma AlikeSound(db: Db, pool: Pool, rooms: map<nat, Room>)
    requires Sound(db, pool) && Alike(rooms, db.rooms) && rooms.Keys == db.rooms.Keys
    ensures Sound(db.(rooms := rooms), pool)
  {
  }

  lemma BumpEachSound(db: Db, pool: Pool, ts: set<Target>)
    requires Sound(db, pool)
    ensures Sound(BumpEach(db, ts), pool)
  {
    AlikeSound(db, pool, BumpEach(db, ts).rooms);
  }

  lemma RaisedAlike(rooms: map<nat, Room>, r: nat)
    ensures Alike(Raised(rooms, r), rooms) && Raised(rooms, r).Keys == rooms.Keys
  {
  }

  lemma BumpSound(db: Db, pool: Pool, r: nat)
    requires Sound(db, pool)
    ensures Sound(Bump(db, r), pool)
  {
    RaisedAlike(db.rooms, r);
    AlikeSound(db, pool, Raised(db.rooms, r));
  }

  lemma OwnerSound(db: Db, pool: Pool, r: nat, user: nat)
    requires Sound(db, pool) && r in db.rooms
    ensures Sound(db.(rooms := db.rooms[r := db.rooms[r].(owner := user)]), pool)
  {
    AlikeSound(db, pool, db.rooms[r := db.rooms[r].(owner := user)]);
  }

  predicate NobodyIn(members: map<Key, Member>, rs: set<nat>) {
    forall k <- members :: k.room in rs ==> !members[k].active
  }

  lemma CloseSound(db: Db, pool: Pool, rs: set<nat>)
    requires Sound(db, pool) && NobodyIn(db.members, rs)
    ensures Sound(Close(db, rs), pool)
  {
  }

  lemma DropInvitesSound(db: Db, pool: Pool, rs: set<nat>)
    requires Sound(db, pool)
    ensures Sound(DropInvites(db, rs), pool)
  {
  }

  lemma ShutSound(db: Db, pool: Pool, now: int, r: nat)
    requires Sound(db, pool)
    ensures Sound(Shut(db, now, r), pool)
  {
    var x := Revoke(db, now, {All(r)});
    RevokeSound(db, pool, now, {All(r)});
    CloseSound(x, pool, {r});
    DropInvitesSound(Close(x, {r}), pool, {r});
    BumpSound(DropInvites(Close(x, {r}), {r}), pool, r);
  }

  lemma BanSound(db: Db, pool: Pool, k: Key)
    requires Sound(db, pool) && k in db.members
    requires forall o <- db.members :: db.members[o].active ==> db.members[o].user != db.members[k].user
    ensures Sound(Ban(db, k), pool)
  {
  }

  /** Kicking: the target's one active membership ends before its user is banned. */
  lemma KickSound(db: Db, pool: Pool, now: int, target: Key)
    requires Sound(db, pool) && target in db.members && db.members[target].active
    ensures Sound(Bump(Ban(Revoke(db, now, {One(target.room, target.device)}), target), target.room), pool)
  {
    var x := Revoke(db, now, {One(target.room, target.device)});
    RevokeSound(db, pool, now, {One(target.room, target.device)});
    forall o | o in x.members && x.members[o].active
      ensures x.members[o].user != x.members[target].user
    {
      assert o in db.members && db.members[o].active;
      assert Hits({One(target.room, target.device)}, target);
    }
    BanSound(x, pool, target);
    BumpSound(Ban(x, target), pool, target.room);
  }

  // ---------------------------------------------------------------- seats

  /** allocate gives its holder a live address of the pool and takes nobody's. */
  lemma AllocateKeeps(addresses: map<int, Address>, now: int, pool: Pool, h: Holder)
    requires Ordered(addresses, pool) && Allocate(addresses, now, pool, h).Some?
    ensures var seat := Allocate(addresses, now, pool, h).value;
            && Live(seat.addresses, seat.ip, h) && Ordered(seat.addresses, pool)
            && (forall ip <- addresses :: addresses[ip].release.None? ==>
               ip in seat.addresses && seat.addresses[ip] == addresses[ip])
  {
    if !exists ip :: Live(addresses, ip, h) {
      var seat := Allocate(addresses, now, pool, h).value;
      forall i | i in seat.addresses && i != seat.ip
        ensures i in addresses && seat.addresses[i] == addresses[i] != Address(h, None)
      {
        assert !Live(addresses, i, h);
      }
    }
  }

  lemma SeatMembers(db: Db, now: int, k: Key, seat: Seat)
    requires Linked(db.members, db.rooms, db.devices) && OnePlace(db.members) && OpenOnly(db.members, db.rooms)
    requires BansHold(db.members, db.bans) && MacsApart(db.members)
    requires k.device in db.devices && k.room in db.rooms && !db.rooms[k.room].closed
    requires (k.room, db.devices[k.device].user) !in db.bans
    requires forall o :: !Occupies(db, k.device, o)
    ensures var x := Seated(db, now, k, seat);
            && Linked(x.members, db.rooms, db.devices) && OnePlace(x.members) && OpenOnly(x.members, db.rooms)
            && BansHold(x.members, db.bans) && MacsApart(x.members)
  {
    var x := Seated(db, now, k, seat);
    assert x.members[k].user == db.devices[k.device].user;
    forall o | o in db.members && db.members[o].active
      ensures db.members[o].user != db.devices[k.device].user
    {
      assert !Occupies(db, k.device, o);
    }
  }

  lemma SeatFits(db: Db, now: int, k: Key, seat: Seat)
    requires Fits(db.members, db.rooms) && k.device in db.devices && k.room in db.rooms
    requires |ActiveIn(db.members, k.room)| < db.rooms[k.room].capacity
    ensures Fits(Seated(db, now, k, seat).members, db.rooms)
  {
    var x := Seated(db, now, k, seat);
    forall r | r in db.rooms
      ensures |ActiveIn(x.members, r)| <= db.rooms[r].capacity
    {
      if r == k.room {
        CardLe(ActiveIn(x.members, r), ActiveIn(db.members, r) + {k});
      } else {
        assert ActiveIn(x.members, r) == ActiveIn(db.members, r);
      }
    }
  }

  lemma SeatSound(db: Db, pool: Pool, now: int, k: Key, seat: Seat)
    requires Sound(db, pool)
    requires k.device in db.devices && k.room in db.rooms && !db.rooms[k.room].closed
    requires (k.room, db.devices[k.device].user) !in db.bans
    requires forall o :: !Occupies(db, k.device, o)
    requires |ActiveIn(db.members, k.room)| < db.rooms[k.room].capacity
    requires Allocate(db.addresses, now, pool, OfMember(k.device)) == Some(seat)
    ensures Sound(Seated(db, now, k, seat), pool)
  {
    SeatMembers(db, now, k, seat);
    SeatFits(db, now, k, seat);
    SeatSeats(db, pool, now, k, seat);
    SeatCerts(db, now, k, seat);
    AllocateKeeps(db.addresses, now, pool, OfMember(k.device));
  }

  lemma SeatSeats(db: Db, pool: Pool, now: int, k: Key, seat: Seat)
    requires AllSeated(db.members, db.addresses) && NodesSeated(db.nodes, db.addresses) && Ordered(db.addresses, pool)
    requires k.device in db.devices && Allocate(db.addresses, now, pool, OfMember(k.device)) == Some(seat)
    ensures AllSeated(Seated(db, now, k, seat).members, seat.addresses) && NodesSeated(db.nodes, seat.addresses)
  {
    var members := Seated(db, now, k, seat).members;
    AllocateKeeps(db.addresses, now, pool, OfMember(k.device));
    forall o | o in members && members[o].active
      ensures Live(seat.addresses, members[o].ip, OfMember(o.device))
    {
      if o != k {
        assert Live(db.addresses, db.members[o].ip, OfMember(o.device));
      }
    }
    forall d | d in db.nodes && db.nodes[d].current
      ensures Live(seat.addresses, db.nodes[d].ip, OfNode(d))
    {
      assert Live(db.addresses, db.nodes[d].ip, OfNode(d));
    }
  }

  lemma SeatCerts(db: Db, now: int, k: Key, seat: Seat)
    requires CertsHold(db.certs, db.members) && Linked(db.members, db.rooms, db.devices)
    requires k.device in db.devices && forall o :: !Occupies(db, k.device, o)
    ensures CertsHold(db.certs, Seated(db, now, k, seat).members)
  {
    forall c | c in db.certs && !db.certs[c] && c.room.Some?
      ensures Names(Seated(db, now, k, seat).members, c)
    {
      assert Names(db.members, c);
      assert !Occupies(db, k.device, k);
    }
  }

  lemma EndStaleSound(db: Db, pool: Pool, now: int, d: nat)
    requires Sound(db, pool)
    ensures Sound(EndStale(db, now, d), pool)
  {
    RevokeSound(db, pool, now, StaleTargets(db, now, d));
    BumpEachSound(Revoke(db, now, StaleTargets(db, now, d)), pool, StaleTargets(db, now, d));
  }

  lemma AddMemberSound(db: Db, pool: Pool, now: int, k: Key)
    requires Sound(db, pool) && AddMember(db, now, pool, k).Done?
    ensures Sound(AddMember(db, now, pool, k).db, pool)
  {
    var x := EndStale(db, now, k.device);
    EndStaleSound(db, pool, now, k.device);
    var seat := Allocate(x.addresses, now, pool, OfMember(k.device)).value;
    SeatSound(x, pool, now, k, seat);
  }
}
