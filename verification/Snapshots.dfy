/** What the control plane hands out as a room's members always passes the checks of Device.Update. */
module Snapshots {
  import opened Bytes
  import opened Rooms
  import opened RoomSafety
  import opened RoomRuns
  import Quarantine
  import Packet
  import Device
  import DeviceExact

  /** The pool of a masked IPv4 prefix. */
  function PoolOf(net: Device.Prefix): Pool {
    var size := Device.Pow2(net.host);
    var base := Get(net.address) / size * size;
    Pool(base, base + size - 1)
  }

  /** Masked, and between /16 and /28, as the deployment's network must be. */
  predicate Deployable(net: Device.Prefix) {
    && |net.address| == 4 && 4 <= net.host <= 16
    && Get(net.address) % Device.Pow2(net.host) == 0
  }

  /** A member row as it is read into a snapshot. */
  function Shown(members: map<Key, Member>, k: Key): Device.SnapMember
    requires k in members && members[k].ip >= 0
  {
    var m := members[k];
    Device.SnapMember(Some(Packet.V4(Put(m.ip, 4))),
                      match m.mac case None => Device.NoMac case Some(octets) => Device.Mac(octets),
                      m.lastSeen)
  }

  /**
   * The rows readRoomMembers selects: active members of the room whose account and device are in
   * order, by device.
   */
  predicate Selected(db: Db, now: int, k: Key) {
    && k in db.members && db.members[k].active && k.device in db.devices && db.members[k].user in db.users
    && !db.users[db.members[k].user].standing.Deleted?
    && !db.devices[k.device].revoked && !Past(db.devices[k.device].expires, now)
  }

  predicate Lists(db: Db, now: int, r: nat, ks: seq<Key>) {
    && (forall i, j :: 0 <= i < j < |ks| ==> ks[i].device < ks[j].device)
    && (forall i :: 0 <= i < |ks| ==> ks[i].room == r && Selected(db, now, ks[i]))
  }

  predicate Reads(members: map<Key, Member>, k: Key, m: Device.SnapMember) {
    k in members && members[k].ip >= 0 && m == Shown(members, k)
  }

  lemma PutApart(a: nat, b: nat)
    requires a < 0x1_0000_0000 && b < 0x1_0000_0000 && Put(a, 4) == Put(b, 4)
    ensures a == b
  {
    PowValues();
    GetPut(a, 4);
    GetPut(b, 4);
  }

  lemma SizeBounds(net: Device.Prefix)
    requires Deployable(net)
    ensures Device.Pow2(net.host) <= 65536
    ensures 0 <= PoolOf(net).base && PoolOf(net).last < 0x1_0000_0000
  {
    PowLe(net.host, 16);
    assert Device.Pow2(16) == 65536 by { Pow16(); }
    GetBound(net.address);
    PowValues();
    DeviceExact.PowDivides(net.host);
    var size := Device.Pow2(net.host);
    DeviceExact.BelowMultiple(Get(net.address), size, 0x1_0000_0000);
  }

  lemma Pow16()
    ensures Device.Pow2(16) == 65536
  {
    assert Device.Pow2(4) == 16;
    assert Device.Pow2(8) == 256;
    assert Device.Pow2(12) == 4096;
  }

  lemma {:induction false} PowLe(a: nat, b: nat)
    requires a <= b
    ensures Device.Pow2(a) <= Device.Pow2(b)
    decreases b
  {
    if a < b {
      PowLe(a, b - 1);
    }
  }

  lemma InsideBlock(net: Device.Prefix, ip: nat)
    requires PoolOf(net).base < ip < PoolOf(net).last
    ensures ip / Device.Pow2(net.host) == Get(net.address) / Device.Pow2(net.host)
  {
    var size := Device.Pow2(net.host);
    var q := Get(net.address) / size;
    ModUnique(ip, size, q, ip - q * size);
  }

  lemma InsideContains(net: Device.Prefix, ip: int)
    requires Deployable(net) && PoolOf(net).base < ip < PoolOf(net).last
    ensures 0 <= ip < 0x1_0000_0000 && Device.Contains(net, Packet.V4(Put(ip, 4)))
    ensures Packet.V4(Put(ip, 4)) != Device.BroadcastOf(net)
  {
    SizeBounds(net);
    DeviceExact.WordBack(ip);
    DeviceExact.WordBack(PoolOf(net).last);
    InsideBlock(net, ip);
  }

  lemma ShownApart(db: Db, net: Device.Prefix, a: Key, b: Key)
    requires Deployable(net) && Sound(db, PoolOf(net))
    requires a in db.members && b in db.members && db.members[a].active && db.members[b].active
    requires a.room == b.room && a.device != b.device
    ensures db.members[a].ip >= 0 && db.members[b].ip >= 0
    ensures Shown(db.members, a).ip != Shown(db.members, b).ip
    ensures Shown(db.members, a).mac.Mac? ==> Shown(db.members, a).mac != Shown(db.members, b).mac
  {
    assert Live(db.addresses, db.members[a].ip, OfMember(a.device));
    assert Live(db.addresses, db.members[b].ip, OfMember(b.device));
    InsideContains(net, db.members[a].ip);
    InsideContains(net, db.members[b].ip);
    if Put(db.members[a].ip, 4) == Put(db.members[b].ip, 4) {
      PutApart(db.members[a].ip, db.members[b].ip);
      SeatIsPlace(db, PoolOf(net), a, b);
    }
  }

  lemma ShownGood(db: Db, net: Device.Prefix, k: Key)
    requires Deployable(net) && Sound(db, PoolOf(net)) && k in db.members && db.members[k].active
    ensures db.members[k].ip >= 0 && Device.GoodIp(net, Shown(db.members, k)) && !Shown(db.members, k).mac.BadMac?
  {
    assert Live(db.addresses, db.members[k].ip, OfMember(k.device));
    InsideContains(net, db.members[k].ip);
  }

  /**
   * In every run, the member list of any room, read at any time, has distinct addresses inside the
   * pool and distinct MACs: Device.Update never rejects it on those grounds.
   */
  lemma SnapshotsAccepted(run: seq<Tx>, net: Device.Prefix, now: int, r: nat, ks: seq<Key>,
      list: seq<Device.SnapMember>)
    requires Deployable(net)
    requires Lists(After(run, PoolOf(net)), now, r, ks) && |list| == |ks|
    requires forall i :: 0 <= i < |ks| ==> Reads(After(run, PoolOf(net)).members, ks[i], list[i])
    ensures Device.GoodMembers(net, list)
  {
    var db := After(run, PoolOf(net));
    AlwaysSound(run, PoolOf(net));
    forall i | 0 <= i < |list|
      ensures Device.GoodIp(net, list[i]) && !list[i].mac.BadMac?
    {
      ShownGood(db, net, ks[i]);
    }
    forall i, j | 0 <= i < j < |list|
      ensures list[i].ip != list[j].ip && (list[i].mac.Mac? ==> list[i].mac != list[j].mac)
    {
      ShownApart(db, net, ks[i], ks[j]);
    }
  }

  /** The certificates whose fingerprints a room's snapshot blocks. */
  function Blocklist(db: Db, now: int, r: nat): set<Cert> {
    set c | c in db.certs && db.certs[c] && c.expires > now && (c.room == Some(r) || c.room == None)
  }

  /**
   * Every certificate ever issued for a room that is still valid either names a member who is active
   * at that very address, or is on the blocklist that members get.
   */
  lemma StaleCertsAreBlocked(run: seq<Tx>, pool: Pool, now: int, r: nat, c: Cert)
    requires Quarantine.Before(run, now)
    requires c in Quarantine.Issued(run, pool) && c.room == Some(r) && c.expires > now
    ensures Names(After(run, pool).members, c) || c in Blocklist(After(run, pool), now, r)
  {
    AlwaysSound(run, pool);
    if c !in After(run, pool).certs {
      Quarantine.ForgottenExpired(run, pool, c, now);
    }
  }
}
