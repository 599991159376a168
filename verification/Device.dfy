/** Policy publication and the locked parts of Write, Read and deliver. */
module Device {
  import opened Bytes
  import opened Packet
  import opened Ports
  import opened Times
  import opened Policy
  import Carrier
  import CarrierRuns
  import PolicyRuns

  const PROBE_PORT := 4243

  // ---------------------------------------------------------------- snapshots

  /** A MAC string: empty, rejected by ParseLANMAC, or parsed. */
  datatype MacField = NoMac | BadMac | Mac(octets: seq<byte>)

  /** ip is None when the string does not parse. */
  datatype SnapMember = SnapMember(ip: Option<Addr>, mac: MacField, lastSeen: int)

  datatype Room = Room(id: string, closed: bool, expires: int)

  /** The first sixteen octets of the SHA-256 of a room ID. */
  type Tag = t: seq<byte> | |t| == 16 witness [0, 0, 0, 0, 0, 0, 0, 0, 0, 0, 0, 0, 0, 0, 0, 0]

  datatype Lease = Lease(room: string, tag: Tag, expires: int)

  datatype Snapshot = Snapshot(room: Option<Room>, game: Option<Game>, members: seq<SnapMember>,
      nodes: seq<Option<Addr>>)

  /** A prefix of 2^host addresses that contains `address`. */
  datatype Prefix = Prefix(address: seq<byte>, host: nat)

  function Pow2(n: nat): (p: nat)
    ensures p > 0
  {
    if n == 0 then 1 else 2 * Pow2(n - 1)
  }

  predicate Contains(n: Prefix, ip: Addr) {
    IsV4(ip) && Get(ip.octets) / Pow2(n.host) == Get(n.address) / Pow2(n.host)
  }

  function BroadcastOf(n: Prefix): Addr {
    V4(Put(Get(n.address) / Pow2(n.host) * Pow2(n.host) + Pow2(n.host) - 1, 4))
  }

  /** The checks in front of the lock. */
  predicate Plausible(lease: Lease, s: Snapshot) {
    s.game.Some? && s.room.Some? && s.room.value.id == lease.room && !s.room.value.closed && ValidGame(s.game.value)
  }

  predicate GoodIp(n: Prefix, m: SnapMember) {
    m.ip.Some? && Contains(n, m.ip.value)
  }

  /** The first n members pass every check inside Update. */
  predicate GoodUpTo(net: Prefix, ms: seq<SnapMember>, n: nat)
    requires n <= |ms|
  {
    && (forall i :: 0 <= i < n ==> GoodIp(net, ms[i]) && !ms[i].mac.BadMac?)
    && (forall i, j :: 0 <= i < j < n ==> ms[i].ip != ms[j].ip)
    && (forall i, j :: 0 <= i < j < n && ms[i].mac.Mac? ==> ms[i].mac != ms[j].mac)
  }

  predicate GoodMembers(net: Prefix, ms: seq<SnapMember>) {
    GoodUpTo(net, ms, |ms|)
  }

  function IpsUpTo(ms: seq<SnapMember>, n: nat): set<Addr>
    requires n <= |ms|
  {
    set i | 0 <= i < n && ms[i].ip.Some? :: ms[i].ip.value
  }

  function MacsUpTo(ms: seq<SnapMember>, n: nat): set<seq<byte>>
    requires n <= |ms|
  {
    set i | 0 <= i < n && ms[i].mac.Mac? :: ms[i].mac.octets
  }

  lemma UpToSnoc(ms: seq<SnapMember>, n: nat)
    requires n < |ms|
    ensures ms[n].ip.Some? ==> IpsUpTo(ms, n + 1) == IpsUpTo(ms, n) + {ms[n].ip.value}
    ensures MacsUpTo(ms, n + 1) == MacsUpTo(ms, n) + if ms[n].mac.Mac? then {ms[n].mac.octets} else {}
  {
  }

  /** One more member is good exactly when it is in the network and repeats no address and no MAC. */
  lemma GoodSnoc(net: Prefix, ms: seq<SnapMember>, n: nat)
    requires n < |ms| && GoodUpTo(net, ms, n)
    ensures GoodUpTo(net, ms, n + 1)
            <==> && GoodIp(net, ms[n]) && ms[n].ip.value !in IpsUpTo(ms, n) && !ms[n].mac.BadMac?
                 && (ms[n].mac.Mac? ==> ms[n].mac.octets !in MacsUpTo(ms, n))
  {
    assert ms[n].ip.Some? ==> (ms[n].ip.value in IpsUpTo(ms, n) <==> exists i :: 0 <= i < n && ms[i].ip == ms[n].ip);
    assert ms[n].mac.Mac? ==>
        (ms[n].mac.octets in MacsUpTo(ms, n) <==> exists i :: 0 <= i < n && ms[i].mac.Mac? && ms[i].mac == ms[n].mac);
  }

  lemma BadEntry(net: Prefix, ms: seq<SnapMember>, n: nat)
    requires n < |ms| && !GoodUpTo(net, ms, n + 1)
    ensures !GoodMembers(net, ms)
  {
  }

  const GRACE := 45 * SECOND

  /** The members with a MAC among the first n, by address. */
  function MembersUpTo(ms: seq<SnapMember>, n: nat): map<Addr, Member>
    requires n <= |ms|
  {
    if n == 0 then map[]
    else
      var m, before := ms[n - 1], MembersUpTo(ms, n - 1);
      if m.ip.Some? && m.mac.Mac? then before[m.ip.value := Member(m.ip.value, m.mac.octets, m.lastSeen + GRACE)]
        else before
  }

  function MemberMap(ms: seq<SnapMember>): map<Addr, Member> {
    MembersUpTo(ms, |ms|)
  }

  function NodeSet(ns: seq<Option<Addr>>): set<Addr> {
    set i | 0 <= i < |ns| && ns[i].Some? && IsV4(ns[i].value) :: ns[i].value
  }

  function TypeSet(types: seq<u16>): set<int> {
    set i | 0 <= i < |types| :: types[i] as int
  }

  /** Some address came, went or changed its MAC. */
  predicate Changed(before: map<Addr, Member>, after: map<Addr, Member>) {
    |before| != |after| || exists ip <- after :: ip !in before || before[ip].mac != after[ip].mac
  }

  function RulesFor(g: Game, expires: Option<int>, broadcastIP: Addr): Rules {
    Rules(expires, g.enabled, g.broadcast, g.multicast, Open(g.ports, 0), Open(g.ports, 1), TypeSet(g.etherTypes),
      broadcastIP)
  }

  /** The policy tables without flows and fragments. */
  function Emptied(s: State): State {
    s.(frags := map[], flows := map[])
  }

  /** Members are kept by their own address. */
  predicate Keyed(members: map<Addr, Member>) {
    forall a <- members :: members[a].ip == a
  }

  // ---------------------------------------------------------------- the device

  class Device {
    const ip: Addr
    const mac: seq<byte>
    const network: Prefix
    const gate: Gate
    const receiver: Carrier.Receiver
    const sender: Carrier.Sender
    /** A random number that tells this device's sessions from earlier ones. */
    const epoch: nat
    const ports: array2<bool>
    var room: Tag
    var revision: nat
    var generation: nat
    var rules: Rules
    var members: map<Addr, Member>
    var nodes: set<Addr>

    constructor (ip: Addr, mac: seq<byte>, network: Prefix, epoch: nat)
      requires IsV4(ip) && |mac| == 6 && epoch < Carrier.WORD
      ensures Valid() && fresh(gate) && fresh(gate.table) && fresh(receiver) && fresh(sender) && fresh(ports)
      ensures generation == revision == 0 && members == map[] && nodes == {} && rules == PolicyRuns.CLOSED
      ensures gate.Contents() == State(map[], map[], 0) && sender.pending == [] && sender.seqno == 0
      ensures this.ip == ip && this.mac == mac && this.epoch == epoch
    {
      var none: Tag := [0, 0, 0, 0, 0, 0, 0, 0, 0, 0, 0, 0, 0, 0, 0, 0];
      this.ip, this.mac, this.network, this.epoch := ip, mac, network, epoch;
      gate := new Gate(0);
      receiver := new Carrier.Receiver();
      sender := new Carrier.Sender(Carrier.Origin(ip, epoch, 0, none, 0));
      ports := new bool[2, 65536]((_, _) => false);
      room, revision, generation := none, 0, 0;
      rules := PolicyRuns.CLOSED;
      members, nodes := map[], {};
    }

    /**
     * The boolean port table is the one the rules describe, packets are cut under the policy in force,
     * and every table is sound and bounded: 8192 flows, 64 fragment sets, 128 frames, 255 replay
     * windows and 4096 packets.
     */
    ghost predicate Valid()
      reads this, gate, gate.table, receiver, sender, ports
    {
      PortsMatch() && TablesOk() && SenderOk() && |mac| == 6 && Keyed(members)
    }

    ghost predicate PortsMatch()
      reads this, ports
    {
      && ports.Length0 == 2 && ports.Length1 == 65536
      && (forall x :: 0 <= x < 65536 ==> (ports[0, x] <==> x in rules.tcp) && (ports[1, x] <==> x in rules.udp))
    }

    ghost predicate TablesOk()
      reads gate, gate.table, receiver
    {
      gate.Valid() && Carrier.Valid(receiver.Contents()) && CarrierRuns.Bounded(receiver.Contents())
    }

    ghost predicate SenderOk()
      reads this, sender
    {
      IsV4(ip) && sender.Valid() && sender.origin == Origin() && epoch < Carrier.WORD
    }

    function Origin(): Carrier.Origin
      reads this
    {
      Carrier.Origin(ip, epoch, revision, room, generation)
    }

    predicate ActiveAt(a: Addr, now: int)
      reads this
    {
      a in members && Active(rules, members[a], now)
    }

    method ClearReassembly()
      requires TablesOk()
      modifies gate`flows, gate.table, receiver`frames
      ensures TablesOk()
      ensures gate.Contents() == Emptied(old(gate.Contents()))
              && receiver.Contents() == old(receiver.Contents()).(frames := map[])
    {
      FewerWait(receiver.Contents());
      gate.flows := map[];
      gate.table.sets := map[];
      receiver.frames := map[];
    }

    method ClearAll()
      requires TablesOk()
      modifies gate`flows, gate.table, receiver
      ensures TablesOk()
      ensures gate.Contents() == Emptied(old(gate.Contents())) && receiver.Contents() == Carrier.State(map[], map[])
    {
      ClearReassembly();
      receiver.seen := map[];
      NothingWaits();
    }

    /** The member loop of Update: addresses, then MACs; it stops at the first bad entry. */
    method ReadMembers(ms: seq<SnapMember>) returns (ok: bool)
      modifies `members
      ensures ok <==> GoodMembers(network, ms)
      ensures ok ==> members == MemberMap(ms)
      ensures Keyed(members)
    {
      members := map[];
      var macs: set<seq<byte>>, ips: set<Addr> := {}, {};
      for n := 0 to |ms|
        invariant ips == IpsUpTo(ms, n) && macs == MacsUpTo(ms, n)
        invariant GoodUpTo(network, ms, n)
        invariant members == MembersUpTo(ms, n) && Keyed(members)
      {
        var m := ms[n];
        GoodSnoc(network, ms, n);
        UpToSnoc(ms, n);
        if m.ip.None? || !Contains(network, m.ip.value) || m.ip.value in ips {
          BadEntry(network, ms, n);
          return false;
        }
        ips := ips + {m.ip.value};
        if m.mac.NoMac? {
          continue;
        }
        if m.mac.BadMac? || m.mac.octets in macs {
          BadEntry(network, ms, n);
          return false;
        }
        macs := macs + {m.mac.octets};
        members := members[m.ip.value := Member(m.ip.value, m.mac.octets, m.lastSeen + GRACE)];
      }
      ok := true;
    }

    /** The part of Update that cannot fail: the generation, the room, the game and its ports. */
    method PublishGame(id: Tag, g: Game)
      requires PortsMatch() && TablesOk() && SenderOk()
      modifies `generation, `rules, `room, `revision, gate`flows, gate.table, receiver, sender`origin, ports
      ensures PortsMatch() && TablesOk() && SenderOk()
      ensures generation == old(generation) + 1 && revision == g.revision && room == id
      ensures rules == RulesFor(g, None, old(rules.broadcastIP))
      ensures gate.Contents() == if old(revision) != g.revision then Emptied(old(gate.Contents()))
              else old(gate.Contents())
      ensures receiver.Contents() == if old(revision) != g.revision then Carrier.State(map[], map[])
              else old(receiver.Contents())
    {
      NewRevision(g.revision);
      NewOrigin(id, g.revision);
      NewRules(g);
    }

    /** Another revision of the game forgets every table. */
    method NewRevision(next: nat)
      requires TablesOk()
      modifies gate`flows, gate.table, receiver
      ensures TablesOk()
      ensures gate.Contents() == if revision != next then Emptied(old(gate.Contents())) else old(gate.Contents())
      ensures receiver.Contents() == if revision != next then Carrier.State(map[], map[]) else old(receiver.Contents())
    {
      if revision != next {
        ClearAll();
      }
    }

    method NewOrigin(id: Tag, next: nat)
      requires SenderOk()
      modifies `generation, `room, `revision, sender`origin
      ensures SenderOk() && generation == old(generation) + 1 && room == id && revision == next
    {
      generation := generation + 1;
      room := id;
      revision := next;
      sender.origin := Origin();
    }

    method NewRules(g: Game)
      requires PortsMatch()
      modifies `rules, ports
      ensures PortsMatch() && rules == RulesFor(g, None, old(rules.broadcastIP))
    {
      FillTable(ports, g.ports);
      rules := RulesFor(g, None, rules.broadcastIP);
    }

    /** Update. Either nothing changes, or the generation moves on; then it succeeds with exactly
        the snapshot's members and rules, or leaves nobody active. */
    method Update(lease: Lease, s: Snapshot) returns (ok: bool)
      requires Valid()
      modifies this, gate`flows, gate.table, receiver, sender`origin, ports
      ensures Valid()
      ensures ok <==> Plausible(lease, s) && GoodMembers(network, s.members)
      ensures !Plausible(lease, s) ==>
                unchanged(this) && unchanged(gate) && unchanged(gate.table) && unchanged(receiver) && unchanged(sender)
                  && unchanged(ports)
      ensures Plausible(lease, s) ==>
                generation == old(generation) + 1 && revision == s.game.value.revision && room == lease.tag
      ensures Plausible(lease, s) && !ok ==> forall a, now :: !ActiveAt(a, now)
      ensures ok ==>
                && rules == RulesFor(s.game.value, Option.Some(Earlier(lease.expires, s.room.value.expires)),
                   BroadcastOf(network))
                && members == MemberMap(s.members) && nodes == NodeSet(s.nodes)
      ensures gate.Contents()
              == if old(revision) != revision || (ok && Changed(old(members), members)) then
                Emptied(old(gate.Contents()))
                 else old(gate.Contents())
      ensures receiver.Contents()
              == if old(revision) != revision then Carrier.State(map[], map[])
                 else if ok && Changed(old(members), members) then old(receiver.Contents()).(frames := map[])
                 else old(receiver.Contents())
    {
      var plausible := Precheck(lease, s);
      if !plausible {
        return false;
      }
      ok := Publish(lease, s);
    }

    /** The part of Update that runs under the lock of the tables. */
    method Publish(lease: Lease, s: Snapshot) returns (ok: bool)
      requires PortsMatch() && TablesOk() && SenderOk() && Plausible(lease, s)
      modifies this, gate`flows, gate.table, receiver, sender`origin, ports
      ensures PortsMatch() && TablesOk() && SenderOk() && Keyed(members)
      ensures ok <==> GoodMembers(network, s.members)
      ensures generation == old(generation) + 1 && revision == s.game.value.revision && room == lease.tag
      ensures !ok ==> rules.expires == None
      ensures ok ==>
                && rules == RulesFor(s.game.value, Option.Some(Earlier(lease.expires, s.room.value.expires)),
                   BroadcastOf(network))
                && members == MemberMap(s.members) && nodes == NodeSet(s.nodes)
      ensures gate.Contents()
              == if old(revision) != revision || (ok && Changed(old(members), members)) then
                Emptied(old(gate.Contents()))
                 else old(gate.Contents())
      ensures receiver.Contents()
              == if old(revision) != revision then Carrier.State(map[], map[])
                 else if ok && Changed(old(members), members) then old(receiver.Contents()).(frames := map[])
                 else old(receiver.Contents())
    {
      var expires := Earlier(lease.expires, s.room.value.expires);
      PublishGame(lease.tag, s.game.value);
      ok := PublishMembers(s, expires);
    }

    method Precheck(lease: Lease, s: Snapshot) returns (ok: bool)
      ensures ok <==> Plausible(lease, s)
    {
      if s.game.None? || s.room.None? || s.room.value.id != lease.room || s.room.value.closed {
        return false;
      }
      ok := ValidateLAN(s.game.value);
    }

    /** The members, the nodes and the broadcast address; the expiry comes last, so a bad list
        leaves nobody active. */
    method PublishMembers(s: Snapshot, expires: int) returns (ok: bool)
      requires PortsMatch() && TablesOk()
      modifies `members, `nodes, `rules, gate`flows, gate.table, receiver`frames
      ensures PortsMatch() && TablesOk() && Keyed(members)
      ensures ok <==> GoodMembers(network, s.members)
      ensures !ok ==> rules == old(rules)
      ensures ok ==>
                && rules == old(rules).(broadcastIP := BroadcastOf(network), expires := Option.Some(expires))
                && members == MemberMap(s.members) && nodes == NodeSet(s.nodes)
      ensures var cleared := ok && Changed(old(members), members);
              && gate.Contents() == (if cleared then Emptied(old(gate.Contents())) else old(gate.Contents()))
              && receiver.Contents() == if cleared then old(receiver.Contents()).(frames := map[])
                 else old(receiver.Contents())
    {
      var previous := members;
      ok := ReadMembers(s.members);
      if !ok {
        return;
      }
      Compare(previous);
      nodes := NodeSet(s.nodes);
      Open(expires);
    }

    method Open(expires: int)
      requires PortsMatch()
      modifies `rules
      ensures PortsMatch() && rules == old(rules).(broadcastIP := BroadcastOf(network), expires := Option.Some(expires))
    {
      rules := rules.(broadcastIP := BroadcastOf(network), expires := Option.Some(expires));
    }

    /** Changed members forget flows and whatever is half assembled. */
    method Compare(previous: map<Addr, Member>)
      requires TablesOk()
      modifies gate`flows, gate.table, receiver`frames
      ensures TablesOk()
      ensures gate.Contents() == if Changed(previous, members) then Emptied(old(gate.Contents()))
              else old(gate.Contents())
      ensures receiver.Contents()
              == if Changed(previous, members) then old(receiver.Contents()).(frames := map[])
                else old(receiver.Contents())
    {
      if Changed(previous, members) {
        ClearReassembly();
      }
    }

    /** What Write makes of a packet before it touches a table. */
    function Sort(b: seq<byte>, now: int): (i: Input)
      requires IsV4(ip) && |mac| == 6
      reads this
      ensures i.Carried? ==> Carrier.GoodChunk(i.chunk)
    {
      var parsed := Parse(b);
      if parsed.None? then Ignored else SortPacket(parsed.value, b, now)
    }

    function SortPacket(p: Packet, b: seq<byte>, now: int): (i: Input)
      requires IsV4(ip) && |mac| == 6
      reads this
      ensures i.Carried? ==> Carrier.GoodChunk(i.chunk)
    {
      if !IsV4(p.src) || p.dst != ip || p.fragmented || !ActiveAt(ip, now) then Ignored
      else if (p.src in nodes || ActiveAt(p.src, now)) && CarriesProbe(p) then Probed
      else if (p.src in nodes || ActiveAt(p.src, now)) && p.proto == 1 && ValidIcmp(p.data) then
        Diagnostic(Ethernet(MacOf(p.src), mac, 0x0800, b))
      else if !ActiveAt(p.src, now) then Ignored
      else
        var c := Carrier.Decode(p, revision, room);
        if c.None? then Ignored else Carried(members[p.src], c.value)
    }

    /** A member's MAC, or the made-up one of an infrastructure address. */
    function MacOf(a: Addr): (m: seq<byte>)
      requires IsV4(a)
      reads this
      ensures |m| == 6
    {
      if a in members && |members[a].mac| == 6 then members[a].mac else NodeMac(a)
    }

    /** nodeARP: the request is copied and written over field by field. */
    method AnswerArp(frame: seq<byte>) returns (reply: Option<seq<byte>>)
      requires IsV4(ip) && |mac| == 6
      ensures reply == NodeArp(frame, nodes, ip, mac)
    {
      if |frame| < 42 || Get(frame[12..14]) != 0x0806 {
        return None;
      }
      var b := frame[14..];
      assert b[..2] == frame[14..16] && b[2..4] == frame[16..18] && b[6..8] == frame[20..22];
      assert b[8..14] == frame[22..28] && b[14..18] == frame[28..32] && b[24..28] == frame[38..42];
      if Get(b[..2]) != 1 || Get(b[2..4]) != 0x0800 || b[4] != 6 || b[5] != 4 || Get(b[6..8]) != 1
         || b[8..14] != mac || V4(b[14..18]) != ip {
        return None;
      }
      var node := V4(b[24..28]);
      if node !in nodes {
        return None;
      }
      var r := Splice(b[..28], 6, Put(2, 2));
      r := Splice(r, 18, mac);
      r := Splice(r, 24, ip.octets);
      r := Splice(r, 8, NodeMac(node));
      r := Splice(r, 14, node.octets);
      ArpOverwritten(b[..28], node, ip, mac);
      assert b[..28][..6] == frame[14..20];
      reply := Option.Some(Ethernet(NodeMac(node), mac, 0x0806, r));
    }

    /** The locked part of Write: the frames to inject, and the generation that permitted them. */
    method Write(b: seq<byte>, now: int) returns (frames: seq<seq<byte>>, permittedBy: nat)
      requires Valid()
      modifies gate, gate.table, receiver
      ensures Valid() && permittedBy == generation
      ensures match Sort(b, now)
              case Diagnostic(f) => frames == [f] && unchanged(gate) && unchanged(gate.table) && unchanged(receiver)
              case Carried(peer, c) =>
                var (rx, whole) := Carrier.Receive(old(receiver.Contents()), peer.ip, c, now);
                && receiver.Contents() == rx
                && (whole.None? ==> frames == [] && unchanged(gate) && unchanged(gate.table))
                && (whole.Some? ==>
                     var (tables, o) := Permit(rules, old(gate.Contents()), whole.value, peer, members[ip], now);
                     gate.Contents() == tables && frames == if o.Passed? then o.frames else [])
              case _ => frames == [] && unchanged(gate) && unchanged(gate.table) && unchanged(receiver)
    {
      frames, permittedBy := [], generation;
      var input := Sort(b, now);
      match input
      case Ignored =>
      case Probed =>
      case Diagnostic(f) => frames := [f];
      case Carried(peer, c) => frames := Carry(peer, c, now);
    }

    /** A chunk from an active member; a frame it completes goes through the policy. */
    method Carry(peer: Member, c: Carrier.Chunk, now: int) returns (frames: seq<seq<byte>>)
      requires TablesOk() && Carrier.GoodChunk(c) && ip in members
      modifies gate, gate.table, receiver
      ensures TablesOk()
      ensures var (rx, whole) := Carrier.Receive(old(receiver.Contents()), peer.ip, c, now);
              && receiver.Contents() == rx
              && (whole.None? ==> frames == [] && unchanged(gate) && unchanged(gate.table))
              && (whole.Some? ==>
                   var (tables, o) := Permit(rules, old(gate.Contents()), whole.value, peer, members[ip], now);
                   gate.Contents() == tables && frames == if o.Passed? then o.frames else [])
    {
      frames := [];
      ghost var before := receiver.Contents();
      var whole := receiver.Take(peer.ip, c, now);
      CarrierRuns.ReceiveKeepsValid(before, peer.ip, c, now);
      CarrierRuns.NextBounded(before, CarrierRuns.Arrive(peer.ip, c, now));
      if whole.Some? {
        ghost var o;
        frames, o := gate.Permitted(rules, whole.value, peer, members[ip], now);
      }
    }

    /** Read, for one of the other members: what the policy lets through is queued for it. */
    method SendTo(frame: seq<byte>, own: Member, peer: Member, now: int)
      requires TablesOk() && SenderOk()
      modifies gate, gate.table, sender
      ensures TablesOk() && SenderOk()
      ensures var (tables, o) := Permit(rules, old(gate.Contents()), frame, own, peer, now);
              var frames := if o.Passed? then o.frames else [];
              && gate.Contents() == tables && (frames != [] ==> IsV4(peer.ip))
              && (sender.seqno, sender.pending)
                 == Carrier.EnqueueAll(Origin(), old(sender.seqno), old(sender.pending), frames, peer)
    {
      PassedFacts(rules, gate.Contents(), frame, own, peer, now);
      var frames;
      ghost var o;
      frames, o := gate.Permitted(rules, frame, own, peer, now);
      QueueAll(frames, peer);
    }

    method QueueAll(frames: seq<seq<byte>>, peer: Member)
      requires SenderOk() && (frames != [] ==> IsV4(peer.ip)) && forall f <- frames :: |f| <= MAX_FRAME
      modifies sender
      ensures SenderOk()
      ensures (sender.seqno, sender.pending)
              == Carrier.EnqueueAll(Origin(), old(sender.seqno), old(sender.pending), frames, peer)
    {
      for i := 0 to |frames|
        invariant SenderOk()
        invariant (sender.seqno, sender.pending)
                  == Carrier.EnqueueAll(Origin(), old(sender.seqno), old(sender.pending), frames[..i], peer)
      {
        assert frames[i] in frames;
        sender.Queue(frames[i], peer);
        assert frames[..i + 1][..i] == frames[..i];
      }
      assert frames[..|frames|] == frames;
    }

    /** Read: the next packet leaves the queue, and may go out while it is of this
        generation and both ends are active. */
    method Pop(now: int) returns (item: Carrier.Pending, allowed: bool)
      requires SenderOk() && sender.pending != []
      modifies sender`pending
      ensures SenderOk() && [item] + sender.pending == old(sender.pending)
      ensures allowed <==> item.generation == generation && Active(rules, item.peer, now) && ActiveAt(ip, now)
    {
      item := sender.pending[0];
      sender.pending := sender.pending[1..];
      allowed := item.generation == generation && Active(rules, item.peer, now) && ActiveAt(ip, now);
    }

    /** The check of deliver, made while the write lock is held. */
    method MayInject(permittedBy: nat, now: int) returns (allowed: bool)
      ensures allowed <==> permittedBy == generation && ActiveAt(ip, now)
    {
      allowed := permittedBy == generation && ip in members && Active(rules, members[ip], now);
    }
  }

  datatype Input = Ignored | Probed | Diagnostic(frame: seq<byte>) | Carried(peer: Member, chunk: Carrier.Chunk)

  /** Both ports are the probe port and the length fits. */
  predicate CarriesProbe(p: Packet) {
    p.proto == 17 && |p.data| >= 8 && Get(p.data[..2]) == PROBE_PORT && Get(p.data[2..4]) == PROBE_PORT
    && Get(p.data[4..6]) == |p.data|
  }

  lemma NothingWaits()
    ensures CarrierRuns.Bounded(Carrier.State(map[], map[]))
  {
    assert CarrierRuns.Waiting(Carrier.State(map[], map[])) == {};
  }

  lemma FewerWait(s: Carrier.State)
    requires CarrierRuns.Bounded(s)
    ensures CarrierRuns.Bounded(s.(frames := map[]))
  {
    assert CarrierRuns.Waiting(s.(frames := map[])) == {};
  }
}
