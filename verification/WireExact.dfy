/** Which packets are chunks, octet by octet, and what a device makes of every packet that arrives. */
module WireExact {
  import opened Bytes
  import opened Packet
  import opened Policy
  import opened InspectExact
  import opened Device
  import Carrier
  import CarrierRuns

  // ---------------------------------------------------------------- chunks

  /** Bytes written back as they were read. */
  lemma {:induction false} PutOfGet(b: seq<byte>)
    ensures Put(Get(b), |b|) == b
  {
    if b != [] {
      var init, last := b[..|b| - 1], b[|b| - 1];
      PutOfGet(init);
      ModUnique(Get(b), 256, Get(init), last);
      assert b == init + [last];
    }
  }

  /** The header of a chunk and its body: NLAN, version 1, no flags; offset, total and length; epoch, number, revision
      and room. */
  predicate OnWire(h: seq<byte>, c: Carrier.Chunk, revision: nat, room: seq<byte>) {
    && |h| == 52 + |c.body| && h[..4] == [78, 76, 65, 78] && h[4] == 1 && h[5] == 0
    && h[6..8] == Put(c.offset, 2) && h[8..10] == Put(c.total, 2) && h[10..12] == Put(|c.body|, 2)
    && h[12..20] == Put(c.epoch, 8) && h[20..28] == Put(c.seqno, 8) && h[28..36] == Put(revision, 8)
    && h[36..52] == room && h[52..] == c.body
  }

  /** A piece of a frame of 14 to 1514 octets: 1024 of them, or the last ones. */
  predicate Piece(c: Carrier.Chunk) {
    && 14 <= c.total <= 1514 && c.offset < c.total && c.offset % 1024 == 0
    && if c.offset + 1024 <= c.total then |c.body| == 1024 else c.offset + |c.body| == c.total
  }

  /** A UDP datagram with both ports `port`, of the length it gives. */
  predicate Between(p: Packet, port: int) {
    && p.proto == 17 && |p.data| >= 8
    && p.data[0] as int * 256 + p.data[1] as int == port && p.data[2] as int * 256 + p.data[3] as int == port
    && p.data[4] as int * 256 + p.data[5] as int == |p.data|
  }

  predicate Fields(c: Carrier.Chunk) {
    c.epoch < 0x1_0000_0000_0000_0000 && c.seqno < 0x1_0000_0000_0000_0000
  }

  lemma PortsAre(p: Packet, port: int)
    requires |p.data| >= 8
    ensures Between(p, port)
            <==> && p.proto == 17 && Get(p.data[..2]) == port && Get(p.data[2..4]) == port
                 && Get(p.data[4..6]) == |p.data|
  {
    assert p.data[..2] == p.data[0..2];
    GetWord(p.data, 0);
    GetWord(p.data, 2);
    GetWord(p.data, 4);
  }

  lemma FieldBack(h: seq<byte>, i: nat, j: nat, n: nat)
    requires i <= j <= |h|
    ensures h[i..j] == Put(n, j - i) && n < Pow256(j - i) ==> Get(h[i..j]) == n
    ensures Get(h[i..j]) == n ==> h[i..j] == Put(n, j - i) && n < Pow256(j - i)
  {
    PutOfGet(h[i..j]);
    GetBound(h[i..j]);
    GetPut(n, j - i);
    if n < Pow256(j - i) {
      ModUnique(n, Pow256(j - i), 0, n);
    }
  }

  /** The numbers that the header gives. */
  predicate Reads(h: seq<byte>, c: Carrier.Chunk, revision: nat)
    requires |h| >= 52
  {
    && Get(h[6..8]) == c.offset && Get(h[8..10]) == c.total && Get(h[10..12]) == |c.body|
    && Get(h[12..20]) == c.epoch && Get(h[20..28]) == c.seqno && Get(h[28..36]) == revision
  }

  predicate Written(h: seq<byte>, c: Carrier.Chunk, revision: nat)
    requires |h| >= 52
  {
    && h[6..8] == Put(c.offset, 2) && h[8..10] == Put(c.total, 2) && h[10..12] == Put(|c.body|, 2)
    && h[12..20] == Put(c.epoch, 8) && h[20..28] == Put(c.seqno, 8) && h[28..36] == Put(revision, 8)
  }

  lemma ReadIsWritten(h: seq<byte>, c: Carrier.Chunk, revision: nat)
    requires |h| >= 52 && Reads(h, c, revision)
    ensures Written(h, c, revision) && Fields(c)
  {
    PowValues();
    FieldBack(h, 6, 8, c.offset);
    FieldBack(h, 8, 10, c.total);
    FieldBack(h, 10, 12, |c.body|);
    FieldBack(h, 12, 20, c.epoch);
    FieldBack(h, 20, 28, c.seqno);
    FieldBack(h, 28, 36, revision);
  }

  lemma WrittenIsRead(h: seq<byte>, c: Carrier.Chunk, revision: nat)
    requires |h| >= 52 && Written(h, c, revision) && Piece(c) && Fields(c) && revision < 0x1_0000_0000_0000_0000
    ensures Reads(h, c, revision)
  {
    PowValues();
    FieldBack(h, 6, 8, c.offset);
    FieldBack(h, 8, 10, c.total);
    FieldBack(h, 10, 12, |c.body|);
    FieldBack(h, 12, 20, c.epoch);
    FieldBack(h, 20, 28, c.seqno);
    FieldBack(h, 28, 36, revision);
  }

  /** A datagram is a chunk of this revision and room exactly when it is on the wire as that chunk, between the two
      ports of the carrier. */
  lemma DecodedExactly(p: Packet, revision: nat, room: seq<byte>, c: Carrier.Chunk)
    requires revision < 0x1_0000_0000_0000_0000
    ensures Carrier.Decode(p, revision, room) == Some(c)
            <==> Between(p, 4244) && OnWire(p.data[8..], c, revision, room) && Piece(c) && Fields(c)
  {
    if |p.data| >= 60 {
      PortsAre(p, 4244);
      var h := p.data[8..];
      if Reads(h, c, revision) {
        ReadIsWritten(h, c, revision);
      }
      if Written(h, c, revision) && Piece(c) && Fields(c) {
        WrittenIsRead(h, c, revision);
      }
    }
  }
  // ---------------------------------------------------------------- the sender

  /** What a queued packet carries: this piece of the frame, to this member, under the number, epoch, revision and room
      of the sender. */
  predicate Carries(item: Carrier.Pending, d: Carrier.Origin, frame: seq<byte>, n: nat, peer: Member, from: nat,
      to: nat)
    requires from <= to <= |frame|
  {
    && item.peer == peer && item.generation == d.generation && Parse(item.packet).Some?
    && var p := Parse(item.packet).value;
    && p.src == d.ip && p.dst == peer.ip && !p.fragmented && Between(p, 4244)
    && OnWire(p.data[8..], Carrier.Chunk(d.epoch, n, from, |frame|, frame[from..to]), d.revision, d.room)
  }

  lemma PacketsAre(d: Carrier.Origin, frame: seq<byte>, n: nat, peer: Member)
    requires IsV4(d.ip) && IsV4(peer.ip) && 14 <= |frame| <= 1514
    ensures Carrier.Packets(d, frame, n, peer, 0)
            == [Carrier.PacketOf(d, frame, n, peer, 0)]
               + if |frame| <= 1024 then [] else [Carrier.PacketOf(d, frame, n, peer, 1024)]
  {
    assert Carrier.Packets(d, frame, n, peer, 2048) == [];
  }

  lemma PacketCarries(d: Carrier.Origin, frame: seq<byte>, n: nat, peer: Member, i: nat)
    requires IsV4(d.ip) && IsV4(peer.ip) && |d.room| == 16 && 14 <= |frame| <= 1514 && n < 0x1_0000_0000_0000_0000
    requires d.epoch < 0x1_0000_0000_0000_0000 && d.revision < 0x1_0000_0000_0000_0000
    requires i < |Carrier.Packets(d, frame, n, peer, 0)|
    ensures i * 1024 < |frame|
    ensures Carries(Carrier.Packets(d, frame, n, peer, 0)[i], d, frame, n, peer, i * 1024,
                    if i * 1024 + 1024 <= |frame| then i * 1024 + 1024 else |frame|)
  {
    CarrierRuns.QueuedPacketDecodes(d, frame, n, peer, i);
    var p := Parse(Carrier.Packets(d, frame, n, peer, 0)[i].packet).value;
    DecodedExactly(p, d.revision, d.room, Carrier.ChunkOf(frame, d.epoch, n, i * 1024));
    PacketsAre(d, frame, n, peer);
  }

  /** One packet or, above 1024 octets, two. */
  predicate CarryFrame(items: seq<Carrier.Pending>, d: Carrier.Origin, frame: seq<byte>, n: nat, peer: Member) {
    if |frame| <= 1024 then |items| == 1 && Carries(items[0], d, frame, n, peer, 0, |frame|)
    else
      && |items| == 2 && Carries(items[0], d, frame, n, peer, 0, 1024)
      && Carries(items[1], d, frame, n, peer, 1024, |frame|)
  }

  lemma PacketsCarry(d: Carrier.Origin, frame: seq<byte>, n: nat, peer: Member)
    requires IsV4(d.ip) && IsV4(peer.ip) && |d.room| == 16 && 14 <= |frame| <= 1514 && n < 0x1_0000_0000_0000_0000
    requires d.epoch < 0x1_0000_0000_0000_0000 && d.revision < 0x1_0000_0000_0000_0000
    ensures CarryFrame(Carrier.Packets(d, frame, n, peer, 0), d, frame, n, peer)
  {
    PacketsAre(d, frame, n, peer);
    PacketCarries(d, frame, n, peer, 0);
    if |frame| > 1024 {
      PacketCarries(d, frame, n, peer, 1);
    }
  }

  lemma NextNumber(seqno: nat)
    requires seqno < 0x1_0000_0000_0000_0000
    ensures (seqno + 1) % 0x1_0000_0000_0000_0000 == if seqno == 0xffff_ffff_ffff_ffff then 0 else seqno + 1
  {
  }

  /** Behind the others. */
  lemma QueuedBehind(d: Carrier.Origin, seqno: nat, pending: seq<Carrier.Pending>, frame: seq<byte>, peer: Member,
      n: nat)
    requires IsV4(d.ip) && IsV4(peer.ip) && |pending| < 4095 && n == (seqno + 1) % 0x1_0000_0000_0000_0000
    ensures Carrier.Enqueue(d, seqno, pending, frame, peer)
            == (n, pending + Carrier.Packets(d, frame, n, peer, 0))
  {
  }

  /** A frame is queued exactly while fewer than 4095 packets wait; it takes the next number, and its packets go behind
      the others. */
  lemma QueuedExactly(d: Carrier.Origin, seqno: nat, pending: seq<Carrier.Pending>, frame: seq<byte>, peer: Member)
    requires IsV4(d.ip) && IsV4(peer.ip) && |d.room| == 16 && 14 <= |frame| <= 1514
    requires seqno < 0x1_0000_0000_0000_0000 && d.epoch < 0x1_0000_0000_0000_0000
    requires d.revision < 0x1_0000_0000_0000_0000
    ensures |pending| >= 4095 ==> Carrier.Enqueue(d, seqno, pending, frame, peer) == (seqno, pending)
    ensures |pending| < 4095 ==>
              var n := if seqno == 0xffff_ffff_ffff_ffff then 0 else seqno + 1;
              exists items :: Carrier.Enqueue(d, seqno, pending, frame, peer) == (n, pending + items)
                              && CarryFrame(items, d, frame, n, peer)
  {
    if |pending| < 4095 {
      NextNumber(seqno);
      var n := if seqno == 0xffff_ffff_ffff_ffff then 0 else seqno + 1;
      QueuedBehind(d, seqno, pending, frame, peer, n);
      PacketsCarry(d, frame, n, peer);
    }
  }

  // ---------------------------------------------------------------- what becomes of a packet

  /** The address is a member's that is present. */
  predicate Here(d: Device, a: Addr, now: int)
    reads d
  {
    a in d.members && Present(d.rules, d.members[a], now)
  }

  /** Whole, for this host, while it is a present member itself. */
  predicate ForMe(d: Device, p: Packet, now: int)
    reads d
  {
    p.src.V4? && |p.src.octets| == 4 && p.dst == d.ip && !p.fragmented && Here(d, d.ip, now)
  }

  predicate Echoes(p: Packet) {
    p.proto == 1 && |p.data| >= 8 && p.data[0] in {0, 3, 8, 11, 12}
  }

  /** The sender's MAC, or for a node the one made up of its address. */
  predicate MadeUp(d: Device, a: Addr, mac: seq<byte>)
    requires a.V4? && |a.octets| == 4
    reads d
  {
    if a in d.members && |d.members[a].mac| == 6 then mac == d.members[a].mac else mac == [2, 78] + a.octets
  }

  /** From a node or a present member a probe is a probe and an ICMP packet a diagnostic, wrapped into a frame to this
      host; from a present member a chunk of this revision and room is a chunk; everything else is ignored. */
  lemma SortedExactly(d: Device, b: seq<byte>, now: int)
    requires IsV4(d.ip) && |d.mac| == 6
    ensures Parse(b).None? ==> d.Sort(b, now) == Ignored
    ensures Parse(b).Some? ==>
              var p, i := Parse(b).value, d.Sort(b, now);
              if !ForMe(d, p, now) then i == Ignored
              else if (p.src in d.nodes || Here(d, p.src, now)) && Between(p, 4243) then i == Probed
              else if (p.src in d.nodes || Here(d, p.src, now)) && Echoes(p) then
                i.Diagnostic? && |i.frame| >= 14 && i.frame[..6] == d.mac && MadeUp(d, p.src, i.frame[6..12])
                && TypeAt(i.frame) == 0x0800 && i.frame[14..] == b
              else if !Here(d, p.src, now) || Carrier.Decode(p, d.revision, d.room).None? then i == Ignored
              else i == Carried(d.members[p.src], Carrier.Decode(p, d.revision, d.room).value)
  {
    if Parse(b).Some? {
      var p := Parse(b).value;
      if |p.data| >= 8 {
        PortsAre(p, 4243);
      }
      if d.Sort(b, now).Diagnostic? {
        EthernetHead(d.MacOf(p.src), d.mac, 0x0800, b);
        GetWord(d.Sort(b, now).frame, 12);
      }
    }
  }
}
