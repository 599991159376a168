/** Exactly which frames pass the checks of link and network, read off their octets. */
module InspectExact {
  import opened Bytes
  import opened Packet
  import opened Policy

  // ---------------------------------------------------------------- members and addresses

  /** A member with an address and a MAC, seen of late, while the room is open to this device. */
  predicate Present(r: Rules, m: Member, now: int) {
    && m.ip.V4? && |m.ip.octets| == 4 && |m.mac| == 6
    && now < m.expires && r.expires.Some? && now < r.expires.value
  }

  /** Octets that differ in the second lowest bit, and in no other. */
  predicate Flipped(x: byte, y: byte) {
    x != y && x % 2 == y % 2 && x as int / 4 == y as int / 4
  }

  /** The member's own address, fd4e:4c52:: with its octets at the end, or the link-local address of its MAC. */
  predicate AddressOf(m: Member, a: Addr)
    requires m.ip.V4? && |m.ip.octets| == 4 && |m.mac| == 6
  {
    || a == m.ip
    || (a.V6? && |a.octets| == 16 && a.octets[..12] == [0xfd, 0x4e, 0x4c, 0x52, 0, 0, 0, 0, 0, 0, 0, 0]
        && a.octets[12..] == m.ip.octets)
    || (a.V6? && |a.octets| == 16 && a.octets[..8] == [0xfe, 0x80, 0, 0, 0, 0, 0, 0]
        && Flipped(a.octets[8], m.mac[0]) && a.octets[9..11] == m.mac[1..3]
        && a.octets[11..13] == [0xff, 0xfe] && a.octets[13..] == m.mac[3..])
  }

  /** A group: multicast, also written as a mapped address, or one of the two broadcast addresses. */
  predicate ForMany(r: Rules, a: Addr) {
    || (a.V4? && |a.octets| > 0 && 224 <= a.octets[0] <= 239)
    || (a.V6? && |a.octets| > 0 && a.octets[0] == 255)
    || (a.V6? && |a.octets| == 16 && a.octets[..12] == [0, 0, 0, 0, 0, 0, 0, 0, 0, 0, 255, 255]
        && 224 <= a.octets[12] <= 239)
    || a == V4([255, 255, 255, 255]) || a == r.broadcastIP
  }

  // ---------------------------------------------------------------- the link

  predicate Everyone(frame: seq<byte>)
    requires |frame| >= 14
  {
    frame[..6] == [255, 255, 255, 255, 255, 255]
  }

  /** The game lets this kind of group frame through. */
  predicate ManyAllowed(r: Rules, frame: seq<byte>)
    requires |frame| >= 14
  {
    (Everyone(frame) ==> r.broadcast) && (frame[0] % 2 == 1 && !Everyone(frame) ==> r.multicast)
  }

  /** From the source's MAC, and to the target's unless it is for a group. */
  predicate LinkFits(r: Rules, frame: seq<byte>, source: Member, target: Member, now: int) {
    && 14 <= |frame| <= 1514 && Present(r, source, now) && Present(r, target, now)
    && frame[6..12] == source.mac && (frame[0] % 2 == 0 ==> frame[..6] == target.mac)
  }

  function TypeAt(frame: seq<byte>): int
    requires |frame| >= 14
  {
    frame[12] as int * 256 + frame[13] as int
  }

  /** An ARP request or reply of the source's about its own address or the target's. */
  predicate ArpFits(frame: seq<byte>, source: Member, target: Member)
    requires Complete(source) && Complete(target)
  {
    && |frame| >= 42 && frame[14..20] == [0, 1, 8, 0, 6, 4] && frame[20] == 0 && frame[21] in {1, 2}
    && frame[22..28] == source.mac
    && (frame[28..32] == source.ip.octets || (frame[28..32] == [0, 0, 0, 0] && frame[21] == 1))
    && (frame[38..42] == target.ip.octets || frame[38..42] == source.ip.octets)
  }

  /** A SNAP header that carries IP, ARP or VLAN. */
  predicate Tunnels(frame: seq<byte>) {
    && |frame| >= 22 && frame[14..20] == [0xaa, 0xaa, 3, 0, 0, 0]
    && frame[20..22] in {[8, 0], [8, 6], [0x86, 0xdd], [0x81, 0], [0x88, 0xa8]}
  }

  /** Another type of the game's; zero stands for the frames that give a length. */
  predicate OtherFits(r: Rules, frame: seq<byte>)
    requires |frame| >= 14
  {
    && ManyAllowed(r, frame)
    && if TypeAt(frame) > 1500 then TypeAt(frame) in r.etherTypes
       else 0 in r.etherTypes && 0 < TypeAt(frame) <= |frame| - 14 && !Tunnels(frame)
  }

  // ---------------------------------------------------------------- the network

  /** From an address of the source's; to a group by a group frame, or to the target by one of its own. */
  predicate NetworkFits(r: Rules, frame: seq<byte>, p: Packet, source: Member, target: Member)
    requires |frame| >= 14 && Complete(source) && Complete(target)
  {
    && AddressOf(source, p.src)
    && if ForMany(r, p.dst) then frame[0] % 2 == 1 && ManyAllowed(r, frame)
       else frame[0] % 2 == 0 && AddressOf(target, p.dst)
  }

  /** Neighbour solicitation or advertisement. */
  predicate Discovers(p: Packet) {
    p.proto == 58 && !p.fragmented && |p.data| >= 24 && p.data[0] in {135, 136}
  }

  predicate Nowhere(a: Addr) {
    || a == V4([0, 0, 0, 0]) || a == V6([0, 0, 0, 0, 0, 0, 0, 0, 0, 0, 0, 0, 0, 0, 0, 0])
  }

  /** The source asks for an address of either, or announces one of its own, and names no MAC but its own. */
  ghost predicate DiscoveryFits(r: Rules, frame: seq<byte>, p: Packet, source: Member, target: Member)
    requires |frame| >= 22 && Complete(source) && Complete(target) && |p.data| >= 24
  {
    && (AddressOf(source, p.src) || (p.data[0] == 135 && Nowhere(p.src)))
    && (if ForMany(r, p.dst) then frame[0] % 2 == 1 else frame[0] % 2 == 0 && AddressOf(target, p.dst))
    && frame[21] == 255 && p.data[1] == 0
    && (AddressOf(source, V6(p.data[8..24])) || (p.data[0] == 135 && AddressOf(target, V6(p.data[8..24]))))
    && exists os :: Options(os, p.data[24..], source.mac)
  }

  /** ICMP errors and echoes. */
  predicate ControlFits(p: Packet) {
    && !p.fragmented && |p.data| >= 8
    && ((p.proto == 58 && p.data[0] in {1, 2, 3, 4, 128, 129}) || (p.proto == 1 && p.data[0] in {0, 3, 8, 11, 12}))
  }

  // ---------------------------------------------------------------- options

  /** Eight octets or a multiple of it, as the second one says; a link-layer address is the MAC. */
  predicate OptionFits(o: seq<byte>, mac: seq<byte>) {
    && |o| > 2 && |o| == o[1] as int * 8
    && (o[0] in {1, 2} ==> |o| == 8 && o[2..] == mac)
  }

  /** The octets are these options, one behind the other. */
  predicate Options(os: seq<seq<byte>>, b: seq<byte>, mac: seq<byte>) {
    Concat(os) == b && forall o <- os :: OptionFits(o, mac)
  }

  lemma FirstOption(b: seq<byte>, mac: seq<byte>)
    requires |b| >= 2 && b[1] != 0 && b[1] as int * 8 <= |b|
    ensures var o := b[..b[1] as int * 8];
            && b == o + b[b[1] as int * 8..]
            && (OptionFits(o, mac) <==> ((b[0] == 1 || b[0] == 2) ==> b[1] == 1 && b[2..8] == mac))
  {
    var o := b[..b[1] as int * 8];
    assert |o| == 8 ==> o[2..] == b[2..8];
  }

  lemma {:induction false} NdOptionsExactly(b: seq<byte>, mac: seq<byte>)
    ensures NdOptions(b, mac) <==> exists os :: Options(os, b, mac)
    decreases |b|
  {
    if b == [] {
      assert Options([], b, mac);
    } else {
      if NdOptions(b, mac) {
        FirstOption(b, mac);
        var rest := b[b[1] as int * 8..];
        NdOptionsExactly(rest, mac);
        var os :| Options(os, rest, mac);
        Prepended(b[..b[1] as int * 8], os, rest, mac);
      }
      if os :| Options(os, b, mac) {
        FrontOption(os, b, mac);
        FirstOption(b, mac);
        NdOptionsExactly(b[b[1] as int * 8..], mac);
      }
    }
  }

  lemma Prepended(o: seq<byte>, os: seq<seq<byte>>, rest: seq<byte>, mac: seq<byte>)
    requires OptionFits(o, mac) && Options(os, rest, mac)
    ensures Options([o] + os, o + rest, mac)
  {
    assert ([o] + os)[1..] == os;
  }

  lemma FrontOption(os: seq<seq<byte>>, b: seq<byte>, mac: seq<byte>)
    requires b != [] && Options(os, b, mac)
    ensures |b| >= 2 && b[1] != 0 && b[1] as int * 8 <= |b|
    ensures OptionFits(b[..b[1] as int * 8], mac) && Options(os[1..], b[b[1] as int * 8..], mac)
  {
    assert os != [];
    var o := os[0];
    assert o in os && b == o + Concat(os[1..]);
    assert b[..|o|] == o && b[|o|..] == Concat(os[1..]);
  }

  // ---------------------------------------------------------------- the members' side

  lemma FlippedIs(x: byte, y: byte)
    ensures x == FlipLocal(y) <==> Flipped(x, y)
  {
  }

  lemma OwnsIs(m: Member, a: Addr)
    requires Complete(m)
    ensures Owns(m, a) <==> AddressOf(m, a)
  {
    if a.V6? && |a.octets| == 16 {
      LanIs(m, a);
      LinkLocalIs(m, a);
    }
  }

  lemma LanIs(m: Member, a: Addr)
    requires Complete(m) && a.V6? && |a.octets| == 16
    ensures a == LanIPv6(m.ip)
            <==> && a.octets[..12] == [0xfd, 0x4e, 0x4c, 0x52, 0, 0, 0, 0, 0, 0, 0, 0]
                 && a.octets[12..] == m.ip.octets
  {
    assert a.octets == a.octets[..12] + a.octets[12..];
    var lan := LanIPv6(m.ip).octets;
    assert lan[..12] == [0xfd, 0x4e, 0x4c, 0x52, 0, 0, 0, 0, 0, 0, 0, 0] && lan[12..] == m.ip.octets;
  }

  lemma LinkLocalIs(m: Member, a: Addr)
    requires Complete(m) && a.V6? && |a.octets| == 16
    ensures a == LinkLocal(m.mac)
            <==> && a.octets[..8] == [0xfe, 0x80, 0, 0, 0, 0, 0, 0]
                 && Flipped(a.octets[8], m.mac[0]) && a.octets[9..11] == m.mac[1..3]
                 && a.octets[11..13] == [0xff, 0xfe] && a.octets[13..] == m.mac[3..]
  {
    var x, l, mac := a.octets, LinkLocal(m.mac).octets, m.mac;
    FlippedIs(x[8], mac[0]);
    assert x == x[..8] + [x[8]] + x[9..11] + x[11..13] + x[13..];
    assert l[..8] == [0xfe, 0x80, 0, 0, 0, 0, 0, 0] && l[8] == FlipLocal(mac[0]) && l[9..11] == mac[1..3];
    assert l[11..13] == [0xff, 0xfe] && l[13..] == mac[3..];
    assert l == l[..8] + [l[8]] + l[9..11] + l[11..13] + l[13..];
  }

  lemma GroupIs(r: Rules, a: Addr)
    ensures IsGroup(r, a) <==> ForMany(r, a)
  {
  }

  // ---------------------------------------------------------------- the link's side

  lemma LinkIs(frame: seq<byte>)
    requires |frame| >= 14
    ensures ToBroadcast(frame) <==> Everyone(frame)
    ensures ToMulticast(frame) <==> frame[0] % 2 == 1 && !Everyone(frame)
    ensures Everyone(frame) ==> frame[0] % 2 == 1
    ensures Get(frame[12..14]) == TypeAt(frame)
  {
    GetWord(frame, 12);
    assert Everyone(frame) ==> frame[0] == frame[..6][0];
  }

  lemma ArpIs(frame: seq<byte>, source: Member, target: Member)
    requires |frame| >= 14 && Complete(source) && Complete(target)
    ensures ArpAllowed(frame[14..], source, target) <==> ArpFits(frame, source, target)
  {
    var b := frame[14..];
    if |frame| >= 42 {
      assert b[..2] == frame[14..16] && b[2..4] == frame[16..18] && b[6..8] == frame[20..22];
      assert b[8..14] == frame[22..28] && b[14..18] == frame[28..32] && b[24..28] == frame[38..42];
      GetWord(frame, 14);
      GetWord(frame, 16);
      GetWord(frame, 20);
      ArpHead(frame);
      assert source.ip == V4(source.ip.octets) && target.ip == V4(target.ip.octets);
    }
  }

  lemma ArpHead(frame: seq<byte>)
    requires |frame| >= 42
    ensures frame[14..20] == [0, 1, 8, 0, 6, 4]
            <==> && frame[14] as int * 256 + frame[15] as int == 1
                 && frame[16] as int * 256 + frame[17] as int == 0x0800 && frame[18] == 6 && frame[19] == 4
  {
    var h := frame[14..20];
    assert h == [frame[14], frame[15], frame[16], frame[17], frame[18], frame[19]];
  }

  lemma OtherIs(r: Rules, frame: seq<byte>)
    requires |frame| >= 14
    ensures OtherTypeAllowed(r, frame, TypeAt(frame)) <==> OtherFits(r, frame)
  {
    LinkIs(frame);
    if |frame| >= 22 {
      SnapIs(frame);
    }
  }

  lemma SnapIs(frame: seq<byte>)
    requires |frame| >= 22
    ensures Get(frame[20..22]) in {0x0800, 0x0806, 0x86dd, 0x8100, 0x88a8}
            <==> frame[20..22] in {[8, 0], [8, 6], [0x86, 0xdd], [0x81, 0], [0x88, 0xa8]}
  {
    GetWord(frame, 20);
    assert frame[20..22] == [frame[20], frame[21]];
  }
  // ---------------------------------------------------------------- the network's side

  lemma NetworkIs(r: Rules, frame: seq<byte>, p: Packet, source: Member, target: Member)
    requires |frame| >= 14 && Complete(source) && Complete(target) && !IsNd(p)
    ensures NetworkFits(r, frame, p, source, target)
            <==> && Owns(source, p.src)
                 && !(IsGroup(r, p.dst) && ((!ToBroadcast(frame) && !ToMulticast(frame))
                   || (ToBroadcast(frame) && !r.broadcast) || (ToMulticast(frame) && !r.multicast)))
                 && !(!IsGroup(r, p.dst) && (!Owns(target, p.dst) || ToBroadcast(frame) || ToMulticast(frame)))
  {
    LinkIs(frame);
    OwnsIs(source, p.src);
    OwnsIs(target, p.dst);
    GroupIs(r, p.dst);
  }

  lemma DiscoveryIs(r: Rules, frame: seq<byte>, p: Packet, source: Member, target: Member)
    requires |frame| >= 54 && Complete(source) && Complete(target) && IsNd(p)
    ensures DiscoveryFits(r, frame, p, source, target)
            <==> && (Owns(source, p.src) || IsProbe(p))
                 && !(IsGroup(r, p.dst) && !ToBroadcast(frame) && !ToMulticast(frame))
                 && !(!IsGroup(r, p.dst) && (!Owns(target, p.dst) || ToBroadcast(frame) || ToMulticast(frame)))
                 && NdAllowed(frame, p, source, target)
  {
    LinkIs(frame);
    OwnsIs(source, p.src);
    OwnsIs(target, p.dst);
    OwnsIs(source, V6(p.data[8..24]));
    OwnsIs(target, V6(p.data[8..24]));
    GroupIs(r, p.dst);
    NdOptionsExactly(p.data[24..], source.mac);
  }

  /** A packet is no longer than what it was read from, behind an IPv6 header. */
  lemma LongEnough(b: seq<byte>)
    requires Parse(b).Some? && |Parse(b).value.data| >= 24
    ensures |b| >= 40
  {
  }

  /** The version in the Ethernet type and the one in the packet. */
  predicate VersionFits(frame: seq<byte>, p: Packet)
    requires |frame| >= 14
  {
    TypeAt(frame) in {0x0800, 0x86dd} && (p.src.V4? <==> TypeAt(frame) == 0x0800)
  }

  ghost predicate ControlAllowed(r: Rules, frame: seq<byte>, p: Packet, source: Member, target: Member)
    requires |frame| >= 14 && Complete(source) && Complete(target) && Parse(frame[14..]) == Some(p)
  {
    if Discovers(p) then LongEnough(frame[14..]); DiscoveryFits(r, frame, p, source, target)
    else NetworkFits(r, frame, p, source, target) && ControlFits(p)
  }

  lemma IpExactly(r: Rules, frame: seq<byte>, p: Packet, source: Member, target: Member)
    requires |frame| >= 14 && Complete(source) && Complete(target) && Parse(frame[14..]) == Some(p)
    requires VersionFits(frame, p)
    ensures var v := InspectIP(r, frame, Some(p), TypeAt(frame) == 0x0800, source, target);
            && (v == Allow <==> ControlAllowed(r, frame, p, source, target))
            && (v == Transport(p) <==> p.proto in {6, 17} && NetworkFits(r, frame, p, source, target))
            && (v != Deny && v != Allow ==> v == Transport(p))
  {
    if IsNd(p) {
      LongEnough(frame[14..]);
      DiscoveryIs(r, frame, p, source, target);
    } else {
      NetworkIs(r, frame, p, source, target);
    }
  }

  // ---------------------------------------------------------------- the main results

  lemma LinkInspected(r: Rules, frame: seq<byte>, source: Member, target: Member, now: int)
    ensures !LinkFits(r, frame, source, target, now) ==> Inspect(r, frame, source, target, now) == Deny
    ensures LinkFits(r, frame, source, target, now) ==>
              Inspect(r, frame, source, target, now)
              == (if TypeAt(frame) == 0x0806 then if ArpAllowed(frame[14..], source, target) then Allow else Deny
                  else if !r.enabled then Deny
                  else if TypeAt(frame) != 0x0800 && TypeAt(frame) != 0x86dd then
                    if OtherTypeAllowed(r, frame, TypeAt(frame)) then Allow else Deny
                  else InspectIP(r, frame, Parse(frame[14..]), TypeAt(frame) == 0x0800, source, target))
  {
    if |frame| >= 14 {
      LinkIs(frame);
    }
  }

  /** A TCP or UDP packet gets as far as its transport header exactly when the game is on, the link and both ends fit,
      and the packet is the one in the frame, of the version the frame gives. */
  lemma TransportExactly(r: Rules, frame: seq<byte>, source: Member, target: Member, now: int, p: Packet)
    ensures Inspect(r, frame, source, target, now) == Transport(p)
            <==> && LinkFits(r, frame, source, target, now) && r.enabled && Parse(frame[14..]) == Some(p)
                 && VersionFits(frame, p) && p.proto in {6, 17} && NetworkFits(r, frame, p, source, target)
  {
    LinkInspected(r, frame, source, target, now);
    if LinkFits(r, frame, source, target, now) && Parse(frame[14..]).Some?
       && VersionFits(frame, Parse(frame[14..]).value) {
      IpExactly(r, frame, Parse(frame[14..]).value, source, target);
    }
  }

  /** Any other frame passes exactly as ARP about the two members, as a type of the game's, or as neighbour discovery or
      ICMP between them. */
  lemma AllowedExactly(r: Rules, frame: seq<byte>, source: Member, target: Member, now: int)
    ensures Inspect(r, frame, source, target, now) == Allow
            <==> && LinkFits(r, frame, source, target, now)
                 && if TypeAt(frame) == 0x0806 then ArpFits(frame, source, target)
                    else if TypeAt(frame) !in {0x0800, 0x86dd} then r.enabled && OtherFits(r, frame)
                    else
                      && r.enabled && Parse(frame[14..]).Some? && VersionFits(frame, Parse(frame[14..]).value)
                      && ControlAllowed(r, frame, Parse(frame[14..]).value, source, target)
  {
    LinkInspected(r, frame, source, target, now);
    if LinkFits(r, frame, source, target, now) {
      ArpIs(frame, source, target);
      OtherIs(r, frame);
      if Parse(frame[14..]).Some? && VersionFits(frame, Parse(frame[14..]).value) {
        IpExactly(r, frame, Parse(frame[14..]).value, source, target);
      }
    }
  }

  /** So an ordinary datagram between two present members passes the inspection as it is. */
  lemma OrdinaryPasses(r: Rules, source: Member, target: Member, now: int, p: Packet, padding: seq<byte>)
    requires Present(r, source, now) && Present(r, target, now) && r.enabled && target.mac[0] % 2 == 0
    requires Sendable(p) && p.proto in {6, 17} && p.src == source.ip && p.dst == target.ip && !ForMany(r, p.dst)
    requires 34 + |p.data| + |padding| <= 1514
    ensures var frame := Ethernet(source.mac, target.mac, 0x0800, Ipv4Bytes(p) + padding);
            |frame| <= 1514 && Inspect(r, frame, source, target, now) == Transport(p)
  {
    var frame := Ethernet(source.mac, target.mac, 0x0800, Ipv4Bytes(p) + padding);
    EthernetHead(source.mac, target.mac, 0x0800, Ipv4Bytes(p) + padding);
    Ipv4RoundTrip(p, padding);
    assert frame[14..] == Ipv4Bytes(p) + padding;
    GetWord(frame, 12);
    assert frame[0] == frame[..6][0];
    TransportExactly(r, frame, source, target, now, p);
  }
  // ---------------------------------------------------------------- infrastructure

  /** An ICMP packet of this host leaves for a node exactly when it is whole, from this host's own address and MAC, and
      an error or an echo. */
  lemma DiagnosticExactly(frame: seq<byte>, nodes: set<Addr>, own: Addr, mac: seq<byte>)
    ensures OutboundDiagnostic(frame, nodes, own, mac).Some?
            <==> && |frame| >= 14 && TypeAt(frame) == 0x0800 && frame[6..12] == mac && Parse(frame[14..]).Some?
                 && var p := Parse(frame[14..]).value;
                    && p.src == own && p.dst in nodes && !p.fragmented && p.proto == 1
                    && |p.data| >= 8 && p.data[0] in {0, 3, 8, 11, 12}
    ensures OutboundDiagnostic(frame, nodes, own, mac).Some? ==>
              OutboundDiagnostic(frame, nodes, own, mac) == Some(frame[14..])
  {
    if |frame| >= 14 {
      GetWord(frame, 12);
    }
  }

  /** It asks for a node exactly in an ARP request with its own MAC and address about one of them. */
  lemma AsksExactly(frame: seq<byte>, nodes: set<Addr>, own: Addr, mac: seq<byte>)
    ensures AsksForNode(frame, nodes, own, mac)
            <==> && |frame| >= 42 && TypeAt(frame) == 0x0806 && frame[14..20] == [0, 1, 8, 0, 6, 4]
                 && frame[20] == 0 && frame[21] == 1 && frame[22..28] == mac && V4(frame[28..32]) == own
                 && V4(frame[38..42]) in nodes
  {
    if |frame| >= 42 {
      GetWord(frame, 12);
      GetWord(frame, 14);
      GetWord(frame, 16);
      GetWord(frame, 20);
      ArpHead(frame);
    }
  }
}
