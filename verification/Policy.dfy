/** The Ethernet and port policy of the device: which frames one member may send to another. */
module Policy {
  import opened Bytes
  import opened Packet
  import opened Fragments
  import opened Sets
  import opened Times

  const TCP: byte := 6
  const UDP: byte := 17
  const MAX_FLOWS := 8192

  datatype Member = Member(ip: Addr, mac: seq<byte>, expires: int)

  /** The policy fields of the device. expires is None for the zero time; tcp and udp are the
      ports whose table entry is true. */
  datatype Rules = Rules(expires: Option<int>, enabled: bool, broadcast: bool, multicast: bool,
                         tcp: set<int>, udp: set<int>, etherTypes: set<int>, broadcastIP: Addr)

  datatype Flow = Flow(src: Addr, dst: Addr, srcPort: nat, dstPort: nat, proto: byte)

  function Reverse(f: Flow): Flow {
    Flow(f.dst, f.src, f.dstPort, f.srcPort, f.proto)
  }

  function OpenPorts(r: Rules, proto: byte): set<int> {
    if proto == UDP then r.udp else r.tcp
  }

  function LanIPv6(ip: Addr): Addr
    requires IsV4(ip)
  {
    V6([0xfd, 0x4e, 0x4c, 0x52, 0, 0, 0, 0, 0, 0, 0, 0] + ip.octets)
  }

  /** m ^ 2 */
  function FlipLocal(m: byte): byte {
    if Flag(m, 2) then m - 2 else m + 2
  }

  function LinkLocal(mac: seq<byte>): Addr
    requires |mac| == 6
  {
    V6([0xfe, 0x80, 0, 0, 0, 0, 0, 0, FlipLocal(mac[0]), mac[1], mac[2], 0xff, 0xfe, mac[3], mac[4], mac[5]])
  }

  predicate Complete(m: Member) {
    IsV4(m.ip) && |m.mac| == 6
  }

  predicate Owns(m: Member, ip: Addr)
    requires Complete(m)
  {
    ip == m.ip || ip == LanIPv6(m.ip) || ip == LinkLocal(m.mac)
  }

  predicate Active(r: Rules, m: Member, now: int) {
    Complete(m) && now < m.expires && r.expires.Some? && now < r.expires.value
  }

  function Unmap(ip: Addr): Addr {
    if ip.V6? && |ip.octets| == 16 && ip.octets[..12] == [0, 0, 0, 0, 0, 0, 0, 0, 0, 0, 0xff, 0xff] then
      V4(ip.octets[12..])
    else ip
  }

  predicate IsMulticast(ip: Addr) {
    var a := Unmap(ip);
    !a.NoAddr? && |a.octets| > 0 && if a.V4? then 224 <= a.octets[0] < 240 else a.octets[0] == 0xff
  }

  predicate IsUnspecified(ip: Addr) {
    ip == V4([0, 0, 0, 0]) || ip == V6([0, 0, 0, 0, 0, 0, 0, 0, 0, 0, 0, 0, 0, 0, 0, 0])
  }

  predicate IsGroup(r: Rules, ip: Addr) {
    IsMulticast(ip) || ip == V4([255, 255, 255, 255]) || ip == r.broadcastIP
  }

  predicate ValidIcmp(b: seq<byte>) {
    |b| >= 8 && (b[0] == 0 || b[0] == 3 || b[0] == 8 || b[0] == 11 || b[0] == 12)
  }

  // ---------------------------------------------------------------- link and network checks

  datatype Verdict = Deny | Allow | Transport(packet: Packet)

  const BROADCAST: seq<byte> := [255, 255, 255, 255, 255, 255]

  predicate ToBroadcast(frame: seq<byte>)
    requires |frame| >= 14
  {
    frame[..6] == BROADCAST
  }

  predicate ToMulticast(frame: seq<byte>)
    requires |frame| >= 14
  {
    Flag(frame[0], 1) && !ToBroadcast(frame)
  }

  predicate ArpAllowed(b: seq<byte>, source: Member, target: Member) {
    && |b| >= 28 && Get(b[..2]) == 1 && Get(b[2..4]) == 0x0800 && b[4] == 6 && b[5] == 4 && b[8..14] == source.mac
    && var op, src, dst := Get(b[6..8]), V4(b[14..18]), V4(b[24..28]);
    && (op == 1 || op == 2)
    && (src == source.ip || (IsUnspecified(src) && op == 1))
    && (dst == target.ip || dst == source.ip)
  }

  /** The MAC made up for an address of the infrastructure. */
  function NodeMac(a: Addr): (m: seq<byte>)
    requires IsV4(a)
    ensures |m| == 6
  {
    [2, 0x4e] + a.octets
  }

  /** diagnostic: an ICMP packet of this host to a node leaves as it is. */
  function OutboundDiagnostic(frame: seq<byte>, nodes: set<Addr>, own: Addr, mac: seq<byte>): Option<seq<byte>> {
    if |frame| < 14 || Get(frame[12..14]) != 0x0800 then None
    else
      var p := Parse(frame[14..]);
      if p.None? || p.value.src != own || p.value.fragmented || frame[6..12] != mac || p.value.dst !in nodes then None
      else if p.value.proto == 1 && ValidIcmp(p.value.data) then Option.Some(frame[14..])
      else None
  }

  /** This host asks by ARP for the address of a node. */
  predicate AsksForNode(frame: seq<byte>, nodes: set<Addr>, own: Addr, mac: seq<byte>) {
    && |frame| >= 42 && Get(frame[12..14]) == 0x0806
    && Get(frame[14..16]) == 1 && Get(frame[16..18]) == 0x0800 && frame[18] == 6 && frame[19] == 4
       && Get(frame[20..22]) == 1
    && frame[22..28] == mac && V4(frame[28..32]) == own && V4(frame[38..42]) in nodes
  }

  /** An ARP reply from the node to this host, behind the fixed head of the request. */
  function ArpBody(head: seq<byte>, node: Addr, own: Addr, mac: seq<byte>): (b: seq<byte>)
    requires |head| == 6 && IsV4(node) && IsV4(own) && |mac| == 6
    ensures |b| == 28
  {
    head + Put(2, 2) + NodeMac(node) + node.octets + mac + own.octets
  }

  /** Written over field by field, a request becomes the reply. */
  lemma ArpOverwritten(b: seq<byte>, node: Addr, own: Addr, mac: seq<byte>)
    requires |b| == 28 && IsV4(node) && IsV4(own) && |mac| == 6
    ensures Splice(Splice(Splice(Splice(Splice(b, 6, Put(2, 2)), 18, mac), 24, own.octets), 8, NodeMac(node)), 14,
            node.octets)
            == ArpBody(b[..6], node, own, mac)
  {
    var r1 := Splice(b, 6, Put(2, 2));
    assert r1 == b[..6] + Put(2, 2) + b[8..];
    var r2 := Splice(r1, 18, mac);
    assert r2 == b[..6] + Put(2, 2) + b[8..18] + mac + b[24..];
    var r3 := Splice(r2, 24, own.octets);
    assert r3 == b[..6] + Put(2, 2) + b[8..18] + mac + own.octets;
    var r4 := Splice(r3, 8, NodeMac(node));
    assert r4 == b[..6] + Put(2, 2) + NodeMac(node) + b[14..18] + mac + own.octets;
  }

  /** nodeARP: what this host is answered in the name of the node. */
  function NodeArp(frame: seq<byte>, nodes: set<Addr>, own: Addr, mac: seq<byte>): (r: Option<seq<byte>>)
    requires IsV4(own) && |mac| == 6
  {
    if !AsksForNode(frame, nodes, own, mac) then None
    else
      var ip := V4(frame[38..42]);
      Option.Some(Ethernet(NodeMac(ip), mac, 0x0806, ArpBody(frame[14..20], ip, own, mac)))
  }

  lemma ArpBodyParts(head: seq<byte>, node: Addr, own: Addr, mac: seq<byte>)
    requires |head| == 6 && IsV4(node) && IsV4(own) && |mac| == 6
    ensures var b := ArpBody(head, node, own, mac);
            && b[0..2] == head[..2] && b[2..4] == head[2..4] && b[4] == head[4] && b[5] == head[5]
               && b[6..8] == Put(2, 2)
            && b[8..14] == NodeMac(node) && b[14..18] == node.octets && b[18..24] == mac && b[24..28] == own.octets
  {
  }

  lemma EthernetPart(src: seq<byte>, dst: seq<byte>, typ: nat, payload: seq<byte>, i: nat, j: nat)
    requires |src| == |dst| == 6 && i <= j <= |payload|
    ensures Ethernet(src, dst, typ, payload)[14 + i..14 + j] == payload[i..j]
  {
  }

  lemma SlicePart(b: seq<byte>, i: nat, j: nat, k: nat, l: nat)
    requires i <= j <= |b| && k <= l <= j - i
    ensures b[i..j][k..l] == b[i + k..i + l]
  {
    assert |b[i..j][k..l]| == l - k == |b[i + k..i + l]|;
    forall m | 0 <= m < l - k
      ensures b[i..j][k..l][m] == b[i + k..i + l][m]
    {
    }
  }

  lemma EthernetHead(src: seq<byte>, dst: seq<byte>, typ: nat, payload: seq<byte>)
    requires |src| == |dst| == 6 && typ < 65536
    ensures var f := Ethernet(src, dst, typ, payload); f[..6] == dst && f[6..12] == src && Get(f[12..14]) == typ
  {
    assert Ethernet(src, dst, typ, payload)[12..14] == Put(typ, 2);
    GetPut(typ, 2);
  }

  /** Octet by octet it is an ARP reply to this host and nobody else, from a node of the
      publication that was asked for. */
  lemma NodeArpAnswers(frame: seq<byte>, nodes: set<Addr>, own: Addr, mac: seq<byte>)
    requires IsV4(own) && |mac| == 6 && NodeArp(frame, nodes, own, mac).Some?
    ensures var f, node := NodeArp(frame, nodes, own, mac).value, V4(frame[38..42]);
            && node in nodes && |f| == 42 && f[..6] == mac && f[6..12] == NodeMac(node) && Get(f[12..14]) == 0x0806
            && Get(f[14..16]) == 1 && Get(f[16..18]) == 0x0800 && Get(f[20..22]) == 2
            && f[22..28] == NodeMac(node) && V4(f[28..32]) == node && f[32..38] == mac && V4(f[38..42]) == own
  {
    var node := V4(frame[38..42]);
    var head, body := frame[14..20], ArpBody(frame[14..20], node, own, mac);
    EthernetHead(NodeMac(node), mac, 0x0806, body);
    ArpBodyParts(head, node, own, mac);
    EthernetPart(NodeMac(node), mac, 0x0806, body, 0, 2);
    EthernetPart(NodeMac(node), mac, 0x0806, body, 2, 4);
    EthernetPart(NodeMac(node), mac, 0x0806, body, 6, 8);
    EthernetPart(NodeMac(node), mac, 0x0806, body, 8, 14);
    EthernetPart(NodeMac(node), mac, 0x0806, body, 14, 18);
    EthernetPart(NodeMac(node), mac, 0x0806, body, 18, 24);
    EthernetPart(NodeMac(node), mac, 0x0806, body, 24, 28);
    SlicePart(frame, 14, 20, 0, 2);
    SlicePart(frame, 14, 20, 2, 4);
    GetPut(2, 2);
  }

  predicate OtherTypeAllowed(r: Rules, frame: seq<byte>, typ: nat)
    requires |frame| >= 14
  {
    && !(ToBroadcast(frame) && !r.broadcast) && !(ToMulticast(frame) && !r.multicast)
    && if typ <= 1500 then
         && typ <= |frame| - 14 && typ != 0
         && !(|frame| >= 22 && frame[14..20] == [0xaa, 0xaa, 3, 0, 0, 0]
              && Get(frame[20..22]) in {0x0800, 0x0806, 0x86dd, 0x8100, 0x88a8})
         && 0 in r.etherTypes
       else typ in r.etherTypes
  }

  /** Every neighbour-discovery option is well formed and names only the sender's MAC. */
  predicate NdOptions(b: seq<byte>, mac: seq<byte>) {
    if b == [] then true
    else
      |b| >= 2 && b[1] != 0 && b[1] as int * 8 <= |b|
      && ((b[0] == 1 || b[0] == 2) ==> b[1] == 1 && b[2..8] == mac)
      && NdOptions(b[b[1] as int * 8..], mac)
  }

  predicate NdAllowed(frame: seq<byte>, p: Packet, source: Member, target: Member)
    requires Complete(source) && Complete(target) && |frame| >= 54 && |p.data| >= 24
  {
    && frame[21] == 255 && p.data[1] == 0
    && var subject := V6(p.data[8..24]);
    && !(p.data[0] == 136 && !Owns(source, subject))
    && !(p.data[0] == 135 && !Owns(target, subject) && !Owns(source, subject))
    && NdOptions(p.data[24..], source.mac)
  }

  predicate IsNd(p: Packet) {
    p.proto == 58 && !p.fragmented && |p.data| >= 24 && (p.data[0] == 135 || p.data[0] == 136)
  }

  /** Duplicate address detection: the one case in which the source address is not the sender's. */
  predicate IsProbe(p: Packet) {
    IsNd(p) && p.data[0] == 135 && IsUnspecified(p.src)
  }

  /** permitted, up to the point where the transport header is needed. */
  function Inspect(r: Rules, frame: seq<byte>, source: Member, target: Member, now: int): (v: Verdict)
  {
    if |frame| < 14 || |frame| > MAX_FRAME || !Active(r, source, now) || !Active(r, target, now)
       || frame[6..12] != source.mac then Deny
    else if !ToBroadcast(frame) && !ToMulticast(frame) && frame[..6] != target.mac then Deny
    else
      var typ := Get(frame[12..14]);
      if typ == 0x0806 then if ArpAllowed(frame[14..], source, target) then Allow else Deny
      else if !r.enabled then Deny
      else if typ != 0x0800 && typ != 0x86dd then if OtherTypeAllowed(r, frame, typ) then Allow else Deny
      else InspectIP(r, frame, Parse(frame[14..]), typ == 0x0800, source, target)
  }

  function InspectIP(r: Rules, frame: seq<byte>, parsed: Option<Packet>, four: bool, source: Member,
      target: Member): (v: Verdict)
    requires |frame| >= 14 && parsed == Parse(frame[14..])
    requires Complete(source) && Complete(target)
  {
    if parsed.None? || four != parsed.value.src.V4? then Deny
    else
      var p := parsed.value;
      if !Owns(source, p.src) && !IsProbe(p) then Deny
      else if IsGroup(r, p.dst) && ((!ToBroadcast(frame) && !ToMulticast(frame))
              || (!IsNd(p) && ((ToBroadcast(frame) && !r.broadcast) || (ToMulticast(frame) && !r.multicast)))) then Deny
      else if !IsGroup(r, p.dst) && (!Owns(target, p.dst) || ToBroadcast(frame) || ToMulticast(frame)) then Deny
      else if IsNd(p) then if |frame| >= 54 && NdAllowed(frame, p, source, target) then Allow else Deny
      else if p.proto == 58 && !p.fragmented && |p.data| >= 8
              && (1 <= p.data[0] <= 4 || p.data[0] == 128 || p.data[0] == 129) then Allow
      else if p.proto == 1 && !p.fragmented && ValidIcmp(p.data) then Allow
      else if p.proto != TCP && p.proto != UDP then Deny
      else Transport(p)
  }

  // ---------------------------------------------------------------- transport

  datatype State = State(frags: Table, flows: map<Flow, int>, sweep: int)

  function Ttl(proto: byte): int {
    if proto == TCP then 300 * SECOND else 30 * SECOND
  }

  function LiveFlows(flows: map<Flow, int>, now: int): (r: map<Flow, int>) {
    map k | k in flows && now < flows[k] :: flows[k]
  }

  /** A whole UDP datagram or a TCP segment with a sane header length. */
  predicate GoodTransport(p: Packet) {
    && |p.data| >= 8
    && (p.proto == UDP ==> Get(p.data[4..6]) == |p.data|)
    && (p.proto == TCP ==> |p.data| >= 20 && 20 <= p.data[12] as int / 16 * 4 <= |p.data|)
  }

  function FlowOf(p: Packet, source: Member, target: Member): Flow
    requires |p.data| >= 8
  {
    Flow(source.ip, target.ip, Get(p.data[..2]), Get(p.data[2..4]), p.proto)
  }

  /** Open by the port table, or answering a live flow. */
  predicate Admits(r: Rules, flows: map<Flow, int>, f: Flow, now: int) {
    f.dstPort in OpenPorts(r, f.proto) || (f in flows && now < flows[f])
  }

  /** The flow table after a frame of flow f was admitted. */
  function Remember(flows: map<Flow, int>, sweep: int, f: Flow, now: int): (r: (map<Flow, int>, int)) {
    var swept, sweep' := if !(now < sweep) then LiveFlows(flows, now) else flows,
                         if !(now < sweep) then now + SECOND else sweep;
    var back := Reverse(f);
    if back in swept || |swept| < MAX_FLOWS then (swept[back := now + Ttl(f.proto)], sweep') else (swept, sweep')
  }

  lemma RememberFacts(flows: map<Flow, int>, sweep: int, f: Flow, now: int)
    requires |flows| <= MAX_FLOWS
    ensures var r := Remember(flows, sweep, f, now).0;
            && |r| <= MAX_FLOWS
            && forall k <- r :: (k == Reverse(f) && r[k] == now + Ttl(f.proto)) || (k in flows && r[k] == flows[k])
  {
    var swept := if !(now < sweep) then LiveFlows(flows, now) else flows;
    CardLe(swept.Keys, flows.Keys);
    var back := Reverse(f);
    assert swept[back := now + Ttl(f.proto)].Keys == swept.Keys + {back};
  }

  datatype Outcome = Blocked | Passed(frames: seq<seq<byte>>, flow: Option<Flow>)

  function TransportStep(r: Rules, s: State, p: Packet, frame: seq<byte>, source: Member, target: Member,
      now: int): (o: (State, Outcome))
    requires Valid(s.frags) && Usable(p) && |frame| <= MAX_FRAME
  {
    var (frags, d) := Defrag(s.frags, p, frame, target.ip, now);
    var s' := s.(frags := frags);
    if d.Hold? || !GoodTransport(d.packet) then (s', Blocked)
    else
      var f := FlowOf(d.packet, source, target);
      if !Admits(r, s.flows, f, now) then (s', Blocked)
      else
        var (flows, sweep) := Remember(s.flows, s.sweep, f, now);
        (State(frags, flows, sweep), Passed(d.frames, Option.Some(f)))
  }

  /** permitted as a function of the tables. */
  function Permit(r: Rules, s: State, frame: seq<byte>, source: Member, target: Member, now: int): (o: (State, Outcome))
    requires Valid(s.frags)
  {
    match Inspect(r, frame, source, target, now)
    case Deny => (s, Blocked)
    case Allow => (s, Passed([frame], None))
    case Transport(p) =>
      InspectUsable(r, frame, source, target, now);
      TransportStep(r, s, p, frame, source, target, now)
  }

  lemma InspectUsable(r: Rules, frame: seq<byte>, source: Member, target: Member, now: int)
    requires Inspect(r, frame, source, target, now).Transport?
    ensures var p := Inspect(r, frame, source, target, now).packet;
            Usable(p) && (p.proto == TCP || p.proto == UDP) && |frame| <= MAX_FRAME
  {
  }

  lemma PassedFacts(r: Rules, s: State, frame: seq<byte>, source: Member, target: Member, now: int)
    requires Valid(s.frags)
    ensures var o := Permit(r, s, frame, source, target, now).1;
            o.Passed? ==> IsV4(target.ip) && forall f <- o.frames :: |f| <= MAX_FRAME
  {
    var v := Inspect(r, frame, source, target, now);
    if v.Transport? {
      InspectUsable(r, frame, source, target, now);
      DefragKeepsValid(s.frags, v.packet, frame, target.ip, now);
    }
  }

  // ---------------------------------------------------------------- the gate

  class Gate {
    const table: FragmentTable
    var flows: map<Flow, int>
    var sweep: int

    constructor (sweep: int)
      ensures Valid() && Contents() == State(map[], map[], sweep) && fresh(table)
    {
      table := new FragmentTable();
      flows := map[];
      this.sweep := sweep;
    }

    function Contents(): State
      reads this, table
    {
      State(table.sets, flows, sweep)
    }

    /** Both tables are sound and bounded. */
    ghost predicate Valid()
      reads this, table
    {
      Fragments.Valid(table.sets) && |flows| <= MAX_FLOWS
    }

    /** The loop that runs at most once a second. */
    method SweepFlows(now: int)
      modifies `flows
      ensures flows == LiveFlows(old(flows), now)
    {
      var keys := flows.Keys;
      while keys != {}
        invariant keys <= flows.Keys
        invariant forall k :: k in flows <==> k in old(flows) && (k in keys || now < old(flows)[k])
        invariant forall k <- flows :: flows[k] == old(flows)[k]
        decreases |keys|
      {
        var k :| k in keys;
        keys := keys - {k};
        if !(now < flows[k]) {
          flows := flows - {k};
        }
      }
    }

    method Permitted(r: Rules, frame: seq<byte>, source: Member, target: Member, now: int)
        returns (frames: seq<seq<byte>>, ghost o: Outcome)
      requires Valid()
      modifies this, table
      ensures Valid()
      ensures (Contents(), o) == Permit(r, old(Contents()), frame, source, target, now)
      ensures frames == if o.Passed? then o.frames else []
    {
      frames, o := [], Blocked;
      var verdict := Inspect(r, frame, source, target, now);
      if verdict.Deny? {
        return;
      }
      if verdict.Allow? {
        return [frame], Passed([frame], None);
      }
      InspectUsable(r, frame, source, target, now);
      frames, o := Carry(r, verdict.packet, frame, source, target, now);
    }

    /** From defragmentation to the flow table. */
    method Carry(r: Rules, packet: Packet, frame: seq<byte>, source: Member, target: Member, now: int)
        returns (frames: seq<seq<byte>>, ghost o: Outcome)
      requires Valid() && Usable(packet) && |frame| <= MAX_FRAME
      modifies this, table
      ensures Valid()
      ensures (Contents(), o) == TransportStep(r, old(Contents()), packet, frame, source, target, now)
      ensures frames == if o.Passed? then o.frames else []
    {
      frames, o := [], Blocked;
      var p, whole, ok := table.Defragment(packet, frame, target.ip, now);
      if ok {
        frames, o := Admit(r, p, whole, source, target, now);
      }
    }

    /** The transport header, the ports or the reply flow, and the flow table. */
    method Admit(r: Rules, p: Packet, whole: seq<seq<byte>>, source: Member, target: Member, now: int)
        returns (frames: seq<seq<byte>>, ghost o: Outcome)
      requires |flows| <= MAX_FLOWS
      modifies `flows, `sweep
      ensures |flows| <= MAX_FLOWS
      ensures if GoodTransport(p) && Admits(r, old(flows), FlowOf(p, source, target), now) then
                && (flows, sweep) == Remember(old(flows), old(sweep), FlowOf(p, source, target), now)
                && frames == whole && o == Passed(whole, Option.Some(FlowOf(p, source, target)))
              else flows == old(flows) && sweep == old(sweep) && frames == [] && o == Blocked
    {
      frames, o := [], Blocked;
      if |p.data| < 8 {
        return;
      }
      if p.proto == UDP && Get(p.data[4..6]) != |p.data| {
        return;
      }
      if p.proto == TCP && (|p.data| < 20 || p.data[12] as int / 16 * 4 < 20 || p.data[12] as int / 16 * 4 > |p.data|) {
        return;
      }
      var f := FlowOf(p, source, target);
      if f.dstPort !in OpenPorts(r, f.proto) && !(f in flows && now < flows[f]) {
        return;
      }
      Note(f, now);
      frames, o := whole, Passed(whole, Option.Some(f));
    }

    /** Sweeps when due, then opens or prolongs the reply flow if there is room. */
    method Note(f: Flow, now: int)
      requires |flows| <= MAX_FLOWS
      modifies `flows, `sweep
      ensures |flows| <= MAX_FLOWS && (flows, sweep) == Remember(old(flows), old(sweep), f, now)
    {
      RememberFacts(flows, sweep, f, now);
      if !(now < sweep) {
        SweepFlows(now);
        sweep := now + SECOND;
      }
      var back := Reverse(f);
      if back in flows || |flows| < MAX_FLOWS {
        flows := flows[back := now + Ttl(f.proto)];
      }
    }
  }
}
