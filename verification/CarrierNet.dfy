/**
 * The carrier end to end: hosts that queue frames, restart and change their policy, a network that loses,
 * repeats and reorders their packets, and one host that writes whatever arrives.
 */
module CarrierNet {
  import opened Bytes
  import opened Carrier
  import opened CarrierRuns
  import opened Packet
  import Device
  import Policy

  /** What a process queues with, and how many frames it has queued. */
  datatype Host = Host(origin: Origin, count: nat)

  datatype Sent = Sent(frame: seq<byte>, to: Addr)

  /** The receiving host: its address, the policy in force, and its tables. */
  datatype Receiving = Receiving(ip: Addr, revision: nat, room: seq<byte>, tables: State)

  /** sent is what was queued under which number, wire every packet that was ever cut. */
  datatype Net = Net(hosts: map<Addr, Host>, epochs: set<(Addr, nat)>, sent: map<FrameKey, Sent>, wire: set<seq<byte>>,
      rx: Receiving)

  /**
   * Boot starts a process with a new random epoch; Renew is an update of a sender's policy; Queue cuts a frame
   * into packets; Arrive brings any packet of the wire to the receiver, from a member that is active or not;
   * Revise and Forget are the updates of the receiver that clear its tables.
   */
  datatype Event =
    | Boot(ip: Addr, epoch: nat, revision: nat, room: seq<byte>)
    | Renew(ip: Addr, revision: nat, room: seq<byte>, generation: nat)
    | Queue(ip: Addr, frame: seq<byte>, peer: Policy.Member)
    | Arrive(packet: seq<byte>, active: bool, now: int)
    | Revise(revision: nat, room: seq<byte>)
    | Forget

  predicate Enabled(s: Net, e: Event) {
    match e
    case Boot(ip, epoch, revision, room) => IsV4(ip) && epoch < WORD && (ip, epoch) !in s.epochs && revision < WORD
      && |room| == 16
    case Renew(ip, revision, room, _) => ip in s.hosts && revision < WORD && |room| == 16
    case Queue(ip, frame, peer) => ip in s.hosts && IsV4(peer.ip) && 14 <= |frame| <= MAX_FRAME
      && s.hosts[ip].count + 1 < WORD
    case Arrive(packet, _, _) => packet in s.wire
    case _ => true
  }

  /** The chunk that Write reads out of a packet, and its sender. */
  function Heard(rx: Receiving, packet: seq<byte>, active: bool): (r: Option<(Addr, Chunk)>)
    ensures r.Some? ==> GoodChunk(r.value.1)
  {
    var p := Parse(packet);
    if p.None? || !IsV4(p.value.src) || p.value.dst != rx.ip || p.value.fragmented || !active then None
    else
      var c := Decode(p.value, rx.revision, rx.room);
      if c.None? then None else Option.Some((p.value.src, c.value))
  }

  /** Write: the tables, and the frame if one is complete. */
  function Written(rx: Receiving, packet: seq<byte>, active: bool, now: int): (r: (State, Option<seq<byte>>))
    requires Valid(rx.tables)
    ensures Valid(r.0)
  {
    var heard := Heard(rx, packet, active);
    if heard.None? then (rx.tables, None)
    else
      ReceiveKeepsValid(rx.tables, heard.value.0, heard.value.1, now);
      Receive(rx.tables, heard.value.0, heard.value.1, now)
  }

  /** It is what the device reads out of it. */
  lemma HeardByDevice(d: Device.Device, b: seq<byte>, now: int)
    requires d.Valid() && d.Sort(b, now).Carried?
    ensures Heard(Receiving(d.ip, d.revision, d.room, d.receiver.Contents()), b, true)
            == Option.Some((d.Sort(b, now).peer.ip, d.Sort(b, now).chunk))
  {
  }

  function PacketSet(items: seq<Pending>): set<seq<byte>> {
    set i | 0 <= i < |items| :: items[i].packet
  }

  function Do(s: Net, e: Event): (t: Net)
    requires Enabled(s, e) && Valid(s.rx.tables) && forall ip <- s.hosts :: IsV4(s.hosts[ip].origin.ip)
    ensures Valid(t.rx.tables) && forall ip <- t.hosts :: IsV4(t.hosts[ip].origin.ip)
  {
    match e
    case Boot(ip, epoch, revision, room) =>
      s.(hosts := s.hosts[ip := Host(Origin(ip, epoch, revision, room, 0), 0)], epochs := s.epochs + {(ip, epoch)})
    case Renew(ip, revision, room, generation) =>
      var h := s.hosts[ip];
      s.(hosts := s.hosts[ip := h.(origin := h.origin.(revision := revision, room := room, generation := generation))])
    case Queue(ip, frame, peer) =>
      var d, n := s.hosts[ip].origin, s.hosts[ip].count + 1;
      s.(hosts := s.hosts[ip := Host(d, n)], sent := s.sent[FrameKey(d.ip, d.epoch, n) := Sent(frame, peer.ip)],
         wire := s.wire + PacketSet(Packets(d, frame, n, peer, 0)))
    case Arrive(packet, active, now) => s.(rx := s.rx.(tables := Written(s.rx, packet, active, now).0))
    case Revise(revision, room) =>
      s.(rx := s.rx.(revision := revision, room := room, tables := if revision == s.rx.revision then s.rx.tables
        else EMPTY_STATE))
    case Forget => s.(rx := s.rx.(tables := s.rx.tables.(frames := map[])))
  }

  function Start(ip: Addr): Net {
    Net(map[], {}, map[], {}, Receiving(ip, 0, [], EMPTY_STATE))
  }

  /** Events that are not enabled do nothing. */
  function After(ip: Addr, es: seq<Event>): (s: Net)
    ensures Valid(s.rx.tables) && forall a <- s.hosts :: IsV4(s.hosts[a].origin.ip)
  {
    if es == [] then Start(ip)
    else
      var s, e := After(ip, es[..|es| - 1]), es[|es| - 1];
      if Enabled(s, e) then Do(s, e) else s
  }

  // ---------------------------------------------------------------- the invariant

  /** A packet carries a chunk of a frame that its host queued under its number for its destination. */
  predicate CutFrom(packet: seq<byte>, d: Origin, n: nat, peer: Policy.Member, i: nat, sent: map<FrameKey, Sent>) {
    var key := FrameKey(d.ip, d.epoch, n);
    && IsV4(d.ip) && IsV4(peer.ip) && |d.room| == 16 && d.epoch < WORD && d.revision < WORD && n < WORD
    && key in sent && sent[key].to == peer.ip && 14 <= |sent[key].frame| <= MAX_FRAME
    && i < |Packets(d, sent[key].frame, n, peer, 0)| && packet == Packets(d, sent[key].frame, n, peer, 0)[i].packet
  }

  ghost predicate Authentic(packet: seq<byte>, sent: map<FrameKey, Sent>) {
    exists d, n, peer, i :: CutFrom(packet, d, n, peer, i, sent)
  }

  function FramesOf(sent: map<FrameKey, Sent>): map<FrameKey, seq<byte>> {
    map k | k in sent :: sent[k].frame
  }

  /** Numbers are used once: those of a host's epoch up to its count, and none of an epoch not begun. */
  predicate Numbered(s: Net) {
    && (forall ip <- s.hosts :: var d := s.hosts[ip].origin;
          d.ip == ip && (ip, d.epoch) in s.epochs && d.epoch < WORD && d.revision < WORD && |d.room| == 16)
    && (forall k <- s.sent :: (k.peer, k.epoch) in s.epochs)
    && (forall k <- s.sent :: k.peer in s.hosts && k.epoch == s.hosts[k.peer].origin.epoch ==>
       k.seqno <= s.hosts[k.peer].count)
  }

  ghost predicate Inv(s: Net) {
    Numbered(s) && (forall p <- s.wire :: Authentic(p, s.sent)) && Faithful(s.rx.tables, FramesOf(s.sent))
  }

  lemma AuthenticLonger(packet: seq<byte>, sent: map<FrameKey, Sent>, key: FrameKey, v: Sent)
    requires Authentic(packet, sent) && key !in sent
    ensures Authentic(packet, sent[key := v])
  {
    var d, n, peer, i :| CutFrom(packet, d, n, peer, i, sent);
    assert CutFrom(packet, d, n, peer, i, sent[key := v]);
  }

  lemma FaithfulLonger(s: State, sent: map<FrameKey, Sent>, key: FrameKey, v: Sent)
    requires Faithful(s, FramesOf(sent)) && key !in sent
    ensures Faithful(s, FramesOf(sent[key := v]))
  {
    forall k | k in s.frames
      ensures k in sent[key := v] && Partial(s.frames[k], FramesOf(sent[key := v])[k])
    {
      assert k in FramesOf(sent);
    }
  }

  lemma QueueKeeps(s: Net, e: Event)
    requires Inv(s) && Valid(s.rx.tables) && (forall ip <- s.hosts :: IsV4(s.hosts[ip].origin.ip)) && Enabled(s, e)
             && e.Queue?
    ensures Inv(Do(s, e))
  {
    var t, d, n := Do(s, e), s.hosts[e.ip].origin, s.hosts[e.ip].count + 1;
    var key := FrameKey(d.ip, d.epoch, n);
    assert key !in s.sent;
    FaithfulLonger(s.rx.tables, s.sent, key, Sent(e.frame, e.peer.ip));
    forall p | p in t.wire
      ensures Authentic(p, t.sent)
    {
      if p in s.wire {
        AuthenticLonger(p, s.sent, key, Sent(e.frame, e.peer.ip));
      } else {
        NewIsAuthentic(p, d, n, e.peer, e.frame, t.sent);
      }
    }
  }

  lemma NewIsAuthentic(p: seq<byte>, d: Origin, n: nat, peer: Policy.Member, frame: seq<byte>,
      sent: map<FrameKey, Sent>)
    requires IsV4(d.ip) && IsV4(peer.ip) && |d.room| == 16 && d.epoch < WORD && d.revision < WORD && n < WORD
    requires FrameKey(d.ip, d.epoch, n) in sent && sent[FrameKey(d.ip, d.epoch, n)] == Sent(frame, peer.ip)
    requires 14 <= |frame| <= MAX_FRAME && p in PacketSet(Packets(d, frame, n, peer, 0))
    ensures Authentic(p, sent)
  {
    var items := Packets(d, frame, n, peer, 0);
    var i :| 0 <= i < |items| && items[i].packet == p;
    assert CutFrom(p, d, n, peer, i, sent);
  }

  /** Whatever policy the receiver has, it reads the chunk that was sent, or nothing. */
  lemma DecodeOnly(p: Packet, revision: nat, room: seq<byte>, revision': nat, room': seq<byte>)
    requires Decode(p, revision, room).Some? && Decode(p, revision', room').Some?
    ensures Decode(p, revision, room) == Decode(p, revision', room')
  {
  }

  lemma HeardIsHonest(s: Net, packet: seq<byte>, active: bool, now: int)
    requires Authentic(packet, s.sent) && Heard(s.rx, packet, active).Some?
    ensures var (peer, c) := Heard(s.rx, packet, active).value;
            && Honest(CarrierRuns.Arrive(peer, c, now), FramesOf(s.sent))
            && s.sent[FrameKey(peer, c.epoch, c.seqno)].to == s.rx.ip
  {
    var d, n, peer, i :| CutFrom(packet, d, n, peer, i, s.sent);
    var frame := s.sent[FrameKey(d.ip, d.epoch, n)].frame;
    QueuedPacketDecodes(d, frame, n, peer, i);
    DecodeOnly(Parse(packet).value, d.revision, d.room, s.rx.revision, s.rx.room);
  }

  lemma ArriveKeeps(s: Net, e: Event)
    requires Inv(s) && Valid(s.rx.tables) && Enabled(s, e) && e.Arrive?
    ensures Faithful(Written(s.rx, e.packet, e.active, e.now).0, FramesOf(s.sent))
    ensures var r := Written(s.rx, e.packet, e.active, e.now).1;
            r.Some? ==> Heard(s.rx, e.packet, e.active).Some?
                        && var (peer, c) := Heard(s.rx, e.packet, e.active).value;
                           var key := FrameKey(peer, c.epoch, c.seqno);
                           key in s.sent && s.sent[key] == Sent(r.value, s.rx.ip)
  {
    var heard := Heard(s.rx, e.packet, e.active);
    if heard.Some? {
      HeardIsHonest(s, e.packet, e.active, e.now);
      ReceiveFaithful(s.rx.tables, heard.value.0, heard.value.1, e.now, FramesOf(s.sent));
    }
  }

  lemma StepKeeps(s: Net, e: Event)
    requires Inv(s) && Valid(s.rx.tables) && (forall ip <- s.hosts :: IsV4(s.hosts[ip].origin.ip)) && Enabled(s, e)
    ensures Inv(Do(s, e))
  {
    match e
    case Queue(_, _, _) => QueueKeeps(s, e);
    case Arrive(_, _, _) => ArriveKeeps(s, e);
    case _ =>
  }

  lemma {:induction false} AlwaysInv(ip: Addr, es: seq<Event>)
    ensures Inv(After(ip, es))
  {
    if es != [] {
      var s, e := After(ip, es[..|es| - 1]), es[|es| - 1];
      AlwaysInv(ip, es[..|es| - 1]);
      if Enabled(s, e) {
        StepKeeps(s, e);
      }
    }
  }

  // ---------------------------------------------------------------- the main result

  /** The frame that Write completes with event i. */
  function DeliveredAt(ip: Addr, es: seq<Event>, i: nat): Option<seq<byte>>
    requires i < |es|
  {
    var s := After(ip, es[..i]);
    if es[i].Arrive? && Enabled(s, es[i]) then Written(s.rx, es[i].packet, es[i].active, es[i].now).1 else None
  }

  /** End to end: over every run of restarts, policy updates at either end, loss, repetition and reordering,
      a frame that the receiver completes is, octet for octet, one that a host queued for it, under the
      address, the epoch and the number that the packet names. */
  lemma DeliveredWasQueued(ip: Addr, es: seq<Event>, i: nat)
    requires i < |es| && DeliveredAt(ip, es, i).Some?
    ensures var s := After(ip, es[..i]);
            && Heard(s.rx, es[i].packet, es[i].active).Some?
            && var (peer, c) := Heard(s.rx, es[i].packet, es[i].active).value;
               var key := FrameKey(peer, c.epoch, c.seqno);
               key in s.sent && s.sent[key] == Sent(DeliveredAt(ip, es, i).value, ip)
  {
    AlwaysInv(ip, es[..i]);
    SameReceiver(ip, es[..i]);
    ArriveKeeps(After(ip, es[..i]), es[i]);
  }

  lemma {:induction false} SameReceiver(ip: Addr, es: seq<Event>)
    ensures After(ip, es).rx.ip == ip
  {
    if es != [] {
      SameReceiver(ip, es[..|es| - 1]);
    }
  }
}
