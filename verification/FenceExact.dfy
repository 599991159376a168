/** Exactly what each step of the fence lets out, and that an undisturbed frame gets through. */
module FenceExact {
  import opened Bytes
  import opened Packet
  import opened Policy
  import opened InspectExact
  import opened Fence
  import PolicyRuns

  /** The address is that of a member who is present under the publication. */
  predicate Stays(p: Publication, a: Addr, now: int) {
    a in p.members && Present(p.rules, p.members[a], now)
  }

  /** Under the write lock a frame is cleared exactly when it was permitted under the generation in force and this host
      is a present member; otherwise it is dropped and the lock is free. */
  lemma CheckedExactly(s: World, id: nat, now: int)
    requires Enabled(s, Check(id, now))
    ensures var x := Do(s, Check(id, now));
            if s.flights[id].generation == s.origin.generation && Stays(s.current, s.origin.ip, now) then
              x == s.(flights := s.flights[id := s.flights[id].(stage := Cleared)])
            else x == s.(flights := s.flights - {id}, holder := Free)
  {
  }

  /** The first packet in the queue leaves exactly when it was cut under the generation in force and both ends are
      present members; otherwise it is dropped. */
  lemma FetchedExactly(s: World, now: int)
    requires Enabled(s, Fetch(now))
    ensures var q, x := s.queue[0], Do(s, Fetch(now));
            && x == s.(queue := s.queue[1..], wire := x.wire)
            && x.wire == s.wire + if q.item.generation == s.origin.generation
                                     && Present(s.current.rules, q.item.peer, now)
                                     && Stays(s.current, s.origin.ip, now)
                                  then [Left(q, s.origin.generation, s.current)] else []
  {
  }

  /** An ICMP error or echo. */
  predicate Diagnostic(p: Packet) {
    p.proto == 1 && !p.fragmented && |p.data| >= 8 && p.data[0] in {0, 3, 8, 11, 12}
  }

  /** A packet becomes a diagnostic frame for this host exactly when it is whole, an ICMP error or echo for this host,
      which is present, and from a node or a present member; the frame is in the sender's name. */
  lemma PingedExactly(p: Publication, own: Addr, mac: seq<byte>, b: seq<byte>, now: int)
    requires |mac| == 6
    ensures Ping(p, own, mac, b, now).Some?
            <==> && Parse(b).Some? && IsV4(Parse(b).value.src) && Parse(b).value.dst == own
                 && Diagnostic(Parse(b).value) && Stays(p, own, now)
                 && (Parse(b).value.src in p.nodes || Stays(p, Parse(b).value.src, now))
    ensures Ping(p, own, mac, b, now).Some? ==>
              var f, src := Ping(p, own, mac, b, now).value, Parse(b).value.src;
              && |f| == 14 + |b| && f[..6] == mac && f[14..] == b && TypeAt(f) == 0x0800
              && f[6..12] == if src in p.members && |p.members[src].mac| == 6 then p.members[src].mac
                             else [2, 78] + src.octets
  {
    if Ping(p, own, mac, b, now).Some? {
      var src := Parse(b).value.src;
      var from := if src in p.members && |p.members[src].mac| == 6 then p.members[src].mac else NodeMac(src);
      EthernetHead(from, mac, 0x0800, b);
      GetWord(Ping(p, own, mac, b, now).value, 12);
    }
  }

  /** A probe goes out exactly to a node or a present member, a diagnostic of this host's exactly as it may, while this
      host is present. */
  lemma StraightExactly(p: Publication, own: Addr, mac: seq<byte>, d: Direct)
    ensures match d
            case Probe(packet, now) =>
              Straight(p, own, mac, d)
              == if Parse(packet).Some? && Stays(p, own, now)
                    && (Parse(packet).value.dst in p.nodes || Stays(p, Parse(packet).value.dst, now))
                 then Some(packet) else None
            case Native(frame, now) =>
              Straight(p, own, mac, d)
              == if Stays(p, own, now) && p.members[own].mac == mac then OutboundDiagnostic(frame, p.nodes, own, mac)
                 else None
  {
  }

  // ---------------------------------------------------------------- undisturbed

  lemma {:induction false} LaunchedAt(s: World, fs: seq<seq<byte>>, cause: Cause, i: nat)
    requires i < |fs|
    ensures var all := Launch(s.flights, s.next, fs, cause, s.origin.generation, s.current);
            && s.next + i in all
            && all[s.next + i] == Flight(fs[i], cause, s.origin.generation, s.current, Waiting)
  {
    if i < |fs| - 1 {
      LaunchedAt(s, fs[..|fs| - 1], cause, i);
    }
  }

  /** The step may be taken, and leads to x. */
  predicate Leads(s: World, e: Event, x: World) {
    Enabled(s, e) && x == Do(s, e)
  }

  /** What Write asks the policy about a frame of this member. */
  function Question(s: World, frame: seq<byte>, peer: Addr, now: int): PolicyRuns.Event
    requires peer in s.current.members && s.origin.ip in s.current.members
  {
    PolicyRuns.Frame(frame, s.current.members[peer], s.current.members[s.origin.ip], now)
  }

  /** Write puts every frame that the policy releases in flight, and changes nothing else but its log. */
  lemma Launches(s: World, frame: seq<byte>, peer: Addr, now: int, fs: seq<seq<byte>>, i: nat)
    requires Enabled(s, Permit(frame, peer, now))
    requires fs == Released(s.log, Question(s, frame, peer, now)) && i < |fs|
    ensures var w := Do(s, Permit(frame, peer, now));
            && w.holder == s.holder && w.origin == s.origin && w.current == s.current && w.tap == s.tap
            && s.next + i in w.flights
            && w.flights[s.next + i] == Flight(fs[i], Decided(|s.log|), s.origin.generation, s.current, Waiting)
  {
    LaunchedAt(s, fs, Decided(|s.log|), i);
  }

  /** A frame in flight that was permitted under the generation in force reaches the TAP by the steps of deliver, if
      nothing is published in between and this host stays. */
  lemma UndisturbedArrives(s: World, id: nat, now: int) returns (a: World, b: World, x: World)
    requires s.holder == Free && id in s.flights && s.flights[id].stage == Waiting
    requires s.flights[id].generation == s.origin.generation && Stays(s.current, s.origin.ip, now)
    ensures Leads(s, Acquire(id), a) && Leads(a, Check(id, now), b) && Leads(b, Inject(id), x)
    ensures x.holder == Free && id !in x.flights
    ensures x.tap == s.tap + [Left(s.flights[id].(stage := Cleared), s.origin.generation, s.current)]
  {
    a := Do(s, Acquire(id));
    b := Do(a, Check(id, now));
    x := Do(b, Inject(id));
  }
}
