/** What the port policy keeps over every run of frames and policy updates. */
module PolicyRuns {
  import opened Bytes
  import opened Packet
  import opened Fragments
  import opened Policy
  import Reassembly

  datatype Device = Device(rules: Rules, revision: int, tables: State)

  /** A frame between two members, or Update. A new revision clears the tables; changed members
      (cleared) do so as well. A failed update publishes rules without an expiry. */
  datatype Event =
    | Frame(frame: seq<byte>, source: Member, target: Member, now: int)
    | Publish(revision: int, rules: Rules, cleared: bool)

  const CLOSED := Rules(None, false, false, false, {}, {}, {}, NoAddr)
  const START := Device(CLOSED, 0, State(map[], map[], 0))

  function Next(d: Device, e: Event): (r: (Device, Outcome))
    requires Valid(d.tables.frags)
    ensures Valid(r.0.tables.frags)
  {
    match e
    case Frame(frame, source, target, now) =>
      PermitKeeps(d.rules, d.tables, frame, source, target, now);
      var (tables, o) := Permit(d.rules, d.tables, frame, source, target, now);
      (d.(tables := tables), o)
    case Publish(revision, rules, cleared) =>
      (Device(rules, revision, if cleared || revision != d.revision then State(map[], map[], d.tables.sweep)
        else d.tables),
       Blocked)
  }

  lemma PermitKeeps(r: Rules, s: State, frame: seq<byte>, source: Member, target: Member, now: int)
    requires Valid(s.frags)
    ensures Valid(Permit(r, s, frame, source, target, now).0.frags)
  {
    var v := Inspect(r, frame, source, target, now);
    if v.Transport? {
      InspectUsable(r, frame, source, target, now);
      DefragKeepsValid(s.frags, v.packet, frame, target.ip, now);
    }
  }

  function After(es: seq<Event>): (d: Device)
    ensures Valid(d.tables.frags)
  {
    if es == [] then START else Next(After(es[..|es| - 1]), es[|es| - 1]).0
  }

  function ResultAt(es: seq<Event>, i: nat): Outcome
    requires i < |es|
  {
    Next(After(es[..i]), es[i]).1
  }

  /** The flow of the frame that was admitted at i, if it was a TCP or UDP one. */
  function FlowAt(es: seq<Event>, i: nat): Option<Flow>
    requires i < |es|
  {
    if ResultAt(es, i).Passed? then ResultAt(es, i).flow else None
  }

  // ---------------------------------------------------------------- one admitted frame

  /** An admitted transport frame: how it got in, and what it left in the flow table. */
  lemma AdmittedStep(d: Device, e: Event)
    requires Valid(d.tables.frags) && Next(d, e).1.Passed? && Next(d, e).1.flow.Some?
    ensures e.Frame?
    ensures var f := Next(d, e).1.flow.value;
            && Admits(d.rules, d.tables.flows, f, e.now)
            && (Next(d, e).0.tables.flows, Next(d, e).0.tables.sweep)
               == Remember(d.tables.flows, d.tables.sweep, f, e.now)
            && (f.proto == TCP || f.proto == UDP)
            && Next(d, e).0.rules == d.rules
  {
    var v := Inspect(d.rules, e.frame, e.source, e.target, e.now);
    InspectUsable(d.rules, e.frame, e.source, e.target, e.now);
    DefragProto(d.tables.frags, v.packet, e.frame, e.target.ip, e.now);
  }

  lemma DefragProto(t: Table, p: Packet, frame: seq<byte>, target: Addr, now: int)
    requires Valid(t) && Usable(p) && |frame| <= MAX_FRAME
    ensures var r := Defrag(t, p, frame, target, now).1;
            r.Pass? ==> r.packet.proto == p.proto && r.packet.src == p.src && r.packet.dst == p.dst
  {
  }

  /** Any other event only forgets flows. */
  lemma OtherStep(d: Device, e: Event)
    requires Valid(d.tables.frags) && !(Next(d, e).1.Passed? && Next(d, e).1.flow.Some?)
    ensures Next(d, e).0.tables.flows == d.tables.flows || Next(d, e).0.tables.flows == map[]
  {
    if e.Frame? {
      var v := Inspect(d.rules, e.frame, e.source, e.target, e.now);
      if v.Transport? {
        InspectUsable(d.rules, e.frame, e.source, e.target, e.now);
      }
    }
  }

  // ---------------------------------------------------------------- bounds

  lemma {:induction false} FlowsBounded(es: seq<Event>)
    ensures |After(es).tables.flows| <= MAX_FLOWS && |After(es).tables.frags| <= MAX_SETS
  {
    if es != [] {
      var init, e := es[..|es| - 1], es[|es| - 1];
      FlowsBounded(init);
      var d := After(init);
      if Next(d, e).1.Passed? && Next(d, e).1.flow.Some? {
        AdmittedStep(d, e);
        RememberFacts(d.tables.flows, d.tables.sweep, Next(d, e).1.flow.value, e.now);
      } else {
        OtherStep(d, e);
      }
    }
  }

  // ---------------------------------------------------------------- port safety

  /** Equal game revisions mean equal ports: `book` gives the TCP and UDP ports of each revision. */
  predicate Consistent(es: seq<Event>, book: map<int, (set<int>, set<int>)>) {
    forall e <- es :: e.Publish? ==> e.revision in book && (e.rules.tcp, e.rules.udp) == book[e.revision]
  }

  predicate Touches(r: Rules, f: Flow) {
    f.srcPort in OpenPorts(r, f.proto) || f.dstPort in OpenPorts(r, f.proto)
  }

  predicate FlowsTouch(d: Device) {
    forall k <- d.tables.flows :: Touches(d.rules, k)
  }

  lemma TouchStep(d: Device, e: Event, book: map<int, (set<int>, set<int>)>)
    requires Valid(d.tables.frags) && |d.tables.flows| <= MAX_FLOWS && FlowsTouch(d)
    requires e.Publish? && d.revision == e.revision ==>
               d.tables.flows == map[] || (d.rules.tcp == e.rules.tcp && d.rules.udp == e.rules.udp)
    ensures FlowsTouch(Next(d, e).0)
    ensures Next(d, e).1.Passed? && Next(d, e).1.flow.Some? ==> Touches(d.rules, Next(d, e).1.flow.value)
  {
    if Next(d, e).1.Passed? && Next(d, e).1.flow.Some? {
      AdmittedStep(d, e);
      var f := Next(d, e).1.flow.value;
      assert Touches(d.rules, f);
      RememberFacts(d.tables.flows, d.tables.sweep, f, e.now);
    } else {
      OtherStep(d, e);
    }
  }

  /** The revision and ports in force are those of the last update. */
  lemma {:induction false} InForce(es: seq<Event>, book: map<int, (set<int>, set<int>)>)
    requires Consistent(es, book)
    ensures var d := After(es);
            (d.revision in book && (d.rules.tcp, d.rules.udp) == book[d.revision])
              || (d.rules == CLOSED && d.tables.flows == map[])
  {
    if es != [] {
      var init, e := es[..|es| - 1], es[|es| - 1];
      InForce(init, book);
      var d := After(init);
      if Next(d, e).1.Passed? && Next(d, e).1.flow.Some? {
        AdmittedStep(d, e);
      } else {
        OtherStep(d, e);
      }
    }
  }

  lemma {:induction false} AllFlowsTouch(es: seq<Event>, book: map<int, (set<int>, set<int>)>)
    requires Consistent(es, book)
    ensures FlowsTouch(After(es))
  {
    if es != [] {
      var init, e := es[..|es| - 1], es[|es| - 1];
      AllFlowsTouch(init, book);
      InForce(init, book);
      FlowsBounded(init);
      TouchStep(After(init), e, book);
    }
  }

  /** In every run, an admitted TCP or UDP frame has its source or its destination port in the
      policy in force. */
  lemma AdmittedTouchesPolicy(es: seq<Event>, book: map<int, (set<int>, set<int>)>, i: nat)
    requires Consistent(es, book) && i < |es| && FlowAt(es, i).Some?
    ensures Touches(After(es[..i]).rules, FlowAt(es, i).value)
  {
    AllFlowsTouch(es[..i], book);
    InForce(es[..i], book);
    FlowsBounded(es[..i]);
    TouchStep(After(es[..i]), es[i], book);
  }

  // ---------------------------------------------------------------- fragments that travel together

  /** The three addresses of one member are no other member's. */
  lemma AddressesAreDisjoint(a: Member, b: Member, ip: Addr)
    requires Complete(a) && Complete(b) && Owns(a, ip) && Owns(b, ip)
    ensures SameSender(a, b)
  {
    LanIsNotLinkLocal(a.ip, b.mac);
    LanIsNotLinkLocal(b.ip, a.mac);
    if ip == LinkLocal(a.mac) && ip == LinkLocal(b.mac) {
      LinkLocalNames(a.mac, b.mac);
    } else if ip == LanIPv6(a.ip) && ip == LanIPv6(b.ip) {
      assert ip.octets[12..] == a.ip.octets && ip.octets[12..] == b.ip.octets;
      assert a.ip == V4(a.ip.octets) && b.ip == V4(b.ip.octets);
    }
  }

  lemma LanIsNotLinkLocal(ip: Addr, mac: seq<byte>)
    requires IsV4(ip) && |mac| == 6
    ensures LanIPv6(ip) != LinkLocal(mac)
  {
    assert LanIPv6(ip).octets[0] != LinkLocal(mac).octets[0];
  }

  lemma LinkLocalNames(a: seq<byte>, b: seq<byte>)
    requires |a| == |b| == 6 && LinkLocal(a) == LinkLocal(b)
    ensures a == b
  {
    var x, y := LinkLocal(a).octets, LinkLocal(b).octets;
    assert x[8] == FlipLocal(a[0]) && y[8] == FlipLocal(b[0]);
    assert a[1] == x[9] && a[2] == x[10] && a[3] == x[13] && a[4] == x[14] && a[5] == x[15];
    assert b[1] == y[9] && b[2] == y[10] && b[3] == y[13] && b[4] == y[14] && b[5] == y[15];
  }

  predicate SameSender(a: Member, b: Member) {
    a.ip == b.ip || a.mac == b.mac
  }

  /** Under rules r event e brings frame f, a fragment for the set k, which passes the inspection. */
  predicate Brings(r: Rules, e: Event, f: seq<byte>, k: FragKey) {
    && e.Frame? && e.frame == f
    && var v := Inspect(r, f, e.source, e.target, e.now);
    && v.Transport? && v.packet.fragmented && Key(v.packet, e.target.ip) == k
  }

  predicate Brought(es: seq<Event>, j: nat, f: seq<byte>, k: FragKey)
    requires j < |es|
  {
    Brings(After(es[..j]).rules, es[j], f, k)
  }

  lemma BroughtEarlier(es: seq<Event>, n: nat, j: nat, f: seq<byte>, k: FragKey)
    requires j < n <= |es|
    ensures Brought(es[..n], j, f, k) == Brought(es, j, f, k)
  {
    assert es[..n][..j] == es[..j] && es[..n][j] == es[j];
  }

  ghost predicate Vetted(es: seq<Event>, f: seq<byte>, k: FragKey) {
    exists j :: 0 <= j < |es| && Brought(es, j, f, k)
  }

  lemma VettedLonger(es: seq<Event>, f: seq<byte>, k: FragKey)
    requires es != [] && Vetted(es[..|es| - 1], f, k)
    ensures Vetted(es, f, k)
  {
    var n := |es| - 1;
    var j :| 0 <= j < n && Brought(es[..n], j, f, k);
    BroughtEarlier(es, n, j, f, k);
  }

  ghost predicate AllVetted(es: seq<Event>, frags: Table) {
    forall k <- frags, q <- frags[k].parts :: Vetted(es, q.frame, k)
  }

  /** What one fragment adds to the table: itself. */
  lemma PartsGrow(t: Table, p: Packet, frame: seq<byte>, target: Addr, now: int, k: FragKey, q: Part)
    requires Valid(t) && Usable(p) && |frame| <= MAX_FRAME
    requires var t' := Defrag(t, p, frame, target, now).0; k in t' && q in t'[k].parts && !(k in t && q in t[k].parts)
    ensures p.fragmented && k == Key(p, target) && q.frame == frame
  {
  }

  lemma VettedStep(es: seq<Event>)
    requires es != [] && AllVetted(es[..|es| - 1], After(es[..|es| - 1]).tables.frags)
    ensures AllVetted(es, After(es).tables.frags)
  {
    var last := |es| - 1;
    var init, e, d := es[..last], es[last], After(es[..last]);
    var frags := After(es).tables.frags;
    forall k, q | k in frags && q in frags[k].parts
      ensures Vetted(es, q.frame, k)
    {
      if k in d.tables.frags && q in d.tables.frags[k].parts {
        VettedLonger(es, q.frame, k);
      } else {
        FragmentStored(d, e, k, q);
        assert Brought(es, last, q.frame, k);
      }
    }
  }

  lemma FragmentStored(d: Device, e: Event, k: FragKey, q: Part)
    requires Valid(d.tables.frags) && k in Next(d, e).0.tables.frags && q in Next(d, e).0.tables.frags[k].parts
    requires !(k in d.tables.frags && q in d.tables.frags[k].parts)
    ensures Brings(d.rules, e, q.frame, k)
  {
    if e.Frame? {
      var v := Inspect(d.rules, e.frame, e.source, e.target, e.now);
      NextFrags(d, e);
      if v.Transport? {
        InspectUsable(d.rules, e.frame, e.source, e.target, e.now);
        PartsGrow(d.tables.frags, v.packet, e.frame, e.target.ip, e.now, k, q);
      }
    }
  }

  lemma NextFrags(d: Device, e: Event)
    requires Valid(d.tables.frags) && e.Frame?
    ensures var v := Inspect(d.rules, e.frame, e.source, e.target, e.now);
            Next(d, e).0.tables.frags
            == if v.Transport? then (InspectUsable(d.rules, e.frame, e.source, e.target, e.now);
                                     Defrag(d.tables.frags, v.packet, e.frame, e.target.ip, e.now).0)
               else d.tables.frags
  {
  }

  lemma {:induction false} AlwaysVetted(es: seq<Event>)
    ensures AllVetted(es, After(es).tables.frags)
  {
    if es != [] {
      AlwaysVetted(es[..|es| - 1]);
      VettedStep(es);
    }
  }

  /** Event j brought frame f from the sender of event i to the same target, and f passed the link and
      network checks of the policy in force when it came. */
  predicate InspectedFrom(es: seq<Event>, j: nat, f: seq<byte>, i: nat)
    requires j < |es| && i < |es|
  {
    && es[j].Frame? && es[i].Frame? && es[j].frame == f
    && Inspect(After(es[..j]).rules, f, es[j].source, es[j].target, es[j].now) != Deny
    && SameSender(es[j].source, es[i].source) && es[j].target.ip == es[i].target.ip
  }

  lemma FragmentOwned(r: Rules, e: Event, f: seq<byte>, k: FragKey)
    requires Brings(r, e, f, k)
    ensures Complete(e.source) && Owns(e.source, k.src) && e.target.ip == k.target
    ensures Inspect(r, f, e.source, e.target, e.now) != Deny
  {
  }

  lemma SameSetSameSender(es: seq<Event>, i: nat, j: nat, f: seq<byte>, k: FragKey)
    requires j < |es| && i < |es| && Brought(es, j, f, k) && es[i].Frame? && Brought(es, i, es[i].frame, k)
    ensures InspectedFrom(es, j, f, i)
  {
    FragmentOwned(After(es[..j]).rules, es[j], f, k);
    FragmentOwned(After(es[..i]).rules, es[i], es[i].frame, k);
    AddressesAreDisjoint(es[j].source, es[i].source, k.src);
  }

  /** The frames of a passed fragment set are those of stored parts, and the last one. */
  lemma SetFrames(t: Table, p: Packet, frame: seq<byte>, target: Addr, now: int, f: seq<byte>)
    requires Valid(t) && Usable(p) && p.fragmented && |frame| <= MAX_FRAME
    requires Defrag(t, p, frame, target, now).1.Pass? && f in Defrag(t, p, frame, target, now).1.frames
    ensures f == frame || (Key(p, target) in t && exists q <- t[Key(p, target)].parts :: q.frame == f)
  {
    Reassembly.PassMeansComplete(t, p, frame, target, now);
    FrameOfPart(SetFor(Prune(t, now), Key(p, target), now).parts, Part(p.offset, p.data, frame), f);
  }

  lemma FrameOfPart(parts: seq<Part>, last: Part, f: seq<byte>)
    requires f in Frames(parts + [last])
    ensures f == last.frame || exists q <- parts :: q.frame == f
  {
    var all := parts + [last];
    var n :| 0 <= n < |all| && Frames(all)[n] == f;
    if n < |parts| {
      assert parts[n] in parts;
    }
  }

  /** Whatever passes with event i, alone or as fragments of one datagram, was inspected when it came, and
      came from the same member to the same target. */
  lemma PassedWereInspected(es: seq<Event>, i: nat, f: seq<byte>)
    requires i < |es| && ResultAt(es, i).Passed? && f in ResultAt(es, i).frames
    ensures exists j :: 0 <= j <= i && InspectedFrom(es, j, f, i)
  {
    var e, d := es[i], After(es[..i]);
    var v := Inspect(d.rules, e.frame, e.source, e.target, e.now);
    if f == e.frame {
      assert InspectedFrom(es, i, f, i);
    } else {
      InspectUsable(d.rules, e.frame, e.source, e.target, e.now);
      SetFrames(d.tables.frags, v.packet, e.frame, e.target.ip, e.now, f);
      var k := Key(v.packet, e.target.ip);
      AlwaysVetted(es[..i]);
      assert Brought(es, i, e.frame, k);
      VettedEarlier(es, i, f, k);
      var j :| 0 <= j < i && Brought(es, j, f, k);
      SameSetSameSender(es, i, j, f, k);
    }
  }

  lemma VettedEarlier(es: seq<Event>, i: nat, f: seq<byte>, k: FragKey)
    requires i <= |es| && Vetted(es[..i], f, k)
    ensures exists j :: 0 <= j < i && Brought(es, j, f, k)
  {
    var j :| 0 <= j < i && Brought(es[..i], j, f, k);
    BroughtEarlier(es, i, j, f, k);
  }
}
