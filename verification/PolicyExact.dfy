/** Exactly which TCP and UDP datagrams pass, over every run: read off their octets and what passed before. */
module PolicyExact {
  import opened Bytes
  import opened Packet
  import opened Fragments
  import opened InspectExact
  import opened Policy
  import opened PolicyRuns

  // ---------------------------------------------------------------- datagrams

  /** The datagram that a frame brings or completes, once the frame has passed the inspection. */
  function DatagramOf(d: Device, e: Event): (p: Option<Packet>)
    requires Valid(d.tables.frags)
  {
    if !e.Frame? || !Inspect(d.rules, e.frame, e.source, e.target, e.now).Transport? then None
    else
      InspectUsable(d.rules, e.frame, e.source, e.target, e.now);
      var packet := Inspect(d.rules, e.frame, e.source, e.target, e.now).packet;
      var r := Defrag(d.tables.frags, packet, e.frame, e.target.ip, e.now).1;
      if r.Pass? then Option.Some(r.packet) else None
  }

  function DatagramAt(es: seq<Event>, i: nat): Option<Packet>
    requires i < |es|
  {
    DatagramOf(After(es[..i]), es[i])
  }

  /** A UDP datagram of the length it gives, or a TCP segment with room for its header. */
  predicate SaneHeader(p: Packet) {
    && |p.data| >= 8
    && (p.proto == 17 ==> p.data[4] as int * 256 + p.data[5] as int == |p.data|)
    && (p.proto == 6 ==> |p.data| >= 20 && 20 <= p.data[12] as int / 16 * 4 <= |p.data|)
  }

  /** The port in octets n and n + 1. */
  function PortAt(p: Packet, n: nat): int
    requires n + 1 < |p.data|
  {
    p.data[n] as int * 256 + p.data[n + 1] as int
  }

  /** The rules of the last update. */
  function LastRules(es: seq<Event>): Rules {
    if es == [] then Rules(None, false, false, false, {}, {}, {}, NoAddr)
    else if es[|es| - 1].Publish? then es[|es| - 1].rules
    else LastRules(es[..|es| - 1])
  }

  lemma {:induction false} RulesAreLast(es: seq<Event>)
    ensures After(es).rules == LastRules(es)
  {
    if es != [] {
      RulesAreLast(es[..|es| - 1]);
    }
  }

  // ---------------------------------------------------------------- one step

  /** A flow as a key: addresses and ports. */
  function KeyOf(e: Event, p: Packet): Flow
    requires e.Frame? && |p.data| >= 8
  {
    Flow(e.source.ip, e.target.ip, PortAt(p, 0), PortAt(p, 2), p.proto)
  }

  /** The key under which its answers are let in. */
  function BackOf(e: Event, p: Packet): Flow
    requires e.Frame? && |p.data| >= 8
  {
    Flow(e.target.ip, e.source.ip, PortAt(p, 2), PortAt(p, 0), p.proto)
  }

  /** Thirty seconds for UDP, five minutes for TCP. */
  function Lifetime(p: Packet): int {
    if p.proto == 17 then 30_000_000_000 else 300_000_000_000
  }

  function Ports(r: Rules, p: Packet): set<int> {
    if p.proto == 17 then r.udp else r.tcp
  }

  lemma Headers(p: Packet)
    requires |p.data| >= 8
    ensures Get(p.data[..2]) == PortAt(p, 0) && Get(p.data[2..4]) == PortAt(p, 2)
    ensures GoodTransport(p) <==> SaneHeader(p)
  {
    assert p.data[..2] == p.data[0..2];
    GetWord(p.data, 0);
    GetWord(p.data, 2);
    GetWord(p.data, 4);
  }

  lemma DatagramProto(d: Device, e: Event)
    requires Valid(d.tables.frags) && DatagramOf(d, e).Some?
    ensures DatagramOf(d, e).value.proto == 6 || DatagramOf(d, e).value.proto == 17
  {
    InspectUsable(d.rules, e.frame, e.source, e.target, e.now);
    var v := Inspect(d.rules, e.frame, e.source, e.target, e.now);
    DefragProto(d.tables.frags, v.packet, e.frame, e.target.ip, e.now);
  }

  /** A datagram with a sane header passes exactly when its destination port is open or its key is live. */
  lemma StepPasses(d: Device, e: Event)
    requires Valid(d.tables.frags) && DatagramOf(d, e).Some? && SaneHeader(DatagramOf(d, e).value)
    ensures var p := DatagramOf(d, e).value;
            Next(d, e).1.Passed?
            <==> PortAt(p, 2) in Ports(d.rules, p)
                 || (KeyOf(e, p) in d.tables.flows && e.now < d.tables.flows[KeyOf(e, p)])
  {
    InspectUsable(d.rules, e.frame, e.source, e.target, e.now);
    Headers(DatagramOf(d, e).value);
    DatagramProto(d, e);
  }

  lemma InsanePasses(d: Device, e: Event)
    requires Valid(d.tables.frags) && DatagramOf(d, e).Some? && !SaneHeader(DatagramOf(d, e).value)
    ensures Next(d, e).1 == Blocked && Next(d, e).0.tables.flows == d.tables.flows
  {
    InspectUsable(d.rules, e.frame, e.source, e.target, e.now);
    if |DatagramOf(d, e).value.data| >= 8 {
      Headers(DatagramOf(d, e).value);
    }
  }

  /** A passed datagram with a sane header. */
  predicate PassesSane(d: Device, e: Event)
    requires Valid(d.tables.frags)
  {
    DatagramOf(d, e).Some? && SaneHeader(DatagramOf(d, e).value) && Next(d, e).1.Passed?
  }

  /** What a passed datagram does to the table: an entry for its answers is there for its lifetime or, if there was
      no room, not at all; other entries are forgotten only when they have run out. */
  lemma PassRemembers(d: Device, e: Event, k: Flow)
    requires Valid(d.tables.frags) && PassesSane(d, e)
    ensures var p, before, after := DatagramOf(d, e).value, d.tables.flows, Next(d, e).0.tables.flows;
            && (k in before && e.now < before[k] ==> k in after)
            && (k in after ==> if k == BackOf(e, p) then after[k] == e.now + Lifetime(p)
               else k in before && after[k] == before[k])
  {
    InspectUsable(d.rules, e.frame, e.source, e.target, e.now);
    Headers(DatagramOf(d, e).value);
    DatagramProto(d, e);
  }

  /** An update that empties the tables. */
  predicate Clears(d: Device, e: Event) {
    e.Publish? && (e.cleared || e.revision != d.revision)
  }

  lemma OtherKeeps(d: Device, e: Event)
    requires Valid(d.tables.frags) && !PassesSane(d, e)
    ensures Next(d, e).0.tables.flows == if Clears(d, e) then map[] else d.tables.flows
  {
    if e.Frame? && DatagramOf(d, e).Some? {
      InspectUsable(d.rules, e.frame, e.source, e.target, e.now);
      if !SaneHeader(DatagramOf(d, e).value) {
        InsanePasses(d, e);
      }
    } else if e.Frame? && Inspect(d.rules, e.frame, e.source, e.target, e.now).Transport? {
      InspectUsable(d.rules, e.frame, e.source, e.target, e.now);
    }
  }

  /** There is room for the answers: an entry already, or fewer than 8192 once the sweep, when due, has been made;
      it is due a second after the last. */
  lemma RoomExactly(d: Device, e: Event)
    requires Valid(d.tables.frags) && PassesSane(d, e)
    ensures var back, before := BackOf(e, DatagramOf(d, e).value), d.tables.flows;
            var kept := if e.now < d.tables.sweep then before
              else map k | k in before && e.now < before[k] :: before[k];
            back in Next(d, e).0.tables.flows <==> back in kept || |kept| < 8192
    ensures Next(d, e).0.tables.sweep
            == if e.now < d.tables.sweep then d.tables.sweep else e.now + 1_000_000_000
  {
    InspectUsable(d.rules, e.frame, e.source, e.target, e.now);
    Headers(DatagramOf(d, e).value);
    DatagramProto(d, e);
    assert LiveFlows(d.tables.flows, e.now) == map k | k in d.tables.flows
      && e.now < d.tables.flows[k] :: d.tables.flows[k];
  }

  // ---------------------------------------------------------------- one entry over a run

  /** What an event is to one entry of the table: a datagram whose answers it lets in, or an emptying. */
  datatype Mark = Mark(mirror: bool, clears: bool, frame: bool, now: int, life: int)

  /** What it may do to the entry. */
  predicate Moves(m: Mark, before: Option<int>, after: Option<int>) {
    if m.mirror then
      && (after.Some? ==> after == Option.Some(m.now + m.life))
      && (before.Some? && m.now < before.value ==> after.Some?)
    else if m.clears then after == None
    else after == before || (after == None && m.frame && before.Some? && !(m.now < before.value))
  }

  predicate Traced(ms: seq<Mark>, xs: seq<Option<int>>) {
    |xs| == |ms| + 1 && xs[0] == None && forall n :: 0 <= n < |ms| ==> Moves(ms[n], xs[n], xs[n + 1])
  }

  /** j is the last mirror before n, and nothing was emptied since. */
  predicate Last(ms: seq<Mark>, j: nat, n: nat)
    requires j < n <= |ms|
  {
    ms[j].mirror && forall m :: j < m < n ==> !ms[m].mirror && !ms[m].clears
  }

  lemma {:induction false} EntryIsLast(ms: seq<Mark>, xs: seq<Option<int>>, n: nat) returns (j: nat)
    requires Traced(ms, xs) && n <= |ms| && xs[n].Some?
    ensures j < n && Last(ms, j, n) && xs[j + 1].Some? && xs[n] == Option.Some(ms[j].now + ms[j].life)
  {
    assert Moves(ms[n - 1], xs[n - 1], xs[n - 1 + 1]);
    if ms[n - 1].mirror {
      j := n - 1;
    } else {
      j := EntryIsLast(ms, xs, n - 1);
    }
  }

  /** An entry that has not run out yet is kept. */
  lemma {:induction false} EntryStays(ms: seq<Mark>, xs: seq<Option<int>>, j: nat, n: nat, now: int)
    requires Traced(ms, xs) && j < n <= |ms| && Last(ms, j, n) && xs[j + 1].Some?
    requires now < ms[j].now + ms[j].life && forall m :: j < m < n && ms[m].frame ==> ms[m].now <= now
    ensures xs[n] == Option.Some(ms[j].now + ms[j].life)
  {
    assert Moves(ms[n - 1], xs[n - 1], xs[n - 1 + 1]);
    if n > j + 1 {
      EntryStays(ms, xs, j, n - 1, now);
    }
  }

  // ---------------------------------------------------------------- runs

  /** The event passed a datagram whose answers come under key k. */
  predicate Mirrors(d: Device, e: Event, k: Flow)
    requires Valid(d.tables.frags)
  {
    PassesSane(d, e) && BackOf(e, DatagramOf(d, e).value) == k
  }

  function MarkOf(d: Device, e: Event, k: Flow): Mark
    requires Valid(d.tables.frags)
  {
    Mark(Mirrors(d, e, k), Clears(d, e), e.Frame?, if e.Frame? then e.now else 0,
         if Mirrors(d, e, k) then Lifetime(DatagramOf(d, e).value) else 0)
  }

  function EntryOf(flows: map<Flow, int>, k: Flow): Option<int> {
    if k in flows then Option.Some(flows[k]) else None
  }

  lemma PassMark(d: Device, e: Event, k: Flow)
    requires Valid(d.tables.frags) && PassesSane(d, e)
    ensures var p, m := DatagramOf(d, e).value, MarkOf(d, e, k);
            && m.frame && !m.clears && m.now == e.now && (m.mirror <==> k == BackOf(e, p))
            && (m.mirror ==> m.life == Lifetime(p))
  {
  }

  /** The entry is renewed, or left alone or forgotten when it has run out. */
  lemma MovesTo(m: Mark, before: Option<int>, after: Option<int>)
    requires m.frame && !m.clears && (before.Some? && m.now < before.value ==> after.Some?)
    requires after.Some? ==> after == if m.mirror then Option.Some(m.now + m.life) else before
    ensures Moves(m, before, after)
  {
  }

  lemma PassMoves(d: Device, e: Event, k: Flow, after: map<Flow, int>)
    requires Valid(d.tables.frags) && PassesSane(d, e) && after == Next(d, e).0.tables.flows
    ensures Moves(MarkOf(d, e, k), EntryOf(d.tables.flows, k), EntryOf(after, k))
  {
    PassRemembers(d, e, k);
    PassMark(d, e, k);
    MovesTo(MarkOf(d, e, k), EntryOf(d.tables.flows, k), EntryOf(after, k));
  }

  lemma OtherMoves(d: Device, e: Event, k: Flow, after: map<Flow, int>)
    requires Valid(d.tables.frags) && !PassesSane(d, e)
    requires after == if Clears(d, e) then map[] else d.tables.flows
    ensures Moves(MarkOf(d, e, k), EntryOf(d.tables.flows, k), EntryOf(after, k))
  {
  }

  lemma StepMoves(d: Device, e: Event, k: Flow)
    requires Valid(d.tables.frags)
    ensures Moves(MarkOf(d, e, k), EntryOf(d.tables.flows, k), EntryOf(Next(d, e).0.tables.flows, k))
  {
    if PassesSane(d, e) {
      PassMoves(d, e, k, Next(d, e).0.tables.flows);
    } else {
      OtherKeeps(d, e);
      OtherMoves(d, e, k, Next(d, e).0.tables.flows);
    }
  }

  function Marks(es: seq<Event>, k: Flow): (ms: seq<Mark>)
    ensures |ms| == |es|
  {
    seq(|es|, m requires 0 <= m < |es| => MarkOf(After(es[..m]), es[m], k))
  }

  function Entries(es: seq<Event>, k: Flow): (xs: seq<Option<int>>)
    ensures |xs| == |es| + 1
  {
    seq(|es| + 1, n requires 0 <= n <= |es| => EntryOf(After(es[..n]).tables.flows, k))
  }

  lemma Unfold(es: seq<Event>, n: nat)
    requires n < |es|
    ensures After(es[..n + 1]) == Next(After(es[..n]), es[n]).0
  {
    assert es[..n + 1][..n] == es[..n];
  }

  lemma RunIsTraced(es: seq<Event>, k: Flow)
    ensures Traced(Marks(es, k), Entries(es, k))
  {
    assert es[..0] == [];
    forall n | 0 <= n < |es|
      ensures Moves(Marks(es, k)[n], Entries(es, k)[n], Entries(es, k)[n + 1])
    {
      Unfold(es, n);
      StepMoves(After(es[..n]), es[n], k);
    }
  }

  /** The frames' clocks do not go back. */
  predicate Ordered(es: seq<Event>) {
    forall i, j :: 0 <= i < j < |es| && es[i].Frame? && es[j].Frame? ==> es[i].now <= es[j].now
  }

  // ---------------------------------------------------------------- the main result

  /** Datagram a of event e is the opposite of b of event f: the same two members the other way round, and the
      port fields of the header exchanged, octet for octet. */
  predicate OppositeOf(e: Event, a: Packet, f: Event, b: Packet) {
    && e.Frame? && f.Frame? && e.source.ip == f.target.ip && e.target.ip == f.source.ip
    && a.proto == b.proto && |a.data| >= 8 && |b.data| >= 8
    && a.data[0..2] == b.data[2..4] && a.data[2..4] == b.data[0..2]
  }

  /** Event j passed a datagram with a sane header that is the opposite of the one of event i. */
  predicate Opposite(es: seq<Event>, j: nat, i: nat)
    requires j < |es| && i < |es| && DatagramAt(es, i).Some?
  {
    && DatagramAt(es, j).Some? && SaneHeader(DatagramAt(es, j).value) && ResultAt(es, j).Passed?
    && OppositeOf(es[j], DatagramAt(es, j).value, es[i], DatagramAt(es, i).value)
  }

  predicate ClearsAt(es: seq<Event>, m: nat)
    requires m < |es|
  {
    es[m].Publish? && (es[m].cleared || es[m].revision != After(es[..m]).revision)
  }

  /** The answers to the datagram of event j have an entry after it. */
  predicate Noted(es: seq<Event>, j: nat)
    requires j < |es|
  {
    && es[j].Frame? && DatagramAt(es, j).Some? && |DatagramAt(es, j).value.data| >= 8
    && BackOf(es[j], DatagramAt(es, j).value) in After(es[..j + 1]).tables.flows
  }

  /** The last opposite datagram that passed before i came less than thirty seconds (UDP) or five minutes (TCP)
      earlier, found room in the table, and no update has emptied it since. */
  predicate Answers(es: seq<Event>, j: nat, i: nat)
    requires j < i < |es| && DatagramAt(es, i).Some?
  {
    && Opposite(es, j, i) && Noted(es, j)
    && (forall m :: j < m < i ==> !Opposite(es, m, i) && !ClearsAt(es, m))
    && es[i].now < es[j].now + (if DatagramAt(es, i).value.proto == 17 then 30_000_000_000 else 300_000_000_000)
  }

  predicate Answered(es: seq<Event>, i: nat)
    requires i < |es| && DatagramAt(es, i).Some?
  {
    exists j :: 0 <= j < i && Answers(es, j, i)
  }

  lemma PortsAgree(a: Packet, b: Packet, m: nat, n: nat)
    requires m + 2 <= |a.data| && n + 2 <= |b.data|
    ensures PortAt(a, m) == PortAt(b, n) <==> a.data[m..m + 2] == b.data[n..n + 2]
  {
    var x, y := a.data[m..m + 2], b.data[n..n + 2];
    assert x == [a.data[m], a.data[m + 1]] && y == [b.data[n], b.data[n + 1]];
    assert x == y <==> x[0] == y[0] && x[1] == y[1];
  }

  lemma OppositeIsBack(e: Event, a: Packet, f: Event, b: Packet)
    requires e.Frame? && f.Frame? && |a.data| >= 8 && |b.data| >= 8
    ensures OppositeOf(e, a, f, b) <==> BackOf(e, a) == KeyOf(f, b)
  {
    PortsAgree(a, b, 0, 2);
    PortsAgree(a, b, 2, 0);
  }

  lemma OppositeIsMirror(es: seq<Event>, j: nat, i: nat)
    requires j < |es| && i < |es| && DatagramAt(es, i).Some? && |DatagramAt(es, i).value.data| >= 8
    ensures var k := KeyOf(es[i], DatagramAt(es, i).value);
            && (Opposite(es, j, i) <==> Marks(es, k)[j].mirror)
            && (Opposite(es, j, i) ==>
               Marks(es, k)[j].life == Lifetime(DatagramAt(es, i).value) && Marks(es, k)[j].now == es[j].now
                                       && (Noted(es, j) <==> Entries(es, k)[j + 1].Some?))
  {
    var d, e := After(es[..j]), es[j];
    if PassesSane(d, e) {
      OppositeIsBack(e, DatagramOf(d, e).value, es[i], DatagramAt(es, i).value);
    }
  }

  lemma AnswersIsLast(es: seq<Event>, j: nat, i: nat)
    requires j < i < |es| && DatagramAt(es, i).Some? && |DatagramAt(es, i).value.data| >= 8
    ensures var k := KeyOf(es[i], DatagramAt(es, i).value);
            Answers(es, j, i)
            <==> && Last(Marks(es, k), j, i) && Entries(es, k)[j + 1].Some?
                 && es[i].now < Marks(es, k)[j].now + Marks(es, k)[j].life
  {
    var k := KeyOf(es[i], DatagramAt(es, i).value);
    forall m | 0 <= m < i
      ensures Opposite(es, m, i) <==> Marks(es, k)[m].mirror
      ensures ClearsAt(es, m) <==> Marks(es, k)[m].clears
    {
      OppositeIsMirror(es, m, i);
    }
    OppositeIsMirror(es, j, i);
  }

  /** The entry under the key of event i's datagram, before that event. */
  function EntryAt(es: seq<Event>, i: nat): Option<int>
    requires i < |es| && DatagramAt(es, i).Some? && |DatagramAt(es, i).value.data| >= 8
  {
    EntryOf(After(es[..i]).tables.flows, KeyOf(es[i], DatagramAt(es, i).value))
  }

  lemma LiveIsAnswer(es: seq<Event>, i: nat)
    requires i < |es| && DatagramAt(es, i).Some? && |DatagramAt(es, i).value.data| >= 8
    requires EntryAt(es, i).Some? && es[i].now < EntryAt(es, i).value
    ensures Answered(es, i)
  {
    var k := KeyOf(es[i], DatagramAt(es, i).value);
    var ms, xs := Marks(es, k), Entries(es, k);
    RunIsTraced(es, k);
    var j := EntryIsLast(ms, xs, i);
    AnswersIsLast(es, j, i);
  }

  lemma AnswerIsLive(es: seq<Event>, j: nat, i: nat)
    requires j < i < |es| && Ordered(es) && DatagramAt(es, i).Some? && |DatagramAt(es, i).value.data| >= 8
    requires Answers(es, j, i)
    ensures EntryAt(es, i).Some? && es[i].now < EntryAt(es, i).value
  {
    var k := KeyOf(es[i], DatagramAt(es, i).value);
    var ms, xs := Marks(es, k), Entries(es, k);
    RunIsTraced(es, k);
    AnswersIsLast(es, j, i);
    EntryStays(ms, xs, j, i, es[i].now);
  }

  lemma LiveExactly(es: seq<Event>, i: nat)
    requires i < |es| && Ordered(es) && DatagramAt(es, i).Some? && |DatagramAt(es, i).value.data| >= 8
    ensures (EntryAt(es, i).Some? && es[i].now < EntryAt(es, i).value) <==> Answered(es, i)
  {
    if EntryAt(es, i).Some? && es[i].now < EntryAt(es, i).value {
      LiveIsAnswer(es, i);
    }
    if Answered(es, i) {
      var j :| 0 <= j < i && Answers(es, j, i);
      AnswerIsLive(es, j, i);
    }
  }

  /**
   * Over every run: a TCP or UDP datagram, whole or completed by this frame, that passed the inspection is passed on
   * exactly when its header is sane and its destination port is in the port table of its protocol as last published,
   * or it answers one that passed.
   */
  lemma PassedExactly(es: seq<Event>, i: nat)
    requires i < |es| && Ordered(es) && DatagramAt(es, i).Some?
    ensures var p, r := DatagramAt(es, i).value, LastRules(es[..i]);
            ResultAt(es, i).Passed?
            <==> && SaneHeader(p)
                 && (PortAt(p, 2) in (if p.proto == 17 then r.udp else r.tcp) || Answered(es, i))
  {
    var d, e, p := After(es[..i]), es[i], DatagramAt(es, i).value;
    RulesAreLast(es[..i]);
    if !SaneHeader(p) {
      InsanePasses(d, e);
    } else {
      StepPasses(d, e);
      LiveExactly(es, i);
    }
  }
  /** The frame brings datagram p as a whole, from the source's own address and MAC to the target's. */
  predicate Brings(r: Rules, e: Event, p: Packet, padding: seq<byte>) {
    && e.Frame? && Present(r, e.source, e.now) && Present(r, e.target, e.now) && e.target.mac[0] % 2 == 0
    && Sendable(p) && !p.fragmented && p.proto in {6, 17} && p.src == e.source.ip && p.dst == e.target.ip
    && !ForMany(r, p.dst) && 34 + |p.data| + |padding| <= 1514
    && e.frame == Ethernet(e.source.mac, e.target.mac, 0x0800, Ipv4Bytes(p) + padding)
  }

  /** So, of a datagram that is sent in one frame between two members while the game is on: it passes exactly with a
      sane header, to an open port or as an answer. */
  lemma OrdinaryPassedExactly(es: seq<Event>, i: nat, p: Packet, padding: seq<byte>)
    requires i < |es| && Ordered(es) && Brings(LastRules(es[..i]), es[i], p, padding) && LastRules(es[..i]).enabled
    ensures DatagramAt(es, i) == Option.Some(p)
    ensures var r := LastRules(es[..i]);
            ResultAt(es, i).Passed?
            <==> SaneHeader(p) && (PortAt(p, 2) in (if p.proto == 17 then r.udp else r.tcp) || Answered(es, i))
  {
    RulesAreLast(es[..i]);
    OrdinaryPasses(LastRules(es[..i]), es[i].source, es[i].target, es[i].now, p, padding);
    PassedExactly(es, i);
  }

  /** A datagram that passes to a port that is not open answers one that passed, whatever the clocks do. */
  lemma ReplyFollows(es: seq<Event>, i: nat)
    requires i < |es| && DatagramAt(es, i).Some? && ResultAt(es, i).Passed?
    requires var p, r := DatagramAt(es, i).value, LastRules(es[..i]);
             |p.data| >= 4 && PortAt(p, 2) !in (if p.proto == 17 then r.udp else r.tcp)
    ensures Answered(es, i)
  {
    RulesAreLast(es[..i]);
    if !SaneHeader(DatagramAt(es, i).value) {
      InsanePasses(After(es[..i]), es[i]);
    } else {
      StepPasses(After(es[..i]), es[i]);
      LiveIsAnswer(es, i);
    }
  }

  /** Equal game revisions meaning equal ports, no datagram with both ports outside the policy ever passes,
      fragmented or not: neither it nor the frame that completes it. */
  lemma ClosedPortsNeverPass(es: seq<Event>, book: map<int, (set<int>, set<int>)>, i: nat)
    requires Consistent(es, book) && i < |es| && DatagramAt(es, i).Some?
    requires var p, r := DatagramAt(es, i).value, LastRules(es[..i]);
             var open := if p.proto == 17 then r.udp else r.tcp;
             |p.data| >= 4 ==> PortAt(p, 0) !in open && PortAt(p, 2) !in open
    ensures ResultAt(es, i) == Blocked
  {
    RulesAreLast(es[..i]);
    var d, e, p := After(es[..i]), es[i], DatagramAt(es, i).value;
    if !SaneHeader(p) {
      InsanePasses(d, e);
    } else if ResultAt(es, i).Passed? {
      PassedFlow(d, e);
      DatagramProto(d, e);
      AdmittedTouchesPolicy(es, book, i);
    }
  }

  lemma PassedFlow(d: Device, e: Event)
    requires Valid(d.tables.frags) && PassesSane(d, e)
    ensures Next(d, e).1.flow == Option.Some(KeyOf(e, DatagramOf(d, e).value))
  {
    InspectUsable(d.rules, e.frame, e.source, e.target, e.now);
    Headers(DatagramOf(d, e).value);
  }
}
