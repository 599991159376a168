/** What an update publishes, field by field from the snapshot, and when it is accepted at all. */
module DeviceExact {
  import opened Bytes
  import opened Device
  import opened Packet
  import opened Policy
  import opened Ports
  import opened Times

  // ---------------------------------------------------------------- the rules

  /** A range of the protocol takes in port x; one without an end is a single port. */
  predicate Spans(p: GamePort, protocol: string, x: int) {
    p.protocol == protocol && p.port <= x && if p.portEnd == 0 then x == p.port else x <= p.portEnd
  }

  /** The open ports are those that a range of the protocol takes in. */
  ghost predicate PortsAre(open: set<int>, ports: seq<GamePort>, protocol: string) {
    forall x :: x in open <==> exists p <- ports :: Spans(p, protocol, x)
  }

  /** The last address of the network: the one of its block whose host bits are all ones. */
  predicate LastOf(n: Prefix, a: Addr) {
    && IsV4(a) && Get(a.octets) % Pow2(n.host) == Pow2(n.host) - 1
    && Get(a.octets) - Pow2(n.host) < Get(n.address) <= Get(a.octets)
  }

  /** Nobody may be active beyond the lease or the room, whichever ends first. */
  predicate EndsFirst(expires: Option<int>, lease: int, room: int) {
    expires.Some? && expires.value <= lease && expires.value <= room && expires.value in {lease, room}
  }

  /** The published rules are the game's, setting by setting. */
  ghost predicate Published(r: Rules, g: Game) {
    && r.enabled == g.enabled && r.broadcast == g.broadcast && r.multicast == g.multicast
    && PortsAre(r.tcp, g.ports, "tcp") && PortsAre(r.udp, g.ports, "udp")
    && forall t: int :: t in r.etherTypes <==> exists i :: 0 <= i < |g.etherTypes| && g.etherTypes[i] == t
  }

  lemma RowIsProtocol(p: GamePort, x: int)
    requires WellFormed(p)
    ensures Covers(p, 0, x) <==> Spans(p, "tcp", x)
    ensures Covers(p, 1, x) <==> Spans(p, "udp", x)
  {
  }

  lemma PortsArePublished(g: Game)
    requires ValidGame(g)
    ensures PortsAre(Open(g.ports, 0), g.ports, "tcp") && PortsAre(Open(g.ports, 1), g.ports, "udp")
  {
    forall p, x: int | p in g.ports
      ensures Covers(p, 0, x) <==> Spans(p, "tcp", x)
      ensures Covers(p, 1, x) <==> Spans(p, "udp", x)
    {
      RowIsProtocol(p, x);
    }
  }

  lemma LastIsBroadcast(n: Prefix)
    requires |n.address| == 4 && n.host <= 32
    ensures LastOf(n, BroadcastOf(n))
  {
    var last := Get(n.address) / Pow2(n.host) * Pow2(n.host) + Pow2(n.host) - 1;
    assert Get(n.address) < 0x1_0000_0000 by {
      GetBound(n.address);
      PowValues();
    }
    PowDivides(n.host);
    LastInBlock(Get(n.address), Pow2(n.host), last);
    WordBack(last);
  }

  lemma WordBack(n: nat)
    requires n < 0x1_0000_0000
    ensures Get(Put(n, 4)) == n
  {
    PowValues();
    GetPut(n, 4);
  }

  lemma LastInBlock(at: nat, size: nat, last: nat)
    requires size > 0 && at < 0x1_0000_0000 && 0x1_0000_0000 % size == 0 && last == at / size * size + size - 1
    ensures last % size == size - 1 && last - size < at <= last && last < 0x1_0000_0000
  {
    BelowMultiple(at, size, 0x1_0000_0000);
    ModUnique(last, size, at / size, size - 1);
  }

  lemma PowDivides(host: nat)
    requires host <= 32
    ensures 0x1_0000_0000 % Pow2(host) == 0
  {
    Pow32();
    PowSplit(host, 32);
    ModUnique(0x1_0000_0000, Pow2(host), Pow2(32 - host), 0);
  }

  lemma Pow32()
    ensures Pow2(32) == 0x1_0000_0000
  {
    assert Pow2(4) == 16;
    assert Pow2(8) == 256;
    assert Pow2(12) == 4096;
    assert Pow2(16) == 65536;
    assert Pow2(20) == 0x10_0000;
    assert Pow2(24) == 0x100_0000;
    assert Pow2(28) == 0x1000_0000;
  }

  lemma {:induction false} PowSplit(a: nat, n: nat)
    requires a <= n
    ensures Pow2(n) == Pow2(n - a) * Pow2(a)
    decreases n
  {
    if a < n {
      PowSplit(a, n - 1);
      Double(Pow2(n - 1 - a), Pow2(a));
    }
  }

  lemma Double(x: nat, y: nat)
    ensures 2 * (x * y) == (2 * x) * y
  {
  }

  lemma MulLe(a: nat, b: nat, size: nat)
    requires a <= b
    ensures a * size <= b * size
  {
  }

  /** A multiple below a multiple leaves a whole block of room. */
  lemma BelowMultiple(n: nat, size: nat, top: nat)
    requires size > 0 && n < top && top % size == 0
    ensures n / size * size + size <= top
  {
    var q := top / size;
    assert top == q * size;
    if q <= n / size {
      MulLe(q, n / size, size);
    }
    MulLe(n / size + 1, q, size);
  }

  // ---------------------------------------------------------------- the members

  /** Member i of the list is the one at address a, and has a MAC. */
  predicate Names(ms: seq<SnapMember>, i: int, a: Addr) {
    0 <= i < |ms| && ms[i].ip == Option.Some(a) && ms[i].mac.Mac?
  }

  ghost predicate Listed(ms: seq<SnapMember>, a: Addr) {
    exists i :: Names(ms, i, a)
  }

  /** Who has a MAC in the list is a member until 45 seconds after it was last seen; nobody else is. */
  ghost predicate MembersAre(members: map<Addr, Member>, ms: seq<SnapMember>) {
    && (forall a :: a in members <==> Listed(ms, a))
    && forall i, a :: Names(ms, i, a) && a in members ==>
         members[a] == Member(a, ms[i].mac.octets, ms[i].lastSeen + 45_000_000_000)
  }

  lemma {:induction false} MembersExactly(net: Prefix, ms: seq<SnapMember>, n: nat)
    requires n <= |ms| && GoodMembers(net, ms)
    ensures MembersAre(MembersUpTo(ms, n), ms[..n])
  {
    if n > 0 {
      MembersExactly(net, ms, n - 1);
      MembersSnoc(net, ms, n - 1);
    }
  }

  lemma ListedSnoc(ms: seq<SnapMember>, n: nat, a: Addr)
    requires n < |ms|
    ensures Listed(ms[..n + 1], a) <==> Listed(ms[..n], a) || Names(ms, n, a)
  {
    if Listed(ms[..n + 1], a) {
      var i :| Names(ms[..n + 1], i, a);
      assert i < n ==> Names(ms[..n], i, a);
    }
    if Listed(ms[..n], a) {
      var i :| Names(ms[..n], i, a);
      assert Names(ms[..n + 1], i, a);
    }
    if Names(ms, n, a) {
      assert Names(ms[..n + 1], n, a);
    }
  }

  lemma MembersSnoc(net: Prefix, ms: seq<SnapMember>, n: nat)
    requires n < |ms| && GoodMembers(net, ms) && MembersAre(MembersUpTo(ms, n), ms[..n])
    ensures MembersAre(MembersUpTo(ms, n + 1), ms[..n + 1])
  {
    var before, after := MembersUpTo(ms, n), MembersUpTo(ms, n + 1);
    forall i, a | Names(ms[..n + 1], i, a) && a in after
      ensures after[a] == Member(a, ms[i].mac.octets, ms[i].lastSeen + 45_000_000_000)
    {
      assert i < n ==> Names(ms[..n], i, a) && ms[i].ip != ms[n].ip;
    }
    forall a
      ensures a in after <==> Listed(ms[..n + 1], a)
    {
      ListedSnoc(ms, n, a);
      assert a in before <==> Listed(ms[..n], a);
      assert a in after <==> a in before || Names(ms, n, a);
    }
  }

  // ---------------------------------------------------------------- the main results

  /** What an accepted update publishes: the game's rules, open until the lease or the room ends, on the network's own
      broadcast address; and the members and infrastructure addresses of the list. */
  lemma UpdatedExactly(net: Prefix, lease: Lease, s: Snapshot)
    requires Plausible(lease, s) && GoodMembers(net, s.members) && |net.address| == 4 && net.host <= 32
    ensures var r := RulesFor(s.game.value, Option.Some(Earlier(lease.expires, s.room.value.expires)),
            BroadcastOf(net));
            && Published(r, s.game.value) && EndsFirst(r.expires, lease.expires, s.room.value.expires)
            && LastOf(net, r.broadcastIP)
    ensures MembersAre(MemberMap(s.members), s.members)
    ensures forall a :: a in NodeSet(s.nodes) <==> IsV4(a) && Option.Some(a) in s.nodes
  {
    PortsArePublished(s.game.value);
    LastIsBroadcast(net);
    MembersExactly(net, s.members, |s.members|);
    assert s.members[..|s.members|] == s.members;
  }

  /** Flows and half-built frames are forgotten exactly when some address came, went or changed its MAC. */
  lemma ChangedExactly(before: map<Addr, Member>, after: map<Addr, Member>)
    ensures Changed(before, after)
            <==> exists a <- before.Keys + after.Keys ::
                   a !in before || a !in after || before[a].mac != after[a].mac
  {
    assert before.Keys == after.Keys ==> |before| == |after|;
    if after.Keys <= before.Keys && |before| == |after| {
      SameKeys(after.Keys, before.Keys);
    }
  }

  lemma SameKeys(a: set<Addr>, b: set<Addr>)
    requires a <= b && |a| == |b|
    ensures a == b
  {
    assert b == a + (b - a);
  }

  // ---------------------------------------------------------------- acceptance

  /** Below 1536 only zero is a type of its own, and IP, ARP and VLAN have their own rules. */
  predicate TypesFit(ts: seq<u16>) {
    && |ts| <= 16 && (forall i :: 0 <= i < |ts| ==> ts[i] == 0 || ts[i] >= 1536)
    && (forall i :: 0 <= i < |ts| ==> ts[i] as int !in {0x0800, 0x0806, 0x86dd, 0x8100, 0x88a8})
    && (forall i, j :: 0 <= i < j < |ts| ==> ts[i] != ts[j])
  }

  predicate RangeFits(p: GamePort) {
    && p.protocol in {"tcp", "udp"} && p.port >= 1 && (p.portEnd == 0 || p.portEnd >= p.port)
    && (p.description != "" ==> p.describedWell)
  }

  /** Both ranges take in port x of the protocol. */
  predicate Shared(p: GamePort, q: GamePort, protocol: string, x: int) {
    Spans(p, protocol, x) && Spans(q, protocol, x)
  }

  /** No port is in two ranges of one protocol. */
  ghost predicate RangesFit(ps: seq<GamePort>) {
    && (forall p <- ps :: RangeFits(p))
    && (forall i, j, protocol, x :: 0 <= i < j < |ps| ==> !Shared(ps[i], ps[j], protocol, x))
  }

  /** The address is in the network, and nobody else has it or the MAC. */
  predicate MembersFit(n: Prefix, ms: seq<SnapMember>) {
    && (forall i :: 0 <= i < |ms| ==> ms[i].ip.Some? && Contains(n, ms[i].ip.value) && !ms[i].mac.BadMac?)
    && (forall i, j :: 0 <= i < j < |ms| ==> ms[i].ip != ms[j].ip)
    && (forall i, j :: 0 <= i < j < |ms| && ms[i].mac != NoMac ==> ms[i].mac != ms[j].mac)
  }

  lemma RangesAreValid(ps: seq<GamePort>)
    ensures RangesFit(ps) <==> (forall p <- ps :: WellFormed(p)) && Apart(ps)
  {
    forall p | p in ps
      ensures RangeFits(p) <==> WellFormed(p)
    {
    }
    if forall p <- ps :: WellFormed(p) {
      forall i, j | 0 <= i < j < |ps|
        ensures Collide(ps[i], ps[j]) <==> exists protocol, x :: Shared(ps[i], ps[j], protocol, x)
      {
        CollidingShare(ps[i], ps[j]);
      }
    }
  }

  lemma CollidingShare(p: GamePort, q: GamePort)
    requires WellFormed(p) && WellFormed(q)
    ensures Collide(p, q) <==> exists protocol, x :: Shared(p, q, protocol, x)
  {
    if Collide(p, q) {
      assert Shared(p, q, p.protocol, if p.port < q.port then q.port else p.port);
    }
  }

  /** The network's addresses are those from its masked address to its last. */
  lemma ContainsExactly(n: Prefix, a: Addr)
    ensures Contains(n, a)
            <==> && IsV4(a) && var first := Get(n.address) - Get(n.address) % Pow2(n.host);
                 first <= Get(a.octets) < first + Pow2(n.host)
  {
    if IsV4(a) {
      SameBlock(Get(n.address), Get(a.octets), Pow2(n.host));
    }
  }

  lemma SameBlock(x: nat, y: nat, size: nat)
    requires size > 0
    ensures x / size == y / size <==> x - x % size <= y < x - x % size + size
  {
    var q := x / size;
    assert x - x % size == q * size;
    if x / size == y / size {
      assert y == q * size + y % size;
    }
    if q * size <= y < q * size + size {
      ModUnique(y, size, q, y - q * size);
    }
  }

  /** An update is accepted exactly for the lease's own open room with a valid game, when every member has a distinct
      address of the network, and a distinct MAC or none. */
  lemma AcceptedExactly(net: Prefix, lease: Lease, s: Snapshot)
    ensures Plausible(lease, s) && GoodMembers(net, s.members)
            <==> && s.room.Some? && s.room.value.id == lease.room && !s.room.value.closed && s.game.Some?
                 && s.game.value.version == 1 && TypesFit(s.game.value.etherTypes) && RangesFit(s.game.value.ports)
                 && MembersFit(net, s.members)
  {
    if s.game.Some? {
      RangesAreValid(s.game.value.ports);
      TypesAreValid(s.game.value.etherTypes);
    }
  }

  lemma TypesAreValid(ts: seq<u16>)
    ensures TypesFit(ts)
            <==> && |ts| <= MAX_ETHER_TYPES && (forall i :: 0 <= i < |ts| ==> !Reserved(ts[i]))
                 && forall i, j :: 0 <= i < j < |ts| ==> ts[i] != ts[j]
  {
  }
}
