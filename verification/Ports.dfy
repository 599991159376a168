/** Game port ranges: validation and the boolean table of the device. */
module Ports {
  const LAN_VERSION := 1
  const MAX_ETHER_TYPES := 16

  type u16 = x: int | 0 <= x < 65536

  /** describedWell stands for ValidLabel(description, 120). */
  datatype GamePort = GamePort(protocol: string, port: u16, portEnd: u16, description: string, describedWell: bool)

  function PortEnd(p: GamePort): u16 {
    if p.portEnd != 0 then p.portEnd else p.port
  }

  predicate WellFormed(p: GamePort) {
    && (p.protocol == "tcp" || p.protocol == "udp") && p.port != 0 && PortEnd(p) >= p.port
    && (p.description == "" || p.describedWell)
  }

  /** Row 1 of the tables is UDP, row 0 everything else. */
  function Row(p: GamePort): (r: nat)
    ensures r < 2
  {
    if p.protocol == "udp" then 1 else 0
  }

  predicate Covers(p: GamePort, row: nat, x: int) {
    Row(p) == row && p.port <= x <= PortEnd(p)
  }

  predicate Collide(p: GamePort, q: GamePort) {
    Row(p) == Row(q) && p.port <= PortEnd(q) && q.port <= PortEnd(p)
  }

  /** Same-protocol intervals are pairwise disjoint. */
  predicate Apart(ports: seq<GamePort>) {
    forall i, j :: 0 <= i < j < |ports| ==> !Collide(ports[i], ports[j])
  }

  /** The set of ports of one row that some interval covers. */
  function Open(ports: seq<GamePort>, row: nat): set<int> {
    set x: int | 0 <= x < 65536 && Covered(ports, row, x)
  }

  predicate Covered(ports: seq<GamePort>, row: nat, x: int) {
    exists p <- ports :: Covers(p, row, x)
  }

  /** Collision is sharing a port. */
  lemma CollideShares(p: GamePort, q: GamePort)
    requires WellFormed(p) && WellFormed(q)
    ensures Collide(p, q) <==> exists x :: Covers(p, Row(p), x) && Covers(q, Row(p), x)
  {
    if Collide(p, q) {
      var x := if p.port < q.port then q.port else p.port;
      assert Covers(p, Row(p), x) && Covers(q, Row(p), x);
    }
  }

  ghost predicate Marks(seen: array2<bool>, ports: seq<GamePort>, n: nat)
    requires seen.Length0 == 2 && seen.Length1 == 65536 && n <= |ports|
    reads seen
  {
    forall row, x :: 0 <= row < 2 && 0 <= x < 65536 ==>
      (seen[row, x] <==> exists i :: 0 <= i < n && Covers(ports[i], row, x))
  }

  /** Marks one interval; stops at the first port that is already marked. */
  method MarkRange(seen: array2<bool>, row: nat, first: u16, last: u16) returns (clash: bool)
    requires seen.Length0 == 2 && seen.Length1 == 65536 && row < 2
    modifies seen
    ensures clash <==> exists x :: first <= x <= last && old(seen[row, x])
    ensures !clash ==> forall r, x :: 0 <= r < 2 && 0 <= x < 65536 ==>
              (seen[r, x] <==> old(seen[r, x]) || (r == row && first <= x <= last))
  {
    var port: int := first;
    while port <= last
      invariant first <= port && (port <= last + 1 || port == first)
      invariant forall x :: first <= x < port ==> x < 65536 && !old(seen[row, x])
      invariant forall r, x :: 0 <= r < 2 && 0 <= x < 65536 ==>
                  (seen[r, x] <==> old(seen[r, x]) || (r == row && first <= x < port))
      decreases last as int + 1 - port
    {
      if seen[row, port] {
        return true;
      }
      seen[row, port] := true;
      port := port + 1;
    }
    clash := false;
  }

  /** ValidateGamePorts: true exactly for well formed, same-protocol disjoint ranges. */
  method ValidateGamePorts(ports: seq<GamePort>) returns (ok: bool)
    ensures ok <==> (forall p <- ports :: WellFormed(p)) && Apart(ports)
  {
    var seen := new bool[2, 65536]((_, _) => false);
    for n := 0 to |ports|
      invariant forall i :: 0 <= i < n ==> WellFormed(ports[i])
      invariant Apart(ports[..n])
      invariant Marks(seen, ports, n)
    {
      var p := ports[n];
      var end := PortEnd(p);
      if (p.protocol != "tcp" && p.protocol != "udp") || p.port == 0 || end < p.port
         || (p.description != "" && !p.describedWell) {
        assert p in ports;
        return false;
      }
      label Before:
      var clash := MarkRange(seen, Row(p), p.port, end);
      if clash {
        ghost var x :| p.port <= x <= end && old@Before(seen[Row(p), x]);
        ghost var i :| 0 <= i < n && Covers(ports[i], Row(p), x);
        assert Collide(ports[i], ports[n]);
        return false;
      }
      forall x, i | 0 <= i < n && Covers(ports[n], Row(p), x)
        ensures !Covers(ports[i], Row(p), x)
      {
        assert !old@Before(seen[Row(p), x]);
      }
      NoClashApart(ports, n);
    }
    assert ports[..|ports|] == ports;
    ok := true;
  }

  lemma NoClashApart(ports: seq<GamePort>, n: nat)
    requires n < |ports| && Apart(ports[..n]) && forall i :: 0 <= i <= n ==> WellFormed(ports[i])
    requires forall x, i :: 0 <= i < n && Covers(ports[n], Row(ports[n]), x) ==> !Covers(ports[i], Row(ports[n]), x)
    ensures Apart(ports[..n + 1])
  {
    forall i | 0 <= i < n
      ensures !Collide(ports[i], ports[n])
    {
      CollideShares(ports[i], ports[n]);
    }
    var all := ports[..n + 1];
    forall i, j | 0 <= i < j < |all|
      ensures !Collide(all[i], all[j])
    {
      if j < n {
        assert ports[..n][i] == all[i] && ports[..n][j] == all[j];
      }
    }
  }

  /** The port loop of Update: afterwards the table is true at a port exactly when some interval
      of that protocol covers it, 65535 included. */
  method FillTable(table: array2<bool>, ports: seq<GamePort>)
    requires table.Length0 == 2 && table.Length1 == 65536
    modifies table
    ensures forall row, x :: 0 <= row < 2 && 0 <= x < 65536 ==> (table[row, x] <==> x in Open(ports, row))
  {
    forall row, x | 0 <= row < 2 && 0 <= x < 65536 {
      table[row, x] := false;
    }
    for n := 0 to |ports|
      invariant Marks(table, ports, n)
    {
      var p := ports[n];
      var port: int := p.port;
      while port <= PortEnd(p)
        invariant p.port <= port && (port <= PortEnd(p) + 1 || port == p.port)
        invariant forall r, x :: 0 <= r < 2 && 0 <= x < 65536 ==>
                    (table[r, x] <==> (exists i :: 0 <= i < n && Covers(ports[i], r, x))
                                      || (r == Row(p) && p.port <= x < port))
        decreases PortEnd(p) as int + 1 - port
      {
        table[Row(p), port] := true;
        port := port + 1;
      }
      assert forall r, x :: Covers(p, r, x) <==> r == Row(p) && p.port <= x < port;
    }
    forall row, x | 0 <= row < 2 && 0 <= x < 65536
      ensures table[row, x] <==> x in Open(ports, row)
    {
      assert (exists i :: 0 <= i < |ports| && Covers(ports[i], row, x)) <==> Covered(ports, row, x);
    }
  }

  // ---------------------------------------------------------------- the whole LAN policy

  datatype Game = Game(revision: nat, enabled: bool, version: int, broadcast: bool, multicast: bool,
                       etherTypes: seq<u16>, ports: seq<GamePort>)

  predicate Reserved(typ: u16) {
    (typ != 0 && typ < 1536) || typ == 0x0800 || typ == 0x0806 || typ == 0x86dd || typ == 0x8100 || typ == 0x88a8
  }

  predicate ValidGame(g: Game) {
    && g.version == LAN_VERSION && |g.etherTypes| <= MAX_ETHER_TYPES
    && (forall i :: 0 <= i < |g.etherTypes| ==> !Reserved(g.etherTypes[i]))
    && (forall i, j :: 0 <= i < j < |g.etherTypes| ==> g.etherTypes[i] != g.etherTypes[j])
    && (forall p <- g.ports :: WellFormed(p)) && Apart(g.ports)
  }

  /** ValidateLAN. No valid policy names IPv4, ARP, IPv6 or VLAN as an additional Ethernet type. */
  method ValidateLAN(g: Game) returns (ok: bool)
    ensures ok <==> ValidGame(g)
  {
    if g.version != LAN_VERSION || |g.etherTypes| > MAX_ETHER_TYPES {
      return false;
    }
    var seen: set<u16> := {};
    for n := 0 to |g.etherTypes|
      invariant forall t :: t in seen <==> exists i :: 0 <= i < n && g.etherTypes[i] == t
      invariant forall i :: 0 <= i < n ==> !Reserved(g.etherTypes[i])
      invariant forall i, j :: 0 <= i < j < n ==> g.etherTypes[i] != g.etherTypes[j]
    {
      var typ := g.etherTypes[n];
      if typ in seen || Reserved(typ) {
        return false;
      }
      seen := seen + {typ};
    }
    ok := ValidateGamePorts(g.ports);
  }
}
