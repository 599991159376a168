/** The IP parser, the one's-complement checksum and the packet builders of the LAN carrier. */
module Packet {
  import opened Bytes

  const MAX_FRAME := 1514

  /** A netip.Addr: the invalid zero value, four octets or sixteen. */
  datatype Addr = NoAddr | V4(octets: seq<byte>) | V6(octets: seq<byte>)

  predicate IsV4(a: Addr) {
    a.V4? && |a.octets| == 4
  }

  datatype Packet = Packet(src: Addr, dst: Addr, proto: byte, data: seq<byte>,
                           id: nat, offset: nat, more: bool, fragmented: bool)

  function Flag(word: nat, bit: nat): bool
    requires bit > 0
  {
    word / bit % 2 == 1
  }

  // ---------------------------------------------------------------- checksum

  /** The sum of the big-endian words of b; an odd last octet is a high one. */
  function WordSum(b: seq<byte>): nat {
    if |b| == 0 then 0
    else if |b| == 1 then b[0] as int * 256
    else b[0] as int * 256 + b[1] as int + WordSum(b[2..])
  }

  /** The one value in 0..65535 that is congruent to n modulo 65535 and is zero only for n == 0. */
  function Residue(n: nat): (r: nat)
    ensures r < 65536 && (r == 0 <==> n == 0)
  {
    if n == 0 then 0 else (n - 1) % 65535 + 1
  }

  /** One's-complement checksum in closed form (RFC 1071). */
  function ChecksumOf(b: seq<byte>): nat {
    65535 - Residue(WordSum(b))
  }

  lemma ModStep(a: nat, q: nat)
    ensures (a + 65535 * q) % 65535 == a % 65535
  {
    ModUnique(a + 65535 * q, 65535, a / 65535 + q, a % 65535);
  }

  /** One folding step of the loop keeps the residue and shrinks the number. */
  lemma FoldKeepsResidue(n: nat)
    requires n >= 65536
    ensures n % 65536 + n / 65536 < n
    ensures Residue(n % 65536 + n / 65536) == Residue(n)
  {
    var q, r := n / 65536, n % 65536;
    assert n == 65536 * q + r;
    ModStep(q + r - 1, q);
    assert n - 1 == q + r - 1 + 65535 * q;
  }

  lemma {:induction false} WordSumBound(b: seq<byte>)
    ensures WordSum(b) <= (|b| + 1) / 2 * 65535
  {
    if |b| > 1 {
      WordSumBound(b[2..]);
    }
  }

  /** A uint32 accumulator over the words, then folding until it fits 16 bits.
      Up to 131072 octets the accumulator cannot wrap, so the result is the checksum. */
  method Checksum(bytes: seq<byte>) returns (c: nat)
    ensures c < 65536
    ensures |bytes| <= 131072 ==> c == ChecksumOf(bytes)
  {
    var b: seq<byte>, n: nat := bytes, 0;
    WordSumBound(bytes);
    assert |bytes| <= 131072 ==> WordSum(bytes) < 0x1_0000_0000;
    while |b| > 1
      invariant |b| <= |bytes|
      invariant |bytes| <= 131072 ==> n + WordSum(b) == WordSum(bytes)
    {
      n := (n + (b[0] as int * 256 + b[1] as int)) % 0x1_0000_0000;
      b := b[2..];
    }
    if |b| > 0 {
      n := (n + b[0] as int * 256) % 0x1_0000_0000;
    }
    assert |bytes| <= 131072 ==> n == WordSum(bytes);
    ghost var sum: nat := n;
    while n / 65536 != 0
      invariant Residue(n) == Residue(sum)
      decreases n
    {
      FoldKeepsResidue(n);
      n := n % 65536 + n / 65536;
    }
    assert Residue(n) == n by {
      if n > 0 {
        ModUnique(n - 1, 65535, 0, n - 1);
      }
    }
    c := 65535 - n;
  }

  lemma {:induction false} WordSumUpdate(b: seq<byte>, k: nat, hi: byte, lo: byte)
    requires k % 2 == 0 && k + 1 < |b|
    ensures WordSum(b[k := hi][k + 1 := lo]) + b[k] as int * 256 + b[k + 1] as int
            == WordSum(b) + hi as int * 256 + lo as int
  {
    var c := b[k := hi][k + 1 := lo];
    if k > 0 {
      WordSumUpdate(b[2..], k - 2, hi, lo);
      assert c[2..] == b[2..][k - 2 := hi][k - 1 := lo];
    } else {
      assert c[2..] == b[2..];
    }
  }

  /** Writing the checksum of a header into its own zero field makes the header sum to zero. */
  lemma ComplementMakesZero(b: seq<byte>, k: nat)
    requires k % 2 == 0 && k + 1 < |b| && b[k] == b[k + 1] == 0
    ensures var c := ChecksumOf(b);
            ChecksumOf(b[k := c / 256][k + 1 := c % 256]) == 0
  {
    var c := ChecksumOf(b);
    WordSumUpdate(b, k, c / 256, c % 256);
    var s := WordSum(b);
    var total := s + c;
    assert WordSum(b[k := c / 256][k + 1 := c % 256]) == total;
    if s == 0 {
      assert c == 65535 && Residue(65535) == 65535;
    } else {
      var q, r := (s - 1) / 65535, (s - 1) % 65535;
      assert s - 1 == 65535 * q + r;
      assert c == 65535 - (r + 1);
      assert total - 1 == 65534 + 65535 * q;
      ModStep(65534, q);
    }
  }

  // ---------------------------------------------------------------- parser

  const EMPTY := Packet(NoAddr, NoAddr, 0, [], 0, 0, false, false)

  /** What the fragment checks after both header formats let through. */
  predicate Usable(p: Packet) {
    p.fragmented ==> p.data != [] && p.offset + |p.data| <= 65535 && (p.more ==> |p.data| % 8 == 0)
  }

  function ParseV4(b: seq<byte>): (r: Option<Packet>)
    requires |b| >= 20
  {
    var h, total := b[0] as int % 16 * 4, Get(b[2..4]);
    if h < 20 || h > |b| || total < h || total > |b| || ChecksumOf(b[..h]) != 0 then None
    else
      var frag := Get(b[6..8]);
      var offset, more := frag % 8192 * 8, Flag(frag, 0x2000);
      var fragmented := offset != 0 || more;
      if Flag(frag, 0x8000) || (fragmented && Flag(frag, 0x4000)) then None
      else Some(Packet(V4(b[12..16]), V4(b[16..20]), b[9], b[h..total], Get(b[4..6]), offset, more, fragmented))
  }

  /** Follows at most eight hop-by-hop or destination headers and one fragment header. */
  function Extensions(p: Packet, i: nat): (r: Option<Packet>)
    requires i <= 8
    decreases 8 - i
  {
    if i == 8 then Some(p)
    else if p.proto == 44 then
      if |p.data| < 8 || p.data[1] != 0 then None
      else
        var f := Get(p.data[2..4]);
        if f / 2 % 4 != 0 then None
        else Some(p.(offset := f - f % 8, more := Flag(f, 1), fragmented := true, id := Get(p.data[4..8]),
                     proto := p.data[0], data := p.data[8..]))
    else if p.proto != 0 && p.proto != 60 then Some(p)
    else if |p.data| < 8 then None
    else
      var n := (p.data[1] as int + 1) * 8;
      if n > |p.data| then None
      else Extensions(p.(proto := p.data[0], data := p.data[n..]), i + 1)
  }

  function ParseV6(b: seq<byte>): (r: Option<Packet>)
    requires |b| >= 20
  {
    if |b| < 40 then None
    else
      var total := 40 + Get(b[4..6]);
      if total > |b| || total == 40 then None
      else Extensions(EMPTY.(src := V6(b[8..24]), dst := V6(b[24..40]), proto := b[6], data := b[40..total]), 0)
  }

  function Parse(b: seq<byte>): (r: Option<Packet>)
    ensures r.Some? ==> Usable(r.value)
  {
    if |b| < 20 then None
    else
      var r := if b[0] as int / 16 == 4 then ParseV4(b) else if b[0] as int / 16 == 6 then ParseV6(b) else None;
      if r.Some? && !Usable(r.value) then None else r
  }

  /** p.data advances over the extension headers. */
  method FollowExtensions(start: Packet) returns (p: Packet, ok: bool)
    ensures ok == Extensions(start, 0).Some?
    ensures ok ==> p == Extensions(start, 0).value
  {
    p := start;
    for i := 0 to 8
      invariant Extensions(p, i) == Extensions(start, 0)
    {
      if p.proto == 44 {
        if |p.data| < 8 || p.data[1] != 0 {
          return p, false;
        }
        var f := Get(p.data[2..4]);
        if f / 2 % 4 != 0 {
          return p, false;
        }
        p := p.(offset := f - f % 8, more := Flag(f, 1), fragmented := true, id := Get(p.data[4..8]));
        p := p.(proto := p.data[0], data := p.data[8..]);
        return p, true;
      }
      if p.proto != 0 && p.proto != 60 {
        return p, true;
      }
      if |p.data| < 8 {
        return p, false;
      }
      var n := (p.data[1] as int + 1) * 8;
      if n > |p.data| {
        return p, false;
      }
      p := p.(proto := p.data[0], data := p.data[n..]);
    }
    return p, true;
  }

  // ---------------------------------------------------------------- builders

  function UdpPayload(port: nat, data: seq<byte>): seq<byte> {
    Put(port, 2) + Put(port, 2) + Put(8 + |data|, 2) + [0, 0] + data
  }

  /** An IPv4 header without options, its checksum field still zero. */
  function Header(p: Packet): (h: seq<byte>)
    requires IsV4(p.src) && IsV4(p.dst)
    ensures |h| == 20
  {
    [0x45, 0] + Put(20 + |p.data|, 2) + Put(p.id, 2) + Put(p.offset / 8 + if p.more then 0x2000 else 0, 2)
    + [64, p.proto, 0, 0] + p.src.octets + p.dst.octets
  }

  function Summed(h: seq<byte>): (r: seq<byte>)
    requires |h| == 20
    ensures |r| == 20
  {
    var c := ChecksumOf(h);
    h[10 := c / 256][11 := c % 256]
  }

  /** An IPv4 packet, or one fragment of it, as octets. */
  function Ipv4Bytes(p: Packet): (b: seq<byte>)
    requires IsV4(p.src) && IsV4(p.dst)
    ensures |b| == 20 + |p.data|
  {
    Summed(Header(p)) + p.data
  }

  function UdpDatagram(src: Addr, dst: Addr, port: nat, data: seq<byte>): Packet {
    Packet(src, dst, 17, UdpPayload(port, data), 0, 0, false, false)
  }

  function UdpBytes(src: Addr, dst: Addr, port: nat, data: seq<byte>): (b: seq<byte>)
    requires IsV4(src) && IsV4(dst)
    ensures |b| == 28 + |data|
  {
    Ipv4Bytes(UdpDatagram(src, dst, port, data))
  }

  method UdpPacket(src: Addr, dst: Addr, port: nat, data: seq<byte>) returns (b: array<byte>)
    requires IsV4(src) && IsV4(dst)
    ensures fresh(b) && b[..] == UdpBytes(src, dst, port, data)
  {
    b := new byte[28 + |data|](_ => 0);
    PutHeader(b, src, dst, UdpDatagram(src, dst, port, data));
    PutUdp(b, port, data);
    assert b[..] == b[..20] + b[20..];
  }

  /** The twenty header octets of udpPacket; the checksum is written over its own zero field. */
  method PutHeader(b: array<byte>, src: Addr, dst: Addr, ghost p: Packet)
    requires IsV4(src) && IsV4(dst) && b.Length >= 28
    requires p == Packet(src, dst, 17, p.data, 0, 0, false, false) && 20 + |p.data| == b.Length
    requires forall k :: 0 <= k < b.Length ==> b[k] == 0
    modifies b
    ensures b[..20] == Summed(Header(p))
    ensures forall k :: 20 <= k < b.Length ==> b[k] == 0
  {
    b[0], b[8], b[9] := 0x45, 64, 17;
    PutAt(b, 2, Put(b.Length, 2));
    PutAt(b, 12, src.octets);
    PutAt(b, 16, dst.octets);
    assert Put(0, 2) == [0, 0];
    assert b[..20] == Header(p);
    var c := Checksum(b[..20]);
    GetPut16(c);
    b[10], b[11] := c / 256, c % 256;
  }

  method PutUdp(b: array<byte>, port: nat, data: seq<byte>)
    requires b.Length == 28 + |data|
    requires forall k :: 20 <= k < b.Length ==> b[k] == 0
    modifies b
    ensures b[..20] == old(b[..20]) && b[20..] == UdpPayload(port, data)
  {
    PutAt(b, 20, Put(port, 2));
    PutAt(b, 22, Put(port, 2));
    PutAt(b, 24, Put(8 + |data|, 2));
    PutAt(b, 28, data);
  }

  /** copy(b[at:], data), for data that fits. */
  method PutAt(b: array<byte>, at: nat, data: seq<byte>)
    requires at + |data| <= b.Length
    modifies b
    ensures forall k :: 0 <= k < b.Length ==>
              b[k] == if at <= k < at + |data| then data[k - at] else old(b[k])
  {
    for i := 0 to |data|
      invariant forall k :: 0 <= k < b.Length ==>
                  b[k] == if at <= k < at + i then data[k - at] else old(b[k])
    {
      b[at + i] := data[i];
    }
  }

  function Ethernet(src: seq<byte>, dst: seq<byte>, typ: nat, payload: seq<byte>): (f: seq<byte>)
    requires |src| == |dst| == 6
    ensures |f| == 14 + |payload|
  {
    dst + src + Put(typ, 2) + payload
  }

  /** What parseIP accepts and the header can carry. */
  predicate Sendable(p: Packet) {
    && IsV4(p.src) && IsV4(p.dst) && Usable(p) && 20 + |p.data| <= 65535 && p.id < 65536
    && p.offset % 8 == 0 && p.offset < 65536 && p.fragmented == (p.offset != 0 || p.more)
  }

  lemma FlagWord(units: nat, more: bool)
    requires units < 0x2000
    ensures var w := units + if more then 0x2000 else 0;
            w < 0x4000 && w % 8192 == units && Flag(w, 0x2000) == more && !Flag(w, 0x4000) && !Flag(w, 0x8000)
  {
  }

  lemma HeaderFields(p: Packet)
    requires Sendable(p)
    ensures var h := Summed(Header(p));
            && h[0] == 0x45 && Get(h[2..4]) == 20 + |p.data| && Get(h[4..6]) == p.id
            && Get(h[6..8]) == p.offset / 8 + (if p.more then 0x2000 else 0)
            && h[9] == p.proto && h[12..16] == p.src.octets && h[16..20] == p.dst.octets && ChecksumOf(h) == 0
  {
    var h := Summed(Header(p));
    var w := p.offset / 8 + if p.more then 0x2000 else 0;
    FlagWord(p.offset / 8, p.more);
    GetPut16(20 + |p.data|);
    GetPut16(p.id);
    GetPut16(w);
    assert h[2..4] == Put(20 + |p.data|, 2) && h[4..6] == Put(p.id, 2) && h[6..8] == Put(w, 2);
    ComplementMakesZero(Header(p), 10);
  }

  /** Octets behind the length that the header gives are never looked at. */
  lemma PaddingIgnored(b: seq<byte>, padding: seq<byte>)
    requires Parse(b).Some?
    ensures Parse(b + padding) == Parse(b)
  {
    var c := b + padding;
    assert c[2..4] == b[2..4] && c[4..6] == b[4..6] && c[6..8] == b[6..8];
    assert c[12..16] == b[12..16] && c[16..20] == b[16..20];
    if b[0] as int / 16 == 4 {
      var h, total := b[0] as int % 16 * 4, Get(b[2..4]);
      assert c[..h] == b[..h] && c[h..total] == b[h..total];
    } else {
      var total := 40 + Get(b[4..6]);
      assert c[8..24] == b[8..24] && c[24..40] == b[24..40] && c[40..total] == b[40..total];
    }
  }

  lemma HeaderInFront(p: Packet)
    requires Sendable(p)
    ensures var h, b := Summed(Header(p)), Ipv4Bytes(p);
            && b[..20] == h && b[2..4] == h[2..4] && b[4..6] == h[4..6] && b[6..8] == h[6..8]
            && b[12..16] == h[12..16] && b[16..20] == h[16..20] && b[20..20 + |p.data|] == p.data
  {
    var h, b := Summed(Header(p)), Ipv4Bytes(p);
    assert b[..20] == h;
  }

  lemma BareRoundTrip(p: Packet)
    requires Sendable(p)
    ensures Parse(Ipv4Bytes(p)) == Some(p)
  {
    HeaderFields(p);
    FlagWord(p.offset / 8, p.more);
    HeaderInFront(p);
    assert p.src == V4(p.src.octets) && p.dst == V4(p.dst.octets);
  }

  /** parseIP gives back every IPv4 packet and every fragment that can be sent, and nothing of the padding
      an Ethernet frame may carry behind it. */
  lemma Ipv4RoundTrip(p: Packet, padding: seq<byte>)
    requires Sendable(p)
    ensures Parse(Ipv4Bytes(p) + padding) == Some(p)
  {
    BareRoundTrip(p);
    PaddingIgnored(Ipv4Bytes(p), padding);
  }

  /** Whatever udpPacket builds, parseIP accepts as one unfragmented datagram with the same
      addresses and the same UDP payload. */
  lemma UdpRoundTrip(src: Addr, dst: Addr, port: nat, data: seq<byte>)
    requires IsV4(src) && IsV4(dst) && 28 + |data| <= 65535
    ensures Parse(UdpBytes(src, dst, port, data)) == Some(UdpDatagram(src, dst, port, data))
  {
    Ipv4RoundTrip(UdpDatagram(src, dst, port, data), []);
    assert UdpBytes(src, dst, port, data) + [] == UdpBytes(src, dst, port, data);
  }

  /** The fields the receiver reads back out of the UDP payload. */
  lemma UdpPayloadFields(port: nat, data: seq<byte>)
    requires port < 65536 && 8 + |data| < 65536
    ensures var p := UdpPayload(port, data);
            Get(p[..2]) == port && Get(p[2..4]) == port && Get(p[4..6]) == |p| && p[8..] == data
  {
    var p := UdpPayload(port, data);
    GetPut16(port);
    GetPut16(8 + |data|);
    assert p[..2] == Put(port, 2) && p[2..4] == Put(port, 2) && p[4..6] == Put(8 + |data|, 2);
    assert p[8..] == data;
  }
}
