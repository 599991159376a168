/** Exactly which octets the parser accepts, and as which packet. */
module PacketExact {
  import opened Bytes
  import opened Packet

  // ---------------------------------------------------------------- IPv4

  /** The checksum holds: the words add up to a multiple of 65535, and not to nothing. */
  predicate SumHolds(h: seq<byte>) {
    WordSum(h) > 0 && WordSum(h) % 65535 == 0
  }

  lemma ChecksumHolds(h: seq<byte>)
    ensures ChecksumOf(h) == 0 <==> SumHolds(h)
  {
    var n := WordSum(h);
    if n > 0 {
      var q, r := (n - 1) / 65535, (n - 1) % 65535;
      assert n - 1 == q * 65535 + r;
      if r == 65534 {
        ModUnique(n, 65535, q + 1, 0);
      } else {
        ModUnique(n, 65535, q, r + 1);
      }
    }
  }

  /** A header of version 4 that fits into the packet, which fits into the octets; no reserved flag, and not to be
      fragmented only if it is none. */
  predicate HeaderFits(b: seq<byte>) {
    && |b| >= 20 && b[0] as int / 16 == 4
    && var h, total := b[0] as int % 16 * 4, b[2] as int * 256 + b[3] as int;
    && 20 <= h <= total <= |b| && SumHolds(b[..h])
    && b[6] < 128 && (b[6] as int / 64 == 1 ==> b[6] as int % 64 == 0 && b[7] == 0)
  }

  /** The packet that such octets are. */
  predicate PacketIs(b: seq<byte>, p: Packet)
    requires HeaderFits(b)
  {
    && p.src == V4(b[12..16]) && p.dst == V4(b[16..20]) && p.proto == b[9]
    && p.data == b[b[0] as int % 16 * 4..b[2] as int * 256 + b[3] as int]
    && p.id == b[4] as int * 256 + b[5] as int
    && p.offset == (b[6] as int % 32 * 256 + b[7] as int) * 8 && (p.more <==> b[6] as int / 32 % 2 == 1)
    && (p.fragmented <==> p.offset != 0 || p.more)
  }

  /** A fragment has data, ends below 65536, and is a multiple of eight octets unless it is the last. */
  predicate FragmentFits(p: Packet) {
    p.fragmented ==> |p.data| > 0 && p.offset + |p.data| <= 65535 && (p.more ==> |p.data| % 8 == 0)
  }

  lemma WordBits(x: byte, y: byte)
    ensures var f := x as int * 256 + y as int;
            && f % 8192 == x as int % 32 * 256 + y as int
            && (Flag(f, 0x2000) <==> x as int / 32 % 2 == 1) && (Flag(f, 0x8000) <==> x >= 128)
            && (Flag(f, 0x4000) <==> x as int / 64 % 2 == 1)
  {
  }

  lemma FlagsAre(b: seq<byte>)
    requires |b| >= 20
    ensures var f := Get(b[6..8]);
            && f % 8192 * 8 == (b[6] as int % 32 * 256 + b[7] as int) * 8
            && (Flag(f, 0x2000) <==> b[6] as int / 32 % 2 == 1) && (Flag(f, 0x8000) <==> b[6] >= 128)
            && (Flag(f, 0x4000) <==> b[6] as int / 64 % 2 == 1)
  {
    GetWord(b, 6);
    WordBits(b[6], b[7]);
  }

  lemma Parsed4Exactly(b: seq<byte>, p: Packet)
    requires |b| >= 20 && b[0] as int / 16 == 4
    ensures Parse(b) == Some(p) <==> HeaderFits(b) && PacketIs(b, p) && FragmentFits(p)
  {
    GetWord(b, 2);
    GetWord(b, 4);
    FlagsAre(b);
    if b[0] as int % 16 * 4 <= |b| {
      ChecksumHolds(b[..b[0] as int % 16 * 4]);
    }
  }

  // ---------------------------------------------------------------- IPv6

  /** The protocol number of header i of the chain: the first one, or what the header before says. */
  function ProtoAt(hs: seq<seq<byte>>, first: byte, i: nat): byte
    requires i <= |hs| && (i > 0 ==> |hs[i - 1]| > 0)
  {
    if i == 0 then first else hs[i - 1][0]
  }

  /** Hop-by-hop and destination headers, each eight octets or a multiple of it as its second octet says. */
  predicate Chain(hs: seq<seq<byte>>, first: byte) {
    && (forall i :: 0 <= i < |hs| ==> |hs[i]| >= 8 && |hs[i]| == (hs[i][1] as int + 1) * 8)
    && (forall i :: 0 <= i < |hs| ==> ProtoAt(hs, first, i) == 0 || ProtoAt(hs, first, i) == 60)
  }

  /** The data are the headers, and the rest of protocol `last` behind them. */
  predicate Headers(hs: seq<seq<byte>>, p: Packet, last: byte, rest: seq<byte>) {
    Chain(hs, p.proto) && p.data == Concat(hs) + rest && last == ProtoAt(hs, p.proto, |hs|)
  }

  /** What is left is the transport's, or begins with a fragment header. */
  predicate Rest(p: Packet, last: byte, rest: seq<byte>, limit: bool, r: Packet) {
    if limit || last != 44 then r == p.(proto := last, data := rest) && (limit || (last != 0 && last != 60))
    else
      && |rest| >= 8 && rest[1] == 0 && rest[3] as int / 2 % 4 == 0
      && r == p.(proto := rest[0], data := rest[8..], fragmented := true, more := rest[3] as int % 2 == 1,
                 offset := rest[2] as int * 256 + rest[3] as int - rest[3] as int % 8, id := Get(rest[4..8]))
  }

  /** The chain leads from p to r, with room for so many headers. */
  predicate Leads(hs: seq<seq<byte>>, last: byte, rest: seq<byte>, p: Packet, room: nat, r: Packet) {
    |hs| <= room && Headers(hs, p, last, rest) && Rest(p, last, rest, |hs| == room, r)
  }

  lemma FragmentHeader(p: Packet)
    requires |p.data| >= 8
    ensures var f := Get(p.data[2..4]);
            && (f / 2 % 4 == 0 <==> p.data[3] as int / 2 % 4 == 0) && (Flag(f, 1) <==> p.data[3] as int % 2 == 1)
            && f - f % 8 == p.data[2] as int * 256 + p.data[3] as int - p.data[3] as int % 8
  {
    GetWord(p.data, 2);
  }

  /** No header is left. */
  lemma NoHeader(p: Packet, room: nat, last: byte, rest: seq<byte>, r: Packet)
    ensures Leads([], last, rest, p, room, r)
            <==> last == p.proto && rest == p.data && Rest(p, last, rest, room == 0, r)
  {
    assert Concat([]) + rest == rest;
  }

  lemma HeaderPrepended(h: seq<byte>, hs: seq<seq<byte>>, p: Packet, q: Packet, last: byte, rest: seq<byte>)
    requires |h| >= 8 && |h| == (h[1] as int + 1) * 8 && (p.proto == 0 || p.proto == 60)
    requires q.proto == h[0] && Headers(hs, q, last, rest) && p.data == h + q.data
    ensures Headers([h] + hs, p, last, rest)
  {
    var all := [h] + hs;
    assert all[1..] == hs;
    assert h + (Concat(hs) + rest) == (h + Concat(hs)) + rest;
    forall i | 0 <= i < |all|
      ensures ProtoAt(all, p.proto, i) == 0 || ProtoAt(all, p.proto, i) == 60
    {
      if i > 0 {
        assert ProtoAt(all, p.proto, i) == ProtoAt(hs, q.proto, i - 1);
      }
    }
  }

  lemma HeaderOff(hs: seq<seq<byte>>, p: Packet, last: byte, rest: seq<byte>)
    requires hs != [] && Headers(hs, p, last, rest)
    ensures |hs[0]| >= 8 && |hs[0]| == (hs[0][1] as int + 1) * 8 && (p.proto == 0 || p.proto == 60)
    ensures |hs[0]| <= |p.data| && hs[0] == p.data[..|hs[0]|]
    ensures Headers(hs[1..], p.(proto := hs[0][0], data := p.data[|hs[0]|..]), last, rest)
  {
    var h, tail := hs[0], hs[1..];
    assert ProtoAt(hs, p.proto, 0) == p.proto;
    assert p.data == h + (Concat(tail) + rest);
    forall i | 0 <= i < |tail|
      ensures ProtoAt(tail, h[0], i) == 0 || ProtoAt(tail, h[0], i) == 60
    {
      assert ProtoAt(tail, h[0], i) == ProtoAt(hs, p.proto, i + 1);
    }
  }

  /** The packet behind the first header. */
  function Behind(p: Packet): Packet
    requires |p.data| >= 8 && (p.data[1] as int + 1) * 8 <= |p.data|
  {
    p.(proto := p.data[0], data := p.data[(p.data[1] as int + 1) * 8..])
  }

  lemma ChainEnds(p: Packet, i: nat, r: Packet)
    requires i <= 8 && (i == 8 || (p.proto != 0 && p.proto != 60))
    ensures Extensions(p, i) == Some(r) <==> Leads([], p.proto, p.data, p, 8 - i, r)
  {
    NoHeader(p, 8 - i, p.proto, p.data, r);
    if |p.data| >= 8 {
      FragmentHeader(p);
    }
  }

  lemma OneHeaderMore(p: Packet, room: nat, r: Packet, hs: seq<seq<byte>>, last: byte, rest: seq<byte>)
    returns (all: seq<seq<byte>>)
    requires |p.data| >= 8 && (p.data[1] as int + 1) * 8 <= |p.data| && (p.proto == 0 || p.proto == 60)
    requires Leads(hs, last, rest, Behind(p), room, r)
    ensures Leads(all, last, rest, p, room + 1, r)
  {
    var h := p.data[..(p.data[1] as int + 1) * 8];
    HeaderPrepended(h, hs, p, Behind(p), last, rest);
    all := [h] + hs;
  }

  lemma {:induction false} ChainFound(p: Packet, i: nat, r: Packet)
    returns (hs: seq<seq<byte>>, last: byte, rest: seq<byte>)
    requires i <= 8 && Extensions(p, i) == Some(r)
    ensures Leads(hs, last, rest, p, 8 - i, r)
    decreases 8 - i
  {
    if i == 8 || (p.proto != 0 && p.proto != 60) {
      ChainEnds(p, i, r);
      hs, last, rest := [], p.proto, p.data;
    } else {
      hs, last, rest := ChainFound(Behind(p), i + 1, r);
      hs := OneHeaderMore(p, 7 - i, r, hs, last, rest);
    }
  }

  lemma {:induction false} ChainFollowed(p: Packet, i: nat, r: Packet, hs: seq<seq<byte>>, last: byte,
      rest: seq<byte>)
    requires i <= 8 && Leads(hs, last, rest, p, 8 - i, r)
    ensures Extensions(p, i) == Some(r)
    decreases 8 - i
  {
    if hs == [] {
      NoHeader(p, 8 - i, last, rest, r);
      ChainEnds(p, i, r);
    } else {
      HeaderOff(hs, p, last, rest);
      assert Leads(hs[1..], last, rest, Behind(p), 7 - i, r);
      ChainFollowed(Behind(p), i + 1, r, hs[1..], last, rest);
    }
  }

  /** An IPv6 header in front, and a length that is not zero and fits. */
  predicate Fits6(b: seq<byte>) {
    && |b| >= 40 && b[0] as int / 16 == 6
    && 0 < b[4] as int * 256 + b[5] as int <= |b| - 40
  }

  /** Addresses, first protocol and data behind the header. */
  function Bare6(b: seq<byte>): Packet
    requires Fits6(b)
  {
    Packet(V6(b[8..24]), V6(b[24..40]), b[6], b[40..40 + (b[4] as int * 256 + b[5] as int)], 0, 0, false, false)
  }

  lemma Parse6Is(b: seq<byte>, r: Packet)
    requires |b| >= 20 && b[0] as int / 16 == 6
    ensures Parse(b) == Some(r) <==> Fits6(b) && FragmentFits(r) && Extensions(Bare6(b), 0) == Some(r)
  {
    GetWord(b, 4);
  }

  /** Octets of version 6 are a packet exactly when at most eight headers lead from the data to it. */
  lemma Parsed6Exactly(b: seq<byte>, r: Packet)
    requires |b| >= 20 && b[0] as int / 16 == 6
    ensures Parse(b) == Some(r)
            <==> Fits6(b) && FragmentFits(r) && exists hs, last, rest :: Leads(hs, last, rest, Bare6(b), 8, r)
  {
    Parse6Is(b, r);
    if Fits6(b) {
      if Extensions(Bare6(b), 0) == Some(r) {
        var hs, last, rest := ChainFound(Bare6(b), 0, r);
        assert Leads(hs, last, rest, Bare6(b), 8, r);
      }
      if hs, last, rest :| Leads(hs, last, rest, Bare6(b), 8, r) {
        ChainFollowed(Bare6(b), 0, r, hs, last, rest);
      }
    }
  }

  /** Any other version is nothing. */
  lemma OtherVersions(b: seq<byte>)
    requires |b| < 20 || (b[0] as int / 16 != 4 && b[0] as int / 16 != 6)
    ensures Parse(b) == None
  {
  }
}
