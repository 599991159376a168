/** Fragments repeated on the wire: a duplicate can destroy the datagram it belongs to. */
module Retransmission {
  import opened Bytes
  import opened Fragments
  import opened Packet
  import opened Reassembly
  import opened Times

  /** What an ordinary link takes: 14 and 20 octets of headers and 1480 of the datagram. */
  const PIECE := 1480

  /** Who sends what to whom; target is the address behind the frame's destination. */
  datatype Route = Route(src: Addr, dst: Addr, proto: byte, id: nat, from: seq<byte>, to: seq<byte>, target: Addr)

  predicate Real(l: Route) {
    IsV4(l.src) && IsV4(l.dst) && l.id < 65536 && |l.from| == |l.to| == 6
  }

  predicate Fits(whole: seq<byte>) {
    PIECE < |whole| <= 65515
  }

  function Cut(l: Route, whole: seq<byte>, n: nat): Packet
    requires PIECE * n < |whole|
  {
    var end := Earlier(PIECE * n + PIECE, |whole|);
    Packet(l.src, l.dst, l.proto, whole[PIECE * n..end], l.id, PIECE * n, end < |whole|, true)
  }

  function FrameOf(l: Route, whole: seq<byte>, n: nat): seq<byte>
    requires Real(l) && PIECE * n < |whole|
  {
    Ethernet(l.from, l.to, 0x800, Ipv4Bytes(Cut(l, whole, n)))
  }

  function Sent(l: Route, whole: seq<byte>, now: int, n: nat): Arrival
    requires Real(l) && Fits(whole) && PIECE * n < |whole|
  {
    Event(Cut(l, whole, n), FrameOf(l, whole, n), l.target, now)
  }

  /** The first n fragments in order. */
  function Stream(l: Route, whole: seq<byte>, now: int, n: nat): (es: seq<Arrival>)
    requires Real(l) && Fits(whole) && PIECE * n < |whole| + PIECE
    ensures |es| == n
  {
    seq(n, i requires 0 <= i < n => Sent(l, whole, now, i))
  }

  function KeyOf(l: Route): FragKey {
    FragKey(l.src, l.dst, l.target, l.id, l.proto)
  }

  lemma CutIsSendable(l: Route, whole: seq<byte>, n: nat)
    requires Real(l) && Fits(whole) && PIECE * n < |whole|
    ensures Sendable(Cut(l, whole, n)) && |Cut(l, whole, n).data| <= PIECE
  {
    assert (PIECE * n) % 8 == 0 && PIECE % 8 == 0;
  }

  lemma Framed(from: seq<byte>, to: seq<byte>, p: Packet)
    requires |from| == |to| == 6 && Sendable(p)
    ensures |Ethernet(from, to, 0x800, Ipv4Bytes(p))| == 34 + |p.data|
    ensures Parse(Ethernet(from, to, 0x800, Ipv4Bytes(p))[14..]) == Some(p)
  {
    BareRoundTrip(p);
    assert Ethernet(from, to, 0x800, Ipv4Bytes(p))[14..] == Ipv4Bytes(p);
  }

  /** The fragments are frames of legal length that the parser reads as the pieces of the datagram. */
  lemma FramesAreReal(l: Route, whole: seq<byte>, n: nat)
    requires Real(l) && Fits(whole) && PIECE * n < |whole|
    ensures |FrameOf(l, whole, n)| <= MAX_FRAME
    ensures Parse(FrameOf(l, whole, n)[14..]) == Some(Cut(l, whole, n))
  {
    CutIsSendable(l, whole, n);
    Framed(l.from, l.to, Cut(l, whole, n));
  }

  lemma CutPiece(l: Route, whole: seq<byte>, now: int, n: nat)
    requires Real(l) && Fits(whole) && PIECE * n < |whole|
    ensures Piece(Sent(l, whole, now, n), whole) && Belongs(Sent(l, whole, now, n), KeyOf(l))
  {
  }

  lemma StreamSnoc(l: Route, whole: seq<byte>, now: int, n: nat)
    requires Real(l) && Fits(whole) && 0 < n && PIECE * n < |whole| + PIECE
    ensures Stream(l, whole, now, n) == Stream(l, whole, now, n - 1) + [Sent(l, whole, now, n - 1)]
  {
  }

  lemma {:induction false} StreamSum(l: Route, whole: seq<byte>, now: int, n: nat)
    requires Real(l) && Fits(whole) && PIECE * n < |whole| + PIECE
    ensures SumLen(PartsOf(Stream(l, whole, now, n))) == Earlier(PIECE * n, |whole|)
  {
    if n > 0 {
      StreamSum(l, whole, now, n - 1);
      var parts := PartsOf(Stream(l, whole, now, n));
      assert parts[..n - 1] == PartsOf(Stream(l, whole, now, n - 1));
    }
  }

  lemma {:induction false} AllMine(l: Route, whole: seq<byte>, now: int, n: nat)
    requires Real(l) && Fits(whole) && PIECE * n < |whole| + PIECE
    ensures Mine(Stream(l, whole, now, n), KeyOf(l)) == Stream(l, whole, now, n)
  {
    if n > 0 {
      AllMine(l, whole, now, n - 1);
      StreamSnoc(l, whole, now, n);
      CutPiece(l, whole, now, n - 1);
      assert Stream(l, whole, now, n)[..n - 1] == Stream(l, whole, now, n - 1);
    }
  }

  lemma StreamIsAll(l: Route, whole: seq<byte>, now: int, n: nat)
    requires Real(l) && Fits(whole) && |whole| <= PIECE * n < |whole| + PIECE
    ensures AllOf(Stream(l, whole, now, n), whole)
  {
    var es := Stream(l, whole, now, n);
    StreamSum(l, whole, now, n);
    forall e | e in es
      ensures Piece(e, whole)
    {
      var i :| 0 <= i < n && es[i] == e;
      CutPiece(l, whole, now, i);
    }
    forall i, j | 0 <= i < j < n
      ensures !Overlaps(PartsOf(es)[i], PartsOf(es)[j])
    {
      assert PartsOf(es)[i].End() <= PIECE * (i + 1) <= PIECE * j;
    }
  }

  lemma Undisturbed(l: Route, whole: seq<byte>, now: int)
    requires Real(l) && 44 * PIECE < |whole| <= 65515
    ensures var es := Stream(l, whole, now, 45);
            && InTime(map[], es, KeyOf(l)) && Mine(es, KeyOf(l)) == es && AllOf(es, whole)
  {
    var es := Stream(l, whole, now, 45);
    AllMine(l, whole, now, 45);
    StreamIsAll(l, whole, now, 45);
    CutPiece(l, whole, now, 0);
    CutPiece(l, whole, now, 44);
    assert Prune(map[], now) == map[];
  }

  lemma HeldSoFarAll(l: Route, whole: seq<byte>, now: int, i: nat)
    requires Real(l) && 44 * PIECE < |whole| <= 65515 && i < 44
    ensures ResultAt(map[], Stream(l, whole, now, 45), i) == Hold
  {
    Undisturbed(l, whole, now);
    CutPiece(l, whole, now, i);
    HeldSoFar(map[], Stream(l, whole, now, 45), KeyOf(l), whole, i + 1);
  }

  lemma StreamPrefix(l: Route, whole: seq<byte>, now: int, n: nat, m: nat)
    requires Real(l) && Fits(whole) && n <= m && PIECE * m < |whole| + PIECE
    ensures Stream(l, whole, now, m)[..n] == Stream(l, whole, now, n)
  {
  }

  lemma HeldIs(es: seq<Arrival>, xs: seq<Arrival>, k: FragKey, whole: seq<byte>)
    requires es != [] && |xs| <= |es| && es[..|xs|] == xs && Mine(xs, k) == xs && Holding(map[], es, k, whole, |xs|)
    ensures var t := After(map[], xs); k in t && t[k] == Built(xs, whole, es[0].now + LIFETIME)
  {
  }

  /** What the table holds after the first 44 of 45 fragments. */
  lemma AllButOne(l: Route, whole: seq<byte>, now: int)
    requires Real(l) && 44 * PIECE < |whole| <= 65515
    ensures var t := After(map[], Stream(l, whole, now, 44));
            && KeyOf(l) in t && t[KeyOf(l)] == Built(Stream(l, whole, now, 44), whole, now + LIFETIME)
            && t[KeyOf(l)].size == 44 * PIECE
  {
    var es, xs := Stream(l, whole, now, 45), Stream(l, whole, now, 44);
    Undisturbed(l, whole, now);
    StreamPrefix(l, whole, now, 44, 45);
    HeldSoFar(map[], es, KeyOf(l), whole, |xs|);
    AllMine(l, whole, now, 44);
    HeldIs(es, xs, KeyOf(l), whole);
    StreamSum(l, whole, now, 44);
  }

  /** The 45 fragments of a large datagram, with fragment j repeated before the last. */
  function Repeated(l: Route, whole: seq<byte>, now: int, j: nat): (es: seq<Arrival>)
    requires Real(l) && 44 * PIECE < |whole| <= 65515 && j < 44
    ensures |es| == 46
  {
    Stream(l, whole, now, 44) + [Sent(l, whole, now, j), Sent(l, whole, now, 44)]
  }

  lemma CopyDropsSet(l: Route, whole: seq<byte>, now: int, j: nat)
    requires Real(l) && 44 * PIECE < |whole| <= 65515 && j < 44
    ensures var es := Repeated(l, whole, now, j);
            ResultAt(map[], es, 44) == Hold && KeyOf(l) !in After(map[], es[..45])
  {
    var es, k, e := Repeated(l, whole, now, j), KeyOf(l), Sent(l, whole, now, j);
    AllButOne(l, whole, now);
    var t := After(map[], es[..44]);
    assert es[..44] == Stream(l, whole, now, 44);
    assert es[..45][..44] == es[..44] && es[..45][44] == e;
    CutPiece(l, whole, now, j);
    var parts := PartsOf(es[..44]);
    assert parts[j] in parts && parts[j].offset == e.p.offset && parts[j].data == e.p.data;
    DuplicateIgnoredIff(t, e.p, e.frame, e.target, now);
  }

  /** A fragment that meets no set of its datagram cannot complete it, unless it is the whole of it. */
  lemma AloneIsHeld(t: Table, e: Arrival)
    requires Valid(t) && e.p.fragmented && Key(e.p, e.target) !in t && e.p.offset > 0
    ensures Defrag(t, e.p, e.frame, e.target, e.now).1 == Hold
  {
    var s := New(e.now);
    assert FateOf(s, e.p, e.frame).Store? ==> FateOf(s, e.p, e.frame).set'.size == |e.p.data|;
  }

  lemma LastIsHeld(l: Route, whole: seq<byte>, now: int, j: nat)
    requires Real(l) && 44 * PIECE < |whole| <= 65515 && j < 44
    ensures ResultAt(map[], Repeated(l, whole, now, j), 45) == Hold
  {
    var es := Repeated(l, whole, now, j);
    CopyDropsSet(l, whole, now, j);
    CutPiece(l, whole, now, 44);
    AloneIsHeld(After(map[], es[..45]), es[45]);
  }

  lemma SameSoFar(t: Table, xs: seq<Arrival>, ys: seq<Arrival>, i: nat)
    requires Valid(t) && i < |xs| && i < |ys| && xs[..i] == ys[..i] && xs[i] == ys[i]
    ensures ResultAt(t, xs, i) == ResultAt(t, ys, i)
  {
  }

  lemma BeforeTheCopy(l: Route, whole: seq<byte>, now: int, j: nat, i: nat)
    requires Real(l) && 44 * PIECE < |whole| <= 65515 && j < 44 && i < 44
    ensures ResultAt(map[], Repeated(l, whole, now, j), i) == Hold
  {
    var es, all := Repeated(l, whole, now, j), Stream(l, whole, now, 45);
    HeldSoFarAll(l, whole, now, i);
    assert es[..i] == all[..i] && es[i] == all[i];
    SameSoFar(map[], es, all, i);
  }

  lemma UndisturbedPasses(l: Route, whole: seq<byte>, now: int)
    requires Real(l) && 44 * PIECE < |whole| <= 65515
    ensures ResultAt(map[], Stream(l, whole, now, 45), 44)
            == Pass(Whole(Cut(l, whole, 44), whole), Frames(PartsOf(Stream(l, whole, now, 45))))
  {
    Undisturbed(l, whole, now);
    AnyOrderRebuilds(map[], Stream(l, whole, now, 45), KeyOf(l), whole);
  }

  /** Undisturbed, the 45 fragments of any datagram of 65121 to 65515 octets rebuild it. With an exact copy
      of any of the first 44 before the last, none of the 46 arrivals lets it through. */
  lemma RetransmissionLosesReassembly(l: Route, whole: seq<byte>, now: int, j: nat)
    requires Real(l) && 44 * PIECE < |whole| <= 65515 && j < 44
    ensures ResultAt(map[], Stream(l, whole, now, 45), 44)
            == Pass(Whole(Cut(l, whole, 44), whole), Frames(PartsOf(Stream(l, whole, now, 45))))
    ensures forall i :: 0 <= i < 46 ==> ResultAt(map[], Repeated(l, whole, now, j), i) == Hold
  {
    UndisturbedPasses(l, whole, now);
    forall i | 0 <= i < 46
      ensures ResultAt(map[], Repeated(l, whole, now, j), i) == Hold
    {
      if i < 44 {
        BeforeTheCopy(l, whole, now, j, i);
      } else if i == 44 {
        CopyDropsSet(l, whole, now, j);
      } else {
        LastIsHeld(l, whole, now, j);
      }
    }
  }
}
