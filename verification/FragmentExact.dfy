/** Exactly what a fragment does to the table: which sets stand, which fragment is kept, dropped or the last. */
module FragmentExact {
  import opened Bytes
  import opened Packet
  import opened Fragments
  import Reassembly

  // ---------------------------------------------------------------- octets

  /** The part holds octet x of its datagram. */
  predicate Has(q: Part, x: int) {
    q.offset <= x < q.offset + |q.data|
  }

  /** Octet x of the datagram has arrived. */
  predicate Held(s: FragSet, x: int) {
    exists q <- s.parts :: Has(q, x)
  }

  /** There is room for the fragment, and it keeps to the end if that is known. */
  predicate Fits(s: FragSet, p: Packet) {
    && |s.parts| < 128 && s.size + |p.data| <= 65535
    && (s.total >= 0 ==> if p.more then p.offset + |p.data| <= s.total else p.offset + |p.data| == s.total)
  }

  /** It brings some octet that has arrived. */
  predicate Collides(s: FragSet, p: Packet) {
    exists x | p.offset <= x < p.offset + |p.data| :: Held(s, x)
  }

  /** It has arrived as it is. */
  predicate Again(s: FragSet, p: Packet) {
    exists q <- s.parts :: q.offset == p.offset && q.data == p.data
  }

  /** It is the last, and something behind it has arrived. */
  predicate Cuts(s: FragSet, p: Packet) {
    !p.more && exists x | p.offset + |p.data| <= x < 65535 :: Held(s, x)
  }

  lemma SharedOctet(a: Part, b: Part)
    requires a.data != [] && b.data != []
    ensures Overlaps(a, b) <==> exists x | a.offset <= x < a.offset + |a.data| :: Has(b, x)
  {
    if Overlaps(a, b) {
      assert Has(b, if a.offset < b.offset then b.offset else a.offset);
    }
  }

  lemma CollidesExactly(s: FragSet, p: Packet, frame: seq<byte>)
    requires Sound(s) && p.data != []
    ensures Collides(s, p) <==> exists q <- s.parts :: Overlaps(Part(p.offset, p.data, frame), q)
  {
    var part := Part(p.offset, p.data, frame);
    forall q | q in s.parts
      ensures Overlaps(part, q) <==> exists x | p.offset <= x < p.offset + |p.data| :: Has(q, x)
    {
      SharedOctet(part, q);
    }
    if q :| q in s.parts && Overlaps(part, q) {
      var x :| p.offset <= x < p.offset + |p.data| && Has(q, x);
      assert Held(s, x);
    }
  }

  lemma CutsExactly(s: FragSet, p: Packet)
    requires Sound(s)
    ensures Cuts(s, p) <==> !p.more && exists q <- s.parts :: q.End() > p.offset + |p.data|
  {
    if q :| q in s.parts && q.End() > p.offset + |p.data| {
      var x := if q.offset < p.offset + |p.data| then p.offset + |p.data| else q.offset;
      assert Has(q, x) && Held(s, x);
    }
  }

  /** A repeated fragment brings octets that have arrived, and cuts nothing off. */
  lemma AgainCollides(s: FragSet, p: Packet)
    requires Sound(s) && p.data != [] && Again(s, p)
    ensures Collides(s, p)
  {
    var q :| q in s.parts && q.offset == p.offset && q.data == p.data;
    assert Has(q, p.offset) && Held(s, p.offset);
  }

  // ---------------------------------------------------------------- one set

  /** The set with the fragment at its end; the last fragment gives the length. */
  function With(s: FragSet, p: Packet, frame: seq<byte>): FragSet {
    FragSet(s.expires, if p.more then s.total else p.offset + |p.data|, s.size + |p.data|,
            s.parts + [Part(p.offset, p.data, frame)])
  }

  /** A fragment is ignored exactly when it fits and has arrived as it is, and stored exactly when it fits and brings
      only new octets, none of which is behind the end; otherwise the set is dropped. */
  lemma FateExactly(s: FragSet, p: Packet, frame: seq<byte>)
    requires Sound(s) && Usable(p) && p.fragmented
    ensures FateOf(s, p, frame)
            == if !Fits(s, p) then Drop
               else if Again(s, p) then Ignore
               else if Collides(s, p) || Cuts(s, p) then Drop
               else Store(With(s, p, frame))
  {
    CollidesExactly(s, p, frame);
    CutsExactly(s, p);
    if Again(s, p) {
      AgainCollides(s, p);
    }
  }

  // ---------------------------------------------------------------- the table

  /** The set under the key has not run out. */
  predicate Stands(t: Table, k: FragKey, now: int) {
    k in t && now < t[k].expires
  }

  function Standing(t: Table, now: int): set<FragKey> {
    set k | k in t && Stands(t, k, now)
  }

  /** One datagram: both addresses, the receiver, the identification and the protocol. */
  predicate SameDatagram(k: FragKey, p: Packet, target: Addr) {
    k.src == p.src && k.dst == p.dst && k.target == target && k.id == p.id && k.proto == p.proto
  }

  /** The set that the fragment comes to: the one that stands, or a new one for two seconds. */
  function Begun(t: Table, k: FragKey, now: int): FragSet {
    if Stands(t, k, now) then t[k] else FragSet(now + 2_000_000_000, -1, 0, [])
  }

  /** Every other set that has not run out stays as it is; the rest is gone. */
  ghost predicate OthersStand(t: Table, k: FragKey, now: int, t': Table) {
    forall o :: o != k ==> (o in t' <==> Stands(t, o, now)) && (o in t' ==> t'[o] == t[o])
  }

  /** The datagram is complete with this fragment. */
  predicate Completes(s: FragSet, p: Packet) {
    var total := if p.more then s.total else p.offset + |p.data|;
    total >= 0 && s.size + |p.data| == total
  }

  /** The datagram and the frames of its fragments in the order in which they came. */
  predicate Rebuilt(s: FragSet, p: Packet, frame: seq<byte>, r: Result) {
    && r.Pass? && r.packet == p.(data := r.packet.data, fragmented := false, offset := 0, more := false)
    && |r.packet.data| == s.size + |p.data|
    && |r.frames| == |s.parts| + 1 && r.frames[|s.parts|] == frame
    && (forall i :: 0 <= i < |s.parts| ==> r.frames[i] == s.parts[i].frame)
    && |r.packet.data| >= p.offset + |p.data|
    && r.packet.data[p.offset..p.offset + |p.data|] == p.data
    && forall q <- s.parts :: q.offset + |q.data| <= |r.packet.data|
         && r.packet.data[q.offset..q.offset + |q.data|] == q.data
  }

  lemma PartInPlace(parts: seq<Part>, total: nat, i: nat)
    requires Disjoint(parts) && Inside(parts, total) && i < |parts|
    ensures var q := parts[i];
            q.offset + |q.data| <= total && Assemble(parts, total)[q.offset..q.offset + |q.data|] == q.data
  {
    var q, data := parts[i], Assemble(parts, total);
    assert q in parts;
    forall x | 0 <= x < |q.data|
      ensures data[q.offset..q.offset + |q.data|][x] == q.data[x]
    {
      Reassembly.AssembleAt(parts, total, i, q.offset + x);
    }
  }

  lemma RebuiltExactly(s: FragSet, p: Packet, frame: seq<byte>)
    requires Sound(s) && Usable(p) && p.fragmented && |frame| <= MAX_FRAME
    requires FateOf(s, p, frame) == Store(With(s, p, frame)) && Completes(s, p)
    ensures var s' := With(s, p, frame);
            && s'.total == s'.size && Inside(s'.parts, s'.total)
            && Rebuilt(s, p, frame, Pass(Whole(p, Assemble(s'.parts, s'.total)), Frames(s'.parts)))
  {
    StoreKeepsSound(s, p, frame);
    var s' := With(s, p, frame);
    PartInPlace(s'.parts, s'.total, |s.parts|);
    forall q | q in s.parts
      ensures q.offset + |q.data| <= s'.total
              && Assemble(s'.parts, s'.total)[q.offset..q.offset + |q.data|] == q.data
    {
      var i :| 0 <= i < |s.parts| && s.parts[i] == q;
      assert s'.parts[i] == q;
      PartInPlace(s'.parts, s'.total, i);
    }
  }

  /** No room: no set stands for the datagram, and 64 stand for others. */
  predicate Crowded(t: Table, k: FragKey, now: int) {
    !Stands(t, k, now) && |Standing(t, now)| >= 64
  }

  /** What becomes of the fragment's own set, and what is answered. */
  ghost predicate OwnSet(t: Table, k: FragKey, p: Packet, frame: seq<byte>, now: int, t': Table, r: Result) {
    var s := Begun(t, k, now);
    if Crowded(t, k, now) || !Fits(s, p) || (!Again(s, p) && (Collides(s, p) || Cuts(s, p))) then k !in t' && r == Hold
    else if Again(s, p) then k in t' && t'[k] == s && r == Hold
    else if !Completes(s, p) then k in t' && t'[k] == With(s, p, frame) && r == Hold
    else k !in t' && Rebuilt(s, p, frame, r)
  }

  lemma PruneIs(t: Table, now: int)
    ensures Prune(t, now).Keys == Standing(t, now) && |Prune(t, now)| == |Standing(t, now)|
  {
    assert |Prune(t, now)| == |Prune(t, now).Keys|;
  }

  /** The call for a fragment that finds a place, once its fate is known. */
  lemma Settles(t: Table, k: FragKey, p: Packet, frame: seq<byte>, target: Addr, now: int, fate: Fate)
    requires Valid(t) && Usable(p) && p.fragmented && |frame| <= MAX_FRAME && SameDatagram(k, p, target)
    requires !Crowded(t, k, now) && fate == FateOf(Begun(t, k, now), p, frame)
    ensures Sound(Begun(t, k, now)) && (fate.Store? ==> Stored(fate.set'))
    ensures Defrag(t, p, frame, target, now) == Settle(Prune(t, now), k, Begun(t, k, now), fate, p)
  {
    PruneIs(t, now);
    assert k == Key(p, target) && SetFor(Prune(t, now), k, now) == Begun(t, k, now);
    SetForSound(t, k, now);
    StoreKeepsSound(Begun(t, k, now), p, frame);
  }

  lemma Completed(live: Table, k: FragKey, s: FragSet, p: Packet, frame: seq<byte>)
    requires Sound(s) && Usable(p) && p.fragmented && |frame| <= MAX_FRAME && Completes(s, p)
    requires FateOf(s, p, frame) == Store(With(s, p, frame)) && Stored(With(s, p, frame))
    ensures var (t', r) := Settle(live, k, s, Store(With(s, p, frame)), p); k !in t' && Rebuilt(s, p, frame, r)
  {
    RebuiltExactly(s, p, frame);
  }

  lemma OwnSetExactly(t: Table, k: FragKey, p: Packet, frame: seq<byte>, target: Addr, now: int)
    requires Valid(t) && Usable(p) && p.fragmented && |frame| <= MAX_FRAME && SameDatagram(k, p, target)
    ensures var (t', r) := Defrag(t, p, frame, target, now); OwnSet(t, k, p, frame, now, t', r)
  {
    if Crowded(t, k, now) {
      PruneIs(t, now);
      assert k == Key(p, target);
    } else {
      var s := Begun(t, k, now);
      var fate := FateOf(s, p, frame);
      Settles(t, k, p, frame, target, now, fate);
      FateExactly(s, p, frame);
      if fate.Store? && Completes(s, p) {
        Completed(Prune(t, now), k, s, p, frame);
      }
    }
  }

  lemma OthersExactly(t: Table, k: FragKey, p: Packet, frame: seq<byte>, target: Addr, now: int)
    requires Valid(t) && Usable(p) && p.fragmented && |frame| <= MAX_FRAME && SameDatagram(k, p, target)
    ensures OthersStand(t, k, now, Defrag(t, p, frame, target, now).0)
  {
    if Crowded(t, k, now) {
      PruneIs(t, now);
      assert k == Key(p, target);
    } else {
      Settles(t, k, p, frame, target, now, FateOf(Begun(t, k, now), p, frame));
    }
  }

  /** A whole packet passes by; a fragment concerns only the set of its datagram, and what becomes of that is exact. */
  lemma DefragExactly(t: Table, k: FragKey, p: Packet, frame: seq<byte>, target: Addr, now: int)
    requires Valid(t) && Usable(p) && |frame| <= MAX_FRAME && SameDatagram(k, p, target)
    ensures var (t', r) := Defrag(t, p, frame, target, now);
            if !p.fragmented then t' == t && r == Pass(p, [frame])
            else OthersStand(t, k, now, t') && OwnSet(t, k, p, frame, now, t', r)
  {
    if p.fragmented {
      OwnSetExactly(t, k, p, frame, target, now);
      OthersExactly(t, k, p, frame, target, now);
    }
  }
}
