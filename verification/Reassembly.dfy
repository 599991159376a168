/** Reassembly is exact, and the order in which the fragments of a datagram arrive does not matter. */
module Reassembly {
  import opened Bytes
  import opened Packet
  import opened Fragments

  // ---------------------------------------------------------------- disjoint parts that fill their range

  function Range(a: nat, b: nat): (r: set<int>)
    ensures forall x :: x in r <==> a <= x < b
    decreases b
  {
    if a < b then Range(a, b - 1) + {b - 1} else {}
  }

  lemma {:induction false} RangeCard(a: nat, b: nat)
    requires a <= b
    ensures |Range(a, b)| == b - a
    decreases b
  {
    if a < b {
      RangeCard(a, b - 1);
    }
  }

  function Covered(parts: seq<Part>): set<int> {
    if parts == [] then {}
    else
      var last := parts[|parts| - 1];
      Covered(parts[..|parts| - 1]) + Range(last.offset, last.End())
  }

  lemma {:induction false} CoveredBy(parts: seq<Part>, x: int)
    ensures x in Covered(parts) <==> exists q <- parts :: q.offset <= x < q.End()
  {
    if parts != [] {
      var init, last := parts[..|parts| - 1], parts[|parts| - 1];
      CoveredBy(init, x);
      assert parts == init + [last];
      assert forall q :: q in parts <==> q in init || q == last;
    }
  }

  lemma {:induction false} CoveredCard(parts: seq<Part>)
    requires Disjoint(parts)
    ensures |Covered(parts)| == SumLen(parts)
  {
    if parts != [] {
      var init, last := parts[..|parts| - 1], parts[|parts| - 1];
      assert parts == init + [last];
      DisjointSnoc(init, last);
      CoveredCard(init);
      var a, b := Covered(init), Range(last.offset, last.End());
      RangeCard(last.offset, last.End());
      forall x | x in a
        ensures x !in b
      {
        CoveredBy(init, x);
      }
      assert |a + b| == |a| + |b|;
    }
  }

  lemma SameCardSame(a: set<int>, b: set<int>)
    requires a <= b && |a| == |b|
    ensures a == b
  {
    assert b == a + (b - a);
    assert |b| == |a| + |b - a|;
  }

  /** Parts that are pairwise disjoint inside [0, total) with sizes adding up to total leave no gap. */
  lemma NoGap(parts: seq<Part>, total: nat, x: nat)
    requires Disjoint(parts) && Inside(parts, total) && SumLen(parts) == total && x < total
    ensures exists i :: 0 <= i < |parts| && parts[i].offset <= x < parts[i].End()
  {
    CoveredCard(parts);
    RangeCard(0, total);
    forall y | y in Covered(parts)
      ensures y in Range(0, total)
    {
      CoveredBy(parts, y);
    }
    SameCardSame(Covered(parts), Range(0, total));
    CoveredBy(parts, x);
    var q :| q in parts && q.offset <= x < q.End();
    var i :| 0 <= i < |parts| && parts[i] == q;
  }

  /** No copy overwrites another. */
  lemma {:induction false} AssembleAt(parts: seq<Part>, total: nat, i: nat, x: nat)
    requires Disjoint(parts) && Inside(parts, total)
    requires i < |parts| && parts[i].offset <= x < parts[i].End()
    ensures x < total && Assemble(parts, total)[x] == parts[i].data[x - parts[i].offset]
  {
    var init, last := parts[..|parts| - 1], parts[|parts| - 1];
    assert parts == init + [last] && parts[i] in parts;
    DisjointSnoc(init, last);
    InsideSnoc(init, last, total);
    if i < |init| {
      AssembleAt(init, total, i, x);
      assert init[i] in init && !Overlaps(last, init[i]);
    }
  }

  /** Octet x of the reassembled data is an octet of a stored part at the same position. */
  predicate ComesFrom(parts: seq<Part>, data: seq<byte>, x: nat) {
    x < |data| && exists i :: 0 <= i < |parts| && parts[i].offset <= x < parts[i].End()
                              && data[x] == parts[i].data[x - parts[i].offset]
  }

  lemma Tiled(parts: seq<Part>, total: nat, x: nat)
    requires Disjoint(parts) && Inside(parts, total) && SumLen(parts) == total && x < total
    ensures ComesFrom(parts, Assemble(parts, total), x)
  {
    NoGap(parts, total, x);
    var i :| 0 <= i < |parts| && parts[i].offset <= x < parts[i].End();
    AssembleAt(parts, total, i, x);
  }

  lemma SettlePass(live: Table, k: FragKey, s: FragSet, fate: Fate, p: Packet)
    requires fate.Store? ==> Stored(fate.set')
    requires Settle(live, k, s, fate, p).1.Pass?
    ensures fate.Store? && Inside(fate.set'.parts, SumLen(fate.set'.parts))
    ensures Settle(live, k, s, fate, p).1
            == Pass(Whole(p, Assemble(fate.set'.parts, SumLen(fate.set'.parts))), Frames(fate.set'.parts))
  {
  }

  lemma PassMeansComplete(t: Table, p: Packet, frame: seq<byte>, target: Addr, now: int)
    requires Valid(t) && Usable(p) && p.fragmented && |frame| <= MAX_FRAME
    requires Defrag(t, p, frame, target, now).1.Pass?
    ensures var parts := SetFor(Prune(t, now), Key(p, target), now).parts + [Part(p.offset, p.data, frame)];
            && Disjoint(parts) && Inside(parts, SumLen(parts))
            && Defrag(t, p, frame, target, now).1 == Pass(Whole(p, Assemble(parts, SumLen(parts))), Frames(parts))
  {
    var k, live := Key(p, target), Prune(t, now);
    var s := SetFor(live, k, now);
    SetForSound(t, k, now);
    StoreKeepsSound(s, p, frame);
    var fate := FateOf(s, p, frame);
    SettlePass(live, k, s, fate, p);
    assert fate.set'.parts == s.parts + [Part(p.offset, p.data, frame)];
  }

  /** A passed datagram: every octet comes from exactly one stored part, and the frames that
      travel on are the frames of those parts in arrival order. */
  lemma PassedIsTiled(t: Table, p: Packet, frame: seq<byte>, target: Addr, now: int)
    requires Valid(t) && Usable(p) && p.fragmented && |frame| <= MAX_FRAME
    requires Defrag(t, p, frame, target, now).1.Pass?
    ensures var r := Defrag(t, p, frame, target, now).1;
            var parts := SetFor(Prune(t, now), Key(p, target), now).parts + [Part(p.offset, p.data, frame)];
            && r.frames == Frames(parts)
            && Disjoint(parts) && Inside(parts, |r.packet.data|)
            && forall x: nat :: x < |r.packet.data| ==> ComesFrom(parts, r.packet.data, x)
  {
    PassMeansComplete(t, p, frame, target, now);
    var parts := SetFor(Prune(t, now), Key(p, target), now).parts + [Part(p.offset, p.data, frame)];
    forall x: nat | x < SumLen(parts)
      ensures ComesFrom(parts, Assemble(parts, SumLen(parts)), x)
    {
      Tiled(parts, SumLen(parts), x);
    }
  }

  // ---------------------------------------------------------------- runs

  datatype Event = Event(p: Packet, frame: seq<byte>, target: Addr, now: int)

  type Arrival = e: Event | Usable(e.p) && |e.frame| <= MAX_FRAME witness Event(EMPTY, [], NoAddr, 0)

  /** The table after a sequence of arrivals of any datagrams. */
  function After(t: Table, es: seq<Arrival>): (r: Table)
    requires Valid(t)
    ensures Valid(r)
  {
    if es == [] then t
    else
      var e := es[|es| - 1];
      var before := After(t, es[..|es| - 1]);
      DefragKeepsValid(before, e.p, e.frame, e.target, e.now);
      Defrag(before, e.p, e.frame, e.target, e.now).0
  }

  function ResultAt(t: Table, es: seq<Arrival>, i: nat): Result
    requires Valid(t) && i < |es|
  {
    Defrag(After(t, es[..i]), es[i].p, es[i].frame, es[i].target, es[i].now).1
  }

  predicate Belongs(e: Arrival, k: FragKey) {
    e.p.fragmented && Key(e.p, e.target) == k
  }

  /** The arrivals that carry fragments of the datagram k, in order. */
  function Mine(es: seq<Arrival>, k: FragKey): seq<Arrival> {
    if es == [] then []
    else Mine(es[..|es| - 1], k) + if Belongs(es[|es| - 1], k) then [es[|es| - 1]] else []
  }

  function PartsOf(fs: seq<Arrival>): seq<Part> {
    seq(|fs|, i requires 0 <= i < |fs| => Part(fs[i].p.offset, fs[i].p.data, fs[i].frame))
  }

  predicate Piece(e: Arrival, whole: seq<byte>) {
    var p := e.p;
    && p.data != [] && p.offset + |p.data| <= |whole|
    && p.data == whole[p.offset..p.offset + |p.data|]
    && (p.more <==> p.offset + |p.data| < |whole|)
  }

  /** Some of the fragments of `whole`, without repetition, in any order. */
  predicate SomeOf(fs: seq<Arrival>, whole: seq<byte>) {
    && |fs| <= 128 && |whole| <= 65535
    && (forall e <- fs :: Piece(e, whole))
    && Disjoint(PartsOf(fs))
    && SumLen(PartsOf(fs)) <= |whole|
  }

  /** All fragments of `whole` in any order. */
  predicate AllOf(fs: seq<Arrival>, whole: seq<byte>) {
    SomeOf(fs, whole) && SumLen(PartsOf(fs)) == |whole|
  }

  /** The set the table holds once the fragments fs have arrived. */
  function Built(fs: seq<Arrival>, whole: seq<byte>, expires: int): FragSet {
    FragSet(expires, if exists e <- fs :: !e.p.more then |whole| else -1, SumLen(PartsOf(fs)), PartsOf(fs))
  }

  lemma SnocFacts(fs: seq<Arrival>, e: Arrival, whole: seq<byte>)
    requires SomeOf(fs + [e], whole)
    ensures SomeOf(fs, whole) && Piece(e, whole)
    ensures var part := Part(e.p.offset, e.p.data, e.frame);
            && PartsOf(fs + [e]) == PartsOf(fs) + [part]
            && SumLen(PartsOf(fs + [e])) == SumLen(PartsOf(fs)) + |e.p.data|
            && forall q <- PartsOf(fs) :: !Overlaps(part, q) && q.End() <= |whole|
  {
    var part := Part(e.p.offset, e.p.data, e.frame);
    assert PartsOf(fs + [e]) == PartsOf(fs) + [part];
    assert (PartsOf(fs) + [part])[..|fs|] == PartsOf(fs);
    DisjointSnoc(PartsOf(fs), part);
    assert (fs + [e])[|fs|] == e;
    forall f | f in fs
      ensures Piece(f, whole)
    {
      assert f in fs + [e];
    }
    forall q | q in PartsOf(fs)
      ensures q.End() <= |whole|
    {
      var i :| 0 <= i < |fs| && PartsOf(fs)[i] == q;
      assert Piece(fs[i], whole);
    }
  }

  lemma Grow(fs: seq<Arrival>, e: Arrival, whole: seq<byte>, expires: int)
    requires SomeOf(fs + [e], whole)
    ensures FateOf(Built(fs, whole, expires), e.p, e.frame) == Store(Built(fs + [e], whole, expires))
  {
    SnocFacts(fs, e, whole);
    assert (exists f <- fs + [e] :: !f.p.more) <==> (exists f <- fs :: !f.p.more) || !e.p.more by {
      assert forall f :: f in fs + [e] <==> f in fs || f == e;
    }
  }

  lemma {:induction false} PrefixSum(parts: seq<Part>, n: nat)
    requires n < |parts| && forall q <- parts :: q.data != []
    ensures SumLen(parts[..n]) < SumLen(parts)
  {
    var init := parts[..|parts| - 1];
    if n < |init| {
      PrefixSum(init, n);
      assert init[..n] == parts[..n];
    }
    assert parts[|parts| - 1] in parts;
  }

  lemma PiecesInside(fs: seq<Arrival>, whole: seq<byte>)
    requires SomeOf(fs, whole)
    ensures Inside(PartsOf(fs), |whole|)
    ensures forall q <- PartsOf(fs) :: q.data != []
  {
    forall q | q in PartsOf(fs)
      ensures q.End() <= |whole| && q.data != []
    {
      var i :| 0 <= i < |fs| && PartsOf(fs)[i] == q;
      assert Piece(fs[i], whole);
    }
  }

  lemma PieceOctet(e: Arrival, whole: seq<byte>, x: nat)
    requires Piece(e, whole) && e.p.offset <= x < e.p.offset + |e.p.data|
    ensures e.p.data[x - e.p.offset] == whole[x]
  {
  }

  lemma PieceAt(fs: seq<Arrival>, whole: seq<byte>, x: nat)
    requires AllOf(fs, whole) && Inside(PartsOf(fs), |whole|) && x < |whole|
    ensures Assemble(PartsOf(fs), |whole|)[x] == whole[x]
  {
    var parts := PartsOf(fs);
    NoGap(parts, |whole|, x);
    var i :| 0 <= i < |parts| && parts[i].offset <= x < parts[i].End();
    AssembleAt(parts, |whole|, i, x);
    assert fs[i] in fs;
    PieceOctet(fs[i], whole, x);
  }

  lemma SomeFinal(fs: seq<Arrival>, whole: seq<byte>)
    requires AllOf(fs, whole) && whole != []
    ensures exists e <- fs :: !e.p.more
  {
    var parts := PartsOf(fs);
    PiecesInside(fs, whole);
    NoGap(parts, |whole|, |whole| - 1);
    var l :| 0 <= l < |parts| && parts[l].offset <= |whole| - 1 < parts[l].End();
    assert Piece(fs[l], whole);
  }

  /** All the fragments together rebuild the datagram, whatever their order. */
  lemma AllRebuild(fs: seq<Arrival>, whole: seq<byte>, expires: int)
    requires AllOf(fs, whole) && whole != []
    ensures Built(fs, whole, expires).total == |whole|
    ensures Inside(PartsOf(fs), |whole|) && Assemble(PartsOf(fs), |whole|) == whole
  {
    PiecesInside(fs, whole);
    SomeFinal(fs, whole);
    forall x: nat | x < |whole|
      ensures Assemble(PartsOf(fs), |whole|)[x] == whole[x]
    {
      PieceAt(fs, whole, x);
    }
  }

  /** Traffic of other datagrams does not touch the set of k before it expires. */
  lemma OthersKeep(t: Table, e: Arrival, k: FragKey)
    requires Valid(t) && k in t && e.now < t[k].expires && !Belongs(e, k)
    ensures var t' := Defrag(t, e.p, e.frame, e.target, e.now).0;
            k in t' && t'[k] == t[k]
  {
    assert k in Prune(t, e.now);
  }

  lemma {:induction false} MinePrefix(es: seq<Arrival>, k: FragKey, n: nat)
    requires n <= |es|
    ensures Mine(es[..n], k) <= Mine(es, k)
    ensures n < |es| && Belongs(es[|es| - 1], k) ==> |Mine(es[..n], k)| < |Mine(es, k)|
  {
    if n < |es| {
      MinePrefix(es[..|es| - 1], k, n);
      assert es[..|es| - 1][..n] == es[..n];
    } else {
      assert es[..n] == es;
    }
  }

  lemma SomePrefix(fs: seq<Arrival>, whole: seq<byte>, n: nat)
    requires SomeOf(fs, whole) && n <= |fs|
    ensures SomeOf(fs[..n], whole)
    decreases |fs| - n
  {
    if n < |fs| {
      SomePrefix(fs, whole, n + 1);
      assert fs[..n + 1] == fs[..n] + [fs[n]];
      SnocFacts(fs[..n], fs[n], whole);
    } else {
      assert fs[..n] == fs;
    }
  }

  /** The conditions under which a datagram gets through: its first fragment finds room, and
      everything arrives within the lifetime of the set. Other traffic is arbitrary. */
  predicate InTime(t: Table, es: seq<Arrival>, k: FragKey)
    requires Valid(t)
  {
    && es != [] && Belongs(es[0], k) && Belongs(es[|es| - 1], k)
    && k !in Prune(t, es[0].now) && |Prune(t, es[0].now)| < 64
    && forall e <- es :: e.now < es[0].now + 2_000_000_000
  }

  /** One more fragment of k that is not the last of them. */
  lemma StepHeld(t: Table, e: Arrival, k: FragKey, fs: seq<Arrival>, whole: seq<byte>, expires: int)
    requires Valid(t) && Belongs(e, k) && SomeOf(fs + [e], whole)
    requires SetFor(Prune(t, e.now), k, e.now) == Built(fs, whole, expires)
    requires k in Prune(t, e.now) || |Prune(t, e.now)| < MAX_SETS
    requires SumLen(PartsOf(fs + [e])) < |whole|
    ensures var r := Defrag(t, e.p, e.frame, e.target, e.now);
            r.1 == Hold && k in r.0 && r.0[k] == Built(fs + [e], whole, expires)
  {
    Grow(fs, e, whole, expires);
  }

  /** The last one. */
  lemma StepLast(t: Table, e: Arrival, k: FragKey, fs: seq<Arrival>, whole: seq<byte>, expires: int)
    requires Valid(t) && Belongs(e, k) && AllOf(fs + [e], whole)
    requires SetFor(Prune(t, e.now), k, e.now) == Built(fs, whole, expires)
    requires k in Prune(t, e.now) || |Prune(t, e.now)| < MAX_SETS
    ensures var r := Defrag(t, e.p, e.frame, e.target, e.now);
            r.1 == Pass(Whole(e.p, whole), Frames(PartsOf(fs + [e]))) && k !in r.0
  {
    SnocFacts(fs, e, whole);
    Grow(fs, e, whole, expires);
    AllRebuild(fs + [e], whole, expires);
  }

  lemma MineSnoc(es: seq<Arrival>, k: FragKey, whole: seq<byte>, n: nat)
    requires AllOf(Mine(es, k), whole) && 1 <= n <= |es|
    ensures Mine(es[..n], k)
            == if Belongs(es[n - 1], k) then Mine(es[..n - 1], k) + [es[n - 1]] else Mine(es[..n - 1], k)
    ensures SomeOf(Mine(es[..n], k), whole)
    ensures n < |es| && Belongs(es[|es| - 1], k) ==> SumLen(PartsOf(Mine(es[..n], k))) < |whole|
  {
    assert es[..n][..n - 1] == es[..n - 1] && es[..n][n - 1] == es[n - 1];
    MinePrefix(es, k, n);
    var all, fs := Mine(es, k), Mine(es[..n], k);
    assert fs == all[..|fs|];
    SomePrefix(all, whole, |fs|);
    PiecesInside(all, whole);
    if n < |es| && Belongs(es[|es| - 1], k) {
      assert PartsOf(fs) == PartsOf(all)[..|fs|];
      PrefixSum(PartsOf(all), |fs|);
    }
  }

  /** After n arrivals the table holds exactly the fragments of k among them. */
  predicate Holding(t: Table, es: seq<Arrival>, k: FragKey, whole: seq<byte>, n: nat)
    requires Valid(t) && es != [] && n <= |es|
  {
    var t', expires := After(t, es[..n]), es[0].now + LIFETIME;
    k in t' && t'[k] == Built(Mine(es[..n], k), whole, expires)
  }

  /** What the next fragment of k meets: an empty new set, or the fragments so far. */
  lemma Meets(t: Table, es: seq<Arrival>, k: FragKey, whole: seq<byte>, n: nat)
    requires Valid(t) && InTime(t, es, k) && n < |es|
    requires n > 0 ==> Holding(t, es, k, whole, n)
    ensures var live := Prune(After(t, es[..n]), es[n].now);
            && SetFor(live, k, es[n].now) == Built(Mine(es[..n], k), whole, es[0].now + LIFETIME)
            && (k in live || |live| < MAX_SETS)
  {
    if n == 0 {
      assert es[..0] == [];
      assert New(es[0].now) == Built([], whole, es[0].now + LIFETIME);
    }
  }

  lemma AfterSnoc(t: Table, es: seq<Arrival>, n: nat)
    requires Valid(t) && 1 <= n <= |es|
    ensures var e := es[n - 1];
            After(t, es[..n]) == Defrag(After(t, es[..n - 1]), e.p, e.frame, e.target, e.now).0
  {
    assert es[..n][..n - 1] == es[..n - 1] && es[..n][n - 1] == es[n - 1];
  }

  lemma {:induction false} HeldSoFar(t: Table, es: seq<Arrival>, k: FragKey, whole: seq<byte>, n: nat)
    requires Valid(t) && InTime(t, es, k) && AllOf(Mine(es, k), whole)
    requires 1 <= n < |es|
    ensures Holding(t, es, k, whole, n)
    ensures Belongs(es[n - 1], k) ==> ResultAt(t, es, n - 1) == Hold
    decreases n
  {
    if n > 1 {
      HeldSoFar(t, es, k, whole, n - 1);
    }
    var e, t0 := es[n - 1], After(t, es[..n - 1]);
    AfterSnoc(t, es, n);
    MineSnoc(es, k, whole, n);
    if Belongs(e, k) {
      Meets(t, es, k, whole, n - 1);
      StepHeld(t0, e, k, Mine(es[..n - 1], k), whole, es[0].now + LIFETIME);
    } else {
      OthersKeep(t0, e, k);
    }
  }

  /** Order independence: the fragments of a datagram, at most 128 in any order and mixed with
      any other traffic, are held until the last of them arrives; that one passes exactly the
      original octets, with the frames in arrival order. */
  lemma AnyOrderRebuilds(t: Table, es: seq<Arrival>, k: FragKey, whole: seq<byte>)
    requires Valid(t) && InTime(t, es, k) && AllOf(Mine(es, k), whole)
    ensures forall i :: 0 <= i < |es| - 1 && Belongs(es[i], k) ==> ResultAt(t, es, i) == Hold
    ensures ResultAt(t, es, |es| - 1) == Pass(Whole(es[|es| - 1].p, whole), Frames(PartsOf(Mine(es, k))))
    ensures k !in After(t, es)
  {
    forall i | 0 <= i < |es| - 1 && Belongs(es[i], k)
      ensures ResultAt(t, es, i) == Hold
    {
      HeldSoFar(t, es, k, whole, i + 1);
    }
    LastRebuilds(t, es, k, whole);
  }

  lemma LastRebuilds(t: Table, es: seq<Arrival>, k: FragKey, whole: seq<byte>)
    requires Valid(t) && InTime(t, es, k) && AllOf(Mine(es, k), whole)
    ensures ResultAt(t, es, |es| - 1) == Pass(Whole(es[|es| - 1].p, whole), Frames(PartsOf(Mine(es, k))))
    ensures k !in After(t, es)
  {
    var n := |es| - 1;
    if n > 0 {
      HeldSoFar(t, es, k, whole, n);
    }
    Meets(t, es, k, whole, n);
    LastIsMine(es, k, whole);
    StepLast(After(t, es[..n]), es[n], k, Mine(es[..n], k), whole, es[0].now + LIFETIME);
    AfterAll(t, es);
  }

  lemma LastIsMine(es: seq<Arrival>, k: FragKey, whole: seq<byte>)
    requires es != [] && Belongs(es[|es| - 1], k) && AllOf(Mine(es, k), whole)
    ensures Mine(es, k) == Mine(es[..|es| - 1], k) + [es[|es| - 1]]
  {
  }

  lemma AfterAll(t: Table, es: seq<Arrival>)
    requires Valid(t) && es != []
    ensures var e := es[|es| - 1];
            After(t, es) == Defrag(After(t, es[..|es| - 1]), e.p, e.frame, e.target, e.now).0
  {
  }

  // ---------------------------------------------------------------- retransmitted fragments

  /** A fragment that repeats a stored part is ignored exactly when the two size guards, which
      run before the comparison, do not fire; otherwise it throws the whole set away. */
  lemma DuplicateIgnoredIff(t: Table, p: Packet, frame: seq<byte>, target: Addr, now: int)
    requires Valid(t) && Usable(p) && p.fragmented && |frame| <= MAX_FRAME
    requires Key(p, target) in Prune(t, now)
    requires var s := t[Key(p, target)];
             && (exists q <- s.parts :: q.offset == p.offset && q.data == p.data)
             && (p.more || s.total == p.offset + |p.data|)
    ensures var s, t' := t[Key(p, target)], Defrag(t, p, frame, target, now).0;
            && (t' == Prune(t, now) <==> |s.parts| < 128 && s.size + |p.data| <= 65535)
            && (t' != Prune(t, now) ==> t' == Prune(t, now) - {Key(p, target)})
  {
    var k := Key(p, target);
    var s := t[k];
    var part := Part(p.offset, p.data, frame);
    var q :| q in s.parts && q.offset == p.offset && q.data == p.data;
    assert Overlaps(part, q) && q.End() == part.End();
    assert Prune(t, now)[k := s] == Prune(t, now);
  }
}
