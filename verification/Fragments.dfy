/** Fragment reassembly in front of the port policy (the ipFragments table of the device). */
module Fragments {
  import opened Bytes
  import opened Packet
  import opened Sets
  import opened Times

  const LIFETIME := 2 * SECOND
  const MAX_SETS := 64
  const MAX_PARTS := 128
  const MAX_SIZE := 65535

  datatype FragKey = FragKey(src: Addr, dst: Addr, target: Addr, id: nat, proto: byte)

  datatype Part = Part(offset: nat, data: seq<byte>, frame: seq<byte>) {
    function End(): nat { offset + |data| }
  }

  /** total is -1 until the fragment without the more flag is stored. */
  datatype FragSet = FragSet(expires: int, total: int, size: nat, parts: seq<Part>)

  type Table = map<FragKey, FragSet>

  datatype Result = Pass(packet: Packet, frames: seq<seq<byte>>) | Hold

  // ---------------------------------------------------------------- specification

  predicate Overlaps(a: Part, b: Part) {
    a.offset < b.End() && b.offset < a.End()
  }

  function SumLen(parts: seq<Part>): nat {
    if parts == [] then 0 else SumLen(parts[..|parts| - 1]) + |parts[|parts| - 1].data|
  }

  predicate Disjoint(parts: seq<Part>) {
    forall i, j :: 0 <= i < j < |parts| ==> !Overlaps(parts[i], parts[j])
  }

  /** What every stored set satisfies: pairwise disjoint parts inside [0, total), sizes
      that add up, the bounds, and not yet complete. */
  predicate Sound(s: FragSet) {
    && |s.parts| <= MAX_PARTS
    && s.size == SumLen(s.parts) <= MAX_SIZE
    && Disjoint(s.parts)
    && (forall q <- s.parts :: q.data != [] && |q.frame| <= MAX_FRAME)
    && Inside(s.parts, MAX_SIZE)
    && (s.total >= 0 ==> s.total <= MAX_SIZE && Inside(s.parts, s.total))
    && s.size != s.total
  }

  predicate Valid(t: Table) {
    && |t| <= MAX_SETS
    && forall k <- t :: Sound(t[k])
  }

  function Prune(t: Table, now: int): (r: Table) {
    map k | k in t && now < t[k].expires :: t[k]
  }

  function Key(p: Packet, target: Addr): FragKey {
    FragKey(p.src, p.dst, target, p.id, p.proto)
  }

  function New(now: int): FragSet {
    FragSet(now + LIFETIME, -1, 0, [])
  }

  datatype Fate = Drop | Ignore | Store(set': FragSet)

  /** What a fragment does to the set of its datagram. */
  function FateOf(s: FragSet, p: Packet, frame: seq<byte>): Fate {
    var part := Part(p.offset, p.data, frame);
    var end := part.End();
    if |s.parts| >= MAX_PARTS || s.size + |p.data| > MAX_SIZE
       || (s.total >= 0 && (end > s.total || (!p.more && end != s.total))) then Drop
    else if exists q <- s.parts :: Overlaps(part, q) then
      if exists q <- s.parts :: q.offset == p.offset && q.data == p.data then Ignore else Drop
    else if !p.more && exists q <- s.parts :: q.End() > end then Drop
    else Store(FragSet(s.expires, if p.more then s.total else end, s.size + |p.data|, s.parts + [part]))
  }

  predicate Inside(parts: seq<Part>, total: nat) {
    forall q <- parts :: q.End() <= total
  }

  /** Copies the parts in arrival order into a zeroed buffer. */
  function Assemble(parts: seq<Part>, total: nat): (r: seq<byte>)
    requires Inside(parts, total)
    ensures |r| == total
  {
    if parts == [] then seq(total, _ => 0)
    else
      var last := parts[|parts| - 1];
      assert last in parts;
      Splice(Assemble(parts[..|parts| - 1], total), last.offset, last.data)
  }

  function Frames(parts: seq<Part>): seq<seq<byte>> {
    seq(|parts|, i requires 0 <= i < |parts| => parts[i].frame)
  }

  /** A set after a fragment was stored: sound, or complete and about to be passed. */
  predicate Stored(s: FragSet) {
    && (s.size == s.total || Sound(s))
    && (s.total >= 0 ==> Inside(s.parts, s.total))
    && Disjoint(s.parts) && SumLen(s.parts) == s.size
    && forall q <- s.parts :: |q.frame| <= MAX_FRAME
  }

  lemma StoreKeepsSound(s: FragSet, p: Packet, frame: seq<byte>)
    requires Sound(s) && Usable(p) && p.fragmented && |frame| <= MAX_FRAME
    ensures FateOf(s, p, frame).Store? ==> Stored(FateOf(s, p, frame).set')
  {
    if FateOf(s, p, frame).Store? {
      var part := Part(p.offset, p.data, frame);
      var s' := FateOf(s, p, frame).set';
      assert s'.parts[..|s.parts|] == s.parts;
      DisjointSnoc(s.parts, part);
      InsideSnoc(s.parts, part, MAX_SIZE);
      if s'.total >= 0 {
        InsideSnoc(s.parts, part, s'.total);
      }
      assert forall q <- s'.parts :: q in s.parts || q == part;
    }
  }

  lemma DisjointSnoc(parts: seq<Part>, part: Part)
    ensures Disjoint(parts + [part]) <==> Disjoint(parts) && forall q <- parts :: !Overlaps(part, q)
  {
    var all := parts + [part];
    if Disjoint(all) {
      forall i, j | 0 <= i < j < |parts|
        ensures !Overlaps(parts[i], parts[j])
      {
        assert all[i] == parts[i] && all[j] == parts[j];
      }
      forall q | q in parts
        ensures !Overlaps(part, q)
      {
        var i :| 0 <= i < |parts| && parts[i] == q;
        assert all[i] == q && all[|parts|] == part;
        assert !Overlaps(all[i], all[|parts|]);
      }
    }
    if Disjoint(parts) && forall q <- parts :: !Overlaps(part, q) {
      forall i, j | 0 <= i < j < |all|
        ensures !Overlaps(all[i], all[j])
      {
        assert parts[i] in parts && all[i] == parts[i];
      }
    }
  }

  lemma InsideSnoc(parts: seq<Part>, part: Part, total: nat)
    ensures Inside(parts + [part], total) <==> Inside(parts, total) && part.End() <= total
  {
    assert (parts + [part])[|parts|] == part;
    assert forall q <- parts + [part] :: q in parts || q == part;
    assert forall q <- parts :: q in parts + [part];
  }

  /** The table and the verdict once the fate of the fragment is known. */
  function Settle(live: Table, k: FragKey, s: FragSet, fate: Fate, p: Packet): (r: (Table, Result))
    requires fate.Store? ==> Stored(fate.set')
  {
    match fate
    case Drop => (live - {k}, Hold)
    case Ignore => (live[k := s], Hold)
    case Store(s') =>
      if s'.total < 0 || s'.size != s'.total then (live[k := s'], Hold)
      else (live - {k}, Pass(Whole(p, Assemble(s'.parts, s'.total)), Frames(s'.parts)))
  }

  function Whole(p: Packet, data: seq<byte>): Packet {
    p.(data := data, fragmented := false, offset := 0, more := false)
  }

  function SetFor(live: Table, k: FragKey, now: int): FragSet {
    if k in live then live[k] else New(now)
  }

  /** defragment as a function of the table. */
  function Defrag(t: Table, p: Packet, frame: seq<byte>, target: Addr, now: int): (r: (Table, Result))
    requires Valid(t) && Usable(p) && |frame| <= MAX_FRAME
  {
    if !p.fragmented then (t, Pass(p, [frame]))
    else
      var k, live := Key(p, target), Prune(t, now);
      if k !in live && |live| >= MAX_SETS then (live, Hold)
      else
        var s := SetFor(live, k, now);
        SetForSound(t, k, now);
        StoreKeepsSound(s, p, frame);
        Settle(live, k, s, FateOf(s, p, frame), p)
  }

  lemma SetForSound(t: Table, k: FragKey, now: int)
    requires Valid(t)
    ensures Sound(SetFor(Prune(t, now), k, now))
  {
  }

  lemma PruneKeepsValid(t: Table, now: int)
    requires Valid(t)
    ensures Valid(Prune(t, now))
  {
    CardLe(Prune(t, now).Keys, t.Keys);
  }

  lemma PutKeepsValid(t: Table, k: FragKey, s: FragSet)
    requires Valid(t) && Sound(s) && (k in t || |t| < MAX_SETS)
    ensures Valid(t[k := s])
  {
    assert t[k := s].Keys == t.Keys + {k};
  }

  lemma RemoveKeepsValid(t: Table, k: FragKey)
    requires Valid(t)
    ensures Valid(t - {k})
  {
    CardLe((t - {k}).Keys, t.Keys);
  }

  lemma SettleKeepsValid(live: Table, k: FragKey, s: FragSet, fate: Fate, p: Packet)
    requires Valid(live) && Sound(s) && (k in live || |live| < MAX_SETS)
    requires fate.Store? ==> Stored(fate.set')
    ensures Valid(Settle(live, k, s, fate, p).0)
    ensures var r := Settle(live, k, s, fate, p).1;
            r.Pass? ==> forall f <- r.frames :: |f| <= MAX_FRAME
  {
    match fate
    case Drop => RemoveKeepsValid(live, k);
    case Ignore => PutKeepsValid(live, k, s);
    case Store(s') =>
      RemoveKeepsValid(live, k);
      if Sound(s') {
        PutKeepsValid(live, k, s');
      }
  }

  /** Every call keeps the table sound and within its bounds, and passes only frames it was given. */
  lemma DefragKeepsValid(t: Table, p: Packet, frame: seq<byte>, target: Addr, now: int)
    requires Valid(t) && Usable(p) && |frame| <= MAX_FRAME
    ensures Valid(Defrag(t, p, frame, target, now).0)
    ensures var r := Defrag(t, p, frame, target, now).1;
            r.Pass? ==> forall f <- r.frames :: |f| <= MAX_FRAME
  {
    if p.fragmented {
      var k, live := Key(p, target), Prune(t, now);
      PruneKeepsValid(t, now);
      if k in live || |live| < MAX_SETS {
        var s := SetFor(live, k, now);
        SetForSound(t, k, now);
        StoreKeepsSound(s, p, frame);
        SettleKeepsValid(live, k, s, FateOf(s, p, frame), p);
      }
    }
  }

  // ---------------------------------------------------------------- the table itself

  class FragmentTable {
    var sets: Table

    constructor ()
      ensures sets == map[]
    {
      sets := map[];
    }

    /** Deletes the sets that are no longer before their expiry. */
    method Expire(now: int)
      modifies this
      ensures sets == Prune(old(sets), now)
    {
      var keys := sets.Keys;
      while keys != {}
        invariant keys <= sets.Keys
        invariant forall k <- keys :: k in old(sets)
        invariant forall k :: k in sets <==> k in old(sets) && (k in keys || now < old(sets)[k].expires)
        invariant forall k <- sets :: sets[k] == old(sets)[k]
        decreases |keys|
      {
        var k :| k in keys;
        keys := keys - {k};
        if !(now < sets[k].expires) {
          sets := sets - {k};
        }
      }
    }

    method Defragment(p: Packet, frame: seq<byte>, target: Addr, now: int)
        returns (out: Packet, frames: seq<seq<byte>>, ok: bool)
      requires Valid(sets) && Usable(p) && |frame| <= MAX_FRAME
      modifies this
      ensures Valid(sets)
      ensures sets == Defrag(old(sets), p, frame, target, now).0
      ensures Defrag(old(sets), p, frame, target, now).1 == if ok then Pass(out, frames) else Hold
    {
      DefragKeepsValid(sets, p, frame, target, now);
      if !p.fragmented {
        return p, [frame], true;
      }
      out, frames, ok := Collect(Key(p, target), p, frame, now, sets);
    }

    /** The same for a fragment: the set of its datagram is found or begun, and the fragment judged. */
    method Collect(k: FragKey, p: Packet, frame: seq<byte>, now: int, ghost was: Table)
        returns (out: Packet, frames: seq<seq<byte>>, ok: bool)
      requires sets == was && Valid(was) && Usable(p) && p.fragmented && |frame| <= MAX_FRAME && k == Key(p, k.target)
      modifies this
      ensures sets == Defrag(was, p, frame, k.target, now).0
      ensures Defrag(was, p, frame, k.target, now).1 == if ok then Pass(out, frames) else Hold
    {
      out, frames, ok := p, [], false;
      SetForSound(sets, k, now);
      Expire(now);
      ghost var live := sets;
      if k !in sets {
        if |sets| >= MAX_SETS {
          return;
        }
        sets := sets[k := New(now)];
      }
      var s := sets[k];
      StoreKeepsSound(s, p, frame);
      var fate := Judge(s, p, frame);
      assert sets == live[k := s];
      out, frames, ok := Conclude(k, fate, p, live);
    }

    /** Stores the grown set, or deletes the set and passes the datagram when it is complete. */
    method Conclude(k: FragKey, fate: Fate, p: Packet, ghost live: Table)
        returns (out: Packet, frames: seq<seq<byte>>, ok: bool)
      requires k in sets && sets == live[k := sets[k]]
      requires fate.Store? ==> Stored(fate.set')
      modifies this
      ensures sets == Settle(live, k, old(sets)[k], fate, p).0
      ensures Settle(live, k, old(sets)[k], fate, p).1 == if ok then Pass(out, frames) else Hold
    {
      out, frames, ok := p, [], false;
      assert sets - {k} == live - {k};
      match fate
      case Drop =>
        sets := sets - {k};
      case Ignore =>
      case Store(s) =>
        sets := sets[k := s];
        if s.total >= 0 && s.size == s.total {
          var data;
          data, frames := Copy(s.parts, s.total);
          sets := sets - {k};
          assert sets == live - {k};
          out, ok := Whole(p, data), true;
        }
    }
  }

  /** A stored part equal to the new fragment would overlap every part the fragment overlaps. */
  lemma OnlyOneTwin(s: FragSet, part: Part, i: nat)
    requires Sound(s) && i < |s.parts| && Overlaps(part, s.parts[i])
    requires !(s.parts[i].offset == part.offset && s.parts[i].data == part.data)
    ensures !exists q <- s.parts :: q.offset == part.offset && q.data == part.data
  {
    if exists q <- s.parts :: q.offset == part.offset && q.data == part.data {
      var q :| q in s.parts && q.offset == part.offset && q.data == part.data;
      var j :| 0 <= j < |s.parts| && s.parts[j] == q;
      var lo, hi := if i < j then i else j, if i < j then j else i;
      assert lo < hi && Overlaps(s.parts[lo], s.parts[hi]);
    }
  }

  /** The bounds, the overlap scan and the scan behind the last fragment, in this order. */
  method Judge(s: FragSet, p: Packet, frame: seq<byte>) returns (fate: Fate)
    requires Sound(s)
    ensures fate == FateOf(s, p, frame)
  {
    var end := p.offset + |p.data|;
    if |s.parts| >= MAX_PARTS || s.size + |p.data| > MAX_SIZE
       || (s.total >= 0 && (end > s.total || (!p.more && end != s.total))) {
      return Drop;
    }
    var part := Part(p.offset, p.data, frame);
    for i := 0 to |s.parts|
      invariant forall j :: 0 <= j < i ==> !Overlaps(part, s.parts[j])
    {
      var q := s.parts[i];
      if p.offset < q.End() && q.offset < end {
        assert q in s.parts && Overlaps(part, q);
        if p.offset == q.offset && p.data == q.data {
          return Ignore;
        }
        OnlyOneTwin(s, part, i);
        return Drop;
      }
    }
    var total := s.total;
    if !p.more {
      for i := 0 to |s.parts|
        invariant forall j :: 0 <= j < i ==> s.parts[j].End() <= end
      {
        if s.parts[i].End() > end {
          return Drop;
        }
      }
      total := end;
    }
    fate := Store(FragSet(s.expires, total, s.size + |p.data|, s.parts + [part]));
  }

  /** make([]byte, total), then copy(data[q.offset:], q.data) and append(frames, q.frame) for every part. */
  method Copy(parts: seq<Part>, total: nat) returns (data: seq<byte>, frames: seq<seq<byte>>)
    requires Inside(parts, total)
    ensures data == Assemble(parts, total) && frames == Frames(parts)
  {
    var buffer := new byte[total](_ => 0);
    frames := [];
    assert buffer[..] == seq(total, _ => 0);
    for i := 0 to |parts|
      invariant Inside(parts[..i], total) && buffer[..] == Assemble(parts[..i], total)
      invariant frames == Frames(parts[..i])
    {
      var q := parts[i];
      assert q in parts;
      CopyMore(parts, i, total);
      CopyOne(buffer, q);
      frames := frames + [q.frame];
    }
    assert parts[..|parts|] == parts;
    data := buffer[..];
  }

  method CopyOne(buffer: array<byte>, q: Part)
    requires q.End() <= buffer.Length
    modifies buffer
    ensures buffer[..] == Splice(old(buffer[..]), q.offset, q.data)
  {
    PutAt(buffer, q.offset, q.data);
  }

  lemma CopyMore(parts: seq<Part>, i: nat, total: nat)
    requires i < |parts| && Inside(parts, total) && Inside(parts[..i], total)
    ensures Inside(parts[..i + 1], total) && parts[i].End() <= total
    ensures Assemble(parts[..i + 1], total) == Splice(Assemble(parts[..i], total), parts[i].offset, parts[i].data)
    ensures Frames(parts[..i + 1]) == Frames(parts[..i]) + [parts[i].frame]
  {
    assert parts[i] in parts;
    InsideSnoc(parts[..i], parts[i], total);
    assert parts[..i + 1] == parts[..i] + [parts[i]];
    AssembleSnoc(parts[..i], parts[i], total);
  }

  lemma AssembleSnoc(parts: seq<Part>, q: Part, total: nat)
    requires Inside(parts + [q], total) && Inside(parts, total) && q.End() <= total
    ensures Assemble(parts + [q], total) == Splice(Assemble(parts, total), q.offset, q.data)
    ensures Frames(parts + [q]) == Frames(parts) + [q.frame]
  {
    assert (parts + [q])[..|parts|] == parts;
  }
}
