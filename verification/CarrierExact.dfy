/** Exactly when a frame is completed: the other direction of what CarrierRuns says, over every run. */
module CarrierExact {
  import opened Bytes
  import opened Packet
  import opened Replay
  import opened Carrier
  import opened CarrierRuns

  // ---------------------------------------------------------------- what stands in the way of one arrival

  /** The number is zero, was accepted while the window of its session is alive, or lies 4096 below one that was. */
  ghost predicate Refused(es: seq<Event>, i: nat)
    requires i < |es| && es[i].Arrive?
  {
    var n, sk := es[i].chunk.seqno, Session(KeyOf(es[i]));
    n == 0 || (sk in LiveWindows(After(es[..i]).seen, es[i].now)
               && (n in Accepted(es[..i], sk) || exists a <- Accepted(es[..i], sk) :: n + 4096 <= a))
  }

  /** Fewer than 128 frames are under assembly, and the session is known or there are fewer than 128. */
  predicate RoomFor(s: State, now: int, key: FrameKey) {
    |LiveFrames(s.frames, now)| < 128 && (Session(key) in LiveWindows(s.seen, now) || |LiveWindows(s.seen, now)| < 128)
  }

  predicate HasRoom(es: seq<Event>, i: nat)
    requires i < |es| && es[i].Arrive?
  {
    RoomFor(After(es[..i]), es[i].now, KeyOf(es[i]))
  }

  lemma RefusedIsReplayed(es: seq<Event>, i: nat)
    requires i < |es| && es[i].Arrive?
    ensures Refused(es, i) <==> Replayed(Expire(After(es[..i]), es[i].now), KeyOf(es[i]))
  {
    var key, live := KeyOf(es[i]), Expire(After(es[..i]), es[i].now);
    var sk := Session(key);
    ReplayTestIsExact(es[..i], key, es[i].now);
    AlwaysFits(es[..i], sk);
    if sk in live.seen {
      assert Stands(live.seen[sk], Accepted(es[..i], sk));
    }
  }

  // ---------------------------------------------------------------- one frame under one key

  /** Whatever arrives under the key was cut from this frame. */
  predicate CutFrom(es: seq<Event>, key: FrameKey, frame: seq<byte>) {
    forall m :: 0 <= m < |es| && es[m].Arrive? && KeyOf(es[m]) == key ==>
      es[m].chunk.offset < |frame| && es[m].chunk == ChunkOf(frame, key.epoch, key.seqno, es[m].chunk.offset)
  }

  /** What is under assembly is a part of it. */
  ghost predicate Holds(s: State, key: FrameKey, frame: seq<byte>) {
    key in s.frames ==> Partial(s.frames[key], frame)
  }

  lemma AssembleHolds(live: State, key: FrameKey, f: FrameSet, c: Chunk, now: int, frame: seq<byte>)
    requires Valid(live) && GoodChunk(c) && 14 <= |frame| <= MAX_FRAME && Holds(live, key, frame)
    requires c.offset < |frame| && c == ChunkOf(frame, c.epoch, c.seqno, c.offset)
    requires f.parts <= 2 && (|f.data| == |frame| ==> Partial(f, frame))
    ensures var r := Assemble(live, key, f, c, now); Holds(r.0, key, frame) && (r.1.Some? ==> r.1.value == frame)
  {
    if |f.data| == c.total && !Flag(f.parts, Bit(c.offset)) {
      SplicePartial(f, frame, c);
    }
  }

  lemma OtherHolds(live: State, key: FrameKey, f: FrameSet, c: Chunk, now: int, mine: FrameKey, frame: seq<byte>)
    requires Valid(live) && GoodChunk(c) && key != mine && Holds(live, mine, frame)
    ensures Holds(Assemble(live, key, f, c, now).0, mine, frame)
  {
  }

  lemma ReceiveHolds(s: State, peer: Addr, c: Chunk, now: int, key: FrameKey, frame: seq<byte>)
    requires Valid(s) && GoodChunk(c) && 14 <= |frame| <= MAX_FRAME && Holds(s, key, frame)
    requires FrameKey(peer, c.epoch, c.seqno) == key ==>
               c.offset < |frame| && c == ChunkOf(frame, c.epoch, c.seqno, c.offset)
    ensures Holds(Receive(s, peer, c, now).0, key, frame)
    ensures FrameKey(peer, c.epoch, c.seqno) == key && Receive(s, peer, c, now).1.Some? ==>
              Receive(s, peer, c, now).1.value == frame
  {
    ExpireKeepsValid(s, now);
    var live, its := Expire(s, now), FrameKey(peer, c.epoch, c.seqno);
    var f := SetFor(live, its, c.total, now);
    if its == key {
      StartPartial(live, key, c.total, now, frame);
      AssembleHolds(live, key, f, c, now, frame);
    } else {
      OtherHolds(live, its, f, c, now, key, frame);
    }
  }

  lemma {:induction false} AlwaysHolds(es: seq<Event>, key: FrameKey, frame: seq<byte>)
    requires CutFrom(es, key, frame) && 14 <= |frame| <= MAX_FRAME
    ensures Holds(After(es), key, frame)
  {
    if es != [] {
      var init, e := es[..|es| - 1], es[|es| - 1];
      AlwaysHolds(init, key, frame);
      if e.Arrive? {
        ReceiveHolds(After(init), e.peer, e.chunk, e.now, key, frame);
      }
    }
  }

  // ---------------------------------------------------------------- one slot over a run

  /** A frame of two chunks, one of which is held. */
  datatype Slot = Slot(expires: int, held: nat)

  /** What an event is to the frame: an emptying, something else at that time, or one of its chunks. */
  datatype Mark = Clear | Other(now: int) | Mine(now: int, offset: nat, refused: bool, room: bool)

  function Live(before: Option<Slot>, now: int): Option<Slot> {
    if before.Some? && now < before.value.expires then before else None
  }

  /** The slot opens for two seconds, is closed by the other chunk, and by nothing else in that time. */
  predicate Moves(m: Mark, before: Option<Slot>, after: Option<Slot>, done: bool) {
    match m
    case Clear => after == None && !done
    case Other(now) => after == Live(before, now) && !done
    case Mine(now, offset, refused, room) =>
      var live := Live(before, now);
      if refused then after == live && !done
      else if live.None? then
        !done && after == if room then Option.Some(Slot(now + 2_000_000_000, offset)) else None
      else if live.value.held == offset then after == live && !done
      else after == None && done
  }

  predicate Traced(ms: seq<Mark>, xs: seq<Option<Slot>>, ds: seq<bool>) {
    && |xs| == |ms| + 1 && |ds| == |ms| && xs[0] == None
    && forall n :: 0 <= n < |ms| ==> Moves(ms[n], xs[n], xs[n + 1], ds[n])
  }

  /** Chunk j finds no slot open and room for one. */
  predicate OpensAt(ms: seq<Mark>, xs: seq<Option<Slot>>, j: nat)
    requires j < |ms| < |xs|
  {
    ms[j].Mine? && !ms[j].refused && ms[j].room && Live(xs[j], ms[j].now) == None
  }

  /** Nothing ends what j has opened: no emptying, no event two seconds later, and not the other chunk. */
  predicate Undisturbed(ms: seq<Mark>, j: nat, n: nat)
    requires j < n <= |ms| && ms[j].Mine?
  {
    forall m :: j < m < n ==> Calm(ms[m], ms[j])
  }

  predicate Calm(m: Mark, opening: Mark)
    requires opening.Mine?
  {
    && !m.Clear? && m.now < opening.now + 2_000_000_000
    && (m.Mine? && !m.refused ==> m.offset == opening.offset)
  }

  lemma {:induction false} SlotIsOpen(ms: seq<Mark>, xs: seq<Option<Slot>>, ds: seq<bool>, n: nat) returns (j: nat)
    requires Traced(ms, xs, ds) && n <= |ms| && xs[n].Some?
    ensures j < n && OpensAt(ms, xs, j) && Undisturbed(ms, j, n)
    ensures xs[n] == Option.Some(Slot(ms[j].now + 2_000_000_000, ms[j].offset))
  {
    assert Moves(ms[n - 1], xs[n - 1], xs[n - 1 + 1], ds[n - 1]);
    if OpensAt(ms, xs, n - 1) {
      j := n - 1;
    } else {
      j := SlotIsOpen(ms, xs, ds, n - 1);
    }
  }

  lemma {:induction false} SlotStays(ms: seq<Mark>, xs: seq<Option<Slot>>, ds: seq<bool>, j: nat, n: nat)
    requires Traced(ms, xs, ds) && j < n <= |ms| && OpensAt(ms, xs, j) && Undisturbed(ms, j, n)
    ensures xs[n] == Option.Some(Slot(ms[j].now + 2_000_000_000, ms[j].offset))
  {
    assert Moves(ms[n - 1], xs[n - 1], xs[n - 1 + 1], ds[n - 1]);
    if n > j + 1 {
      SlotStays(ms, xs, ds, j, n - 1);
    }
  }

  /** Chunk n is the other one, in time. */
  predicate Closes(ms: seq<Mark>, j: nat, n: nat)
    requires j < n < |ms| && ms[j].Mine?
  {
    && ms[n].Mine? && !ms[n].refused && ms[n].offset != ms[j].offset && ms[n].now < ms[j].now + 2_000_000_000
    && Undisturbed(ms, j, n)
  }

  lemma DoneExactly(ms: seq<Mark>, xs: seq<Option<Slot>>, ds: seq<bool>, n: nat)
    requires Traced(ms, xs, ds) && n < |ms|
    ensures ds[n] <==> exists j :: 0 <= j < n && OpensAt(ms, xs, j) && Closes(ms, j, n)
  {
    assert Moves(ms[n], xs[n], xs[n + 1], ds[n]);
    if ds[n] {
      var j := SlotIsOpen(ms, xs, ds, n);
    }
    if j :| 0 <= j < n && OpensAt(ms, xs, j) && Closes(ms, j, n) {
      SlotStays(ms, xs, ds, j, n);
    }
  }

  // ---------------------------------------------------------------- runs

  ghost function MarkAt(es: seq<Event>, m: nat, key: FrameKey): Mark
    requires m < |es|
  {
    if !es[m].Arrive? then Clear
    else if KeyOf(es[m]) != key then Other(es[m].now)
    else Mine(es[m].now, es[m].chunk.offset, Refused(es, m), HasRoom(es, m))
  }

  function SlotOf(s: State, key: FrameKey): Option<Slot> {
    if key in s.frames then Option.Some(Slot(s.frames[key].expires, if s.frames[key].parts == 1 then 0 else 1024))
      else None
  }

  ghost function Marks(es: seq<Event>, key: FrameKey): (ms: seq<Mark>)
    ensures |ms| == |es|
  {
    seq(|es|, m requires 0 <= m < |es| => MarkAt(es, m, key))
  }

  function Slots(es: seq<Event>, key: FrameKey): (xs: seq<Option<Slot>>)
    ensures |xs| == |es| + 1
  {
    seq(|es| + 1, n requires 0 <= n <= |es| => SlotOf(After(es[..n]), key))
  }

  function Dones(es: seq<Event>, key: FrameKey): (ds: seq<bool>)
    ensures |ds| == |es|
  {
    seq(|es|, n requires 0 <= n < |es| => es[n].Arrive? && KeyOf(es[n]) == key && ResultAt(es, n).Some?)
  }

  /** A chunk of another frame touches this one only by its clock. */
  lemma OtherMoves(s: State, peer: Addr, c: Chunk, now: int, key: FrameKey)
    requires Valid(s) && GoodChunk(c) && FrameKey(peer, c.epoch, c.seqno) != key
    ensures SlotOf(Receive(s, peer, c, now).0, key) == Live(SlotOf(s, key), now)
  {
    ExpireKeepsValid(s, now);
  }

  /** The slot of a frame under assembly. */
  lemma HeldSlot(s: State, key: FrameKey, frame: seq<byte>)
    requires Valid(s) && Holds(s, key, frame) && 1024 < |frame| <= MAX_FRAME && key in s.frames
    ensures |s.frames[key].data| == |frame| && (s.frames[key].parts == 1 || s.frames[key].parts == 2)
  {
  }

  lemma SecondMoves(live: State, key: FrameKey, c: Chunk, now: int, frame: seq<byte>)
    requires Valid(live) && GoodChunk(c) && Holds(live, key, frame) && key in live.frames
    requires 1024 < |frame| <= MAX_FRAME && c.total == |frame| && now < live.frames[key].expires
    ensures var r := Assemble(live, key, live.frames[key], c, now);
            Moves(Mine(now, c.offset, false, true), SlotOf(live, key), SlotOf(r.0, key), r.1.Some?)
  {
    HeldSlot(live, key, frame);
    assert c.offset == 0 || c.offset == 1024;
  }

  lemma FirstMoves(live: State, key: FrameKey, c: Chunk, now: int, frame: seq<byte>)
    requires Valid(live) && GoodChunk(c) && key !in live.frames
    requires 1024 < |frame| <= MAX_FRAME && c.total == |frame|
    ensures var r := Assemble(live, key, SetFor(live, key, c.total, now), c, now);
            Moves(Mine(now, c.offset, false, true), SlotOf(live, key), SlotOf(r.0, key), r.1.Some?)
  {
    assert c.offset == 0 || c.offset == 1024;
  }

  lemma ExpiredSlot(s: State, now: int, key: FrameKey)
    ensures SlotOf(Expire(s, now), key) == Live(SlotOf(s, key), now)
  {
  }

  lemma NotTaken(s: State, peer: Addr, c: Chunk, now: int, key: FrameKey)
    requires Valid(s) && GoodChunk(c) && FrameKey(peer, c.epoch, c.seqno) == key
    requires Replayed(Expire(s, now), key) || (key !in LiveFrames(s.frames, now) && !RoomFor(s, now, key))
    ensures Receive(s, peer, c, now) == (Expire(s, now), None)
  {
    ExpireKeepsValid(s, now);
  }

  lemma Taken(s: State, peer: Addr, c: Chunk, now: int, key: FrameKey)
    requires Valid(s) && GoodChunk(c) && FrameKey(peer, c.epoch, c.seqno) == key
    requires !Replayed(Expire(s, now), key) && (key in LiveFrames(s.frames, now) || RoomFor(s, now, key))
    ensures Valid(Expire(s, now))
    ensures Receive(s, peer, c, now) == Assemble(Expire(s, now), key, SetFor(Expire(s, now), key, c.total, now), c, now)
  {
    ExpireKeepsValid(s, now);
  }

  lemma MovesTo(m: Mark, before: Option<Slot>, after: Option<Slot>, done: bool)
    requires m.Mine? && !m.refused && Moves(m.(room := true), Live(before, m.now), after, done)
    requires Live(before, m.now).Some? || m.room
    ensures Moves(m, before, after, done)
  {
  }

  /** A chunk of a frame of two: what it does. */
  lemma MineMoves(s: State, peer: Addr, c: Chunk, now: int, key: FrameKey, frame: seq<byte>)
    requires Valid(s) && GoodChunk(c) && FrameKey(peer, c.epoch, c.seqno) == key && Holds(s, key, frame)
    requires 1024 < |frame| <= MAX_FRAME && c.total == |frame|
    ensures var r, m := Receive(s, peer, c, now),
            Mine(now, c.offset, Replayed(Expire(s, now), key), RoomFor(s, now, key));
            Moves(m, SlotOf(s, key), SlotOf(r.0, key), r.1.Some?)
  {
    ExpireKeepsValid(s, now);
    ExpiredSlot(s, now, key);
    var live, room := Expire(s, now), RoomFor(s, now, key);
    var m := Mine(now, c.offset, Replayed(live, key), room);
    if m.refused || (key !in live.frames && !room) {
      NotTaken(s, peer, c, now, key);
    } else {
      Taken(s, peer, c, now, key);
      var r := Assemble(live, key, SetFor(live, key, c.total, now), c, now);
      if key in live.frames {
        SecondMoves(live, key, c, now, frame);
      } else {
        FirstMoves(live, key, c, now, frame);
      }
      MovesTo(m, SlotOf(s, key), SlotOf(r.0, key), r.1.Some?);
    }
  }

  lemma RunIsTraced(es: seq<Event>, key: FrameKey, frame: seq<byte>)
    requires CutFrom(es, key, frame) && 1024 < |frame| <= MAX_FRAME
    ensures Traced(Marks(es, key), Slots(es, key), Dones(es, key))
  {
    assert es[..0] == [];
    forall n | 0 <= n < |es|
      ensures Moves(Marks(es, key)[n], Slots(es, key)[n], Slots(es, key)[n + 1], Dones(es, key)[n])
    {
      EventMoves(es, n, key, frame);
    }
  }

  lemma EventMoves(es: seq<Event>, n: nat, key: FrameKey, frame: seq<byte>)
    requires n < |es| && CutFrom(es, key, frame) && 1024 < |frame| <= MAX_FRAME
    ensures Moves(MarkAt(es, n, key), SlotOf(After(es[..n]), key), SlotOf(After(es[..n + 1]), key), Dones(es, key)[n])
  {
    var s, e := After(es[..n]), es[n];
    AfterSnoc(es, n);
    if e.Arrive? {
      if KeyOf(e) == key {
        RefusedIsReplayed(es, n);
        AlwaysHolds(es[..n], key, frame);
        MineMoves(s, e.peer, e.chunk, e.now, key, frame);
      } else {
        OtherMoves(s, e.peer, e.chunk, e.now, key);
      }
    }
  }

  // ---------------------------------------------------------------- the main results

  /** Chunk j finds its frame not under assembly, and room for it. */
  ghost predicate Opens(es: seq<Event>, j: nat, key: FrameKey)
    requires j < |es|
  {
    && es[j].Arrive? && KeyOf(es[j]) == key && !Refused(es, j) && HasRoom(es, j)
    && key !in LiveFrames(After(es[..j]).frames, es[j].now)
  }

  /** Between j and i nothing was cleared, every clock is within two seconds of j, and the chunks of the frame that
      were not refused are copies of the one of j. */
  ghost predicate Between(es: seq<Event>, j: nat, i: nat, key: FrameKey)
    requires j < i <= |es| && es[j].Arrive?
  {
    forall m :: j < m < i ==> Harmless(es, j, m, key)
  }

  ghost predicate Harmless(es: seq<Event>, j: nat, m: nat, key: FrameKey)
    requires j < m < |es| && es[j].Arrive?
  {
    && es[m].Arrive? && es[m].now < es[j].now + 2_000_000_000
    && (KeyOf(es[m]) == key && !Refused(es, m) ==> es[m].chunk.offset == es[j].chunk.offset)
  }

  /** Chunk i is the other one, less than two seconds after j opened the frame. */
  ghost predicate Pairs(es: seq<Event>, j: nat, i: nat, key: FrameKey)
    requires j < i < |es| && es[i].Arrive?
  {
    && Opens(es, j, key) && es[j].chunk.offset != es[i].chunk.offset
    && es[i].now < es[j].now + 2_000_000_000 && Between(es, j, i, key)
  }

  lemma OpensIs(es: seq<Event>, j: nat, key: FrameKey)
    requires j < |es|
    ensures OpensAt(Marks(es, key), Slots(es, key), j) <==> Opens(es, j, key)
  {
    assert Slots(es, key)[j] == SlotOf(After(es[..j]), key);
  }

  lemma PairExactly(es: seq<Event>, j: nat, i: nat, key: FrameKey)
    requires j < i < |es| && es[i].Arrive? && KeyOf(es[i]) == key && !Refused(es, i)
    ensures OpensAt(Marks(es, key), Slots(es, key), j) && Closes(Marks(es, key), j, i) <==> Pairs(es, j, i, key)
  {
    OpensIs(es, j, key);
    if Opens(es, j, key) {
      BetweenIs(es, j, i, key);
    }
  }

  lemma BetweenIs(es: seq<Event>, j: nat, i: nat, key: FrameKey)
    requires j < i <= |es| && es[j].Arrive? && KeyOf(es[j]) == key
    ensures Undisturbed(Marks(es, key), j, i) <==> Between(es, j, i, key)
  {
    var ms := Marks(es, key);
    forall m | j < m < i
      ensures Calm(ms[m], ms[j]) <==> Harmless(es, j, m, key)
    {
      assert ms[m] == MarkAt(es, m, key) && ms[j] == MarkAt(es, j, key);
    }
  }

  lemma ReturnedIsFrame(es: seq<Event>, i: nat, frame: seq<byte>)
    requires i < |es| && es[i].Arrive? && CutFrom(es, KeyOf(es[i]), frame) && 14 <= |frame| <= MAX_FRAME
    ensures ResultAt(es, i) == None || ResultAt(es, i) == Option.Some(frame)
  {
    AlwaysHolds(es[..i], KeyOf(es[i]), frame);
    ReceiveHolds(After(es[..i]), es[i].peer, es[i].chunk, es[i].now, KeyOf(es[i]), frame);
  }

  /**
   * Over every run, whatever else arrives: a chunk of a frame of two chunks, all of which were cut from that frame,
   * returns the frame exactly when the other chunk opened it less than two seconds before, no update came in between,
   * neither number is refused, and it is the first to bring what was missing. Nothing else it can return.
   */
  lemma CompletedExactly(es: seq<Event>, i: nat, frame: seq<byte>)
    requires i < |es| && es[i].Arrive? && CutFrom(es, KeyOf(es[i]), frame) && 1024 < |frame| <= 1514
    ensures ResultAt(es, i) == None || ResultAt(es, i) == Option.Some(frame)
    ensures ResultAt(es, i).Some?
            <==> !Refused(es, i)
                 && exists j :: 0 <= j < i && Pairs(es, j, i, KeyOf(es[i]))
  {
    var key := KeyOf(es[i]);
    ReturnedIsFrame(es, i, frame);
    RunIsTraced(es, key, frame);
    DoneExactly(Marks(es, key), Slots(es, key), Dones(es, key), i);
    if ResultAt(es, i).Some? {
      var j :| 0 <= j < i && OpensAt(Marks(es, key), Slots(es, key), j) && Closes(Marks(es, key), j, i);
      PairExactly(es, j, i, key);
    }
    if !Refused(es, i) {
      if j :| 0 <= j < i && Pairs(es, j, i, key) {
        PairExactly(es, j, i, key);
      }
    }
  }

  /** A frame of one chunk is returned by every copy that is not refused and finds room. */
  lemma SingleExactly(es: seq<Event>, i: nat, frame: seq<byte>)
    requires i < |es| && es[i].Arrive? && CutFrom(es, KeyOf(es[i]), frame) && 14 <= |frame| <= 1024
    ensures ResultAt(es, i) == None || ResultAt(es, i) == Option.Some(frame)
    ensures ResultAt(es, i).Some? <==> !Refused(es, i) && HasRoom(es, i)
  {
    AlwaysHolds(es[..i], KeyOf(es[i]), frame);
    ReturnedIsFrame(es, i, frame);
    RefusedIsReplayed(es, i);
    SingleReturns(After(es[..i]), es[i].peer, es[i].chunk, es[i].now, KeyOf(es[i]), frame);
  }

  lemma SingleReturns(s: State, peer: Addr, c: Chunk, now: int, key: FrameKey, frame: seq<byte>)
    requires Valid(s) && GoodChunk(c) && FrameKey(peer, c.epoch, c.seqno) == key && Holds(s, key, frame)
    requires 14 <= |frame| <= 1024 && c.total == |frame|
    ensures Receive(s, peer, c, now).1.Some?
            <==> !Replayed(Expire(s, now), key) && RoomFor(s, now, key)
  {
    ExpireKeepsValid(s, now);
    assert key !in s.frames;
  }
}
