/** What the receiver keeps over every run: bounded tables, exact replay rejection, frames that
    arrive once and unchanged. */
module CarrierRuns {
  import opened Bytes
  import opened Packet
  import opened Replay
  import opened Carrier
  import opened Sets
  import opened Times
  import Policy

  /** A chunk that passed the header checks, or one of the two ways Update clears the tables. */
  datatype Step = Arrive(peer: Addr, chunk: Chunk, now: int) | NewRevision | NewMembers

  type Event = e: Step | e.Arrive? ==> GoodChunk(e.chunk) witness NewRevision

  const EMPTY_STATE := State(map[], map[])

  function KeyOf(e: Event): FrameKey
    requires e.Arrive?
  {
    FrameKey(e.peer, e.chunk.epoch, e.chunk.seqno)
  }

  function Next(s: State, e: Event): (r: (State, Option<seq<byte>>))
    requires Valid(s)
    ensures Valid(r.0)
  {
    match e
    case Arrive(peer, c, now) => ReceiveKeepsValid(s, peer, c, now); Receive(s, peer, c, now)
    case NewRevision => (EMPTY_STATE, None)
    case NewMembers => (s.(frames := map[]), None)
  }

  lemma ReceiveKeepsValid(s: State, peer: Addr, c: Chunk, now: int)
    requires Valid(s) && GoodChunk(c)
    ensures Valid(Receive(s, peer, c, now).0)
  {
    ExpireKeepsValid(s, now);
    var live, key := Expire(s, now), FrameKey(peer, c.epoch, c.seqno);
    var f := SetFor(live, key, c.total, now);
    if !Replayed(live, key) && !NoRoom(live, key) && |f.data| == c.total && !Flag(f.parts, Bit(c.offset)) {
      assert f.parts + Bit(c.offset) <= 3;
    }
  }

  /** The state after a run from the empty device. */
  function After(es: seq<Event>): (s: State)
    ensures Valid(s)
  {
    if es == [] then EMPTY_STATE else Next(After(es[..|es| - 1]), es[|es| - 1]).0
  }

  function ResultAt(es: seq<Event>, i: nat): Option<seq<byte>>
    requires i < |es|
  {
    Next(After(es[..i]), es[i]).1
  }

  lemma AfterSnoc(es: seq<Event>, n: nat)
    requires n < |es|
    ensures After(es[..n + 1]) == Next(After(es[..n]), es[n]).0
  {
    assert es[..n + 1][..n] == es[..n] && es[..n + 1][n] == es[n];
  }

  // ---------------------------------------------------------------- memory bounds

  /** The sessions that have a frame under assembly but no window yet. */
  ghost function Waiting(s: State): set<SessionKey> {
    set k | k in s.frames && Session(k) !in s.seen :: Session(k)
  }

  ghost predicate Bounded(s: State) {
    && |s.frames| <= MAX_FRAMES
    && |s.seen| + |Waiting(s)| <= 255
  }

  lemma {:induction false} ImageCard(keys: set<FrameKey>, image: set<SessionKey>)
    requires forall x <- image :: exists k <- keys :: Session(k) == x
    ensures |image| <= |keys|
    decreases |image|
  {
    if image != {} {
      var x :| x in image;
      var k :| k in keys && Session(k) == x;
      forall y | y in image - {x}
        ensures exists l <- keys - {k} :: Session(l) == y
      {
        var l :| l in keys && Session(l) == y;
      }
      ImageCard(keys - {k}, image - {x});
    }
  }

  /** Windows and waiting sessions never grow together by more than the new session. */
  lemma UnionBound(s: State, s': State)
    requires Bounded(s) && |s'.frames| <= MAX_FRAMES
    requires s'.seen.Keys + Waiting(s') <= s.seen.Keys + Waiting(s)
    ensures Bounded(s')
  {
    assert |s'.seen.Keys + Waiting(s')| == |s'.seen.Keys| + |Waiting(s')| by {
      assert s'.seen.Keys !! Waiting(s');
    }
    assert |s.seen.Keys + Waiting(s)| == |s.seen.Keys| + |Waiting(s)| by {
      assert s.seen.Keys !! Waiting(s);
    }
    CardLe(s'.seen.Keys + Waiting(s'), s.seen.Keys + Waiting(s));
  }

  lemma ExpireBounded(s: State, now: int)
    requires Bounded(s)
    ensures Bounded(Expire(s, now))
  {
    var live := Expire(s, now);
    CardLe(live.frames.Keys, s.frames.Keys);
    UnionBound(s, live);
  }

  /** With room for a new frame, one more session still fits: at most 127 windows and 127 other
      frames are there before. */
  lemma AdmitBounded(live: State, key: FrameKey, f: FrameSet)
    requires Bounded(live) && !NoRoom(live, key)
    ensures Bounded(live.(frames := live.frames[key := f]))
  {
    var s' := live.(frames := live.frames[key := f]);
    assert s'.frames.Keys == live.frames.Keys + {key};
    if key in live.frames || Session(key) in live.seen {
      UnionBound(live, s');
    } else {
      assert forall x <- Waiting(s') :: exists k <- s'.frames.Keys :: Session(k) == x;
      ImageCard(s'.frames.Keys, Waiting(s'));
      assert |s'.frames| <= 128 && |s'.seen| <= 127;
    }
  }

  lemma CompleteBounded(mid: State, key: FrameKey, w: Window)
    requires Bounded(mid) && key in mid.frames
    ensures Bounded(State(mid.frames - {key}, mid.seen[Session(key) := w]))
  {
    var s' := State(mid.frames - {key}, mid.seen[Session(key) := w]);
    CardLe(s'.frames.Keys, mid.frames.Keys);
    assert Session(key) in mid.seen.Keys + Waiting(mid);
    UnionBound(mid, s');
  }

  lemma NextBounded(s: State, e: Event)
    requires Valid(s) && Bounded(s)
    ensures Bounded(Next(s, e).0)
  {
    match e
    case NewRevision =>
    case NewMembers => assert Waiting(s.(frames := map[])) == {};
    case Arrive(peer, c, now) =>
      ExpireKeepsValid(s, now);
      ExpireBounded(s, now);
      var live, key := Expire(s, now), FrameKey(peer, c.epoch, c.seqno);
      if !Replayed(live, key) && !NoRoom(live, key) {
        AssembleBounded(live, key, SetFor(live, key, c.total, now), c, now);
      }
  }

  lemma AssembleBounded(live: State, key: FrameKey, f: FrameSet, c: Chunk, now: int)
    requires Valid(live) && Bounded(live) && GoodChunk(c) && !NoRoom(live, key)
    ensures Bounded(Assemble(live, key, f, c, now).0)
  {
    if |f.data| == c.total && !Flag(f.parts, Bit(c.offset)) {
      var g := f.(data := Splice(f.data, c.offset, c.body), parts := f.parts + Bit(c.offset));
      AdmitBounded(live, key, g);
      if g.parts == Full(c.total) {
        var mid := live.(frames := live.frames[key := g]);
        CompleteBounded(mid, key, Mark(WindowFor(live, key), key.seqno, now + 120 * SECOND));
        assert mid.frames - {key} == live.frames - {key};
      }
    }
  }

  /** In every run at most 128 frames are under assembly, and windows plus waiting sessions stay
      at most 255 although each new frame is only checked against 128. */
  lemma {:induction false} TablesBounded(es: seq<Event>)
    ensures Bounded(After(es))
  {
    if es == [] {
      assert Waiting(EMPTY_STATE) == {};
    } else {
      TablesBounded(es[..|es| - 1]);
      NextBounded(After(es[..|es| - 1]), es[|es| - 1]);
    }
  }

  // ---------------------------------------------------------------- exact replay rejection

  /** What a session has accepted since its window was created, and when last. */
  datatype Life = Life(accepted: set<nat>, last: Option<int>)

  ghost function LifeStep(s: State, l: Life, e: Event, sk: SessionKey): Life
    requires Valid(s)
  {
    match e
    case NewRevision => Life({}, l.last)
    case NewMembers => l
    case Arrive(peer, c, now) =>
      var kept := if sk in Expire(s, now).seen then l.accepted else {};
      if Session(KeyOf(e)) == sk && Next(s, e).1.Some? then Life(kept + {c.seqno}, Option.Some(now))
        else Life(kept, l.last)
  }

  ghost function LifeOf(es: seq<Event>, sk: SessionKey): Life {
    if es == [] then Life({}, None)
    else LifeStep(After(es[..|es| - 1]), LifeOf(es[..|es| - 1], sk), es[|es| - 1], sk)
  }

  /** The numbers of session sk accepted since its window was created. */
  ghost function Accepted(es: seq<Event>, sk: SessionKey): set<nat> {
    LifeOf(es, sk).accepted
  }

  /** The time of the last accepted frame of session sk, if any. */
  ghost function LastAccept(es: seq<Event>, sk: SessionKey): Option<int> {
    LifeOf(es, sk).last
  }

  /** A live window stands for what its session accepted, and dies two minutes after the last acceptance. */
  ghost predicate Fits(s: State, sk: SessionKey, l: Life) {
    sk in s.seen ==> Stands(s.seen[sk], l.accepted) && l.last == Option.Some(s.seen[sk].expires - 120 * SECOND)
  }

  lemma AcceptShape(s: State, e: Event)
    requires Valid(s) && e.Arrive? && Next(s, e).1.Some?
    ensures Valid(Expire(s, e.now))
    ensures var live, key := Expire(s, e.now), KeyOf(e);
            && !Replayed(live, key)
            && Next(s, e).0.seen
               == live.seen[Session(key) := Mark(WindowFor(live, key), key.seqno, e.now + 120 * SECOND)]
  {
    ExpireKeepsValid(s, e.now);
  }

  lemma MarkWindowStands(live: State, key: FrameKey, accepted: set<nat>, expires: int)
    requires Valid(live) && !Replayed(live, key)
    requires Session(key) in live.seen ==> Stands(live.seen[Session(key)], accepted)
    requires Session(key) !in live.seen ==> accepted == {}
    ensures Stands(Mark(WindowFor(live, key), key.seqno, expires), accepted + {key.seqno})
  {
    FreshStands();
    if Session(key) !in live.seen {
      RejectsExactly(Fresh(), {}, key.seqno);
    }
    MarkStands(WindowFor(live, key), accepted, key.seqno, expires);
  }

  /** Expiry drops windows or leaves them alone. */
  lemma ExpireFits(s: State, now: int, sk: SessionKey, l: Life)
    requires Fits(s, sk, l)
    ensures Fits(Expire(s, now), sk, Life(if sk in Expire(s, now).seen then l.accepted else {}, l.last))
  {
  }

  lemma AcceptMarks(s: State, e: Event, l: Life)
    requires Valid(s) && e.Arrive? && Next(s, e).1.Some? && Fits(s, Session(KeyOf(e)), l)
    ensures var live, sk := Expire(s, e.now), Session(KeyOf(e));
            Stands(Mark(WindowFor(live, KeyOf(e)), e.chunk.seqno, e.now + 120 * SECOND),
                   (if sk in live.seen then l.accepted else {}) + {e.chunk.seqno})
  {
    var live, sk := Expire(s, e.now), Session(KeyOf(e));
    ExpireFits(s, e.now, sk, l);
    AcceptShape(s, e);
    MarkWindowStands(live, KeyOf(e), if sk in live.seen then l.accepted else {}, e.now + 120 * SECOND);
  }

  lemma FitsByWindow(s: State, sk: SessionKey, w: Window, accepted: set<nat>, now: int)
    requires sk in s.seen && s.seen[sk] == w && Stands(w, accepted) && w.expires == now + 120 * SECOND
    ensures Fits(s, sk, Life(accepted, Option.Some(now)))
  {
  }

  lemma AcceptFits(s: State, e: Event, l: Life)
    requires Valid(s) && e.Arrive? && Next(s, e).1.Some? && Fits(s, Session(KeyOf(e)), l)
    ensures Fits(Next(s, e).0, Session(KeyOf(e)), LifeStep(s, l, e, Session(KeyOf(e))))
  {
    var live, sk := Expire(s, e.now), Session(KeyOf(e));
    AcceptMarks(s, e, l);
    AcceptShape(s, e);
    FitsByWindow(Next(s, e).0, sk, Mark(WindowFor(live, KeyOf(e)), e.chunk.seqno, e.now + 120 * SECOND),
                 (if sk in live.seen then l.accepted else {}) + {e.chunk.seqno}, e.now);
  }

  /** Every other event leaves the session's window as it is, or drops it. */
  lemma OtherShape(s: State, e: Event, sk: SessionKey)
    requires Valid(s) && e.Arrive? && !(Next(s, e).1.Some? && Session(KeyOf(e)) == sk)
    ensures sk in Next(s, e).0.seen <==> sk in Expire(s, e.now).seen
    ensures sk in Next(s, e).0.seen ==> Next(s, e).0.seen[sk] == Expire(s, e.now).seen[sk]
  {
    ExpireKeepsValid(s, e.now);
  }

  lemma FitsMoved(a: State, b: State, sk: SessionKey, l: Life, m: Life)
    requires Fits(a, sk, l)
    requires sk in b.seen ==> sk in a.seen && b.seen[sk] == a.seen[sk] && m == l
    ensures Fits(b, sk, m)
  {
  }

  lemma OtherFits(s: State, l: Life, e: Event, sk: SessionKey)
    requires Valid(s) && e.Arrive? && Fits(s, sk, l) && !(Next(s, e).1.Some? && Session(KeyOf(e)) == sk)
    ensures Fits(Next(s, e).0, sk, LifeStep(s, l, e, sk))
  {
    OtherShape(s, e, sk);
    FitsMoved(s, Next(s, e).0, sk, l, LifeStep(s, l, e, sk));
  }

  lemma FitsStep(s: State, l: Life, e: Event, sk: SessionKey)
    requires Valid(s) && Fits(s, sk, l)
    ensures Fits(Next(s, e).0, sk, LifeStep(s, l, e, sk))
  {
    if e.Arrive? {
      if Next(s, e).1.Some? && Session(KeyOf(e)) == sk {
        AcceptFits(s, e, l);
      } else {
        OtherFits(s, l, e, sk);
      }
    } else {
      FitsMoved(s, Next(s, e).0, sk, l, LifeStep(s, l, e, sk));
    }
  }

  lemma {:induction false} AlwaysFits(es: seq<Event>, sk: SessionKey)
    ensures Fits(After(es), sk, LifeOf(es, sk))
  {
    if es != [] {
      var init, e := es[..|es| - 1], es[|es| - 1];
      AlwaysFits(init, sk);
      FitsStep(After(init), LifeOf(init, sk), e, sk);
    }
  }

  /** Within the life of a window the test rejects a number exactly when it is zero, was accepted
      in that life, or is at least 4096 below the highest accepted one. */
  lemma ReplayTestIsExact(es: seq<Event>, key: FrameKey, now: int)
    ensures var live, sk := Expire(After(es), now), Session(key);
            Replayed(live, key) <==>
              key.seqno == 0
              || (sk in live.seen && (key.seqno in Accepted(es, sk) || key.seqno + SLOTS <= live.seen[sk].highest))
  {
    var live, sk := Expire(After(es), now), Session(key);
    AlwaysFits(es, sk);
    if sk in live.seen {
      RejectsExactly(live.seen[sk], Accepted(es, sk), key.seqno);
    }
  }

  // ---------------------------------------------------------------- accepted once

  predicate AcceptsAt(es: seq<Event>, i: nat, key: FrameKey) {
    i < |es| && es[i].Arrive? && KeyOf(es[i]) == key && ResultAt(es, i).Some?
  }

  /** No new revision and no two idle minutes of the session between events i and j. */
  ghost predicate Unbroken(es: seq<Event>, i: nat, j: nat, sk: SessionKey)
    requires i < j < |es|
  {
    forall m :: i < m <= j ==>
      && !es[m].NewRevision?
      && (es[m].Arrive? ==> LastAccept(es[..m], sk).Some? && es[m].now < LastAccept(es[..m], sk).value + 120 * SECOND)
  }

  lemma SurvivesStep(s: State, l: Life, e: Event, sk: SessionKey, n: nat)
    requires Valid(s) && Fits(s, sk, l) && sk in s.seen && n in l.accepted && !e.NewRevision?
    requires e.Arrive? ==> l.last.Some? && e.now < l.last.value + 120 * SECOND
    ensures sk in Next(s, e).0.seen && n in LifeStep(s, l, e, sk).accepted
  {
    if e.Arrive? {
      assert sk in Expire(s, e.now).seen;
      if Next(s, e).1.Some? && Session(KeyOf(e)) == sk {
        AcceptShape(s, e);
      } else {
        OtherShape(s, e, sk);
      }
    }
  }

  lemma Recorded(s: State, l: Life, e: Event)
    requires Valid(s) && e.Arrive? && Next(s, e).1.Some?
    ensures Session(KeyOf(e)) in Next(s, e).0.seen && e.chunk.seqno in LifeStep(s, l, e, Session(KeyOf(e))).accepted
  {
    AcceptShape(s, e);
  }

  lemma Unfold(es: seq<Event>, m: nat)
    requires 0 < m <= |es|
    ensures After(es[..m]) == Next(After(es[..m - 1]), es[m - 1]).0
    ensures forall sk :: LifeOf(es[..m], sk) == LifeStep(After(es[..m - 1]), LifeOf(es[..m - 1], sk), es[m - 1], sk)
  {
    assert es[..m][..m - 1] == es[..m - 1];
  }

  /** Accepted at i and unbroken since: the number is still known just before event m. */
  lemma {:induction false} StillKnown(es: seq<Event>, i: nat, m: nat, key: FrameKey)
    requires i < m < |es| && AcceptsAt(es, i, key) && Unbroken(es, i, m, Session(key))
    ensures Session(key) in After(es[..m]).seen && key.seqno in Accepted(es[..m], Session(key))
    decreases m
  {
    var sk, before := Session(key), es[..m - 1];
    Unfold(es, m);
    if i < m - 1 {
      assert Unbroken(es, i, m - 1, sk);
      StillKnown(es, i, m - 1, key);
      AlwaysFits(before, sk);
      SurvivesStep(After(before), LifeOf(before, sk), es[m - 1], sk, key.seqno);
    } else {
      Recorded(After(before), LifeOf(before, sk), es[i]);
    }
  }

  /** The same frame number is accepted once, until its session has been idle for two minutes or
      the policy revision changes. */
  lemma AcceptedOnce(es: seq<Event>, i: nat, j: nat, key: FrameKey)
    requires i < j < |es| && AcceptsAt(es, i, key) && Unbroken(es, i, j, Session(key))
    ensures !AcceptsAt(es, j, key)
  {
    if AcceptsAt(es, j, key) {
      var sk := Session(key);
      StillKnown(es, i, j, key);
      AlwaysFits(es[..j], sk);
      assert sk in Expire(After(es[..j]), es[j].now).seen;
      ReplayTestIsExact(es[..j], key, es[j].now);
    }
  }

  // ---------------------------------------------------------------- accepted unchanged

  /** Every arriving chunk was cut from the frame its sender queued under that number. Loss,
      duplication and reordering are arbitrary. */
  ghost predicate Honest(e: Event, sent: map<FrameKey, seq<byte>>) {
    e.Arrive? ==>
      && KeyOf(e) in sent && 14 <= |sent[KeyOf(e)]| <= MAX_FRAME && e.chunk.offset < |sent[KeyOf(e)]|
      && e.chunk == ChunkOf(sent[KeyOf(e)], e.chunk.epoch, e.chunk.seqno, e.chunk.offset)
  }

  ghost predicate Partial(f: FrameSet, frame: seq<byte>) {
    && |f.data| == |frame|
    && (Flag(f.parts, 1) ==> forall x :: 0 <= x < Earlier(CHUNK, |frame|) ==> f.data[x] == frame[x])
    && (Flag(f.parts, 2) ==> forall x :: CHUNK <= x < |frame| ==> f.data[x] == frame[x])
  }

  ghost predicate Faithful(s: State, sent: map<FrameKey, seq<byte>>) {
    forall k <- s.frames :: k in sent && Partial(s.frames[k], sent[k])
  }

  lemma SplicePartial(f: FrameSet, frame: seq<byte>, c: Chunk)
    requires 14 <= |frame| <= MAX_FRAME && GoodChunk(c) && c.offset < |frame|
    requires c == ChunkOf(frame, c.epoch, c.seqno, c.offset)
    requires Partial(f, frame) && f.parts <= 2 && !Flag(f.parts, Bit(c.offset))
    ensures Partial(f.(data := Splice(f.data, c.offset, c.body), parts := f.parts + Bit(c.offset)), frame)
    ensures f.parts + Bit(c.offset) == Full(|frame|) ==> Splice(f.data, c.offset, c.body) == frame
  {
    var data := Splice(f.data, c.offset, c.body);
    assert c.offset == 0 || c.offset == CHUNK;
    forall x | c.offset <= x < c.offset + |c.body|
      ensures data[x] == frame[x]
    {
      assert data[x] == c.body[x - c.offset];
    }
  }

  lemma AssembleFaithful(live: State, key: FrameKey, f: FrameSet, c: Chunk, now: int, sent: map<FrameKey, seq<byte>>)
    requires Valid(live) && Faithful(live, sent) && GoodChunk(c) && key in sent
    requires 14 <= |sent[key]| <= MAX_FRAME && c.offset < |sent[key]|
    requires c == ChunkOf(sent[key], c.epoch, c.seqno, c.offset)
    requires f.parts <= 2 && (|f.data| == |sent[key]| ==> Partial(f, sent[key]))
    ensures var r := Assemble(live, key, f, c, now);
            Faithful(r.0, sent) && (r.1.Some? ==> r.1.value == sent[key])
  {
    if |f.data| == c.total && !Flag(f.parts, Bit(c.offset)) {
      SplicePartial(f, sent[key], c);
    }
  }

  lemma StartPartial(s: State, key: FrameKey, total: nat, now: int, frame: seq<byte>)
    requires Valid(s) && (key in s.frames ==> Partial(s.frames[key], frame))
    ensures var f := SetFor(s, key, total, now);
            f.parts <= 2 && (|f.data| == |frame| ==> Partial(f, frame))
  {
  }

  lemma NextFaithful(s: State, e: Event, sent: map<FrameKey, seq<byte>>)
    requires Valid(s) && Faithful(s, sent) && Honest(e, sent)
    ensures Faithful(Next(s, e).0, sent)
    ensures Next(s, e).1.Some? ==> e.Arrive? && KeyOf(e) in sent && Next(s, e).1.value == sent[KeyOf(e)]
  {
    if e.Arrive? {
      ReceiveFaithful(s, e.peer, e.chunk, e.now, sent);
    }
  }

  lemma ReceiveFaithful(s: State, peer: Addr, c: Chunk, now: int, sent: map<FrameKey, seq<byte>>)
    requires Valid(s) && Faithful(s, sent) && GoodChunk(c) && Honest(Arrive(peer, c, now), sent)
    ensures var r := Receive(s, peer, c, now);
            Faithful(r.0, sent) && (r.1.Some? ==> r.1.value == sent[FrameKey(peer, c.epoch, c.seqno)])
  {
    ExpireKeepsValid(s, now);
    var live, key := Expire(s, now), FrameKey(peer, c.epoch, c.seqno);
    assert Faithful(live, sent);
    StartPartial(live, key, c.total, now, sent[key]);
    AssembleFaithful(live, key, SetFor(live, key, c.total, now), c, now, sent);
  }

  lemma {:induction false} AllFaithful(es: seq<Event>, sent: map<FrameKey, seq<byte>>)
    requires forall e <- es :: Honest(e, sent)
    ensures Faithful(After(es), sent)
  {
    if es != [] {
      var init, e := es[..|es| - 1], es[|es| - 1];
      AllFaithful(init, sent);
      NextFaithful(After(init), e, sent);
    }
  }

  /** Carrier correctness: whatever is lost, repeated or reordered, an accepted frame is octet for
      octet the one its sender queued under that peer, epoch and number. */
  lemma AcceptedUnchanged(es: seq<Event>, sent: map<FrameKey, seq<byte>>, i: nat)
    requires i < |es| && ResultAt(es, i).Some?
    requires forall e <- es :: Honest(e, sent)
    ensures es[i].Arrive? && KeyOf(es[i]) in sent && ResultAt(es, i) == Option.Some(sent[KeyOf(es[i])])
  {
    AllFaithful(es[..i], sent);
    NextFaithful(After(es[..i]), es[i], sent);
  }

  lemma {:induction false} QueuedPacketIs(d: Origin, frame: seq<byte>, seqno: nat, peer: Policy.Member, offset: nat,
      i: nat)
    requires IsV4(d.ip) && IsV4(peer.ip) && i < |Packets(d, frame, seqno, peer, offset)|
    ensures offset + i * CHUNK < |frame|
    ensures Packets(d, frame, seqno, peer, offset)[i].packet
            == UdpBytes(d.ip, peer.ip, LAN_PORT,
              Encode(ChunkOf(frame, d.epoch, seqno, offset + i * CHUNK), d.revision, d.room))
    decreases i
  {
    if i > 0 {
      QueuedPacketIs(d, frame, seqno, peer, offset + CHUNK, i - 1);
    }
  }

  /** The packets a sender queues for a frame are exactly such chunks once parsed. */
  lemma QueuedPacketDecodes(d: Origin, frame: seq<byte>, seqno: nat, peer: Policy.Member, i: nat)
    requires IsV4(d.ip) && IsV4(peer.ip) && |d.room| == 16 && d.epoch < WORD && d.revision < WORD && seqno < WORD
    requires 14 <= |frame| <= MAX_FRAME && i < |Packets(d, frame, seqno, peer, 0)|
    ensures var r := Parse(Packets(d, frame, seqno, peer, 0)[i].packet);
            && i * CHUNK < |frame| && r.Some? && r.value.src == d.ip && r.value.dst == peer.ip && !r.value.fragmented
            && Decode(r.value, d.revision, d.room) == Option.Some(ChunkOf(frame, d.epoch, seqno, i * CHUNK))
  {
    QueuedPacketIs(d, frame, seqno, peer, 0, i);
    ChunkRoundTrip(d.ip, peer.ip, ChunkOf(frame, d.epoch, seqno, i * CHUNK), d.revision, d.room);
  }
}
