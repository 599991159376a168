/** Ethernet frames cut into carrier chunks by the sender and put together by the receiver. */
module Carrier {
  import opened Bytes
  import opened Packet
  import opened Replay
  import opened Times
  import Policy

  const CHUNK := 1024
  const HEADER := 52
  const LAN_PORT := 4244
  const LAN_VERSION: byte := 1
  const MAGIC: seq<byte> := [78, 76, 65, 78]
  const MAX_PENDING := 4096
  const MAX_FRAMES := 128
  const MAX_SEEN := 128
  const WORD := 0x1_0000_0000_0000_0000

  // ---------------------------------------------------------------- the wire format

  datatype Chunk = Chunk(epoch: nat, seqno: nat, offset: nat, total: nat, body: seq<byte>)

  /** One chunk of a frame behind its 52-octet header. */
  function Encode(c: Chunk, revision: nat, room: seq<byte>): seq<byte> {
    MAGIC + [LAN_VERSION, 0] + Put(c.offset, 2) + Put(c.total, 2) + Put(|c.body|, 2)
    + Put(c.epoch, 8) + Put(c.seqno, 8) + Put(revision, 8) + room + c.body
  }

  predicate GoodChunk(c: Chunk) {
    && 14 <= c.total <= MAX_FRAME && c.offset % CHUNK == 0 && c.offset < c.total
    && |c.body| == Earlier(CHUNK, c.total - c.offset)
  }

  /** The header checks of Write, from the protocol number to the chunk length. */
  function Decode(p: Packet, revision: nat, room: seq<byte>): (r: Option<Chunk>)
    ensures r.Some? ==> GoodChunk(r.value)
  {
    if p.proto != 17 || |p.data| < 8 + HEADER || Get(p.data[..2]) != LAN_PORT || Get(p.data[2..4]) != LAN_PORT
       || Get(p.data[4..6]) != |p.data| then None
    else
      var h := p.data[8..];
      if h[..4] != MAGIC || h[4] != LAN_VERSION || h[5] != 0 || Get(h[28..36]) != revision || h[36..52] != room then
        None
      else
        var c := Chunk(Get(h[12..20]), Get(h[20..28]), Get(h[6..8]), Get(h[8..10]), h[HEADER..]);
        if c.total < 14 || c.total > MAX_FRAME || c.offset % CHUNK != 0 || c.offset >= c.total
           || Get(h[10..12]) != Earlier(CHUNK, c.total - c.offset) || |h| != HEADER + Get(h[10..12]) then None
        else Some(c)
  }

  predicate Numbers(c: Chunk, revision: nat, room: seq<byte>) {
    c.epoch < WORD && c.seqno < WORD && revision < WORD && |room| == 16
  }

  lemma PutGet(n: nat, width: nat, h: seq<byte>, at: nat)
    requires at + width <= |h| && h[at..at + width] == Put(n, width) && n < Pow256(width)
    ensures Get(h[at..at + width]) == n
  {
    GetPut(n, width);
    ModUnique(n, Pow256(width), 0, n);
  }

  /** What was appended last can be read back, and the rest is still in front. */
  lemma ReadBack(front: seq<byte>, part: seq<byte>, h: seq<byte>)
    requires front + part <= h
    ensures front <= h && h[|front|..|front| + |part|] == part
  {
    assert h[..|front| + |part|] == front + part;
    assert front == (front + part)[..|front|];
    assert h[|front|..|front| + |part|] == (front + part)[|front|..];
  }

  lemma EncodeFields(c: Chunk, revision: nat, room: seq<byte>)
    requires |room| == 16
    ensures var h := Encode(c, revision, room);
            && |h| == HEADER + |c.body|
            && h[..4] == MAGIC && h[4] == LAN_VERSION && h[5] == 0
            && h[6..8] == Put(c.offset, 2) && h[8..10] == Put(c.total, 2) && h[10..12] == Put(|c.body|, 2)
            && h[12..20] == Put(c.epoch, 8) && h[20..28] == Put(c.seqno, 8) && h[28..36] == Put(revision, 8)
            && h[36..52] == room && h[52..] == c.body
  {
    var h := Encode(c, revision, room);
    var a: seq<byte> := MAGIC + [LAN_VERSION, 0];
    var d := a + Put(c.offset, 2);
    var e := d + Put(c.total, 2);
    var f := e + Put(|c.body|, 2);
    var g := f + Put(c.epoch, 8);
    var i := g + Put(c.seqno, 8);
    var j := i + Put(revision, 8);
    assert h == j + room + c.body;
    ReadBack(j + room, c.body, h);
    ReadBack(j, room, h);
    ReadBack(i, Put(revision, 8), h);
    ReadBack(g, Put(c.seqno, 8), h);
    ReadBack(f, Put(c.epoch, 8), h);
    ReadBack(e, Put(|c.body|, 2), h);
    ReadBack(d, Put(c.total, 2), h);
    ReadBack(a, Put(c.offset, 2), h);
    ReadBack(MAGIC, [LAN_VERSION, 0], h);
    assert h[4..6][0] == h[4] && h[4..6][1] == h[5];
  }

  /** A chunk survives the wire: UDP encapsulation, parsing and the header checks. */
  lemma ChunkRoundTrip(src: Addr, dst: Addr, c: Chunk, revision: nat, room: seq<byte>)
    requires IsV4(src) && IsV4(dst) && GoodChunk(c) && Numbers(c, revision, room)
    ensures var r := Parse(UdpBytes(src, dst, LAN_PORT, Encode(c, revision, room)));
            && r.Some? && r.value.src == src && r.value.dst == dst && !r.value.fragmented
            && Decode(r.value, revision, room) == Some(c)
  {
    var h := Encode(c, revision, room);
    EncodeFields(c, revision, room);
    UdpRoundTrip(src, dst, LAN_PORT, h);
    UdpPayloadFields(LAN_PORT, h);
    DecodeEncoded(c, revision, room);
  }

  lemma DecodeEncoded(c: Chunk, revision: nat, room: seq<byte>)
    requires GoodChunk(c) && Numbers(c, revision, room)
    ensures forall p: Packet :: p.proto == 17 && p.data == UdpPayload(LAN_PORT, Encode(c, revision, room))
              ==> Decode(p, revision, room) == Some(c)
  {
    var h := Encode(c, revision, room);
    EncodeFields(c, revision, room);
    PowValues();
    UdpPayloadFields(LAN_PORT, h);
    PutGet(c.offset, 2, h, 6);
    PutGet(c.total, 2, h, 8);
    PutGet(|c.body|, 2, h, 10);
    PutGet(c.epoch, 8, h, 12);
    PutGet(c.seqno, 8, h, 20);
    PutGet(revision, 8, h, 28);
  }

  // ---------------------------------------------------------------- the sender

  datatype Pending = Pending(packet: seq<byte>, peer: Policy.Member, generation: nat)

  function ChunkOf(frame: seq<byte>, epoch: nat, seqno: nat, offset: nat): (c: Chunk)
    requires offset < |frame|
  {
    Chunk(epoch, seqno, offset, |frame|, frame[offset..offset + Earlier(CHUNK, |frame| - offset)])
  }

  /** The packet of the chunk at `offset`. */
  function PacketOf(d: Origin, frame: seq<byte>, seqno: nat, peer: Policy.Member, offset: nat): Pending
    requires IsV4(d.ip) && IsV4(peer.ip) && offset < |frame|
  {
    Pending(UdpBytes(d.ip, peer.ip, LAN_PORT, Encode(ChunkOf(frame, d.epoch, seqno, offset), d.revision, d.room)), peer,
      d.generation)
  }

  /** The packets of one frame, in offset order, from `offset` on. */
  function Packets(d: Origin, frame: seq<byte>, seqno: nat, peer: Policy.Member, offset: nat): seq<Pending>
    requires IsV4(d.ip) && IsV4(peer.ip)
    decreases |frame| - offset
  {
    if offset >= |frame| then []
    else
      [PacketOf(d, frame, seqno, peer, offset)] + Packets(d, frame, seqno, peer, offset + CHUNK)
  }

  /** The counter and the queue after a frame was queued, or found no room. */
  function Enqueue(d: Origin, seqno: nat, pending: seq<Pending>, frame: seq<byte>,
      peer: Policy.Member): (nat, seq<Pending>)
    requires IsV4(d.ip) && IsV4(peer.ip)
  {
    if |pending| + 2 > MAX_PENDING then (seqno, pending)
    else
      var n := (seqno + 1) % WORD;
      (n, pending + Packets(d, frame, n, peer, 0))
  }

  function EnqueueAll(d: Origin, seqno: nat, pending: seq<Pending>, frames: seq<seq<byte>>,
      peer: Policy.Member): (nat, seq<Pending>)
    requires IsV4(d.ip) && (frames != [] ==> IsV4(peer.ip))
  {
    if frames == [] then (seqno, pending)
    else
      var (n, queue) := EnqueueAll(d, seqno, pending, frames[..|frames| - 1], peer);
      Enqueue(d, n, queue, frames[|frames| - 1], peer)
  }

  lemma PacketsMove(queue: seq<Pending>, d: Origin, frame: seq<byte>, seqno: nat, peer: Policy.Member, offset: nat)
    requires IsV4(d.ip) && IsV4(peer.ip) && offset < |frame|
    ensures queue + Packets(d, frame, seqno, peer, offset)
            == (queue + [PacketOf(d, frame, seqno, peer, offset)]) + Packets(d, frame, seqno, peer, offset + CHUNK)
  {
  }

  /** The fields of the device that queue reads. */
  datatype Origin = Origin(ip: Addr, epoch: nat, revision: nat, room: seq<byte>, generation: nat)

  class Sender {
    var origin: Origin
    var seqno: nat
    var pending: seq<Pending>
    /** How many frames were queued, and the last one under each sequence number. */
    ghost var count: nat
    ghost var sent: map<nat, seq<byte>>

    constructor (origin: Origin)
      requires IsV4(origin.ip) && |origin.room| == 16
      ensures Valid() && this.origin == origin && count == 0 && pending == [] && sent == map[]
    {
      this.origin := origin;
      seqno := 0;
      pending := [];
      count := 0;
      sent := map[];
    }

    /** Until the 64-bit counter wraps, every queued frame has its own number. */
    ghost predicate Valid()
      reads this
    {
      && IsV4(origin.ip) && |origin.room| == 16 && |pending| <= MAX_PENDING
      && seqno == count % WORD
      && (count < WORD ==> forall n <- sent :: 0 < n <= count)
    }

    method Queue(frame: seq<byte>, peer: Policy.Member)
      requires Valid() && IsV4(peer.ip) && |frame| <= MAX_FRAME
      modifies this
      ensures Valid() && origin == old(origin)
      ensures (seqno, pending) == Enqueue(origin, old(seqno), old(pending), frame, peer)
      ensures if |old(pending)| + 2 > MAX_PENDING then count == old(count) && sent == old(sent)
              else
                && count == old(count) + 1 && sent == old(sent)[seqno := frame]
                && (count < WORD ==> seqno == count && seqno !in old(sent))
    {
      if |pending| + 2 > MAX_PENDING {
        return;
      }
      Number(frame);
      AtMostTwo(origin, frame, seqno, peer);
      AppendChunks(frame, peer);
    }

    method Number(frame: seq<byte>)
      requires Valid()
      modifies `seqno, `count, `sent
      ensures Valid() && seqno == (old(seqno) + 1) % WORD && count == old(count) + 1
              && sent == old(sent)[seqno := frame]
      ensures count < WORD ==> seqno == count && seqno !in old(sent)
    {
      seqno := (seqno + 1) % WORD;
      count := count + 1;
      sent := sent[seqno := frame];
      Successor(old(count));
    }

    /** The loop of queue. */
    method AppendChunks(frame: seq<byte>, peer: Policy.Member)
      requires IsV4(origin.ip) && IsV4(peer.ip)
      modifies `pending
      ensures pending == old(pending) + Packets(origin, frame, seqno, peer, 0)
    {
      var offset := 0;
      while offset < |frame|
        invariant 0 <= offset
        invariant pending + Packets(origin, frame, seqno, peer, offset)
                  == old(pending) + Packets(origin, frame, seqno, peer, 0)
        decreases |frame| - offset
      {
        var packet := MakePacket(frame, peer, offset);
        PacketsMove(pending, origin, frame, seqno, peer, offset);
        pending := pending + [packet];
        offset := offset + CHUNK;
      }
    }

    method MakePacket(frame: seq<byte>, peer: Policy.Member, offset: nat) returns (p: Pending)
      requires IsV4(origin.ip) && IsV4(peer.ip) && offset < |frame|
      ensures p == PacketOf(origin, frame, seqno, peer, offset)
    {
      var h := Encode(ChunkOf(frame, origin.epoch, seqno, offset), origin.revision, origin.room);
      var packet := UdpPacket(origin.ip, peer.ip, LAN_PORT, h);
      p := Pending(packet[..], peer, origin.generation);
    }
  }

  lemma AtMostTwo(d: Origin, frame: seq<byte>, seqno: nat, peer: Policy.Member)
    requires IsV4(d.ip) && IsV4(peer.ip) && |frame| <= MAX_FRAME
    ensures |Packets(d, frame, seqno, peer, 0)| <= 2
  {
    assert Packets(d, frame, seqno, peer, 2 * CHUNK) == [];
    assert |Packets(d, frame, seqno, peer, CHUNK)| <= 1;
  }

  lemma Successor(count: nat)
    ensures (count % WORD + 1) % WORD == (count + 1) % WORD
    ensures count + 1 < WORD ==> (count + 1) % WORD == count + 1
  {
  }

  // ---------------------------------------------------------------- the receiver

  datatype FrameKey = FrameKey(peer: Addr, epoch: nat, seqno: nat)
  datatype SessionKey = SessionKey(peer: Addr, epoch: nat)

  /** parts is a bit mask: bit i is set once the chunk at i * CHUNK is in. */
  datatype FrameSet = FrameSet(expires: int, data: seq<byte>, parts: nat)

  datatype State = State(frames: map<FrameKey, FrameSet>, seen: map<SessionKey, Window>)

  function Session(k: FrameKey): SessionKey {
    SessionKey(k.peer, k.epoch)
  }

  function LiveFrames(frames: map<FrameKey, FrameSet>, now: int): map<FrameKey, FrameSet> {
    map k | k in frames && now < frames[k].expires :: frames[k]
  }

  function LiveWindows(seen: map<SessionKey, Window>, now: int): map<SessionKey, Window> {
    map k | k in seen && now < seen[k].expires :: seen[k]
  }

  /** The two expiry loops in front of every lookup. */
  function Expire(s: State, now: int): (r: State) {
    State(LiveFrames(s.frames, now), LiveWindows(s.seen, now))
  }

  /** 1 for the first chunk, 2 for the second. */
  function Bit(offset: nat): (b: nat)
    requires offset < 2 * CHUNK
    ensures b == 1 || b == 2
  {
    if offset < CHUNK then 1 else 2
  }

  /** (1 << ceil(total / CHUNK)) - 1 for one or two chunks. */
  function Full(total: nat): (b: nat)
    requires 14 <= total <= MAX_FRAME
    ensures b == 1 || b == 3
  {
    if total <= CHUNK then 1 else 3
  }

  /** What every reachable receiver state satisfies. */
  predicate Valid(s: State) {
    && (forall k <- s.frames :: 14 <= |s.frames[k].data| <= MAX_FRAME && s.frames[k].parts < Full(|s.frames[k].data|)
                                && 1 <= s.frames[k].parts <= 2)
    && (forall k <- s.seen :: Shaped(s.seen[k]))
  }

  /** Rejected by the replay window of a live session, or the zero number. */
  predicate Replayed(s: State, key: FrameKey) {
    key.seqno == 0 || (Session(key) in s.seen && Shaped(s.seen[Session(key)])
      && Rejects(s.seen[Session(key)], key.seqno))
  }

  /** No room to start assembling a new frame. */
  predicate NoRoom(s: State, key: FrameKey) {
    key !in s.frames && (|s.frames| >= MAX_FRAMES || (Session(key) !in s.seen && |s.seen| >= MAX_SEEN))
  }

  function WindowFor(s: State, key: FrameKey): (w: Window)
    requires Valid(s)
    ensures Shaped(w)
  {
    if Session(key) in s.seen then s.seen[Session(key)] else Fresh()
  }

  function SetFor(s: State, key: FrameKey, total: nat, now: int): FrameSet {
    if key in s.frames then s.frames[key] else FrameSet(now + 2 * SECOND, seq(total, _ => 0), 0)
  }

  lemma ExpireKeepsValid(s: State, now: int)
    requires Valid(s)
    ensures Valid(Expire(s, now))
  {
  }

  /** Write from the frame key on: the new state, and the frame if it is complete. */
  function Receive(s: State, peer: Addr, c: Chunk, now: int): (r: (State, Option<seq<byte>>))
    requires Valid(s) && GoodChunk(c)
  {
    ExpireKeepsValid(s, now);
    var live, key := Expire(s, now), FrameKey(peer, c.epoch, c.seqno);
    if Replayed(live, key) || NoRoom(live, key) then (live, None)
    else Assemble(live, key, SetFor(live, key, c.total, now), c, now)
  }

  function Assemble(live: State, key: FrameKey, f: FrameSet, c: Chunk, now: int): (r: (State, Option<seq<byte>>))
    requires Valid(live) && GoodChunk(c)
  {
    var bit := Bit(c.offset);
    if |f.data| != c.total || Flag(f.parts, bit) then (live, None)
    else
      var data := Splice(f.data, c.offset, c.body);
      if f.parts + bit != Full(c.total) then
        (live.(frames := live.frames[key := f.(data := data, parts := f.parts + bit)]), None)
      else
        var w := Mark(WindowFor(live, key), key.seqno, now + 120 * SECOND);
        (State(live.frames - {key}, live.seen[Session(key) := w]), Some(data))
  }

  /** The frames and seen tables of the device. */
  class Receiver {
    var frames: map<FrameKey, FrameSet>
    var seen: map<SessionKey, Window>

    constructor ()
      ensures Contents() == State(map[], map[])
    {
      frames, seen := map[], map[];
    }

    function Contents(): State
      reads this
    {
      State(frames, seen)
    }

    method ExpireFrames(now: int)
      modifies `frames
      ensures frames == LiveFrames(old(frames), now)
    {
      var keys := frames.Keys;
      while keys != {}
        invariant keys <= frames.Keys
        invariant forall k :: k in frames <==> k in old(frames) && (k in keys || now < old(frames)[k].expires)
        invariant forall k <- frames :: frames[k] == old(frames)[k]
        decreases |keys|
      {
        var k :| k in keys;
        keys := keys - {k};
        if !(now < frames[k].expires) {
          frames := frames - {k};
        }
      }
    }

    method ExpireWindows(now: int)
      modifies `seen
      ensures seen == LiveWindows(old(seen), now)
    {
      var keys := seen.Keys;
      while keys != {}
        invariant keys <= seen.Keys
        invariant forall k :: k in seen <==> k in old(seen) && (k in keys || now < old(seen)[k].expires)
        invariant forall k <- seen :: seen[k] == old(seen)[k]
        decreases |keys|
      {
        var k :| k in keys;
        keys := keys - {k};
        if !(now < seen[k].expires) {
          seen := seen - {k};
        }
      }
    }

    /** Write, from the frame key to the completed frame. */
    method Take(peer: Addr, c: Chunk, now: int) returns (frame: Option<seq<byte>>)
      requires Valid(Contents()) && GoodChunk(c)
      modifies this
      ensures Contents() == Receive(old(Contents()), peer, c, now).0
      ensures frame == Receive(old(Contents()), peer, c, now).1
    {
      ExpireKeepsValid(Contents(), now);
      var key := FrameKey(peer, c.epoch, c.seqno);
      var sk := Session(key);
      ExpireFrames(now);
      ExpireWindows(now);
      ghost var live := Contents();
      assert live == Expire(old(Contents()), now);
      if key.seqno == 0 || (sk in seen && Rejects(seen[sk], key.seqno)) {
        return None;
      }
      if key !in frames {
        if |frames| >= MAX_FRAMES || (sk !in seen && |seen| >= MAX_SEEN) {
          return None;
        }
        frames := frames[key := FrameSet(now + 2 * SECOND, seq(c.total, _ => 0), 0)];
      }
      assert frames == live.frames[key := SetFor(live, key, c.total, now)];
      frame := Insert(key, c, now, live);
    }

    /** Copies the chunk in; a complete frame leaves the table and marks the window of its session. */
    method Insert(key: FrameKey, c: Chunk, now: int, ghost live: State) returns (frame: Option<seq<byte>>)
      requires Valid(live) && GoodChunk(c) && seen == live.seen
      requires frames == live.frames[key := SetFor(live, key, c.total, now)]
      modifies this
      ensures Contents() == Assemble(live, key, SetFor(live, key, c.total, now), c, now).0
      ensures frame == Assemble(live, key, SetFor(live, key, c.total, now), c, now).1
    {
      var f, bit := frames[key], Bit(c.offset);
      if |f.data| != c.total || Flag(f.parts, bit) {
        assert key in live.frames && frames == live.frames;
        return None;
      }
      f := f.(data := Splice(f.data, c.offset, c.body), parts := f.parts + bit);
      frames := frames[key := f];
      assert frames == live.frames[key := f];
      if f.parts != Full(c.total) {
        return None;
      }
      frames := frames - {key};
      assert frames == live.frames - {key};
      var sk := Session(key);
      var w := if sk in seen then seen[sk] else Fresh();
      seen := seen[sk := Mark(w, key.seqno, now + 120 * SECOND)];
      frame := Option.Some(f.data);
    }
  }
}
