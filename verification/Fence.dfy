/**
 * The generation fence: every interleaving of the lock steps of Write, Read, deliver and Update. What the
 * policy decides in each step is decided by the policy itself, on its own tables.
 */
module Fence {
  import opened Bytes
  import opened Packet
  import opened Policy
  import Carrier
  import PolicyRuns

  /** What an update publishes. */
  datatype Publication = Publication(rules: Rules, members: map<Addr, Member>, nodes: set<Addr>)

  predicate ActiveIn(p: Publication, a: Addr, now: int) {
    a in p.members && Active(p.rules, p.members[a], now)
  }

  /** m is a member in p, under its own address. */
  predicate Among(p: Publication, m: Member) {
    m.ip in p.members && p.members[m.ip] == m
  }

  /** Why a frame may go to the TAP: decision `at` of the policy, a diagnostic packet, or this host's question for
      the address of a node. */
  datatype Cause = Decided(at: nat) | Diagnosed(packet: seq<byte>, now: int) | Asked(request: seq<byte>)

  /** What goes to the carrier past the queue: a probe of this program, or a diagnostic
      packet of this host to a node. */
  datatype Direct = Probe(packet: seq<byte>, now: int) | Native(frame: seq<byte>, now: int)

  /** A delivery waits for the write lock, holds it, and has passed the check under it. */
  datatype Stage = Waiting | Locked | Cleared

  /** A frame between Write and the TAP: the generation it carries and the publication that permitted it. */
  datatype Flight = Flight(frame: seq<byte>, cause: Cause, generation: nat, basis: Publication, stage: Stage)

  /** A queued packet: the frame it was cut from, under which number, and the decision about that frame. */
  datatype Queued = Queued(item: Carrier.Pending, frame: seq<byte>, origin: Carrier.Origin, number: nat, at: nat,
      basis: Publication)

  /** The holder of the write lock. */
  datatype Holder = Free | Delivery(id: nat) | Updater

  /** What left the device, and the generation and publication in force then. */
  datatype Left<T> = Left(what: T, under: nat, current: Publication)

  /** log is every decision the policy made and every publication it saw. */
  datatype World = World(origin: Carrier.Origin, mac: seq<byte>, current: Publication, seqno: nat,
      log: seq<PolicyRuns.Event>,
                         holder: Holder, flights: map<nat, Flight>, next: nat, queue: seq<Queued>,
                         tap: seq<Left<Flight>>, wire: seq<Left<Queued>>, straight: seq<Left<(Direct, seq<byte>)>>)

  /**
   * Permit: Write has put a frame of a member together. Diagnose: Write has a packet of a diagnostic kind.
   * Ask: Read has a frame of this host that asks for a node. Acquire, Check, Inject: deliver. Offer: Read has
   * a frame of this host for another member. Fetch: Read takes the next packet from the queue. Emit: Read has
   * a packet that passes the queue by.
   */
  datatype Event =
    | Permit(frame: seq<byte>, peer: Addr, now: int)
    | Diagnose(packet: seq<byte>, now: int)
    | Ask(frame: seq<byte>, now: int)
    | Acquire(id: nat)
    | Check(id: nat, now: int)
    | Inject(id: nat)
    | StartUpdate
    | Publish(revision: nat, room: seq<byte>, publication: Publication, cleared: bool)
    | EndUpdate
    | Offer(frame: seq<byte>, peer: Addr, now: int)
    | Fetch(now: int)
    | Emit(direct: Direct)

  predicate Keyed(p: Publication) {
    forall a <- p.members :: p.members[a].ip == a
  }

  predicate Enabled(s: World, e: Event) {
    match e
    case Permit(_, peer, _) => peer in s.current.members && s.origin.ip in s.current.members
    case Diagnose(_, _) => true
    case Ask(_, now) => ActiveIn(s.current, s.origin.ip, now) && s.current.members[s.origin.ip].mac == s.mac
    case Acquire(id) => s.holder == Free && id in s.flights && s.flights[id].stage == Waiting
    case Check(id, _) => s.holder == Delivery(id) && id in s.flights && s.flights[id].stage == Locked
    case Inject(id) => s.holder == Delivery(id) && id in s.flights && s.flights[id].stage == Cleared
    case StartUpdate => s.holder == Free
    case Publish(_, _, p, _) => s.holder == Updater && Keyed(p)
    case EndUpdate => s.holder == Updater
    case Offer(_, peer, _) => peer in s.current.members && s.origin.ip in s.current.members && IsV4(s.origin.ip)
    case Fetch(_) => s.queue != []
    case Emit(_) => true
  }

  // ---------------------------------------------------------------- the steps

  /** What the policy releases when its next decision is about e. */
  function Released(log: seq<PolicyRuns.Event>, e: PolicyRuns.Event): (fs: seq<seq<byte>>)
    ensures e.Frame? && fs != [] ==> IsV4(e.target.ip)
  {
    var o := PolicyRuns.Next(PolicyRuns.After(log), e).1;
    if e.Frame? then
      var d := PolicyRuns.After(log);
      PassedFacts(d.rules, d.tables, e.frame, e.source, e.target, e.now);
      if o.Passed? then o.frames else []
    else []
  }

  /** The answer of inboundDiagnostic: an ICMP packet of a node or an active member, in a frame. */
  function Ping(p: Publication, own: Addr, mac: seq<byte>, b: seq<byte>, now: int): Option<seq<byte>> {
    var parsed := Parse(b);
    if parsed.None? || |mac| != 6 then None
    else
      var src := parsed.value.src;
      if !IsV4(src) || parsed.value.dst != own || parsed.value.fragmented || !ActiveIn(p, own, now) then None
      else if !(src in p.nodes || ActiveIn(p, src, now)) || parsed.value.proto != 1
        || !ValidIcmp(parsed.value.data) then None
      else
        var from := if src in p.members && |p.members[src].mac| == 6 then p.members[src].mac else NodeMac(src);
        Option.Some(Ethernet(from, mac, 0x0800, b))
  }

  /** What a question for a node of p is answered with. */
  function Answer(p: Publication, own: Addr, mac: seq<byte>, frame: seq<byte>): Option<seq<byte>> {
    if IsV4(own) && |mac| == 6 then NodeArp(frame, p.nodes, own, mac) else None
  }

  /** What Read makes of it. */
  function Straight(p: Publication, own: Addr, mac: seq<byte>, d: Direct): Option<seq<byte>> {
    match d
    case Probe(packet, now) =>
      var parsed := Parse(packet);
      if parsed.Some? && ActiveIn(p, own, now)
        && (parsed.value.dst in p.nodes || ActiveIn(p, parsed.value.dst, now)) then
        Option.Some(packet)
      else None
    case Native(frame, now) =>
      if ActiveIn(p, own, now) && p.members[own].mac == mac then OutboundDiagnostic(frame, p.nodes, own, mac) else None
  }

  function Launch(flights: map<nat, Flight>, next: nat, fs: seq<seq<byte>>, cause: Cause, generation: nat,
      basis: Publication): map<nat, Flight> {
    if fs == [] then flights
    else
      var init := fs[..|fs| - 1];
      var before := Launch(flights, next, init, cause, generation, basis);
      before[next + |init| := Flight(fs[|init|], cause, generation, basis, Waiting)]
  }

  lemma {:induction false} LaunchFacts(flights: map<nat, Flight>, next: nat, fs: seq<seq<byte>>, cause: Cause,
      generation: nat, basis: Publication)
    requires forall id <- flights :: id < next
    ensures var all := Launch(flights, next, fs, cause, generation, basis);
            && (forall id <- flights :: id in all && all[id] == flights[id])
            && (forall id :: next <= id < next + |fs| ==> id in all)
            && forall id <- all :: id in flights ||
                 (next <= id < next + |fs| && all[id] == Flight(fs[id - next], cause, generation, basis, Waiting))
  {
    if fs != [] {
      var init := fs[..|fs| - 1];
      LaunchFacts(flights, next, init, cause, generation, basis);
      assert forall i :: 0 <= i < |init| ==> init[i] == fs[i];
    }
  }

  lemma {:induction false} LaunchWaits(flights: map<nat, Flight>, next: nat, fs: seq<seq<byte>>, cause: Cause,
      generation: nat, basis: Publication)
    ensures var all := Launch(flights, next, fs, cause, generation, basis);
            forall id <- all :: all[id].stage.Waiting? || (id in flights && all[id] == flights[id])
  {
    if fs != [] {
      LaunchWaits(flights, next, fs[..|fs| - 1], cause, generation, basis);
    }
  }

  function Launched(s: World, fs: seq<seq<byte>>, cause: Cause): World {
    s.(flights := Launch(s.flights, s.next, fs, cause, s.origin.generation, s.current), next := s.next + |fs|)
  }

  function Wrap(items: seq<Carrier.Pending>, frame: seq<byte>, d: Carrier.Origin, n: nat, at: nat,
      basis: Publication): seq<Queued> {
    seq(|items|, i requires 0 <= i < |items| => Queued(items[i], frame, d, n, at, basis))
  }

  /** The packets of the frames join the queue as long as two more fit. */
  function QueueAll(s: World, fs: seq<seq<byte>>, peer: Member, at: nat): (r: (nat, seq<Queued>))
    requires IsV4(s.origin.ip) && (fs != [] ==> IsV4(peer.ip))
  {
    if fs == [] then (s.seqno, s.queue)
    else
      var (n, queue) := QueueAll(s, fs[..|fs| - 1], peer, at);
      QueueOne(s, n, queue, fs[|fs| - 1], peer, at)
  }

  function QueueOne(s: World, n: nat, queue: seq<Queued>, f: seq<byte>, peer: Member, at: nat): (r: (nat, seq<Queued>))
    requires IsV4(s.origin.ip) && IsV4(peer.ip)
  {
    if |queue| + 2 > Carrier.MAX_PENDING then (n, queue)
    else
      var m := (n + 1) % Carrier.WORD;
      (m, queue + Wrap(Carrier.Packets(s.origin, f, m, peer, 0), f, s.origin, m, at, s.current))
  }

  function Do(s: World, e: Event): World
    requires Enabled(s, e)
  {
    match e
    case Permit(frame, peer, now) =>
      var d := PolicyRuns.Frame(frame, s.current.members[peer], s.current.members[s.origin.ip], now);
      Launched(s, Released(s.log, d), Decided(|s.log|)).(log := s.log + [d])
    case Diagnose(packet, now) =>
      var f := Ping(s.current, s.origin.ip, s.mac, packet, now);
      if f.Some? then Launched(s, [f.value], Diagnosed(packet, now)) else s
    case Ask(frame, _) =>
      var f := Answer(s.current, s.origin.ip, s.mac, frame);
      if f.Some? then Launched(s, [f.value], Asked(frame)) else s
    case Acquire(id) => s.(holder := Delivery(id), flights := s.flights[id := s.flights[id].(stage := Locked)])
    case Check(id, now) =>
      if s.flights[id].generation == s.origin.generation && ActiveIn(s.current, s.origin.ip, now) then
        s.(flights := s.flights[id := s.flights[id].(stage := Cleared)])
      else s.(flights := s.flights - {id}, holder := Free)
    case Inject(id) =>
      s.(tap := s.tap + [Left(s.flights[id], s.origin.generation, s.current)], flights := s.flights - {id},
        holder := Free)
    case StartUpdate => s.(holder := Updater)
    case Publish(revision, room, p, cleared) =>
      s.(current := p, log := s.log + [PolicyRuns.Publish(revision, p.rules, cleared)],
         origin := s.origin.(revision := revision, room := room, generation := s.origin.generation + 1))
    case EndUpdate => s.(holder := Free)
    case Offer(frame, peer, now) =>
      var d := PolicyRuns.Frame(frame, s.current.members[s.origin.ip], s.current.members[peer], now);
      var (n, queue) := QueueAll(s, Released(s.log, d), s.current.members[peer], |s.log|);
      s.(seqno := n, queue := queue, log := s.log + [d])
    case Fetch(now) =>
      var q, rest := s.queue[0], s.queue[1..];
      if MayFetch(s, q.item, now) then s.(queue := rest, wire := s.wire + [Left(q, s.origin.generation, s.current)])
      else s.(queue := rest)
    case Emit(d) =>
      var raw := Straight(s.current, s.origin.ip, s.mac, d);
      if raw.Some? then s.(straight := s.straight + [Left((d, raw.value), s.origin.generation, s.current)]) else s
  }

  predicate MayFetch(s: World, item: Carrier.Pending, now: int) {
    item.generation == s.origin.generation && Active(s.current.rules, item.peer, now)
      && ActiveIn(s.current, s.origin.ip, now)
  }

  /** A device before its first update. */
  function Start(d: Carrier.Origin, mac: seq<byte>): World {
    World(d, mac, Publication(PolicyRuns.CLOSED, map[], {}), 0, [], Free, map[], 0, [], [], [], [])
  }

  /** The state after a run, as long as every event is enabled when it happens. */
  function After(d: Carrier.Origin, mac: seq<byte>, es: seq<Event>): (s: Option<World>)
  {
    if es == [] then Option.Some(Start(d, mac))
    else
      var before := After(d, mac, es[..|es| - 1]);
      if before.Some? && Enabled(before.value, es[|es| - 1]) then Option.Some(Do(before.value, es[|es| - 1])) else None
  }

  // ---------------------------------------------------------------- why something may leave

  /** Decision `at` was made under the rules of p, between members of p, and released the frame. */
  predicate DecidedUnder(log: seq<PolicyRuns.Event>, at: nat, frame: seq<byte>, p: Publication) {
    && at < |log| && log[at].Frame?
    && PolicyRuns.After(log[..at]).rules == p.rules
    && Among(p, log[at].source) && Among(p, log[at].target)
    && PolicyRuns.ResultAt(log, at).Passed? && frame in PolicyRuns.ResultAt(log, at).frames
  }

  predicate InboundOk(s: World, f: Flight, p: Publication) {
    match f.cause
    case Decided(at) => DecidedUnder(s.log, at, f.frame, p) && s.log[at].target.ip == s.origin.ip
    case Diagnosed(packet, now) => Ping(p, s.origin.ip, s.mac, packet, now) == Option.Some(f.frame)
    case Asked(request) => Answer(p, s.origin.ip, s.mac, request) == Option.Some(f.frame)
  }

  predicate OutboundOk(s: World, q: Queued, p: Publication) {
    && DecidedUnder(s.log, q.at, q.frame, p)
    && s.log[q.at].source.ip == s.origin.ip && s.log[q.at].target == q.item.peer
    && IsV4(q.origin.ip) && IsV4(q.item.peer.ip)
    && q.item in Carrier.Packets(q.origin, q.frame, q.number, q.item.peer, 0)
  }

  /** Injected under the generation that permitted it, by a decision of the policy then in force. */
  predicate TapFenced(s: World, x: Left<Flight>) {
    x.what.generation == x.under && x.what.basis == x.current && InboundOk(s, x.what, x.current)
  }

  predicate WireFenced(s: World, x: Left<Queued>) {
    x.what.item.generation == x.under && x.what.basis == x.current && OutboundOk(s, x.what, x.current)
  }

  predicate StraightFenced(s: World, x: Left<(Direct, seq<byte>)>) {
    Straight(x.current, s.origin.ip, s.mac, x.what.0) == Option.Some(x.what.1)
  }

  // ---------------------------------------------------------------- the invariant

  /** A flight is never ahead of the generation; a locked one holds the write lock; a cleared one
      belongs to the publication in force. */
  ghost predicate FlightOk(s: World, id: nat)
    requires id in s.flights
  {
    var f := s.flights[id];
    && id < s.next
    && f.generation <= s.origin.generation
    && (f.generation == s.origin.generation ==> f.basis == s.current)
    && (f.stage != Waiting ==> s.holder == Delivery(id))
    && (f.stage == Cleared ==> f.generation == s.origin.generation)
    && InboundOk(s, f, f.basis)
  }

  ghost predicate QueuedOk(s: World, q: Queued) {
    && q.item.generation <= s.origin.generation
    && (q.item.generation == s.origin.generation ==> q.basis == s.current)
    && OutboundOk(s, q, q.basis)
  }

  /** Everything that left was fenced. */
  predicate Departed(s: World) {
    && (forall x <- s.tap :: TapFenced(s, x))
    && (forall x <- s.wire :: WireFenced(s, x))
    && (forall x <- s.straight :: StraightFenced(s, x))
  }

  ghost predicate Inv(s: World) {
    && PolicyRuns.After(s.log).rules == s.current.rules && Keyed(s.current)
    && (forall id <- s.flights :: FlightOk(s, id))
    && (forall q <- s.queue :: QueuedOk(s, q))
    && Departed(s)
  }

  lemma DecidedLonger(log: seq<PolicyRuns.Event>, e: PolicyRuns.Event, at: nat, frame: seq<byte>, p: Publication)
    requires DecidedUnder(log, at, frame, p)
    ensures DecidedUnder(log + [e], at, frame, p) && (log + [e])[at] == log[at]
  {
    assert (log + [e])[..at] == log[..at];
  }

  lemma JustDecided(log: seq<PolicyRuns.Event>, d: PolicyRuns.Event, frame: seq<byte>, p: Publication)
    requires d.Frame? && PolicyRuns.After(log).rules == p.rules && Among(p, d.source) && Among(p, d.target)
    requires frame in Released(log, d)
    ensures DecidedUnder(log + [d], |log|, frame, p)
  {
    assert (log + [d])[..|log|] == log;
  }

  /** Decisions and publications do not undo what was decided before. */
  lemma InboundLonger(s: World, t: World, e: PolicyRuns.Event, f: Flight, p: Publication)
    requires InboundOk(s, f, p) && t.log == s.log + [e] && t.origin.ip == s.origin.ip && t.mac == s.mac
    ensures InboundOk(t, f, p)
  {
    if f.cause.Decided? {
      DecidedLonger(s.log, e, f.cause.at, f.frame, p);
    }
  }

  lemma OutboundLonger(s: World, t: World, e: PolicyRuns.Event, q: Queued, p: Publication)
    requires OutboundOk(s, q, p) && t.log == s.log + [e] && t.origin.ip == s.origin.ip
    ensures OutboundOk(t, q, p)
  {
    DecidedLonger(s.log, e, q.at, q.frame, p);
  }

  /** What left stays justified when the log grows. */
  lemma LeftLonger(s: World, t: World, e: PolicyRuns.Event)
    requires Inv(s) && t.log == s.log + [e] && t.origin.ip == s.origin.ip && t.mac == s.mac
    requires t.tap == s.tap && t.wire == s.wire && t.straight == s.straight
    ensures Departed(t)
  {
    forall x | x in t.tap
      ensures TapFenced(t, x)
    {
      InboundLonger(s, t, e, x.what, x.current);
    }
    forall x | x in t.wire
      ensures WireFenced(t, x)
    {
      OutboundLonger(s, t, e, x.what, x.current);
    }
  }

  lemma FlightsLonger(s: World, t: World, e: PolicyRuns.Event)
    requires Inv(s) && t.log == s.log + [e] && t.origin == s.origin && t.mac == s.mac && t.current == s.current
             && t.holder == s.holder
    requires t.next >= s.next && forall id <- s.flights :: id in t.flights && t.flights[id] == s.flights[id]
    ensures forall id <- s.flights :: FlightOk(t, id)
  {
    forall id | id in s.flights
      ensures FlightOk(t, id)
    {
      assert FlightOk(s, id);
      InboundLonger(s, t, e, s.flights[id], s.flights[id].basis);
    }
  }

  lemma QueueLonger(s: World, t: World, e: PolicyRuns.Event)
    requires Inv(s) && t.log == s.log + [e] && t.origin == s.origin && t.current == s.current
    ensures forall q <- s.queue :: QueuedOk(t, q)
  {
    forall q | q in s.queue
      ensures QueuedOk(t, q)
    {
      OutboundLonger(s, t, e, q, q.basis);
    }
  }

  lemma PermitKeeps(s: World, e: Event)
    requires Inv(s) && Enabled(s, e) && e.Permit?
    ensures Inv(Do(s, e))
  {
    var d := PolicyRuns.Frame(e.frame, s.current.members[e.peer], s.current.members[s.origin.ip], e.now);
    var t, fs := Do(s, e), Released(s.log, d);
    LogRules(s, d);
    LeftLonger(s, t, d);
    QueueLonger(s, t, d);
    OldIds(s);
    LaunchFacts(s.flights, s.next, fs, Decided(|s.log|), s.origin.generation, s.current);
    FlightsLonger(s, t, d);
    forall id | id in t.flights && id !in s.flights
      ensures FlightOk(t, id)
    {
      assert fs[id - s.next] in fs;
      JustDecided(s.log, d, fs[id - s.next], s.current);
    }
  }

  lemma OldIds(s: World)
    requires Inv(s)
    ensures forall id <- s.flights :: id < s.next
  {
    forall id | id in s.flights
      ensures id < s.next
    {
      assert FlightOk(s, id);
    }
  }

  /** A frame leaves the rules as they are. */
  lemma LogRules(s: World, d: PolicyRuns.Event)
    requires d.Frame?
    ensures PolicyRuns.After(s.log + [d]).rules == PolicyRuns.After(s.log).rules
  {
    assert (s.log + [d])[..|s.log|] == s.log;
  }

  lemma LaunchOneFlights(s: World, f: seq<byte>, cause: Cause)
    requires Inv(s) && InboundOk(s, Flight(f, cause, s.origin.generation, s.current, Waiting), s.current)
    ensures var t := Launched(s, [f], cause); forall id <- t.flights :: FlightOk(t, id)
  {
    var t := Launched(s, [f], cause);
    OldIds(s);
    LaunchFacts(s.flights, s.next, [f], cause, s.origin.generation, s.current);
    forall id | id in t.flights
      ensures FlightOk(t, id)
    {
      if id in s.flights {
        assert FlightOk(s, id);
      }
    }
  }

  /** One frame more in flight, justified by the publication in force. */
  lemma LaunchOneKeeps(s: World, f: seq<byte>, cause: Cause)
    requires Inv(s) && InboundOk(s, Flight(f, cause, s.origin.generation, s.current, Waiting), s.current)
    ensures Inv(Launched(s, [f], cause))
  {
    var t := Launched(s, [f], cause);
    LaunchOneFlights(s, f, cause);
    forall q | q in t.queue
      ensures QueuedOk(t, q)
    {
      assert QueuedOk(s, q);
    }
    SameLog(s, t);
  }

  lemma DiagnoseKeeps(s: World, e: Event)
    requires Inv(s) && Enabled(s, e) && e.Diagnose?
    ensures Inv(Do(s, e))
  {
    var f := Ping(s.current, s.origin.ip, s.mac, e.packet, e.now);
    if f.Some? {
      LaunchOneKeeps(s, f.value, Diagnosed(e.packet, e.now));
    }
  }

  lemma AskKeeps(s: World, e: Event)
    requires Inv(s) && Enabled(s, e) && e.Ask?
    ensures Inv(Do(s, e))
  {
    var f := Answer(s.current, s.origin.ip, s.mac, e.frame);
    if f.Some? {
      LaunchOneKeeps(s, f.value, Asked(e.frame));
    }
  }

  lemma SameLog(s: World, t: World)
    requires Inv(s) && t.log == s.log && t.origin == s.origin && t.mac == s.mac
    requires t.tap == s.tap && t.wire == s.wire && t.straight == s.straight
    ensures Departed(t)
  {
    forall x | x in t.tap
      ensures TapFenced(t, x)
    {
      assert TapFenced(s, x);
    }
    forall x | x in t.wire
      ensures WireFenced(t, x)
    {
      assert WireFenced(s, x);
    }
    forall x | x in t.straight
      ensures StraightFenced(t, x)
    {
      assert StraightFenced(s, x);
    }
  }

  /** Nothing is queued or sent, and the flights stay sound. */
  lemma FlightsKeep(s: World, t: World)
    requires Inv(s) && t == s.(holder := t.holder, flights := t.flights) && forall id <- t.flights :: FlightOk(t, id)
    ensures Inv(t)
  {
    forall q | q in t.queue
      ensures QueuedOk(t, q)
    {
      assert QueuedOk(s, q);
    }
    SameLog(s, t);
  }

  /** The steps of a delivery and of the write lock. */
  lemma DeliveryKeeps(s: World, e: Event)
    requires Inv(s) && Enabled(s, e) && (e.Acquire? || e.Check? || e.StartUpdate? || e.EndUpdate?)
    ensures Inv(Do(s, e))
  {
    if e.Acquire? {
      AcquireFlights(s, e.id);
    } else if e.Check? {
      CheckFlights(s, e.id, e.now);
    } else {
      LockFlights(s, e);
    }
    FlightsKeep(s, Do(s, e));
  }

  lemma FlightMoves(s: World, t: World, id: nat)
    requires id in s.flights && FlightOk(s, id) && t == s.(holder := t.holder, flights := t.flights)
    requires id in t.flights && t.flights[id] == s.flights[id].(stage := t.flights[id].stage)
    requires t.flights[id].stage != Waiting ==> t.holder == Delivery(id)
    requires t.flights[id].stage == Cleared ==> s.flights[id].generation == s.origin.generation
    ensures FlightOk(t, id)
  {
  }

  lemma LockFlights(s: World, e: Event)
    requires Inv(s) && Enabled(s, e) && (e.StartUpdate? || e.EndUpdate?)
    ensures forall id <- Do(s, e).flights :: FlightOk(Do(s, e), id)
  {
    forall id | id in s.flights
      ensures FlightOk(Do(s, e), id)
    {
      assert FlightOk(s, id);
      FlightMoves(s, Do(s, e), id);
    }
  }

  lemma AcquireFlights(s: World, id: nat)
    requires Inv(s) && Enabled(s, Acquire(id))
    ensures forall o <- Do(s, Acquire(id)).flights :: FlightOk(Do(s, Acquire(id)), o)
  {
    forall o | o in s.flights
      ensures FlightOk(Do(s, Acquire(id)), o)
    {
      assert FlightOk(s, o);
      FlightMoves(s, Do(s, Acquire(id)), o);
    }
  }

  lemma CheckFlight(s: World, id: nat, now: int, o: nat)
    requires Enabled(s, Check(id, now)) && o in Do(s, Check(id, now)).flights && FlightOk(s, o)
    ensures FlightOk(Do(s, Check(id, now)), o)
  {
    if o != id {
      assert s.flights[o].stage == Waiting;
    }
    FlightMoves(s, Do(s, Check(id, now)), o);
  }

  lemma CheckFlights(s: World, id: nat, now: int)
    requires Inv(s) && Enabled(s, Check(id, now))
    ensures forall o <- Do(s, Check(id, now)).flights :: FlightOk(Do(s, Check(id, now)), o)
  {
    forall o | o in Do(s, Check(id, now)).flights
      ensures FlightOk(Do(s, Check(id, now)), o)
    {
      CheckFlight(s, id, now, o);
    }
  }

  /** Taking from the queue and from the flights keeps the rest. */
  lemma FewerKeeps(s: World, t: World)
    requires Inv(s) && t.origin == s.origin && t.current == s.current && t.log == s.log && t.mac == s.mac
             && t.next == s.next
    requires forall id <- t.flights :: id in s.flights && t.flights[id] == s.flights[id]
    requires t.holder == s.holder || forall id <- t.flights :: t.flights[id].stage == Waiting
    requires forall q <- t.queue :: q in s.queue
    ensures (forall id <- t.flights :: FlightOk(t, id)) && (forall q <- t.queue :: QueuedOk(t, q))
  {
    forall id | id in t.flights
      ensures FlightOk(t, id)
    {
      assert FlightOk(s, id);
    }
    forall q | q in t.queue
      ensures QueuedOk(t, q)
    {
      assert QueuedOk(s, q);
    }
  }

  /** What left before stays fenced; here is one more. */
  lemma MoreDeparts(s: World, t: World)
    requires Inv(s) && t.log == s.log && t.origin == s.origin && t.mac == s.mac
    requires forall x <- t.tap :: x in s.tap || TapFenced(s, x)
    requires forall x <- t.wire :: x in s.wire || WireFenced(s, x)
    requires forall x <- t.straight :: x in s.straight || StraightFenced(s, x)
    ensures Departed(t)
  {
    forall x | x in t.tap
      ensures TapFenced(t, x)
    {
      assert TapFenced(s, x);
    }
    forall x | x in t.wire
      ensures WireFenced(t, x)
    {
      assert WireFenced(s, x);
    }
    forall x | x in t.straight
      ensures StraightFenced(t, x)
    {
      assert StraightFenced(s, x);
    }
  }

  lemma InjectedOk(s: World, id: nat)
    requires Inv(s) && Enabled(s, Inject(id))
    ensures TapFenced(s, Left(s.flights[id], s.origin.generation, s.current))
  {
    assert FlightOk(s, id);
  }

  lemma InjectDeparts(s: World, id: nat)
    requires Inv(s) && Enabled(s, Inject(id))
    ensures Departed(Do(s, Inject(id)))
  {
    InjectedOk(s, id);
    MoreDeparts(s, Do(s, Inject(id)));
  }

  lemma InjectFewer(s: World, id: nat)
    requires Inv(s) && Enabled(s, Inject(id))
    ensures var t := Do(s, Inject(id));
            (forall o <- t.flights :: FlightOk(t, o)) && (forall q <- t.queue :: QueuedOk(t, q))
  {
    var t := Do(s, Inject(id));
    forall o | o in t.flights
      ensures t.flights[o].stage == Waiting
    {
      assert FlightOk(s, o);
    }
    FewerKeeps(s, t);
  }

  lemma InjectKeeps(s: World, id: nat)
    requires Inv(s) && Enabled(s, Inject(id))
    ensures Inv(Do(s, Inject(id)))
  {
    InjectFewer(s, id);
    InjectDeparts(s, id);
  }

  lemma FetchedOk(s: World, now: int)
    requires Inv(s) && s.queue != [] && MayFetch(s, s.queue[0].item, now)
    ensures WireFenced(s, Left(s.queue[0], s.origin.generation, s.current))
  {
    assert s.queue[0] in s.queue;
    assert QueuedOk(s, s.queue[0]);
  }

  lemma FetchKeeps(s: World, e: Event)
    requires Inv(s) && Enabled(s, e) && e.Fetch?
    ensures Inv(Do(s, e))
  {
    var t := Do(s, e);
    FewerKeeps(s, t);
    if MayFetch(s, s.queue[0].item, e.now) {
      FetchedOk(s, e.now);
    }
    MoreDeparts(s, t);
  }

  lemma EmitDeparts(s: World, d: Direct)
    requires Inv(s)
    ensures Departed(Do(s, Emit(d)))
  {
    MoreDeparts(s, Do(s, Emit(d)));
  }

  lemma EmitKeeps(s: World, d: Direct)
    requires Inv(s)
    ensures Inv(Do(s, Emit(d)))
  {
    EmitDeparts(s, d);
    FewerKeeps(s, Do(s, Emit(d)));
  }

  lemma PublishKeeps(s: World, e: Event)
    requires Inv(s) && Enabled(s, e) && e.Publish?
    ensures Inv(Do(s, e))
  {
    var t, d := Do(s, e), PolicyRuns.Publish(e.revision, e.publication.rules, e.cleared);
    assert t.log[..|s.log|] == s.log;
    LeftLonger(s, t, d);
    forall id | id in t.flights
      ensures FlightOk(t, id)
    {
      assert FlightOk(s, id);
      InboundLonger(s, t, d, s.flights[id], s.flights[id].basis);
    }
    forall q | q in t.queue
      ensures QueuedOk(t, q)
    {
      assert QueuedOk(s, q);
      OutboundLonger(s, t, d, q, q.basis);
    }
  }

  /** From s to t the policy decides on d, a frame of this host. */
  ghost predicate Deciding(s: World, t: World, d: PolicyRuns.Event) {
    && PolicyRuns.After(s.log).rules == s.current.rules && d.Frame? && IsV4(s.origin.ip)
    && Among(s.current, d.source) && Among(s.current, d.target) && d.source.ip == s.origin.ip
    && t.log == s.log + [d] && t.origin == s.origin && t.current == s.current
  }

  ghost predicate AllQueuedOk(t: World, queue: seq<Queued>) {
    forall q <- queue :: QueuedOk(t, q)
  }

  /** Every packet that joins the queue was cut from a frame that was just decided on. */
  lemma {:induction false} QueueAllOk(s: World, t: World, fs: seq<seq<byte>>, d: PolicyRuns.Event)
    requires Deciding(s, t, d) && AllQueuedOk(t, s.queue)
    requires (fs != [] ==> IsV4(d.target.ip)) && fs <= Released(s.log, d)
    ensures AllQueuedOk(t, QueueAll(s, fs, d.target, |s.log|).1)
  {
    if fs != [] {
      var init, f := fs[..|fs| - 1], fs[|fs| - 1];
      QueueAllOk(s, t, init, d);
      assert Released(s.log, d)[|fs| - 1] == f;
      var (n, queue) := QueueAll(s, init, d.target, |s.log|);
      QueueOneOk(s, t, n, queue, f, d);
    }
  }

  lemma QueueOneOk(s: World, t: World, n: nat, queue: seq<Queued>, f: seq<byte>, d: PolicyRuns.Event)
    requires Deciding(s, t, d) && IsV4(d.target.ip) && f in Released(s.log, d) && AllQueuedOk(t, queue)
    ensures AllQueuedOk(t, QueueOne(s, n, queue, f, d.target, |s.log|).1)
  {
    WrapOk(s, t, f, (n + 1) % Carrier.WORD, d);
  }

  lemma WrapOk(s: World, t: World, f: seq<byte>, m: nat, d: PolicyRuns.Event)
    requires Deciding(s, t, d) && IsV4(d.target.ip) && f in Released(s.log, d)
    ensures AllQueuedOk(t, Wrap(Carrier.Packets(s.origin, f, m, d.target, 0), f, s.origin, m, |s.log|, s.current))
  {
    var items := Carrier.Packets(s.origin, f, m, d.target, 0);
    JustDecided(s.log, d, f, s.current);
    PacketsAreOf(s.origin, f, m, d.target, 0);
    forall q | q in Wrap(items, f, s.origin, m, |s.log|, s.current)
      ensures QueuedOk(t, q)
    {
      var i :| 0 <= i < |items| && q == Queued(items[i], f, s.origin, m, |s.log|, s.current);
      assert items[i] in items;
    }
  }

  lemma {:induction false} PacketsAreOf(d: Carrier.Origin, frame: seq<byte>, n: nat, peer: Member, offset: nat)
    requires IsV4(d.ip) && IsV4(peer.ip)
    ensures forall p <- Carrier.Packets(d, frame, n, peer, offset) :: p.peer == peer && p.generation == d.generation
    decreases |frame| - offset
  {
    if offset < |frame| {
      PacketsAreOf(d, frame, n, peer, offset + Carrier.CHUNK);
    }
  }

  lemma OfferKeeps(s: World, e: Event)
    requires Inv(s) && Enabled(s, e) && e.Offer?
    ensures Inv(Do(s, e))
  {
    var d := PolicyRuns.Frame(e.frame, s.current.members[s.origin.ip], s.current.members[e.peer], e.now);
    var t := Do(s, e);
    LogRules(s, d);
    LeftLonger(s, t, d);
    FlightsLonger(s, t, d);
    QueueLonger(s, t, d);
    QueueAllOk(s, t, Released(s.log, d), d);
  }

  lemma StepKeeps(s: World, e: Event)
    requires Inv(s) && Enabled(s, e)
    ensures Inv(Do(s, e))
  {
    match e
    case Permit(_, _, _) => PermitKeeps(s, e);
    case Diagnose(_, _) => DiagnoseKeeps(s, e);
    case Ask(_, _) => AskKeeps(s, e);
    case Inject(id) => InjectKeeps(s, id);
    case Publish(_, _, _, _) => PublishKeeps(s, e);
    case Offer(_, _, _) => OfferKeeps(s, e);
    case Fetch(_) => FetchKeeps(s, e);
    case Emit(d) => EmitKeeps(s, d);
    case _ => DeliveryKeeps(s, e);
  }

  lemma {:induction false} RunKeeps(d: Carrier.Origin, mac: seq<byte>, es: seq<Event>)
    requires After(d, mac, es).Some?
    ensures Inv(After(d, mac, es).value)
  {
    if es != [] {
      RunKeeps(d, mac, es[..|es| - 1]);
      StepKeeps(After(d, mac, es[..|es| - 1]).value, es[|es| - 1]);
    }
  }

  // ---------------------------------------------------------------- the main results

  /** The packet goes to a node or to an active member. */
  predicate AllowedTo(p: Publication, packet: seq<byte>, now: int) {
    Parse(packet).Some? && (Parse(packet).value.dst in p.nodes || ActiveIn(p, Parse(packet).value.dst, now))
  }

  /** The fence: in every interleaving, each frame written to the TAP was released for this host, and each
      packet handed out cut from a frame of this host released for its peer, by a decision of the policy
      under the rules and between members of the publication in force at that very moment, or answers a
      diagnostic, or this host's question for a node, of that publication. What passes the queue by goes to a
      node or an active member of it. */
  lemma EverythingIsFenced(d: Carrier.Origin, mac: seq<byte>, es: seq<Event>)
    requires After(d, mac, es).Some?
    ensures var s := After(d, mac, es).value;
            && (forall x <- s.tap :: TapFenced(s, x))
            && (forall x <- s.wire :: WireFenced(s, x))
            && (forall x <- s.straight :: StraightFenced(s, x) && AllowedTo(x.current, x.what.1, x.what.0.now))
  {
    RunKeeps(d, mac, es);
  }

  /** Whatever reaches the TAP because this host asked for a node is an ARP reply to this host from a node of the
      publication in force. */
  lemma AnswersNameNodes(d: Carrier.Origin, mac: seq<byte>, es: seq<Event>, x: Left<Flight>)
    requires After(d, mac, es).Some? && x in After(d, mac, es).value.tap && x.what.cause.Asked?
    ensures var f, s := x.what.frame, After(d, mac, es).value;
            && |f| == 42 && f[..6] == s.mac && V4(f[28..32]) in x.current.nodes && f[6..12] == NodeMac(V4(f[28..32]))
            && V4(f[38..42]) == s.origin.ip && x.what.generation == x.under
  {
    EverythingIsFenced(d, mac, es);
    var s := After(d, mac, es).value;
    assert TapFenced(s, x);
    NodeArpAnswers(x.what.cause.request, x.current.nodes, s.origin.ip, s.mac);
  }

  /** The frame that made the policy release something passed its inspection, under the rules and between
      members of publication p. */
  predicate InspectedUnder(log: seq<PolicyRuns.Event>, at: nat, p: Publication) {
    && at < |log| && log[at].Frame? && Among(p, log[at].source) && Among(p, log[at].target)
    && Inspect(p.rules, log[at].frame, log[at].source, log[at].target, log[at].now) != Deny
  }

  /** So whatever leaves by a decision either is a frame that passed the inspection of the publication in
      force, or completed by such a frame, came before it from the same member to the same target, and had
      passed the inspection when it came. */
  lemma LeavesInspected(log: seq<PolicyRuns.Event>, at: nat, frame: seq<byte>, p: Publication)
    requires DecidedUnder(log, at, frame, p)
    ensures InspectedUnder(log, at, p)
    ensures frame == log[at].frame || exists j :: 0 <= j < at && PolicyRuns.InspectedFrom(log, j, frame, at)
  {
    PolicyRuns.PassedWereInspected(log, at, frame);
    var j :| 0 <= j <= at && PolicyRuns.InspectedFrom(log, j, frame, at);
  }

  // ---------------------------------------------------------------- after an update

  predicate NobodyActive(p: Publication) {
    p.rules.expires.None?
  }

  ghost predicate Sealed(s: World) {
    NobodyActive(s.current) && forall id <- s.flights :: !s.flights[id].stage.Cleared?
  }

  lemma SealedStep(s: World, e: Event)
    requires Sealed(s) && Enabled(s, e) && !e.Publish?
    ensures Sealed(Do(s, e)) && Do(s, e).tap == s.tap && Do(s, e).wire == s.wire && Do(s, e).straight == s.straight
  {
    match e
    case Permit(_, _, _) => SealedPermit(s, e);
    case Diagnose(packet, now) => SealedDiagnose(s, packet, now);
    case _ => SealedOther(s, e);
  }

  lemma SealedDiagnose(s: World, packet: seq<byte>, now: int)
    requires Sealed(s)
    ensures var t := Do(s, Diagnose(packet, now));
            Sealed(t) && t.tap == s.tap && t.wire == s.wire && t.straight == s.straight
  {
  }

  lemma SealedPermit(s: World, e: Event)
    requires Sealed(s) && e.Permit? && Enabled(s, e)
    ensures Sealed(Do(s, e)) && Do(s, e).tap == s.tap && Do(s, e).wire == s.wire && Do(s, e).straight == s.straight
  {
    var d := PolicyRuns.Frame(e.frame, s.current.members[e.peer], s.current.members[s.origin.ip], e.now);
    SealedLaunch(s, Released(s.log, d), Decided(|s.log|));
  }

  lemma SealedLaunch(s: World, fs: seq<seq<byte>>, cause: Cause)
    requires Sealed(s)
    ensures Sealed(Launched(s, fs, cause))
  {
    LaunchWaits(s.flights, s.next, fs, cause, s.origin.generation, s.current);
  }

  lemma SealedOther(s: World, e: Event)
    requires Sealed(s) && Enabled(s, e) && !e.Publish? && !e.Permit? && !e.Diagnose?
    ensures Sealed(Do(s, e)) && Do(s, e).tap == s.tap && Do(s, e).wire == s.wire && Do(s, e).straight == s.straight
  {
  }

  lemma PublishSeals(s: World, e: Event)
    requires Inv(s) && Enabled(s, e) && e.Publish? && NobodyActive(e.publication)
    ensures var t := Do(s, e); Sealed(t) && t.tap == s.tap && t.wire == s.wire && t.straight == s.straight
  {
    forall id | id in s.flights
      ensures s.flights[id].stage == Waiting
    {
      assert FlightOk(s, id);
    }
  }

  lemma {:induction false} SealedRun(d: Carrier.Origin, mac: seq<byte>, es: seq<Event>, k: nat)
    requires After(d, mac, es).Some? && k < |es| && es[k].Publish? && NobodyActive(es[k].publication)
    requires forall i :: k < i < |es| ==> !es[i].Publish?
    ensures After(d, mac, es[..k]).Some? && Sealed(After(d, mac, es).value)
    ensures After(d, mac, es).value.tap == After(d, mac, es[..k]).value.tap
    ensures After(d, mac, es).value.wire == After(d, mac, es[..k]).value.wire
    ensures After(d, mac, es).value.straight == After(d, mac, es[..k]).value.straight
    decreases |es|
  {
    var n := |es| - 1;
    var before := es[..n];
    var s := After(d, mac, before).value;
    if k == n {
      RunKeeps(d, mac, before);
      PublishSeals(s, es[n]);
    } else {
      SealedRun(d, mac, before, k);
      assert before[..k] == es[..k];
      SealedStep(s, es[n]);
    }
  }

  /** After an update that leaves nobody active, nothing reaches the TAP or the carrier until the
      next publication, whatever was in flight. */
  lemma FailedUpdateSeals(d: Carrier.Origin, mac: seq<byte>, es: seq<Event>, k: nat)
    requires After(d, mac, es).Some? && k < |es| && es[k].Publish? && NobodyActive(es[k].publication)
    requires forall i :: k < i < |es| ==> !es[i].Publish?
    ensures After(d, mac, es[..k]).Some?
    ensures After(d, mac, es).value.tap == After(d, mac, es[..k]).value.tap
    ensures After(d, mac, es).value.wire == After(d, mac, es[..k]).value.wire
    ensures After(d, mac, es).value.straight == After(d, mac, es[..k]).value.straight
  {
    SealedRun(d, mac, es, k);
  }
}
