/** The device in its surroundings: what its methods do are steps of the fence, whatever comes in between. */
module FenceSteps {
  import opened Bytes
  import opened Packet
  import opened Policy
  import Carrier
  import Device
  import opened Fence
  import PolicyRuns

  function Items(queue: seq<Queued>): seq<Carrier.Pending> {
    seq(|queue|, i requires 0 <= i < |queue| => queue[i].item)
  }

  /** Queueing on the device is queueing in the fence. */
  lemma QueueOneItems(s: World, n: nat, queue: seq<Queued>, f: seq<byte>, peer: Member, at: nat)
    requires IsV4(s.origin.ip) && IsV4(peer.ip)
    ensures var r := QueueOne(s, n, queue, f, peer, at);
            (r.0, Items(r.1)) == Carrier.Enqueue(s.origin, n, Items(queue), f, peer)
  {
    if |queue| + 2 <= Carrier.MAX_PENDING {
      var m := (n + 1) % Carrier.WORD;
      var more := Wrap(Carrier.Packets(s.origin, f, m, peer, 0), f, s.origin, m, at, s.current);
      assert Items(queue + more) == Items(queue) + Items(more);
      assert Items(more) == Carrier.Packets(s.origin, f, m, peer, 0);
    }
  }

  lemma {:induction false} QueueAllItems(s: World, fs: seq<seq<byte>>, peer: Member, at: nat)
    requires IsV4(s.origin.ip) && (fs != [] ==> IsV4(peer.ip))
    ensures var r := QueueAll(s, fs, peer, at);
            (r.0, Items(r.1)) == Carrier.EnqueueAll(s.origin, s.seqno, Items(s.queue), fs, peer)
  {
    if fs != [] {
      var init := fs[..|fs| - 1];
      QueueAllItems(s, init, peer, at);
      var (n, queue) := QueueAll(s, init, peer, at);
      QueueOneItems(s, n, queue, fs[|fs| - 1], peer, at);
    }
  }

  function Offers(frame: seq<byte>, peers: seq<Addr>, now: int): seq<Event> {
    seq(|peers|, i requires 0 <= i < |peers| => Offer(frame, peers[i], now))
  }

  lemma OffersSnoc(frame: seq<byte>, peers: seq<Addr>, peer: Addr, now: int)
    ensures Offers(frame, peers + [peer], now) == Offers(frame, peers, now) + [Offer(frame, peer, now)]
  {
  }

  /** order lists, without repetition, what is in `others` but not in `left`. */
  predicate Covers(order: seq<Addr>, others: set<Addr>, left: set<Addr>) {
    left <= others && |order| + |left| == |others| && (set a <- order) == others - left
  }

  lemma CoverOne(order: seq<Addr>, others: set<Addr>, left: set<Addr>, peer: Addr)
    requires Covers(order, others, left) && peer in left
    ensures Covers(order + [peer], others, left - {peer})
  {
    assert (set a <- order + [peer]) == (set a <- order) + {peer};
  }

  function Fetches(n: nat, now: int): seq<Event> {
    seq(n, _ => Fetch(now))
  }

  /** The run has led to world w. */
  ghost predicate LedTo(d: Carrier.Origin, mac: seq<byte>, run: seq<Event>, w: World) {
    forall es {:trigger After(d, mac, es)} :: es == run ==> After(d, mac, es) == Option.Some(w)
  }

  /** The decisions on the log have led to these rules and tables. */
  ghost predicate LogLedTo(log: seq<PolicyRuns.Event>, d: PolicyRuns.Device) {
    forall es {:trigger PolicyRuns.After(es)} :: es == log ==> PolicyRuns.After(es) == d
  }

  /** Events es, one after the other, are enabled from s on and lead to t. */
  predicate Leads(s: World, es: seq<Event>, t: World)
    decreases |es|
  {
    if es == [] then s == t else Enabled(s, es[0]) && Leads(Do(s, es[0]), es[1..], t)
  }

  lemma OneMore(d: Carrier.Origin, mac: seq<byte>, run: seq<Event>, s: World, e: Event)
    requires LedTo(d, mac, run, s) && Enabled(s, e)
    ensures LedTo(d, mac, run + [e], Do(s, e))
  {
    assert (run + [e])[..|run|] == run;
    assert After(d, mac, run) == Option.Some(s);
  }

  lemma {:induction false} RunOn(d: Carrier.Origin, mac: seq<byte>, run: seq<Event>, s: World, es: seq<Event>, t: World)
    requires LedTo(d, mac, run, s) && Leads(s, es, t)
    ensures LedTo(d, mac, run + es, t)
    decreases |es|
  {
    if es == [] {
      assert run + es == run;
    } else {
      OneMore(d, mac, run, s, es[0]);
      RunOn(d, mac, run + [es[0]], Do(s, es[0]), es[1..], t);
      assert run + es == run + [es[0]] + es[1..];
    }
  }

  /** Either way the delivery ends: the flight is over and the lock free. */
  function Delivered(w: World, id: nat, now: int): World
    requires id in w.flights
  {
    w.(flights := w.flights - {id},
       tap := if MayInject(w, id, now) then
         w.tap + [Left(w.flights[id].(stage := Cleared), w.origin.generation, w.current)] else w.tap)
  }

  predicate MayInject(w: World, id: nat, now: int)
    requires id in w.flights
  {
    w.flights[id].generation == w.origin.generation && ActiveIn(w.current, w.origin.ip, now)
  }

  function Deliveries(id: nat, now: int, allowed: bool): seq<Event> {
    [Acquire(id), Check(id, now)] + if allowed then [Inject(id)] else []
  }

  lemma DeliveryLeads(w: World, id: nat, now: int)
    requires w.holder == Free && id in w.flights && w.flights[id].stage == Waiting
    ensures Leads(w, Deliveries(id, now, MayInject(w, id, now)), Delivered(w, id, now))
  {
    var es, t := Deliveries(id, now, MayInject(w, id, now)), Delivered(w, id, now);
    var a := Do(w, es[0]);
    var b := Do(a, es[1]);
    assert a.flights - {id} == w.flights - {id};
    if MayInject(w, id, now) {
      assert es[1..][1..] == [Inject(id)];
      assert b.flights - {id} == w.flights - {id};
      var c := Do(b, Inject(id));
      assert c == t && Leads(c, [], t);
      assert Leads(b, [Inject(id)], t);
    } else {
      assert es[1..][1..] == [];
      assert b == t && Leads(b, [], t);
    }
    assert Leads(a, es[1..], t);
  }

  function Published(w: World, revision: nat, room: seq<byte>, p: Publication, cleared: bool): World {
    w.(current := p, log := w.log + [PolicyRuns.Publish(revision, p.rules, cleared)],
       origin := w.origin.(revision := revision, room := room, generation := w.origin.generation + 1))
  }

  lemma UpdateLeads(w: World, revision: nat, room: seq<byte>, p: Publication, cleared: bool)
    requires w.holder == Free && Keyed(p)
    ensures Leads(w, [StartUpdate, EndUpdate], w)
    ensures Leads(w, [StartUpdate, Publish(revision, room, p, cleared), EndUpdate],
            Published(w, revision, room, p, cleared))
  {
    var a, e := w.(holder := Updater), Publish(revision, room, p, cleared);
    var b, t := Do(a, e), Published(w, revision, room, p, cleared);
    assert [StartUpdate, EndUpdate][1..] == [EndUpdate];
    assert Leads(Do(a, EndUpdate), [], w) && Leads(a, [EndUpdate], w);
    assert [StartUpdate, e, EndUpdate][1..] == [e, EndUpdate] && [e, EndUpdate][1..] == [EndUpdate];
    assert Leads(Do(b, EndUpdate), [], t) && Leads(b, [EndUpdate], t) && Leads(a, [e, EndUpdate], t);
  }

  lemma OneLeads(w: World, e: Event)
    requires Enabled(w, e)
    ensures Leads(w, [e], Do(w, e))
  {
    assert Leads(Do(w, e), [], Do(w, e));
  }

  predicate Flying(w: World, id: nat, frame: seq<byte>, generation: nat) {
    id in w.flights && w.flights[id].frame == frame && w.flights[id].generation == generation
      && w.flights[id].stage == Waiting
  }

  /** The frames are in flight, under the numbers from `first` on. */
  predicate AllFlying(w: World, first: nat, frames: seq<seq<byte>>, generation: nat) {
    forall i :: 0 <= i < |frames| ==> Flying(w, first + i, frames[i], generation)
  }

  lemma LaunchedFly(w: World, fs: seq<seq<byte>>, cause: Cause)
    requires forall id <- w.flights :: id < w.next
    ensures AllFlying(Launched(w, fs, cause), w.next, fs, w.origin.generation)
  {
    LaunchFacts(w.flights, w.next, fs, cause, w.origin.generation, w.current);
    forall i | 0 <= i < |fs|
      ensures Flying(Launched(w, fs, cause), w.next + i, fs[i], w.origin.generation)
    {
    }
  }

  lemma PermittedFly(w: World, whole: seq<byte>, peer: Addr, now: int)
    requires Inv(w) && Enabled(w, Permit(whole, peer, now))
    ensures var d := PolicyRuns.Frame(whole, w.current.members[peer], w.current.members[w.origin.ip], now);
            AllFlying(Do(w, Permit(whole, peer, now)), w.next, Released(w.log, d), w.origin.generation)
  {
    OldIds(w);
    var d := PolicyRuns.Frame(whole, w.current.members[peer], w.current.members[w.origin.ip], now);
    LaunchedFly(w, Released(w.log, d), Decided(|w.log|));
    forall i | 0 <= i < |Released(w.log, d)|
      ensures Flying(Do(w, Permit(whole, peer, now)), w.next + i, Released(w.log, d)[i], w.origin.generation)
    {
      assert Flying(Launched(w, Released(w.log, d), Decided(|w.log|)), w.next + i, Released(w.log, d)[i],
        w.origin.generation);
    }
  }

  lemma LogSnoc(log: seq<PolicyRuns.Event>, e: PolicyRuns.Event)
    ensures PolicyRuns.After(log + [e]) == PolicyRuns.Next(PolicyRuns.After(log), e).0
  {
    assert (log + [e])[..|log|] == log;
  }

  lemma LogPublish(log: seq<PolicyRuns.Event>, d: PolicyRuns.Device, revision: nat, rules: Rules, cleared: bool)
    requires LogLedTo(log, d)
    ensures LogLedTo(log + [PolicyRuns.Publish(revision, rules, cleared)],
                     PolicyRuns.Device(rules, revision, if cleared || revision != d.revision then
                       Device.Emptied(d.tables) else d.tables))
  {
    LogSnoc(log, PolicyRuns.Publish(revision, rules, cleared));
  }

  lemma LogFrame(log: seq<PolicyRuns.Event>, d: PolicyRuns.Device, e: PolicyRuns.Event)
    requires LogLedTo(log, d) && e.Frame? && Fragments.Valid(d.tables.frags)
    ensures var (tables, o) := Policy.Permit(d.rules, d.tables, e.frame, e.source, e.target, e.now);
            && LogLedTo(log + [e], d.(tables := tables))
            && Released(log, e) == if o.Passed? then o.frames else []
  {
    LogSnoc(log, e);
  }

  lemma ItemsTail(queue: seq<Queued>)
    requires queue != []
    ensures Items(queue)[0] == queue[0].item && Items(queue[1..]) == Items(queue)[1..]
  {
  }

  // ---------------------------------------------------------------- what the device shows

  /** The fields of the device that the fence is about. */
  datatype View = View(origin: Carrier.Origin, mac: seq<byte>, current: Publication, revision: nat, tables: State,
                       seqno: nat, pending: seq<Carrier.Pending>)

  ghost predicate Matches(w: World, v: View) {
    && w.origin == v.origin && w.mac == v.mac && w.holder == Free && w.current == v.current
    && Fragments.Valid(v.tables.frags) && LogLedTo(w.log, PolicyRuns.Device(v.current.rules, v.revision, v.tables))
    && w.seqno == v.seqno && Items(w.queue) == v.pending
  }

  function Updated(v: View, revision: nat, room: seq<byte>, p: Publication, cleared: bool): View {
    v.(origin := v.origin.(revision := revision, room := room, generation := v.origin.generation + 1), current := p,
       revision := revision, tables := if cleared || revision != v.revision then Device.Emptied(v.tables) else v.tables)
  }

  /** Field by field, a view was updated. */
  lemma UpdatedIs(v: View, x: View, cleared: bool)
    requires x.origin == v.origin.(revision := x.revision, room := x.origin.room, generation := v.origin.generation + 1)
    requires x.mac == v.mac && x.seqno == v.seqno && x.pending == v.pending
    requires x.tables == if cleared || x.revision != v.revision then Device.Emptied(v.tables) else v.tables
    ensures x == Updated(v, x.revision, x.origin.room, x.current, cleared)
  {
  }

  lemma PublishMatches(w: World, v: View, revision: nat, room: seq<byte>, p: Publication, cleared: bool)
    requires Matches(w, v)
    ensures Matches(Published(w, revision, room, p, cleared),
                    Updated(v, revision, room, p, cleared))
  {
    LogPublish(w.log, PolicyRuns.Device(v.current.rules, v.revision, v.tables), revision, p.rules, cleared);
  }

  lemma DeliveryMatches(w: World, v: View, id: nat, now: int)
    requires Matches(w, v) && id in w.flights
    ensures Matches(Delivered(w, id, now), v)
  {
  }

  lemma OfferMatches(w: World, v: View, frame: seq<byte>, peer: Addr, now: int)
    requires Matches(w, v) && Enabled(w, Offer(frame, peer, now)) && IsV4(v.origin.ip)
    ensures var own, to := v.current.members[v.origin.ip], v.current.members[peer];
            var (tables, o) := Policy.Permit(v.current.rules, v.tables, frame, own, to, now);
            var fs := if o.Passed? then o.frames else [];
            && (fs != [] ==> IsV4(to.ip))
            && var (n, queue) := Carrier.EnqueueAll(v.origin, v.seqno, v.pending, fs, to);
               Matches(Do(w, Offer(frame, peer, now)), v.(tables := tables, seqno := n, pending := queue))
  {
    var d := PolicyRuns.Frame(frame, w.current.members[w.origin.ip], w.current.members[peer], now);
    LogFrame(w.log, PolicyRuns.Device(v.current.rules, v.revision, v.tables), d);
    PolicyRuns.PermitKeeps(v.current.rules, v.tables, frame, d.source, d.target, now);
    QueueAllItems(w, Released(w.log, d), d.target, |w.log|);
  }

  lemma FetchMatches(w: World, v: View, now: int)
    requires Matches(w, v) && v.pending != []
    ensures Enabled(w, Fetch(now)) && Matches(Do(w, Fetch(now)), v.(pending := v.pending[1..]))
    ensures Do(w, Fetch(now)).wire
            == if MayFetch(w, v.pending[0], now) then w.wire + [Left(w.queue[0], w.origin.generation, w.current)]
              else w.wire
    ensures w.queue[0].item == v.pending[0]
  {
    ItemsTail(w.queue);
  }

  /** The events, the tables and the frames that one packet from the network makes. */
  function InboundOf(input: Device.Input, whole: Option<seq<byte>>, b: seq<byte>, now: int): seq<Event> {
    match input
    case Diagnostic(_) => [Diagnose(b, now)]
    case Carried(peer, _) => if whole.Some? then [Permit(whole.value, peer.ip, now)] else []
    case _ => []
  }

  function Freed(v: View, input: Device.Input, whole: Option<seq<byte>>, now: int): (State, seq<seq<byte>>)
    requires Fragments.Valid(v.tables.frags)
  {
    match input
    case Diagnostic(f) => (v.tables, [f])
    case Carried(peer, _) =>
      if whole.Some? && v.origin.ip in v.current.members then
        var (tables, o) := Policy.Permit(v.current.rules, v.tables, whole.value, peer, v.current.members[v.origin.ip],
          now);
        (tables, if o.Passed? then o.frames else [])
      else (v.tables, [])
    case _ => (v.tables, [])
  }

  /** What the device sorts a packet into is justified by the publication in force. */
  predicate Justified(v: View, input: Device.Input, b: seq<byte>, now: int) {
    match input
    case Diagnostic(f) => Ping(v.current, v.origin.ip, v.mac, b, now) == Option.Some(f)
    case Carried(peer, _) => Among(v.current, peer) && v.origin.ip in v.current.members
    case _ => true
  }

  lemma PermitMatches(w: World, v: View, whole: seq<byte>, peer: Member, now: int)
    requires Matches(w, v) && Inv(w) && Among(v.current, peer) && v.origin.ip in v.current.members
    ensures var e, own := Permit(whole, peer.ip, now), v.current.members[v.origin.ip];
            var (tables, o) := Policy.Permit(v.current.rules, v.tables, whole, peer, own, now);
            && Enabled(w, e) && Matches(Do(w, e), v.(tables := tables))
            && AllFlying(Do(w, e), w.next, if o.Passed? then o.frames else [], w.origin.generation)
  {
    var d := PolicyRuns.Frame(whole, peer, v.current.members[v.origin.ip], now);
    LogFrame(w.log, PolicyRuns.Device(v.current.rules, v.revision, v.tables), d);
    PolicyRuns.PermitKeeps(v.current.rules, v.tables, whole, d.source, d.target, now);
    PermittedFly(w, whole, peer.ip, now);
  }

  lemma DiagnoseMatches(w: World, v: View, b: seq<byte>, f: seq<byte>, now: int)
    requires Matches(w, v) && Inv(w) && Ping(v.current, v.origin.ip, v.mac, b, now) == Option.Some(f)
    ensures var t := Do(w, Diagnose(b, now)); Matches(t, v) && AllFlying(t, w.next, [f], w.origin.generation)
  {
    OldIds(w);
    LaunchedFly(w, [f], Diagnosed(b, now));
  }

  /** What Read does with a frame of this host. */
  datatype Handled = Unheard | Raw(packet: seq<byte>) | Reply(frame: seq<byte>) | Shared

  function Handling(v: View, frame: seq<byte>, now: int): Handled {
    if |frame| < 14 || |frame| > MAX_FRAME then Unheard
    else if !ActiveIn(v.current, v.origin.ip, now) || v.current.members[v.origin.ip].mac != v.mac then Unheard
    else
      var raw := OutboundDiagnostic(frame, v.current.nodes, v.origin.ip, v.mac);
      var reply := Answer(v.current, v.origin.ip, v.mac, frame);
      if raw.Some? then Raw(raw.value) else if reply.Some? then Reply(reply.value) else Shared
  }

  function StepsOf(h: Handled, frame: seq<byte>, order: seq<Addr>, now: int): seq<Event> {
    match h
    case Unheard => []
    case Raw(_) => [Emit(Native(frame, now))]
    case Reply(_) => [Ask(frame, now)]
    case Shared => Offers(frame, order, now)
  }

  lemma EmitMatches(w: World, v: View, d: Direct)
    requires Matches(w, v) && Straight(v.current, v.origin.ip, v.mac, d).Some?
    ensures Enabled(w, Emit(d)) && Matches(Do(w, Emit(d)), v)
    ensures Do(w, Emit(d)).straight
            == w.straight + [Left((d, Straight(v.current, v.origin.ip, v.mac, d).value), w.origin.generation,
              w.current)]
  {
  }

  lemma AskMatches(w: World, v: View, frame: seq<byte>, now: int, reply: seq<byte>)
    requires Matches(w, v) && Inv(w) && Enabled(w, Ask(frame, now))
    requires Answer(v.current, v.origin.ip, v.mac, frame) == Option.Some(reply)
    ensures var t := Do(w, Ask(frame, now)); Matches(t, v) && Flying(t, w.next, reply, w.origin.generation)
  {
    OldIds(w);
    LaunchedFly(w, [reply], Asked(frame));
    assert Flying(Launched(w, [reply], Asked(frame)), w.next + 0, [reply][0], w.origin.generation);
  }

  lemma InboundMatches(w: World, v: View, input: Device.Input, whole: Option<seq<byte>>, b: seq<byte>, now: int)
    requires Matches(w, v) && Inv(w) && Justified(v, input, b, now)
    ensures var es, (tables, fs) := InboundOf(input, whole, b, now), Freed(v, input, whole, now);
            && (es == [] ==> fs == [] && tables == v.tables)
            && (es != [] ==> es == [es[0]] && Enabled(w, es[0]) && Matches(Do(w, es[0]), v.(tables := tables))
                             && AllFlying(Do(w, es[0]), w.next, fs, w.origin.generation))
  {
    match input
    case Diagnostic(f) => DiagnoseMatches(w, v, b, f, now);
    case Carried(peer, _) =>
      if whole.Some? {
        PermitMatches(w, v, whole.value, peer, now);
      }
    case _ =>
  }

  // ---------------------------------------------------------------- the device and its world

  class Lan {
    const device: Device.Device
    const start: Carrier.Origin
    /** Every lock step taken so far, in order, and where they have led. */
    ghost var run: seq<Event>
    ghost var world: World

    constructor (ip: Addr, mac: seq<byte>, network: Device.Prefix, epoch: nat)
      requires IsV4(ip) && |mac| == 6 && epoch < Carrier.WORD
      ensures Valid() && run == []
    {
      var d := new Device.Device(ip, mac, network, epoch);
      device, start := d, d.Origin();
      run, world := [], Start(d.Origin(), mac);
    }

    ghost function Fields(): View
      reads device, device.gate, device.gate.table, device.sender
    {
      View(device.Origin(), device.mac, Publication(device.rules, device.members, device.nodes), device.revision,
           device.gate.Contents(), device.sender.seqno, device.sender.pending)
    }

    /** The world reached by the run is the one the device is in. */
    ghost predicate Valid()
      reads this, device, device.gate, device.gate.table, device.receiver, device.sender, device.ports
    {
      device.Valid() && Matches(world, Fields()) && LedTo(start, device.mac, run, world)
    }

    /** More steps of the fence. */
    ghost method Note(es: seq<Event>, t: World)
      requires LedTo(start, device.mac, run, world) && Leads(world, es, t)
      modifies `run, `world
      ensures run == old(run) + es && world == t && LedTo(start, device.mac, run, world)
    {
      RunOn(start, device.mac, run, world, es, t);
      run, world := run + es, t;
    }

    ghost method NoteUpdate(published: bool, revision: nat, room: seq<byte>, p: Publication, cleared: bool)
      requires LedTo(start, device.mac, run, world) && world.holder == Free && Keyed(p)
      modifies `run, `world
      ensures LedTo(start, device.mac, run, world)
      ensures run == old(run) + if published then [StartUpdate, Publish(revision, room, p, cleared), EndUpdate]
              else [StartUpdate, EndUpdate]
      ensures world == if published then Published(old(world), revision, room, p, cleared) else old(world)
    {
      UpdateLeads(world, revision, room, p, cleared);
      if published {
        Note([StartUpdate, Publish(revision, room, p, cleared), EndUpdate],
          Published(world, revision, room, p, cleared));
      } else {
        Note([StartUpdate, EndUpdate], world);
      }
    }

    ghost method NoteFirst(es: seq<Event>)
      requires LedTo(start, device.mac, run, world) && (es != [] ==> es == [es[0]] && Enabled(world, es[0]))
      modifies `run, `world
      ensures LedTo(start, device.mac, run, world) && run == old(run) + es
      ensures world == if es == [] then old(world) else Do(old(world), es[0])
    {
      if es != [] {
        OneLeads(world, es[0]);
        Note(es, Do(world, es[0]));
      }
    }

    /** Update, under the write lock. */
    method Update(lease: Device.Lease, s: Device.Snapshot) returns (ok: bool)
      requires Valid()
      modifies `run, `world, device, device.gate`flows, device.gate.table, device.receiver, device.sender`origin,
               device.ports
      ensures Valid()
      ensures ok <==> Device.Plausible(lease, s) && Device.GoodMembers(device.network, s.members)
      ensures run == old(run)
                     + if Device.Plausible(lease, s) then
                         [StartUpdate, Publish(device.revision, device.room, Fields().current,
                                               ok && Device.Changed(old(device.members), device.members)), EndUpdate]
                       else [StartUpdate, EndUpdate]
    {
      ghost var before, was := device.members, Fields();
      ok := UpdateFields(lease, s);
      ghost var p, cleared := Fields().current, ok && Device.Changed(before, device.members);
      PublishMatches(world, was, device.revision, device.room, p, cleared);
      NoteUpdate(Device.Plausible(lease, s), device.revision, device.room, p, cleared);
    }

    method UpdateFields(lease: Device.Lease, s: Device.Snapshot) returns (ok: bool)
      requires device.Valid()
      modifies device, device.gate`flows, device.gate.table, device.receiver, device.sender`origin, device.ports
      ensures device.Valid()
      ensures ok <==> Device.Plausible(lease, s) && Device.GoodMembers(device.network, s.members)
      ensures Fields()
              == if Device.Plausible(lease, s) then
                   Updated(old(Fields()), device.revision, device.room, Fields().current,
                           ok && Device.Changed(old(device.members), device.members))
                 else old(Fields())
    {
      ghost var was, before := Fields(), device.members;
      ok := device.Update(lease, s);
      if Device.Plausible(lease, s) {
        UpdatedIs(was, Fields(), ok && Device.Changed(before, device.members));
      }
    }

    /** The frame that a packet completes, if it does. */
    ghost function Completed(input: Device.Input, now: int): Option<seq<byte>>
      requires device.Valid() && (input.Carried? ==> Carrier.GoodChunk(input.chunk))
      reads device, device.gate, device.gate.table, device.receiver, device.sender, device.ports
    {
      if input.Carried? then Carrier.Receive(device.receiver.Contents(), input.peer.ip, input.chunk, now).1 else None
    }

    lemma SortIsJustified(b: seq<byte>, now: int)
      requires Valid()
      ensures Justified(Fields(), device.Sort(b, now), b, now)
    {
    }

    lemma Reached()
      requires Valid()
      ensures Inv(world)
    {
      assert After(start, device.mac, run) == Option.Some(world);
      RunKeeps(start, device.mac, run);
    }

    /** The locked part of Write. What it wants to inject is in flight afterwards. */
    method Write(b: seq<byte>, now: int) returns (frames: seq<seq<byte>>, permittedBy: nat, ghost first: nat)
      requires Valid()
      modifies `run, `world, device.gate, device.gate.table, device.receiver
      ensures Valid() && permittedBy == device.generation
      ensures run == old(run) + InboundOf(device.Sort(b, now), old(Completed(device.Sort(b, now), now)), b, now)
      ensures AllFlying(world, first, frames, permittedBy)
    {
      ghost var was, input := Fields(), device.Sort(b, now);
      ghost var whole := Completed(input, now);
      first := world.next;
      Reached();
      SortIsJustified(b, now);
      InboundMatches(world, was, input, whole, b, now);
      frames, permittedBy := WriteFields(b, now);
      NoteFirst(InboundOf(input, whole, b, now));
    }

    method WriteFields(b: seq<byte>, now: int) returns (frames: seq<seq<byte>>, permittedBy: nat)
      requires device.Valid()
      modifies device.gate, device.gate.table, device.receiver
      ensures device.Valid() && permittedBy == device.generation
      ensures var freed := Freed(old(Fields()), device.Sort(b, now), old(Completed(device.Sort(b, now), now)), now);
              Fields() == old(Fields()).(tables := freed.0) && frames == freed.1
    {
      frames, permittedBy := device.Write(b, now);
    }

    /** deliver, which holds the write lock throughout. */
    method Deliver(ghost id: nat, frame: seq<byte>, permittedBy: nat, now: int) returns (allowed: bool)
      requires Valid() && Flying(world, id, frame, permittedBy)
      modifies `run, `world
      ensures Valid() && run == old(run) + Deliveries(id, now, allowed)
      ensures allowed <==> permittedBy == device.generation && device.ActiveAt(device.ip, now)
      ensures |world.tap| == |old(world.tap)| + if allowed then 1 else 0
      ensures allowed ==> world.tap[|old(world.tap)|].what.frame == frame
    {
      DeliveryLeads(world, id, now);
      DeliveryMatches(world, Fields(), id, now);
      allowed := device.MayInject(permittedBy, now);
      Note(Deliveries(id, now, allowed), Delivered(world, id, now));
    }

    /** Read, for a frame of this host: a diagnostic packet to a node passes the queue by, a question for a node is
        answered under the generation read here, any other frame goes to each other member in turn, in any order. */
    method Spread(frame: seq<byte>, now: int)
        returns (h: Handled, permittedBy: nat, ghost id: nat, ghost order: seq<Addr>)
      requires Valid()
      modifies `run, `world, device.gate, device.gate.table, device.sender
      ensures Valid() && permittedBy == device.generation && h == Handling(old(Fields()), frame, now)
      ensures run == old(run) + StepsOf(h, frame, order, now)
      ensures h.Raw? ==>
                |world.straight| == |old(world.straight)| + 1
                && world.straight[|old(world.straight)|].what.1 == h.packet
      ensures h.Reply? ==> Flying(world, id, h.frame, permittedBy)
      ensures h.Shared? ==> Covers(order, device.members.Keys - {device.ip}, {})
    {
      order, permittedBy, id := [], device.generation, world.next;
      h := Judge(frame, now);
      match h
      case Unheard =>
      case Raw(packet) => NoteEmit(Native(frame, now), packet);
      case Reply(reply) => NoteAnswer(frame, reply, now);
      case Shared => order := OfferAll(frame, now);
    }

    /** Read, up to the point where it acts. */
    method Judge(frame: seq<byte>, now: int) returns (h: Handled)
      requires device.Valid()
      ensures h == Handling(Fields(), frame, now)
    {
      if |frame| < 14 || |frame| > MAX_FRAME {
        return Unheard;
      }
      if !device.ActiveAt(device.ip, now) || device.members[device.ip].mac != device.mac {
        return Unheard;
      }
      var raw := OutboundDiagnostic(frame, device.nodes, device.ip, device.mac);
      if raw.Some? {
        return Raw(raw.value);
      }
      var reply := device.AnswerArp(frame);
      h := if reply.Some? then Reply(reply.value) else Shared;
    }

    /** Read, for a probe of this program. */
    method SendProbe(packet: seq<byte>, now: int) returns (allowed: bool)
      requires Valid()
      modifies `run, `world
      ensures Valid() && allowed == Straight(Fields().current, device.ip, device.mac, Probe(packet, now)).Some?
      ensures run == old(run) + if allowed then [Emit(Probe(packet, now))] else []
      ensures allowed ==>
                |world.straight| == |old(world.straight)| + 1 && world.straight[|old(world.straight)|].what.1 == packet
    {
      var p := Parse(packet);
      allowed := p.Some? && device.ActiveAt(device.ip, now)
        && (p.value.dst in device.nodes || device.ActiveAt(p.value.dst, now));
      if allowed {
        NoteEmit(Probe(packet, now), packet);
      }
    }

    ghost method NoteEmit(d: Direct, raw: seq<byte>)
      requires Valid() && Straight(Fields().current, device.ip, device.mac, d) == Option.Some(raw)
      modifies `run, `world
      ensures Valid() && run == old(run) + [Emit(d)]
      ensures |world.straight| == |old(world.straight)| + 1 && world.straight[|old(world.straight)|].what.1 == raw
    {
      EmitMatches(world, Fields(), d);
      NoteFirst([Emit(d)]);
    }

    ghost method NoteAnswer(frame: seq<byte>, reply: seq<byte>, now: int)
      requires Valid() && Enabled(world, Ask(frame, now))
               && NodeArp(frame, device.nodes, device.ip, device.mac) == Option.Some(reply)
      modifies `run, `world
      ensures Valid() && run == old(run) + [Ask(frame, now)]
      ensures Flying(world, old(world.next), reply, device.generation)
    {
      Reached();
      AskMatches(world, Fields(), frame, now, reply);
      NoteFirst([Ask(frame, now)]);
    }

    method OfferAll(frame: seq<byte>, now: int) returns (ghost order: seq<Addr>)
      requires Valid() && device.ip in device.members
      modifies `run, `world, device.gate, device.gate.table, device.sender
      ensures Valid() && run == old(run) + Offers(frame, order, now)
      ensures Covers(order, device.members.Keys - {device.ip}, {})
    {
      order := [];
      var others := device.members.Keys - {device.ip};
      var left := others;
      while left != {}
        invariant Covers(order, others, left) && Valid()
        invariant run == old(run) + Offers(frame, order, now)
        decreases |left|
      {
        var peer :| peer in left;
        order := OfferNext(frame, order, others, left, peer, now);
        left := left - {peer};
      }
    }

    method OfferNext(frame: seq<byte>, ghost order: seq<Addr>, ghost others: set<Addr>, ghost left: set<Addr>,
        peer: Addr, now: int)
      returns (ghost more: seq<Addr>)
      requires Valid() && device.ip in device.members && others == device.members.Keys - {device.ip}
      requires peer in left && Covers(order, others, left)
      modifies `run, `world, device.gate, device.gate.table, device.sender
      ensures Valid() && Covers(more, others, left - {peer})
      ensures forall before :: old(run) == before + Offers(frame, order, now) ==>
              run == before + Offers(frame, more, now)
    {
      CoverOne(order, others, left, peer);
      more := order + [peer];
      OfferTo(frame, peer, now);
      OffersSnoc(frame, order, peer, now);
    }

    method OfferTo(frame: seq<byte>, peer: Addr, now: int)
      requires Valid() && peer in device.members && device.ip in device.members
      modifies `run, `world, device.gate, device.gate.table, device.sender
      ensures Valid() && run == old(run) + [Offer(frame, peer, now)]
    {
      OfferMatches(world, Fields(), frame, peer, now);
      SendFields(frame, device.members[device.ip], device.members[peer], now);
      NoteFirst([Offer(frame, peer, now)]);
    }

    method SendFields(frame: seq<byte>, own: Member, peer: Member, now: int)
      requires device.Valid()
      modifies device.gate, device.gate.table, device.sender
      ensures device.Valid()
      ensures var v := old(Fields());
              var (tables, o) := Policy.Permit(v.current.rules, v.tables, frame, own, peer, now);
              var fs := if o.Passed? then o.frames else [];
              && (fs != [] ==> IsV4(peer.ip))
              && var (n, queue) := Carrier.EnqueueAll(v.origin, v.seqno, v.pending, fs, peer);
                 Fields() == v.(tables := tables, seqno := n, pending := queue)
    {
      device.SendTo(frame, own, peer, now);
    }

    /** Read: packets that may no longer go out are dropped until one may. */
    method Fetch(now: int) returns (item: Option<Carrier.Pending>, ghost tried: nat)
      requires Valid()
      modifies `run, `world, device.sender`pending
      ensures Valid() && run == old(run) + Fetches(tried, now)
      ensures item.None? ==> device.sender.pending == [] && world.wire == old(world.wire)
      ensures item.Some? ==>
                |world.wire| == |old(world.wire)| + 1 && world.wire[|old(world.wire)|].what.item == item.value
    {
      item, tried := None, 0;
      while device.sender.pending != []
        invariant Valid() && run == old(run) + Fetches(tried, now) && world.wire == old(world.wire)
        decreases |device.sender.pending|
      {
        var next, allowed := Pop(now);
        tried := tried + 1;
        assert Fetches(tried, now) == Fetches(tried - 1, now) + [Event.Fetch(now)];
        if allowed {
          return Option.Some(next), tried;
        }
      }
    }

    method Pop(now: int) returns (item: Carrier.Pending, allowed: bool)
      requires Valid() && device.sender.pending != []
      modifies `run, `world, device.sender`pending
      ensures Valid() && run == old(run) + [Event.Fetch(now)] && |device.sender.pending| < |old(device.sender.pending)|
      ensures if allowed then |world.wire| == |old(world.wire)| + 1 && world.wire[|old(world.wire)|].what.item == item
              else world.wire == old(world.wire)
    {
      FetchMatches(world, Fields(), now);
      item, allowed := device.Pop(now);
      NoteFirst([Event.Fetch(now)]);
    }
  }
}
