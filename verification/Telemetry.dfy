/** The bounded in-memory telemetry store of the control plane. Times are nanoseconds. */
module Telemetry {
  import opened Sets
  import opened Times

  const RETENTION := 60 * SECOND
  const SPACING := 4 * SECOND
  const AHEAD := 10 * SECOND
  const MAX_BYTES := 67108864
  const MAX_ENTRIES := 1024
  const MAX_SAMPLES := 18

  datatype Identity = Identity(device: string, room: string, node: string)

  /** `json` is the length of the encoded sample. */
  datatype Sample = Sample(at: int, json: nat)

  datatype Entry = Entry(identity: Identity, samples: seq<Sample>, sizes: seq<nat>)

  datatype Result = Stored | Ignored | RateLimited

  datatype State = State(entries: map<string, Entry>, bytes: int)

  /** The size that is charged: a conservative multiple of the encoding. */
  function SizeOf(s: Sample): nat {
    s.json * 4 + 1024
  }

  function Sum(sizes: seq<nat>): nat {
    if sizes == [] then 0 else sizes[0] + Sum(sizes[1..])
  }

  ghost function Total(entries: map<string, Entry>): nat {
    if entries.Keys == {} then 0
    else
      var id :| id in entries;
      Sum(entries[id].sizes) + Total(entries - {id})
  }

  lemma {:induction false} TotalSplit(entries: map<string, Entry>, id: string)
    requires id in entries
    ensures Total(entries) == Sum(entries[id].sizes) + Total(entries - {id})
    decreases |entries|
  {
    var other :| other in entries && Total(entries) == Sum(entries[other].sizes) + Total(entries - {other});
    if other != id {
      TotalSplit(entries - {other}, id);
      TotalSplit(entries - {id}, other);
      assert entries - {other} - {id} == entries - {id} - {other};
    }
  }

  lemma TotalUpdate(entries: map<string, Entry>, id: string, e: Entry)
    ensures Total(entries[id := e])
            == Total(entries - {id}) + Sum(e.sizes)
    ensures id !in entries ==> Total(entries - {id}) == Total(entries)
  {
    TotalSplit(entries[id := e], id);
    assert entries[id := e] - {id} == entries - {id};
    assert id !in entries ==> entries - {id} == entries;
  }

  // ---------------------------------------------------------------- specification

  /** Samples strictly older than the retention at `now`, counted from the front. */
  function Stale(samples: seq<Sample>, now: int): (n: nat)
    ensures n <= |samples|
  {
    if samples != [] && samples[0].at < now - RETENTION then 1 + Stale(samples[1..], now) else 0
  }

  function Trim(e: Entry, now: int): Entry
    requires |e.sizes| == |e.samples|
  {
    var n := Stale(e.samples, now);
    Entry(e.identity, e.samples[n..], e.sizes[n..])
  }

  predicate EntryOk(id: string, e: Entry) {
    && e.samples != [] && |e.sizes| == |e.samples|
    && (forall i :: 0 <= i < |e.samples| ==> e.sizes[i] == SizeOf(e.samples[i]))
    && Spaced(e.samples)
  }

  /** Samples are in order and at least four seconds apart. */
  predicate Spaced(samples: seq<Sample>) {
    forall i, j :: 0 <= i < j < |samples| ==> samples[i].at + SPACING <= samples[j].at
  }

  /** The accounting invariant: bytes is the sum of all sizes, and both bounds hold. */
  ghost predicate Valid(s: State) {
    && (forall id <- s.entries :: EntryOk(id, s.entries[id]))
    && s.bytes == Total(s.entries) <= MAX_BYTES
    && |s.entries| <= MAX_ENTRIES
  }

  predicate Shaped(entries: map<string, Entry>) {
    forall id <- entries :: |entries[id].sizes| == |entries[id].samples|
  }

  function Prune(entries: map<string, Entry>, now: int): (r: map<string, Entry>)
    requires Shaped(entries)
    ensures Shaped(r)
  {
    map id | id in entries && Stale(entries[id].samples, now) < |entries[id].samples| :: Trim(entries[id], now)
  }

  function Filter(samples: seq<Sample>, now: int): seq<Sample> {
    if samples == [] then []
    else (if samples[0].at < now - RETENTION then [] else [samples[0]]) + Filter(samples[1..], now)
  }

  lemma {:induction false} SpacedTail(samples: seq<Sample>, n: nat)
    requires Spaced(samples) && n <= |samples|
    ensures Spaced(samples[n..])
  {
    forall i, j | 0 <= i < j < |samples[n..]|
      ensures samples[n..][i].at + SPACING <= samples[n..][j].at
    {
      assert samples[n + i].at + SPACING <= samples[n + j].at;
    }
  }

  lemma AllYoung(samples: seq<Sample>, now: int)
    requires Spaced(samples) && (samples == [] || samples[0].at >= now - RETENTION)
    ensures forall s <- samples :: s.at >= now - RETENTION
  {
    forall j | 0 < j < |samples|
      ensures samples[j].at >= now - RETENTION
    {
      assert samples[0].at + SPACING <= samples[j].at;
    }
  }

  /** Because samples are ordered, dropping the stale prefix keeps exactly the samples young enough. */
  lemma {:induction false} PrefixIsFilter(samples: seq<Sample>, now: int)
    requires Spaced(samples)
    ensures samples[Stale(samples, now)..] == Filter(samples, now)
    ensures forall s <- samples[Stale(samples, now)..] :: s.at >= now - RETENTION
  {
    if samples == [] || samples[0].at >= now - RETENTION {
      assert samples[0..] == samples;
      AllYoung(samples, now);
      NoneStale(samples, now);
    } else {
      SpacedTail(samples, 1);
      PrefixIsFilter(samples[1..], now);
      assert samples[1 + Stale(samples[1..], now)..] == samples[1..][Stale(samples[1..], now)..];
    }
  }

  lemma {:induction false} NoneStale(samples: seq<Sample>, now: int)
    requires forall s <- samples :: s.at >= now - RETENTION
    ensures Filter(samples, now) == samples
  {
    if samples != [] {
      NoneStale(samples[1..], now);
    }
  }

  /** put, after pruning: what happens to a sample of `identity`. */
  function Insert(s: State, identity: Identity, sample: Sample): (r: (State, Result))
    requires forall id <- s.entries :: s.entries[id].samples != []
  {
    var id, size := identity.device, SizeOf(sample);
    if id in s.entries then
      var e := s.entries[id];
      var last := e.samples[|e.samples| - 1];
      if !(sample.at > last.at) then (s, Ignored)
      else if sample.at - last.at < SPACING || s.bytes + size > MAX_BYTES then (s, RateLimited)
      else (State(s.entries[id := Entry(e.identity, e.samples + [sample], e.sizes + [size])], s.bytes + size), Stored)
    else if s.bytes + size > MAX_BYTES || |s.entries| >= MAX_ENTRIES then (s, RateLimited)
    else (State(s.entries[id := Entry(identity, [sample], [size])], s.bytes + size), Stored)
  }

  /** A device that moved to another room or node starts over. */
  function DropMoved(s: State, identity: Identity): State {
    var id := identity.device;
    if id in s.entries && (s.entries[id].identity.room != identity.room
      || s.entries[id].identity.node != identity.node) then
      State(s.entries - {id}, s.bytes - Sum(s.entries[id].sizes))
    else s
  }

  ghost function Pruned(s: State, now: int): State
    requires Shaped(s.entries)
  {
    State(Prune(s.entries, now), Total(Prune(s.entries, now)))
  }

  // ---------------------------------------------------------------- preservation

  lemma TrimOk(id: string, e: Entry, now: int)
    requires EntryOk(id, e) && Stale(e.samples, now) < |e.samples|
    ensures EntryOk(id, Trim(e, now))
  {
    SpacedTail(e.samples, Stale(e.samples, now));
  }

  lemma {:induction false} SumDrop(sizes: seq<nat>, n: nat)
    requires n <= |sizes|
    ensures Sum(sizes) == Sum(sizes[..n]) + Sum(sizes[n..])
  {
    if n > 0 {
      SumDrop(sizes[1..], n - 1);
      assert sizes[1..][..n - 1] == sizes[..n][1..] && sizes[1..][n - 1..] == sizes[n..];
    }
  }

  lemma SumSnoc(sizes: seq<nat>, size: nat)
    ensures Sum(sizes + [size]) == Sum(sizes) + size
  {
    SumDrop(sizes + [size], |sizes|);
    assert (sizes + [size])[..|sizes|] == sizes && (sizes + [size])[|sizes|..] == [size];
    assert Sum([size]) == size + Sum([size][1..]);
  }

  lemma PruneWithout(entries: map<string, Entry>, id: string, now: int)
    requires Shaped(entries)
    ensures Prune(entries - {id}, now) == Prune(entries, now) - {id}
  {
  }

  lemma {:induction false} PruneTotal(entries: map<string, Entry>, now: int)
    requires Shaped(entries)
    ensures Total(Prune(entries, now)) <= Total(entries)
    decreases |entries|
  {
    if entries.Keys == {} {
      assert Prune(entries, now).Keys == {};
    } else {
      var id :| id in entries;
      PruneTotal(entries - {id}, now);
      PruneWithout(entries, id, now);
      TotalSplit(entries, id);
      PruneOne(entries, id, now);
    }
  }

  lemma PruneOne(entries: map<string, Entry>, id: string, now: int)
    requires Shaped(entries) && id in entries
    ensures Total(Prune(entries, now)) <= Sum(entries[id].sizes) + Total(Prune(entries, now) - {id})
  {
    var pruned := Prune(entries, now);
    if id in pruned {
      TotalSplit(pruned, id);
      SumDrop(entries[id].sizes, Stale(entries[id].samples, now));
    } else {
      assert pruned - {id} == pruned;
    }
  }

  lemma PrunedValid(s: State, now: int)
    requires Valid(s)
    ensures Valid(Pruned(s, now))
  {
    var p := Pruned(s, now);
    CardLe(p.entries.Keys, s.entries.Keys);
    PruneTotal(s.entries, now);
    forall id | id in p.entries
      ensures EntryOk(id, p.entries[id])
    {
      TrimOk(id, s.entries[id], now);
    }
  }

  lemma DropValid(s: State, identity: Identity)
    requires Valid(s)
    ensures Valid(DropMoved(s, identity))
  {
    var id := identity.device;
    if id in s.entries {
      TotalSplit(s.entries, id);
      CardLe((s.entries - {id}).Keys, s.entries.Keys);
    }
  }

  lemma AppendOk(id: string, e: Entry, sample: Sample)
    requires EntryOk(id, e) && sample.at - e.samples[|e.samples| - 1].at >= SPACING
    ensures EntryOk(id, Entry(e.identity, e.samples + [sample], e.sizes + [SizeOf(sample)]))
  {
    var all, n := e.samples + [sample], |e.samples|;
    forall i, j | 0 <= i < j < |all|
      ensures all[i].at + SPACING <= all[j].at
    {
      if j == n && i < n - 1 {
        assert e.samples[i].at + SPACING <= e.samples[n - 1].at;
      }
    }
  }

  /** Replacing or adding one entry moves the total by the difference of its sizes. */
  lemma TotalMoves(entries: map<string, Entry>, id: string, e: Entry)
    ensures Total(entries[id := e]) == Total(entries) - (if id in entries then Sum(entries[id].sizes) else 0)
            + Sum(e.sizes)
  {
    TotalUpdate(entries, id, e);
    if id in entries {
      TotalSplit(entries, id);
    }
  }

  /** What the other entries hold. */
  function Charge(s: State, id: string): nat {
    if id in s.entries then Sum(s.entries[id].sizes) else 0
  }

  lemma StoreCard(entries: map<string, Entry>, id: string, e: Entry)
    requires |entries| <= MAX_ENTRIES && (id in entries || |entries| < MAX_ENTRIES)
    ensures |entries[id := e]| <= MAX_ENTRIES
  {
    assert entries[id := e].Keys == entries.Keys + {id};
    assert id in entries ==> entries.Keys + {id} == entries.Keys;
  }

  lemma StoreValid(s: State, id: string, e: Entry)
    requires Valid(s) && EntryOk(id, e) && (id in s.entries || |s.entries| < MAX_ENTRIES)
    requires s.bytes - Charge(s, id) + Sum(e.sizes) <= MAX_BYTES
    ensures Valid(State(s.entries[id := e], s.bytes - Charge(s, id) + Sum(e.sizes)))
  {
    TotalMoves(s.entries, id, e);
    StoreCard(s.entries, id, e);
  }

  lemma InsertValid(s: State, identity: Identity, sample: Sample)
    requires Valid(s)
    ensures Valid(Insert(s, identity, sample).0)
  {
    var id, size := identity.device, SizeOf(sample);
    if Insert(s, identity, sample).1.Stored? {
      if id in s.entries {
        var e := s.entries[id];
        AppendOk(id, e, sample);
        SumSnoc(e.sizes, size);
        StoreValid(s, id, Entry(e.identity, e.samples + [sample], e.sizes + [size]));
      } else {
        SumSnoc([], size);
        assert [] + [size] == [size];
        StoreValid(s, id, Entry(identity, [sample], [size]));
      }
    }
  }

  /** put: prune, forget a moved device, then admit, ignore or refuse the sample. */
  ghost function PutSpec(s: State, identity: Identity, sample: Sample, now: int): (r: (State, Result))
    requires Valid(s)
    ensures Valid(r.0)
  {
    PrunedValid(s, now);
    DropValid(Pruned(s, now), identity);
    InsertValid(DropMoved(Pruned(s, now), identity), identity, sample);
    Insert(DropMoved(Pruned(s, now), identity), identity, sample)
  }

  // ---------------------------------------------------------------- the store

  /** Part-way through a prune: entries still to visit are as they were, the others are pruned. */
  ghost predicate HalfPruned(entries: map<string, Entry>, start: map<string, Entry>, todo: set<string>, now: int)
    requires Shaped(start)
  {
    && todo <= start.Keys
    && (forall id :: id in entries <==> id in todo || id in Prune(start, now))
    && (forall id <- entries :: entries[id] == if id in todo then start[id] else Prune(start, now)[id])
  }

  /** What one turn of the prune does to the entry of `id`. */
  function Visited(entries: map<string, Entry>, id: string, now: int): map<string, Entry>
    requires id in entries && |entries[id].sizes| == |entries[id].samples|
  {
    if Stale(entries[id].samples, now) == |entries[id].samples| then entries - {id}
    else entries[id := Trim(entries[id], now)]
  }

  lemma VisitStep(entries: map<string, Entry>, start: map<string, Entry>, todo: set<string>, id: string, now: int)
    requires Shaped(start) && HalfPruned(entries, start, todo, now) && id in todo
    ensures id in entries && entries[id] == start[id]
    ensures HalfPruned(Visited(entries, id, now), start, todo - {id}, now)
  {
    assert id in Prune(start, now) <==> Stale(start[id].samples, now) < |start[id].samples|;
  }

  lemma VisitDone(entries: map<string, Entry>, start: map<string, Entry>, now: int)
    requires Shaped(start) && HalfPruned(entries, start, {}, now)
    ensures entries == Prune(start, now)
  {
    assert entries.Keys == Prune(start, now).Keys;
  }

  class Memory {
    var entries: map<string, Entry>
    var bytes: int

    constructor ()
      ensures Contents() == State(map[], 0) && Valid(Contents())
    {
      entries, bytes := map[], 0;
    }

    function Contents(): State
      reads this
    {
      State(entries, bytes)
    }

    /** Walks past the stale samples of one entry, giving their bytes back. */
    method Release(e: Entry, now: int) returns (n: nat)
      requires |e.sizes| == |e.samples|
      modifies `bytes
      ensures n == Stale(e.samples, now) && bytes == old(bytes) - Sum(e.sizes[..n])
    {
      n := 0;
      while n < |e.samples| && e.samples[n].at < now - RETENTION
        invariant n <= |e.samples| && Stale(e.samples, now) == n + Stale(e.samples[n..], now)
        invariant bytes == old(bytes) - Sum(e.sizes[..n])
      {
        bytes := bytes - e.sizes[n];
        SumSnoc(e.sizes[..n], e.sizes[n]);
        assert e.sizes[..n + 1] == e.sizes[..n] + [e.sizes[n]];
        assert e.samples[n..][1..] == e.samples[n + 1..];
        n := n + 1;
      }
    }

    /** One turn of pruneLocked: the entry loses its stale prefix, and goes when nothing is left. */
    method PruneEntry(id: string, now: int)
      requires id in entries && EntryOk(id, entries[id]) && bytes == Total(entries)
      modifies this
      ensures entries == Visited(old(entries), id, now)
      ensures bytes == Total(entries)
    {
      var e := entries[id];
      TotalSplit(entries, id);
      var n := Release(e, now);
      SumDrop(e.sizes, n);
      if n == |e.samples| {
        assert e.sizes[..n] == e.sizes;
        entries := entries - {id};
      } else if n > 0 {
        TotalMoves(entries, id, Trim(e, now));
        entries := entries[id := Entry(e.identity, e.samples[n..], e.sizes[n..])];
      } else {
        assert e.samples[0..] == e.samples && e.sizes[0..] == e.sizes;
        assert entries == entries[id := e];
      }
    }

    /** pruneLocked: every entry loses its stale prefix, and its bytes; emptied entries go. */
    method PruneLocked(now: int)
      requires Valid(Contents())
      modifies this
      ensures Contents() == Pruned(old(Contents()), now)
    {
      ghost var start := entries;
      assert forall id <- start :: EntryOk(id, start[id]);
      var ids := entries.Keys;
      while ids != {}
        invariant HalfPruned(entries, start, ids, now)
        invariant bytes == Total(entries)
        decreases |ids|
      {
        var id :| id in ids;
        VisitStep(entries, start, ids, id, now);
        assert EntryOk(id, start[id]);
        PruneEntry(id, now);
        ids := ids - {id};
      }
      VisitDone(entries, start, now);
    }

    /** Forgets a device that reports from another room or node, size by size. */
    method ForgetMoved(identity: Identity)
      requires Valid(Contents())
      modifies this
      ensures Contents() == DropMoved(old(Contents()), identity)
    {
      var id := identity.device;
      if id in entries && (entries[id].identity.room != identity.room || entries[id].identity.node != identity.node) {
        var sizes, i := entries[id].sizes, 0;
        while i < |sizes|
          invariant i <= |sizes| && entries == old(entries) && bytes == old(bytes) - Sum(sizes[..i])
        {
          bytes := bytes - sizes[i];
          SumSnoc(sizes[..i], sizes[i]);
          assert sizes[..i + 1] == sizes[..i] + [sizes[i]];
          i := i + 1;
        }
        assert sizes[..i] == sizes;
        entries := entries - {id};
      }
    }

    method Put(identity: Identity, sample: Sample, now: int) returns (result: Result)
      requires Valid(Contents())
      modifies this
      ensures (Contents(), result) == PutSpec(old(Contents()), identity, sample, now)
      ensures Valid(Contents())
    {
      PrunedValid(Contents(), now);
      PruneLocked(now);
      DropValid(Contents(), identity);
      ForgetMoved(identity);
      result := Admit(identity, sample);
    }

    method Admit(identity: Identity, sample: Sample) returns (result: Result)
      requires Valid(Contents())
      modifies this
      ensures (Contents(), result) == Insert(old(Contents()), identity, sample)
    {
      var id := identity.device;
      var known := id in entries;
      if known {
        assert EntryOk(id, entries[id]);
        var last := entries[id].samples[|entries[id].samples| - 1];
        if !(sample.at > last.at) {
          return Ignored;
        }
        if sample.at - last.at < SPACING {
          return RateLimited;
        }
      }
      var size := SizeOf(sample);
      if bytes + size > MAX_BYTES || (!known && |entries| >= MAX_ENTRIES) {
        return RateLimited;
      }
      var e := if known then entries[id] else Entry(identity, [], []);
      assert !known ==> e.samples + [sample] == [sample] && e.sizes + [size] == [size];
      bytes := bytes + size;
      entries := entries[id := Entry(e.identity, e.samples + [sample], e.sizes + [size])];
      result := Stored;
    }
  }

  // ---------------------------------------------------------------- runs

  datatype Event = Put(identity: Identity, sample: Sample, now: int) | Tick(now: int)

  ghost function Next(s: State, e: Event): (r: State)
    requires Valid(s)
    ensures Valid(r)
  {
    match e
    case Tick(now) => PrunedValid(s, now); Pruned(s, now)
    case Put(identity, sample, now) => PutSpec(s, identity, sample, now).0
  }

  ghost function After(es: seq<Event>): (s: State)
    ensures Valid(s)
  {
    if es == [] then State(map[], 0) else Next(After(es[..|es| - 1]), es[|es| - 1])
  }

  function ClockOf(es: seq<Event>): int {
    if es == [] then 0 else es[|es| - 1].now
  }

  /** The clock does not go back, and every sample offered passed the range check of its time. */
  predicate Timely(es: seq<Event>) {
    && (forall i, j :: 0 <= i <= j < |es| ==> es[i].now <= es[j].now)
    && (forall i :: 0 <= i < |es| ==> es[i].now >= 0 && (es[i].Put? ==> InRange(es[i].sample, es[i].now)))
  }

  /** The bounds that validSample puts on a sample's time. */
  predicate InRange(sample: Sample, now: int) {
    now - 15_000_000_000 <= sample.at <= now + 10_000_000_000
  }

  ghost predicate Recent(s: State, now: int) {
    forall id <- s.entries :: forall x <- s.entries[id].samples :: x.at <= now + AHEAD
  }

  lemma {:induction false} AlwaysRecent(es: seq<Event>)
    requires Timely(es)
    ensures Recent(After(es), ClockOf(es))
  {
    if es != [] {
      var init, e := es[..|es| - 1], es[|es| - 1];
      assert Timely(init);
      AlwaysRecent(init);
      assert init != [] ==> es[|init| - 1].now <= e.now;
      RecentStep(After(init), e, ClockOf(init));
    }
  }

  lemma RecentStep(s: State, e: Event, clock: int)
    requires Valid(s) && Recent(s, clock) && clock <= e.now && (e.Put? ==> InRange(e.sample, e.now))
    ensures Recent(Next(s, e), e.now)
  {
    forall id | id in Next(s, e).entries
      ensures forall x <- Next(s, e).entries[id].samples :: x.at <= e.now + AHEAD
    {
      SeriesAfter(s, e, id);
    }
  }

  lemma PrunedSeries(s: State, now: int, id: string)
    requires Valid(s) && id in Pruned(s, now).entries
    ensures id in s.entries
    ensures forall x <- Pruned(s, now).entries[id].samples :: x in s.entries[id].samples && x.at >= now - RETENTION
  {
    assert EntryOk(id, s.entries[id]);
    PrefixIsFilter(s.entries[id].samples, now);
  }

  lemma InsertedSeries(s: State, identity: Identity, sample: Sample, id: string)
    requires Valid(s) && id in Insert(s, identity, sample).0.entries
    ensures var xs := Insert(s, identity, sample).0.entries[id].samples;
            if id in s.entries then xs == s.entries[id].samples || xs == s.entries[id].samples + [sample]
            else xs == [sample]
  {
  }

  /** One event leaves in a series only samples it already had that are within the retention, and the new one. */
  lemma SeriesAfter(s: State, e: Event, id: string)
    requires Valid(s) && id in Next(s, e).entries
    ensures forall x <- Next(s, e).entries[id].samples ::
              (e.Put? && x == e.sample) || (id in s.entries && x in s.entries[id].samples && x.at >= e.now - RETENTION)
  {
    PrunedValid(s, e.now);
    var p := Pruned(s, e.now);
    if e.Put? {
      var d := DropMoved(p, e.identity);
      DropValid(p, e.identity);
      assert Next(s, e) == Insert(d, e.identity, e.sample).0;
      InsertedSeries(d, e.identity, e.sample, id);
      if id in d.entries {
        PrunedSeries(s, e.now, id);
      }
    } else {
      PrunedSeries(s, e.now, id);
    }
  }

  lemma {:induction false} SpacedSpan(xs: seq<Sample>)
    requires Spaced(xs) && xs != []
    ensures xs[0].at + (|xs| - 1) * SPACING <= xs[|xs| - 1].at
  {
    if |xs| > 1 {
      SpacedTail(xs, 1);
      SpacedSpan(xs[1..]);
      assert xs[0].at + SPACING <= xs[1].at;
    }
  }

  lemma SpacedCount(xs: seq<Sample>, now: int)
    requires Spaced(xs) && xs != [] && forall x <- xs :: now - RETENTION <= x.at <= now + AHEAD
    ensures 0 < |xs| <= MAX_SAMPLES
  {
    SpacedSpan(xs);
    assert xs[0] in xs && xs[|xs| - 1] in xs;
  }

  ghost function SeriesOf(s: State, e: Event, id: string): seq<Sample>
    requires Valid(s) && id in Next(s, e).entries
  {
    Next(s, e).entries[id].samples
  }

  lemma SeriesInRange(s: State, e: Event, clock: int, id: string)
    requires Valid(s) && Recent(s, clock) && clock <= e.now && (e.Put? ==> InRange(e.sample, e.now))
    requires id in Next(s, e).entries
    ensures forall x <- SeriesOf(s, e, id) :: e.now - RETENTION <= x.at <= e.now + AHEAD
  {
    SeriesAfter(s, e, id);
  }

  lemma SeriesOk(s: State, e: Event, id: string)
    requires Valid(s) && id in Next(s, e).entries
    ensures SeriesOf(s, e, id) != [] && Spaced(SeriesOf(s, e, id))
  {
    assert EntryOk(id, Next(s, e).entries[id]);
  }

  lemma SeriesBounded(s: State, e: Event, clock: int, id: string)
    requires Valid(s) && Recent(s, clock) && clock <= e.now && (e.Put? ==> InRange(e.sample, e.now))
    requires id in Next(s, e).entries
    ensures 0 < |SeriesOf(s, e, id)| <= MAX_SAMPLES
  {
    SeriesInRange(s, e, clock, id);
    SeriesOk(s, e, id);
    SpacedCount(SeriesOf(s, e, id), e.now);
  }

  /** In every timely run, no series is ever empty or holds more than 18 samples. */
  lemma AtMostEighteen(es: seq<Event>, id: string)
    requires Timely(es) && id in After(es).entries
    ensures 0 < |After(es).entries[id].samples| <= 18
  {
    var init, e := es[..|es| - 1], es[|es| - 1];
    assert Timely(init);
    AlwaysRecent(init);
    assert ClockOf(init) <= e.now;
    SeriesBounded(After(init), e, ClockOf(init), id);
  }
}
