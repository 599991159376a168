/** The telemetry store is a table of sample lists: what it holds after a report, and what the report is told. */
module TelemetryExact {
  import opened Telemetry

  /** The samples of every device that has any. */
  type Held = map<string, seq<Sample>>

  /** The samples of the last sixty seconds. */
  function Young(xs: seq<Sample>, now: int): seq<Sample> {
    if xs == [] then []
    else if xs[0].at >= now - 60_000_000_000 then [xs[0]] + Young(xs[1..], now)
    else Young(xs[1..], now)
  }

  /** Four octets for each of the encoding's, and 1024. */
  function Weight(xs: seq<Sample>): nat {
    if xs == [] then 0 else 4 * xs[0].json + 1024 + Weight(xs[1..])
  }

  ghost function Load(h: Held): nat {
    if h.Keys == {} then 0
    else
      var id :| id in h;
      Weight(h[id]) + Load(h - {id})
  }

  /** Memory s holds h, and has counted its load. */
  ghost predicate Holds(s: State, h: Held) {
    && s.entries.Keys == h.Keys && s.bytes == Load(h)
    && forall id <- h :: s.entries[id].samples == h[id]
  }

  /** The device of the report was last heard in another room, or as another node. */
  predicate Moved(s: State, identity: Identity) {
    && identity.device in s.entries
    && var was := s.entries[identity.device].identity; was.room != identity.room || was.node != identity.node
  }

  /** What is left when a report of the identity comes: young samples, and none of a device that has moved. */
  function Left(s: State, identity: Identity, now: int): Held {
    map id | id in s.entries && Young(s.entries[id].samples, now) != []
             && !(id == identity.device && Moved(s, identity))
      :: Young(s.entries[id].samples, now)
  }

  // ---------------------------------------------------------------- the load

  lemma {:induction false} LoadSplit(h: Held, id: string)
    requires id in h
    ensures Load(h) == Weight(h[id]) + Load(h - {id})
    decreases |h|
  {
    var other :| other in h && Load(h) == Weight(h[other]) + Load(h - {other});
    if other != id {
      LoadSplit(h - {other}, id);
      LoadSplit(h - {id}, other);
      assert h - {other} - {id} == h - {id} - {other};
    }
  }

  lemma {:induction false} SumIsWeight(xs: seq<Sample>, sizes: seq<nat>)
    requires |sizes| == |xs| && forall i :: 0 <= i < |xs| ==> sizes[i] == SizeOf(xs[i])
    ensures Sum(sizes) == Weight(xs)
  {
    if xs != [] {
      SumIsWeight(xs[1..], sizes[1..]);
    }
  }

  predicate SameLists(entries: map<string, Entry>, h: Held) {
    entries.Keys == h.Keys && forall id <- h :: EntryOk(id, entries[id]) && entries[id].samples == h[id]
  }

  lemma {:induction false} TotalIsLoad(entries: map<string, Entry>, h: Held)
    requires SameLists(entries, h)
    ensures Total(entries) == Load(h)
    decreases |h|
  {
    if h.Keys != {} {
      var id :| id in h;
      LoadSplit(h, id);
      TotalSplit(entries, id);
      assert EntryOk(id, entries[id]);
      SumIsWeight(h[id], entries[id].sizes);
      TotalIsLoad(entries - {id}, h - {id});
    } else {
      assert entries.Keys == {};
    }
  }

  lemma ValidHolds(s: State, h: Held)
    requires Valid(s) && s.entries.Keys == h.Keys && forall id <- h :: s.entries[id].samples == h[id]
    ensures Holds(s, h)
  {
    forall id | id in h
      ensures EntryOk(id, s.entries[id])
    {
    }
    TotalIsLoad(s.entries, h);
  }

  // ---------------------------------------------------------------- what is left

  lemma {:induction false} YoungIsFilter(xs: seq<Sample>, now: int)
    ensures Young(xs, now) == Filter(xs, now)
  {
    if xs != [] {
      YoungIsFilter(xs[1..], now);
    }
  }

  lemma PrunedKeeps(s: State, now: int, id: string)
    requires Valid(s)
    ensures id in Pruned(s, now).entries <==> id in s.entries && Young(s.entries[id].samples, now) != []
    ensures id in Pruned(s, now).entries ==>
              && Pruned(s, now).entries[id].samples == Young(s.entries[id].samples, now)
              && Pruned(s, now).entries[id].identity == s.entries[id].identity
  {
    if id in s.entries {
      assert EntryOk(id, s.entries[id]);
      PrefixIsFilter(s.entries[id].samples, now);
      YoungIsFilter(s.entries[id].samples, now);
    }
  }

  ghost function Before(s: State, identity: Identity, now: int): (b: State)
    requires Valid(s)
    ensures Valid(b)
  {
    PrunedValid(s, now);
    DropValid(Pruned(s, now), identity);
    DropMoved(Pruned(s, now), identity)
  }

  lemma BeforeKeeps(s: State, identity: Identity, now: int, id: string)
    requires Valid(s)
    ensures id in Before(s, identity, now).entries <==> id in Left(s, identity, now)
    ensures id in Left(s, identity, now) ==>
              && Before(s, identity, now).entries[id].samples == Left(s, identity, now)[id]
              && Before(s, identity, now).entries[id].identity == s.entries[id].identity
  {
    PrunedKeeps(s, now, id);
  }

  lemma BeforeHolds(s: State, identity: Identity, now: int)
    requires Valid(s)
    ensures Holds(Before(s, identity, now), Left(s, identity, now))
  {
    forall id
      ensures id in Before(s, identity, now).entries <==> id in Left(s, identity, now)
      ensures id in Left(s, identity, now) ==>
                Before(s, identity, now).entries[id].samples == Left(s, identity, now)[id]
    {
      BeforeKeeps(s, identity, now, id);
    }
    ValidHolds(Before(s, identity, now), Left(s, identity, now));
  }

  // ---------------------------------------------------------------- the main results

  /** What a report of the device is told: it must be newer than the last one left, by four seconds, and 64 MiB and 1024
      devices are the most. */
  ghost function Answer(h: Held, device: string, sample: Sample): Result {
    var xs := if device in h then h[device] else [];
    if xs != [] && sample.at <= xs[|xs| - 1].at then Ignored
    else if xs != [] && sample.at < xs[|xs| - 1].at + 4_000_000_000 then RateLimited
    else if Load(h) + 4 * sample.json + 1024 > 67_108_864 || (xs == [] && |h| >= 1024) then RateLimited
    else Stored
  }

  /** What is held when the answer has been given. */
  function Put(h: Held, device: string, sample: Sample, answer: Result): Held {
    if answer.Stored? then h[device := (if device in h then h[device] else []) + [sample]] else h
  }

  lemma InsertedExactly(b: State, h: Held, identity: Identity, sample: Sample)
    requires Valid(b) && Holds(b, h) && forall id <- h :: h[id] != []
    ensures Insert(b, identity, sample).1 == Answer(h, identity.device, sample)
    ensures var after := Put(h, identity.device, sample, Insert(b, identity, sample).1);
            && Insert(b, identity, sample).0.entries.Keys == after.Keys
            && forall id <- after :: Insert(b, identity, sample).0.entries[id].samples == after[id]
  {
    assert |b.entries.Keys| == |h.Keys|;
  }

  /** A report leaves exactly the young samples of the devices that stayed, with its own at the end if it is stored. */
  lemma PutExactly(s: State, identity: Identity, sample: Sample, now: int)
    requires Valid(s)
    ensures var left := Left(s, identity, now);
            && PutSpec(s, identity, sample, now).1 == Answer(left, identity.device, sample)
            && Holds(PutSpec(s, identity, sample, now).0,
                     Put(left, identity.device, sample, Answer(left, identity.device, sample)))
  {
    var b, left := Before(s, identity, now), Left(s, identity, now);
    BeforeHolds(s, identity, now);
    InsertedExactly(b, left, identity, sample);
    InsertValid(b, identity, sample);
    ValidHolds(Insert(b, identity, sample).0,
               Put(left, identity.device, sample, Insert(b, identity, sample).1));
  }

  lemma InsertedIdentity(b: State, identity: Identity, sample: Sample, id: string)
    requires Valid(b) && id in Insert(b, identity, sample).0.entries
    ensures Insert(b, identity, sample).0.entries[id].identity
            == if id in b.entries then b.entries[id].identity else identity
  {
  }

  /** A series belongs to the room and node it was first reported from; a device that moved starts over. */
  lemma IdentityExactly(s: State, identity: Identity, sample: Sample, now: int, id: string)
    requires Valid(s) && id in PutSpec(s, identity, sample, now).0.entries
    ensures PutSpec(s, identity, sample, now).0.entries[id].identity
            == if id in Left(s, identity, now) then s.entries[id].identity else identity
  {
    BeforeKeeps(s, identity, now, id);
    InsertedIdentity(Before(s, identity, now), identity, sample, id);
  }

  /** The sweep by itself keeps every young sample, and nothing else. */
  lemma SweptExactly(s: State, now: int, h: Held)
    requires Valid(s)
    requires h == map id | id in s.entries && Young(s.entries[id].samples, now) != []
                    :: Young(s.entries[id].samples, now)
    ensures Holds(Pruned(s, now), h)
  {
    forall id
      ensures id in Pruned(s, now).entries <==> id in h
      ensures id in h ==> Pruned(s, now).entries[id].samples == h[id]
    {
      PrunedKeeps(s, now, id);
    }
    PrunedValid(s, now);
    ValidHolds(Pruned(s, now), h);
  }
}
