/** When a frame number is refused, read off the frames that were delivered before, over every run. */
module CarrierSessions {
  import opened Bytes
  import opened Replay
  import opened Carrier
  import opened CarrierRuns
  import opened CarrierExact

  /** The arrivals' clocks do not go back. */
  predicate Ordered(es: seq<Event>) {
    forall i, j :: 0 <= i < j < |es| && es[i].Arrive? && es[j].Arrive? ==> es[i].now <= es[j].now
  }

  /** The clock of the last arrival. */
  function Clock(es: seq<Event>): Option<int> {
    if es == [] then None
    else if es[|es| - 1].Arrive? then Option.Some(es[|es| - 1].now)
    else Clock(es[..|es| - 1])
  }

  /** The numbers delivered in a session one after the other, and when the last was. */
  datatype Streak = Streak(numbers: set<nat>, last: Option<int>)

  /** At time now the session is remembered: its last delivery came less than two minutes ago. */
  predicate Remembered(k: Streak, now: int) {
    k.last.Some? && now < k.last.value + 120_000_000_000
  }

  /** A delivery after two minutes of silence begins a new streak, and a new revision ends it. */
  function Grown(k: Streak, e: Event, delivered: bool): Streak {
    match e
    case NewRevision => Streak({}, None)
    case NewMembers => k
    case Arrive(_, c, now) =>
      if !delivered then k
      else Streak((if Remembered(k, now) then k.numbers else {}) + {c.seqno}, Option.Some(now))
  }

  /** The last event delivered a frame of the session. */
  predicate Delivers(es: seq<Event>, sk: SessionKey)
    requires es != []
  {
    var n := |es| - 1;
    es[n].Arrive? && Session(KeyOf(es[n])) == sk && ResultAt(es, n).Some?
  }

  function StreakOf(es: seq<Event>, sk: SessionKey): Streak {
    if es == [] then Streak({}, None)
    else Grown(StreakOf(es[..|es| - 1], sk), es[|es| - 1], Delivers(es, sk))
  }

  /** The window of the session is there exactly as long as the streak is remembered, and stands for its numbers. */
  ghost predicate Agree(s: State, sk: SessionKey, k: Streak, clock: Option<int>, accepted: set<nat>) {
    && (sk in s.seen <==> clock.Some? && Remembered(k, clock.value))
    && (sk in s.seen ==> s.seen[sk].expires == k.last.value + 120_000_000_000 && accepted == k.numbers)
  }

  function Ticked(clock: Option<int>, e: Event): Option<int> {
    if e.Arrive? then Option.Some(e.now) else clock
  }

  lemma StepAgrees(s: State, e: Event, sk: SessionKey, k: Streak, clock: Option<int>, l: Life, delivered: bool)
    requires Valid(s) && Agree(s, sk, k, clock, l.accepted)
    requires clock.None? ==> k.last.None?
    requires e.Arrive? && clock.Some? ==> clock.value <= e.now
    requires delivered <==> e.Arrive? && Session(KeyOf(e)) == sk && Next(s, e).1.Some?
    ensures Agree(Next(s, e).0, sk, Grown(k, e, delivered), Ticked(clock, e), LifeStep(s, l, e, sk).accepted)
  {
    if delivered {
      AcceptShape(s, e);
    } else if e.Arrive? {
      OtherShape(s, e, sk);
    }
  }

  lemma OrderedInit(es: seq<Event>)
    requires es != [] && Ordered(es)
    ensures Ordered(es[..|es| - 1])
  {
  }

  lemma {:induction false} ClockIsPast(es: seq<Event>, now: int)
    requires forall i :: 0 <= i < |es| && es[i].Arrive? ==> es[i].now <= now
    ensures Clock(es).Some? ==> Clock(es).value <= now
  {
    if es != [] {
      ClockIsPast(es[..|es| - 1], now);
    }
  }

  lemma {:induction false} NoClockNoStreak(es: seq<Event>, sk: SessionKey)
    ensures Clock(es).None? ==> StreakOf(es, sk).last.None?
  {
    if es != [] {
      NoClockNoStreak(es[..|es| - 1], sk);
    }
  }

  lemma RunSnoc(es: seq<Event>, sk: SessionKey)
    requires es != []
    ensures var init, e := es[..|es| - 1], es[|es| - 1];
            && After(es) == Next(After(init), e).0 && Clock(es) == Ticked(Clock(init), e)
            && LifeOf(es, sk) == LifeStep(After(init), LifeOf(init, sk), e, sk)
            && StreakOf(es, sk) == Grown(StreakOf(init, sk), e, Delivers(es, sk))
            && (Delivers(es, sk) <==> e.Arrive? && Session(KeyOf(e)) == sk && Next(After(init), e).1.Some?)
  {
  }

  lemma AgreeWith(s: State, sk: SessionKey, k: Streak, clock: Option<int>, l: Life, es: seq<Event>)
    requires Agree(s, sk, k, clock, l.accepted)
    requires After(es) == s && StreakOf(es, sk) == k && Clock(es) == clock && LifeOf(es, sk) == l
    ensures Agree(After(es), sk, StreakOf(es, sk), Clock(es), Accepted(es, sk))
  {
  }

  lemma {:induction false} AlwaysAgree(es: seq<Event>, sk: SessionKey)
    requires Ordered(es)
    ensures Agree(After(es), sk, StreakOf(es, sk), Clock(es), Accepted(es, sk))
  {
    if es != [] {
      OrderedInit(es);
      AlwaysAgree(es[..|es| - 1], sk);
      AgreeOn(es, sk);
    }
  }

  lemma AgreeOn(es: seq<Event>, sk: SessionKey)
    requires es != [] && Ordered(es)
    requires var init := es[..|es| - 1];
             Agree(After(init), sk, StreakOf(init, sk), Clock(init), Accepted(init, sk))
    ensures Agree(After(es), sk, StreakOf(es, sk), Clock(es), Accepted(es, sk))
  {
    var init, e := es[..|es| - 1], es[|es| - 1];
    if e.Arrive? {
      ClockIsPast(init, e.now);
    }
    NoClockNoStreak(init, sk);
    RunSnoc(es, sk);
    var s, k, c, l := After(init), StreakOf(init, sk), Clock(init), LifeOf(init, sk);
    StepAgrees(s, e, sk, k, c, l, Delivers(es, sk));
    AgreeWith(Next(s, e).0, sk, Grown(k, e, Delivers(es, sk)), Ticked(c, e), LifeStep(s, l, e, sk), es);
  }

  /** A number is refused exactly when it is zero, or its session had a delivery less than two minutes before and the
      number is among those of the streak, or 4096 or more below one of them. */
  lemma RefusedExactly(es: seq<Event>, i: nat)
    requires i < |es| && es[i].Arrive? && Ordered(es)
    ensures var n, k := es[i].chunk.seqno, StreakOf(es[..i], Session(KeyOf(es[i])));
            Refused(es, i)
            <==> n == 0
                 || (Remembered(k, es[i].now) && (n in k.numbers || exists a <- k.numbers :: n + 4096 <= a))
  {
    var sk := Session(KeyOf(es[i]));
    AlwaysAgree(es[..i], sk);
    ClockIsPast(es[..i], es[i].now);
    NoClockNoStreak(es[..i], sk);
  }
}
