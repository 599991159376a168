/** The 4096-slot replay window of one carrier session. */
module Replay {
  const SLOTS := 4096

  /** slots[i] is the last accepted number congruent to i, or 0. */
  datatype Window = Window(highest: nat, slots: seq<nat>, expires: int)

  function Fresh(): (w: Window)
    ensures Shaped(w)
  {
    Window(0, seq(SLOTS, _ => 0), 0)
  }

  predicate Shaped(w: Window) {
    |w.slots| == SLOTS
  }

  /** The test in front of the frame table. */
  predicate Rejects(w: Window, n: nat)
    requires Shaped(w)
  {
    n == 0 || w.slots[n % SLOTS] == n || (n < w.highest && w.highest - n >= SLOTS)
  }

  function Mark(w: Window, n: nat, expires: int): (r: Window)
    requires Shaped(w)
    ensures Shaped(r)
  {
    Window(if n > w.highest then n else w.highest, w.slots[n % SLOTS := n], expires)
  }

  /** The window stands for the unbounded set of everything it accepted: each slot holds the
      largest accepted number of its residue class. */
  ghost predicate Stands(w: Window, accepted: set<nat>) {
    && Shaped(w)
    && (accepted == {} ==> w.highest == 0) && (accepted != {} ==> w.highest in accepted)
    && (forall n <- accepted :: 0 < n <= w.highest && n <= w.slots[n % SLOTS])
    && (forall i :: 0 <= i < SLOTS ==> w.slots[i] == 0 || (w.slots[i] in accepted && w.slots[i] % SLOTS == i))
  }

  lemma FreshStands()
    ensures Stands(Fresh(), {})
  {
  }

  lemma Congruent(a: nat, b: nat)
    requires a % SLOTS == b % SLOTS && a < b
    ensures b - a >= SLOTS
  {
    assert a == a / SLOTS * SLOTS + a % SLOTS;
    assert b == b / SLOTS * SLOTS + b % SLOTS;
  }

  /** Refinement: a number is rejected exactly when it is zero, was accepted before, or lies at
      least 4096 below the highest accepted one. */
  lemma RejectsExactly(w: Window, accepted: set<nat>, n: nat)
    requires Stands(w, accepted)
    ensures Rejects(w, n) <==> n == 0 || n in accepted || n + SLOTS <= w.highest
  {
    var v := w.slots[n % SLOTS];
    if n in accepted && v != n {
      Congruent(n, v);
    }
  }

  /** Accepting keeps the refinement, and the slot it overwrites held a smaller congruent number. */
  lemma MarkStands(w: Window, accepted: set<nat>, n: nat, expires: int)
    requires Stands(w, accepted) && !Rejects(w, n)
    ensures Stands(Mark(w, n, expires), accepted + {n})
    ensures w.slots[n % SLOTS] < n
    ensures w.slots[n % SLOTS] == 0 || w.slots[n % SLOTS] + SLOTS <= n
  {
    RejectsExactly(w, accepted, n);
    var v := w.slots[n % SLOTS];
    if v > n {
      Congruent(n, v);
    } else if 0 < v < n {
      Congruent(v, n);
    }
    var w' := Mark(w, n, expires);
    forall m | m in accepted + {n}
      ensures 0 < m <= w'.highest && m <= w'.slots[m % SLOTS]
    {
      if m in accepted && m % SLOTS == n % SLOTS {
        assert m <= v;
      }
    }
  }
}
