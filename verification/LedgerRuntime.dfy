/** The agent's runtime: what runCommand, reconcileCommand and the start-up do, as steps of the protocol. */
module LedgerRuntime {
  import opened Bytes
  import opened Files
  import opened Ledger
  import opened LedgerRuns
  import opened Times

  /** What one call meets: its clock; the agent's room when the request is dispatched and afterwards; the
      version report due; the answer; how the two saves end; and, when a command is asked about, the
      identity in use, what the server says, and the room the agent is in once the result was followed
      up, unless that failed. */
  datatype Turn = Turn(now: int, current: string, after: string, report: Option<string>, answer: Answer, save: Save,
      again: Save,
                       identity: Option<string>, found: Found, follow: Option<string>)

  // ---------------------------------------------------------------- the steps of a call

  /** A new command: recorded on disk, only then sent, then settled. A settlement that is not saved leaves
      the command to be reconciled. */
  function Submission(i: Input, room: string, device: string, t: Turn): seq<Event> {
    var c := Settled(Record(i, room, device, t.now), t.answer);
    if !t.save.Kept? then [Submit(i, room, device, t.now, t.save)]
    else
      [Submit(i, room, device, t.now, Kept), Move(t.current), Send(i.id, t.report), Move(t.after),
        Settle(i.id, c, t.again)]
      + if t.again.Kept? then [] else [Settle(i.id, c.(state := Reconciling), Lost)]
  }

  /** A result is followed up before it is settled; until then the command stays as it is. */
  function Followed(id: string, c: Cmd, t: Turn): seq<Event> {
    if t.follow.None? then [] else [Move(t.follow.value), Settle(id, c, t.save)]
  }

  /** A known command: it is sent again only if it is timely, of this device, and unknown to the server. */
  function Reconciliation(id: string, c: Cmd, t: Turn): seq<Event> {
    if c.action == "account-logout" && c.state.Succeeded? then []
    else if !(c.deadline > t.now) then if c.state.Succeeded? || c.state.Rejected? then []
      else [Settle(id, Forget(c), t.save)]
    else if t.identity != Option.Some(c.device) then []
    else if MustReplay(c, t.found) then
      [Move(t.current), Send(id, t.report)]
      + if t.answer.Success? then Followed(id, Replayed(c, t.answer), t)
        else [Settle(id, Replayed(c, t.answer), t.save)]
    else match t.found
      case Expired => [Settle(id, Forget(c), t.save)]
      case Recorded(succeeded) =>
        var ended := c.(state := if succeeded then Succeeded else Rejected, known := succeeded, request := None);
        if succeeded then Followed(id, ended, t) else [Settle(id, ended, t.save)]
      case _ => []
  }

  predicate Accepted(i: Input, commands: Commands) {
    |i.id| >= 16 && (i.id in commands ==> commands[i.id].intent == i) && (i.id !in commands ==> !Busy(commands))
  }

  /** runCommand. */
  function Steps(i: Input, commands: Commands, room: string, device: string, t: Turn): seq<Event> {
    if !Accepted(i, commands) then []
    else if i.id in commands then Reconciliation(i.id, commands[i.id], t)
    else Submission(i, room, device, t)
  }

  // ---------------------------------------------------------------- the runtime

  class Runtime {
    var commands: Commands
    var stored: Commands
    var room: string
    const device: string
    /** Everything that ever reached the disk, the wire or the memory, in order. */
    ghost var run: seq<Event>

    ghost predicate Valid()
      reads this
    {
      && After(run).Some?
      && var s := After(run).value; s.mem == commands && s.disk == stored && s.room == room
    }

    ghost function Clock(): int
      requires Valid()
      reads this
    {
      After(run).value.clock
    }

    constructor (device: string)
      ensures Valid() && run == [] && this.device == device
    {
      commands, stored, room, run := map[], map[], "", [];
      this.device := device;
    }

    /** A step of the protocol has led to the present fields. */
    ghost method Note(e: Event)
      requires After(run).Some? && Enabled(After(run).value, e)
      requires var s := Do(After(run).value, e); s.mem == commands && s.disk == stored && s.room == room
      modifies `run
      ensures Valid() && run == old(run) + [e] && After(run) == Option.Some(Do(After(old(run)).value, e))
    {
      assert (run + [e])[..|run|] == run;
      run := run + [e];
    }

    method SaveCommands(save: Save) returns (ok: bool)
      modifies `stored
      ensures stored == Written(save, old(stored), commands) && ok == save.Kept?
    {
      if !save.Lost? {
        stored := commands;
      }
      ok := save.Kept?;
    }

    method MoveTo(next: string)
      requires Valid()
      modifies `room, `run
      ensures Valid() && run == old(run) + [Move(next)] && room == next && Clock() == old(Clock())
    {
      room := next;
      Note(Move(next));
    }

    /** An answer is written down. */
    method Conclude(id: string, c: Cmd, save: Save) returns (ok: bool)
      requires Valid() && id in commands && c.deadline == commands[id].deadline
      requires c.request == commands[id].request || c.request == None
      modifies this
      ensures Valid() && run == old(run) + [Settle(id, c, save)] && Clock() == old(Clock())
      ensures commands == old(commands)[id := c] && room == old(room) && ok == save.Kept?
    {
      commands := commands[id := c];
      ok := SaveCommands(save);
      Note(Settle(id, c, save));
    }

    /** Start-up: what was in memory is gone. */
    method LoadCommands(now: int)
      requires Valid() && Clock() <= now
      modifies this
      ensures Valid() && run == old(run) + [Restart(now)] && commands == Load(old(stored), now)
    {
      commands := stored;
      var ids := commands.Keys;
      while ids != {}
        invariant ids <= commands.Keys == stored.Keys
        invariant forall id <- stored :: commands[id] == if id in ids then stored[id] else LoadOne(stored[id], now)
        invariant run == old(run) && stored == old(stored) && room == old(room)
        decreases |ids|
      {
        var id :| id in ids;
        ids := ids - {id};
        var c := commands[id];
        if !(c.deadline > now) && (c.state.Submitting? || c.state.Pending? || c.state.Reconciling?) {
          c := c.(state := Unresolved, request := None);
        } else if c.state.Submitting? {
          c := c.(state := Reconciling);
        }
        commands := commands[id := c];
      }
      assert commands == Load(stored, now);
      Note(Restart(now));
    }

    method PurgeOld(now: int)
      modifies `commands
      ensures commands == Purge(old(commands), now)
    {
      var ids := commands.Keys;
      while ids != {}
        invariant ids <= commands.Keys
        invariant forall id ::
            id in commands <==> id in old(commands) && (id in ids || !(now - old(commands)[id].deadline > HOUR))
        invariant forall id <- commands :: commands[id] == old(commands)[id]
        decreases |ids|
      {
        var id :| id in ids;
        ids := ids - {id};
        if now - commands[id].deadline > HOUR {
          commands := commands - {id};
        }
      }
    }

    method HasUnfinished() returns (busy: bool)
      ensures busy <==> Busy(commands)
    {
      var ids := commands.Keys;
      while ids != {}
        invariant ids <= commands.Keys
        invariant forall id <- commands :: id !in ids ==> !Unfinished(commands[id].state)
        decreases |ids|
      {
        var id :| id in ids;
        ids := ids - {id};
        if Unfinished(commands[id].state) {
          return true;
        }
      }
      busy := false;
    }

    /** The new command is on disk, or the submission has failed and the memory is as before. */
    method Enter(i: Input, now: int, save: Save) returns (ok: bool)
      requires Valid() && i.id !in commands && Clock() <= now
      modifies this
      ensures Valid() && run == old(run) + [Event.Submit(i, room, device, now, save)] && room == old(room)
      ensures ok == save.Kept? && (ok ==> i.id in commands && commands[i.id] == Record(i, room, device, now))
    {
      PurgeOld(now);
      ghost var kept := commands;
      commands := commands[i.id := Record(i, room, device, now)];
      ok := SaveCommands(save);
      if !ok {
        commands := commands - {i.id};
        assert commands == kept;
      }
      Note(Event.Submit(i, room, device, now, save));
    }

    method Transmit(id: string, current: string, report: Option<string>)
      requires Valid() && id in commands && commands[id].request.Some?
      modifies `room, `run
      ensures Valid() && run == old(run) + [Move(current), Send(id, report)] && room == current
              && Clock() == old(Clock())
    {
      MoveTo(current);
      Note(Send(id, report));
    }

    /** The room may be another one when the request goes out, and yet another when its answer is in. */
    method Dispatch(id: string, t: Turn)
      requires Valid() && id in commands && commands[id].request.Some?
      modifies `room, `run
      ensures Valid() && run == old(run) + [Move(t.current), Send(id, t.report), Move(t.after)]
    {
      Transmit(id, t.current, t.report);
      MoveTo(t.after);
    }

    /** An answer that cannot be saved leaves the command to be reconciled. */
    method Finish(id: string, c: Cmd, save: Save) returns (ok: bool)
      requires Valid() && id in commands && c.deadline == commands[id].deadline
      requires c.request == commands[id].request || c.request == None
      modifies this
      ensures Valid() && ok == save.Kept?
      ensures run == old(run) + [Settle(id, c, save)] + if ok then [] else [Settle(id, c.(state := Reconciling), Lost)]
    {
      ok := Conclude(id, c, save);
      if !ok {
        commands := commands[id := c.(state := Reconciling)];
        Note(Settle(id, c.(state := Reconciling), Lost));
      }
    }

    method Submit(i: Input, t: Turn) returns (out: Outcome)
      requires Valid() && i.id !in commands && Clock() <= t.now
      modifies this
      ensures Valid() && run == old(run) + Submission(i, old(room), device, t)
      ensures out == if t.save.Kept? && t.again.Kept? then Answered(t.answer) else StorageFailed
    {
      var ok := Enter(i, t.now, t.save);
      if !ok {
        return StorageFailed;
      }
      Dispatch(i.id, t);
      ok := Finish(i.id, Settled(commands[i.id], t.answer), t.again);
      out := if ok then Answered(t.answer) else StorageFailed;
    }

    method Follow(id: string, c: Cmd, t: Turn)
      requires Valid() && id in commands && c.deadline == commands[id].deadline && c.request == None
      modifies this
      ensures Valid() && run == old(run) + Followed(id, c, t)
    {
      if t.follow.Some? {
        MoveTo(t.follow.value);
        var ok := Conclude(id, c, t.save);
      }
    }

    /** reconcileCommand. */
    method Reconcile(id: string, t: Turn) returns (out: Outcome)
      requires Valid() && id in commands
      modifies this
      ensures Valid() && run == old(run) + Reconciliation(id, old(commands)[id], t)
    {
      var c, ok := commands[id], true;
      if c.action == "account-logout" && c.state.Succeeded? {
        return Stands(c);
      }
      if !(c.deadline > t.now) && (c.state.Succeeded? || c.state.Rejected?) {
        return Stands(c);
      }
      if !(c.deadline > t.now) {
        ok := Conclude(id, Forget(c), t.save);
        return Stands(Forget(c));
      }
      if t.identity != Option.Some(c.device) {
        return Unconfigured;
      }
      if MustReplay(c, t.found) {
        Transmit(id, t.current, t.report);
        if t.answer.Success? {
          Follow(id, Replayed(c, t.answer), t);
        } else {
          ok := Conclude(id, Replayed(c, t.answer), t.save);
        }
        return Answered(t.answer);
      }
      match t.found
      case Expired =>
        ok := Conclude(id, Forget(c), t.save);
        out := Expiry;
      case Recorded(succeeded) =>
        var ended := c.(state := if succeeded then Succeeded else Rejected, known := succeeded, request := None);
        if succeeded {
          Follow(id, ended, t);
        } else {
          ok := Conclude(id, ended, t.save);
        }
        out := Stands(ended);
      case _ =>
        out := Unconfigured;
    }

    /** runCommand: every step it takes is a step of the protocol, in the order the ledger relies on. */
    method RunCommand(i: Input, t: Turn) returns (out: Outcome)
      requires Valid() && Clock() <= t.now
      modifies this
      ensures Valid() && run == old(run) + Steps(i, old(commands), old(room), device, t)
      ensures !Accepted(i, old(commands)) ==>
                unchanged(this) && out == if |i.id| < 16 then Malformed else if i.id in commands then Conflict
                  else Busied
    {
      if |i.id| < 16 {
        return Malformed;
      }
      if i.id in commands {
        if commands[i.id].intent != i {
          return Conflict;
        }
        out := Reconcile(i.id, t);
        return;
      }
      var busy := HasUnfinished();
      if busy {
        return Busied;
      }
      out := Submit(i, t);
    }
  }
}
