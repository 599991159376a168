/** Exactly when a command goes out, what is written down for it, and that a lost one goes out again. */
module LedgerExact {
  import opened Bytes
  import opened Files
  import opened Ledger
  import opened LedgerRuns
  import opened LedgerRuntime

  predicate Sends(es: seq<Event>, id: string) {
    exists n :: 0 <= n < |es| && es[n].Send? && es[n].id == id
  }

  /** What a call writes down for the command, in its order. */
  predicate Writes(es: seq<Event>, id: string, c: Cmd) {
    exists n :: 0 <= n < |es| && es[n].Settle? && es[n].id == id && es[n].cmd == c
  }

  // ---------------------------------------------------------------- what goes out

  /** The action is about no room of its own. */
  predicate Roomless(action: string) {
    || action == "create" || action == "join" || action == "account-takeover" || action == "account-logout"
    || action == "revoke-device"
  }

  /** The path of the request, for a command about this room. */
  function PathIn(i: Input, room: string): string {
    if i.action == "create" then "/v2/rooms"
    else if i.action == "join" then "/v2/rooms/join"
    else if i.action == "account-takeover" then "/v2/me/takeover"
    else if i.action == "account-logout" then "/v2/me/logout"
    else if i.action == "revoke-device" then "/v2/me/devices/" + i.target + "/revoke"
    else "/v2/rooms/" + room + (if i.action == "owner-join" then "/join"
                                else if i.action == "invite-revoke" then "/invite/revoke" else "/" + i.action)
  }

  /** The room of a command: the one on record, or the agent's. */
  function RoomFor(i: Input, current: string): string {
    if Roomless(i.action) || i.room != "" then i.room else current
  }

  lemma PathsAgree(i: Input, current: string)
    ensures CommandPath(Resolve(i, current)) == PathIn(i, RoomFor(i, current))
    ensures NeedsRoom(i.action) <==> !Roomless(i.action)
  {
    assert forall a: string, b: string, c: string :: (a + b) + c == a + (b + c);
    var j := Resolve(i, current);
    assert "/" + i.action == "/" + j.action;
    if i.action == "owner-join" || i.action == "invite-revoke" {
      assert "/v2/rooms/" + j.room + "/join" == "/v2/rooms/" + RoomFor(i, current) + "/join";
    } else {
      assert ("/v2/rooms/" + j.room + "/") + j.action == "/v2/rooms/" + j.room + ("/" + j.action);
    }
  }

  /** A dispatch sends, under the key and deadline on record, a version report that is due before an admission, and the
      command itself unless it still has no room. */
  lemma SentExactly(id: string, deadline: int, i: Input, current: string, report: Option<string>, w: Wire)
    ensures w in Dispatch(id, deadline, i, current, report)
            <==> && w.key == id && w.deadline == deadline
                 && ((i.action in {"create", "join", "owner-join"} && report.Some?
                      && w.payload == Report(report.value))
                     || ((Roomless(i.action) || RoomFor(i, current) != "")
                         && w.payload == Command(PathIn(i, RoomFor(i, current)), i.body)))
  {
    PathsAgree(i, current);
  }

  /** Exactly commands more than an hour past their deadline are dropped. */
  lemma PurgedExactly(commands: Commands, now: int, id: string)
    ensures id in Purge(commands, now) <==> id in commands && now <= commands[id].deadline + 3_600_000_000_000
    ensures id in Purge(commands, now) ==> Purge(commands, now)[id] == commands[id]
  {
  }

  /** A command is first on record as being submitted, for an hour, with nothing known of it. */
  lemma RecordedFirst(i: Input, selected: string, device: string, now: int)
    ensures Record(i, selected, device, now)
            == Cmd(Submitting, i.action, now + 3_600_000_000_000, false, i, Option.Some(Recorded(i, selected)), device)
  {
  }

  // ---------------------------------------------------------------- a new command

  /** The request as recorded: in the room it names, or else in the one selected when it was submitted. */
  function Recorded(i: Input, selected: string): Input {
    Input(i.id, i.action, if i.room == "" then selected else i.room, i.target, i.body)
  }

  /** What is written down after the answer. */
  function Answered(i: Input, room: string, device: string, t: Turn): Cmd {
    match t.answer
    case Success => Cmd(Succeeded, i.action, t.now + 3_600_000_000_000, true, i, None, device)
    case Refusal(known) => Cmd(Rejected, i.action, t.now + 3_600_000_000_000, known, i, None, device)
    case Unsure(known) =>
      Cmd(Reconciling, i.action, t.now + 3_600_000_000_000, known, i, Option.Some(Recorded(i, room)), device)
  }

  /**
   * A command under a new key, while none is open, is recorded with its content and the device for one hour; only if
   * that was saved it is sent, once; and then its answer is written down: succeeded, rejected, or to be reconciled.
   */
  lemma SubmittedExactly(i: Input, commands: Commands, room: string, device: string, t: Turn)
    requires |i.id| >= 16 && i.id !in commands
    requires forall id <- commands ::
             !(commands[id].state.Submitting? || commands[id].state.Pending? || commands[id].state.Reconciling?)
    ensures var es := Steps(i, commands, room, device, t);
            && es != [] && es[0] == Submit(i, room, device, t.now, t.save)
            && (Sends(es, i.id) <==> t.save.Kept?)
            && (t.save.Kept? ==>
                  |es| >= 5 && es[1] == Move(t.current) && es[2] == Send(i.id, t.report) && es[4].Settle?
                  && es[4].cmd == Answered(i, room, device, t))
  {
    assert !Busy(commands);
    var es := Steps(i, commands, room, device, t);
    assert t.save.Kept? ==> es[2] == Send(i.id, t.report);
  }

  // ---------------------------------------------------------------- a known command

  /** Why a command must go out again: the server has not seen it and no commit is known; or it logs this account out
      and the server answers that the device is revoked. */
  predicate LostOrLoggedOut(c: Cmd, found: Found) {
    || (found == NotFound && c.known == false)
    || (c.action == "account-logout" && found == DeviceRevoked)
  }

  /** A known command is sent again in a call exactly when it is timely, of this device, no logout that succeeded, its
      request is kept, and one of these holds; and then once, from where the agent is. */
  lemma ResentExactly(i: Input, commands: Commands, room: string, device: string, t: Turn)
    requires |i.id| >= 16 && i.id in commands && commands[i.id].intent == i
    ensures var c, es := commands[i.id], Steps(i, commands, room, device, t);
            && (Sends(es, i.id)
                <==> t.now < c.deadline && t.identity == Option.Some(c.device)
                     && !(c.action == "account-logout" && c.state == Succeeded) && c.request.Some?
                        && LostOrLoggedOut(c, t.found))
            && (Sends(es, i.id) ==> |es| >= 2 && es[0] == Move(t.current) && es[1] == Send(i.id, t.report)
                                    && forall n :: 2 <= n < |es| ==> !es[n].Send?)
  {
    var c, es := commands[i.id], Steps(i, commands, room, device, t);
    if t.now < c.deadline && t.identity == Option.Some(c.device) && MustReplay(c, t.found) && es != [] {
      assert es[1] == Send(i.id, t.report);
    }
  }

  /** What is written down in the call, if anything: the command with its new state. */
  function Conclusion(c: Cmd, t: Turn): Option<Cmd> {
    if c.action == "account-logout" && c.state == Succeeded then None
    else if c.deadline <= t.now then
      if c.state == Succeeded || c.state == Rejected then None
      else Option.Some(Cmd(Unresolved, c.action, c.deadline, c.known, c.intent, None, c.device))
    else if t.identity != Option.Some(c.device) then None
    else if LostOrLoggedOut(c, t.found) && c.request.Some? then
      match t.answer
      case Success =>
        if t.follow.None? then None
          else Option.Some(Cmd(Succeeded, c.action, c.deadline, true, c.intent, None, c.device))
      case Refusal(known) => Option.Some(Cmd(Rejected, c.action, c.deadline, known, c.intent, None, c.device))
      case Unsure(known) => Option.Some(Cmd(c.state, c.action, c.deadline, known, c.intent, c.request, c.device))
    else match t.found
      case Expired => Option.Some(Cmd(Unresolved, c.action, c.deadline, c.known, c.intent, None, c.device))
      case Recorded(succeeded) =>
        if !succeeded then Option.Some(Cmd(Rejected, c.action, c.deadline, false, c.intent, None, c.device))
        else if t.follow.None? then None
        else Option.Some(Cmd(Succeeded, c.action, c.deadline, true, c.intent, None, c.device))
      case _ => None
  }

  /** A call writes down exactly that, and nothing else. */
  lemma ConcludedExactly(i: Input, commands: Commands, room: string, device: string, t: Turn, d: Cmd)
    requires |i.id| >= 16 && i.id in commands && commands[i.id].intent == i
    ensures Writes(Steps(i, commands, room, device, t), i.id, d) <==> Conclusion(commands[i.id], t) == Option.Some(d)
  {
    var c, es := commands[i.id], Steps(i, commands, room, device, t);
    var last := |es| - 1;
    if es != [] && es[last].Settle? {
      assert forall n :: 0 <= n < |es| && es[n].Settle? ==> n == last;
    }
  }

  // ---------------------------------------------------------------- what a restart makes of the file

  /** Overdue and open is given up; half sent is to be reconciled; the rest is as it was. */
  lemma LoadedExactly(stored: Commands, now: int, id: string)
    ensures id in Load(stored, now) <==> id in stored
    ensures id in stored ==>
              var c, d := stored[id], Load(stored, now)[id];
              && (d.action, d.deadline, d.known, d.intent, d.device)
                 == (c.action, c.deadline, c.known, c.intent, c.device)
              && var open := c.state == Submitting || c.state == Pending || c.state == Reconciling;
              && d.state == (if open && c.deadline <= now then Unresolved else if c.state == Submitting then Reconciling
                 else c.state)
              && d.request == (if open && c.deadline <= now then None else c.request)
  {
  }

  // ---------------------------------------------------------------- a lost submission

  /** Events one after the other, from a given state on. */
  function Runs(s: Agent, es: seq<Event>): Option<Agent>
    decreases |es|
  {
    if es == [] then Option.Some(s) else if Enabled(s, es[0]) then Runs(Do(s, es[0]), es[1..]) else None
  }

  lemma {:induction false} RunsOn(before: seq<Event>, s: Agent, es: seq<Event>)
    requires After(before) == Option.Some(s) && Runs(s, es).Some?
    ensures After(before + es) == Runs(s, es)
    decreases |es|
  {
    if es == [] {
      assert before + es == before;
    } else {
      assert (before + [es[0]])[..|before|] == before;
      RunsOn(before + [es[0]], Do(s, es[0]), es[1..]);
      assert before + es == before + [es[0]] + es[1..];
    }
  }

  /** The call in which the submission gets lost, and the restart after it. */
  function LostAndRestarted(i: Input, room: string, device: string, t: Turn, now: int): seq<Event> {
    Submission(i, room, device, t) + [Restart(now)]
  }

  function Waiting(i: Input, room: string, device: string, now: int): Cmd {
    Cmd(Reconciling, i.action, now + 3_600_000_000_000, false, i, Option.Some(Recorded(i, room)), device)
  }

  lemma LostIsKept(s: Agent, i: Input, room: string, device: string, t: Turn, later: int)
    requires i.id !in s.mem && s.clock <= t.now <= later < t.now + 3_600_000_000_000
    requires t.save == Kept && t.again == Kept && t.answer == Unsure(false)
    ensures var r := Runs(s, LostAndRestarted(i, room, device, t, later));
            r.Some? && r.value.clock == later && i.id in r.value.mem
              && r.value.mem[i.id] == Waiting(i, room, device, t.now)
  {
    var es := LostAndRestarted(i, room, device, t, later);
    var c := Waiting(i, room, device, t.now);
    assert es == [Submit(i, room, device, t.now, Kept), Move(t.current), Send(i.id, t.report), Move(t.after),
                  Settle(i.id, c, Kept), Restart(later)];
    var s1 := Do(s, es[0]);
    var s2 := Do(s1, es[1]);
    var s3 := Do(s2, es[2]);
    var s4 := Do(s3, es[3]);
    var s5 := Do(s4, es[4]);
    var s6 := Do(s5, es[5]);
    assert es[1..][1..][1..][1..][1..][1..] == [];
    assert Runs(s6, []) == Option.Some(s6);
    assert es[1..][1..][1..][1..][1..] == [es[5]] && Runs(s5, [es[5]]) == Option.Some(s6);
    assert es[1..][1..][1..][1..][0] == es[4] && Runs(s4, es[1..][1..][1..][1..]) == Option.Some(s6);
    assert es[1..][1..][1..][0] == es[3] && Runs(s3, es[1..][1..][1..]) == Option.Some(s6);
    assert es[1..][1..][0] == es[2] && Runs(s2, es[1..][1..]) == Option.Some(s6);
    assert es[1..][0] == es[1] && Runs(s1, es[1..]) == Option.Some(s6);
  }

  /**
   * After any run: a submission is saved and sent, but its request is lost and the agent restarts. When the player
   * asks again within the hour and the server has not seen it, it goes out again: under the same key and deadline, to
   * the same path, with the same body.
   */
  lemma LostIsResent(before: seq<Event>, s: Agent, i: Input, room: string, device: string, t: Turn, later: int, u: Turn)
    requires After(before) == Option.Some(s) && i.id !in s.mem && |i.id| >= 16
    requires s.clock <= t.now <= later <= u.now < t.now + 3_600_000_000_000
    requires t.save == Kept && t.again == Kept && t.answer == Unsure(false)
    requires u.identity == Option.Some(device) && u.found == NotFound
    requires NeedsRoom(i.action) ==> Recorded(i, room).room != ""
    ensures var es := before + LostAndRestarted(i, room, device, t, later);
            && After(es).Some?
            && var s1 := After(es).value;
            && i.id in s1.mem && Sends(Steps(i, s1.mem, s1.room, device, u), i.id)
            && After(es + [Move(u.current)]).Some?
            && var s2 := After(es + [Move(u.current)]).value;
            && Enabled(s2, Send(i.id, u.report))
            && Sent(Wire(i.id, t.now + 3_600_000_000_000, Command(CommandPath(Recorded(i, room)), i.body)),
               Recorded(i, room), u.current)
               in Do(s2, Send(i.id, u.report)).sent
  {
    LostIsKept(s, i, room, device, t, later);
    RunsOn(before, s, LostAndRestarted(i, room, device, t, later));
    var es := before + LostAndRestarted(i, room, device, t, later);
    var s1 := After(es).value;
    ResentExactly(i, s1.mem, s1.room, device, u);
    assert (es + [Move(u.current)])[..|es|] == es;
    var s2 := After(es + [Move(u.current)]).value;
    assert s2.mem == s1.mem;
    Goes(s2, i, room, device, t.now, u.report);
  }

  lemma Goes(s: Agent, i: Input, room: string, device: string, now: int, report: Option<string>)
    requires i.id in s.mem && s.mem[i.id] == Waiting(i, room, device, now)
    requires NeedsRoom(i.action) ==> Recorded(i, room).room != ""
    ensures Sent(Wire(i.id, now + 3_600_000_000_000, Command(CommandPath(Recorded(i, room)), i.body)),
            Recorded(i, room), s.room)
            in Do(s, Send(i.id, report)).sent
  {
    var w := Wire(i.id, now + 3_600_000_000_000, Command(CommandPath(Recorded(i, room)), i.body));
    assert w in Dispatch(i.id, s.mem[i.id].deadline, Recorded(i, room), s.room, report);
  }
}
