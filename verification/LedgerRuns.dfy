/** The command protocol end to end: ledger, failing saves, crashes, moves, resends, the server's receipts. */
module LedgerRuns {
  import opened Bytes
  import opened Files
  import opened Ledger
  import opened Times
  import Receipts
  import ReceiptRuns
  import Redaction

  // ---------------------------------------------------------------- the agent

  /** One request on the wire: what was recorded for it, and the agent's room when it was dispatched. */
  datatype Sent = Sent(wire: Wire, input: Input, room: string)

  datatype Agent = Agent(mem: Commands, disk: Commands, room: string, sent: set<Sent>, clock: int)

  /** Submit records a new command, for the room selected; Send is any dispatch of a recorded command,
      the first one or a resend; Settle writes an answer down; Move changes the agent's room; Restart
      loses the memory. */
  datatype Event =
    | Submit(input: Input, selected: string, device: string, now: int, save: Save)
    | Send(id: string, report: Option<string>)
    | Settle(id: string, cmd: Cmd, save: Save)
    | Move(room: string)
    | Restart(now: int)

  const START := Agent(map[], map[], "", {}, 0)

  predicate Enabled(s: Agent, e: Event) {
    match e
    case Submit(i, _, _, now, _) => i.id !in s.mem && now >= s.clock
    case Send(id, _) => id in s.mem && s.mem[id].request.Some?
    case Settle(id, c, _) =>
      && id in s.mem && c.deadline == s.mem[id].deadline
      && (c.request == s.mem[id].request || c.request == None)
    case Move(_) => true
    case Restart(now) => now >= s.clock
  }

  function Dispatched(s: Agent, id: string, report: Option<string>): set<Sent>
    requires id in s.mem && s.mem[id].request.Some?
  {
    var c := s.mem[id];
    set w <- Dispatch(id, c.deadline, c.request.value, s.room, report) :: Sent(w, c.request.value, s.room)
  }

  function Do(s: Agent, e: Event): Agent
    requires Enabled(s, e)
  {
    match e
    case Submit(i, selected, device, now, save) =>
      var kept := Purge(s.mem, now);
      var mem := kept[i.id := Record(i, selected, device, now)];
      s.(mem := if save.Kept? then mem else kept, disk := Written(save, s.disk, mem), clock := now)
    case Send(id, report) => s.(sent := s.sent + Dispatched(s, id, report))
    case Settle(id, c, save) =>
      var mem := s.mem[id := c];
      s.(mem := mem, disk := Written(save, s.disk, mem))
    case Move(room) => s.(room := room)
    case Restart(now) => s.(mem := Load(s.disk, now), clock := now)
  }

  function After(es: seq<Event>): Option<Agent> {
    if es == [] then Option.Some(START)
    else
      var before := After(es[..|es| - 1]);
      if before.Some? && Enabled(before.value, es[|es| - 1]) then Option.Some(Do(before.value, es[|es| - 1])) else None
  }

  // ---------------------------------------------------------------- the invariant

  /** What is in memory is on disk. What is only on disk is overdue, or was refused to its user and never sent. */
  ghost predicate EntryOk(s: Agent, id: string) {
    && (id in s.mem ==>
         && id in s.disk && s.disk[id].deadline == s.mem[id].deadline
         && (s.mem[id].request.Some? ==> s.disk[id].request == s.mem[id].request))
    && (id in s.disk ==> s.disk[id].deadline <= s.clock + HOUR)
  }

  ghost predicate SentOk(s: Agent, x: Sent) {
    var (key, deadline) := (x.wire.key, x.wire.deadline);
    && deadline <= s.clock + HOUR
    && ((key in s.mem && s.mem[key].deadline == deadline) || deadline + HOUR < s.clock)
    && (key in s.disk ==> deadline == s.disk[key].deadline || deadline + 2 * HOUR < s.disk[key].deadline)
    && (key in s.disk && s.disk[key].deadline == deadline && s.disk[key].request.Some? ==>
       x.input == s.disk[key].request.value)
    && x.wire in Dispatch(key, deadline, x.input, x.room, ReportOf(x.wire))
  }

  function ReportOf(w: Wire): Option<string> {
    if w.payload.Report? then Option.Some(w.payload.content) else None
  }

  /** Two requests of one key were recorded as the same command, or at least two hours apart. */
  predicate Compatible(a: Sent, b: Sent) {
    a.wire.key == b.wire.key ==>
      && (a.wire.deadline == b.wire.deadline ==> a.input == b.input)
      && (a.wire.deadline < b.wire.deadline ==> a.wire.deadline + 2 * HOUR < b.wire.deadline)
  }

  ghost predicate Inv(s: Agent) {
    && (forall id :: EntryOk(s, id))
    && (forall x <- s.sent :: SentOk(s, x))
    && (forall a <- s.sent, b <- s.sent :: Compatible(a, b))
  }

  lemma SubmitKeeps(s: Agent, e: Event)
    requires Inv(s) && Enabled(s, e) && e.Submit?
    ensures Inv(Do(s, e))
  {
    var s' := Do(s, e);
    forall id
      ensures EntryOk(s', id)
    {
      assert EntryOk(s, id);
    }
    forall x | x in s'.sent
      ensures SentOk(s', x)
    {
      assert SentOk(s, x) && EntryOk(s, x.wire.key);
    }
  }

  lemma NewIsOk(s: Agent, id: string, report: Option<string>, x: Sent)
    requires Inv(s) && id in s.mem && s.mem[id].request.Some? && x in Dispatched(s, id, report)
    ensures SentOk(s, x) && x.wire.key == id && x.wire.deadline == s.mem[id].deadline
            && x.input == s.mem[id].request.value
  {
    assert EntryOk(s, id);
  }

  lemma SendKeeps(s: Agent, e: Event)
    requires Inv(s) && Enabled(s, e) && e.Send?
    ensures Inv(Do(s, e))
  {
    var s' := Do(s, e);
    assert EntryOk(s, e.id);
    forall id
      ensures EntryOk(s', id)
    {
      assert EntryOk(s, id);
    }
    forall x | x in s'.sent
      ensures SentOk(s', x)
      ensures x in s.sent || (x.wire.key == e.id && x.wire.deadline == s.mem[e.id].deadline
              && x.input == s.mem[e.id].request.value)
    {
      if x in s.sent {
        assert SentOk(s, x);
      } else {
        NewIsOk(s, e.id, e.report, x);
      }
    }
    forall a, b | a in s'.sent && b in s'.sent
      ensures Compatible(a, b)
    {
      if a in s.sent && b in s.sent {
        assert Compatible(a, b);
      } else {
        assert a in s.sent ==> SentOk(s, a);
        assert b in s.sent ==> SentOk(s, b);
      }
    }
  }

  lemma SettleKeeps(s: Agent, e: Event)
    requires Inv(s) && Enabled(s, e) && e.Settle?
    ensures Inv(Do(s, e))
  {
    var s' := Do(s, e);
    forall id
      ensures EntryOk(s', id)
    {
      assert EntryOk(s, id);
    }
    forall x | x in s'.sent
      ensures SentOk(s', x)
    {
      assert SentOk(s, x) && EntryOk(s, x.wire.key);
    }
  }

  lemma RestartKeeps(s: Agent, e: Event)
    requires Inv(s) && Enabled(s, e) && e.Restart?
    ensures Inv(Do(s, e))
  {
    var s' := Do(s, e);
    forall id
      ensures EntryOk(s', id)
    {
      assert EntryOk(s, id);
    }
    forall x | x in s'.sent
      ensures SentOk(s', x)
    {
      assert SentOk(s, x) && EntryOk(s, x.wire.key);
    }
  }

  lemma MoveKeeps(s: Agent, room: string)
    requires Inv(s)
    ensures Inv(s.(room := room))
  {
    var s' := s.(room := room);
    forall id
      ensures EntryOk(s', id)
    {
      assert EntryOk(s, id);
    }
    forall x | x in s'.sent
      ensures SentOk(s', x)
    {
      assert SentOk(s, x);
    }
  }

  lemma {:induction false} RunKeeps(es: seq<Event>)
    requires After(es).Some?
    ensures Inv(After(es).value)
  {
    if es != [] {
      var init, e := es[..|es| - 1], es[|es| - 1];
      RunKeeps(init);
      var s := After(init).value;
      match e
      case Submit(_, _, _, _, _) => SubmitKeeps(s, e);
      case Send(_, _) => SendKeeps(s, e);
      case Settle(_, _, _) => SettleKeeps(s, e);
      case Move(room) => MoveKeeps(s, room);
      case Restart(_) => RestartKeeps(s, e);
    }
  }

  // ---------------------------------------------------------------- what a key stands for

  /** Over any run of submissions, resends, failing saves, moves and crashes: all requests ever sent under
      one key and deadline were recorded as one command, and a key is used again only with a deadline
      more than two hours later. */
  lemma OneRecordPerDeadline(es: seq<Event>, a: Sent, b: Sent)
    requires After(es).Some? && a in After(es).value.sent && b in After(es).value.sent && a.wire.key == b.wire.key
    ensures a.wire.deadline == b.wire.deadline ==> a.input == b.input
    ensures a.wire.deadline < b.wire.deadline ==> a.wire.deadline + 2 * HOUR < b.wire.deadline
  {
    RunKeeps(es);
    assert Compatible(a, b);
  }

  /** Nothing is sent that is not on disk, under the deadline and with the content recorded there. */
  lemma SavedBeforeSent(es: seq<Event>, id: string, report: Option<string>)
    requires After(es + [Send(id, report)]).Some?
    ensures After(es).Some? && id in After(es).value.disk
    ensures var c := After(es).value.disk[id];
            && c.request.Some?
            && forall x <- After(es + [Send(id, report)]).value.sent :: x !in After(es).value.sent ==>
                 x.wire.key == id && x.wire.deadline == c.deadline && x.input == c.request.value
  {
    assert (es + [Send(id, report)])[..|es|] == es;
    RunKeeps(es);
    assert EntryOk(After(es).value, id);
  }

  /** The recorded command leaves its room open. */
  predicate RoomOpen(i: Input) {
    NeedsRoom(i.action) && i.room == ""
  }

  lemma SentCommand(es: seq<Event>, x: Sent)
    requires After(es).Some? && x in After(es).value.sent && x.wire.payload.Command?
    ensures x.wire.payload == Command(CommandPath(Resolve(x.input, x.room)), x.input.body)
    ensures RoomOpen(x.input) ==> x.room != ""
  {
    RunKeeps(es);
    assert SentOk(After(es).value, x);
  }

  lemma CutEqual<T>(pre: seq<T>, a: seq<T>, b: seq<T>, post: seq<T>)
    requires pre + a + post == pre + b + post
    ensures a == b
  {
    assert |a| == |b|;
    forall k | 0 <= k < |a|
      ensures a[k] == b[k]
    {
      assert (pre + a + post)[|pre| + k] == a[k];
      assert (pre + b + post)[|pre| + k] == b[k];
    }
  }

  /** A path that names a room names just one. */
  lemma PathNamesRoom(i: Input, a: string, b: string)
    requires NeedsRoom(i.action) && CommandPath(i.(room := a)) == CommandPath(i.(room := b))
    ensures a == b
  {
    var post := if i.action == "owner-join" then "/join" else if i.action == "invite-revoke" then "/invite/revoke"
      else "/" + i.action;
    forall r
      ensures CommandPath(i.(room := r)) == "/v2/rooms/" + r + post
    {
    }
    CutEqual("/v2/rooms/", a, b, post);
  }

  /** Two commands sent under one key and deadline are identical exactly when the record names its room,
      or needs none, or both were dispatched from the same room. */
  lemma ResendsAreIdenticalExactly(es: seq<Event>, a: Sent, b: Sent)
    requires After(es).Some? && a in After(es).value.sent && b in After(es).value.sent
    requires a.wire.key == b.wire.key && a.wire.deadline == b.wire.deadline
    requires a.wire.payload.Command? && b.wire.payload.Command?
    ensures a.wire == b.wire <==> !RoomOpen(a.input) || a.room == b.room
  {
    OneRecordPerDeadline(es, a, b);
    SentCommand(es, a);
    SentCommand(es, b);
    if RoomOpen(a.input) && a.wire == b.wire {
      PathNamesRoom(a.input, a.room, b.room);
    }
  }

  // ---------------------------------------------------------------- where the claims fail

  ghost function Stage(es: seq<Event>, n: nat): Option<Agent>
    requires n <= |es|
  {
    After(es[..n])
  }

  lemma Next(es: seq<Event>, n: nat)
    requires n < |es| && Stage(es, n).Some? && Enabled(Stage(es, n).value, es[n])
    ensures Stage(es, n + 1) == Option.Some(Do(Stage(es, n).value, es[n]))
  {
    assert es[..n + 1][..n] == es[..n];
  }

  /** A kick submitted while no room is selected; its first dispatch finds no room; after a crash it is sent
      from one room, the reply is lost, and it is sent again from another. */
  function Wandering(i: Input): seq<Event> {
    [Submit(i, "", "device", 0, Kept), Send(i.id, None), Restart(1), Move("a"), Send(i.id, None), Move("b"),
      Send(i.id, None)]
  }

  lemma CrashedUnplaced(i: Input)
    requires i.action == "kick" && i.room == ""
    ensures var c := Record(i, "", "device", 0);
            Stage(Wandering(i), 3)
            == Option.Some(Agent(map[i.id := c.(state := Reconciling)], map[i.id := c], "", {}, 1))
  {
    var es, c := Wandering(i), Record(i, "", "device", 0);
    assert es[..0] == [];
    Next(es, 0);
    assert Stage(es, 1) == Option.Some(Agent(map[i.id := c], map[i.id := c], "", {}, 0));
    Next(es, 1);
    assert Dispatched(Stage(es, 1).value, i.id, None) == {};
    assert Stage(es, 2).value.sent == {};
    Next(es, 2);
    assert Load(map[i.id := c], 1) == map[i.id := c.(state := Reconciling)];
  }

  lemma SentFrom(s: Agent, i: Input)
    requires i.id in s.mem && s.mem[i.id].request == Option.Some(i) && i.action == "kick" && i.room == ""
             && s.room != ""
    ensures Dispatched(s, i.id, None)
            == {Sent(Wire(i.id, s.mem[i.id].deadline, Command("/v2/rooms/" + s.room + "/kick", i.body)), i, s.room)}
  {
    assert "/v2/rooms/" + s.room + "/" + "kick" == "/v2/rooms/" + s.room + "/kick";
    assert Dispatch(i.id, s.mem[i.id].deadline, i, s.room, None)
           == {Wire(i.id, s.mem[i.id].deadline, Command("/v2/rooms/" + s.room + "/kick", i.body))};
  }

  /** Identical resends fail in a run of the code: one key, one deadline, two rooms. */
  lemma ResendMayMove(i: Input)
    requires i.action == "kick" && i.room == ""
    ensures After(Wandering(i)).Some?
    ensures var sent := After(Wandering(i)).value.sent;
            && Sent(Wire(i.id, HOUR, Command("/v2/rooms/" + "a" + "/kick", i.body)), i, "a") in sent
            && Sent(Wire(i.id, HOUR, Command("/v2/rooms/" + "b" + "/kick", i.body)), i, "b") in sent
  {
    var es := Wandering(i);
    CrashedUnplaced(i);
    Next(es, 3);
    SentFrom(Stage(es, 4).value, i);
    Next(es, 4);
    Next(es, 5);
    SentFrom(Stage(es, 6).value, i);
    Next(es, 6);
    assert es[..7] == es;
  }

  /** A submission whose save fails is refused to its user; after a restart before its deadline it is
      resent all the same exactly when the failed save had put the new file in place. */
  lemma RefusedButRecorded(s: Agent, i: Input, selected: string, device: string, now: int, save: Save, later: int)
    requires i.id !in s.mem && i.id !in s.disk && s.clock <= now <= later && !save.Kept?
    ensures var refused := Do(s, Submit(i, selected, device, now, save));
            && i.id !in refused.mem
            && (Enabled(Do(refused, Restart(later)), Send(i.id, None)) <==> save.Torn? && later < now + HOUR)
  {
  }

  // ---------------------------------------------------------------- the agent and the server

  function Text(p: Payload): string {
    match p
    case Command(path, body) => "POST:" + path + ":" + body
    case Report(content) => "POST:/v2/client/report:" + content
  }

  /** The room that the path names is part of the text and of the typed path. */
  function ToRequest(device: nat, path: Option<nat>, w: Wire): Receipts.Request {
    Receipts.Request(Redaction.Device(device), w.key, path, Text(w.payload), Option.Some(w.deadline))
  }

  /** Transaction i is the arrival of wire w; a wire may arrive any number of times. */
  predicate Carries<D>(server: seq<ReceiptRuns.Event<D>>, i: nat, device: nat, w: Wire)
    requires i < |server|
  {
    server[i].Mutation? && server[i].request == ToRequest(device, server[i].request.path, w)
  }

  /** One effect per command: of all arrivals of all requests sent under one key with deadlines up to two
      hours apart, over lost replies, resends from other rooms, failing saves, crashes and pruning, at
      most one runs the business function. */
  lemma OneEffectPerCommand<D>(es: seq<Event>, device: nat, db: Receipts.Tables<D>, server: seq<ReceiptRuns.Event<D>>,
      i: nat, j: nat, a: Sent, b: Sent)
    requires After(es).Some? && a in After(es).value.sent && b in After(es).value.sent
    requires a.wire.key == b.wire.key && a.wire.deadline <= b.wire.deadline <= a.wire.deadline + 2 * HOUR
    requires ReceiptRuns.SweepsNotOvertaken(server) && i < |server| && j < |server|
    requires Carries(server, i, device, a.wire) && Carries(server, j, device, b.wire)
    requires ReceiptRuns.Ran(db, server, i) && ReceiptRuns.Ran(db, server, j)
    ensures i == j
  {
    OneRecordPerDeadline(es, a, b);
    ReceiptRuns.RunsAtMostOnce(db, server, i, j);
  }

  // ---------------------------------------------------------------- when a command meets a conflict

  /** Everything that arrives under the key of q has its deadline. */
  predicate OneDeadline<D>(server: seq<ReceiptRuns.Event<D>>, q: Receipts.Request) {
    forall m :: 0 <= m < |server| && server[m].Mutation? && ReceiptRuns.SameKey(server[m].request, q) ==>
      server[m].request.deadline == q.deadline
  }

  lemma NotSweptYet<D>(server: seq<ReceiptRuns.Event<D>>, i: nat, j: nat)
    requires j < |server| && server[j].Mutation? && ReceiptRuns.SweepsNotOvertaken(server)
    requires ReceiptRuns.InTime(server[j].request.deadline, server[j].now)
    ensures !ReceiptRuns.SweptPast(server[..j], i, server[j].request.deadline.value)
  {
    forall k | 0 <= k < j && server[..j][k].Sweep?
      ensures server[..j][k].now <= server[j].request.deadline.value
    {
      assert server[k].now <= server[j].now;
    }
  }

  /** A timely, authorized command meets a conflict exactly when something else ran under its key
      before: for the ledger's own requests, a version report or the command sent from another room. */
  lemma ConflictExactly<D>(db: Receipts.Tables<D>, server: seq<ReceiptRuns.Event<D>>, j: nat)
    requires j < |server| && ReceiptRuns.Unhindered(server[j]) && ReceiptRuns.OwnCode(server[j])
    requires ReceiptRuns.InTime(server[j].request.deadline, server[j].now)
    requires ReceiptRuns.SweepsNotOvertaken(server) && OneDeadline(server, server[j].request)
    ensures ReceiptRuns.ReplyAt(db, server, j).value == Receipts.Refused("request_idempotency_conflict")
            <==> exists m :: 0 <= m < j && ReceiptRuns.RanUnder(db, server, m, server[j].request)
                             && server[m].request.request != server[j].request.request
  {
    var q := server[j].request;
    if exists m :: 0 <= m < j && ReceiptRuns.RanUnder(db, server, m, q) {
      var m :| 0 <= m < j && ReceiptRuns.RanUnder(db, server, m, q);
      var i := ReceiptRuns.TheLast(db, server, m, j, q);
      ReceiptRuns.ConflictExactly(db, server, i, j);
      NotSweptYet(server, i, j);
      forall l | 0 <= l < j && ReceiptRuns.RanUnder(db, server, l, q)
        ensures l == i
      {
        ReceiptRuns.RunsAtMostOnce(db, server, l, i);
      }
    } else {
      ReceiptRuns.NoRunNoRow(db, server, j, q);
    }
  }

  /** Where the claim that a command has one request per key fails: `create` while a version report
      is due. The report goes out under the command's key and is recorded first; the command itself
      is refused. */
  lemma ReportSpoilsCreate<D>(i: Input, content: string, device: nat, db: Receipts.Tables<D>, ok: Receipts.Business<D>)
    requires i.action == "create" && Receipts.GoodKey(i.id) && ok.Done?
    ensures var es := [Submit(i, "room", "device", 0, Kept), Send(i.id, Option.Some(content))];
            var report, create := Wire(i.id, HOUR, Report(content)), Wire(i.id, HOUR, Command("/v2/rooms", i.body));
            && After(es).Some? && (set x <- After(es).value.sent :: x.wire) == {report, create}
            && var server := [ReceiptRuns.Mutation(ToRequest(device, None, report), 0, None, ok),
                              ReceiptRuns.Mutation(ToRequest(device, None, create), 0, None, ok)];
            && ReceiptRuns.Ran(db, server, 0)
            && ReceiptRuns.ReplyAt(db, server, 1).value == Receipts.Refused("request_idempotency_conflict")
  {
    var report, create := Wire(i.id, HOUR, Report(content)), Wire(i.id, HOUR, Command("/v2/rooms", i.body));
    BothAreSent(i, content);
    var m0 := ReceiptRuns.Mutation(ToRequest(device, None, report), 0, None, ok);
    var m1 := ReceiptRuns.Mutation(ToRequest(device, None, create), 0, None, ok);
    var server := [m0, m1];
    assert server[..0] == [] && server[..1] == [m0];
    ReceiptRuns.Unfold(db, server, 0);
    TextsDiffer(content, i.body);
  }

  lemma BothAreSent(i: Input, content: string)
    requires i.action == "create"
    ensures var es := [Submit(i, "room", "device", 0, Kept), Send(i.id, Option.Some(content))];
            && After(es).Some?
            && (set x <- After(es).value.sent :: x.wire)
               == {Wire(i.id, HOUR, Report(content)), Wire(i.id, HOUR, Command("/v2/rooms", i.body))}
  {
    var es := [Submit(i, "room", "device", 0, Kept), Send(i.id, Option.Some(content))];
    assert es[..0] == [];
    Next(es, 0);
    Next(es, 1);
    assert es[..2] == es;
    var s := Stage(es, 1).value;
    var r := s.mem[i.id].request.value;
    var report, create := Wire(i.id, HOUR, Report(content)), Wire(i.id, HOUR, Command("/v2/rooms", i.body));
    assert Dispatch(i.id, HOUR, r, "", Option.Some(content)) == {report, create};
    assert After(es).value.sent == {Sent(report, r, ""), Sent(create, r, "")};
  }

  lemma TextsDiffer(content: string, body: string)
    ensures Text(Report(content)) != Text(Command("/v2/rooms", body))
  {
    assert Text(Report(content))[9] == 'c';
    assert Text(Command("/v2/rooms", body))[9] == 'r';
  }

  /** Without a due report, everything sent under a key is the command. */
  lemma {:induction false} NoReportNoStranger(es: seq<Event>, x: Sent)
    requires After(es).Some? && x in After(es).value.sent
    requires forall n :: 0 <= n < |es| && es[n].Send? ==> es[n].report.None?
    ensures x.wire.payload.Command?
  {
    if es != [] {
      var init, e := es[..|es| - 1], es[|es| - 1];
      assert es[|init|] == e;
      if x in After(init).value.sent {
        NoReportNoStranger(init, x);
      }
    }
  }
}
