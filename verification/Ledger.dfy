/** The durable command ledger of the agent and the requests it puts on the wire. */
module Ledger {
  import opened Bytes
  import opened Times

  /** A local request. */
  datatype Input = Input(id: string, action: string, room: string, target: string, body: string)

  datatype State = Submitting | Pending | Reconciling | Succeeded | Rejected | Unresolved

  /** A saved command. `intent` stands for its fingerprint (hashes are injective); `request` is the
      request with the room filled in, until the command is settled. */
  datatype Cmd = Cmd(state: State, action: string, deadline: int, known: bool, intent: Input, request: Option<Input>,
      device: string)

  type Commands = map<string, Cmd>

  /** What a request carries besides its key and deadline. */
  datatype Payload = Command(path: string, body: string) | Report(content: string)

  datatype Wire = Wire(key: string, deadline: int, payload: Payload)

  /** The path of a command for a room. */
  function CommandPath(i: Input): string {
    match i.action
    case "create" => "/v2/rooms"
    case "join" => "/v2/rooms/join"
    case "owner-join" => "/v2/rooms/" + i.room + "/join"
    case "invite-revoke" => "/v2/rooms/" + i.room + "/invite/revoke"
    case "account-takeover" => "/v2/me/takeover"
    case "account-logout" => "/v2/me/logout"
    case "revoke-device" => "/v2/me/devices/" + i.target + "/revoke"
    case _ => "/v2/rooms/" + i.room + "/" + i.action
  }

  predicate NeedsRoom(action: string) {
    action !in {"create", "join", "account-takeover", "account-logout", "revoke-device"}
  }

  /** The three actions that report the client version first. */
  predicate ReportsFirst(action: string) {
    action in {"create", "join", "owner-join"}
  }

  /** The room of an action: the recorded one, or the agent's room at the time of the dispatch. */
  function Resolve(i: Input, current: string): Input {
    if NeedsRoom(i.action) && i.room == "" then i.(room := current) else i
  }

  /** What one dispatch sends under the key of its command: a version report when one is due, then
      the command, unless it still has no room. */
  function Dispatch(id: string, deadline: int, i: Input, current: string, report: Option<string>): set<Wire> {
    var r := Resolve(i, current);
    (if ReportsFirst(i.action) && report.Some? then {Wire(id, deadline, Report(report.value))} else {})
    + (if NeedsRoom(r.action) && r.room == "" then {} else {Wire(id, deadline, Command(CommandPath(r), r.body))})
  }

  predicate Unfinished(s: State) {
    s.Submitting? || s.Pending? || s.Reconciling?
  }

  function Forget(c: Cmd): Cmd {
    c.(state := Unresolved, request := None)
  }

  /** loadCommands for one entry. */
  function LoadOne(c: Cmd, now: int): Cmd {
    if !(c.deadline > now) && Unfinished(c.state) then Forget(c)
    else if c.state.Submitting? then c.(state := Reconciling)
    else c
  }

  function Load(stored: Commands, now: int): Commands {
    map id | id in stored :: LoadOne(stored[id], now)
  }

  /** Entries more than an hour past their deadline are dropped before a new one is recorded. */
  function Purge(commands: Commands, now: int): Commands {
    map id | id in commands && !(now - commands[id].deadline > HOUR) :: commands[id]
  }

  function Record(i: Input, selected: string, device: string, now: int): Cmd {
    Cmd(Submitting, i.action, now + HOUR, false, i, Option.Some(if i.room == "" then i.(room := selected) else i),
      device)
  }

  predicate Busy(commands: Commands) {
    exists id <- commands :: Unfinished(commands[id].state)
  }

  /** How a dispatch ended: success, a definite refusal, or not known. */
  datatype Answer = Success | Refusal(known: bool) | Unsure(known: bool)

  function Settled(c: Cmd, a: Answer): Cmd {
    match a
    case Success => c.(state := Succeeded, known := true, request := None)
    case Refusal(known) => c.(state := Rejected, known := known, request := None)
    case Unsure(known) => c.(state := Reconciling, known := known)
  }

  /** A replay that stays undecided keeps the state it had. */
  function Replayed(c: Cmd, a: Answer): Cmd {
    match a
    case Success => c.(state := Succeeded, known := true, request := None)
    case Refusal(known) => c.(state := Rejected, known := known, request := None)
    case Unsure(known) => c.(known := known)
  }

  /** What the server says about an operation. */
  datatype Found = Recorded(succeeded: bool) | NotFound | DeviceRevoked | Expired | OtherError

  /** Asking the server and resending are decided here. */
  predicate MustReplay(c: Cmd, found: Found) {
    ((found.NotFound? && !c.known) || (c.action == "account-logout" && found.DeviceRevoked?)) && c.request.Some?
  }

  datatype Outcome = Busied | Conflict | StorageFailed | Malformed | Unconfigured | Expiry | Answered(answer: Answer)
      | Stands(cmd: Cmd)
}
