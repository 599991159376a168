/** One call to the control plane: up to three attempts under one key, deadline, path and body. */
module Client {
  import opened Bytes
  import Ledger

  const ATTEMPTS := 3

  /** An answer, as far as retrying goes. */
  datatype Answer =
    | Accepted(data: string)
    | EndsIdentity(code: string)
    | SessionRequired(code: string)
    | Refused(code: string)
    | Transient(code: string)
    | Cut(code: string)

  /** What logging in would give. */
  datatype Login = Token(token: nat) | Denied(code: string, ends: bool)

  /** One attempt's surroundings; patient says that the call's deadline leaves room for the delay. */
  datatype Try = Try(login: Login, answer: Answer, patient: bool)

  datatype Session = Session(token: Option<nat>, terminal: Option<string>)

  datatype Outcome = Success(data: string) | Failure(code: string)

  /** login: a refused identity is not tried again, a valid token is used again. */
  function LoggedIn(s: Session, login: Login): (Session, Outcome) {
    if s.terminal.Some? then (s, Failure(s.terminal.value))
    else if s.token.Some? then (s, Success(""))
    else match login
    case Token(t) => (s.(token := Some(t)), Success(""))
    case Denied(code, ends) => (if ends then s.(terminal := Some(code)) else s, Failure(code))
  }

  /** Whether the answer to attempt i leads to another one. A session may be renewed once. */
  predicate Retries(t: Try, i: nat, renewed: bool) {
    match t.answer
    case SessionRequired(_) => !renewed && i < ATTEMPTS - 1
    case Transient(_) => i < ATTEMPTS - 1 && t.patient
    case _ => false
  }

  function Answered(s: Session, t: Try, renewed: bool): Session {
    match t.answer
    case EndsIdentity(code) => Session(None, Some(code))
    case SessionRequired(_) => if renewed then s else s.(token := None)
    case _ => s
  }

  function Verdict(a: Answer): Outcome {
    match a
    case Accepted(data) => Success(data)
    case EndsIdentity(code) => Failure(code)
    case SessionRequired(code) => Failure(code)
    case Refused(code) => Failure(code)
    case Transient(code) => Failure(code)
    case Cut(code) => Failure(code)
  }

  datatype Ran = Ran(session: Session, sent: nat, outcome: Outcome)

  /** The attempts from the i-th on. */
  function Attempts(s: Session, i: nat, renewed: bool, script: seq<Try>): (r: Ran)
    requires |script| == ATTEMPTS && i < ATTEMPTS
    ensures r.sent <= ATTEMPTS - i
    decreases ATTEMPTS - i
  {
    var t := script[i];
    var (start, login) := LoggedIn(s, t.login);
    if login.Failure? then Ran(start, 0, login)
    else if Retries(t, i, renewed) then
      var rest := Attempts(Answered(start, t, renewed), i + 1, renewed || t.answer.SessionRequired?, script);
      Ran(rest.session, rest.sent + 1, rest.outcome)
    else Ran(Answered(start, t, renewed), 1, Verdict(t.answer))
  }

  /**
   * The call succeeds exactly when the last request sent was accepted; every earlier one was answered
   * with something passing, and at most one of those answers asked for a new session.
   */
  lemma {:induction false} LastAnswerDecides(s: Session, i: nat, renewed: bool, script: seq<Try>)
    requires |script| == ATTEMPTS && i < ATTEMPTS
    ensures var r := Attempts(s, i, renewed, script);
            && (r.outcome.Success? <==> r.sent > 0 && script[i + r.sent - 1].answer.Accepted?)
            && (r.outcome.Success? ==> script[i + r.sent - 1].answer == Accepted(r.outcome.data))
            && (forall j :: i <= j < i + r.sent - 1 ==>
               script[j].answer.SessionRequired? || (script[j].answer.Transient? && script[j].patient))
            && (forall j, k :: i <= j < k < i + r.sent - 1 ==>
               !(script[j].answer.SessionRequired? && script[k].answer.SessionRequired?))
            && (renewed ==> forall j :: i <= j < i + r.sent - 1 ==> !script[j].answer.SessionRequired?)
    decreases ATTEMPTS - i
  {
    var t := script[i];
    var (start, login) := LoggedIn(s, t.login);
    if login.Success? && Retries(t, i, renewed) {
      LastAnswerDecides(Answered(start, t, renewed), i + 1, renewed || t.answer.SessionRequired?, script);
    }
  }

  /** An identity that has ended is remembered, and from then on nothing is sent for it. */
  lemma {:induction false} EndedIsSilent(s: Session, i: nat, renewed: bool, script: seq<Try>, j: nat, again: seq<Try>)
    requires |script| == ATTEMPTS && i <= j < ATTEMPTS && |again| == ATTEMPTS
    requires j < i + Attempts(s, i, renewed, script).sent && script[j].answer.EndsIdentity?
    ensures var r := Attempts(s, i, renewed, script);
            && r.session == Session(None, Some(script[j].answer.code)) && r.outcome == Failure(script[j].answer.code)
            && Attempts(r.session, 0, false, again) == Ran(r.session, 0, r.outcome)
    decreases ATTEMPTS - i
  {
    var t := script[i];
    var (start, login) := LoggedIn(s, t.login);
    if i < j {
      EndedIsSilent(Answered(start, t, renewed), i + 1, renewed || t.answer.SessionRequired?, script, j, again);
    }
  }

  /** n copies of one request. */
  function Copies(n: nat, w: Ledger.Wire): (r: seq<Ledger.Wire>)
    ensures |r| == n && forall i :: 0 <= i < n ==> r[i] == w
  {
    if n == 0 then [] else Copies(n - 1, w) + [w]
  }

  class Api {
    var token: Option<nat>
    var terminal: Option<string>
    ghost var log: seq<Ledger.Wire>

    constructor ()
      ensures State() == Session(None, None) && log == []
    {
      token, terminal, log := None, None, [];
    }

    function State(): Session
      reads this
    {
      Session(token, terminal)
    }

    /** login. */
    method LogIn(login: Login) returns (fault: Option<string>)
      modifies `token, `terminal
      ensures var (s, r) := LoggedIn(old(State()), login);
              State() == s && fault == (match r case Success(_) => None case Failure(code) => Some(code))
    {
      if terminal.Some? {
        return terminal;
      }
      if token.Some? {
        return None;
      }
      match login {
        case Token(t) =>
          token, fault := Some(t), None;
        case Denied(code, ends) =>
          fault := Some(code);
          if ends {
            terminal := fault;
          }
      }
    }

    /** CallResult: whatever is sent, it is the same request every time. */
    method Call(key: string, deadline: int, path: string, body: string, script: seq<Try>) returns (outcome: Outcome)
      requires |script| == ATTEMPTS
      modifies this
      ensures var r := Attempts(old(State()), 0, false, script);
              && State() == r.session && outcome == r.outcome
              && log == old(log) + Copies(r.sent, Ledger.Wire(key, deadline, Ledger.Command(path, body)))
    {
      ghost var wire := Ledger.Wire(key, deadline, Ledger.Command(path, body));
      ghost var all := Attempts(State(), 0, false, script);
      var renewed, i := false, 0;
      outcome := Failure("");
      while i < ATTEMPTS
        invariant 0 <= i <= ATTEMPTS
        invariant log == old(log) + Copies(i, wire)
        invariant i < ATTEMPTS ==>
                  all == (var r := Attempts(State(), i, renewed, script); Ran(r.session, i + r.sent, r.outcome))
        invariant i == ATTEMPTS ==> all == Ran(State(), i, outcome)
      {
        var fault := LogIn(script[i].login);
        if fault.Some? {
          return Failure(fault.value);
        }
        log := log + [wire];
        var t := script[i];
        outcome := Verdict(t.answer);
        match t.answer {
          case Accepted(_) => return;
          case EndsIdentity(code) =>
            terminal, token := Some(code), None;
            return;
          case SessionRequired(_) =>
            if renewed {
              return;
            }
            token, renewed := None, true;
          case Refused(_) => return;
          case Cut(_) => return;
          case Transient(_) =>
            if i == ATTEMPTS - 1 || !t.patient {
              return;
            }
        }
        i := i + 1;
      }
    }
  }
}
