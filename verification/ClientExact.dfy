/** Exactly which of the three attempts of a call are made, and what the caller and the session get. */
module ClientExact {
  import opened Bytes
  import opened Client

  /** The answer leads to another attempt: the session is to be renewed, or the fault may pass in the time left. */
  predicate Passing(t: Try) {
    t.answer.SessionRequired? || (t.answer.Transient? && t.patient)
  }

  predicate Renews(script: seq<Try>, j: int) {
    0 <= j < |script| && script[j].answer.SessionRequired?
  }

  /** A token is there without logging in: the session's at first, later the last one used unless it was refused. */
  predicate HasToken(s: Session, i: nat, script: seq<Try>, j: nat) {
    if j == i then s.token.Some? else !Renews(script, j - 1)
  }

  predicate GetsToken(s: Session, i: nat, script: seq<Try>, j: nat)
    requires j < |script|
  {
    HasToken(s, i, script, j) || script[j].login.Token?
  }

  /** Everything before attempt n led on: passing answers, only one of them about the session. */
  predicate LeadsTo(i: nat, renewed: bool, script: seq<Try>, n: nat)
    requires n <= |script|
  {
    && (forall j :: i <= j < n ==> Passing(script[j]))
    && (forall j, k :: i <= j < k < n ==> !(Renews(script, j) && Renews(script, k)))
    && (renewed ==> forall j :: i <= j < n ==> !Renews(script, j))
  }

  /** Attempt n of a call that starts with attempt i. */
  predicate Made(s: Session, i: nat, renewed: bool, script: seq<Try>, n: nat)
    requires i <= n < |script|
  {
    && s.terminal.None? && LeadsTo(i, renewed, script, n)
    && forall j :: i <= j <= n ==> GetsToken(s, i, script, j)
  }

  lemma {:induction false} MadeExactly(s: Session, i: nat, renewed: bool, script: seq<Try>, n: nat)
    requires |script| == 3 && i <= n < 3
    ensures n - i < Attempts(s, i, renewed, script).sent <==> Made(s, i, renewed, script, n)
    decreases 3 - i
  {
    var t := script[i];
    var (start, login) := LoggedIn(s, t.login);
    assert login.Success? <==> s.terminal.None? && GetsToken(s, i, script, i);
    if login.Success? && i < n && Retries(t, i, renewed) {
      var next, again := Answered(start, t, renewed), renewed || t.answer.SessionRequired?;
      MadeExactly(next, i + 1, again, script, n);
      Shift(s, next, i, renewed, script, n);
    } else if i < n {
      assert Renews(script, i) <==> t.answer.SessionRequired?;
      assert LeadsTo(i, renewed, script, n) ==> Passing(script[i]);
    }
  }

  /** What the first attempt leaves to the others. */
  lemma Shift(s: Session, next: Session, i: nat, renewed: bool, script: seq<Try>, n: nat)
    requires |script| == 3 && i < n < 3 && Passing(script[i]) && !(renewed && Renews(script, i))
    requires s.terminal.None? && next.terminal.None? && GetsToken(s, i, script, i)
    requires next.token.Some? <==> !Renews(script, i)
    ensures Made(s, i, renewed, script, n) <==> Made(next, i + 1, renewed || Renews(script, i), script, n)
  {
    forall j | i < j <= n
      ensures GetsToken(s, i, script, j) <==> GetsToken(next, i + 1, script, j)
    {
    }
    LeadsOn(i, renewed, script, n);
    if Made(next, i + 1, renewed || Renews(script, i), script, n) {
      forall j | i <= j <= n
        ensures GetsToken(s, i, script, j)
      {
        assert j > i ==> GetsToken(next, i + 1, script, j);
      }
    }
    if Made(s, i, renewed, script, n) {
      var k := i + 1;
      forall j | k <= j <= n
        ensures GetsToken(next, k, script, j)
      {
        assert GetsToken(s, i, script, j);
      }
    }
  }

  lemma LeadsOn(i: nat, renewed: bool, script: seq<Try>, n: nat)
    requires i < n <= |script| && Passing(script[i]) && !(renewed && Renews(script, i))
    ensures LeadsTo(i, renewed, script, n) <==> LeadsTo(i + 1, renewed || Renews(script, i), script, n)
  {
  }

  // ---------------------------------------------------------------- the outcome

  /** The answer's own result. */
  predicate Tells(o: Outcome, a: Answer) {
    match a
    case Accepted(data) => o == Success(data)
    case EndsIdentity(code) => o == Failure(code)
    case SessionRequired(code) => o == Failure(code)
    case Refused(code) => o == Failure(code)
    case Transient(code) => o == Failure(code)
    case Cut(code) => o == Failure(code)
  }

  /** A login that is refused ends the call, and the identity if it says so. */
  predicate LoginEnds(r: Ran, t: Try) {
    t.login.Denied? && r.outcome == Failure(t.login.code)
    && r.session == Session(None, if t.login.ends then Some(t.login.code) else None)
  }

  /** What an answered last attempt leaves: an ended identity, no session, or the token that was used. */
  predicate AnswerEnds(r: Ran, t: Try, first: bool) {
    && Tells(r.outcome, t.answer)
    && match t.answer
       case EndsIdentity(code) => r.session == Session(None, Some(code))
       case SessionRequired(_) => r.session.terminal.None? && (r.session.token.None? <==> first)
       case _ => r.session.terminal.None? && r.session.token.Some?
  }

  /** No answer before attempt n was about the session. */
  predicate FirstRenewal(i: nat, renewed: bool, script: seq<Try>, n: nat) {
    !renewed && forall j :: i <= j < n ==> !Renews(script, j)
  }

  /** A call for an ended identity tells so; one that led on to an attempt that was not made failed to log in; any
      other has the result of the last attempt. */
  predicate EndsRight(s: Session, i: nat, renewed: bool, script: seq<Try>, r: Ran)
    requires i + r.sent <= |script|
  {
    if s.terminal.Some? then r == Ran(s, 0, Failure(s.terminal.value))
    else if i + r.sent < |script| && LeadsTo(i, renewed, script, i + r.sent) then LoginEnds(r, script[i + r.sent])
    else r.sent > 0 && AnswerEnds(r, script[i + r.sent - 1], FirstRenewal(i, renewed, script, i + r.sent - 1))
  }

  lemma {:induction false} OutcomeExactly(s: Session, i: nat, renewed: bool, script: seq<Try>)
    requires |script| == 3 && i < 3
    ensures EndsRight(s, i, renewed, script, Attempts(s, i, renewed, script))
    decreases 3 - i
  {
    var t, r := script[i], Attempts(s, i, renewed, script);
    var (start, login) := LoggedIn(s, t.login);
    assert Renews(script, i) <==> t.answer.SessionRequired?;
    if login.Success? {
      if Retries(t, i, renewed) {
        var next, again := Answered(start, t, renewed), renewed || t.answer.SessionRequired?;
        OutcomeExactly(next, i + 1, again, script);
        Later(next, i, renewed, script, Attempts(next, i + 1, again, script), r);
      } else {
        assert LeadsTo(i, renewed, script, i + 1) ==> Passing(script[i]);
      }
    }
  }

  lemma Later(next: Session, i: nat, renewed: bool, script: seq<Try>, rest: Ran, r: Ran)
    requires |script| == 3 && i < 2 && Passing(script[i]) && !(renewed && Renews(script, i))
    requires rest.sent <= 2 - i && next.terminal.None?
    requires EndsRight(next, i + 1, renewed || Renews(script, i), script, rest)
    requires r == Ran(rest.session, rest.sent + 1, rest.outcome)
    ensures forall s: Session :: s.terminal.None? ==> EndsRight(s, i, renewed, script, r)
  {
    var n := i + r.sent;
    LeadsOn(i, renewed, script, n);
    if n - 1 > i {
      assert FirstRenewal(i, renewed, script, n - 1)
        <==> FirstRenewal(i + 1, renewed || Renews(script, i), script, n - 1);
    }
  }

  /** The token a call ends with is the one it had, or the last one it logged in for. */
  lemma {:induction false} TokenExactly(s: Session, i: nat, renewed: bool, script: seq<Try>)
    requires |script| == 3 && i < 3
    ensures var r := Attempts(s, i, renewed, script);
            r.session.token.Some? ==>
              || r.session.token == s.token
              || exists j :: i <= j < i + r.sent && script[j].login == Token(r.session.token.value)
    decreases 3 - i
  {
    var t, r := script[i], Attempts(s, i, renewed, script);
    var (start, login) := LoggedIn(s, t.login);
    if login.Success? && Retries(t, i, renewed) {
      TokenExactly(Answered(start, t, renewed), i + 1, renewed || t.answer.SessionRequired?, script);
    } else if login.Success? && s.token.None? {
      assert i < i + r.sent && script[i].login == Token(start.token.value);
    }
  }

  /** Exactly the attempts that the script leads to are made, at most three, and the last one made decides. */
  lemma CalledExactly(s: Session, script: seq<Try>)
    requires |script| == 3
    ensures var r := Attempts(s, 0, false, script);
            && r.sent <= 3 && (forall n :: 0 <= n < 3 ==> (n < r.sent <==> Made(s, 0, false, script, n)))
            && EndsRight(s, 0, false, script, r)
  {
    forall n | 0 <= n < 3
      ensures n < Attempts(s, 0, false, script).sent <==> Made(s, 0, false, script, n)
    {
      MadeExactly(s, 0, false, script, n);
    }
    OutcomeExactly(s, 0, false, script);
  }
}
