/** Refresh tokens: the session table, and logging in, refreshing and logging out as steps over it. */
module Sessions {
  import opened Outcomes
  import opened Uuids

  type Token = string

  datatype Session = Session(token: Token, userID: Uuid, expiresAt: int)

  type Table = map<Token, Session>

  /** Thirty days, in seconds. */
  const LIFETIME := 30 * 24 * 60 * 60

  /** IsExpired looks at the clock strictly after the expiry. */
  predicate IsExpired(s: Session, now: int) {
    now > s.expiresAt
  }

  /** Every session is kept under its own non-empty token. */
  ghost predicate ValidSessions(t: Table) {
    forall k :: k in t ==> t[k].token == k && k != "" && t[k].userID != NIL
  }

  class SessionRepository {
    var store: Table

    constructor ()
      ensures store == map[]
    {
      store := map[];
    }

    method Save(s: Session)
      modifies this
      ensures store == old(store)[s.token := s]
    {
      store := store[s.token := s];
    }

    method FindByToken(t: Token) returns (r: Option<Session>)
      ensures r == if t in store then Some(store[t]) else None
    {
      r := if t in store then Some(store[t]) else None;
    }

    method Delete(t: Token)
      modifies this
      ensures store == Without(old(store), t)
    {
      store := Without(store, t);
    }

    /** Deletes while ranging over the map, in any order. */
    method DeleteByUserID(userID: Uuid)
      modifies this
      ensures store == map k | k in old(store) && old(store)[k].userID != userID :: old(store)[k]
    {
      ghost var before := store;
      var todo := store.Keys;
      while todo != {}
        invariant todo <= before.Keys
        invariant forall k :: k in store <==> k in before && (k in todo || before[k].userID != userID)
        invariant forall k :: k in store ==> store[k] == before[k]
      {
        var k :| k in todo;
        todo := todo - {k};
        if store[k].userID == userID {
          store := Without(store, k);
        }
      }
    }
  }

  // ---- the three calls, on values; what the user service, the hasher, the signer and the random source say is given

  /** session.Service.Create with a token drawn from the random source, if it delivers. */
  function Created(userID: Uuid, now: int, drawn: Option<Token>): Result<Session> {
    if drawn.None? then Err(StoreFailure)
    else if drawn.value == "" then Err(EmptyToken)
    else if userID == NIL then Err(EmptyUserId)
    else Ok(Session(drawn.value, userID, now + LIFETIME))
  }

  function LoggedIn(t: Table, user: Option<Uuid>, passwordOk: bool, signed: bool, now: int,
                    drawn: Option<Token>): (Table, Result<Session>) {
    if user.None? || !passwordOk then (t, Err(InvalidCredentials))
    else if !signed then (t, Err(StoreFailure))
    else
      var s := Created(user.value, now, drawn);
      if s.Err? then (t, s) else (t[s.value.token := s.value], s)
  }

  function Refreshed(t: Table, token: Token, userExists: bool, signed: bool, now: int, drawn: Option<Token>): (Table,
                     Result<Session>) {
    if token !in t then (t, Err(InvalidRefreshToken))
    else if IsExpired(t[token], now) then (Without(t, token), Err(InvalidRefreshToken))
    else if !userExists then (t, Err(UserNotFound))
    else if !signed then (t, Err(StoreFailure))
    else
      var s := Created(t[token].userID, now, drawn);
      if s.Err? then (t, s) else (Without(t[s.value.token := s.value], token), s)
  }

  class AuthService {
    const sessions: SessionRepository

    constructor (sessions: SessionRepository)
      ensures this.sessions == sessions
    {
      this.sessions := sessions;
    }

    method Create(userID: Uuid, now: int, drawn: Option<Token>) returns (r: Result<Session>)
      modifies sessions
      ensures r == if drawn.None? then Err(StoreFailure)
                   else if drawn.value == "" then Err(EmptyToken)
                   else if userID == NIL then Err(EmptyUserId)
                   else Ok(Session(drawn.value, userID, now + 2592000))
      ensures sessions.store == if r.Ok? then old(sessions.store)[r.value.token := r.value] else old(sessions.store)
    {
      if drawn.None? {
        return Err(StoreFailure);
      }
      if drawn.value == "" {
        return Err(EmptyToken);
      }
      if userID == NIL {
        return Err(EmptyUserId);
      }
      var s := Session(drawn.value, userID, now + LIFETIME);
      sessions.Save(s);
      r := Ok(s);
    }

    method Login(user: Option<Uuid>, passwordOk: bool, signed: bool, now: int,
                 drawn: Option<Token>) returns (r: Result<Session>)
      modifies sessions
      ensures (sessions.store, r) == LoggedIn(old(sessions.store), user, passwordOk, signed, now, drawn)
      ensures r.Ok? <==> user.Some? && passwordOk && signed && user.value != NIL && drawn.Some? && drawn.value != ""
      ensures user.None? || !passwordOk ==> r == Err(InvalidCredentials)
      ensures sessions.store == if r.Ok? then
                                  old(sessions.store)[drawn.value := Session(drawn.value, user.value, now + 2592000)]
                                else old(sessions.store)
    {
      if user.None? || !passwordOk {
        return Err(InvalidCredentials);
      }
      if !signed {
        return Err(StoreFailure);
      }
      r := Create(user.value, now, drawn);
    }

    /** The new session is created before the old one is invalidated. */
    method Refresh(token: Token, userExists: bool, signed: bool, now: int,
                   drawn: Option<Token>) returns (r: Result<Session>)
      modifies sessions
      ensures (sessions.store, r) == Refreshed(old(sessions.store), token, userExists, signed, now, drawn)
      ensures token !in old(sessions.store) || now > old(sessions.store)[token].expiresAt ==>
                r == Err(InvalidRefreshToken)
    {
      var found := sessions.FindByToken(token);
      if found.None? {
        return Err(InvalidRefreshToken);
      }
      if IsExpired(found.value, now) {
        sessions.Delete(token);
        return Err(InvalidRefreshToken);
      }
      if !userExists {
        return Err(UserNotFound);
      }
      if !signed {
        return Err(StoreFailure);
      }
      r := Create(found.value.userID, now, drawn);
      if r.Err? {
        return;
      }
      sessions.Delete(token);
    }

    method Logout(token: Token)
      modifies sessions
      ensures sessions.store == Without(old(sessions.store), token)
    {
      sessions.Delete(token);
    }
  }

  /** Exactly when a login succeeds, and what it then stores; whatever fails, the table stays as it was. */
  lemma LoginSucceedsIff(t: Table, user: Option<Uuid>, passwordOk: bool, signed: bool, now: int, drawn: Option<Token>)
    ensures var (t', r) := LoggedIn(t, user, passwordOk, signed, now, drawn);
            && (r.Ok? <==> user.Some? && passwordOk && signed && user.value != NIL && drawn.Some? && drawn.value != "")
            && (r.Ok? ==> r.value == Session(drawn.value, user.value, now + 2592000) && t' == t[drawn.value := r.value])
            && (r.Err? ==> t' == t)
            && (r == Err(InvalidCredentials) <==> user.None? || !passwordOk)
  {
  }

  /** Exactly when a refresh succeeds, and the session it hands out: thirty days for the same user. */
  lemma RefreshSucceedsIff(t: Table, token: Token, userExists: bool, signed: bool, now: int, drawn: Option<Token>)
    ensures var (t', r) := Refreshed(t, token, userExists, signed, now, drawn);
            && (r.Ok? <==> token in t && now <= t[token].expiresAt && t[token].userID != NIL && userExists && signed
                           && drawn.Some? && drawn.value != "")
            && (r.Ok? ==> r.value == Session(drawn.value, t[token].userID, now + 2592000)
                          && t' == Without(t[drawn.value := r.value], token))
            && (r == Err(UserNotFound) <==> token in t && now <= t[token].expiresAt && !userExists)
            && (r == Err(InvalidRefreshToken) <==> token !in t || now > t[token].expiresAt)
  {
  }

  /** A refresh that fails changes nothing, unless the token had expired and goes. */
  lemma FailedRefreshKeeps(t: Table, token: Token, userExists: bool, signed: bool, now: int, drawn: Option<Token>)
    requires Refreshed(t, token, userExists, signed, now, drawn).1.Err?
    ensures var t' := Refreshed(t, token, userExists, signed, now, drawn).0;
            t' == if token in t && now > t[token].expiresAt then Without(t, token) else t
  {
  }

  /** What a login hands out can be refreshed for thirty days and no longer, by a user who still exists. */
  lemma RedeemableForThirtyDays(t: Table, user: Uuid, start: int, drawn: Token, now: int, next: Token)
    requires user != NIL && drawn != "" && next != ""
    ensures var (t', r) := LoggedIn(t, Some(user), true, true, start, Some(drawn));
            && r.Ok? && r.value.token == drawn
            && (Refreshed(t', drawn, true, true, now, Some(next)).1.Ok? <==> now - start <= 2592000)
  {
  }

  // ---- how many sessions a user has

  function SessionsOf(t: Table, userID: Uuid): set<Token> {
    set k | k in t && t[k].userID == userID
  }

  /** A refresh with a fresh token trades one session of the user for another: every user's count stays. */
  lemma RefreshKeepsCounts(t: Table, token: Token, userExists: bool, signed: bool, now: int, drawn: Option<Token>,
                           userID: Uuid)
    requires var (t', r) := Refreshed(t, token, userExists, signed, now, drawn); r.Ok? && r.value.token !in t
    ensures var (t', r) := Refreshed(t, token, userExists, signed, now, drawn);
            && |SessionsOf(t', userID)| == |SessionsOf(t, userID)|
            && token !in t' && r.value.token in t' && t'[r.value.token].userID == t[token].userID
            && forall k :: k in t && k != token ==> k in t' && t'[k] == t[k]
  {
    var (t', r) := Refreshed(t, token, userExists, signed, now, drawn);
    var drawnToken := r.value.token;
    if t[token].userID == userID {
      assert SessionsOf(t', userID) == SessionsOf(t, userID) - {token} + {drawnToken};
    } else {
      assert SessionsOf(t', userID) == SessionsOf(t, userID);
    }
  }

  /** Drawing the very token that is being refreshed loses the session: freshness is needed. */
  lemma StaleDrawLosesSession(t: Table, token: Token, now: int)
    requires ValidSessions(t) && token in t && !IsExpired(t[token], now)
    ensures var (t', r) := Refreshed(t, token, true, true, now, Some(token)); r.Ok? && r.value.token !in t'
  {
    assert token != "";
  }

  // ---- whole runs

  datatype Step =
    | Login(user: Option<Uuid>, passwordOk: bool, signed: bool, now: int, drawn: Option<Token>)
    | Refresh(token: Token, userExists: bool, signed: bool, now: int, drawn: Option<Token>)
    | Logout(token: Token)

  /** The table, every token ever drawn, and the tokens redeemed by a successful refresh, in order. */
  datatype State = State(table: Table, drawn: set<Token>, redeemed: seq<Token>)

  function DrawnBy(s: Step): Option<Token> {
    match s
    case Login(_, _, _, _, d) => d
    case Refresh(_, _, _, _, d) => d
    case Logout(_) => None
  }

  /** The random source never repeats itself. */
  predicate Fresh(s: State, step: Step) {
    DrawnBy(step).Some? ==> DrawnBy(step).value !in s.drawn
  }

  function Apply(s: State, step: Step): State {
    var drawn := if DrawnBy(step).Some? then s.drawn + {DrawnBy(step).value} else s.drawn;
    match step
    case Login(user, passwordOk, signed, now, d) =>
      State(LoggedIn(s.table, user, passwordOk, signed, now, d).0, drawn, s.redeemed)
    case Refresh(token, userExists, signed, now, d) =>
      var (t, r) := Refreshed(s.table, token, userExists, signed, now, d);
      State(t, drawn, if r.Ok? then s.redeemed + [token] else s.redeemed)
    case Logout(token) => State(Without(s.table, token), drawn, s.redeemed)
  }

  predicate FreshRun(s: State, steps: seq<Step>)
    decreases |steps|
  {
    steps == [] || (Fresh(s, steps[0]) && FreshRun(Apply(s, steps[0]), steps[1..]))
  }

  function Run(s: State, steps: seq<Step>): State
    decreases |steps|
  {
    if steps == [] then s else Run(Apply(s, steps[0]), steps[1..])
  }

  /** Redeemed tokens are distinct, were drawn once, and are out of the table for good. */
  ghost predicate Inv(s: State) {
    && ValidSessions(s.table) && s.table.Keys <= s.drawn
    && (forall i :: 0 <= i < |s.redeemed| ==> s.redeemed[i] in s.drawn && s.redeemed[i] !in s.table)
    && (forall i, j :: 0 <= i < j < |s.redeemed| ==> s.redeemed[i] != s.redeemed[j])
  }

  lemma StepKeeps(s: State, step: Step)
    requires Inv(s) && Fresh(s, step)
    ensures Inv(Apply(s, step)) && s.redeemed <= Apply(s, step).redeemed
  {
  }

  lemma {:induction false} RunKeeps(s: State, steps: seq<Step>)
    requires Inv(s) && FreshRun(s, steps)
    ensures Inv(Run(s, steps))
    decreases |steps|
  {
    if steps != [] {
      StepKeeps(s, steps[0]);
      RunKeeps(Apply(s, steps[0]), steps[1..]);
    }
  }

  /** In every run with fresh tokens each refresh token is redeemed at most once: after a success, presenting it again
      fails whatever else happened in between. */
  lemma RedeemedOnce(steps: seq<Step>, token: Token, userExists: bool, signed: bool, now: int, drawn: Option<Token>)
    requires FreshRun(State(map[], {}, []), steps)
    ensures var s := Run(State(map[], {}, []), steps);
            && (forall i, j :: 0 <= i < j < |s.redeemed| ==> s.redeemed[i] != s.redeemed[j])
            && (token in s.redeemed ==>
                  Refreshed(s.table, token, userExists, signed, now, drawn) == (s.table, Err(InvalidRefreshToken)))
  {
    RunKeeps(State(map[], {}, []), steps);
  }

  // ---- where sessions come from

  /** The session was handed out by the last of these steps: to a user who was found, with the right password; or in
      exchange for a session that had not expired, of the same user, who still existed, and which itself descends. */
  ghost predicate Descends(steps: seq<Step>, s: Session) {
    steps != []
        && (Descends(steps[..|steps| - 1], s)
            || match steps[|steps| - 1]
               case Login(user, passwordOk, signed, now, drawn) =>
                 passwordOk && signed && user == Some(s.userID) && drawn == Some(s.token)
                   && s.expiresAt == now + 2592000
               case Refresh(token, userExists, signed, now, drawn) =>
                 userExists && signed && drawn == Some(s.token) && s.expiresAt == now + 2592000
                   && exists until :: now <= until && Descends(steps[..|steps| - 1], Session(token, s.userID, until))
               case Logout(_) => false)
  }

  lemma {:induction false} RunAppend(s: State, steps: seq<Step>, step: Step)
    ensures Run(s, steps + [step]) == Apply(Run(s, steps), step)
    decreases |steps|
  {
    if steps == [] {
      assert [step][1..] == [];
      assert Run(Apply(s, step), []) == Apply(s, step);
    } else {
      assert (steps + [step])[1..] == steps[1..] + [step];
      RunAppend(Apply(s, steps[0]), steps[1..], step);
    }
  }

  lemma StepDescends(s: State, front: seq<Step>, step: Step, k: Token)
    requires ValidSessions(s.table) && forall x :: x in s.table ==> Descends(front, s.table[x])
    requires k in Apply(s, step).table
    ensures Descends(front + [step], Apply(s, step).table[k])
  {
    var steps, t, t' := front + [step], s.table, Apply(s, step).table;
    assert steps[..|steps| - 1] == front;
    match step
    case Login(user, passwordOk, signed, now, drawn) => LoginSucceedsIff(t, user, passwordOk, signed, now, drawn);
    case Refresh(token, userExists, signed, now, drawn) =>
      RefreshSucceedsIff(t, token, userExists, signed, now, drawn);
      if Refreshed(t, token, userExists, signed, now, drawn).1.Ok? {
        assert t[token] == Session(token, t[token].userID, t[token].expiresAt);
      }
    case Logout(_) =>
  }

  lemma StepKeepsValid(s: State, step: Step)
    requires ValidSessions(s.table)
    ensures ValidSessions(Apply(s, step).table)
  {
  }

  /** In every run, fresh tokens or not: each session in the table descends, through refreshes in time, from a login of
      its user with the right password. */
  lemma {:induction false} EverySessionDescends(steps: seq<Step>)
    ensures var t := Run(State(map[], {}, []), steps).table;
            ValidSessions(t) && forall k :: k in t ==> Descends(steps, t[k])
  {
    if steps != [] {
      var start, n := State(map[], {}, []), |steps| - 1;
      EverySessionDescends(steps[..n]);
      RunAppend(start, steps[..n], steps[n]);
      assert steps == steps[..n] + [steps[n]];
      StepKeepsValid(Run(start, steps[..n]), steps[n]);
      forall k | k in Run(start, steps).table
        ensures Descends(steps, Run(start, steps).table[k])
      {
        StepDescends(Run(start, steps[..n]), steps[..n], steps[n], k);
      }
    }
  }

  /** With fresh tokens a session leaves the table exactly if it is logged out, redeemed, or presented after its
      time. */
  lemma SessionGoesIff(s: State, step: Step, k: Token)
    requires Inv(s) && Fresh(s, step) && k in s.table
    ensures k in Apply(s, step).table ==> Apply(s, step).table[k] == s.table[k]
    ensures k !in Apply(s, step).table
            <==> match step
                 case Login(_, _, _, _, _) => false
                 case Refresh(token, userExists, signed, now, drawn) =>
                   token == k && (now > s.table[k].expiresAt
                                  || (userExists && signed && drawn.Some? && drawn.value != ""))
                 case Logout(token) => token == k
  {
  }
}
