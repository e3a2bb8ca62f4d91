/**
 The account, credential and session lifecycle as a whole: the routes as
 commands, their sequential composition, the invariant every route keeps,
 and the properties that relate several routes (a created account can log
 in, a reset code is single-use, a reset changes which password verifies,
 logout ends `/me`, `/me` never shows the secrets).
 */
module Lifecycle {
  import opened Wrappers
  import opened Hashing
  import opened UserSchema
  import opened Store
  import opened UserRouter

  /** One request to the router, with what the environment supplies for it. */
  datatype Command =
    | CreateCmd(body: RequestBody, salt: Salt, now: Time)
    | LoginCmd(body: RequestBody, sid: SessionId, now: Time)
    | ForgotPasswordCmd(body: RequestBody, token: string, delivered: bool)
    | MeCmd(sid: SessionId, now: Time)
    | ResetPasswordCmd(body: RequestBody, salt: Salt)
    | LogoutCmd(sid: SessionId, now: Time)

  /** uuid never yields the empty token. */
  predicate WellFormed(c: Command)
  {
    c.ForgotPasswordCmd? ==> c.token != ""
  }

  function Handle(isEmail: string -> bool, st: State, c: Command): Step
    requires WellFormed(c)
  {
    match c
    case CreateCmd(body, salt, now) => Create(st, body, isEmail, salt, now)
    case LoginCmd(body, sid, now) => Login(st, body, isEmail, sid, now)
    case ForgotPasswordCmd(body, token, delivered) => ForgotPassword(st, body, isEmail, token, delivered)
    case MeCmd(sid, now) => Me(st, sid, now)
    case ResetPasswordCmd(body, salt) => ResetPassword(st, body, isEmail, salt)
    case LogoutCmd(sid, now) => Logout(st, sid, now)
  }

  /** The responses of a sequence of requests and the final state. */
  datatype Trace = Trace(responses: seq<Response>, last: State)

  function Run(isEmail: string -> bool, st: State, cs: seq<Command>): (t: Trace)
    requires forall k :: 0 <= k < |cs| ==> WellFormed(cs[k])
    ensures |t.responses| == |cs|
    decreases |cs|
  {
    if cs == [] then Trace([], st)
    else
      var step := Handle(isEmail, st, cs[0]);
      var rest := Run(isEmail, step.st, cs[1..]);
      Trace([step.res] + rest.responses, rest.last)
  }

  // ---------------------------------------------------------------------------
  // The invariant
  // ---------------------------------------------------------------------------

  /** Replacing a row by one with the same email and id keeps both keys. */
  lemma UpdateKeepsKeys(users: seq<Account>, i: nat, a: Account)
    requires i < |users| && a.id == users[i].id && a.email == users[i].email
    ensures Ids(users[i := a]) == Ids(users)
    ensures Emails(users[i := a]) == Emails(users)
    ensures UniqueKeys(users) ==> UniqueKeys(users[i := a])
  {
    var u := users[i := a];
    forall x | x in Ids(users) ensures x in Ids(u) {
      var b :| b in users && b.id == x;
      var j :| 0 <= j < |users| && users[j] == b;
      assert u[j].id == x;
    }
    forall x | x in Ids(u) ensures x in Ids(users) {
      var b :| b in u && b.id == x;
      var j :| 0 <= j < |u| && u[j] == b;
      assert users[j].id == x;
    }
    forall x | x in Emails(users) ensures x in Emails(u) {
      var b :| b in users && b.email == x;
      var j :| 0 <= j < |users| && users[j] == b;
      assert u[j].email == x;
    }
    forall x | x in Emails(u) ensures x in Emails(users) {
      var b :| b in u && b.email == x;
      var j :| 0 <= j < |u| && u[j] == b;
      assert users[j].email == x;
    }
  }

  /** Appending a row with a fresh id, an unused email and no pending reset keeps the invariant. */
  lemma AppendPreservesInv(st: State, a: Account)
    requires Inv(st)
    requires a.id == st.nextId && a.email !in Emails(st.users) && a.resetCode == NoResetPending
    ensures Inv(st.(users := st.users + [a], nextId := st.nextId + 1))
  {
    var st' := st.(users := st.users + [a], nextId := st.nextId + 1);
    var n := |st.users|;
    forall i | 0 <= i < n ensures st.users[i].email != a.email {
      assert st.users[i] in st.users;
    }
    assert UniqueKeys(st'.users);
    forall x | x in Ids(st.users) ensures x in Ids(st'.users) {
      var b :| b in st.users && b.id == x;
      assert b in st'.users;
    }
  }

  lemma CreatePreservesInv(st: State, body: RequestBody, isEmail: string -> bool, salt: Salt, now: Time)
    requires Inv(st)
    ensures Inv(Create(st, body, isEmail, salt, now).st)
  {
    var r := Create(st, body, isEmail, salt, now);
    var p := ParseCreate(body, isEmail);
    if p.Valid? && p.value.email !in Emails(st.users) {
      var input := p.value;
      var account := Account(st.nextId, input.email, Hash(input.password, salt),
                             input.displayName, now, DefaultRole, NoResetPending);
      assert r.st == st.(users := st.users + [account], nextId := st.nextId + 1);
      AppendPreservesInv(st, account);
    } else if p.Valid? {
      assert r.st == st.(nextId := st.nextId + 1);
    } else {
      assert r.st == st;
    }
  }

  /** Binding a session to an existing account keeps the invariant. */
  lemma BindPreservesInv(st: State, sid: SessionId, session: Session)
    requires Inv(st) && session.user in Ids(st.users)
    ensures Inv(st.(sessions := st.sessions[sid := session]))
  {
  }

  lemma LoginPreservesInv(st: State, body: RequestBody, isEmail: string -> bool, sid: SessionId, now: Time)
    requires Inv(st)
    ensures Inv(Login(st, body, isEmail, sid, now).st)
  {
    var p := ParseLogin(body, isEmail);
    if p.Valid? && p.value.email in Emails(st.users) {
      var i := EmailRow(st, p.value.email);
      assert st.users[i] in st.users;
      BindPreservesInv(st, sid, Session(st.users[i].id, now + SessionMaxAge));
    }
  }

  lemma ForgotPasswordPreservesInv(st: State, body: RequestBody, isEmail: string -> bool,
                                   token: string, delivered: bool)
    requires Inv(st) && token != ""
    ensures Inv(ForgotPassword(st, body, isEmail, token, delivered).st)
  {
    var r := ForgotPassword(st, body, isEmail, token, delivered);
    var p := ParseForgotPassword(body, isEmail);
    if p.Valid? {
      var j := Locate(st.users, EmailIs(p.value.email));
      if j.Some? {
        var i := j.value;
        UpdateKeepsKeys(st.users, i, st.users[i].(resetCode := token));
        assert r.st.outbox == st.outbox + [Mail(st.users[i].email, token, delivered)];
      }
    }
  }

  /** Rewriting a row's password and clearing its reset code keeps the invariant. */
  lemma ClearPreservesInv(st: State, i: nat, a: Account)
    requires Inv(st) && i < |st.users|
    requires a.id == st.users[i].id && a.email == st.users[i].email && a.resetCode == NoResetPending
    ensures Inv(st.(users := st.users[i := a]))
  {
    UpdateKeepsKeys(st.users, i, a);
  }

  lemma ResetPasswordPreservesInv(st: State, body: RequestBody, isEmail: string -> bool, salt: Salt)
    requires Inv(st)
    ensures Inv(ResetPassword(st, body, isEmail, salt).st)
  {
    var p := ParseResetPassword(body, isEmail);
    if p.Valid? {
      var j := Locate(st.users, EmailIs(p.value.email));
      if j.Some? {
        var i := j.value;
        var a := st.users[i].(password := Hash(p.value.password, salt), resetCode := NoResetPending);
        ClearPreservesInv(st, i, a);
      }
    }
  }

  lemma HandlePreservesInv(isEmail: string -> bool, st: State, c: Command)
    requires Inv(st) && WellFormed(c)
    ensures Inv(Handle(isEmail, st, c).st)
  {
    match c
    case CreateCmd(body, salt, now) => CreatePreservesInv(st, body, isEmail, salt, now);
    case LoginCmd(body, sid, now) => LoginPreservesInv(st, body, isEmail, sid, now);
    case ForgotPasswordCmd(body, token, delivered) =>
      ForgotPasswordPreservesInv(st, body, isEmail, token, delivered);
    case MeCmd(sid, now) =>
    case ResetPasswordCmd(body, salt) => ResetPasswordPreservesInv(st, body, isEmail, salt);
    case LogoutCmd(sid, now) =>
  }

  /** Every sequence of requests from a good state ends in a good state. */
  lemma {:induction false} RunPreservesInv(isEmail: string -> bool, st: State, cs: seq<Command>)
    requires Inv(st)
    requires forall k :: 0 <= k < |cs| ==> WellFormed(cs[k])
    ensures Inv(Run(isEmail, st, cs).last)
    decreases |cs|
  {
    if cs != [] {
      HandlePreservesInv(isEmail, st, cs[0]);
      RunPreservesInv(isEmail, Handle(isEmail, st, cs[0]).st, cs[1..]);
    }
  }

  // ---------------------------------------------------------------------------
  // Stored sessions are never renewed
  // ---------------------------------------------------------------------------

  /**
   Only a login on a session id writes that session: every other request leaves
   the stored session as it was or removes it.
   */
  lemma HandleKeepsSession(isEmail: string -> bool, st: State, c: Command, sid: SessionId)
    requires WellFormed(c) && !(c.LoginCmd? && c.sid == sid)
    ensures var s := Handle(isEmail, st, c).st;
      sid in s.sessions ==> sid in st.sessions && s.sessions[sid] == st.sessions[sid]
  {
  }

  /**
   Over any run without a login on `sid`, the stored session is kept unchanged or
   dropped, so once it reads as absent it stays absent at every later time:
   nothing extends an expiry.
   */
  lemma {:induction false} RunNeverRenews(isEmail: string -> bool, st: State, cs: seq<Command>,
                                          sid: SessionId, now: Time, later: Time)
    requires forall k :: 0 <= k < |cs| ==> WellFormed(cs[k])
    requires forall k :: 0 <= k < |cs| ==> !(cs[k].LoginCmd? && cs[k].sid == sid)
    requires now <= later
    ensures var s := Run(isEmail, st, cs).last;
      sid in s.sessions ==> sid in st.sessions && s.sessions[sid] == st.sessions[sid]
    ensures SessionUser(st, sid, now).None? ==> SessionUser(Run(isEmail, st, cs).last, sid, later).None?
    decreases |cs|
  {
    if cs != [] {
      var next := Handle(isEmail, st, cs[0]).st;
      HandleKeepsSession(isEmail, st, cs[0], sid);
      RunNeverRenews(isEmail, next, cs[1..], sid, now, later);
    }
  }

  /** A request whose body fails its schema leaves the whole state unchanged. */
  lemma InvalidBodyChangesNothing(isEmail: string -> bool, st: State, c: Command)
    requires WellFormed(c)
    requires c.CreateCmd? ==> ParseCreate(c.body, isEmail).Invalid?
    requires c.LoginCmd? ==> ParseLogin(c.body, isEmail).Invalid?
    requires c.ForgotPasswordCmd? ==> ParseForgotPassword(c.body, isEmail).Invalid?
    requires c.ResetPasswordCmd? ==> ParseResetPassword(c.body, isEmail).Invalid?
    requires !c.MeCmd? && !c.LogoutCmd?
    ensures Handle(isEmail, st, c).st == st
    ensures Handle(isEmail, st, c).res.status == 500
    ensures Handle(isEmail, st, c).res.body.JsonIssues?
  {
  }

  // ---------------------------------------------------------------------------
  // Create and login
  // ---------------------------------------------------------------------------

  /** In a good state an email names at most one row, and names it when taken. */
  lemma EmailRow(st: State, email: string) returns (i: nat)
    requires Inv(st) && email in Emails(st.users)
    ensures i < |st.users| && st.users[i].email == email
    ensures forall j :: 0 <= j < |st.users| && st.users[j].email == email ==> j == i
  {
    var a :| a in st.users && a.email == email;
    i :| 0 <= i < |st.users| && st.users[i] == a;
  }

  /** A fresh account can log in at once with the credentials it was created with. */
  lemma CreateThenLogin(isEmail: string -> bool, st: State, input: CreateInput, salt: Salt,
                        now: Time, sid: SessionId, later: Time)
    requires Inv(st)
    requires isEmail(input.email) && PasswordLengthOk(input.password)
    requires input.email !in Emails(st.users)
    ensures var created := Create(st, CreateBody(input), isEmail, salt, now);
      && created.res == Response(200, NoBody)
      && var login := Login(created.st, LoginBody(LoginInput(input.email, input.password)), isEmail, sid, later);
         && login.res == Response(200, NoBody)
         && SessionUser(login.st, sid, later) == Some(st.nextId)
  {
    CreateRoundTrip(input, isEmail);
    LoginRoundTrip(LoginInput(input.email, input.password), isEmail);
    CreatePreservesInv(st, CreateBody(input), isEmail, salt, now);
    var created := Create(st, CreateBody(input), isEmail, salt, now);
    var n := |st.users|;
    assert created.st.users[n].email == input.email;
  }

  /** After a well-formed create, the email belongs to an account, new or existing. */
  lemma CreateRegistersEmail(isEmail: string -> bool, st: State, input: CreateInput, salt: Salt, now: Time)
    requires isEmail(input.email) && PasswordLengthOk(input.password)
    ensures input.email in Emails(Create(st, CreateBody(input), isEmail, salt, now).st.users)
  {
    CreateRoundTrip(input, isEmail);
    var r := Create(st, CreateBody(input), isEmail, salt, now);
    if input.email !in Emails(st.users) {
      assert r.st.users[|st.users|] in r.st.users;
    }
  }

  /** Of two creates for one email the second is refused; it only burns an id. */
  lemma DuplicateCreateRefused(isEmail: string -> bool, st: State, first: CreateInput,
                               second: CreateInput, s1: Salt, s2: Salt, t1: Time, t2: Time)
    requires isEmail(first.email) && PasswordLengthOk(first.password)
    requires isEmail(second.email) && PasswordLengthOk(second.password)
    requires first.email == second.email
    ensures var one := Create(st, CreateBody(first), isEmail, s1, t1);
      var two := Create(one.st, CreateBody(second), isEmail, s2, t2);
      && two.res == Response(500, JsonText(DuplicateEmail))
      && two.st == one.st.(nextId := one.st.nextId + 1)
  {
    CreateRegistersEmail(isEmail, st, first, s1, t1);
    CreateRoundTrip(second, isEmail);
  }

  /** The two login failures are told apart: an unknown email and a wrong password answer differently. */
  lemma LoginFailuresDiffer(isEmail: string -> bool, st: State, unknown: LoginInput,
                            wrong: LoginInput, s1: SessionId, s2: SessionId, t1: Time, t2: Time)
    requires Inv(st)
    requires isEmail(unknown.email) && PasswordLengthOk(unknown.password)
    requires isEmail(wrong.email) && PasswordLengthOk(wrong.password)
    requires unknown.email !in Emails(st.users)
    requires exists i :: 0 <= i < |st.users| && st.users[i].email == wrong.email &&
                         !Verify(wrong.password, st.users[i].password)
    ensures Login(st, LoginBody(unknown), isEmail, s1, t1).res == Response(500, JsonText(UnknownErrorOccured))
    ensures Login(st, LoginBody(wrong), isEmail, s2, t2).res == Response(500, JsonText(InvalidCredentials))
    ensures Login(st, LoginBody(unknown), isEmail, s1, t1).res != Login(st, LoginBody(wrong), isEmail, s2, t2).res
  {
    LoginRoundTrip(unknown, isEmail);
    LoginRoundTrip(wrong, isEmail);
  }

  /** A login session is live until, and only until, seven days after the login. */
  lemma SessionExpires(isEmail: string -> bool, st: State, input: LoginInput, sid: SessionId,
                       now: Time, later: Time, i: nat)
    requires Inv(st)
    requires isEmail(input.email) && PasswordLengthOk(input.password)
    requires i < |st.users| && st.users[i].email == input.email
    requires Verify(input.password, st.users[i].password)
    ensures var r := Login(st, LoginBody(input), isEmail, sid, now);
      && r.res.status == 200
      && (SessionUser(r.st, sid, later).Some? <==> later < now + SessionMaxAge)
  {
    LoginRoundTrip(input, isEmail);
    LocateFindsEvery(st.users, EmailIs(input.email));
    var s := Login(st, LoginBody(input), isEmail, sid, now).st;
    assert s.sessions[sid] == Session(st.users[i].id, now + SessionMaxAge);
  }

  // ---------------------------------------------------------------------------
  // The reset-code protocol
  // ---------------------------------------------------------------------------

  /** With no reset pending every key is refused, the empty key included. */
  lemma NothingPendingRefusesEveryKey(isEmail: string -> bool, st: State, input: ResetPasswordInput,
                                      salt: Salt, i: nat)
    requires Inv(st)
    requires isEmail(input.email) && PasswordLengthOk(input.password)
    requires i < |st.users| && st.users[i].email == input.email
    requires st.users[i].resetCode == NoResetPending
    ensures ResetPassword(st, ResetPasswordBody(input), isEmail, salt) ==
              Step(Response(400, JsonMessage(UnknownError)), st)
  {
    ResetPasswordRoundTrip(input, isEmail);
  }

  /** A reset code can be redeemed once: redeeming the same key again is refused. */
  lemma ResetCodeSingleUse(isEmail: string -> bool, st: State, input: ResetPasswordInput,
                           s1: Salt, s2: Salt, i: nat)
    requires Inv(st)
    requires isEmail(input.email) && PasswordLengthOk(input.password)
    requires i < |st.users| && st.users[i].email == input.email
    requires st.users[i].resetCode == input.key != NoResetPending
    ensures var once := ResetPassword(st, ResetPasswordBody(input), isEmail, s1);
      && once.res == Response(200, JsonMessage(PasswordUpdated))
      && ResetPassword(once.st, ResetPasswordBody(input), isEmail, s2) ==
           Step(Response(400, JsonMessage(UnknownError)), once.st)
  {
    ResetPasswordRoundTrip(input, isEmail);
    ResetPasswordPreservesInv(st, ResetPasswordBody(input), isEmail, s1);
    var once := ResetPassword(st, ResetPasswordBody(input), isEmail, s1);
    assert once.st.users[i].email == input.email;
  }

  /** After a successful reset the new password logs in and the old one does not. */
  lemma ResetChangesCredentials(isEmail: string -> bool, st: State, input: ResetPasswordInput,
                                salt: Salt, oldPassword: string, sid: SessionId, now: Time, i: nat)
    requires Inv(st)
    requires isEmail(input.email) && PasswordLengthOk(input.password)
    requires PasswordLengthOk(oldPassword) && oldPassword != input.password
    requires i < |st.users| && st.users[i].email == input.email
    requires st.users[i].resetCode == input.key != NoResetPending
    ensures var reset := ResetPassword(st, ResetPasswordBody(input), isEmail, salt).st;
      && Login(reset, LoginBody(LoginInput(input.email, input.password)), isEmail, sid, now).res ==
           Response(200, NoBody)
      && Login(reset, LoginBody(LoginInput(input.email, oldPassword)), isEmail, sid, now) ==
           Step(Response(500, JsonText(InvalidCredentials)), reset)
  {
    ResetPasswordRoundTrip(input, isEmail);
    LoginRoundTrip(LoginInput(input.email, input.password), isEmail);
    LoginRoundTrip(LoginInput(input.email, oldPassword), isEmail);
    ResetPasswordPreservesInv(st, ResetPasswordBody(input), isEmail, salt);
    var reset := ResetPassword(st, ResetPasswordBody(input), isEmail, salt).st;
    assert reset.users[i].password == Hash(input.password, salt);
    VerifyExactly(input.password, oldPassword, salt);
  }

  /** A key that redeems was first handed to the mail transport for that very address. */
  lemma RedeemedKeyWasMailed(isEmail: string -> bool, st: State, input: ResetPasswordInput, salt: Salt)
    requires Inv(st)
    ensures ResetPassword(st, ResetPasswordBody(input), isEmail, salt).res.status == 200 ==>
              Mail(input.email, input.key, true) in st.outbox || Mail(input.email, input.key, false) in st.outbox
  {
    if ResetPassword(st, ResetPasswordBody(input), isEmail, salt).res.status == 200 {
      ResetPasswordRoundTrip(input, isEmail);
      var i := EmailRow(st, input.email);
      assert st.users[i].resetCode == input.key;
    }
  }

  /** A second forgot-password request replaces the first token, which stops working. */
  lemma SecondRequestOverwrites(isEmail: string -> bool, st: State, email: string,
                                t1: string, t2: string, d1: bool, d2: bool,
                                reset: ResetPasswordInput, salt: Salt)
    requires Inv(st)
    requires isEmail(email) && email in Emails(st.users)
    requires t1 != "" && t2 != "" && t1 != t2
    requires reset.email == email && reset.key == t1 && PasswordLengthOk(reset.password)
    ensures var one := ForgotPassword(st, ForgotPasswordBody(ForgotPasswordInput(email)), isEmail, t1, d1);
      var two := ForgotPassword(one.st, ForgotPasswordBody(ForgotPasswordInput(email)), isEmail, t2, d2);
      && (forall i :: 0 <= i < |two.st.users| && two.st.users[i].email == email ==>
            two.st.users[i].resetCode == t2)
      && ResetPassword(two.st, ResetPasswordBody(reset), isEmail, salt) ==
           Step(Response(400, JsonMessage(UnknownError)), two.st)
  {
    ForgotPasswordRoundTrip(ForgotPasswordInput(email), isEmail);
    ResetPasswordRoundTrip(reset, isEmail);
    var body := ForgotPasswordBody(ForgotPasswordInput(email));
    var i := EmailRow(st, email);
    ForgotPasswordPreservesInv(st, body, isEmail, t1, d1);
    var one := ForgotPassword(st, body, isEmail, t1, d1);
    assert one.st.users[i].email == email;
    ForgotPasswordPreservesInv(one.st, body, isEmail, t2, d2);
    var two := ForgotPassword(one.st, body, isEmail, t2, d2);
    assert two.st.users[i].email == email && two.st.users[i].resetCode == t2;
  }

  // ---------------------------------------------------------------------------
  // Sessions and /me
  // ---------------------------------------------------------------------------

  /** After logout the same session id is not logged in, at any later time. */
  lemma LogoutEndsSession(st: State, sid: SessionId, now: Time, later: Time)
    ensures var out := Logout(st, sid, now);
      Me(out.st, sid, later).res == Response(500, JsonMessage(NotLoggedIn))
  {
  }

  /** In a good state a live session always finds its account: "Invalid user." never happens. */
  lemma MeFindsAccount(st: State, sid: SessionId, now: Time)
    requires Inv(st) && SessionUser(st, sid, now).Some?
    ensures Me(st, sid, now).res.status == 200
    ensures Me(st, sid, now).res.body.JsonProfile?
    ensures Me(st, sid, now).res.body.profile.id == SessionUser(st, sid, now).value
  {
    var u := SessionUser(st, sid, now).value;
    assert u in Ids(st.users);
    var a :| a in st.users && a.id == u;
  }

  /** Rows that agree on their public columns are found alike by id. */
  lemma {:induction false} LocateByIdIgnoresSecrets(u1: seq<Account>, u2: seq<Account>, id: UserId)
    requires |u1| == |u2|
    requires forall i :: 0 <= i < |u1| ==> Profile(u1[i]) == Profile(u2[i])
    ensures Locate(u1, IdIs(id)) == Locate(u2, IdIs(id))
  {
    if u1 != [] {
      assert u1[0].id == Profile(u1[0]).id == Profile(u2[0]).id == u2[0].id;
      if u1[0].id != id {
        var t1, t2 := u1[1..], u2[1..];
        forall i | 0 <= i < |t1| ensures Profile(t1[i]) == Profile(t2[i]) {
          assert t1[i] == u1[i + 1] && t2[i] == u2[i + 1];
        }
        LocateByIdIgnoresSecrets(t1, t2, id);
      }
    }
  }

  /**
   `/me` reveals nothing about password hashes or reset codes: two states that
   differ only in those columns answer identically.
   */
  lemma MeHidesSecrets(st1: State, st2: State, sid: SessionId, now: Time)
    requires st1.sessions == st2.sessions
    requires |st1.users| == |st2.users|
    requires forall i :: 0 <= i < |st1.users| ==> Profile(st1.users[i]) == Profile(st2.users[i])
    ensures Me(st1, sid, now).res == Me(st2, sid, now).res
  {
    if SessionUser(st1, sid, now).Some? {
      LocateByIdIgnoresSecrets(st1.users, st2.users, SessionUser(st1, sid, now).value);
    }
  }

  // ---------------------------------------------------------------------------
  // Whole scenarios
  // ---------------------------------------------------------------------------

  /**
   Create, log in, read `/me`, log out, read `/me` again: the profile of the new
   account is shown while logged in and "You are not logged in." afterwards.
   */
  lemma LoginLogoutScenario(isEmail: string -> bool, st: State, input: CreateInput, salt: Salt,
                            sid: SessionId, t: Time)
    requires Inv(st) && input.email !in Emails(st.users)
    requires isEmail(input.email) && PasswordLengthOk(input.password)
    ensures var created := Create(st, CreateBody(input), isEmail, salt, t);
      var login := Login(created.st, LoginBody(LoginInput(input.email, input.password)), isEmail, sid, t);
      && created.res == Response(200, NoBody)
      && login.res == Response(200, NoBody)
    ensures var created := Create(st, CreateBody(input), isEmail, salt, t);
      var login := Login(created.st, LoginBody(LoginInput(input.email, input.password)), isEmail, sid, t);
      Me(login.st, sid, t).res ==
        Response(200, JsonProfile(PublicUser(st.nextId, input.email, input.displayName, t, DefaultRole)))
    ensures var created := Create(st, CreateBody(input), isEmail, salt, t);
      var login := Login(created.st, LoginBody(LoginInput(input.email, input.password)), isEmail, sid, t);
      var out := Logout(login.st, sid, t);
      && out.res == Response(200, NoBody)
      && Me(out.st, sid, t).res == Response(500, JsonMessage(NotLoggedIn))
  {
    var loginBody := LoginBody(LoginInput(input.email, input.password));
    CreateThenLogin(isEmail, st, input, salt, t, sid, t);
    CreatePreservesInv(st, CreateBody(input), isEmail, salt, t);
    var s1 := Create(st, CreateBody(input), isEmail, salt, t).st;
    var n := |st.users|;
    assert Profile(s1.users[n]) == PublicUser(st.nextId, input.email, input.displayName, t, DefaultRole) by {
      CreateRoundTrip(input, isEmail);
    }
    var s2 := Login(s1, loginBody, isEmail, sid, t).st;
    LoginPreservesInv(s1, loginBody, isEmail, sid, t);
    assert s2.users == s1.users;
    assert SessionUser(s2, sid, t) == Some(st.nextId);
    assert UniqueKeys(s2.users) && s2.users[n].id == st.nextId;
    assert Me(s2, sid, t).res == Response(200, JsonProfile(Profile(s2.users[n])));
    LogoutEndsSession(s2, sid, t, t);
  }

  /**
   Forgot password, redeem a wrong key, redeem the mailed key, then log in:
   the wrong key is refused, the mailed one accepted, the old password no
   longer logs in and the new one does.
   */
  lemma ResetScenario(isEmail: string -> bool, st: State, email: string, oldPassword: string,
                      token: string, wrongKey: string, newPassword: string,
                      salt: Salt, sid: SessionId, now: Time)
    requires Inv(st)
    requires isEmail(email) && email in Emails(st.users)
    requires PasswordLengthOk(oldPassword) && PasswordLengthOk(newPassword) && oldPassword != newPassword
    requires token != "" && wrongKey != token
    ensures var forgot := ForgotPassword(st, ForgotPasswordBody(ForgotPasswordInput(email)), isEmail, token, true);
      var wrong := ResetPassword(forgot.st, ResetPasswordBody(ResetPasswordInput(email, wrongKey, newPassword)), isEmail, salt);
      var right := ResetPassword(wrong.st, ResetPasswordBody(ResetPasswordInput(email, token, newPassword)), isEmail, salt);
      var stale := Login(right.st, LoginBody(LoginInput(email, oldPassword)), isEmail, sid, now);
      var current := Login(stale.st, LoginBody(LoginInput(email, newPassword)), isEmail, sid, now);
      && forgot.res == Response(200, JsonMessage(ForgotPasswordSent))
      && wrong.res == Response(400, JsonMessage(UnknownError))
      && right.res == Response(200, JsonMessage(PasswordUpdated))
      && stale.res == Response(500, JsonText(InvalidCredentials))
      && current.res == Response(200, NoBody)
  {
    var wrong := ResetPasswordInput(email, wrongKey, newPassword);
    var right := ResetPasswordInput(email, token, newPassword);
    var forgotBody := ForgotPasswordBody(ForgotPasswordInput(email));
    ForgotPasswordRoundTrip(ForgotPasswordInput(email), isEmail);
    ResetPasswordRoundTrip(wrong, isEmail);
    ResetPasswordRoundTrip(right, isEmail);
    var i := EmailRow(st, email);
    ForgotPasswordPreservesInv(st, forgotBody, isEmail, token, true);
    var s1 := ForgotPassword(st, forgotBody, isEmail, token, true).st;
    assert s1.users[i].email == email && s1.users[i].resetCode == token;
    assert ResetPassword(s1, ResetPasswordBody(wrong), isEmail, salt).st == s1;
    ResetChangesCredentials(isEmail, s1, right, salt, oldPassword, sid, now, i);
  }

  /** In a good state no route answers "Invalid user.". */
  lemma HandleNeverInvalidUser(isEmail: string -> bool, st: State, c: Command)
    requires Inv(st) && WellFormed(c)
    ensures Handle(isEmail, st, c).res != Response(500, JsonText(InvalidUser))
  {
    match c
    case MeCmd(sid, now) =>
      if SessionUser(st, sid, now).Some? {
        MeFindsAccount(st, sid, now);
      }
    case _ =>
  }

  /** In any run from a good state, `/me` never answers "Invalid user.". */
  lemma {:induction false} RunNeverInvalidUser(isEmail: string -> bool, st: State, cs: seq<Command>)
    requires Inv(st)
    requires forall k :: 0 <= k < |cs| ==> WellFormed(cs[k])
    ensures forall k :: 0 <= k < |cs| ==>
              Run(isEmail, st, cs).responses[k] != Response(500, JsonText(InvalidUser))
    decreases |cs|
  {
    if cs != [] {
      var step := Handle(isEmail, st, cs[0]);
      HandleNeverInvalidUser(isEmail, st, cs[0]);
      HandlePreservesInv(isEmail, st, cs[0]);
      RunNeverInvalidUser(isEmail, step.st, cs[1..]);
      var rest := Run(isEmail, step.st, cs[1..]).responses;
      assert Run(isEmail, st, cs).responses == [step.res] + rest;
    }
  }
}
