/**
 The six routes of the user router, each a pure step from the current state
 and the request to the response written and the next state.

 Every handler validates its body before touching the store, so an invalid
 body changes nothing and is answered with the zod issues. Where the source
 writes a second response after a first one (the logout route), the model
 keeps the first response and the state effect. The clock (`now`), the
 bcrypt salt, the uuid token, the request's session id and the mail
 transport's verdict are parameters.
 */
module UserRouter {
  import opened Wrappers
  import opened Hashing
  import opened UserSchema
  import opened Store

  /** The public projection of an account returned by `/me`. */
  datatype PublicUser = PublicUser(
    id: UserId,
    email: string,
    displayName: Option<string>,
    createdAt: Time,
    role: Role)

  /** A response body: empty, a JSON string, `{ message }`, the zod issues, or a profile. */
  datatype Body =
    | NoBody
    | JsonText(text: string)
    | JsonMessage(message: string)
    | JsonIssues(issues: seq<Issue>)
    | JsonProfile(profile: PublicUser)

  datatype Response = Response(status: nat, body: Body)

  /** The response a route writes first, and the state after it. */
  datatype Step = Step(res: Response, st: State)

  const DuplicateEmail: string := "An account with this email already exists."
  const UnknownErrorOccured: string := "An unknown error occured."
  const InvalidCredentials: string := "Invalid email or password."
  const ForgotPasswordSent: string := "Sent forgot password email."
  const NotLoggedIn: string := "You are not logged in."
  const InvalidUser: string := "Invalid user."
  const PasswordUpdated: string := "Your password has been updated."
  const UnknownError: string := "Unknown error."
  const NoSession: string := "Session does not exist."

  /** The columns selected by `/me`: everything but the password hash and the reset code. */
  function Profile(a: Account): (p: PublicUser)
    ensures p.id == a.id && p.email == a.email && p.role == a.role
    ensures p.displayName == a.displayName && p.createdAt == a.createdAt
  {
    PublicUser(a.id, a.email, a.displayName, a.createdAt, a.role)
  }

  /** The projection cannot reveal the password hash or the reset code: changing them changes nothing. */
  lemma ProfileIgnoresSecrets(a: Account, h: PasswordHash, c: string)
    ensures Profile(a.(password := h, resetCode := c)) == Profile(a)
  {
  }

  /**
   POST /create. A taken email is refused with the unique-constraint message; the
   refused insert still draws a value from the id sequence, and nothing else
   changes. Otherwise exactly one row is appended, holding the email, a hash that
   verifies the password, the default role and no pending reset.
   */
  function Create(st: State, body: RequestBody, isEmail: string -> bool, salt: Salt, now: Time): (r: Step)
    ensures r.st.sessions == st.sessions && r.st.outbox == st.outbox
    ensures var p := ParseCreate(body, isEmail);
      p.Invalid? ==> r == Step(Response(500, JsonIssues(p.issues)), st)
    ensures var p := ParseCreate(body, isEmail);
      p.Valid? && p.value.email in Emails(st.users) ==>
        r == Step(Response(500, JsonText(DuplicateEmail)), st.(nextId := st.nextId + 1))
    ensures var p := ParseCreate(body, isEmail);
      p.Valid? && p.value.email !in Emails(st.users) ==>
        && r.res == Response(200, NoBody)
        && r.st.nextId == st.nextId + 1
        && |r.st.users| == |st.users| + 1
        && r.st.users[..|st.users|] == st.users
        && var a := r.st.users[|st.users|];
           && a.id == st.nextId
           && a.email == p.value.email
           && Verify(p.value.password, a.password)
           && a.displayName == p.value.displayName
           && a.createdAt == now
           && a.role == DefaultRole
           && a.resetCode == NoResetPending
  {
    match ParseCreate(body, isEmail)
    case Invalid(issues) => Step(Response(500, JsonIssues(issues)), st)
    case Valid(input) =>
      if FindUnique(st.users, EmailIs(input.email)).Some? then
        Step(Response(500, JsonText(DuplicateEmail)), st.(nextId := st.nextId + 1))
      else
        var account := Account(st.nextId, input.email, Hash(input.password, salt),
                               input.displayName, now, DefaultRole, NoResetPending);
        Step(Response(200, NoBody), st.(users := st.users + [account], nextId := st.nextId + 1))
  }

  /**
   POST /login. Success exactly when the email belongs to an account whose hash
   verifies the password; then, and only then, the request's session is bound
   to that account for seven days. The two failures answer different bodies.
   */
  function Login(st: State, body: RequestBody, isEmail: string -> bool, sid: SessionId, now: Time): (r: Step)
    ensures r.st.users == st.users && r.st.nextId == st.nextId && r.st.outbox == st.outbox
    ensures r.res.status != 200 ==> r.st == st
    ensures var p := ParseLogin(body, isEmail);
      p.Invalid? ==> r == Step(Response(500, JsonIssues(p.issues)), st)
    ensures var p := ParseLogin(body, isEmail);
      p.Valid? && p.value.email !in Emails(st.users) ==>
        r == Step(Response(500, JsonText(UnknownErrorOccured)), st)
    ensures var p := ParseLogin(body, isEmail);
      UniqueKeys(st.users) && p.Valid? ==>
        forall i :: 0 <= i < |st.users| && st.users[i].email == p.value.email ==>
          if Verify(p.value.password, st.users[i].password) then
            && r.res == Response(200, NoBody)
            && r.st.sessions == st.sessions[sid := Session(st.users[i].id, now + SessionMaxAge)]
            && SessionUser(r.st, sid, now) == Some(st.users[i].id)
          else
            r == Step(Response(500, JsonText(InvalidCredentials)), st)
  {
    match ParseLogin(body, isEmail)
    case Invalid(issues) => Step(Response(500, JsonIssues(issues)), st)
    case Valid(input) =>
      match FindUnique(st.users, EmailIs(input.email))
      case None => Step(Response(500, JsonText(UnknownErrorOccured)), st)
      case Some(account) =>
        LocateFindsEvery(st.users, EmailIs(input.email));
        if Verify(input.password, account.password) then
          var session := Session(account.id, now + SessionMaxAge);
          Step(Response(200, NoBody), st.(sessions := st.sessions[sid := session]))
        else
          Step(Response(500, JsonText(InvalidCredentials)), st)
  }

  /**
   POST /forgot-password. An unknown email is answered with the generic success
   and nothing changes. A known email gets the fresh token as its reset code
   (every other column and row unchanged), and only then is the mail attempted;
   a failed delivery keeps the token and answers the generic error.
   */
  function ForgotPassword(st: State, body: RequestBody, isEmail: string -> bool,
                          token: string, delivered: bool): (r: Step)
    requires token != ""
    ensures r.st.sessions == st.sessions && r.st.nextId == st.nextId
    ensures var p := ParseForgotPassword(body, isEmail);
      p.Invalid? ==> r == Step(Response(500, JsonIssues(p.issues)), st)
    ensures var p := ParseForgotPassword(body, isEmail);
      p.Valid? && p.value.email !in Emails(st.users) ==>
        r == Step(Response(200, JsonMessage(ForgotPasswordSent)), st)
    ensures var p := ParseForgotPassword(body, isEmail);
      UniqueKeys(st.users) && p.Valid? ==>
        forall i :: 0 <= i < |st.users| && st.users[i].email == p.value.email ==>
          && r.st.users == st.users[i := st.users[i].(resetCode := token)]
          && r.st.outbox == st.outbox + [Mail(st.users[i].email, token, delivered)]
          && r.res == (if delivered then Response(200, JsonMessage(ForgotPasswordSent))
                       else Response(500, JsonText(UnknownErrorOccured)))
  {
    match ParseForgotPassword(body, isEmail)
    case Invalid(issues) => Step(Response(500, JsonIssues(issues)), st)
    case Valid(input) =>
      LocateFindsEvery(st.users, EmailIs(input.email));
      match Locate(st.users, EmailIs(input.email))
      case None => Step(Response(200, JsonMessage(ForgotPasswordSent)), st)
      case Some(i) =>
        var account := st.users[i];
        var updated := st.(users := st.users[i := account.(resetCode := token)]);
        var sent := updated.(outbox := updated.outbox + [Mail(account.email, token, delivered)]);
        if delivered then Step(Response(200, JsonMessage(ForgotPasswordSent)), sent)
        else Step(Response(500, JsonText(UnknownErrorOccured)), sent)
  }

  /**
   GET /me. Without a live session user: "You are not logged in.". With one whose
   account is gone: "Invalid user.". Otherwise the account's public projection.
   */
  function Me(st: State, sid: SessionId, now: Time): (r: Step)
    ensures r.st == st
    ensures SessionUser(st, sid, now).None? ==> r.res == Response(500, JsonMessage(NotLoggedIn))
    ensures SessionUser(st, sid, now).Some? && SessionUser(st, sid, now).value !in Ids(st.users) ==>
              r.res == Response(500, JsonText(InvalidUser))
    ensures SessionUser(st, sid, now).Some? && UniqueKeys(st.users) ==>
              forall i :: 0 <= i < |st.users| && st.users[i].id == SessionUser(st, sid, now).value ==>
                r.res == Response(200, JsonProfile(Profile(st.users[i])))
  {
    match SessionUser(st, sid, now)
    case None => Step(Response(500, JsonMessage(NotLoggedIn)), st)
    case Some(user) =>
      LocateFindsEvery(st.users, IdIs(user));
      match FindUnique(st.users, IdIs(user))
      case None => Step(Response(500, JsonText(InvalidUser)), st)
      case Some(account) => Step(Response(200, JsonProfile(Profile(account))), st)
  }

  /**
   POST /reset-password. An unknown email, an account with no pending reset
   (whatever key is supplied, the empty one included) and a mismatched key all
   answer 400 "Unknown error." and change nothing. A matching key rewrites the
   password and clears the reset code in one update.
   */
  function ResetPassword(st: State, body: RequestBody, isEmail: string -> bool, salt: Salt): (r: Step)
    ensures r.st.sessions == st.sessions && r.st.outbox == st.outbox && r.st.nextId == st.nextId
    ensures r.res.status != 200 ==> r.st == st
    ensures var p := ParseResetPassword(body, isEmail);
      p.Invalid? ==> r == Step(Response(500, JsonIssues(p.issues)), st)
    ensures var p := ParseResetPassword(body, isEmail);
      p.Valid? && p.value.email !in Emails(st.users) ==>
        r == Step(Response(400, JsonMessage(UnknownError)), st)
    ensures var p := ParseResetPassword(body, isEmail);
      UniqueKeys(st.users) && p.Valid? ==>
        forall i :: 0 <= i < |st.users| && st.users[i].email == p.value.email ==>
          if st.users[i].resetCode != NoResetPending && st.users[i].resetCode == p.value.key then
            && r.res == Response(200, JsonMessage(PasswordUpdated))
            && r.st.users == st.users[i := st.users[i].(password := Hash(p.value.password, salt),
                                                        resetCode := NoResetPending)]
          else
            r == Step(Response(400, JsonMessage(UnknownError)), st)
  {
    match ParseResetPassword(body, isEmail)
    case Invalid(issues) => Step(Response(500, JsonIssues(issues)), st)
    case Valid(input) =>
      LocateFindsEvery(st.users, EmailIs(input.email));
      match Locate(st.users, EmailIs(input.email))
      case None => Step(Response(400, JsonMessage(UnknownError)), st)
      case Some(i) =>
        var account := st.users[i];
        if account.resetCode == NoResetPending then
          Step(Response(400, JsonMessage(UnknownError)), st)
        else if account.resetCode == input.key then
          var account' := account.(password := Hash(input.password, salt), resetCode := NoResetPending);
          Step(Response(200, JsonMessage(PasswordUpdated)), st.(users := st.users[i := account']))
        else
          Step(Response(400, JsonMessage(UnknownError)), st)
  }

  /**
   GET /logout. The session is destroyed whether or not a user is in it; the
   first response is 500 "Session does not exist." when there was none.
   Afterwards the session id reads as logged out at every time.
   */
  function Logout(st: State, sid: SessionId, now: Time): (r: Step)
    ensures r.st.users == st.users && r.st.nextId == st.nextId && r.st.outbox == st.outbox
    ensures sid !in r.st.sessions
    ensures forall s :: s != sid ==> (s in r.st.sessions <==> s in st.sessions)
    ensures forall s :: s in r.st.sessions ==> r.st.sessions[s] == st.sessions[s]
    ensures SessionUser(st, sid, now).Some? ==> r.res == Response(200, NoBody)
    ensures SessionUser(st, sid, now).None? ==> r.res == Response(500, JsonText(NoSession))
  {
    var destroyed := st.(sessions := st.sessions - {sid});
    match SessionUser(st, sid, now)
    case None => Step(Response(500, JsonText(NoSession)), destroyed)
    case Some(_) => Step(Response(200, NoBody), destroyed)
  }
}
