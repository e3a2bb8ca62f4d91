/**
 The state the user routes read and write, with the database replaced by values.

 - the `User` table of the Prisma store, a sequence of `Account` rows searched
   by a `Where` clause (`findUnique({ where: { email } })`, `where: { id }`);
 - the express-session store, a map from session id to the user bound at login;
 - an outbox recording each forgot-password mail the router attempted to send.

 The Prisma schema is not part of this model: ids come from an autoincrement
 counter starting at 1 (an insert the unique index refuses still uses up a
 value), `role` defaults to `DefaultRole`, `resetCode` to "".
 */
module Store {
  import opened Wrappers
  import opened Hashing

  type UserId = nat
  type SessionId = string
  /** Milliseconds since the epoch. */
  type Time = int

  /** The account's access level; only the default matters to the router. */
  datatype Role = DefaultRole | OtherRole(name: string)

  datatype Account = Account(
    id: UserId,
    email: string,
    password: PasswordHash,
    displayName: Option<string>,
    createdAt: Time,
    role: Role,
    resetCode: string)

  /** The `resetCode` value meaning "no reset pending". */
  const NoResetPending: string := ""

  /** A stored session: the user id saved at login and the absolute expiry. */
  datatype Session = Session(user: UserId, expires: Time)

  /** The session cookie's `maxAge`: seven days in milliseconds. */
  const SessionMaxAge: int := 7 * 24 * 60 * 60 * 1000

  /** One forgot-password mail: recipient, token, and whether the transport accepted it. */
  datatype Mail = Mail(to: string, token: string, delivered: bool)

  datatype State = State(
    users: seq<Account>,
    nextId: UserId,
    sessions: map<SessionId, Session>,
    outbox: seq<Mail>)

  /** An empty database with no sessions. */
  const Initial: State := State([], 1, map[], [])

  /** A unique-key lookup clause. */
  datatype Where = EmailIs(email: string) | IdIs(id: UserId)

  predicate Matches(a: Account, w: Where)
  {
    match w
    case EmailIs(e) => a.email == e
    case IdIs(id) => a.id == id
  }

  /** The position of the first row matching `w`, if any. */
  function Locate(users: seq<Account>, w: Where): (r: Option<nat>)
    ensures r.Some? ==> r.value < |users| && Matches(users[r.value], w)
    ensures r.Some? ==> forall j :: 0 <= j < r.value ==> !Matches(users[j], w)
    ensures r.None? <==> forall j :: 0 <= j < |users| ==> !Matches(users[j], w)
  {
    if users == [] then None
    else if Matches(users[0], w) then Some(0)
    else match Locate(users[1..], w)
      case None => None
      case Some(i) => Some(i + 1)
  }

  /** `findUnique`: the matching row, or nothing. */
  function FindUnique(users: seq<Account>, w: Where): (r: Option<Account>)
    ensures r.Some? ==> r.value in users && Matches(r.value, w)
    ensures r.None? <==> forall a :: a in users ==> !Matches(a, w)
  {
    match Locate(users, w)
    case None => None
    case Some(i) => Some(users[i])
  }

  /** The ids of all rows. */
  function Ids(users: seq<Account>): set<UserId>
  {
    set a | a in users :: a.id
  }

  /** The emails of all rows. */
  function Emails(users: seq<Account>): set<string>
  {
    set a | a in users :: a.email
  }

  /** A unique index on both email and id. */
  predicate UniqueKeys(users: seq<Account>)
  {
    forall i, j :: 0 <= i < j < |users| ==>
      users[i].email != users[j].email && users[i].id != users[j].id
  }

  /** A pending reset code was handed to the mail transport for that account's address. */
  predicate ResetCodesIssued(st: State)
  {
    forall i :: 0 <= i < |st.users| && st.users[i].resetCode != NoResetPending ==>
      Mail(st.users[i].email, st.users[i].resetCode, true) in st.outbox ||
      Mail(st.users[i].email, st.users[i].resetCode, false) in st.outbox
  }

  /** The state invariant every route preserves. */
  predicate Inv(st: State)
  {
    && st.nextId >= 1
    && (forall i :: 0 <= i < |st.users| ==> 1 <= st.users[i].id < st.nextId)
    && UniqueKeys(st.users)
    && (forall s :: s in st.sessions ==> st.sessions[s].user in Ids(st.users))
    && ResetCodesIssued(st)
  }

  lemma InitialInv()
    ensures Inv(Initial)
  {
  }

  /** Under a unique index a matching row is the one `Locate` finds. */
  lemma LocateUnique(users: seq<Account>, w: Where, i: nat)
    requires UniqueKeys(users)
    requires i < |users| && Matches(users[i], w)
    ensures Locate(users, w) == Some(i)
  {
  }

  /** Under a unique index, `Locate` finds every row that matches. */
  lemma LocateFindsEvery(users: seq<Account>, w: Where)
    ensures UniqueKeys(users) ==>
              forall i :: 0 <= i < |users| && Matches(users[i], w) ==> Locate(users, w) == Some(i)
  {
    if UniqueKeys(users) {
      forall i | 0 <= i < |users| && Matches(users[i], w) ensures Locate(users, w) == Some(i) {
        LocateUnique(users, w, i);
      }
    }
  }

  /**
   `req.session.data?.user` for the request carrying session id `sid` at time `now`:
   the user bound at login while the session has not expired; an expired
   session reads as no session.
   */
  function SessionUser(st: State, sid: SessionId, now: Time): (r: Option<UserId>)
    ensures r.Some? <==> sid in st.sessions && now < st.sessions[sid].expires
    ensures r.Some? ==> r.value == st.sessions[sid].user
  {
    if sid in st.sessions && now < st.sessions[sid].expires then Some(st.sessions[sid].user)
    else None
  }

  /**
   Expiry is terminal: once a stored session reads as absent it stays absent at
   every later instant, and while it is live it names the same user throughout.
   */
  lemma ExpiryIsTerminal(st: State, sid: SessionId, now: Time, later: Time)
    requires now <= later
    ensures SessionUser(st, sid, now).None? ==> SessionUser(st, sid, later).None?
    ensures SessionUser(st, sid, later).Some? ==> SessionUser(st, sid, now) == SessionUser(st, sid, later)
  {
  }
}
