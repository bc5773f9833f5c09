// Users and sessions of the web interface: the operations on values, the service that performs
// them in place, and the sessions of a whole run.
module AuthModel {
  import opened Wrappers

  const SESSION_TTL := 86400

  datatype Role = Admin | Contributor | Reader | Unknown(name: string)

  datatype User = User(id: string, username: string, passwordHash: string, role: Role, createdAt: int)

  datatype Session = Session(token: string, userId: string, username: string, role: Role, expiresAt: int)

  datatype AuthError =
    | UsernameRequired
    | PasswordRequired
    | InvalidRole
    | HashFailed
    | ConstraintViolated
    | AlreadyInitialized
    | InvalidCredentials
    | UserIdRequired
    | UserNotFound
    | ConfigKeyRequired

  /** The users table (keyed by id), the session map and the config table. */
  datatype State = State(users: map<string, User>, sessions: map<string, Session>, config: map<string, string>)

  const EMPTY := State(map[], map[], map[])

  // ----- the users table -----

  predicate Valid(role: Role) {
    !role.Unknown?
  }

  predicate HasAdmin(users: map<string, User>) {
    exists id :: id in users && users[id].role == Admin
  }

  predicate Taken(users: map<string, User>, username: string) {
    exists id :: id in users && users[id].username == username
  }

  /** The primary key, the unique username and the unique index on the admin role. */
  predicate Insertable(users: map<string, User>, u: User) {
    u.id !in users && !Taken(users, u.username) && (u.role == Admin ==> !HasAdmin(users))
  }

  /** What the constraints keep true of the table. */
  ghost predicate UsersOk(users: map<string, User>) {
    && (forall id :: id in users ==> users[id].id == id)
    && (forall i, j :: i in users && j in users && users[i].username == users[j].username ==> i == j)
    && (forall i, j :: i in users && j in users && users[i].role == Admin && users[j].role == Admin ==> i == j)
  }

  ghost function UserNamed(users: map<string, User>, username: string): Option<User> {
    if Taken(users, username) then
      var id :| id in users && users[id].username == username;
      Some(users[id])
    else None
  }

  lemma UserNamedUnique(users: map<string, User>, id: string)
    requires UsersOk(users) && id in users
    ensures UserNamed(users, users[id].username) == Some(users[id])
  {
  }

  // ----- the operations on values -----

  function CredentialsError(username: string, password: string): Option<AuthError> {
    if username == "" then Some(UsernameRequired) else if password == "" then Some(PasswordRequired) else None
  }

  /** `CreateUser`; `hash` is the password's bcrypt hash, which the library may refuse to compute. */
  function CreateUser(s: State, id: string, username: string, password: string, role: Role, hash: Option<string>,
                      now: int)
    : (State, Result<User, AuthError>)
  {
    if CredentialsError(username, password).Some? then (s, Err(CredentialsError(username, password).value))
    else if !Valid(role) then (s, Err(InvalidRole))
    else if hash == None then (s, Err(HashFailed))
    else
      var u := User(id, username, hash.value, role, now);
      if !Insertable(s.users, u) then (s, Err(ConstraintViolated))
      else (s.(users := s.users[id := u]), Ok(u))
  }

  function Setup(s: State, id: string, username: string, password: string, hash: Option<string>, now: int)
    : (State, Result<User, AuthError>)
  {
    if CredentialsError(username, password).Some? then (s, Err(CredentialsError(username, password).value))
    else if HasAdmin(s.users) then (s, Err(AlreadyInitialized))
    else CreateUser(s, id, username, password, Admin, hash, now)
  }

  function Unexpired(sessions: map<string, Session>, now: int): map<string, Session> {
    map t | t in sessions && now < sessions[t].expiresAt :: sessions[t]
  }

  function WithoutUser(sessions: map<string, Session>, id: string): map<string, Session> {
    map t | t in sessions && sessions[t].userId != id :: sessions[t]
  }

  function SessionFor(u: User, token: string, now: int): Session {
    Session(token, u.id, u.username, u.role, now + SESSION_TTL)
  }

  /** The user a login would be for, `matches` being bcrypt's comparison of hash and password. */
  ghost function Authenticated(s: State, username: string, password: string,
                               matches: (string, string) -> bool): Option<User> {
    if username == "" || password == "" then None
    else
      match UserNamed(s.users, username)
      case None => None
      case Some(u) => if matches(u.passwordHash, password) then Some(u) else None
  }

  ghost function Login(s: State, username: string, password: string, token: string, now: int,
                       matches: (string, string) -> bool)
    : (State, Result<Session, AuthError>)
  {
    match Authenticated(s, username, password, matches)
    case None => (s, Err(InvalidCredentials))
    case Some(u) =>
      var session := SessionFor(u, token, now);
      (s.(sessions := Unexpired(s.sessions, now)[token := session]), Ok(session))
  }

  /** `ValidateSession`; `again` is the second reading of the clock, taken under the write lock. */
  function ValidateSession(s: State, token: string, now: int, again: int): (State, Option<Session>) {
    if token == "" || token !in s.sessions then (s, None)
    else if now >= s.sessions[token].expiresAt then
      (if again >= s.sessions[token].expiresAt then s.(sessions := s.sessions - {token}) else s, None)
    else (s, Some(s.sessions[token]))
  }

  function Logout(s: State, token: string): State {
    s.(sessions := s.sessions - {token})
  }

  function DeleteUser(s: State, id: string): (State, Option<AuthError>) {
    if id == "" then (s, Some(UserIdRequired))
    else if id !in s.users then (s, Some(UserNotFound))
    else (s.(users := s.users - {id}, sessions := WithoutUser(s.sessions, id)), None)
  }

  function SetConfig(s: State, key: string, value: string): (State, Option<AuthError>) {
    if key == "" then (s, Some(ConfigKeyRequired)) else (s.(config := s.config[key := value]), None)
  }

}

/** What each operation on users and sessions answers and leaves behind, in its caller's terms. */
module AuthLaws {
  import opened Wrappers
  import opened AuthModel

  /** The user exists under this name and the password is the user's. */
  predicate Accepts(users: map<string, User>, username: string, password: string, matches: (string, string) -> bool, u: User) {
    && username != "" && password != ""
    && u.id in users && users[u.id] == u && u.username == username && matches(u.passwordHash, password)
  }

  /** A login is for exactly the user who exists under the name and whose password it is. */
  lemma AuthenticatedIff(s: State, username: string, password: string, matches: (string, string) -> bool, u: User)
    requires UsersOk(s.users)
    ensures Authenticated(s, username, password, matches) == Some(u) <==> Accepts(s.users, username, password, matches, u)
  {
    if Accepts(s.users, username, password, matches, u) {
      UserNamedUnique(s.users, u.id);
    }
  }

  /**
   * A login succeeds exactly with the name of a user and that user's password. The session is the
   * user's, for a day; it is stored under its token and the sessions that have expired are dropped. A
   * refusal changes nothing.
   */
  lemma LoginLaw(s: State, username: string, password: string, token: string, now: int, matches: (string, string) -> bool)
    requires UsersOk(s.users)
    ensures var (s', r) := Login(s, username, password, token, now, matches);
            && (r.Ok? <==> exists id :: id in s.users && Accepts(s.users, username, password, matches, s.users[id]))
            && (r.Err? ==> s' == s && r.error == InvalidCredentials)
            && (r.Ok? ==>
                  && r.value.token == token && r.value.userId in s.users && r.value.expiresAt == now + 86400
                  && Accepts(s.users, username, password, matches, s.users[r.value.userId])
                  && r.value.username == username && r.value.role == s.users[r.value.userId].role
                  && s'.users == s.users && s'.config == s.config
                  && token in s'.sessions && s'.sessions[token] == r.value
                  && forall t :: t != token ==> (t in s'.sessions <==> t in s.sessions && now < s.sessions[t].expiresAt)
                                                && (t in s'.sessions ==> s'.sessions[t] == s.sessions[t]))
  {
    if exists id :: id in s.users && Accepts(s.users, username, password, matches, s.users[id]) {
      var id :| id in s.users && Accepts(s.users, username, password, matches, s.users[id]);
      AuthenticatedIff(s, username, password, matches, s.users[id]);
    }
    var found := Authenticated(s, username, password, matches);
    if found.Some? {
      AuthenticatedIff(s, username, password, matches, found.value);
    }
  }

  /** A token is accepted exactly if its session is stored and has not expired; an expired one is dropped. */
  lemma ValidateLaw(s: State, token: string, now: int, again: int)
    requires now <= again
    ensures var (s', r) := ValidateSession(s, token, now, again);
            && (r.Some? <==> token != "" && token in s.sessions && now < s.sessions[token].expiresAt)
            && (r.Some? ==> r.value == s.sessions[token] && s' == s)
            && (r == None ==> s' == if token == "" then s else s.(sessions := s.sessions - {token}))
  {
    if token !in s.sessions {
      assert s.sessions - {token} == s.sessions;
    }
  }

  lemma LogoutLaw(s: State, token: string, t: string)
    ensures var s' := Logout(s, token);
            && s'.users == s.users && s'.config == s.config
            && (t in s'.sessions <==> t in s.sessions && t != token)
            && (t in s'.sessions ==> s'.sessions[t] == s.sessions[t])
  {
  }

  /** Deleting a user drops that user and exactly that user's sessions. */
  lemma DeleteUserLaw(s: State, id: string, i: string, t: string)
    ensures var (s', e) := DeleteUser(s, id);
            && e == (if id == "" then Some(UserIdRequired) else if id in s.users then None else Some(UserNotFound))
            && (e.Some? ==> s' == s)
            && (e == None ==>
                  && s'.config == s.config
                  && (i in s'.users <==> i in s.users && i != id) && (i in s'.users ==> s'.users[i] == s.users[i])
                  && (t in s'.sessions <==> t in s.sessions && s.sessions[t].userId != id)
                  && (t in s'.sessions ==> s'.sessions[t] == s.sessions[t]))
  {
  }

  /** Who may be added: a named user with a password and a known role, under an unused id and name, and one admin at most. */
  predicate Addable(users: map<string, User>, id: string, username: string, password: string, role: Role, hash: Option<string>) {
    && username != "" && password != "" && hash.Some? && (role == Admin || role == Contributor || role == Reader)
    && (forall i :: i in users ==> i != id && users[i].username != username && (role == Admin ==> users[i].role != Admin))
  }

  /** A user is created exactly if it may be added, as requested and with the password's hash; otherwise nothing changes. */
  lemma CreateUserLaw(s: State, id: string, username: string, password: string, role: Role, hash: Option<string>, now: int)
    ensures var (s', r) := CreateUser(s, id, username, password, role, hash, now);
            && (r.Ok? <==> Addable(s.users, id, username, password, role, hash))
            && (r.Err? ==> s' == s)
            && (r.Ok? ==> r.value == User(id, username, hash.value, role, now) && s' == s.(users := s.users[id := r.value]))
            && (r.Err? ==> r.error == if username == "" then UsernameRequired else if password == "" then PasswordRequired
                                      else if role.Unknown? then InvalidRole else if hash == None then HashFailed
                                      else ConstraintViolated)
  {
  }

  /** Setup creates an admin, exactly if there is none yet and the user may be added. */
  lemma SetupLaw(s: State, id: string, username: string, password: string, hash: Option<string>, now: int)
    ensures var (s', r) := Setup(s, id, username, password, hash, now);
            && (r.Ok? <==> Addable(s.users, id, username, password, Admin, hash))
            && (r.Err? ==> s' == s)
            && (r.Ok? ==> r.value == User(id, username, hash.value, Admin, now) && s' == s.(users := s.users[id := r.value]))
            && (r == Err(AlreadyInitialized) <==> username != "" && password != ""
                                                  && exists i :: i in s.users && s.users[i].role == Admin)
            && (r.Err? && r != Err(AlreadyInitialized) ==>
                  r.error == if username == "" then UsernameRequired else if password == "" then PasswordRequired
                             else if hash == None then HashFailed else ConstraintViolated)
  {
    CreateUserLaw(s, id, username, password, Admin, hash, now);
  }

  lemma SetConfigLaw(s: State, key: string, value: string, k: string)
    ensures var (s', e) := SetConfig(s, key, value);
            && e == (if key == "" then Some(ConfigKeyRequired) else None)
            && s'.users == s.users && s'.sessions == s.sessions
            && (k in s'.config <==> k in s.config || (k == key && key != ""))
            && (k in s'.config ==> s'.config[k] == if k == key && key != "" then value else s.config[k])
  {
  }
}

/** The service whose maps the operations update in place. */
module Auth {
  import opened Wrappers
  import opened AuthModel

  class Service {
    var users: map<string, User>
    var sessions: map<string, Session>
    var config: map<string, string>

    ghost function Abs(): State
      reads this
    {
      State(users, sessions, config)
    }

    constructor ()
      ensures Abs() == EMPTY
    {
      users, sessions, config := map[], map[], map[];
    }

    method CreateUser(id: string, username: string, password: string, role: Role, hash: Option<string>, now: int)
      returns (res: Result<User, AuthError>)
      modifies this
      ensures (Abs(), res) == AuthModel.CreateUser(old(Abs()), id, username, password, role, hash, now)
    {
      var bad := CredentialsError(username, password);
      if bad.Some? {
        return Err(bad.value);
      }
      if !Valid(role) {
        return Err(InvalidRole);
      }
      if hash == None {
        return Err(HashFailed);
      }
      var u := User(id, username, hash.value, role, now);
      if !Insertable(users, u) {
        return Err(ConstraintViolated);
      }
      users := users[id := u];
      return Ok(u);
    }

    method Setup(id: string, username: string, password: string, hash: Option<string>, now: int)
      returns (res: Result<User, AuthError>)
      modifies this
      ensures (Abs(), res) == AuthModel.Setup(old(Abs()), id, username, password, hash, now)
    {
      var bad := CredentialsError(username, password);
      if bad.Some? {
        return Err(bad.value);
      }
      if HasAdmin(users) {
        return Err(AlreadyInitialized);
      }
      res := CreateUser(id, username, password, Admin, hash, now);
    }

    /** `SELECT ... FROM users WHERE username = ?`. */
    method GetUserByUsername(username: string) returns (res: Option<User>)
      requires UsersOk(users)
      ensures res == UserNamed(users, username)
    {
      if !Taken(users, username) {
        return None;
      }
      var id :| id in users && users[id].username == username;
      UserNamedUnique(users, id);
      return Some(users[id]);
    }

    method Login(username: string, password: string, token: string, now: int, matches: (string, string) -> bool)
      returns (res: Result<Session, AuthError>)
      requires UsersOk(users)
      modifies this
      ensures (Abs(), res) == AuthModel.Login(old(Abs()), username, password, token, now, matches)
    {
      if username == "" || password == "" {
        return Err(InvalidCredentials);
      }
      var user := GetUserByUsername(username);
      if user == None || !matches(user.value.passwordHash, password) {
        return Err(InvalidCredentials);
      }
      var session := SessionFor(user.value, token, now);
      ghost var before := sessions;
      var rest := sessions.Keys;
      while rest != {}
        invariant rest <= before.Keys
        invariant users == old(users) && config == old(config)
        invariant sessions == map t | t in before && (t in rest || now < before[t].expiresAt) :: before[t]
        decreases |rest|
      {
        var existing :| existing in rest;
        if now >= sessions[existing].expiresAt {
          sessions := sessions - {existing};
        }
        rest := rest - {existing};
      }
      assert sessions == Unexpired(before, now);
      sessions := sessions[token := session];
      return Ok(session);
    }

    method ValidateSession(token: string, now: int, again: int) returns (res: Option<Session>)
      modifies this
      ensures (Abs(), res) == AuthModel.ValidateSession(old(Abs()), token, now, again)
    {
      if token == "" || token !in sessions {
        return None;
      }
      var session := sessions[token];
      if now >= session.expiresAt {
        if again >= session.expiresAt {
          sessions := sessions - {token};
        }
        return None;
      }
      return Some(session);
    }

    method Logout(token: string)
      modifies this
      ensures Abs() == AuthModel.Logout(old(Abs()), token)
    {
      sessions := sessions - {token};
    }

    method DeleteUser(id: string) returns (res: Option<AuthError>)
      modifies this
      ensures (Abs(), res) == AuthModel.DeleteUser(old(Abs()), id)
    {
      if id == "" {
        return Some(UserIdRequired);
      }
      if id !in users {
        return Some(UserNotFound);
      }
      users := users - {id};
      ghost var before := sessions;
      var rest := sessions.Keys;
      while rest != {}
        invariant rest <= before.Keys
        invariant users == old(users) - {id} && config == old(config)
        invariant sessions == map t | t in before && (t in rest || before[t].userId != id) :: before[t]
        decreases |rest|
      {
        var token :| token in rest;
        if sessions[token].userId == id {
          sessions := sessions - {token};
        }
        rest := rest - {token};
      }
      assert sessions == WithoutUser(before, id);
      return None;
    }

    method SetConfig(key: string, value: string) returns (res: Option<AuthError>)
      modifies this
      ensures (Abs(), res) == AuthModel.SetConfig(old(Abs()), key, value)
    {
      if key == "" {
        return Some(ConfigKeyRequired);
      }
      config := config[key := value];
      return None;
    }
  }

}

/** Runs of the service: a session is valid exactly when its history says so. */
module AuthRuns {
  import opened Wrappers
  import opened AuthModel
  import opened AuthLaws

  datatype Event =
    | LoginEvent(username: string, password: string, token: string, now: int)
    | ValidateEvent(sought: string, now: int, again: int)
    | LogoutEvent(ended: string)
    | CreateEvent(id: string, username: string, password: string, role: Role, hash: Option<string>, now: int)
    | SetupEvent(id: string, username: string, password: string, hash: Option<string>, now: int)
    | DeleteEvent(id: string)

  ghost function Step(s: State, e: Event, matches: (string, string) -> bool): State {
    match e
    case LoginEvent(username, password, token, now) => Login(s, username, password, token, now, matches).0
    case ValidateEvent(token, now, again) => ValidateSession(s, token, now, again).0
    case LogoutEvent(token) => Logout(s, token)
    case CreateEvent(id, username, password, role, hash, now) => CreateUser(s, id, username, password, role, hash, now).0
    case SetupEvent(id, username, password, hash, now) => Setup(s, id, username, password, hash, now).0
    case DeleteEvent(id) => DeleteUser(s, id).0
  }

  ghost function Run(events: seq<Event>, matches: (string, string) -> bool): State {
    if events == [] then EMPTY else Step(Run(events[..|events| - 1], matches), events[|events| - 1], matches)
  }

  /** The last reading of the clock in an event that reads it. */
  function Clock(e: Event): Option<int> {
    match e
    case LoginEvent(_, _, _, now) => Some(now)
    case ValidateEvent(_, now, again) => Some(again)
    case _ => None
  }

  /** The clock never goes back, and every login draws a token no earlier login drew. */
  ghost predicate Proper(events: seq<Event>, clock: int) {
    && (forall i :: 0 <= i < |events| && Clock(events[i]).Some? ==> Clock(events[i]).value <= clock)
    && (forall i :: 0 <= i < |events| && events[i].ValidateEvent? ==> events[i].now <= events[i].again)
    && (forall i, j :: 0 <= i < j < |events| && Clock(events[i]).Some? && events[j].LoginEvent?
                       ==> Clock(events[i]).value <= events[j].now)
    && (forall i, j :: 0 <= i < j < |events| && Clock(events[i]).Some? && events[j].ValidateEvent?
                       ==> Clock(events[i]).value <= events[j].now)
    && (forall i :: 0 <= i < |events| && events[i].LoginEvent? ==> events[i].token != "")
    && (forall i, j :: 0 <= i < j < |events| && events[i].LoginEvent? && events[j].LoginEvent?
                       ==> events[i].token != events[j].token)
  }

  /** Login `i` of the run succeeded for `u` and drew `token`. */
  ghost predicate Issued(events: seq<Event>, matches: (string, string) -> bool, i: nat, token: string, u: User) {
    && i < |events| && events[i].LoginEvent? && events[i].token == token
    && Accepts(Run(events[..i], matches).users, events[i].username, events[i].password, matches, u)
  }

  /** Event `j` of the run ended `token`, which was drawn for the user `id`. */
  ghost predicate Revoked(events: seq<Event>, matches: (string, string) -> bool, j: nat, token: string, id: string) {
    && j < |events|
    && (events[j] == LogoutEvent(token)
        || (events[j] == DeleteEvent(id) && id != "" && id in Run(events[..j], matches).users))
  }

  /** The history's own answer: drawn by some login less than a day before `now`, and not ended since. */
  ghost predicate Live(events: seq<Event>, matches: (string, string) -> bool, token: string, now: int) {
    exists i: nat, u ::
      && Issued(events, matches, i, token, u)
      && now < events[i].now + 24 * 60 * 60
      && forall j: nat :: i < j ==> !Revoked(events, matches, j, token, u.id)
  }

  /** Drawn by login `i` and not ended since, whatever the clock says. */
  ghost predicate Standing(events: seq<Event>, matches: (string, string) -> bool, i: nat, token: string, u: User) {
    Issued(events, matches, i, token, u) && forall j: nat :: i < j ==> !Revoked(events, matches, j, token, u.id)
  }

  /** Every stored session belongs to a user who exists with the same name and role. */
  ghost predicate SessionsOk(s: State) {
    && UsersOk(s.users)
    && forall t :: t in s.sessions ==>
         var session := s.sessions[t];
         && session.token == t && session.userId in s.users
         && s.users[session.userId].username == session.username && s.users[session.userId].role == session.role
  }

  lemma InsertKeepsUsersOk(users: map<string, User>, u: User)
    requires UsersOk(users) && Insertable(users, u)
    ensures UsersOk(users[u.id := u])
  {
  }

  lemma CreateKeepsUsersOk(s: State, id: string, username: string, password: string, role: Role, hash: Option<string>,
                           now: int)
    requires UsersOk(s.users)
    ensures var users := CreateUser(s, id, username, password, role, hash, now).0.users;
            UsersOk(users) && forall k :: k in s.users ==> k in users && users[k] == s.users[k]
  {
    if CreateUser(s, id, username, password, role, hash, now).1.Ok? {
      InsertKeepsUsersOk(s.users, User(id, username, hash.value, role, now));
    }
  }

  lemma CreateKeepsSessions(s: State, id: string, username: string, password: string, role: Role,
                            hash: Option<string>, now: int)
    ensures CreateUser(s, id, username, password, role, hash, now).0.sessions == s.sessions
  {
  }

  lemma AuthenticatedExists(s: State, username: string, password: string, matches: (string, string) -> bool)
    requires UsersOk(s.users)
    ensures var found := Authenticated(s, username, password, matches);
            found.Some? ==> found.value.id in s.users && s.users[found.value.id] == found.value
  {
  }

  lemma StepKeepsSessionsOk(s: State, e: Event, matches: (string, string) -> bool)
    requires SessionsOk(s)
    ensures SessionsOk(Step(s, e, matches))
  {
    hide CreateUser, Authenticated;
    match e
    case CreateEvent(id, username, password, role, hash, now) =>
      CreateKeepsUsersOk(s, id, username, password, role, hash, now);
      CreateKeepsSessions(s, id, username, password, role, hash, now);
    case SetupEvent(id, username, password, hash, now) =>
      CreateKeepsUsersOk(s, id, username, password, Admin, hash, now);
      CreateKeepsSessions(s, id, username, password, Admin, hash, now);
    case LoginEvent(username, password, token, now) =>
      AuthenticatedExists(s, username, password, matches);
    case _ =>
  }

  lemma {:induction false} RunKeepsSessionsOk(events: seq<Event>, matches: (string, string) -> bool)
    ensures SessionsOk(Run(events, matches))
  {
    if events != [] {
      RunKeepsSessionsOk(events[..|events| - 1], matches);
      StepKeepsSessionsOk(Run(events[..|events| - 1], matches), events[|events| - 1], matches);
    }
  }

  /** A longer run says the same about its earlier events. */
  lemma Prefixes(events: seq<Event>, i: nat)
    requires events != [] && i < |events|
    ensures events[..|events| - 1][..i] == events[..i]
  {
  }

  /** Extending a run by `e` keeps a standing token exactly if `e` does not end it. */
  lemma StandingExtends(events: seq<Event>, matches: (string, string) -> bool, i: nat, token: string, u: User)
    requires events != []
    ensures var init := events[..|events| - 1];
            i < |init| ==>
              (Standing(events, matches, i, token, u)
               <==> Standing(init, matches, i, token, u) && !Revoked(events, matches, |init|, token, u.id))
  {
    var init := events[..|events| - 1];
    if i < |init| {
      Prefixes(events, i);
      forall j: nat | j < |init|
        ensures Revoked(events, matches, j, token, u.id) <==> Revoked(init, matches, j, token, u.id)
      {
        Prefixes(events, j);
      }
    }
  }

  /** The entries that are unexpired at `now` are exactly the standing logins that are. */
  ghost predicate Agrees(events: seq<Event>, matches: (string, string) -> bool, now: int) {
    var sessions := Run(events, matches).sessions;
    && (forall t :: t in sessions && now < sessions[t].expiresAt ==> Backed(events, matches, t, sessions[t]))
    && (forall i: nat, t, u :: Standing(events, matches, i, t, u) && now < events[i].now + SESSION_TTL
                               ==> t in sessions && sessions[t] == SessionFor(u, t, events[i].now))
  }

  /** Some login that still stands accounts for the session. */
  ghost predicate Backed(events: seq<Event>, matches: (string, string) -> bool, t: string, session: Session) {
    exists i: nat, u :: Standing(events, matches, i, t, u) && session == SessionFor(u, t, events[i].now)
  }

  lemma BackedExtends(events: seq<Event>, matches: (string, string) -> bool, t: string, session: Session)
    requires events != []
    requires Backed(events[..|events| - 1], matches, t, session)
    requires !Revoked(events, matches, |events| - 1, t, session.userId)
    ensures Backed(events, matches, t, session)
  {
    var init := events[..|events| - 1];
    var i: nat, u :| Standing(init, matches, i, t, u) && session == SessionFor(u, t, init[i].now);
    StandingExtends(events, matches, i, t, u);
  }

  /** The session an event stores, if it stores one. */
  ghost function Stored(s: State, e: Event, matches: (string, string) -> bool): Option<Session> {
    if !e.LoginEvent? then None
    else match Authenticated(s, e.username, e.password, matches)
      case None => None
      case Some(u) => Some(SessionFor(u, e.token, e.now))
  }

  /** The event surely ends the session, whatever the clock says. */
  ghost predicate Ends(s: State, e: Event, session: Session) {
    || e == LogoutEvent(session.token)
    || (e == DeleteEvent(session.userId) && DeleteUser(s, e.id).1 == None)
  }

  /** The event takes the session away: it has expired by then, or it is ended. */
  ghost predicate Drops(s: State, e: Event, session: Session) {
    (Clock(e).Some? && Clock(e).value >= session.expiresAt) || Ends(s, e, session)
  }

  /** Where an entry of the new session map comes from. */
  lemma StepEntry(s: State, e: Event, matches: (string, string) -> bool, t: string)
    requires SessionsOk(s)
    requires t in Step(s, e, matches).sessions
    ensures var session := Step(s, e, matches).sessions[t];
            || (Stored(s, e, matches) == Some(session) && t == e.token)
            || (t in s.sessions && s.sessions[t] == session && !Ends(s, e, session))
  {
    hide CreateUser, Authenticated, UsersOk;
    match e
    case CreateEvent(id, username, password, role, hash, now) =>
      CreateKeepsSessions(s, id, username, password, role, hash, now);
    case SetupEvent(id, username, password, hash, now) =>
      CreateKeepsSessions(s, id, username, password, Admin, hash, now);
    case _ =>
  }

  /** When an entry stays. */
  lemma StepStays(s: State, e: Event, matches: (string, string) -> bool, t: string)
    requires SessionsOk(s) && t in s.sessions
    requires e.ValidateEvent? ==> e.now <= e.again
    requires !Drops(s, e, s.sessions[t]) && (e.LoginEvent? ==> e.token != t)
    ensures t in Step(s, e, matches).sessions && Step(s, e, matches).sessions[t] == s.sessions[t]
  {
  }

  lemma EntriesBacked(events: seq<Event>, matches: (string, string) -> bool, now: int, t: string)
    requires events != []
    requires Agrees(events[..|events| - 1], matches, now)
    requires t in Run(events, matches).sessions && now < Run(events, matches).sessions[t].expiresAt
    ensures Backed(events, matches, t, Run(events, matches).sessions[t])
  {
    var last := |events| - 1;
    var init, e := events[..last], events[last];
    var before := Run(init, matches);
    var session := Run(events, matches).sessions[t];
    RunKeepsSessionsOk(init, matches);
    StepEntry(before, e, matches, t);
    if Stored(before, e, matches) == Some(session) && t == e.token {
      var u := Authenticated(before, e.username, e.password, matches).value;
      AuthenticatedIff(before, e.username, e.password, matches, u);
      assert Standing(events, matches, last, t, u);
    } else {
      assert session.token == t;
      BackedExtends(events, matches, t, session);
    }
  }

  lemma SessionsAndUsers(s: State)
    requires SessionsOk(s)
    ensures UsersOk(s.users)
  {
  }

  lemma StandingIssued(events: seq<Event>, matches: (string, string) -> bool, i: nat, t: string, u: User)
    requires Standing(events, matches, i, t, u)
    ensures Issued(events, matches, i, t, u) && i < |events|
  {
  }

  lemma LastStored(events: seq<Event>, matches: (string, string) -> bool, t: string, u: User)
    requires events != [] && Issued(events, matches, |events| - 1, t, u)
    ensures var sessions := Run(events, matches).sessions;
            t in sessions && sessions[t] == SessionFor(u, t, events[|events| - 1].now)
  {
    var last := |events| - 1;
    var before, e := Run(events[..last], matches), events[last];
    RunKeepsSessionsOk(events[..last], matches);
    SessionsAndUsers(before);
    AuthenticatedIff(before, e.username, e.password, matches, u);
    hide Accepts, Authenticated, UsersOk, Unexpired, SessionsOk;
  }

  lemma RunIsStep(events: seq<Event>, matches: (string, string) -> bool)
    requires events != []
    ensures Run(events, matches) == Step(Run(events[..|events| - 1], matches), events[|events| - 1], matches)
  {
  }

  lemma IssuedToken(events: seq<Event>, matches: (string, string) -> bool, i: nat, t: string, u: User)
    requires Issued(events, matches, i, t, u)
    ensures i < |events| && events[i].LoginEvent? && events[i].token == t
  {
  }

  /** The last event of a run does not drop a session that still stands and has not expired. */
  lemma NotDropped(events: seq<Event>, matches: (string, string) -> bool, now: int, i: nat, t: string, u: User)
    requires i < |events| - 1 && Proper(events, now)
    requires Standing(events, matches, i, t, u) && now < events[i].now + SESSION_TTL
    ensures !Drops(Run(events[..|events| - 1], matches), events[|events| - 1], SessionFor(u, t, events[i].now))
  {
    hide Accepts, Run, Issued;
    assert !Revoked(events, matches, |events| - 1, t, u.id);
  }

  lemma AgreesStored(events: seq<Event>, matches: (string, string) -> bool, now: int, i: nat, t: string, u: User)
    requires Agrees(events, matches, now) && Standing(events, matches, i, t, u) && i < |events|
    requires now < events[i].now + SESSION_TTL
    ensures var sessions := Run(events, matches).sessions;
            t in sessions && sessions[t] == SessionFor(u, t, events[i].now)
  {
    hide Standing, Run, SessionFor;
  }

  lemma LastProper(events: seq<Event>, now: int, i: nat)
    requires i < |events| - 1 && Proper(events, now)
    ensures var e := events[|events| - 1];
            && (e.ValidateEvent? ==> e.now <= e.again)
            && (e.LoginEvent? && events[i].LoginEvent? ==> e.token != events[i].token)
  {
  }

  lemma EarlierStored(events: seq<Event>, matches: (string, string) -> bool, now: int, i: nat, t: string, u: User)
    requires i < |events| - 1 && Proper(events, now)
    requires Agrees(events[..|events| - 1], matches, now)
    requires Standing(events, matches, i, t, u) && now < events[i].now + SESSION_TTL
    ensures var sessions := Run(events, matches).sessions;
            t in sessions && sessions[t] == SessionFor(u, t, events[i].now)
  {
    hide *;
    var last := |events| - 1;
    StandingExtends(events, matches, i, t, u);
    StandingIssued(events, matches, i, t, u);
    AgreesStored(events[..last], matches, now, i, t, u);
    NotDropped(events, matches, now, i, t, u);
    RunKeepsSessionsOk(events[..last], matches);
    RunIsStep(events, matches);
    LastProper(events, now, i);
    IssuedToken(events, matches, i, t, u);
    StepStays(Run(events[..last], matches), events[last], matches, t);
  }

  lemma StandingStored(events: seq<Event>, matches: (string, string) -> bool, now: int, i: nat, t: string, u: User)
    requires events != [] && Proper(events, now)
    requires Agrees(events[..|events| - 1], matches, now)
    requires Standing(events, matches, i, t, u) && now < events[i].now + SESSION_TTL
    ensures var sessions := Run(events, matches).sessions;
            t in sessions && sessions[t] == SessionFor(u, t, events[i].now)
  {
    hide Standing, Agrees, Proper, Issued, Run;
    if i == |events| - 1 {
      StandingIssued(events, matches, i, t, u);
      LastStored(events, matches, t, u);
    } else {
      StandingIssued(events, matches, i, t, u);
      EarlierStored(events, matches, now, i, t, u);
    }
  }

  lemma {:induction false} RunAgrees(events: seq<Event>, matches: (string, string) -> bool, now: int)
    requires Proper(events, now)
    ensures Agrees(events, matches, now)
  {
    if events != [] {
      RunAgrees(events[..|events| - 1], matches, now);
      var sessions := Run(events, matches).sessions;
      forall t | t in sessions && now < sessions[t].expiresAt
        ensures Backed(events, matches, t, sessions[t])
      {
        EntriesBacked(events, matches, now, t);
      }
      forall i: nat, t, u | Standing(events, matches, i, t, u) && now < events[i].now + SESSION_TTL
        ensures t in sessions && sessions[t] == SessionFor(u, t, events[i].now)
      {
        StandingStored(events, matches, now, i, t, u);
      }
    }
  }

  /**
   * `ValidateSession` answers the history: it accepts a token exactly if some login drew it less
   * than a day ago and neither its logout nor the deletion of its user has happened since, and the
   * session it returns names a user who exists with that name and role.
   */
  lemma ValidationIsHistory(events: seq<Event>, matches: (string, string) -> bool, token: string, now: int, again: int)
    requires Proper(events, now)
    ensures var s := Run(events, matches);
            var answer := ValidateSession(s, token, now, again).1;
            && (answer.Some? <==> Live(events, matches, token, now))
            && (answer.Some? ==> answer.value.userId in s.users
                                 && s.users[answer.value.userId].username == answer.value.username
                                 && s.users[answer.value.userId].role == answer.value.role)
  {
    RunAgrees(events, matches, now);
    RunKeepsSessionsOk(events, matches);
    var sessions := Run(events, matches).sessions;
    if Live(events, matches, token, now) {
      var i: nat, u :| Issued(events, matches, i, token, u) && now < events[i].now + 24 * 60 * 60
                       && forall j: nat :: i < j ==> !Revoked(events, matches, j, token, u.id);
      assert Standing(events, matches, i, token, u);
      assert token != "";
    }
    if token in sessions && now < sessions[token].expiresAt {
      var i: nat, u :| Standing(events, matches, i, token, u) && sessions[token] == SessionFor(u, token, events[i].now);
      assert Issued(events, matches, i, token, u);
      assert Live(events, matches, token, now);
    }
  }
}
