/**
 * The login route of app.py: the order in which a login request is rejected,
 * and the session keys a successful login writes.
 */
module Auth {
  import opened Options
  import opened Passwords

  /**
   * A column read with `dict.get`: the key may be missing, present with a
   * JSON null, or present with a value. The three differ in Python.
   */
  datatype Field<T> = Absent | Null | Present(value: T)

  /** A row of the users table, as far as the modelled routes read it. */
  datatype User = User(
    id: string,
    correo: string,
    fullName: Field<string>,
    telefono: string,
    activo: Field<bool>,
    passwordHash: Field<string>)

  /** The JSON body of a login request; `None` is a missing key or null. */
  datatype LoginRequest = LoginRequest(email: Option<string>, password: Option<string>)

  /** How a login attempt ends. */
  datatype LoginOutcome =
    | Authenticated(user: User)
    | MissingCredentials
    | UserNotFound
    | UserInactive
    | NoPasswordSet
    | WrongPassword

  /** A value stored in the session: a string, or Python's `None`. */
  type SessionValue = Option<string>

  /** Python truthiness of an optional string: present and nonempty. */
  predicate Given(s: Option<string>)
  {
    s.Some? && s.value != ""
  }

  /** `user.get('activo', True)` is truthy: a missing column counts as active, a null as inactive. */
  predicate IsActive(u: User)
    ensures IsActive(u) <==> u.activo == Absent || u.activo == Present(true)
  {
    match u.activo
    case Absent => true
    case Null => false
    case Present(b) => b
  }

  /** `user.get('password_hash')`: missing and null both read as `None`. */
  function StoredHash(u: User): (h: Option<string>)
    ensures h.Some? <==> u.passwordHash.Present?
  {
    match u.passwordHash
    case Present(h) => Some(h)
    case _ => None
  }

  /** `user.get('full_name', '')`: a missing name is `''`, a null name stays `None`. */
  function SessionName(u: User): (name: SessionValue)
    ensures u.fullName == Absent ==> name == Some("")
    ensures u.fullName == Null ==> name == None
    ensures u.fullName.Present? ==> name == Some(u.fullName.value)
  {
    match u.fullName
    case Absent => Some("")
    case Null => None
    case Present(n) => Some(n)
  }

  /** `select('*').eq('correo', email)` followed by `data[0]`: the first user with that email. */
  function FirstByEmail(users: seq<User>, email: string): (found: Option<User>)
    ensures found.Some? ==> found.value in users && found.value.correo == email
    ensures found.Some? ==>
      exists i :: 0 <= i < |users| && users[i] == found.value && forall j :: 0 <= j < i ==> users[j].correo != email
    ensures found.None? <==> forall u :: u in users ==> u.correo != email
  {
    if users == [] then None
    else if users[0].correo == email then Some(users[0])
    else
      FirstByEmail(users[1..], email)
  }

  /**
   * The decision chain of `api_login`, in the order `api_login` checks them:
   * credentials present, user found, user active, hash present, hash verified.
   */
  function LoginDecision(req: LoginRequest, users: seq<User>, bcrypt: Checker, werkzeug: Checker): (outcome: LoginOutcome)
    ensures outcome == MissingCredentials <==> !Given(req.email) || !Given(req.password)
    ensures outcome == UserNotFound <==>
      Given(req.email) && Given(req.password) && forall u :: u in users ==> u.correo != req.email.value
    ensures outcome.Authenticated? ==>
      outcome.user in users && outcome.user.correo == req.email.value && IsActive(outcome.user)
      && Given(StoredHash(outcome.user))
      && VerifyPassword(req.password.value, StoredHash(outcome.user), bcrypt, werkzeug)
    ensures outcome == UserInactive || outcome == NoPasswordSet || outcome == WrongPassword ==>
      Given(req.email) && Given(req.password) && exists u :: u in users && u.correo == req.email.value
    ensures outcome == UserInactive <==>
      Given(req.email) && Given(req.password) && FirstByEmail(users, req.email.value).Some?
      && !IsActive(FirstByEmail(users, req.email.value).value)
    ensures outcome == NoPasswordSet <==>
      Given(req.email) && Given(req.password) && FirstByEmail(users, req.email.value).Some?
      && IsActive(FirstByEmail(users, req.email.value).value)
      && !Given(StoredHash(FirstByEmail(users, req.email.value).value))
    ensures outcome == WrongPassword <==>
      Given(req.email) && Given(req.password) && FirstByEmail(users, req.email.value).Some?
      && IsActive(FirstByEmail(users, req.email.value).value)
      && Given(StoredHash(FirstByEmail(users, req.email.value).value))
      && !VerifyPassword(req.password.value, StoredHash(FirstByEmail(users, req.email.value).value), bcrypt, werkzeug)
  {
    if !Given(req.email) || !Given(req.password) then MissingCredentials
    else match FirstByEmail(users, req.email.value)
      case None => UserNotFound
      case Some(u) =>
        if !IsActive(u) then UserInactive
        else if !Given(StoredHash(u)) then NoPasswordSet
        else if VerifyPassword(req.password.value, StoredHash(u), bcrypt, werkzeug) then Authenticated(u)
        else WrongPassword
  }

  /** The HTTP status `api_login` answers with. */
  function StatusOf(outcome: LoginOutcome): (code: int)
    ensures outcome == MissingCredentials ==> code == 400
    ensures outcome.Authenticated? ==> code == 200
    ensures outcome != MissingCredentials && !outcome.Authenticated? ==> code == 401
  {
    match outcome
    case Authenticated(_) => 200
    case MissingCredentials => 400
    case _ => 401
  }

  /** A missing email or password is answered before the users table is consulted. */
  lemma MissingFieldsNeedNoLookup(req: LoginRequest, users1: seq<User>, users2: seq<User>,
                                  b1: Checker, w1: Checker, b2: Checker, w2: Checker)
    requires !Given(req.email) || !Given(req.password)
    ensures LoginDecision(req, users1, b1, w1) == LoginDecision(req, users2, b2, w2) == MissingCredentials
    ensures StatusOf(LoginDecision(req, users1, b1, w1)) == 400
  {
  }

  /**
   * An inactive user is rejected before any hash comparison: neither the
   * checkers nor that user's stored hash affect the answer.
   */
  lemma InactiveRejectedBeforeHash(req: LoginRequest, users: seq<User>, i: nat, hash: Field<string>,
                                   b1: Checker, w1: Checker, b2: Checker, w2: Checker)
    requires Given(req.email) && Given(req.password)
    requires i < |users| && users[i].correo == req.email.value
    requires forall j :: 0 <= j < i ==> users[j].correo != req.email.value
    requires !IsActive(users[i])
    ensures LoginDecision(req, users, b1, w1) == UserInactive
    ensures LoginDecision(req, users[i := users[i].(passwordHash := hash)], b2, w2) == UserInactive
  {
    FirstByEmailAt(users, i, req.email.value);
    FirstByEmailAt(users[i := users[i].(passwordHash := hash)], i, req.email.value);
  }

  /** The lookup finds the first row whose email matches. */
  lemma {:induction false} FirstByEmailAt(users: seq<User>, i: nat, email: string)
    requires i < |users| && users[i].correo == email
    requires forall j :: 0 <= j < i ==> users[j].correo != email
    ensures FirstByEmail(users, email) == Some(users[i])
  {
    if i > 0 {
      FirstByEmailAt(users[1..], i - 1, email);
    }
  }

  /** A missing `activo` column counts as active. */
  lemma MissingActivoIsActive(u: User)
    requires u.activo == Absent
    ensures IsActive(u)
  {
  }

  /** A login succeeds exactly when every check of the chain passes. */
  lemma AuthenticatedIff(req: LoginRequest, users: seq<User>, bcrypt: Checker, werkzeug: Checker, u: User)
    ensures LoginDecision(req, users, bcrypt, werkzeug) == Authenticated(u) <==>
      Given(req.email) && Given(req.password)
      && FirstByEmail(users, req.email.value) == Some(u)
      && IsActive(u)
      && u.passwordHash.Present? && u.passwordHash.value != ""
      && VerifyPassword(req.password.value, Some(u.passwordHash.value), bcrypt, werkzeug)
  {
  }

  /**
   * The Flask session, as a dictionary from key to value.
   */
  class Session {
    var entries: map<string, SessionValue>

    constructor ()
      ensures entries == map[]
    {
      entries := map[];
    }

    /** Whether `login_required` lets a request through. */
    predicate LoggedIn()
      reads this
    {
      "user_id" in entries
    }

    /**
     * `api_login`: decides the request and, only when it succeeds, writes
     * `user_id`, `user_email` and `user_name`; every other outcome leaves the
     * session as it was.
     */
    method Login(req: LoginRequest, users: seq<User>, bcrypt: Checker, werkzeug: Checker)
      returns (outcome: LoginOutcome, status: int)
      modifies this
      ensures outcome == LoginDecision(req, users, bcrypt, werkzeug)
      ensures status == StatusOf(outcome)
      ensures outcome.Authenticated? ==>
        entries == old(entries)["user_id" := Some(outcome.user.id)]
                               ["user_email" := Some(outcome.user.correo)]
                               ["user_name" := SessionName(outcome.user)]
        && LoggedIn()
      ensures !outcome.Authenticated? ==> entries == old(entries)
    {
      outcome := LoginDecision(req, users, bcrypt, werkzeug);
      status := StatusOf(outcome);
      if outcome.Authenticated? {
        var u := outcome.user;
        entries := entries["user_id" := Some(u.id)];
        entries := entries["user_email" := Some(u.correo)];
        entries := entries["user_name" := SessionName(u)];
      }
    }

    /** `api_logout`: `session.clear()`. */
    method Logout()
      modifies this
      ensures entries == map[] && !LoggedIn()
    {
      entries := map[];
    }
  }
}
