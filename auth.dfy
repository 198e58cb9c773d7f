/** Accounts and sessions (controllers/auth.js): registration and login
    checks, the logout blacklist, and the password-reset token. */
module AuthController {
  import opened Http
  import opened Text
  import opened Schema
  import opened Store
  import AuthMiddleware

  // ---------------------------------------------------------------- register

  /** `/^\d{10}$/`: exactly ten ASCII digits. */
  predicate TenDigits(phone: string) {
    |phone| == 10 && AllDigits(phone)
  }

  /** A user already holding this email or this phone, if any. */
  function ContactTaken(d: Db, email: string, phone: string): (r: Option<int>)
    ensures r.Some? ==> r.value in d.users && (d.users[r.value].email == email || d.users[r.value].phone == phone)
    ensures r.None? ==> forall k :: k in d.users && 1 <= k < d.nextId ==>
                          d.users[k].email != email && d.users[k].phone != phone
  {
    FindFirst(d.users, (u: User) => u.email == email || u.phone == phone, d.nextId)
  }

  /** `register` (controllers/auth.js:16-60) up to the insert. Fields arrive
      sanitised, a missing one as "". The checks run in this order and the
      first failure is the answer; an email or phone already on file is 400. */
  function RegisterCheck(d: Db, username: string, email: string, password: string, confirm: string, phone: string)
    : (r: Outcome)
    ensures username == "" ==> r == Fail(BadRequest("username required"))
    ensures username != "" && email == "" ==> r == Fail(BadRequest("email required"))
    ensures username != "" && email != "" && password == "" ==> r == Fail(BadRequest("password required"))
    ensures username != "" && email != "" && password != "" && confirm == "" ==> r == Fail(BadRequest("confirmation required"))
    ensures username != "" && email != "" && password != "" && confirm != "" && password != confirm ==>
              r == Fail(BadRequest("passwords differ"))
    ensures username != "" && email != "" && password != "" && password == confirm && |password| < 6 ==>
              r == Fail(BadRequest("password too short"))
    ensures r.Fail? ==> r.error.BadRequest?
    ensures r.Pass? <==>
              && username != "" && email != "" && password != "" && password == confirm && |password| >= 6
              && TenDigits(phone) && ContactTaken(d, email, phone).None?
  {
    if username == "" then Fail(BadRequest("username required"))
    else if email == "" then Fail(BadRequest("email required"))
    else if password == "" then Fail(BadRequest("password required"))
    else if confirm == "" then Fail(BadRequest("confirmation required"))
    else if password != confirm then Fail(BadRequest("passwords differ"))
    else if |password| < 6 then Fail(BadRequest("password too short"))
    else if phone == "" then Fail(BadRequest("phone required"))
    else if !TenDigits(phone) then Fail(BadRequest("phone must be ten digits"))
    else if ContactTaken(d, email, phone).Some? then Fail(BadRequest("already registered"))
    else Pass
  }

  /** The account `register` creates: enabled, role USER, no reset token. */
  function NewUser(username: string, email: string, hashed: string, phone: string): User {
    User(username, email, phone, hashed, true, "USER", None, None)
  }

  /** `hash` stands for bcrypt. */
  method Register(db: Database, username: string, email: string, password: string, confirm: string, phone: string,
                  hash: string -> string) returns (r: Outcome, id: int)
    requires db.Valid()
    modifies db
    ensures db.Valid()
    ensures r == RegisterCheck(old(db.Snapshot()), username, email, password, confirm, phone)
    ensures r.Pass? ==> id == old(db.nextId)
                        && db.Snapshot() == old(db.Snapshot()).(users := old(db.users)[id := NewUser(username, email, hash(password), phone)],
                                                                nextId := id + 1)
    ensures r.Fail? ==> db.Snapshot() == old(db.Snapshot())
  {
    id := 0;
    r := RegisterCheck(db.Snapshot(), username, email, password, confirm, phone);
    if r.Pass? {
      id := db.FreshId();
      db.users := db.users[id := NewUser(username, email, hash(password), phone)];
    }
  }

  /** No two accounts share an email or a phone. */
  predicate ContactsUnique(users: map<int, User>) {
    forall i, j :: i in users && j in users && i != j ==> users[i].email != users[j].email && users[i].phone != users[j].phone
  }

  /** Registration keeps emails and phones unique: the new account clashes with none. */
  lemma RegisterKeepsContactsUnique(d: Db, username: string, email: string, password: string, confirm: string,
                                    phone: string, hashed: string)
    requires d.Valid() && ContactsUnique(d.users)
    requires RegisterCheck(d, username, email, password, confirm, phone).Pass?
    ensures ContactsUnique(d.users[d.nextId := NewUser(username, email, hashed, phone)])
  {
    var users := d.users[d.nextId := NewUser(username, email, hashed, phone)];
    forall i, j | i in users && j in users && i != j
      ensures users[i].email != users[j].email && users[i].phone != users[j].phone
    {
      if i == d.nextId {
        assert j in d.users && 1 <= j < d.nextId;
      } else if j == d.nextId {
        assert i in d.users && 1 <= i < d.nextId;
      }
    }
  }

  // ---------------------------------------------------------------- login

  /** The claims `login` signs. */
  datatype Payload = Payload(id: int, username: string, email: string, role: string)

  function UserNamed(d: Db, username: string): (r: Option<int>)
    ensures r.Some? ==> r.value in d.users && d.users[r.value].username == username
    ensures r.Some? ==> forall k :: k in d.users && 1 <= k < r.value ==> d.users[k].username != username
    ensures r.None? ==> forall k :: k in d.users && 1 <= k < d.nextId ==> d.users[k].username != username
  {
    FindFirst(d.users, (u: User) => u.username == username, d.nextId)
  }

  /** `String(user.role || 'USER').toUpperCase()`. */
  function SignedRole(role: string): (r: string)
    ensures role == "" ==> r == "USER"
    ensures role != "" ==> r == Upper(role)
  {
    Upper(if role == "" then "USER" else role)
  }

  /** `login` (controllers/auth.js:62-111): both fields required (400); an
      unknown user is 400; a disabled account 403; a wrong password 401.
      `matches` stands for `bcrypt.compare`. */
  function Login(d: Db, username: string, password: string, matches: (string, string) -> bool): (r: Result<Payload>)
    ensures r.Err? && r.error.BadRequest? <==> username == "" || password == "" || UserNamed(d, username).None?
    ensures r.Err? && r.error.Forbidden? <==>
              username != "" && password != "" && UserNamed(d, username).Some?
              && !d.users[UserNamed(d, username).value].enabled
    ensures r.Err? && r.error.Unauthorized? <==>
              username != "" && password != "" && UserNamed(d, username).Some?
              && d.users[UserNamed(d, username).value].enabled
              && !matches(password, d.users[UserNamed(d, username).value].password)
    ensures r.Ok? ==> r.value.id in d.users && d.users[r.value.id].username == username
                      && d.users[r.value.id].enabled && matches(password, d.users[r.value.id].password)
                      && r.value.role == SignedRole(d.users[r.value.id].role)
    ensures r.Ok? ==> && UserNamed(d, username) == Some(r.value.id)
                      && r.value == Payload(r.value.id, d.users[r.value.id].username, d.users[r.value.id].email,
                                            SignedRole(d.users[r.value.id].role))
    ensures r.Err? ==> r.error.BadRequest? || r.error.Forbidden? || r.error.Unauthorized?
  {
    if username == "" || password == "" then Err(BadRequest("username and password required"))
    else
      match UserNamed(d, username)
      case None => Err(BadRequest("no such user"))
      case Some(k) =>
        var u := d.users[k];
        if !u.enabled then Err(Forbidden("account disabled"))
        else if !matches(password, u.password) then Err(Unauthorized("wrong password"))
        else Ok(Payload(k, u.username, u.email, SignedRole(u.role)))
  }

  /** The role `login` signs survives `verifyToken` unchanged. */
  lemma SignedRoleIsNormal(role: string)
    ensures AuthMiddleware.NormalRole(Some(SignedRole(role))) == SignedRole(role)
  {
    UpperIdempotent(if role == "" then "USER" else role);
  }

  // ---------------------------------------------------------------- logout

  /** `req.headers.authorization?.split(" ")[1]`: the second piece of the
      header split on single spaces, when there is one and it is not empty. */
  function HeaderToken(header: Option<string>): (t: Option<string>)
    ensures t.Some? ==> header.Some? && t.value != "" && |Split(header.value, ' ')| >= 2
                        && t.value == Split(header.value, ' ')[1]
  {
    if header.None? then None
    else
      var parts := Split(header.value, ' ');
      if |parts| < 2 || parts[1] == "" then None else Some(parts[1])
  }

  /** The token `logout` blacklists, or the 400 it answers. */
  function LogoutToken(header: Option<string>): (r: Result<string>)
    ensures r.Ok? <==> HeaderToken(header).Some? && AuthMiddleware.IsJwtShape(HeaderToken(header).value)
    ensures r.Ok? ==> Some(r.value) == HeaderToken(header)
    ensures r.Err? ==> r.error.BadRequest?
  {
    match HeaderToken(header)
    case None => Err(BadRequest("no token"))
    case Some(t) => if AuthMiddleware.IsJwtShape(t) then Ok(t) else Err(BadRequest("invalid token format"))
  }

  /** `checkBlacklistedToken` against a given set of revoked tokens. */
  function CheckToken(revoked: set<string>, header: Option<string>): (r: Outcome)
    ensures r.Pass? <==> HeaderToken(header).Some? && AuthMiddleware.IsJwtShape(HeaderToken(header).value)
                         && HeaderToken(header).value !in revoked
    ensures r.Fail? ==> r.error.Unauthorized?
  {
    match HeaderToken(header)
    case None => Fail(Unauthorized("token is invalid or expired"))
    case Some(t) =>
      if !AuthMiddleware.IsJwtShape(t) || t in revoked then Fail(Unauthorized("token is invalid or expired"))
      else Pass
  }

  /** A logged-out header is refused from then on, and revoking a token never
      lets in a header that was refused before. */
  lemma LogoutRevokes(revoked: set<string>, header: Option<string>, later: Option<string>)
    requires LogoutToken(header).Ok?
    ensures CheckToken(revoked + {LogoutToken(header).value}, header).Fail?
    ensures CheckToken(revoked, later).Fail? ==> CheckToken(revoked + {LogoutToken(header).value}, later).Fail?
  {
  }

  /** The module-level `blacklistedTokens` set (controllers/auth.js:6). */
  class TokenBlacklist {
    var tokens: set<string>

    constructor ()
      ensures tokens == {}
    {
      tokens := {};
    }

    /** `logout` (controllers/auth.js:113-133). */
    method Logout(header: Option<string>) returns (r: Result<string>)
      modifies this
      ensures r == LogoutToken(header)
      ensures r.Ok? ==> tokens == old(tokens) + {r.value}
      ensures r.Err? ==> tokens == old(tokens)
      ensures old(tokens) <= tokens
      ensures r.Ok? ==> Check(header).Fail?
    {
      r := LogoutToken(header);
      if r.Ok? {
        tokens := tokens + {r.value};
      }
    }

    /** `checkBlacklistedToken` (controllers/auth.js:135-147). */
    function Check(header: Option<string>): (r: Outcome)
      reads this
      ensures r == CheckToken(tokens, header)
    {
      CheckToken(tokens, header)
    }
  }

  // ---------------------------------------------------------------- password reset

  /** How long a reset link stays valid. */
  const RESET_TTL: int := HOUR

  function UserWithEmail(d: Db, email: string): (r: Option<int>)
    ensures r.Some? ==> r.value in d.users && d.users[r.value].email == email
    ensures r.None? ==> forall k :: k in d.users && 1 <= k < d.nextId ==> d.users[k].email != email
  {
    FindFirst(d.users, (u: User) => u.email == email, d.nextId)
  }

  /** `sendResetEmail` (controllers/auth.js:150-198) on the store: an unknown
      email is 404, otherwise the user gets `token` valid until now + 1h.
      `token` stands for the random hex string; the mail is not modelled. */
  function ResetIssueCheck(d: Db, email: string): (r: Result<int>)
    ensures r.Err? <==> UserWithEmail(d, email).None?
    ensures r.Err? ==> r.error.NotFound?
    ensures r.Ok? ==> Some(r.value) == UserWithEmail(d, email)
  {
    match UserWithEmail(d, email)
    case None => Err(NotFound("user"))
    case Some(k) => Ok(k)
  }

  function WithResetToken(d: Db, k: int, token: string, now: int): Db
    requires k in d.users
  {
    d.(users := d.users[k := d.users[k].(resetToken := Some(token), resetTokenExp := Some(now + RESET_TTL))])
  }

  method SendResetEmail(db: Database, email: string, token: string, now: int) returns (r: Result<int>)
    requires db.Valid()
    modifies db
    ensures db.Valid()
    ensures r == ResetIssueCheck(old(db.Snapshot()), email)
    ensures r.Ok? ==> db.Snapshot() == WithResetToken(old(db.Snapshot()), r.value, token, now)
    ensures r.Err? ==> db.Snapshot() == old(db.Snapshot())
  {
    r := ResetIssueCheck(db.Snapshot(), email);
    if r.Ok? {
      var k := r.value;
      db.users := db.users[k := db.users[k].(resetToken := Some(token), resetTokenExp := Some(now + RESET_TTL))];
    }
  }

  /** A reset token `token` still valid at `now`. */
  predicate HoldsValidToken(u: User, token: string, now: int) {
    u.resetToken == Some(token) && u.resetTokenExp.Some? && u.resetTokenExp.value >= now
  }

  /** `resetPassword` (controllers/auth.js:200-234) up to the write: the first
      user holding this token unexpired, else 400. */
  function ResetCheck(d: Db, token: string, now: int): (r: Result<int>)
    ensures r.Err? <==> forall k :: k in d.users && 1 <= k < d.nextId ==> !HoldsValidToken(d.users[k], token, now)
    ensures r.Err? ==> r.error.BadRequest?
    ensures r.Ok? ==> r.value in d.users && HoldsValidToken(d.users[r.value], token, now)
  {
    match FindFirst(d.users, (u: User) => HoldsValidToken(u, token, now), d.nextId)
    case None => Err(BadRequest("link expired or invalid"))
    case Some(k) => Ok(k)
  }

  /** The new password stored and both token fields cleared. */
  function AfterReset(d: Db, k: int, hashed: string): Db
    requires k in d.users
  {
    d.(users := d.users[k := d.users[k].(password := hashed, resetToken := None, resetTokenExp := None)])
  }

  method ResetPassword(db: Database, token: string, newPassword: string, now: int, hash: string -> string)
    returns (r: Result<int>)
    requires db.Valid()
    modifies db
    ensures db.Valid()
    ensures r == ResetCheck(old(db.Snapshot()), token, now)
    ensures r.Ok? ==> db.Snapshot() == AfterReset(old(db.Snapshot()), r.value, hash(newPassword))
    ensures r.Err? ==> db.Snapshot() == old(db.Snapshot())
  {
    r := ResetCheck(db.Snapshot(), token, now);
    if r.Ok? {
      var k := r.value;
      db.users := db.users[k := db.users[k].(password := hash(newPassword), resetToken := None, resetTokenExp := None)];
    }
  }

  /** A token issued at `now` opens a reset for the user it was sent to at any
      time in the next hour, provided no one else holds that token; once used
      it opens nothing, at any time. */
  lemma ResetTokenSingleUse(d: Db, email: string, token: string, now: int, at: int, later: int, hashed: string)
    requires d.Valid() && ResetIssueCheck(d, email).Ok?
    requires forall k :: k in d.users ==> d.users[k].resetToken != Some(token)
    requires now <= at <= now + HOUR
    ensures var k := ResetIssueCheck(d, email).value;
            var e := WithResetToken(d, k, token, now);
            && ResetCheck(e, token, at) == Ok(k)
            && ResetCheck(AfterReset(e, k, hashed), token, later).Err?
  {
    var k := ResetIssueCheck(d, email).value;
    var e := WithResetToken(d, k, token, now);
    assert HoldsValidToken(e.users[k], token, at);
    assert forall j :: j in e.users && j != k ==> !HoldsValidToken(e.users[j], token, at);
    var f := AfterReset(e, k, hashed);
    assert forall j :: j in f.users ==> !HoldsValidToken(f.users[j], token, later);
  }
}
