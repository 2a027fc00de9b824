/** The `/auth` router: sign-up and login. Both answer with a token signed over
    the user's own id and role. Password hashing and comparison (bcrypt) and token
    signing (jsonwebtoken) are the parameters `hash`, `matches` and `sign`. */
module AuthRoutes {
  import opened Common
  import opened Http
  import opened Store
  import Middleware

  /** The user as the response shows it: the password hash is not part of it. */
  datatype PublicUser = PublicUser(id: string, email: string, role: string)
  datatype Session = Session(token: string, user: PublicUser)

  /** The answer to a successful sign-up or login for `u`. */
  function SessionOf(u: User, sign: Middleware.Claims -> string): (s: Session)
    ensures s.user.id == u.id && s.user.email == u.email && s.user.role == RoleName(u.role)
    ensures s.user.role == "USER" <==> u.role == UserRole
    ensures s.token == sign(Middleware.Claims(s.user.id, s.user.role))
  {
    Session(sign(Middleware.Claims(u.id, RoleName(u.role))), PublicUser(u.id, u.email, RoleName(u.role)))
  }

  /** Adding a user whose email no one has keeps emails unique. */
  lemma {:induction false} NewEmailKeepsUnique(users: map<string, User>, u: User)
    requires EmailsUnique(users) && FindByEmail(users, u.email).None?
    ensures EmailsUnique(users[u.id := u])
  {
    var after := users[u.id := u];
    forall a, b | a in after && b in after && after[a].email == after[b].email
      ensures a == b
    {
      if a != u.id && b != u.id {
        assert users[a].email == users[b].email;
      }
    }
  }

  /** `POST /auth/register`: both fields must be non-empty strings, the email must
      be new; the user is stored with role USER and the hash of the password. */
  method SignUp(db: Db, email: Option<string>, password: Option<string>,
                hash: string -> string, sign: Middleware.Claims -> string)
    returns (r: Reply<Session>)
    requires db.Valid()
    modifies db
    ensures db.Valid()
    ensures db.events == old(db.events) && db.registrations == old(db.registrations)
    ensures !Truthy(email) || !Truthy(password) ==>
              r == Err(CREDENTIALS_REQUIRED) && db.users == old(db.users)
    ensures Truthy(email) && Truthy(password) && FindByEmail(old(db.users), email.value).Some? ==>
              r == Err(EMAIL_IN_USE) && db.users == old(db.users)
    ensures Truthy(email) && Truthy(password) && FindByEmail(old(db.users), email.value).None? ==>
              r.Ok? && r.body.user.id !in old(db.users)
              && db.users == old(db.users)[r.body.user.id := User(r.body.user.id, email.value, hash(password.value), UserRole)]
              && r.body.user == PublicUser(r.body.user.id, email.value, "USER")
              && r.body.token == sign(Middleware.Claims(r.body.user.id, "USER"))
    ensures r.Err? ==> db.users == old(db.users)
  {
    if !Truthy(email) || !Truthy(password) {
      return Err(CREDENTIALS_REQUIRED);
    }
    var existing := FindByEmail(db.users, email.value);
    if existing.Some? {
      return Err(EMAIL_IN_USE);
    }
    var hashed := hash(password.value);
    var user := db.CreateUser(email.value, hashed, UserRole);
    r := Ok(SessionOf(user, sign));
  }

  /** `POST /auth/login`: an unknown email and a wrong password get the same 401
      "Invalid credentials"; otherwise a session for the stored user. */
  method Login(db: Db, email: string, password: string,
               matches: (string, string) -> bool, sign: Middleware.Claims -> string)
    returns (r: Reply<Session>)
    requires db.Valid()
    ensures FindByEmail(db.users, email).None? ==> r == Err(INVALID_CREDENTIALS)
    ensures FindByEmail(db.users, email).Some? ==>
              var u := db.users[FindByEmail(db.users, email).value];
              if matches(password, u.password) then r == Ok(SessionOf(u, sign))
              else r == Err(INVALID_CREDENTIALS)
    ensures r.Ok? <==> exists k :: k in db.users && db.users[k].email == email
                                   && matches(password, db.users[k].password)
    ensures r.Ok? ==> r.body.user.email == email
    ensures r.Ok? ==> r.body.token == sign(Middleware.Claims(r.body.user.id, r.body.user.role))
  {
    var found := FindByEmail(db.users, email);
    if found.None? {
      return Err(INVALID_CREDENTIALS);
    }
    var u := db.users[found.value];
    if !matches(password, u.password) {
      return Err(INVALID_CREDENTIALS);
    }
    r := Ok(SessionOf(u, sign));
  }
}
