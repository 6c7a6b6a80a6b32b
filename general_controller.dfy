/** The general controller: logging in (`/login`) and registering
    (`/register`). */
module GeneralController {
  import opened Common
  import opened Store
  import UserController

  /** `stageLogin` on what the two lookups found: the user with the attempt's
      email, and the user with the attempt's username. Password hashes are
      compared with `Objects.equals`. When the username lookup finds a user
      whose hash differs, that hash is asked whether it is empty; a null one
      throws, which the framework answers with INTERNAL_SERVER_ERROR. */
  function LoginDecision(byEmail: Option<User>, byUsername: Option<User>, attempt: User): (r: Response<User>)
    ensures r.status == Ok ==> r.body.Entity? && r.body.entity.passwordHash == attempt.passwordHash
    ensures r.status == Ok ==> (byEmail == Some(r.body.entity) || byUsername == Some(r.body.entity))
    ensures r.status == BadRequest ==> r.body == Entity(attempt)
    ensures r.status !in {Ok, BadRequest} ==> r.body == Empty
  {
    if byEmail.Some? && byEmail.value.passwordHash == attempt.passwordHash then
      Response(Ok, Entity(byEmail.value))
    else if byUsername.Some? && byUsername.value.passwordHash == attempt.passwordHash then
      Response(Ok, Entity(byUsername.value))
    else if byUsername.Some? && byUsername.value.passwordHash.None? then
      Response(InternalServerError, Empty)
    else if byUsername.Some? && byUsername.value.passwordHash.value == [] then
      Response(BadRequest, Entity(attempt))
    else
      Response(NotFound, Empty)
  }

  ghost function LoginResult(s: Tables, attempt: User): Response<User>
  {
    LoginDecision(UserWithEmail(s.users, attempt.email), UserWithUsername(s.users, attempt.username), attempt)
  }

  /** `stageLogin`: the username is looked up only when the email lookup did
      not give a user with the attempt's hash. */
  method StageLogin(db: Database, attempt: User) returns (r: Response<User>)
    requires db.Valid()
    ensures r == LoginResult(db.Snapshot(), attempt)
  {
    var query := db.FindByEmail(attempt.email);
    if query.Some? && query.value.passwordHash == attempt.passwordHash {
      return Response(Ok, Entity(query.value));
    }
    query := db.FindByUsername(attempt.username);
    if query.Some? && query.value.passwordHash == attempt.passwordHash {
      r := Response(Ok, Entity(query.value));
    } else if query.Some? && query.value.passwordHash.None? {
      r := Response(InternalServerError, Empty);
    } else if query.Some? && query.value.passwordHash.value == [] {
      r := Response(BadRequest, Entity(attempt));
    } else {
      r := Response(NotFound, Empty);
    }
  }

  /** Every answer of `stageLogin` in exactly its case. In particular
      BAD_REQUEST comes only from a user found by username whose stored hash
      is the empty string while the attempt's is not. */
  lemma LoginOutcome(s: Tables, attempt: User)
    ensures var r := LoginResult(s, attempt);
      var (e, u) := (UserWithEmail(s.users, attempt.email), UserWithUsername(s.users, attempt.username));
      var emailOk := e.Some? && e.value.passwordHash == attempt.passwordHash;
      && (r.status == Ok <==> emailOk || (u.Some? && u.value.passwordHash == attempt.passwordHash))
      && (r.status == InternalServerError <==>
            !emailOk && u.Some? && u.value.passwordHash.None? && attempt.passwordHash.Some?)
      && (r.status == BadRequest <==>
            !emailOk && u.Some? && u.value.passwordHash == Some([]) && attempt.passwordHash != Some([]))
      && (r.status == NotFound <==>
            !emailOk && (u.None? || (u.value.passwordHash.Some? && u.value.passwordHash.value != []
                                     && u.value.passwordHash != attempt.passwordHash)))
  {
  }

  /** In a consistent store, a stored user logging in with their own email
      and password hash gets their own row back. */
  lemma LoginWithOwnCredentials(s: Tables, k: Id, attempt: User)
    requires s.Valid() && k in s.users
    requires attempt.email == s.users[k].email && attempt.passwordHash == s.users[k].passwordHash
    ensures LoginResult(s, attempt) == Response(Ok, Entity(s.users[k]))
  {
    UserController.LookupUnique(s, k);
  }

  /** A login is only ever granted with the hash of the user whose email or
      username the attempt gives: with a hash no such user has, the answer is
      never OK. */
  lemma LoginNeedsMatchingHash(s: Tables, attempt: User)
    requires forall k | k in s.users && (s.users[k].email == attempt.email || s.users[k].username == attempt.username)
               :: s.users[k].passwordHash != attempt.passwordHash
    ensures LoginResult(s, attempt).status != Ok
  {
  }

  /** `stageRegistration`: a missing body or one that fails `validate`
      answers BAD_REQUEST; otherwise the body is sanitised and checked and
      saved as `addUser` does it, email first. `validate` and the
      sanitisation are properties of the user entity and are parameters
      here. */
  ghost function RegisterResult(s: Tables, optionalUser: Option<User>, validate: User -> bool,
                                sanitise: User -> Option<User>): (Response<User>, Tables)
  {
    if optionalUser.None? || !validate(optionalUser.value) then (Response(BadRequest, Empty), s)
    else UserController.AddUserResult(s, optionalUser.value, sanitise)
  }

  method StageRegistration(db: Database, optionalUser: Option<User>, validate: User -> bool,
                           sanitise: User -> Option<User>) returns (r: Response<User>)
    requires db.Valid()
    modifies db
    ensures db.Valid()
    ensures (r, db.Snapshot()) == RegisterResult(old(db.Snapshot()), optionalUser, validate, sanitise)
  {
    if optionalUser.None? || !validate(optionalUser.value) {
      return Response(BadRequest, Empty);
    }
    r := UserController.AddUser(db, optionalUser.value, sanitise);
  }

  /** The order in which `stageRegistration` refuses a body: a missing or
      invalid body first, then a taken email (answered with the email), then
      a taken username (answered with the username); every refusal leaves
      the store as it was. */
  lemma RegisterOutcome(s: Tables, optionalUser: Option<User>, validate: User -> bool,
                        sanitise: User -> Option<User>)
    ensures var (r, s') := RegisterResult(s, optionalUser, validate, sanitise);
      && (r == Response(BadRequest, Empty) <==> optionalUser.None? || !validate(optionalUser.value))
      && (optionalUser.Some? && validate(optionalUser.value) && sanitise(optionalUser.value).Some? ==>
            var u := sanitise(optionalUser.value).value;
            && (EmailTaken(s.users, u.email) ==> r == Response(Conflict, Text(u.email)))
            && (!EmailTaken(s.users, u.email) && UsernameTaken(s.users, u.username) ==>
                  r == Response(Conflict, Text(u.username)))
            && (r.status == Created <==> !EmailTaken(s.users, u.email) && !UsernameTaken(s.users, u.username)))
      && (r.status != Created ==> s' == s)
  {
    if optionalUser.Some? && validate(optionalUser.value) {
      UserController.AddUserOutcome(s, optionalUser.value, sanitise);
    }
  }

  /** Once registered, a user logs in with the sanitised email and the
      password hash they registered with. */
  lemma RegisterThenLogin(s: Tables, optionalUser: Option<User>, validate: User -> bool,
                          sanitise: User -> Option<User>, attempt: User)
    requires s.Valid()
    requires RegisterResult(s, optionalUser, validate, sanitise).0.status == Created
    requires var u := sanitise(optionalUser.value).value;
      attempt.email == u.email && attempt.passwordHash == u.passwordHash
    ensures var (r, s') := RegisterResult(s, optionalUser, validate, sanitise);
      LoginResult(s', attempt) == Response(Ok, r.body)
  {
    var u := sanitise(optionalUser.value).value;
    UserController.AddUserCreates(s, optionalUser.value, sanitise);
    var s' := WithNewUser(s, u);
    assert UserWithEmail(s'.users, attempt.email) == Some(NewRow(u, s.nextId));
  }
}
