/** src/Authentification/routes.ts: `check_email_exist` and the
    `POST /api/v1/register` handler over the user collection. */
module Registration {
  import opened Wrappers
  import opened ObjectIds
  import opened Http
  import opened Token

  const EmailAlreadyExist := "Email already exist"

  datatype RegisterRequest = RegisterRequest(username: string, email: string, password: string)

  /** `UserModel.findOne({ email })`: the first user with that email. */
  function FindByEmail(users: seq<User>, email: string): (r: Option<User>)
    ensures r.None? <==> forall i :: 0 <= i < |users| ==> users[i].email != email
    ensures r.Some? ==> r.value.email == email && r.value in users
  {
    if users == [] then None
    else if users[0].email == email then Some(users[0])
    else
      var r := FindByEmail(users[1..], email);
      if r.Some? then
        assert r.value in users[1..];
        r
      else r
  }

  /** `check_email_exist(user)`: the `{ error: { msg } }` it throws when
      some stored user has the email, nothing otherwise. */
  function CheckEmailExist(users: seq<User>, email: string): (thrown: Option<Body>)
    ensures thrown.Some? <==> exists i :: 0 <= i < |users| && users[i].email == email
    ensures thrown.Some? ==> thrown.value == ErrorMsg(EmailAlreadyExist)
  {
    if FindByEmail(users, email).Some? then Some(ErrorMsg(EmailAlreadyExist)) else None
  }

  predicate EmailsUnique(users: seq<User>) {
    forall i, j :: 0 <= i < j < |users| ==> users[i].email != users[j].email
  }

  predicate IdsUnique(users: seq<User>) {
    forall i, j :: 0 <= i < j < |users| ==> users[i].id != users[j].id
  }

  /** The document `new UserModel({...})` builds: the password field holds
      the output of `Crypt.crypt_password`, the dates their defaults. */
  function NewUser(req: RegisterRequest, crypt: string -> string, id: ObjectId, now: Timestamp): User {
    User(id, req.username, req.email, crypt(req.password), now, None)
  }

  /** Adding a user whose email passed `check_email_exist` keeps the
      emails of the collection unique. */
  lemma AppendKeepsEmailsUnique(users: seq<User>, u: User)
    requires EmailsUnique(users)
    requires CheckEmailExist(users, u.email).None?
    ensures EmailsUnique(users + [u])
  {
    var all := users + [u];
    forall i, j | 0 <= i < j < |all| ensures all[i].email != all[j].email {
      if j == |users| {
        assert all[i] == users[i];
      }
    }
  }

  /** The 201 body: a refresh token, then an access token, for the saved
      user; a failing `sign` is caught and answered with 500. */
  function TokenResponse(env: Env, user: User, jwt: JwtLib): (res: Response)
    ensures res.status == Created <==> GenerateRefreshToken(env, user, jwt).Ok? && GenerateAccessToken(env, user, jwt).Ok?
    ensures res.status == Created ==> res.body == Tokens(GenerateRefreshToken(env, user, jwt).value,
                                                         GenerateAccessToken(env, user, jwt).value,
                                                         "1800s", "Bearer")
    ensures res.status != Created ==> res == Response(InternError, Thrown)
  {
    match GenerateRefreshToken(env, user, jwt)
    case Failure(_) => Response(InternError, Thrown)
    case Ok(refresh) =>
      match GenerateAccessToken(env, user, jwt)
      case Failure(_) => Response(InternError, Thrown)
      case Ok(access) => Response(Created, Tokens(refresh, access, "1800s", "Bearer"))
  }

  /** With both secrets configured, registration answers 201 with the
      token envelope. */
  lemma TokensIssuedWithSecrets(env: Env, user: User, jwt: JwtLib)
    requires HasSecret(env, "ACCESS_TOKEN_SECRET") && HasSecret(env, "REFRESH_TOKEN_SECRET")
    ensures TokenResponse(env, user, jwt).status == Created
    ensures TokenResponse(env, user, jwt).body.token_type == "Bearer"
    ensures TokenResponse(env, user, jwt).body.expires_in == "1800s"
  {
  }

  /** The `User` collection. */
  class UserStore {
    var users: seq<User>

    /** The store gives every document its own `_id`, in canonical form;
        registration, the only writer, never admits an email twice. */
    ghost predicate Valid()
      reads this
    {
      IdsUnique(users) && EmailsUnique(users)
      && forall i :: 0 <= i < |users| ==> IsCanonical(users[i].id)
    }

    constructor ()
      ensures Valid() && users == []
    {
      users := [];
    }

    /** `POST /api/v1/register`. `validationFailed` is the verdict of the
        express-validator chain, `crypt` stands for this call's
        `Crypt.crypt_password`, `saveOk` for whether the store accepted
        `user.save()` (the schema refuses an empty username, email or
        password), `newId` and `now` for the `_id` and the `Date.now`
        default it assigns. */
    method Register(req: RegisterRequest, validationFailed: bool, crypt: string -> string,
                    env: Env, jwt: JwtLib, saveOk: bool, newId: ObjectId, now: Timestamp)
      returns (res: Response)
      requires Valid()
      requires IsCanonical(newId)
      requires forall i :: 0 <= i < |users| ==> users[i].id != newId
      modifies this
      ensures Valid()
      ensures validationFailed ==> res == ValidationFailed && users == old(users)
      ensures !validationFailed && CheckEmailExist(old(users), req.email).Some? ==>
                res == Response(InternError, ErrorMsg(EmailAlreadyExist)) && users == old(users)
      ensures !validationFailed && CheckEmailExist(old(users), req.email).None? && !saveOk ==>
                res == Response(InternError, Thrown) && users == old(users)
      ensures !validationFailed && CheckEmailExist(old(users), req.email).None? && saveOk ==>
                users == old(users) + [NewUser(req, crypt, newId, now)]
                && res == TokenResponse(env, NewUser(req, crypt, newId, now), jwt)
      ensures EmailsUnique(old(users)) ==> EmailsUnique(users)
    {
      if validationFailed {
        return ValidationFailed;
      }
      var user := NewUser(req, crypt, newId, now);
      var thrown := CheckEmailExist(users, user.email);
      if thrown.Some? {
        return Response(InternError, thrown.value);
      }
      if !saveOk {
        return Response(InternError, Thrown);
      }
      AppendKeepsEmailsUnique(users, user);
      users := users + [user];
      res := TokenResponse(env, user, jwt);
    }
  }
}
