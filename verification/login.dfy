/** The login decision: both credentials required, one uniform answer for an unknown
    email and a wrong password, and on success a token carrying exactly the user's id,
    email and role with the public part of the account. Password checking and token
    signing are parameters; an exception from either escapes the handler (which has
    no `except`) and becomes the framework's 500 answer. */
module Login {
  import opened Common
  import opened Text
  import opened Accounts
  import Auth

  /** The account as the login reply shows it: no password. */
  datatype PublicUser = PublicUser(id: int, name: string, email: string, role: string)

  datatype LoginReply =
    | LoggedIn(accessToken: string, user: PublicUser)
    | LoginFailed(status: int, error: string)
    | Crashed(exception: string)
  {
    function Status(): int
    {
      match this
      case LoggedIn(_, _) => 200
      case LoginFailed(status, _) => status
      case Crashed(_) => 500
    }
  }

  const CredentialsRequired := "Email and password required"
  const BadCredentials := "Invalid email or password"

  /** The claims signed into the access token. */
  function TokenClaims(u: User): (claims: map<string, Json>)
    ensures claims.Keys == {"id", "email", "role"}
    ensures claims["id"] == JInt(u.id) && claims["email"] == JStr(u.email) && claims["role"] == JStr(u.role)
  {
    map["id" := JInt(u.id), "email" := JStr(u.email), "role" := JStr(u.role)]
  }

  /** `POST /api/login`. `checkpw(plain, stored)` is `bytes(stored)` followed by
      bcrypt's check, or the exception either raises; `sign` is HS256 signing with the
      server's secret, or its exception. */
  function Login(rows: seq<User>, email: Option<string>, password: Option<string>,
                 checkpw: (string, string) -> Result<bool, string>,
                 sign: map<string, Json> -> Result<string, string>): LoginReply
  {
    if !Given(email) || !Given(password) then LoginFailed(400, CredentialsRequired)
    else
      match ActiveIndex(rows, email.value)
      case None => LoginFailed(401, BadCredentials)
      case Some(i) =>
        var u := rows[i];
        match checkpw(password.value, u.password)
        case Err(e) => Crashed(e)
        case Ok(matches) =>
          if !matches then LoginFailed(401, BadCredentials)
          else
            match sign(TokenClaims(u))
            case Err(e) => Crashed(e)
            case Ok(token) => LoggedIn(token, PublicUser(u.id, u.name, u.email, u.role))
  }

  /** Missing credentials are refused without looking at the table: the answer is the
      same whatever the table holds. */
  lemma {:induction false} CredentialsFirst(rows: seq<User>, other: seq<User>, email: Option<string>,
                                            password: Option<string>, checkpw: (string, string) -> Result<bool, string>,
                                            sign: map<string, Json> -> Result<string, string>)
    requires !Given(email) || !Given(password)
    ensures Login(rows, email, password, checkpw, sign) == LoginFailed(400, CredentialsRequired)
    ensures Login(rows, email, password, checkpw, sign) == Login(other, email, password, checkpw, sign)
  {
  }

  /** With both credentials given, an unknown email and a wrong password produce the
      very same reply, and that reply is produced by nothing else. */
  lemma {:induction false} UniformFailure(rows: seq<User>, email: string, password: string,
                                          checkpw: (string, string) -> Result<bool, string>, sign: map<string, Json> -> Result<string, string>)
    requires email != "" && password != ""
    ensures Login(rows, Some(email), Some(password), checkpw, sign) == LoginFailed(401, BadCredentials) <==>
      (ActiveIndex(rows, email).None? || checkpw(password, rows[ActiveIndex(rows, email).value].password) == Ok(false))
    ensures Login(rows, Some(email), Some(password), checkpw, sign).LoginFailed? ==>
      Login(rows, Some(email), Some(password), checkpw, sign) == LoginFailed(401, BadCredentials)
  {
  }

  /** A successful login is for the first active user with that email, whose stored
      hash accepts the password; the token signs exactly that user's id, email and role,
      and the reply echoes id, name, email and role. */
  lemma {:induction false} LoginSuccess(rows: seq<User>, email: Option<string>, password: Option<string>,
                                        checkpw: (string, string) -> Result<bool, string>, sign: map<string, Json> -> Result<string, string>)
    requires Login(rows, email, password, checkpw, sign).LoggedIn?
    ensures Given(email) && Given(password) && ActiveIndex(rows, email.value).Some?
    ensures var u := rows[ActiveIndex(rows, email.value).value];
      && u.email == email.value && !u.isDeleted && checkpw(password.value, u.password) == Ok(true)
      && sign(TokenClaims(u)).Ok?
      && Login(rows, email, password, checkpw, sign) == LoggedIn(sign(TokenClaims(u)).value, PublicUser(u.id, u.name, u.email, u.role))
  {
  }

  /** The 500 answer comes only from an exception in bcrypt's check or in signing,
      after the credentials were given and an active user was found. */
  lemma {:induction false} CrashCauses(rows: seq<User>, email: Option<string>, password: Option<string>,
                                       checkpw: (string, string) -> Result<bool, string>,
                                       sign: map<string, Json> -> Result<string, string>)
    ensures Login(rows, email, password, checkpw, sign).Status() in {200, 400, 401, 500}
    ensures Login(rows, email, password, checkpw, sign).Crashed? <==>
      Given(email) && Given(password) && ActiveIndex(rows, email.value).Some?
      && var u := rows[ActiveIndex(rows, email.value).value];
         (checkpw(password.value, u.password).Err?
          || (checkpw(password.value, u.password) == Ok(true) && sign(TokenClaims(u)).Err?))
  {
  }

  /** The token of a successful login opens the request gate: sent as `Bearer <token>`
      to any path, it passes when the decoder returns the signed claims and the user's
      id is not 0, and the request context then holds that user's id, email and role.
      Signed tokens never contain a space, so the `Bearer ` split gives back the token. */
  lemma {:induction false} TokenOpensGate(rows: seq<User>, email: Option<string>, password: Option<string>,
                                          checkpw: (string, string) -> Result<bool, string>, sign: map<string, Json> -> Result<string, string>,
                                          path: string, verb: string, decode: string -> Auth.Decoded)
    requires Login(rows, email, password, checkpw, sign).LoggedIn?
    requires var r := Login(rows, email, password, checkpw, sign);
      ' ' !in r.accessToken && decode(r.accessToken) == Auth.Payload(TokenClaims(rows[ActiveIndex(rows, email.value).value]))
    requires rows[ActiveIndex(rows, email.value).value].id != 0
    ensures var r := Login(rows, email, password, checkpw, sign);
      var header := Some(Auth.BearerPrefix + r.accessToken);
      && Auth.Check(path, verb, header, decode) == Auth.Pass
      && (!Auth.Exempt(path) && verb != "OPTIONS" ==>
            Auth.Stamped(path, verb, header, decode) == Some(TokenClaims(rows[ActiveIndex(rows, email.value).value])))
  {
    var r := Login(rows, email, password, checkpw, sign);
    var token := r.accessToken;
    var header := Auth.BearerPrefix + token;
    assert header[..|Auth.BearerPrefix|] == Auth.BearerPrefix;
    assert header[|Auth.BearerPrefix|..] == token;
    assert !Occurs(token, Auth.BearerPrefix) by {
      forall k | 0 <= k && k + |Auth.BearerPrefix| <= |token|
        ensures !OccursAt(token, Auth.BearerPrefix, k)
      {
        assert token[k + 6] !in " ";
        assert Auth.BearerPrefix[6] == ' ';
        assert token[k..k + |Auth.BearerPrefix|][6] == token[k + 6];
      }
    }
    Auth.TokenExtraction(header);
    assert Auth.TokenOf(header) == token;
  }

  /** After a successful password reset, logging in with the new password succeeds,
      given that bcrypt's check accepts a password against its own fresh hash and that
      signing works. */
  lemma {:induction false} ResetThenLogin(rows: seq<User>, email: string, otp: string, newPassword: string,
                                          now: int, hash: string -> Result<string, string>,
                                          checkpw: (string, string) -> Result<bool, string>, sign: map<string, Json> -> Result<string, string>)
    requires VerifyOutcome(rows, Some(email), Some(otp), Some(newPassword), now, hash).0.Message?
    requires hash(newPassword).Ok? && checkpw(newPassword, hash(newPassword).value) == Ok(true)
    requires forall claims :: sign(claims).Ok?
    ensures Login(VerifyOutcome(rows, Some(email), Some(otp), Some(newPassword), now, hash).1,
                  Some(email), Some(newPassword), checkpw, sign).LoggedIn?
  {
    var after := VerifyOutcome(rows, Some(email), Some(otp), Some(newPassword), now, hash).1;
    VerifyKeepsAccounts(rows, Some(email), Some(otp), Some(newPassword), now, hash);
    SameAccountsLookup(rows, after, email);
    var i := ActiveIndex(rows, email).value;
    assert after[i].password == hash(newPassword).value;
  }
}
