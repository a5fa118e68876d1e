/**
 * The session: the login check that issues a signed token in the
 * `auth_token` cookie, the gate in front of the admin routes, and logout.
 *
 * JWT signing and verification and the HMAC of the password are library
 * calls under the server's secret; they are parameters here, and what the
 * model needs of them is stated as the hypotheses of the lemmas that use it.
 * Times are seconds since the epoch.
 */
module Session {
  import opened Wrappers
  import opened KvStore

  const CookieName: string := "auth_token"
  const LoginPath: string := "/login"
  const AdminPath: string := "/admin"
  const HomePath: string := "/"

  /** `expiresIn: '2h'`, in seconds. */
  const TokenLifetime: nat := 7200

  /** The decoded token payload: `{user}` plus the issue and expiry times jwt.sign adds. */
  datatype Claims = Claims(user: string, iat: int, exp: int)

  /**
   * A response: a redirect, optionally setting the auth cookie; the admin
   * form with its editable fields and their values; or the framework's 500
   * answer to a thrown error.
   */
  datatype Response =
    | Redirect(location: string, setCookie: Option<string>)
    | AdminForm(fields: seq<(string, string)>)
    | ServerError

  /** How a route handler ended. */
  datatype HandlerResult = Returned(response: Response) | Threw

  /** How `await next()` ended inside the gate. */
  datatype NextResult = Resolved(response: Response) | Rejected

  /** What the gate did: the claims it handed to each run of the handler, and the response. */
  datatype GateTrace = GateTrace(calls: seq<Claims>, response: Response)

  /** jwt.sign and jwt.verify under the server's secret: a verified token decodes to what was signed until it expires. */
  ghost predicate SoundJwt(sign: Claims -> string, verify: (string, int) -> Option<Claims>)
  {
    forall c: Claims, now: int {:trigger verify(sign(c), now)} ::
      verify(sign(c), now) == if now < c.exp then Some(c) else None
  }

  /** The empty string is not a token jwt.verify accepts. */
  ghost predicate RejectsEmpty(verify: (string, int) -> Option<Claims>)
  {
    forall now: int {:trigger verify("", now)} :: verify("", now).None?
  }

  // ---------------------------------------------------------------------------
  // The gate
  // ---------------------------------------------------------------------------

  /** The claims the gate admits: a cookie that is present, non-empty and verifies. */
  function Authenticate(token: Option<string>, verify: (string, int) -> Option<Claims>, now: int): (claims: Option<Claims>)
    ensures claims.Some? ==> token.Some? && token.value != "" && verify(token.value, now) == claims
    ensures token.Some? && token.value != "" ==> claims == verify(token.value, now)
  {
    if token.None? || token.value == "" then None else verify(token.value, now)
  }

  /**
   * authMiddleware: redirect to /login when the cookie is missing or empty or
   * fails to verify; otherwise hand the decoded claims to the handler, run it
   * once, and redirect to /login if `next()` rejects.
   */
  function Gate(token: Option<string>, verify: (string, int) -> Option<Claims>, now: int, next: Claims -> NextResult): (t: GateTrace)
    ensures Authenticate(token, verify, now).None? <==> t.calls == []
    ensures t.calls == [] ==> t.response == Redirect(LoginPath, None)
    ensures t.calls != [] ==> t.calls == [Authenticate(token, verify, now).value]
  {
    match Authenticate(token, verify, now)
    case None => GateTrace([], Redirect(LoginPath, None))
    case Some(claims) =>
      match next(claims)
      case Resolved(response) => GateTrace([claims], response)
      case Rejected => GateTrace([claims], Redirect(LoginPath, None))
  }

  /**
   * The framework's dispatch of the route handler behind `next()`: a handler
   * that throws is answered by the error handler with a 500 response, so
   * `next()` itself resolves.
   */
  function RunHandler(h: HandlerResult): (n: NextResult)
    ensures n.Resolved?
    ensures h.Returned? ==> n.response == h.response
    ensures h.Threw? ==> n == Resolved(ServerError)
  {
    match h
    case Returned(response) => Resolved(response)
    case Threw => Resolved(ServerError)
  }

  /** A guarded route: the gate in front of a handler that sees the admitted claims. */
  function Guarded(token: Option<string>, verify: (string, int) -> Option<Claims>, now: int, handler: Claims -> HandlerResult): (t: GateTrace)
    ensures Authenticate(token, verify, now).None? ==> t == GateTrace([], Redirect(LoginPath, None))
    ensures Authenticate(token, verify, now).Some? ==>
      var c := Authenticate(token, verify, now).value;
      t.calls == [c] && t.response == (if handler(c).Returned? then handler(c).response else ServerError)
  {
    Gate(token, verify, now, c => RunHandler(handler(c)))
  }

  /** Behind the framework, the gate's own catch only ever sees failed verification: a handler error is a 500, not a redirect. */
  lemma HandlerErrorIsServerError(token: Option<string>, verify: (string, int) -> Option<Claims>, now: int, handler: Claims -> HandlerResult)
    requires Authenticate(token, verify, now).Some?
    requires handler(Authenticate(token, verify, now).value) == Threw
    ensures Guarded(token, verify, now, handler) == GateTrace([Authenticate(token, verify, now).value], ServerError)
  {
  }

  /** A missing or empty cookie never reaches the handler or the verifier. */
  lemma NoCookieNoHandler(token: Option<string>, verify: (string, int) -> Option<Claims>, now: int, next: Claims -> NextResult)
    requires token.None? || token == Some("")
    ensures Gate(token, verify, now, next) == GateTrace([], Redirect(LoginPath, None))
  {
  }

  // ---------------------------------------------------------------------------
  // Login and logout
  // ---------------------------------------------------------------------------

  /**
   * POST /login once the stored credentials are read: the HMAC of the
   * submitted password must equal the stored `rootPw` and the submitted user
   * the stored `rootUser` (strict equality: an absent value matches nothing).
   * A missing password makes the HMAC throw, which the framework answers with 500.
   */
  function LoginResponse(
    user: Option<string>, pw: Option<string>,
    storedUser: Option<string>, storedPw: Option<string>,
    hmacHex: string -> string, sign: Claims -> string, now: int): (r: Response)
    ensures r == ServerError <==> pw.None?
    ensures r.Redirect? && r.location == AdminPath <==> pw.Some? && CredentialsMatch(user, pw.value, storedUser, storedPw, hmacHex)
    ensures r.Redirect? && r.location == AdminPath ==>
      r.setCookie == Some(sign(Claims(storedUser.value, now, now + TokenLifetime)))
    ensures pw.Some? && !CredentialsMatch(user, pw.value, storedUser, storedPw, hmacHex) ==> r == Redirect(LoginPath, None)
  {
    if pw.None? then ServerError
    else if storedPw == Some(hmacHex(pw.value)) && storedUser.Some? && user == storedUser then
      Redirect(AdminPath, Some(sign(Claims(storedUser.value, now, now + TokenLifetime))))
    else Redirect(LoginPath, None)
  }

  /** The credential check succeeds exactly on a full match, and then only. */
  ghost predicate CredentialsMatch(user: Option<string>, pw: string, storedUser: Option<string>, storedPw: Option<string>, hmacHex: string -> string)
  {
    storedUser.Some? && storedPw.Some? && user == storedUser && storedPw.value == hmacHex(pw)
  }

  /** POST /login: two reads of the store, then the credential check. */
  method PostLogin(store: Store, user: Option<string>, pw: Option<string>, hmacHex: string -> string, sign: Claims -> string, now: int)
    returns (r: Response)
    ensures r == LoginResponse(user, pw, Lookup(store.data, "rootUser"), Lookup(store.data, "rootPw"), hmacHex, sign, now)
  {
    var userKv := store.Get("rootUser");
    var hashedKvPw := store.Get("rootPw");
    if pw.None? {
      return ServerError;
    }
    var hash := hmacHex(pw.value);
    if hashedKvPw == Some(hash) && userKv.Some? && user == userKv {
      var token := sign(Claims(userKv.value, now, now + TokenLifetime));
      r := Redirect(AdminPath, Some(token));
    } else {
      r := Redirect(LoginPath, None);
    }
  }

  /**
   * The three outcomes of a login: a server error exactly when no password
   * was sent; otherwise /admin with a token for the stored user that expires
   * two hours after it was issued when the credentials match, and /login
   * without a cookie when they do not.
   */
  lemma LoginOutcomes(
    user: Option<string>, pw: Option<string>,
    storedUser: Option<string>, storedPw: Option<string>,
    hmacHex: string -> string, sign: Claims -> string, now: int)
    ensures var r := LoginResponse(user, pw, storedUser, storedPw, hmacHex, sign, now);
      && (r == ServerError <==> pw.None?)
      && (pw.Some? && CredentialsMatch(user, pw.value, storedUser, storedPw, hmacHex) ==>
            r == Redirect(AdminPath, Some(sign(Claims(storedUser.value, now, now + TokenLifetime)))))
      && (pw.Some? && !CredentialsMatch(user, pw.value, storedUser, storedPw, hmacHex) ==>
            r == Redirect(LoginPath, None))
  {
  }

  /** Absent stored credentials never let anyone in. */
  lemma AbsentCredentialsNeverMatch(
    user: Option<string>, pw: Option<string>,
    storedUser: Option<string>, storedPw: Option<string>,
    hmacHex: string -> string, sign: Claims -> string, now: int)
    requires storedUser.None? || storedPw.None?
    ensures LoginResponse(user, pw, storedUser, storedPw, hmacHex, sign, now).Redirect? ==>
      LoginResponse(user, pw, storedUser, storedPw, hmacHex, sign, now) == Redirect(LoginPath, None)
  {
  }

  /** GET /logout: overwrite the auth cookie with "" and go home. */
  function Logout(): (r: Response)
    ensures r.Redirect? && r.location == HomePath && r.setCookie == Some("")
  {
    Redirect(HomePath, Some(""))
  }

  /**
   * The token a successful login sets opens the gate for two hours: the
   * handler runs once with the stored user's claims; from then on the gate
   * redirects to /login without running it.
   */
  lemma LoginThenGate(
    user: Option<string>, pw: string, storedUser: Option<string>, storedPw: Option<string>,
    hmacHex: string -> string, sign: Claims -> string, verify: (string, int) -> Option<Claims>,
    issued: int, now: int, next: Claims -> NextResult)
    requires SoundJwt(sign, verify) && RejectsEmpty(verify)
    requires CredentialsMatch(user, pw, storedUser, storedPw, hmacHex)
    requires issued <= now
    ensures var cookie := LoginResponse(user, Some(pw), storedUser, storedPw, hmacHex, sign, issued).setCookie;
      var claims := Claims(storedUser.value, issued, issued + TokenLifetime);
      && (now < issued + TokenLifetime ==> Gate(cookie, verify, now, next).calls == [claims])
      && (now >= issued + TokenLifetime ==> Gate(cookie, verify, now, next) == GateTrace([], Redirect(LoginPath, None)))
  {
    var claims := Claims(storedUser.value, issued, issued + TokenLifetime);
    assert verify(sign(claims), now) == if now < claims.exp then Some(claims) else None;
    if sign(claims) == "" {
      assert verify("", now).None?;
    }
  }

  /** After logout the browser sends an empty cookie, which the gate turns away. */
  lemma LogoutLocksOut(verify: (string, int) -> Option<Claims>, now: int, next: Claims -> NextResult)
    ensures Gate(Logout().setCookie, verify, now, next) == GateTrace([], Redirect(LoginPath, None))
  {
  }
}
