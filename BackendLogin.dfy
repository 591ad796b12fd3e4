/**
 * The backend login view's JS-call handler (`Login::onJsCall`) and its redirect
 * rule (`Login::redirectToDefaultUrl`, `Login::onRequest`), as pure functions
 * from the stores before a request to the request's single terminal outcome and
 * the stores after it.
 *
 * The stores the handler changes are the brute-force attempt counter of the
 * channel "backend-login", the encrypted cookies, the issued user tokens and the
 * system event log. The stores it only reads (users, WebAuthn registrations,
 * configuration) and the foreign calls it makes (password hashing, base64, the
 * WebAuthn library, the brute-force block decision) are fields of `Env`.
 *
 * Every redirect and every "stop with response" ends the request, so each
 * action produces exactly one `Outcome`; nothing falls through from one
 * action into the next.
 */
module BackendLogin {
  import opened Php

  const BRUTE_FORCE_CHANNEL := "backend-login"
  const INVALID_USER := "__framelix_login_invalid_user__"
  const INVALID_FIDO2 := "__framelix_login_invalid_fido2__"
  const WEBAUTHN_ERROR := "__framelix_view_backend_userprofile_fido2_webauthn_error__"
  /** Lifetime of a "stay logged in" token cookie: 60 days in seconds. */
  const STAY_SECONDS: nat := 60 * 86400
  const CHALLENGE_COOKIE_NAME := "fido2-login-challenge"

  /**
   * Cookie names. The four two-factor names are constants of the two-factor
   * form field, whose text is not part of this model; they are distinct from
   * each other and from every literal name.
   */
  datatype CookieKey =
    | TwoFactorUserId
    | TwoFactorUserStay
    | TwoFactorSecret
    | TwoFactorBackupCodes
    | Named(name: string)

  const CHALLENGE_COOKIE := Named(CHALLENGE_COOKIE_NAME)

  datatype User = User(id: int, email: string, twoFactorSecret: Value, twoFactorBackupCodes: Value)

  /** A stored WebAuthn registration; the two fields are entries of its `authData` (null when absent). */
  datatype Registration = Registration(credentialId: Value, credentialPublicKey: Value)

  datatype LogCategory = LoginSuccess | LoginFailed

  /** A system event log entry: its category and the `email` metadata. */
  datatype LogEntry = LogEntry(category: LogCategory, email: string)

  /** An issued user token and the lifetime of its cookie (None: a session cookie). */
  datatype Token = Token(user: int, ttl: Option<nat>)

  /** The calls on stores and guards, in the order the handler makes them. */
  datatype Effect =
    | CheckBlocked
    | CountUp
    | ResetCounter
    | VerifyPassword(user: int)
    | SetCookie(key: CookieKey)
    | CreateToken(user: int)
    | AppendLog(category: LogCategory)
    | ProcessGet(registration: nat)

  /** The mutable stores; `trace` records the effects in order. */
  datatype Stores = Stores(
    attempts: nat,
    cookies: map<CookieKey, Value>,
    tokens: seq<Token>,
    log: seq<LogEntry>,
    trace: seq<Effect>)

  /**
   * What the handler reads but does not own. `blocked` is the answer of
   * `BruteForceProtection::isBlocked("backend-login")` for this request;
   * `challengeHex` is the text of the challenge the WebAuthn library generates
   * while building the get-arguments.
   */
  datatype Env = Env(
    getByEmail: string -> Option<User>,
    registrationsOf: User -> seq<Registration>,
    passwordVerify: (User, Value) -> bool,
    blocked: bool,
    base64Decode: string -> string,
    challengeHex: string,
    fromHex: string -> string,
    processGet: (string, string, string, Value, string) -> bool,
    logEnabled: LogCategory -> bool,
    backendDefaultView: Value)

  /** The GET and POST parameters of the HTTP request. */
  datatype HttpRequest = HttpRequest(get: map<string, Value>, post: map<string, Value>) {
    function Get(name: string): Value {
      if name in get then get[name] else VNull
    }
    function Post(name: string): Value {
      if name in post then post[name] else VNull
    }
  }

  datatype JsCall = JsCall(action: string, parameters: Value)

  datatype Target =
    | BrowserUrl
    | TwoFactorView(redirect: Value)
    | UrlOf(url: string)
    | ViewUrl(view: string)
    | ApplicationUrl

  /** The one way a request ends. */
  datatype Outcome =
    | Redirect(target: Target)
    | FormError(message: string)
    | JsText(text: string)
    | JsGetArgs(credentialIds: seq<string>, challenge: string)
    | NoResult
    | ShowLoginForm
    /** A `TypeError` from an internal function ends the request before anything else happens. */
    | UncaughtTypeError

  // ---------------------------------------------------------------- helpers

  /** `redirectToDefaultUrl`: the target it redirects to. */
  function DefaultTarget(env: Env, req: HttpRequest): (r: Target)
    ensures r.UrlOf? || r.ViewUrl? || r == ApplicationUrl
  {
    if Truthy(req.Get("redirect")) then UrlOf(ToStr(req.Get("redirect")))
    else if Truthy(env.backendDefaultView) then ViewUrl(ToStr(env.backendDefaultView))
    else ApplicationUrl
  }

  /** The cookie lifetime chosen by the "stay logged in" value. */
  function StayTtl(stay: Value): Option<nat> {
    if Truthy(stay) then Some(STAY_SECONDS) else None
  }

  function Logged(env: Env, category: LogCategory, email: string, s: Stores): Stores {
    if env.logEnabled(category) then
      s.(log := s.log + [LogEntry(category, email)], trace := s.trace + [AppendLog(category)])
    else s
  }

  function Issued(s: Stores, user: User, ttl: Option<nat>): Stores {
    s.(tokens := s.tokens + [Token(user.id, ttl)], trace := s.trace + [CreateToken(user.id)])
  }

  function CookieSet(s: Stores, key: CookieKey, v: Value): Stores {
    s.(cookies := s.cookies[key := v], trace := s.trace + [SetCookie(key)])
  }

  /** `Cookie::get($key) ?? ''`. */
  function CookieText(cookies: map<CookieKey, Value>, key: CookieKey): string {
    if key in cookies then ToStr(cookies[key]) else ""
  }

  /** The registrations looked up for a user, or none without a user. */
  function RegistrationsFor(env: Env, user: Option<User>): seq<Registration> {
    if user.Some? then env.registrationsOf(user.value) else []
  }

  // ------------------------------------------------------- action "login"

  function LoginFailure(env: Env, email: string, s: Stores): (Outcome, Stores) {
    (FormError(INVALID_USER), Logged(env, LoginFailed, email, s))
  }

  function TwoFactorHandOff(req: HttpRequest, user: User, s: Stores): Stores {
    var s1 := CookieSet(s, TwoFactorUserId, VInt(user.id));
    var s2 := CookieSet(s1, TwoFactorUserStay, req.Post("stay"));
    var s3 := CookieSet(s2, TwoFactorSecret, user.twoFactorSecret);
    CookieSet(s3, TwoFactorBackupCodes, user.twoFactorBackupCodes)
  }

  function PasswordSuccess(env: Env, req: HttpRequest, email: string, user: User, s: Stores): (Outcome, Stores) {
    var issued := Issued(s, user, StayTtl(req.Post("stay")));
    var logged := Logged(env, LoginSuccess, email, issued);
    (Redirect(DefaultTarget(env, req)), logged.(attempts := 0, trace := logged.trace + [ResetCounter]))
  }

  /** The "login" action (email and password form). */
  function LoginAction(env: Env, req: HttpRequest, s: Stores): (r: (Outcome, Stores))
    ensures r.0.Redirect? || r.0.FormError?
    ensures |s.trace| < |r.1.trace| && r.1.trace[..|s.trace|] == s.trace && r.1.trace[|s.trace|] == CheckBlocked
  {
    var email := ToStr(req.Post("email"));
    var user := env.getByEmail(email);
    var checked := s.(trace := s.trace + [CheckBlocked]);
    if env.blocked then (Redirect(BrowserUrl), checked)
    else
      var counted := checked.(attempts := checked.attempts + 1, trace := checked.trace + [CountUp]);
      if user.None? then LoginFailure(env, email, counted)
      else
        var verified := counted.(trace := counted.trace + [VerifyPassword(user.value.id)]);
        if !env.passwordVerify(user.value, req.Post("password")) then LoginFailure(env, email, verified)
        else if Truthy(user.value.twoFactorSecret) then
          (Redirect(TwoFactorView(req.Get("redirect"))), TwoFactorHandOff(req, user.value, verified))
        else PasswordSuccess(env, req, email, user.value, verified)
  }

  // -------------------------------------------- action "webauthn-getargs"

  /**
   * The allowed credential IDs: the base64-decoded `credentialId` of every
   * registration whose ID is truthy, in registration order.
   */
  function AllowedCredentialIds(decode: string -> string, regs: seq<Registration>): (ids: seq<string>)
    ensures |ids| <= |regs|
  {
    if regs == [] then []
    else
      var last := regs[|regs| - 1];
      AllowedCredentialIds(decode, regs[..|regs| - 1])
        + (if Truthy(last.credentialId) then [decode(ToStr(last.credentialId))] else [])
  }

  /** `base64_decode` accepts every truthy credential ID: none of them is an array. */
  predicate IdsDecodable(regs: seq<Registration>) {
    forall k :: 0 <= k < |regs| && Truthy(regs[k].credentialId) ==> StringArg(regs[k].credentialId).Some?
  }

  /** The "webauthn-getargs" action: assertion arguments for the user named by `email`. */
  function GetArgsAction(env: Env, call: JsCall, s: Stores): (r: (Outcome, Stores))
    ensures r.1.attempts == s.attempts && r.1.tokens == s.tokens && r.1.log == s.log
  {
    var user := env.getByEmail(ToStr(Coalesce(Index(call.parameters, "email"), VNull)));
    var regs := RegistrationsFor(env, user);
    if user.None? || |regs| == 0 then (JsText(INVALID_FIDO2), s)
    else if !IdsDecodable(regs) then (UncaughtTypeError, s)
    else
      (JsGetArgs(AllowedCredentialIds(env.base64Decode, regs), env.challengeHex),
       CookieSet(s, CHALLENGE_COOKIE, VStr(env.challengeHex)))
  }

  // ----------------------------------------------- action "webauthn-login"

  /** A registration is tried when its ID is truthy and identical (`===`) to the supplied one. */
  predicate Matches(r: Registration, supplied: Value) {
    Truthy(r.credentialId) && r.credentialId == supplied
  }

  /** Index of the first registration that matches, if any. */
  function FirstMatch(regs: seq<Registration>, supplied: Value): (r: Option<nat>)
    ensures r.Some? ==> r.value < |regs| && Matches(regs[r.value], supplied)
  {
    if regs == [] then None
    else if Matches(regs[0], supplied) then Some(0)
    else
      match FirstMatch(regs[1..], supplied)
      case None => None
      case Some(i) => Some(i + 1)
  }

  /** `$jsCall->parameters[name] ?? ''`, one of the three parts of the signed assertion. */
  function AssertionPart(call: JsCall, name: string): Value {
    Coalesce(Index(call.parameters, name), VStr(""))
  }

  /**
   * The verdict of `processGet` for the assertion in `call`, checked against
   * `reg` and the challenge cookie. None is the `TypeError` of `base64_decode`
   * when a part of the assertion is an array: `processGet` is then not called.
   */
  function Verdict(env: Env, call: JsCall, reg: Registration, cookies: map<CookieKey, Value>): (r: Option<bool>)
    ensures r.None? <==>
      AssertionPart(call, "clientData").VArray? || AssertionPart(call, "authenticatorData").VArray?
      || AssertionPart(call, "signature").VArray?
    ensures r.Some? ==> r.value == env.processGet(
      env.base64Decode(ToStr(AssertionPart(call, "clientData"))),
      env.base64Decode(ToStr(AssertionPart(call, "authenticatorData"))),
      env.base64Decode(ToStr(AssertionPart(call, "signature"))),
      reg.credentialPublicKey,
      env.fromHex(CookieText(cookies, CHALLENGE_COOKIE)))
  {
    match (StringArg(AssertionPart(call, "clientData")), StringArg(AssertionPart(call, "authenticatorData")),
           StringArg(AssertionPart(call, "signature")))
    case (Some(clientData), Some(authenticatorData), Some(signature)) =>
      Some(env.processGet(env.base64Decode(clientData), env.base64Decode(authenticatorData), env.base64Decode(signature),
                          reg.credentialPublicKey, env.fromHex(CookieText(cookies, CHALLENGE_COOKIE))))
    case _ => None
  }

  function SuppliedCredentialId(call: JsCall): Value {
    Coalesce(Index(call.parameters, "credentialId"), VStr(""))
  }

  function FormEmail(call: JsCall): string {
    ToStr(Coalesce(Dig(call.parameters, "formValues", "email"), VNull))
  }

  /** The "webauthn-login" action: verify a signed assertion and log the user in. */
  function WebAuthnLoginAction(env: Env, req: HttpRequest, call: JsCall, s: Stores): (r: (Outcome, Stores))
    ensures r.0.Redirect? <==> r.1.tokens != s.tokens
  {
    var user := env.getByEmail(FormEmail(call));
    var regs := RegistrationsFor(env, user);
    if user.None? || |regs| == 0 then (JsText(INVALID_FIDO2), s)
    else
      match FirstMatch(regs, SuppliedCredentialId(call))
      case None => (JsText(WEBAUTHN_ERROR), s)
      case Some(i) =>
        match Verdict(env, call, regs[i], s.cookies)
        case None => (UncaughtTypeError, s)
        case Some(verified) =>
          var tried := s.(trace := s.trace + [ProcessGet(i)]);
          if !verified then (JsText(WEBAUTHN_ERROR), tried)
          else
            var stay := Coalesce(Dig(call.parameters, "formValues", "stay"), VNull);
            var issued := Issued(tried, user.value, StayTtl(stay));
            (Redirect(DefaultTarget(env, req)), Logged(env, LoginSuccess, user.value.email, issued))
  }

  // ------------------------------------------------------------ dispatch

  /** `Login::onJsCall`: one action per call; an unknown action leaves no result. */
  function OnJsCall(env: Env, req: HttpRequest, call: JsCall, s: Stores): (r: (Outcome, Stores))
    ensures r.0 == NoResult <==> call.action !in {"login", "webauthn-getargs", "webauthn-login"}
    ensures r.1.tokens == s.tokens || (r.0.Redirect? && |r.1.tokens| == |s.tokens| + 1)
  {
    if call.action == "login" then LoginAction(env, req, s)
    else if call.action == "webauthn-getargs" then GetArgsAction(env, call, s)
    else if call.action == "webauthn-login" then WebAuthnLoginAction(env, req, call, s)
    else (NoResult, s)
  }

  /** `Login::onRequest`: a logged-in visitor is sent on, everyone else sees the form. */
  function OnRequest(env: Env, req: HttpRequest, loggedIn: bool): (r: Outcome)
    ensures r.Redirect? ==> r.target != BrowserUrl && !r.target.TwoFactorView?
  {
    if loggedIn then Redirect(DefaultTarget(env, req)) else ShowLoginForm
  }
}
