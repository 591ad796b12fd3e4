/**
 * `Login::onJsCall` as the request handler runs it: a sequence of calls on
 * the stores, with an early exit at every redirect and every final response.
 * Each handler method is proved to end with the outcome and the stores that
 * the specification in `BackendLogin` gives for the same request.
 */
module LoginHandler {
  import opened Php
  import opened BackendLogin
  import LoginProperties

  /**
   * The stores the handler changes: the "backend-login" attempt counter, the
   * encrypted cookies, the issued tokens and the system event log. `trace`
   * records the order of the calls on them.
   */
  class Login {
    var attempts: nat
    var cookies: map<CookieKey, Value>
    var tokens: seq<Token>
    var log: seq<LogEntry>
    ghost var trace: seq<Effect>

    ghost function Snapshot(): Stores
      reads this
    {
      Stores(attempts, cookies, tokens, log, trace)
    }

    constructor (initial: Stores)
      ensures Snapshot() == initial
    {
      attempts := initial.attempts;
      cookies := initial.cookies;
      tokens := initial.tokens;
      log := initial.log;
      trace := initial.trace;
    }

    // ------------------------------------------------ calls on the stores

    /** `BruteForceProtection::isBlocked("backend-login")`. */
    method IsBlocked(env: Env) returns (blocked: bool)
      modifies this`trace
      ensures blocked == env.blocked
      ensures Snapshot() == old(Snapshot()).(trace := old(trace) + [CheckBlocked])
    {
      blocked := env.blocked;
      trace := trace + [CheckBlocked];
    }

    /** `BruteForceProtection::countUp("backend-login")`. */
    method CountUp()
      modifies this
      ensures Snapshot() == old(Snapshot()).(attempts := old(attempts) + 1, trace := old(trace) + [Effect.CountUp])
    {
      attempts := attempts + 1;
      trace := trace + [Effect.CountUp];
    }

    /** `BruteForceProtection::reset("backend-login")`. */
    method Reset()
      modifies this
      ensures Snapshot() == old(Snapshot()).(attempts := 0, trace := old(trace) + [ResetCounter])
    {
      attempts := 0;
      trace := trace + [ResetCounter];
    }

    /** `$user->passwordVerify($password)`. */
    method VerifyPassword(env: Env, user: User, password: Value) returns (ok: bool)
      modifies this`trace
      ensures ok == env.passwordVerify(user, password)
      ensures Snapshot() == old(Snapshot()).(trace := old(trace) + [Effect.VerifyPassword(user.id)])
    {
      ok := env.passwordVerify(user, password);
      trace := trace + [Effect.VerifyPassword(user.id)];
    }

    /** `Cookie::set($key, $value, encrypted: true)`. */
    method SetCookie(key: CookieKey, v: Value)
      modifies this
      ensures Snapshot() == CookieSet(old(Snapshot()), key, v)
    {
      cookies := cookies[key := v];
      trace := trace + [Effect.SetCookie(key)];
    }

    /** `UserToken::create($user)` followed by `UserToken::setCookieValue($token, $ttl)`. */
    method CreateToken(user: User, ttl: Option<nat>)
      modifies this
      ensures Snapshot() == Issued(old(Snapshot()), user, ttl)
    {
      tokens := tokens + [Token(user.id, ttl)];
      trace := trace + [Effect.CreateToken(user.id)];
    }

    /** `SystemEventLog::create($category, null, ['email' => $email])`. */
    method AppendLog(category: LogCategory, email: string)
      modifies this
      ensures Snapshot() == old(Snapshot()).(log := old(log) + [LogEntry(category, email)],
                                             trace := old(trace) + [Effect.AppendLog(category)])
    {
      log := log + [LogEntry(category, email)];
      trace := trace + [Effect.AppendLog(category)];
    }

    /**
     * `$webAuthn->processGet(...)` for one registration, with the challenge read
     * from its cookie. The three `base64_decode` arguments are evaluated first;
     * None is the `TypeError` one of them throws, and then nothing is called.
     */
    method ProcessGet(env: Env, call: JsCall, index: nat, reg: Registration) returns (data: Option<bool>)
      modifies this`trace
      ensures data == Verdict(env, call, reg, cookies)
      ensures Snapshot() == if data.None? then old(Snapshot())
                            else old(Snapshot()).(trace := old(trace) + [Effect.ProcessGet(index)])
    {
      var clientData := StringArg(AssertionPart(call, "clientData"));
      if clientData.None? {
        return None;
      }
      var authenticatorData := StringArg(AssertionPart(call, "authenticatorData"));
      if authenticatorData.None? {
        return None;
      }
      var signature := StringArg(AssertionPart(call, "signature"));
      if signature.None? {
        return None;
      }
      var verdict := env.processGet(
        env.base64Decode(clientData.value),
        env.base64Decode(authenticatorData.value),
        env.base64Decode(signature.value),
        reg.credentialPublicKey,
        env.fromHex(CookieText(cookies, CHALLENGE_COOKIE)));
      data := Some(verdict);
      trace := trace + [Effect.ProcessGet(index)];
    }

    // ------------------------------------------------------------ actions

    /** `Login::onJsCall`. */
    method OnJsCall(env: Env, req: HttpRequest, call: JsCall) returns (out: Outcome)
      modifies this
      ensures (out, Snapshot()) == BackendLogin.OnJsCall(env, req, call, old(Snapshot()))
    {
      if call.action == "login" {
        out := HandleLogin(env, req);
      } else if call.action == "webauthn-getargs" {
        out := WebAuthnGetArgs(env, call);
      } else if call.action == "webauthn-login" {
        out := WebAuthnLogin(env, req, call);
      } else {
        out := NoResult;
      }
    }

    /** The "login" action. */
    method HandleLogin(env: Env, req: HttpRequest) returns (out: Outcome)
      modifies this
      ensures (out, Snapshot()) == LoginAction(env, req, old(Snapshot()))
    {
      var email := ToStr(req.Post("email"));
      var user := env.getByEmail(email);
      var blocked := IsBlocked(env);
      if blocked {
        return Redirect(BrowserUrl);
      }
      CountUp();
      var verified := false;
      if user.Some? {
        verified := VerifyPassword(env, user.value, req.Post("password"));
      }
      if verified {
        var u := user.value;
        if Truthy(u.twoFactorSecret) {
          SetCookie(TwoFactorUserId, VInt(u.id));
          SetCookie(TwoFactorUserStay, req.Post("stay"));
          SetCookie(TwoFactorSecret, u.twoFactorSecret);
          SetCookie(TwoFactorBackupCodes, u.twoFactorBackupCodes);
          return Redirect(TwoFactorView(req.Get("redirect")));
        }
        CreateToken(u, if Truthy(req.Post("stay")) then Some(STAY_SECONDS) else None);
        if env.logEnabled(LoginSuccess) {
          AppendLog(LoginSuccess, email);
        }
        Reset();
        return Redirect(DefaultTarget(env, req));
      } else {
        if env.logEnabled(LoginFailed) {
          AppendLog(LoginFailed, email);
        }
        return FormError(INVALID_USER);
      }
    }

    /** The "webauthn-getargs" action. */
    method WebAuthnGetArgs(env: Env, call: JsCall) returns (out: Outcome)
      modifies this
      ensures (out, Snapshot()) == GetArgsAction(env, call, old(Snapshot()))
    {
      var user := env.getByEmail(ToStr(Coalesce(Index(call.parameters, "email"), VNull)));
      var regs := if user.Some? then env.registrationsOf(user.value) else [];
      if user.None? || |regs| == 0 {
        return JsText(INVALID_FIDO2);
      }
      var credentialIds: seq<string> := [];
      for k := 0 to |regs|
        invariant credentialIds == AllowedCredentialIds(env.base64Decode, regs[..k])
        invariant forall j :: 0 <= j < k && Truthy(regs[j].credentialId) ==> StringArg(regs[j].credentialId).Some?
      {
        assert regs[..k + 1][..k] == regs[..k];
        var credentialId := regs[k].credentialId;
        if Truthy(credentialId) {
          var text := StringArg(credentialId);
          if text.None? {
            assert !IdsDecodable(regs);
            return UncaughtTypeError;
          }
          credentialIds := credentialIds + [env.base64Decode(text.value)];
        }
      }
      assert regs[..|regs|] == regs;
      out := JsGetArgs(credentialIds, env.challengeHex);
      SetCookie(CHALLENGE_COOKIE, VStr(env.challengeHex));
    }

    /** The "webauthn-login" action. */
    method WebAuthnLogin(env: Env, req: HttpRequest, call: JsCall) returns (out: Outcome)
      modifies this
      ensures (out, Snapshot()) == WebAuthnLoginAction(env, req, call, old(Snapshot()))
    {
      var user := env.getByEmail(FormEmail(call));
      var regs := if user.Some? then env.registrationsOf(user.value) else [];
      if user.None? || |regs| == 0 {
        return JsText(INVALID_FIDO2);
      }
      var supplied := Coalesce(Index(call.parameters, "credentialId"), VStr(""));
      var data := false;
      ghost var tried: Option<nat> := None;
      var k := 0;
      while k < |regs|
        invariant 0 <= k <= |regs|
        invariant forall j :: 0 <= j < k ==> !Matches(regs[j], supplied)
        invariant !data && tried.None? && Snapshot() == old(Snapshot())
      {
        var credentialId := regs[k].credentialId;
        if !Truthy(credentialId) {
          k := k + 1;
          continue;
        }
        if credentialId == supplied {
          var verdict := ProcessGet(env, call, k, regs[k]);
          if verdict.None? {
            LoginProperties.FirstMatchIsFirst(regs, supplied, k);
            return UncaughtTypeError;
          }
          data := verdict.value;
          tried := Some(k);
          break;
        }
        k := k + 1;
      }
      if tried.Some? {
        LoginProperties.FirstMatchIsFirst(regs, supplied, tried.value);
      } else {
        LoginProperties.FirstMatchNone(regs, supplied);
      }
      assert tried == FirstMatch(regs, supplied);
      if !data {
        return JsText(WEBAUTHN_ERROR);
      }
      var stay := Coalesce(Dig(call.parameters, "formValues", "stay"), VNull);
      CreateToken(user.value, if Truthy(stay) then Some(STAY_SECONDS) else None);
      if env.logEnabled(LoginSuccess) {
        AppendLog(LoginSuccess, user.value.email);
      }
      return Redirect(DefaultTarget(env, req));
    }
  }
}
