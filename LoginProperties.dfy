/**
 * What the backend login handler guarantees: the order of the brute-force
 * calls, which stores each path writes and which it leaves alone, how the
 * WebAuthn credential is chosen, and the redirect precedence.
 */
module LoginProperties {
  import opened Php
  import opened BackendLogin

  /** The effects a call appended to the trace. */
  function NewEffects(before: Stores, after: Stores): seq<Effect>
    requires |before.trace| <= |after.trace|
  {
    after.trace[|before.trace|..]
  }

  function SubmittedEmail(req: HttpRequest): string {
    ToStr(req.Post("email"))
  }

  /** A user with the submitted email exists and the submitted password verifies. */
  predicate PasswordAccepted(env: Env, req: HttpRequest) {
    var user := env.getByEmail(SubmittedEmail(req));
    user.Some? && env.passwordVerify(user.value, req.Post("password"))
  }

  /** A password login that completes without a second factor. */
  predicate FullPasswordLogin(env: Env, req: HttpRequest) {
    PasswordAccepted(env, req) && !Truthy(env.getByEmail(SubmittedEmail(req)).value.twoFactorSecret)
  }

  function LogAppendix(env: Env, category: LogCategory, email: string): seq<LogEntry> {
    if env.logEnabled(category) then [LogEntry(category, email)] else []
  }

  // ------------------------------------------------------------ "login"

  /** A blocked channel ends the request with a redirect to the current URL before counting or checking anything. */
  lemma BlockedLoginStopsFirst(env: Env, req: HttpRequest, s: Stores)
    requires env.blocked
    ensures LoginAction(env, req, s) == (Redirect(BrowserUrl), s.(trace := s.trace + [CheckBlocked]))
  {
  }

  /**
   * An unblocked attempt counts up exactly once, right after the block check
   * and before the password is compared, which happens exactly when the user exists.
   */
  lemma CountUpOnceBeforePassword(env: Env, req: HttpRequest, s: Stores)
    requires !env.blocked
    ensures var t := LoginAction(env, req, s).1;
      && |s.trace| + 2 <= |t.trace|
      && t.trace[..|s.trace| + 2] == s.trace + [CheckBlocked, CountUp]
      && CountUp !in t.trace[|s.trace| + 2..]
      && (forall k :: |s.trace| <= k < |t.trace| && t.trace[k].VerifyPassword? ==> k == |s.trace| + 2)
      && (env.getByEmail(SubmittedEmail(req)).Some? ==>
            |s.trace| + 2 < |t.trace| &&
            t.trace[|s.trace| + 2] == VerifyPassword(env.getByEmail(SubmittedEmail(req)).value.id))
      && (env.getByEmail(SubmittedEmail(req)).None? ==>
            forall k :: |s.trace| <= k < |t.trace| ==> !t.trace[k].VerifyPassword?)
  {
    var t := LoginAction(env, req, s).1;
    var n := |s.trace|;
    var tail := UnblockedEffects(env, req);
    UnblockedTrace(env, req, s);
    assert t.trace[..n + 2] == s.trace + [CheckBlocked, CountUp];
    assert t.trace[n + 2..] == tail;
    forall k | n <= k < |t.trace| && t.trace[k].VerifyPassword?
      ensures k == n + 2 && env.getByEmail(SubmittedEmail(req)).Some?
    {
      if k >= n + 2 {
        assert t.trace[k] == tail[k - n - 2];
      }
    }
  }

  /** The effects of an unblocked login attempt after the block check and the count. */
  function UnblockedEffects(env: Env, req: HttpRequest): (tail: seq<Effect>)
    ensures CountUp !in tail
    ensures forall k :: 0 < k < |tail| ==> !tail[k].VerifyPassword?
    ensures env.getByEmail(SubmittedEmail(req)).None? ==> forall k :: 0 <= k < |tail| ==> !tail[k].VerifyPassword?
    ensures env.getByEmail(SubmittedEmail(req)).Some? ==>
      |tail| > 0 && tail[0] == VerifyPassword(env.getByEmail(SubmittedEmail(req)).value.id)
  {
    var user := env.getByEmail(SubmittedEmail(req));
    var failureLog := if env.logEnabled(LoginFailed) then [AppendLog(LoginFailed)] else [];
    if user.None? then failureLog
    else if !env.passwordVerify(user.value, req.Post("password")) then [VerifyPassword(user.value.id)] + failureLog
    else if Truthy(user.value.twoFactorSecret) then
      [VerifyPassword(user.value.id), SetCookie(TwoFactorUserId), SetCookie(TwoFactorUserStay),
       SetCookie(TwoFactorSecret), SetCookie(TwoFactorBackupCodes)]
    else
      [VerifyPassword(user.value.id), CreateToken(user.value.id)]
        + (if env.logEnabled(LoginSuccess) then [AppendLog(LoginSuccess)] else []) + [ResetCounter]
  }

  lemma UnblockedTrace(env: Env, req: HttpRequest, s: Stores)
    requires !env.blocked
    ensures LoginAction(env, req, s).1.trace == s.trace + [CheckBlocked, CountUp] + UnblockedEffects(env, req)
  {
    var email := SubmittedEmail(req);
    var user := env.getByEmail(email);
    var counted := s.(attempts := s.attempts + 1, trace := s.trace + [CheckBlocked, CountUp]);
    assert s.trace + [CheckBlocked] + [CountUp] == counted.trace;
    if user.None? {
      assert LoginAction(env, req, s) == LoginFailure(env, email, counted);
    } else {
      var verified := counted.(trace := counted.trace + [VerifyPassword(user.value.id)]);
      if !env.passwordVerify(user.value, req.Post("password")) {
        assert LoginAction(env, req, s) == LoginFailure(env, email, verified);
      } else if Truthy(user.value.twoFactorSecret) {
        assert LoginAction(env, req, s).1 == TwoFactorHandOff(req, user.value, verified);
      } else {
        assert LoginAction(env, req, s) == PasswordSuccess(env, req, email, user.value, verified);
      }
    }
  }

  /** No such user, or a wrong password: the generic error, a failure log entry if enabled, nothing else but the count. */
  lemma FailedPasswordLogin(env: Env, req: HttpRequest, s: Stores)
    requires !env.blocked && !PasswordAccepted(env, req)
    ensures var (out, t) := LoginAction(env, req, s);
      && out == FormError(INVALID_USER)
      && t.log == s.log + LogAppendix(env, LoginFailed, SubmittedEmail(req))
      && t.tokens == s.tokens
      && t.cookies == s.cookies
      && t.attempts == s.attempts + 1
      && |s.trace| <= |t.trace| && ResetCounter !in NewEffects(s, t)
  {
  }

  /**
   * A correct password for a user with a two-factor secret writes exactly the
   * four two-factor cookies and redirects to the two-factor view with the
   * incoming `redirect` parameter; no token, no success log, no reset.
   */
  lemma TwoFactorHandOffLogin(env: Env, req: HttpRequest, s: Stores)
    requires !env.blocked && PasswordAccepted(env, req)
    requires Truthy(env.getByEmail(SubmittedEmail(req)).value.twoFactorSecret)
    ensures var user := env.getByEmail(SubmittedEmail(req)).value;
      var (out, t) := LoginAction(env, req, s);
      && out == Redirect(TwoFactorView(req.Get("redirect")))
      && t.cookies == s.cookies[TwoFactorUserId := VInt(user.id)][TwoFactorUserStay := req.Post("stay")]
                               [TwoFactorSecret := user.twoFactorSecret][TwoFactorBackupCodes := user.twoFactorBackupCodes]
      && t.cookies.Keys == s.cookies.Keys + {TwoFactorUserId, TwoFactorUserStay, TwoFactorSecret, TwoFactorBackupCodes}
      && |s.trace| <= |t.trace|
      && NewEffects(s, t) == [CheckBlocked, CountUp, VerifyPassword(user.id), SetCookie(TwoFactorUserId),
                              SetCookie(TwoFactorUserStay), SetCookie(TwoFactorSecret), SetCookie(TwoFactorBackupCodes)]
      && t.tokens == s.tokens && t.log == s.log && t.attempts == s.attempts + 1
  {
  }

  /**
   * A correct password without a second factor issues one token (a 60-day
   * cookie when `stay` is truthy, a session cookie otherwise), logs the success
   * if enabled, resets the counter and redirects to the default target.
   */
  lemma PasswordLoginSucceeds(env: Env, req: HttpRequest, s: Stores)
    requires !env.blocked && FullPasswordLogin(env, req)
    ensures var user := env.getByEmail(SubmittedEmail(req)).value;
      var (out, t) := LoginAction(env, req, s);
      && out == Redirect(DefaultTarget(env, req))
      && t.tokens == s.tokens + [Token(user.id, if Truthy(req.Post("stay")) then Some(5184000) else None)]
      && t.log == s.log + LogAppendix(env, LoginSuccess, SubmittedEmail(req))
      && t.attempts == 0
      && t.cookies == s.cookies
      && |s.trace| <= |t.trace|
      && NewEffects(s, t) == [CheckBlocked, CountUp, VerifyPassword(user.id), CreateToken(user.id)]
                             + (if env.logEnabled(LoginSuccess) then [AppendLog(LoginSuccess)] else [])
                             + [ResetCounter]
  {
  }

  // ---------------------------------------------------- counter, overall

  /**
   * Over every action: the counter is counted up only by an unblocked password
   * attempt and reset only by a password login without a second factor. The
   * WebAuthn actions never touch it.
   */
  lemma CounterDiscipline(env: Env, req: HttpRequest, call: JsCall, s: Stores)
    ensures OnJsCall(env, req, call, s).1.attempts ==
      if call.action != "login" || env.blocked then s.attempts
      else if FullPasswordLogin(env, req) then 0
      else s.attempts + 1
  {
  }

  /**
   * Every action ends in an outcome of its own kind: "login" never yields a
   * JS result and never writes the WebAuthn challenge, so it cannot fall
   * through into "webauthn-getargs".
   */
  lemma ActionsEndInTheirOwnOutcome(env: Env, req: HttpRequest, call: JsCall, s: Stores)
    ensures var (out, t) := OnJsCall(env, req, call, s);
      && (call.action == "login" ==>
            (out.Redirect? || out.FormError?)
            && (CHALLENGE_COOKIE in t.cookies <==> CHALLENGE_COOKIE in s.cookies)
            && (CHALLENGE_COOKIE in s.cookies ==> t.cookies[CHALLENGE_COOKIE] == s.cookies[CHALLENGE_COOKIE]))
      && (call.action == "webauthn-getargs" ==> out.JsText? || out.JsGetArgs? || out == UncaughtTypeError)
      && (call.action == "webauthn-login" ==> out.JsText? || out.Redirect? || out == UncaughtTypeError)
      && (call.action !in {"login", "webauthn-getargs", "webauthn-login"} ==> out == NoResult && t == s)
  {
  }

  // --------------------------------------------------- "webauthn-getargs"

  /** Indices of the registrations whose credential ID is truthy, in order. */
  function Contributing(regs: seq<Registration>): seq<nat> {
    if regs == [] then []
    else Contributing(regs[..|regs| - 1]) + (if Truthy(regs[|regs| - 1].credentialId) then [|regs| - 1] else [])
  }

  /**
   * The allowed IDs are exactly the decoded truthy credential IDs, one per
   * such registration, in registration order: the k-th allowed ID comes from
   * the k-th registration with a truthy ID.
   */
  lemma {:induction false} AllowedCredentialIdsInOrder(decode: string -> string, regs: seq<Registration>)
    ensures var ids := AllowedCredentialIds(decode, regs);
      var from := Contributing(regs);
      && |ids| == |from| <= |regs|
      && (forall k :: 0 <= k < |from| ==> from[k] < |regs| && ids[k] == decode(ToStr(regs[from[k]].credentialId)))
      && (forall k, l :: 0 <= k < l < |from| ==> from[k] < from[l])
      && (forall j :: 0 <= j < |regs| ==> (j in from <==> Truthy(regs[j].credentialId)))
  {
    ContributingIncreasing(regs);
    ContributingMembers(regs);
    AllowedCredentialIdsAt(decode, regs);
  }

  lemma {:induction false} ContributingIncreasing(regs: seq<Registration>)
    ensures var from := Contributing(regs);
      && |from| <= |regs|
      && (forall k :: 0 <= k < |from| ==> from[k] < |regs|)
      && (forall k, l :: 0 <= k < l < |from| ==> from[k] < from[l])
  {
    if regs != [] {
      ContributingIncreasing(regs[..|regs| - 1]);
    }
  }

  lemma {:induction false} ContributingMembers(regs: seq<Registration>)
    ensures forall j :: 0 <= j < |regs| ==> (j in Contributing(regs) <==> Truthy(regs[j].credentialId))
  {
    if regs != [] {
      var init := regs[..|regs| - 1];
      ContributingMembers(init);
      ContributingIncreasing(init);
      forall j | 0 <= j < |regs|
        ensures j in Contributing(regs) <==> Truthy(regs[j].credentialId)
      {
        if j < |regs| - 1 {
          assert regs[j] == init[j];
        }
      }
    }
  }

  lemma {:induction false} AllowedCredentialIdsAt(decode: string -> string, regs: seq<Registration>)
    ensures var ids := AllowedCredentialIds(decode, regs);
      var from := Contributing(regs);
      && |ids| == |from|
      && forall k :: 0 <= k < |from| ==> from[k] < |regs| && ids[k] == decode(ToStr(regs[from[k]].credentialId))
  {
    ContributingIncreasing(regs);
    if regs != [] {
      var init := regs[..|regs| - 1];
      AllowedCredentialIdsAt(decode, init);
      ContributingIncreasing(init);
      var ids := AllowedCredentialIds(decode, regs);
      var from := Contributing(regs);
      forall k | 0 <= k < |from|
        ensures ids[k] == decode(ToStr(regs[from[k]].credentialId))
      {
        if k < |Contributing(init)| {
          assert from[k] == Contributing(init)[k];
          assert ids[k] == AllowedCredentialIds(decode, init)[k];
          assert regs[from[k]] == init[from[k]];
        }
      }
    }
  }

  /** Without a user or without registrations the request is refused and nothing is stored. */
  lemma GetArgsRefused(env: Env, call: JsCall, s: Stores)
    ensures var user := env.getByEmail(ToStr(Coalesce(Index(call.parameters, "email"), VNull)));
      var (out, t) := GetArgsAction(env, call, s);
      && (out == JsText(INVALID_FIDO2) <==> user.None? || env.registrationsOf(user.value) == [])
      && (out == JsText(INVALID_FIDO2) ==> t == s)
  {
  }

  /**
   * Otherwise the result carries the allowed IDs and the new challenge, and the
   * challenge cookie is the one store written; a truthy credential ID that is
   * an array makes `base64_decode` throw before the cookie is written.
   */
  lemma GetArgsIssuesChallenge(env: Env, call: JsCall, s: Stores)
    requires var user := env.getByEmail(ToStr(Coalesce(Index(call.parameters, "email"), VNull)));
      user.Some? && env.registrationsOf(user.value) != []
    ensures var user := env.getByEmail(ToStr(Coalesce(Index(call.parameters, "email"), VNull))).value;
      var regs := env.registrationsOf(user);
      var (out, t) := GetArgsAction(env, call, s);
      && (IdsDecodable(regs) ==>
            && out == JsGetArgs(AllowedCredentialIds(env.base64Decode, regs), env.challengeHex)
            && t == s.(cookies := s.cookies[CHALLENGE_COOKIE := VStr(env.challengeHex)],
                       trace := s.trace + [SetCookie(CHALLENGE_COOKIE)]))
      && (!IdsDecodable(regs) ==> out == UncaughtTypeError && t == s)
  {
  }

  // ----------------------------------------------------- "webauthn-login"

  /** `FirstMatch` finds the first matching registration, and only it. */
  lemma {:induction false} FirstMatchIsFirst(regs: seq<Registration>, supplied: Value, i: nat)
    ensures FirstMatch(regs, supplied) == Some(i) <==>
      i < |regs| && Matches(regs[i], supplied) && forall j :: 0 <= j < i ==> !Matches(regs[j], supplied)
  {
    if regs != [] && !Matches(regs[0], supplied) && i > 0 {
      FirstMatchIsFirst(regs[1..], supplied, i - 1);
      if i < |regs| {
        forall j | 0 <= j < i - 1 ensures regs[1..][j] == regs[j + 1] { }
        assert (forall j :: 0 <= j < i ==> !Matches(regs[j], supplied)) <==>
               (forall j :: 0 <= j < i - 1 ==> !Matches(regs[1..][j], supplied));
      }
    }
  }

  /** `FirstMatch` finds nothing exactly when no registration matches. */
  lemma {:induction false} FirstMatchNone(regs: seq<Registration>, supplied: Value)
    ensures FirstMatch(regs, supplied).None? <==> forall j :: 0 <= j < |regs| ==> !Matches(regs[j], supplied)
  {
    if regs != [] && !Matches(regs[0], supplied) {
      FirstMatchNone(regs[1..], supplied);
      assert forall j :: 1 <= j < |regs| ==> regs[j] == regs[1..][j - 1];
    }
  }

  /**
   * At most one registration is passed to verification, and it is the first
   * whose ID is identical to the supplied one; registrations with an empty ID
   * are never tried. Neither the counter nor any cookie changes on any path.
   */
  lemma WebAuthnTriesFirstMatchOnly(env: Env, req: HttpRequest, call: JsCall, s: Stores)
    ensures var (out, t) := WebAuthnLoginAction(env, req, call, s);
      var regs := RegistrationsFor(env, env.getByEmail(FormEmail(call)));
      && |s.trace| <= |t.trace|
      && (forall k :: |s.trace| <= k < |t.trace| && t.trace[k].ProcessGet? ==>
            k == |s.trace|
            && var i := t.trace[k].registration;
               i < |regs| && Truthy(regs[i].credentialId) && regs[i].credentialId == SuppliedCredentialId(call)
               && forall j :: 0 <= j < i ==> !Matches(regs[j], SuppliedCredentialId(call)))
      && t.attempts == s.attempts
      && t.cookies == s.cookies
  {
    var (out, t) := WebAuthnLoginAction(env, req, call, s);
    var regs := RegistrationsFor(env, env.getByEmail(FormEmail(call)));
    var m := FirstMatch(regs, SuppliedCredentialId(call));
    if m.Some? {
      FirstMatchIsFirst(regs, SuppliedCredentialId(call), m.value);
    }
  }

  /**
   * Without a user or without registrations the request is refused with the
   * invalid-fido2 text, and nothing is verified, issued, logged or stored.
   */
  lemma WebAuthnLoginRefused(env: Env, req: HttpRequest, call: JsCall, s: Stores)
    ensures var user := env.getByEmail(FormEmail(call));
      var (out, t) := WebAuthnLoginAction(env, req, call, s);
      && (out == JsText(INVALID_FIDO2) <==> user.None? || env.registrationsOf(user.value) == [])
      && (out == JsText(INVALID_FIDO2) ==> t == s)
  {
  }

  /**
   * The WebAuthn outcome for a user with registrations: the generic WebAuthn
   * error, with no token, when no registration matches or verification fails;
   * a `TypeError` with nothing stored when a part of the assertion is an array;
   * otherwise one token under the stay rule, a success log entry with the
   * stored email if enabled, and the default redirect.
   */
  lemma WebAuthnLoginOutcome(env: Env, req: HttpRequest, call: JsCall, s: Stores)
    requires env.getByEmail(FormEmail(call)).Some?
    requires env.registrationsOf(env.getByEmail(FormEmail(call)).value) != []
    ensures var user := env.getByEmail(FormEmail(call)).value;
      var regs := env.registrationsOf(user);
      var m := FirstMatch(regs, SuppliedCredentialId(call));
      var (out, t) := WebAuthnLoginAction(env, req, call, s);
      var thrown := m.Some? && Verdict(env, call, regs[m.value], s.cookies).None?;
      var verified := m.Some? && Verdict(env, call, regs[m.value], s.cookies) == Some(true);
      && (thrown ==> out == UncaughtTypeError && t == s)
      && (!thrown && !verified ==> out == JsText(WEBAUTHN_ERROR) && t.tokens == s.tokens && t.log == s.log)
      && (verified ==>
            && out == Redirect(DefaultTarget(env, req))
            && t.tokens == s.tokens + [Token(user.id, StayTtl(Coalesce(Dig(call.parameters, "formValues", "stay"), VNull)))]
            && t.log == s.log + LogAppendix(env, LoginSuccess, user.email))
  {
  }

  /**
   * The challenge cookie is read but never cleared: after any WebAuthn login
   * call the same call meets the same stores it depends on and ends the same way.
   */
  lemma ChallengeSurvivesWebAuthnLogin(env: Env, req: HttpRequest, call: JsCall, s: Stores)
    ensures var (out, t) := WebAuthnLoginAction(env, req, call, s);
      && t.cookies == s.cookies
      && WebAuthnLoginAction(env, req, call, t).0 == out
  {
  }

  // ------------------------------------------------------------ redirects

  /** The explicit `redirect` parameter wins, then the configured default view, then the application URL. */
  lemma RedirectPrecedence(env: Env, req: HttpRequest)
    ensures DefaultTarget(env, req).UrlOf? <==> Truthy(req.Get("redirect"))
    ensures DefaultTarget(env, req).UrlOf? ==> DefaultTarget(env, req).url == ToStr(req.Get("redirect"))
    ensures DefaultTarget(env, req).ViewUrl? <==> !Truthy(req.Get("redirect")) && Truthy(env.backendDefaultView)
    ensures DefaultTarget(env, req).ViewUrl? ==> DefaultTarget(env, req).view == ToStr(env.backendDefaultView)
    ensures DefaultTarget(env, req) == ApplicationUrl <==> !Truthy(req.Get("redirect")) && !Truthy(env.backendDefaultView)
  {
  }

  /** A visitor who is already logged in is redirected by the default rule; nobody else is. */
  lemma LoggedInVisitorIsRedirected(env: Env, req: HttpRequest, loggedIn: bool)
    ensures OnRequest(env, req, loggedIn).Redirect? <==> loggedIn
    ensures loggedIn ==> OnRequest(env, req, loggedIn).target == DefaultTarget(env, req)
  {
  }
}
