# Framelix backend login and income fixation filter, in Dafny

This project models two pieces of the Framelix PHP framework.

The first is the request handler of the backend login view (`Login::onJsCall`,
`Login::redirectToDefaultUrl`, `Login::onRequest`). It has three JS-call actions:

- `login` checks the brute-force block of channel `backend-login`, counts the
  attempt and verifies the password. It then either hands off to two-factor
  login through four encrypted cookies, or issues a user token and resets the counter.
- `webauthn-getargs` builds the list of allowed WebAuthn credential IDs and
  stores the challenge in the cookie `fido2-login-challenge`.
- `webauthn-login` verifies a signed assertion against the first
  registration whose credential ID is identical to the supplied one, then
  issues a token.

The handler works on four stores: the attempt counter, the encrypted cookies,
the issued user tokens and the system event log. Every redirect and every final
response ends the request.

The second is the fixation filter of the demo income table
(`Income::getQuickSearchCondition`, `Income::getQuickSearch`). It maps the chosen
quick-search option to an SQL fragment, and it lists the fixations as select options.

Files:

- `Php.dfy`: PHP values, truthiness, the `(string)` cast, `??` lookups, decimal text of integers.
- `PhpNumeric.dfy`: `is_numeric` on strings (PHP 8 rules, including surrounding
  whitespace, a decimal point and an exponent) and the `(int)` cast, with the
  round trip from integer to text and back.
- `BackendLogin.dfy`: the handler as pure functions. Each function takes the stores
  before a request and returns the outcome and the stores after it. An `Effect`
  trace records the order of the calls on the stores and guards.
- `LoginProperties.dfy`: the lemmas about that specification.
- `LoginHandler.dfy`: class `Login`. Its fields are the stores. Its methods run
  the handler step by step, including the two `foreach` loops. Each method is
  proved to end exactly as the specification says.
- `IncomeMeta.dfy`: the fixation rule, the option list, and a `SelectField` class
  filled by a loop.

The foreign calls are fields of the `Env` datatype, and the model assumes nothing
about them:

- `User::getByEmail`, the registration query, `passwordVerify`
- `base64_decode`, `ByteBuffer::fromHex`, `processGet`
- the challenge that the WebAuthn library generates
- the answer of `BruteForceProtection::isBlocked`
- the event-log switches and `backendDefaultView` from the configuration

The code has no `strict_types` declaration, so `base64_decode` converts a scalar
argument to text but throws a `TypeError` for an array. The model keeps that
error as the outcome `UncaughtTypeError`, which ends the request with nothing stored.
It applies to a stored credential ID in `webauthn-getargs` and to the three assertion
parts a client sends to `webauthn-login`.

The code behaves as follows on points that a hardened login flow might handle differently:

- A blocked attempt redirects before `countUp`, so it is not counted.
- A WebAuthn login neither counts nor resets the brute-force counter.
- The WebAuthn challenge cookie is not cleared after use. `ChallengeSurvivesWebAuthnLogin`
  shows that replaying the same call ends the same way.
- A missing `break` after the `login` case cannot fall through, because every
  path of that case ends in a redirect or a stopping response.

## Model

| member | source | states |
|---|---|---|
| `LoginHandler.Login.OnJsCall` | appdata/modules/Framelix/src/View/Backend/Login.php:37-146 | Dispatches on the action name. An unknown action has no result and no effect. The outcome and new stores equal `BackendLogin.OnJsCall` |
| `LoginHandler.Login.HandleLogin` | appdata/modules/Framelix/src/View/Backend/Login.php:40-85 | Runs the `login` action step by step with early exits. Its outcome and new stores equal `LoginAction` |
| `LoginHandler.Login.WebAuthnGetArgs` | appdata/modules/Framelix/src/View/Backend/Login.php:86-103 | The `foreach` collects the decoded truthy credential IDs, then the challenge cookie is set. Equal to `GetArgsAction` |
| `LoginHandler.Login.WebAuthnLogin` | appdata/modules/Framelix/src/View/Backend/Login.php:104-144 | The `foreach` skips empty IDs and stops at the first identical one, which is the only one passed to `processGet`. Equal to `WebAuthnLoginAction` |
| `LoginProperties.BlockedLoginStopsFirst` | appdata/modules/Framelix/src/View/Backend/Login.php:48-50 | When the channel is blocked, the outcome is a redirect to the browser URL. Only the block check happened: no count, no password check, no store written |
| `BackendLogin.OnJsCall` | appdata/modules/Framelix/src/View/Backend/Login.php:37-146 | The result is "no result" exactly for an action name other than the three. A token is issued only together with a redirect, and at most one per call |
| `BackendLogin.LoginAction` | appdata/modules/Framelix/src/View/Backend/Login.php:40-85 | The `login` action ends in a redirect or a form error. Its effects extend the trace, and the block check always comes first |
| `BackendLogin.GetArgsAction` | appdata/modules/Framelix/src/View/Backend/Login.php:86-103 | `webauthn-getargs` never touches the counter, the tokens or the log |
| `BackendLogin.AllowedCredentialIds` | appdata/modules/Framelix/src/View/Backend/Login.php:94-100 | Each registration contributes at most one allowed ID |
| `BackendLogin.Verdict` | appdata/modules/Framelix/src/View/Backend/Login.php:119-125 | A `TypeError` (no verdict) happens exactly when `clientData`, `authenticatorData` or `signature` is an array. Otherwise the verdict is `processGet` on the decoded parts, the stored public key and the challenge cookie |
| `BackendLogin.WebAuthnLoginAction` | appdata/modules/Framelix/src/View/Backend/Login.php:104-144 | `webauthn-login` redirects exactly when it issued a token |
| `BackendLogin.DefaultTarget` | appdata/modules/Framelix/src/View/Backend/Login.php:259-268 | The default redirect goes to the `redirect` URL, the configured view or the application URL, never back to the current page or to the two-factor view |
| `BackendLogin.OnRequest` | appdata/modules/Framelix/src/View/Backend/Login.php:270-278 | A redirect of the page never goes back to the current URL or to the two-factor view |
| `LoginProperties.CountUpOnceBeforePassword` | appdata/modules/Framelix/src/View/Backend/Login.php:47-52 | When not blocked, the new effects start with the block check and exactly one `countUp`. The password check comes right after it when the user exists, and no password check happens when the user does not exist |
| `LoginProperties.UnblockedEffects` | appdata/modules/Framelix/src/View/Backend/Login.php:51-85 | The effects after the count contain no second `countUp`. A password check appears only first, and only when the user exists |
| `LoginProperties.FailedPasswordLogin` | appdata/modules/Framelix/src/View/Backend/Login.php:78-85 | No user or a wrong password gives `__framelix_login_invalid_user__`. A `LOGIN_FAILED` entry with the submitted email is added only if enabled. Tokens and cookies are unchanged, the counter is up by one, and there is no reset |
| `LoginProperties.TwoFactorHandOffLogin` | appdata/modules/Framelix/src/View/Backend/Login.php:53-67 | With a two-factor secret, exactly the four two-factor cookies are written (user id, stay, secret, backup codes). The redirect goes to the two-factor view with the incoming `redirect`. No token, no log, no reset |
| `LoginProperties.PasswordLoginSucceeds` | appdata/modules/Framelix/src/View/Backend/Login.php:69-77 | Without a second factor, one token is issued: TTL 5184000 s if `stay` is truthy, a session cookie otherwise. `LOGIN_SUCCESS` is logged if enabled, the counter is reset last, and the outcome is the default redirect |
| `LoginProperties.CounterDiscipline` | appdata/modules/Framelix/src/View/Backend/Login.php:40-144 | Over all actions, the counter stays the same unless the action is an unblocked `login`. It is 0 after a full password login and up by one otherwise |
| `LoginProperties.ActionsEndInTheirOwnOutcome` | appdata/modules/Framelix/src/View/Backend/Login.php:39-145 | `login` ends in a redirect or a form error and never touches the challenge cookie, so there is no fall-through. Each WebAuthn action ends in its own kind of result or a `TypeError`. An unknown action changes nothing |
| `LoginProperties.AllowedCredentialIdsInOrder` | appdata/modules/Framelix/src/View/Backend/Login.php:94-100 | The k-th allowed ID is the decoded ID of the k-th registration with a truthy ID. The indices increase, and a registration contributes exactly when its ID is truthy |
| `LoginProperties.GetArgsRefused` | appdata/modules/Framelix/src/View/Backend/Login.php:88-93 | The result is `__framelix_login_invalid_fido2__` exactly when there is no user or no registration. The stores are then unchanged |
| `LoginProperties.GetArgsIssuesChallenge` | appdata/modules/Framelix/src/View/Backend/Login.php:94-103 | Otherwise, when every truthy credential ID is text, the result carries the allowed IDs and the challenge, and the only store written is the `fido2-login-challenge` cookie. A truthy ID that is an array gives a `TypeError` and nothing is stored |
| `BackendLogin.FirstMatch` | appdata/modules/Framelix/src/View/Backend/Login.php:113-128 | A found index is in range, and its registration has a truthy ID identical to the supplied one |
| `LoginProperties.FirstMatchIsFirst` | appdata/modules/Framelix/src/View/Backend/Login.php:113-128 | `FirstMatch` is `Some(i)` exactly when registration i matches and no earlier one does |
| `LoginProperties.FirstMatchNone` | appdata/modules/Framelix/src/View/Backend/Login.php:113-128 | `FirstMatch` is `None` exactly when no registration matches |
| `LoginProperties.WebAuthnTriesFirstMatchOnly` | appdata/modules/Framelix/src/View/Backend/Login.php:112-128 | At most one `processGet`, on the first registration whose truthy ID is identical to the supplied one. Counter and cookies are unchanged on every path |
| `LoginProperties.WebAuthnLoginRefused` | appdata/modules/Framelix/src/View/Backend/Login.php:106-111 | The result is `__framelix_login_invalid_fido2__` exactly when there is no user or no registration. The stores are then unchanged: no verification, no token, no log |
| `LoginProperties.WebAuthnLoginOutcome` | appdata/modules/Framelix/src/View/Backend/Login.php:119-144 | For a user with registrations: when a registration matches and an assertion part is an array, the result is a `TypeError` with nothing stored. No match or a failed verification gives the WebAuthn error, with no token and no log. Success issues one token under the stay rule, logs the user's stored email if enabled, and ends in the default redirect |
| `LoginProperties.ChallengeSurvivesWebAuthnLogin` | appdata/modules/Framelix/src/View/Backend/Login.php:104-144 | The challenge cookie is not consumed. The same call on the resulting stores ends with the same outcome |
| `LoginProperties.RedirectPrecedence` | appdata/modules/Framelix/src/View/Backend/Login.php:259-268 | A truthy `redirect` parameter wins and is the URL. Then a truthy `backendDefaultView` wins and is the view. Otherwise the target is the application URL. Each case holds exactly under its condition |
| `LoginProperties.LoggedInVisitorIsRedirected` | appdata/modules/Framelix/src/View/Backend/Login.php:270-274 | The page redirects by the default rule exactly when a user is logged in. This is the two-way reading of `OnRequest`'s one-line body |
| `PhpNumeric.ParseNumeric` | appdata/modules/FramelixDemo/src/StorableMeta/Income.php:115 | A string that `is_numeric` accepts has digit-only whole and fraction parts, with at least one digit |
| `PhpNumeric.LeadingWhitespaceIgnored` | appdata/modules/FramelixDemo/src/StorableMeta/Income.php:115 | `is_numeric` accepts leading whitespace: it changes neither the verdict nor the integer that `(int)` gives |
| `PhpNumeric.TrailingWhitespaceIgnored` | appdata/modules/FramelixDemo/src/StorableMeta/Income.php:115 | `is_numeric` accepts trailing whitespace: it changes neither the verdict nor the integer that `(int)` gives |
| `PhpNumeric.FractionDropped` | appdata/modules/FramelixDemo/src/StorableMeta/Income.php:115-116 | `(int)` truncates toward zero: digits, a point and digits form a numeric string whose cast is the value of the digits before the point |
| `PhpNumeric.IntCast` | appdata/modules/FramelixDemo/src/StorableMeta/Income.php:116 | The `(int)` cast of a numeric string keeps the sign of the number: at most 0 for a negative number, at least 0 otherwise |
| `PhpNumeric.IntToStringRoundTrip` | appdata/modules/FramelixDemo/src/StorableMeta/Income.php:115-116 | The decimal text of any integer is numeric, and `(int)` gives the integer back |
| `Php.IntToStringChars` | appdata/modules/FramelixDemo/src/StorableMeta/Income.php:116 | The decimal text of an integer is non-empty and made only of digits, after a minus sign exactly when negative |
| `IncomeMeta.FixedConditionFor` | appdata/modules/FramelixDemo/src/StorableMeta/Income.php:112-118 | A fragment is set only for a truthy value that is `nofixation` or numeric |
| `IncomeMeta.QuickSearchCondition` | appdata/modules/FramelixDemo/src/StorableMeta/Income.php:109-120 | Only `prependFixedCondition` may change. The rest of the parent's condition is kept |
| `IncomeMeta.FalsyFixationKeepsCondition` | appdata/modules/FramelixDemo/src/StorableMeta/Income.php:111-112 | No options, no `fixation` entry, or a falsy value ("" or "0" among them) returns the parent's condition unchanged |
| `IncomeMeta.NoFixationSelectsNull` | appdata/modules/FramelixDemo/src/StorableMeta/Income.php:113-114 | `nofixation` sets the fragment to exactly `fixation IS NULL` |
| `IncomeMeta.OtherFixationValues` | appdata/modules/FramelixDemo/src/StorableMeta/Income.php:115-118 | A numeric value sets `fixation = ` plus the decimal text of its `(int)` cast. A truthy non-numeric value changes nothing |
| `IncomeMeta.FixedConditionShape` | appdata/modules/FramelixDemo/src/StorableMeta/Income.php:112-118 | A fragment that is set is either the null test, or the prefix followed by an integer's text: only digits after at most one leading minus |
| `IncomeMeta.InjectionTextIgnored` | appdata/modules/FramelixDemo/src/StorableMeta/Income.php:115 | An example, not a general proof (`FixedConditionShape` is the general one): the text `1 OR 1=1` is not numeric, so no fragment is set |
| `IncomeMeta.FixationOptions` | appdata/modules/FramelixDemo/src/StorableMeta/Income.php:98-104 | There is one option more than there are fixations |
| `IncomeMeta.FixationOptionsLayout` | appdata/modules/FramelixDemo/src/StorableMeta/Income.php:98-104 | `nofixation` comes first. Then the option of fixation k is at position k+1, in query order, labelled `dateFrom - dateTo` |
| `IncomeMeta.FixationField` | appdata/modules/FramelixDemo/src/StorableMeta/Income.php:94-104 | The loop fills a fresh field named `fixation` with exactly `FixationOptions` of the queried fixations |
| `IncomeMeta.ChosenOptionSelectsFixation` | appdata/modules/FramelixDemo/src/StorableMeta/Income.php:98-116 | Searching with an option of the select gives the matching fragment: `nofixation` gives the null test, and a fixation with a non-zero id gives `fixation = <id>` |
| `IncomeMeta.IdKeySelectsId` | appdata/modules/FramelixDemo/src/StorableMeta/Income.php:112-116 | The decimal key of a non-zero id selects exactly that id |

## Left out

- `$form->validate()` and the captcha (Login.php:41-45): the model starts after validation has passed.
- The form and HTML generation in `getForm`, the client script, and the browser WebAuthn ceremony: UI only.
- Cookie encryption, URL construction and response sending: the model keeps a cookie map, and targets are symbolic (`BrowserUrl`, `TwoFactorView`, `UrlOf`, `ViewUrl`, `ApplicationUrl`).
- The random token value and the cookie that `UserToken::setCookieValue` writes: a token is modelled as its user and its cookie TTL.
- The threshold and time window of `BruteForceProtection`: the block decision is an input. The counter is modelled as +1 on `countUp` and 0 on `reset`.
- `processGet` throwing an exception: the model treats verification as a boolean verdict.
- The `(string)` casts of the email parameters: an array becomes "Array", with PHP's warning. No error handler that turns this warning into an exception is modelled.
- `ByteBuffer::fromHex` given a cookie that is not text, and the stored `credentialPublicKey` given to `processGet`: both are inputs, with no `TypeError` modelled for them.
- Concurrent requests and atomic counter updates: each request is one sequential step on the stores.
- The two-factor page `Login2FA`, backup-code consumption and single-use challenges: none of these are in the modelled code.
- The actual text of the four two-factor cookie names: they are constants of a class that is not part of this model. They are modelled as four distinct names.
- `Income::init` (table and column configuration, cell rendering), the `QuickSearch` container and `addOptionField`: configuration and rendering only.
- `Select::addOption` with a stored object: the key is modelled as the object's decimal id, since the `Select` class is not part of this model.
- `getHtmlString` of a date: it is the `html` parameter.
- PhpNumeric.IntCast: does not model 64-bit integer limits or float rounding of the cast; it truncates the exact decimal value.
- PHP arrays are modelled as string-keyed maps without order; floats are not modelled as values.
- The build script, the console config command, the database test harness and the custom-element runtime: file, process, database and DOM I/O.
