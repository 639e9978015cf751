# Verified model of a full-stack starter's authentication, rate limits and setup tools

This Dafny 4.11 project models the parts of the repository whose behaviour spans many
calls or many lines of text, and proves what they keep. `dafny verify dfyconfig.toml`
checks all of it.

**Auth store.** `AuthStore` holds the tables (users with lockout fields, refresh tokens with
`revoked_at` and `replaced_by_token_id`, one-time tokens, OAuth links, the audit list) and one
clock that never goes back; its functions specify the SQL statements. `AuthRepo.Repo` is the
mutable store whose methods carry them out, `AuthService` holds the service calls and routes as
methods over it, and `AuthCalls` specifies each call as one step and a run as a sequence of
timed calls. `AuthLockout`, `AuthInvariants`, `AuthRotation`, `AuthSessions` and `AuthAccess` prove
properties of whole runs, changes of email included. `AuthLifetimes` says how long what is issued is good for,
`AuthOutcomes` who gets in and which audit entries are left, and `AuthRows` which rows, call by call and in
terms of the rows alone. `AuthInterleaving` splits every call into its
statements and runs those of concurrent calls in any order; `AuthUninterrupted` shows that a call whose
statements run back to back is the atomic one, and `AuthRaces` and `RedemptionRaces` when a race breaks
what the atomic calls keep. The clock only has to be non-decreasing; token secrets are fresh and hashing is injective.

**Browser refresh protocol.** `ApiClient.Client` has the module variable, the two storage entries
and the per-request retry flag; each browser task is one step. `SingleFlight` covers every
interleaving of tasks. `RefreshProtocol` joins the tab to the auth store through messages that
may be delayed, reordered or lost, with tokens in the JSON body and one tab, which may be reloaded.

**Rate limiters.** `ExpiringStore.Redis` maps a key to a count and an optional expiry; whether a
key is still there at its exact expiry instant is left open (`grace`). `FixedWindow` is the
clock-aligned limiter. `TenantWindow` is the limiter whose window opens at the first call, and
`AnchoredWindow` the counting window it is proved to follow. `TenantInterleaving` splits its TTL
read from its pipeline.

**Env files.** `EnvText` has lines, the assignment pattern and `parseEnv`; `KeyedLines` merges
lines that define keys, whatever the lines are; `TemplateMerge` and `TemplateLaws` are
`applyToTemplate` and its laws; `HeaderPass` is about the repeated-header pass. `EnvExpansion`
has the five-round expander (the same in JavaScript and Python) and the unresolved check.
`PieceReplacement` says when replacing in a text is replacing in its pieces, `ReferencePaths` follows
references from value to value, `ExpansionLaws` and `UnresolvedLaws` say what expansion and check amount
to, and `FormedReferences` that the conditions are exact.

**Setup, DNS, OAuth.** `DollarEscaping`, `Placeholders`, `AllowlistLaws`, `SetupFilling` and `SetupLaws` are the
credential filling of `setup:complete`, and `SetupCheck` is the check on a file with these credentials.
`DnsRecords` and `DnsLaws` are the DNS reconciler.
`Base64Url` and `OAuthState` are the OAuth state codec, and `Usernames` the username loop.

**Shared.** `Wrappers`, `Sequences`, `Arithmetic`, `Decimals`, `Text`, `ColonText` and `Limits` hold what
several components use.

## Where a promise does not hold as first said

- Merging a template twice is not always merging once: a header block that the first merge drops may
  have kept the lines of another one apart (`TemplateLaws.MergeTwiceCounterexample` has a template).
  `TemplateLaws.MergeTwiceIff` says exactly when, from the merged lines before the header pass, for
  every template of single lines; `MergeIdempotent` gives a simpler check on the template.
- A merged file does not always parse to the updates: the parser trims lines and the merge does
  not, so an indented definition can win. `TemplateLaws.UpdateIsReadIff` says exactly when it does.
- The unresolved check can report a name that no reference path leads to
  (`UnresolvedLaws.LoneDollarCounterexample`): a value may complete a reference begun before it. It
  misses nothing, whatever the text (`UnresolvedLaws.UnresolvableIsReported`). It is exact for a value
  under all envs of closed values exactly when nothing (`$`, `${` or `${NAME`) is begun where the value
  has a reference (`FormedReferences.SealedIff`), and a value of the env is harmless exactly when also
  nothing is begun at its end (`FormedReferences.ClosedIff`). Escaped hashes are such values, so the
  check is exact for the file that a setup run writes (`SetupCheck.SetupCheckIsExact`).
- A second setup pass is not always silent. `SetupLaws.SecondPassUnchangedIff` has the exact condition:
  the operator's address was set or detected, the lines generated do not count as placeholders, and no
  primary line was generated for a user name with an odd run of `$`. The template's own user name
  `YOUR_USERNAME_HERE` fails the second part, so its credentials are generated again in every pass
  (`SetupLaws.TemplateUserIsRegenerated`).
- Escaping can be undone by collapsing `$$` exactly for texts without adjacent `$`
  (`DollarEscaping.CollapseUndoesEscape`).
- Fixed-window keys do not separate all scopes: two different ones can share a key exactly when one of
  them continues the other after a colon (`FixedWindow.ScopesCollideIff`). No call site passes a scope
  with a colon, so this is a limit of the key format and not a failure of the limiter.
- With statements interleaved a refresh secret is exchanged more than once exactly when two of its
  refreshes finish that both ran their SELECT before its first revocation
  (`AuthRaces.ExchangedTwiceIff`). In the same way a one-time secret can be redeemed twice
  (`RedemptionRaces.RedeemedTwiceIff`), so two resets can each set a password.
- A page reload can send a refresh secret twice: it is harmless exactly when no refresh is pending or
  the stored secret is not one already sent (`RefreshProtocol.ReloadIsHarmlessIff`).
- Accounts do not keep their names: PATCH /users/me changes the email, and from then on the old
  address signs its owner in no more and is free for others (`AuthAccess.OldEmailIsLeft`).
- The DNS run also repoints every A and AAAA record whose name merely contains the domain, or
  starts with `*` (`DnsRecords.Matches`), as the code does.

## Model

| member | source | states |
|---|---|---|
| AuthRepo.Repo.RegisterLoginFailure | api/auth/repo.py:182-207 | counts one more failure and sets the lock only when the new count reaches max(1, max_failures), max(1, lock_minutes) from now |
| AuthRepo.Repo.ResetLoginFailures | api/auth/repo.py:210-223 | sets the counter to 0 and removes the lock, of that user only |
| AuthRepo.Repo.CreateRefreshToken | api/auth/repo.py:255-277 | appends one unrevoked row and changes no other |
| AuthRepo.Repo.TouchRefreshToken | api/auth/repo.py:309-320 | stamps last use on that row only |
| AuthRepo.Repo.RevokeRefreshToken | api/auth/repo.py:367-378 | overwrites revocation time and link, also on a row already revoked |
| AuthRepo.Repo.RevokeAllRefreshTokens | api/auth/repo.py:353-392 | revokes the user's unrevoked rows but the kept one, and leaves all others |
| AuthRepo.Repo.UpdateUserEmail | api/auth/repo.py:423-445 | refuses an email another account has, otherwise sets it and clears the verified mark, on that account only |
| AuthRepo.Repo.CreateOneTimeToken | api/auth/repo.py:448-471 | appends one unconsumed row with its expiry |
| AuthRepo.Repo.ConsumeOneTimeToken | api/auth/repo.py:499-510 | stamps the row unless it is stamped already |
| AuthService.RegisterUser | api/auth/service.py:185-220 | leaves the store and reply of the atomic registration step |
| AuthService.LoginUser | api/auth/service.py:223-316 | same for login, with its checks in the code's order |
| AuthService.RefreshTokens | api/auth/service.py:330-384 | same for refresh: reuse, expiry and owner checks, then the exchange |
| AuthService.Logout | api/routes/auth.py:403-438 | same for logout: the row is revoked with no link, without an error on any path |
| AuthService.RevokeOtherSessions | api/routes/auth.py:613-663 | same for revoke-others: only the owner of the presented token may call it |
| AuthService.OAuthLogin | api/routes/auth.py:667-793 | same for the token-issuing part of the OAuth route |
| AuthService.VerifyEmail | api/auth/service.py:79-107 | same for email verification |
| AuthService.ResetPassword | api/auth/service.py:151-182 | same for password reset, with all sessions revoked |
| AuthService.ChangeEmail | api/routes/users.py:59-109 | same for the email change of PATCH /users/me: taken check, update, re-issued verification token, audit entry |
| AuthLockout.LockFieldsStep | api/auth/service.py:250-291 | what a call that is not a password login of the user does to that user's counter and lock: kept, or advanced by a failed check |
| AuthLockout.PasswordLoginClears | api/auth/service.py:292-316 | a password login leaves its user's counter at 0 and no lock, and every other user's as they were |
| AuthLockout.CounterFollows | api/auth/service.py:250-291 | over every run without a login of the user the counter grows by exactly the failed checks, and the lock is what they leave |
| AuthLockout.LoginStartsAfresh | api/auth/service.py:250-316 | after a password login and until the next, the counter is the number of failed checks since, fewer than the threshold leave no lock, that many or more leave one from the last, and the free ones are counted anew |
| AuthLockout.FailuresAreSpaced | api/auth/repo.py:182-207 | in any run without a login of the user, failed checks beyond the first free ones lie at least a lock time apart |
| AuthLockout.LockoutRateBound | api/auth/service.py:250-291 | in such a run at most M + floor(T / L) failed checks fall in any span T, from any starting counter and with any other calls between |
| AuthLockout.LockoutBoundIsReached | api/auth/repo.py:182-207 | the bound is tight: M + q guesses fit in a span of q lock times, for every q |
| AuthInvariants.StepSafe | api/auth/service.py:330-384 | every call keeps the store's shape: unique digests, and each link names a later token of the same user |
| AuthInvariants.RunSafe | api/auth/repo.py:367-378 | over every run a revoked token stays revoked, a consumed timestamp never changes, and links stay well formed |
| AuthRotation.Chain | api/auth/service.py:366-374 | following links visits strictly later tokens of one user, so chains are finite and acyclic |
| AuthRotation.SpentIsRefused | api/auth/service.py:338-343 | a revoked token is refused with the reuse audit and nothing else changes |
| AuthRotation.ExchangedAtMostOnce | api/auth/service.py:330-384 | over every run each secret is exchanged at most once, and never after being spent |
| AuthRotation.RefreshConserves | api/auth/service.py:364-384 | a refresh keeps every user's number of unrevoked tokens |
| AuthRotation.LiveTokensBoundedBySignIns | api/auth/service.py:292-316 | over every run a user's unrevoked tokens never outnumber that user's sign-ins |
| AuthRotation.RedeemsExactly | api/auth/service.py:79-107 | a one-time token is accepted if and only if its row has the matching type, a user, no consumed stamp and an expiry strictly ahead |
| AuthRotation.RedeemedProperly | api/auth/service.py:151-182 | a success stamps exactly that row with the time of the call |
| AuthRotation.RedeemedAtMostOnce | api/auth/repo.py:499-510 | over every run each one-time secret yields at most one success |
| AuthSessions.ListActiveSessions | api/auth/repo.py:323-350 | lists exactly the user's live tokens, by last use and then creation, newest first |
| AuthSessions.ListingIs | api/auth/repo.py:323-350 | a listing has each of the user's unrevoked and unexpired rows once, the last used first, and of those used together the last created |
| AuthSessions.ListingAgreesWithRefresh | api/auth/service.py:333-357 | a user's token is listed if and only if refresh would accept it at that instant |
| AuthSessions.OthersListingsNeverChange | api/auth/repo.py:381-392 | no call of one user changes another user's listing |
| AuthSessions.ResetEmptiesTheListing | api/auth/service.py:171-182 | after a password reset the user's listing is empty |
| AuthSessions.RevokeOthersKeepsAtMostOne | api/routes/auth.py:645-649 | after revoke-others at most the presented token is listed |
| AuthAccess.AccountsOverRuns | api/auth/repo.py:423-445 | over every run emails stay unique, no account is lost or deactivated, only the owner's own email change alters its email, and only a reset its password |
| AuthAccess.LoginExactly | api/auth/service.py:223-316 | a login signs a user in if and only if email and password are that user's and the account is active and not locked |
| AuthAccess.SetPasswordDecides | api/auth/service.py:151-182 | after a successful registration or reset, and any run without a further reset, a login signs the user in if and only if it has the email the account has by then and the password set, while active and not locked |
| AuthAccess.OldEmailIsLeft | api/auth/repo.py:423-445 | after a change of email the old address is free, and no login with it signs the owner in until the email is changed again |
| AuthAccess.EndedSessionsStayEnded | api/routes/auth.py:403-438 | once logout, a password reset or revoke-others has ended a session, its token is refused after every later run |
| AuthLifetimes.NewTokenLasts | api/auth/repo.py:255-277 | the token answered to a sign-in or refresh is accepted by a refresh if and only if less than the configured days have passed, by the same user, and the expiry told is its expiry |
| AuthLifetimes.IssuedTokenLasts | api/auth/repo.py:448-471 | an issued verification or reset token is redeemed for its account if and only if less than its minutes, at least one, have passed |
| AuthLifetimes.NothingIssued | api/auth/service.py:37-148 | for an unknown email, a verified one, or an inactive account nothing is issued and the answer is the same |
| AuthLifetimes.MarkFollows | api/auth/service.py:79-107 | over every call an email becomes verified exactly by redeeming its token or in a new account whose provider verified it, and unverified exactly by changing it |
| AuthLifetimes.OnlyOwnersRevokeOthers | api/routes/auth.py:613-663 | revoke-others is accepted if and only if the presented token is one of the caller's own, and else changes nothing |
| AuthOutcomes.RegisterExactly | api/auth/service.py:185-220 | a registration succeeds if and only if the password is strong enough and no account has the email, and adds exactly that account |
| AuthOutcomes.ChangeEmailExactly | api/routes/users.py:59-109 | an email change succeeds if and only if the account exists, the email is not empty and no other account has it, and changes just that account |
| AuthOutcomes.ChangeEmailIssues | api/routes/users.py:59-109 | the token it sends verifies the new email for 1440 minutes |
| AuthOutcomes.OAuthExactly | api/routes/auth.py:667-793 | a provider signs in exactly the linked account, else the one with its email when either side has verified that, else a new one, while active |
| AuthOutcomes.OAuthLeaves | api/auth/repo.py:513-552 | a new account has no password and the provider's word on its email, links only grow, and a success links the identity |
| AuthOutcomes.LinkedIdentityDecides | api/routes/auth.py:667-793 | over every run an identity that has signed in signs in the same account for ever, exactly while that is active |
| AuthOutcomes.AuditFollows | api/auth/repo.py:226-252 | every call appends exactly the audit entries of its outcome, in order and with the account they are about |
| AuthOutcomes.SignInRefusals | api/auth/service.py:223-316 | every refused login gets the same answer, whatever the reason |
| AuthRows.SignInAddsRow | api/auth/repo.py:255-277 | a sign-in adds one session row, with its user, digest, times and client, and changes no other; a refused one changes none |
| AuthRows.RefreshReplacesRow | api/auth/service.py:364-384 | a refresh stamps the presented row's use, client, revocation and link to the row it adds, and changes no other |
| AuthRows.SweepingCalls | api/auth/repo.py:353-392 | row by row, what revoke-others and reset leave: the user's unrevoked rows are revoked now, links and earlier revocations stay |
| AuthRows.IssueAddsRow | api/auth/repo.py:448-471 | issuing adds one row of its kind for an unverified or an active account, and none else |
| AuthRows.RedeemStampsRow | api/auth/repo.py:499-510 | redeeming stamps exactly the redeemed row with the time of the call |
| AuthRows.ResetSetsPasswordOnly | api/auth/repo.py:409-420 | a reset changes nothing of its account but the password |
| AuthInterleaving.EveryScheduleKeepsShape | api/auth/repo.py:255-277 | with the statements of any calls interleaved in any order, links stay well formed, revocation and consumption stay, and emails stay unique |
| AuthUninterrupted.UninterruptedIsTheCall | api/auth/service.py:185-384 | the statements of any call run back to back, at most eight, are the atomic call |
| AuthRaces.ExchangedIff | api/auth/service.py:330-384 | under every schedule a refresh is answered with tokens if and only if it finishes and its SELECT found the row live |
| AuthRaces.NoneAfterRevocation | api/auth/service.py:338-343 | no SELECT finds a row live after its first revocation |
| AuthRaces.ExchangedTwiceIff | api/auth/service.py:330-384 | under every schedule a secret is exchanged more than once if and only if two of its refreshes finish whose SELECTs found its row live |
| AuthRaces.TwoRefreshesCanRace | api/auth/repo.py:280-306 | from every state that accepts a secret, two requests that both read its row first are both answered with new tokens |
| RedemptionRaces.RedeemedIff | api/auth/service.py:79-182 | under every schedule a redemption succeeds if and only if it finishes and its SELECT found an unconsumed, unexpired row |
| RedemptionRaces.NoneAfterConsumption | api/auth/repo.py:499-510 | no SELECT is accepted after the row is first consumed |
| RedemptionRaces.RedeemedTwiceIff | api/auth/service.py:79-182 | under every schedule a one-time secret is redeemed more than once if and only if two of its redemptions finish whose SELECTs were accepted |
| RedemptionRaces.TwoResetsCanRace | api/auth/service.py:151-182 | from every state that accepts a secret, two resets that both read its row first both succeed |
| AuthRaces.LogoutErasesTheLink | api/routes/auth.py:423 | after any run, once a secret has been exchanged, logging out with it erases the link that the exchange set |
| ApiClient.Client.StartRequest | react-app/src/lib/apiClient.js:145-160 | a request goes out with the access token stored at that moment as its bearer |
| ApiClient.Client.OnUnauthorized | react-app/src/lib/apiClient.js:162-193 | the 401 branches in order: failed retry, auth endpoint, then joining or starting the shared refresh |
| ApiClient.Client.OnRefreshSettled | react-app/src/lib/apiClient.js:101-135 | the shared refresh settles: storage is updated and every waiter resumes, or storage is cleared and every waiter fails |
| SingleFlight.SingleFlightAndBoundedWork | react-app/src/lib/apiClient.js:101-135 | in every interleaving requests wait only while one refresh is pending, auth-endpoint requests are never retried, and n requests cause at most 2n sends and n refreshes |
| SingleFlight.SettlementIsAllOrNothing | react-app/src/lib/apiClient.js:162-193 | all waiters are resent with the same new bearer, or all fail |
| SingleFlight.EverySendIsRight | react-app/src/lib/apiClient.js:145-160 | over every play each task sends just what it should: a first send carries the access token of the last sign-in or refresh, or none once the storage is cleared; a refresh the stored secret; a resend the new token |
| SingleFlight.RetriedIff | react-app/src/lib/apiClient.js:90-99 | the first 401 of a request is final if and only if its URL holds one of the five authentication paths |
| RefreshProtocol.BearersWereIssued | react-app/src/lib/apiClient.js:145-193 | over every run, legal or not, each bearer sent is an access token that the server issued in that run |
| RefreshProtocol.RefreshComesThrough | react-app/src/lib/apiClient.js:101-193 | when the server accepts the pending refresh and its answer arrives, the tab holds the new pair and every waiting request is sent again |
| RefreshProtocol.NoSecretIsReused | react-app/src/lib/apiClient.js:106-128 | over every run of sign-ins, requests, refreshes, delays, losses and safe reloads no refresh secret is sent in two refresh requests, and the server never takes its reuse branch |
| RefreshProtocol.UnsafeReloadResends | react-app/src/lib/apiClient.js:101-107 | after any other reload the first request that meets a 401 sends the stored secret again |
| RefreshProtocol.ReloadIsHarmlessIff | react-app/src/lib/apiClient.js:101-107 | in every reached state, no continuation after a reload sends a secret twice if and only if the reload is safe: no refresh pending, no stored secret, or one that was never sent |
| ExpiringStore.Redis.Incr | api/security/rate_limit.py:78-104 | INCR restarts an absent or expired key and keeps a live one's expiry |
| ExpiringStore.ExpiryEnds | api/security/rate_limit.py:78-104 | a key given an expiry is there until then and not after, and is gone at once for a delay that is not positive |
| FixedWindow.IncrAndCheck | api/security/rate_limit.py:78-104 | the call as its specification counts it, with count, verdict and retry delay |
| FixedWindow.KeysAreDistinct | api/redis_client.py:24-25 | keys of colon-free scopes are equal only for equal scope, identifier and bucket |
| FixedWindow.ScopesCollideIff | api/redis_client.py:24-25 | two different scopes share a key for some identifiers and windows if and only if one continues the other after a colon |
| FixedWindow.CountIsExact | api/security/rate_limit.py:78-104 | the count returned is the number of calls so far in that scope, identifier and window, however calls interleave and although each call re-sets the expiry |
| FixedWindow.WindowAdmitsExactly | api/security/rate_limit.py:78-104 | a window admits exactly the smaller of its calls and the maximum |
| FixedWindow.IntervalBound | api/security/rate_limit.py:78-104 | any half-open interval of T > 0 whole milliseconds admits at most max * (ceil((T - 1) / W) + 1) calls |
| FixedWindow.IntervalBoundIsReached | api/security/rate_limit.py:78-104 | for every T some run of calls admits exactly that many |
| FixedWindow.RetryAfterReachesNextWindow | api/security/rate_limit.py:96-104 | the retry delay is the least whole number of seconds that reaches the next window (section 10.2.3 of RFC 9110) |
| FixedWindow.AnswerTells | api/security/rate_limit.py:78-104 | over every run a call is over exactly when its count passes the maximum, and is then told the least whole seconds, at least one, after which the next window has begun |
| AnchoredWindow.IntervalBound | api/security/tenant_limits.py:46-83 | the counting window alone: an interval no longer than a window's life admits at most twice the cap |
| TenantWindow.IncrAndCheck | api/security/tenant_limits.py:46-83 | the call as one step of its specification; a blank tenant is told that it is over, with delay 1, and the store is left alone |
| TenantWindow.KeysAreDistinct | api/security/tenant_limits.py:56-60 | keys of colon-free scopes separate scope, window length and tenant |
| TenantWindow.StoreFollowsHistory | api/security/tenant_limits.py:61-75 | after every run the stored entry is the window computed from the pair's call times alone, so every live key has an expiry |
| TenantWindow.WindowFromAnchors | api/security/tenant_limits.py:61-75 | that window opens at the last anchor, its count is the calls since then, and anchors are at least W apart |
| TenantWindow.TenantIntervalBound | api/security/tenant_limits.py:46-83 | any half-open interval of length W admits at most 2 * max calls of a tenant, the blank one included |
| TenantWindow.BlankIsNeverAdmitted | api/security/tenant_limits.py:53-56 | over every run no call with a blank tenant is admitted |
| TenantWindow.BlankIsOver | api/security/tenant_limits.py:53-56 | over every run such a call is told that it is over, with a delay of at least one, and leaves the store as it was |
| TenantWindow.RetryAfterOutlastsWindow | api/security/tenant_limits.py:77-83 | over every run a refused call that waits its delay finds its window over, the delay being the least whole number of seconds for that while the window has not yet expired |
| TenantWindow.LimitersShareNoKey | api/security/tenant_limits.py:56-60 | the tenant limiter and the fixed-window limiter never share a key |
| TenantInterleaving.UninterruptedIsTheCall | api/security/tenant_limits.py:61-75 | TTL read and pipeline back to back are the single step |
| TenantInterleaving.PipelineLeavesLasting | api/security/tenant_limits.py:63-70 | a key lacks an expiry after a move exactly if its pipeline read one and found the key expired, or it lacked one before and got none |
| TenantInterleaving.ExpiryCanBeLost | api/security/tenant_limits.py:61-75 | a key that expires between TTL read and pipeline is left without an expiry |
| TenantInterleaving.NextCallRestoresExpiry | api/security/tenant_limits.py:61-75 | from any state without expiry, the next call that starts afterwards gives the key one, whatever runs between |
| EnvText.ParseEnv | scripts/lib/envFile.js:23-37 | reads the definitions of the lines, the last one winning |
| EnvText.SplitCrLf | scripts/lib/envFile.js:23-37 | lines joined by CRLF split into the same lines |
| EnvText.MatchIff | scripts/lib/envFile.js:27-34 | a line is an assignment if and only if it is a name, '=' and a rest of one line |
| EnvText.NamesAre | scripts/lib/envFile.js:27-39 | a name has letters, digits and '_', and does not start with a digit |
| EnvText.ParseIndented | scripts/lib/envFile.js:27-34 | an indented assignment parses to its key and its value without trailing space |
| EnvText.ParseRendered | scripts/lib/envFile.js:27-34 | a written assignment parses to its key and its value without trailing space |
| EnvText.FlushLeftAgrees | scripts/lib/envFile.js:27-34 | on flush-left single lines the parser and the untrimmed pattern see the same definitions |
| KeyedLines.RewriteDefines | scripts/lib/envFile.js:139-156 | rewriting leaves one definition of each key: the written one, else the first |
| TemplateMerge.RemoveDuplicateTemplateHeader | scripts/lib/envFile.js:177-218 | the loop keeps what the recursive scan keeps |
| TemplateMerge.SortKeys | scripts/lib/envFile.js:158-172 | lists each missing key once, in order |
| TemplateMerge.ApplyToTemplate | scripts/lib/envFile.js:133-175 | the merged text for the sorted order of missing keys |
| TemplateLaws.AppendixIs | scripts/lib/envFile.js:158-172 | missing keys are appended behind a blank line, unless there is one, and the heading |
| TemplateLaws.LexLeqIs | scripts/lib/envFile.js:158-172 | their order is by the first differing character, a prefix first |
| TemplateLaws.SeparatedHeaders | scripts/lib/envFile.js:177-218 | a second header one line behind the first stays if and only if that line is an assignment |
| TemplateLaws.MergeLaw | scripts/lib/envFile.js:133-218 | parsing a merged clean template gives each update without trailing space, else the template's first definition, and no other keys, in whatever order missing keys were appended |
| TemplateLaws.MergeReads | scripts/lib/envFile.js:23-156 | for every template of single lines, indented ones included, and every key: the merged file parses to an indented leftover behind a flush-left line, else the update, else the first flush-left definition, else what the template parses to |
| TemplateLaws.UpdateIsReadIff | scripts/lib/envFile.js:23-156 | so an update is what the merged file parses to if and only if no indented line after a flush-left one defines its key otherwise |
| TemplateLaws.MergeComposes | scripts/lib/envFile.js:133-218 | merging U1 then U2 parses like merging U1 overridden by U2 |
| TemplateLaws.SecondMergeOnlyRescansHeaders | scripts/lib/envFile.js:133-218 | for every template of single lines a second merge only runs the header pass again |
| TemplateLaws.MergeIdempotent | scripts/lib/envFile.js:133-218 | merging twice gives the identical text when the header's title occurs at most once |
| TemplateLaws.MergeTwiceIff | scripts/lib/envFile.js:177-218 | merging twice gives the identical text if and only if no lines of the first merge, before its header pass, rejoin into a header across the blocks that pass drops |
| TemplateLaws.MergeTwiceCounterexample | scripts/lib/envFile.js:133-218 | a template on which a second merge, even without updates, differs from the first |
| HeaderPass.UnchangedIff | scripts/lib/envFile.js:177-218 | the pass changes nothing exactly when no two blocks stand close, overlapping blocks included |
| HeaderPass.SecondPassIff | scripts/lib/envFile.js:177-218 | a second pass changes nothing exactly when the first lets no lines rejoin into a header across the blocks it drops |
| EnvExpansion.ExpandEnvValue | scripts/lib/envFile.js:47-61 | the loop with its early exit computes five rounds |
| EnvExpansion.ExpandUpTo | digital_ocean/scripts/python/orchestrate_deploy.py:35-53 | stopping at the first round that changes nothing loses no later round, for any bound |
| EnvExpansion.ExpandEnvContent | scripts/lib/envFile.js:68-83 | each assignment line is expanded in place, all others are kept |
| EnvExpansion.Exec | scripts/lib/envFile.js:89-108 | one match step returns the leftmost reference and what is left of the value |
| EnvExpansion.FindUnresolvedPlaceholders | scripts/lib/envFile.js:89-108 | reports key, value and all names of every assignment that still refers to something |
| UnresolvedLaws.ReportIs | scripts/lib/envFile.js:89-108 | an assignment is reported with its key, its value and the names it refers to, if there are any |
| PieceReplacement.PiecesConcat | scripts/lib/envFile.js:39 | a text that ends with no reference begun splits off whatever follows it |
| PieceReplacement.RoundIsPieceRound | scripts/lib/envFile.js:47-61 | one round on a text with nothing begun before its references is one round on its pieces, and keeps that condition |
| FormedReferences.SplitsOffIff | scripts/lib/envFile.js:39 | a text splits off every continuation if and only if nothing is begun at its end |
| ExpansionLaws.ExpansionIsFull | scripts/lib/envFile.js:47-61 | five rounds are the full recursive substitution when the value's own names have rank at most four and nothing is begun before references |
| UnresolvedLaws.RankedLeavesUndefined | scripts/lib/envFile.js:47-61 | under the same ranks only undefined names are left |
| UnresolvedLaws.NamesAfterRounds | scripts/lib/envFile.js:47-61 | the names left after n rounds are exactly the ends of reference paths of n + 1 names, and the undefined ends of shorter ones |
| UnresolvedLaws.UnresolvableIsReported | scripts/lib/envFile.js:68-108 | whatever the text, a value from which a reference path meets an undefined name or has more than five names is reported |
| UnresolvedLaws.ReportedIff | scripts/lib/envFile.js:68-108 | a line with nothing begun before its references, nor in the values they lead to, is reported if and only if there is such a path |
| UnresolvedLaws.CheckIsExact | scripts/complete-setup.js:389-404 | for a whole file of such lines, line by line, and the setup fails exactly when some assignment has such a path |
| SetupCheck.SetupCheckIsExact | scripts/complete-setup.js:298-404 | the same for a file that holds the credential lines just generated or escaped, hashes full of '$' included |
| SetupCheck.CredentialPasses | scripts/complete-setup.js:143-219 | a credential line for a user name without '$' is left alone by the expansion and not reported |
| FormedReferences.SealedIff | scripts/lib/envFile.js:47-108 | the check of a value is exact under every env of closed values if and only if nothing is begun where the value has a reference |
| FormedReferences.ClosedIff | scripts/lib/envFile.js:47-108 | a value in the env leaves the check of every such text exact if and only if nothing is begun where the value has a reference, nor at its end |
| UnresolvedLaws.CyclesAreReported | scripts/lib/envFile.js:68-108 | whatever the text, every value that reaches a cycle is reported |
| UnresolvedLaws.LoneDollarCounterexample | scripts/lib/envFile.js:47-61 | a value that is reported although no path leads to an undefined name |
| DollarEscaping.EscapeDollarsPreserveDoubles | scripts/complete-setup.js:62-81 | the index loop computes the escaped text |
| DollarEscaping.EscapeEvensRuns | scripts/complete-setup.js:62-81 | every maximal '$' run becomes even, a text is kept exactly if its runs are even, and escaping twice is escaping once |
| DollarEscaping.EscapeChangesOnlyRuns | scripts/complete-setup.js:62-81 | a run grows by its parity and the text around it is escaped on its own |
| DollarEscaping.CollapseUndoesEscape | scripts/complete-setup.js:62-81 | collapsing '$$' gives the text back if and only if it has no adjacent '$' |
| Placeholders.EscapeStaysFilled | scripts/lib/placeholders.js:47-65 | escaping a filled-in value never makes it a placeholder |
| Placeholders.UnfilledIff | scripts/lib/placeholders.js:3-67 | an ordinary value counts as not filled in if and only if it is blank, looks like one of the template's values in any letter case, or is a reference to a template default |
| AllowlistLaws.AllowlistUnfilledIff | scripts/lib/placeholders.js:17-42 | an allowlist counts as filled in if and only if it has no template marker and is the operator's own range, 0.0.0.0/0, or a comma-separated list of address ranges, blanks aside and not all blank |
| Placeholders.CidrIff | scripts/lib/placeholders.js:29-40 | a.b.c.d/m is an address range if and only if the octets have at most three digits and are at most 255, and the mask at most two and 32 |
| SetupFilling.SetupRun.EnsureAllowlists | scripts/complete-setup.js:102-141 | map and planned changes after the allowlist step, its failure paths included |
| SetupFilling.SetupRun.EnsureBasicAuth | scripts/complete-setup.js:143-219 | map and planned changes after the basic-auth step |
| SetupLaws.AllowlistsGet | scripts/complete-setup.js:102-141 | key by key, what the allowlist step leaves |
| SetupLaws.ListsReferToOwnAddress | scripts/complete-setup.js:102-141 | each of the three allowlists that is not filled in becomes the operator's own address with mask 32, once that is known |
| SetupLaws.AllowlistsPlan | scripts/complete-setup.js:102-141 | the changes that the allowlist step plans, in order, failures included |
| SetupLaws.PrimaryAccount | scripts/complete-setup.js:143-187 | a generated primary line is for the name and password that the operator asks for, else for admin and a random password, which is stored |
| SetupLaws.FlowerSharesGenerated | scripts/complete-setup.js:188-219 | a Flower line generated with it is for the same user and password |
| SetupLaws.FlowerSharesStored | scripts/complete-setup.js:188-219 | beside a stored primary line and its password it is for that line's user and that password |
| SetupLaws.FlowerAlone | scripts/complete-setup.js:188-219 | without a stored password it is for the operator's name, with the password asked for or a random one |
| SetupLaws.PrimaryPlans | scripts/complete-setup.js:143-187 | the changes planned for the primary line and its password |
| SetupLaws.FlowerPlans | scripts/complete-setup.js:188-219 | the changes planned for the Flower line and its password, after those |
| SetupLaws.BasicAuthKeeps | scripts/complete-setup.js:143-219 | filled credentials stay, but for escaping the primary line; a missing primary line becomes user and escaped hash |
| SetupLaws.FilledValuesAreKept | scripts/complete-setup.js:102-219 | over both steps no filled value is overwritten, but for escaping the primary line |
| SetupLaws.SecondPassUnchangedIff | scripts/complete-setup.js:102-219 | from every state, a second pass with any detection and any generated values changes nothing if and only if the address was set or detected, the generated lines are no placeholders, and no primary line was generated for a user name with an odd '$' run |
| SetupLaws.TemplateUserIsRegenerated | scripts/complete-setup.js:143-219 | with the template's user name the next pass generates the credentials again, whatever the hash |
| DnsRecords.DnsClient.EnsureDnsRecords | digital_ocean/scripts/python/orchestrate_deploy.py:536-773 | the zone after the run is the reconciled one; no change when skipped, dry, or without the IPv6 address it waits for |
| DnsLaws.RunConverges | digital_ocean/scripts/python/orchestrate_deploy.py:588-773 | afterwards the zone has converged: each host has its records and every record looked after has the droplet's address |
| DnsLaws.EveryHostIsServed | digital_ocean/scripts/python/orchestrate_deploy.py:588-773 | for every host, www included, some record of type A under one of its names has the droplet's address, and, when IPv6 is known, for every host but www one of type AAAA |
| DnsLaws.CreatedAreMissing | digital_ocean/scripts/python/orchestrate_deploy.py:717-773 | every record created is the A record of a host that had none, or the AAAA record of one other than www |
| DnsLaws.RecordAfterRun | digital_ocean/scripts/python/orchestrate_deploy.py:588-716 | record by record, what a run leaves of the zone: an A or AAAA record that is looked after gets the address, and all others stay |
| DnsLaws.RunTouchesNothingElse | digital_ocean/scripts/python/orchestrate_deploy.py:588-773 | other records are unchanged, of the others only the address changes, and records are created only for hosts that had none |
| DnsLaws.RestsIffConverged | digital_ocean/scripts/python/orchestrate_deploy.py:588-773 | a run changes nothing if and only if the zone has converged |
| DnsLaws.SecondRunRests | digital_ocean/scripts/python/orchestrate_deploy.py:588-773 | a second run creates nothing and changes nothing |
| DnsLaws.RunCreatesNamesOnce | digital_ocean/scripts/python/orchestrate_deploy.py:717-773 | with distinct labels no name is created twice for one record type |
| Base64Url.EncodeShape | django/users/api_views.py:75-76 | the stripped padding is the one the length asks for, and the text has neither '=' nor '.' |
| Base64Url.GroupIsNumber | django/users/api_views.py:75-76 | three bytes and their four characters are the same 24 bits, highest first (section 4 of RFC 4648) |
| Base64Url.EncodeGroups | django/users/api_views.py:75-76 | the text is those characters of the URL-safe alphabet, three bytes at a time |
| Base64Url.DecodeEncode | django/users/api_views.py:79-81 | decoding undoes encoding on all byte strings (section 5 of RFC 4648) |
| OAuthState.Session.Start | django/users/api_views.py:310-319 | only allowlisted targets are minted and bound to the session |
| OAuthState.Session.Validate | django/users/api_views.py:118-152 | the checks in the code's order; accepted if and only if the text is signed and its fields are current |
| OAuthState.AcceptedIff | django/users/api_views.py:118-152 | for every text, secret, session and time: accepted if and only if it splits at its first '.' into the encoding of a payload and of that payload's tag under the secret, and the payload has this session's nonce, an issue time at most 600 seconds ago and an allowlisted target |
| OAuthState.WrongTagIsRefused | django/users/api_views.py:118-127 | a payload before any tag but its own is refused |
| OAuthState.TamperedIsRefused | django/users/api_views.py:118-127 | with an ideal tag a changed payload, and a state minted under another secret, are refused in every session at any time |
| OAuthState.AcceptedWasMinted | django/users/api_views.py:104-152 | over every run of many sessions, a text with the tag of a minted state is accepted only if that was the last one minted in the session, under the same secret, at most 600 seconds ago |
| OAuthState.ValidatesIffLast | django/users/api_views.py:104-152 | over every run of many sessions a minted state validates to its target if and only if it is the last one minted in that session and at most 600 seconds old |
| Usernames.CandidateInjective | django/users/api_views.py:275-285 | different suffixes give different names |
| Usernames.ChooseUsername | django/users/api_views.py:275-285 | stops for every finite set of taken names, with a free name, the smallest such suffix, after at most as many increments as there are taken names |

## Left out

- Cookie mode and several tabs: the client-server law is for one tab with tokens in the body.
- SQL races: the at-most-once and counting laws are for atomic calls. With statements interleaved there
  are the shape of the store, exchanges, redemptions and erased links (`AuthInterleaving`, `AuthRaces`,
  `RedemptionRaces`); how many parallel guesses pass the lock check, and tokens that a refresh in flight
  inserts after a reset, are not counted. One statement is one step.
- The audit rows that the routes for verifying, forgetting and resetting add around the service calls,
  and the script that seeds a first user.
- Email normalisation, profile fields (the rest of PATCH /users/me), audit metadata and the row identifiers' random form: rows
  are named by insertion order.
- The password policy's character classes are ASCII only; Python also counts other letters and digits.
- JWT, PBKDF2, SHA-256, HMAC and JSON: ideal functions passed as parameters.
- Suppressed exceptions of the auth calls: store calls succeed.
- Redis's clock is the caller's clock, and in `FixedWindow` the three Redis calls are one step.
- A window length of zero or less, which makes the fixed-window code divide by zero, and the
  parsing of limits from the environment: limits are a parameter.
- The tenant limiter's retry delay is proved to outlast the window; whether the key is still there at its exact
  expiry instant is left open, so a call at that very instant may still be refused.
- JavaScript's `__proto__` key, and its sort order for characters outside the basic plane.
- TemplateLaws.MergeLaw: asks for flush-left assignments and lines without stray CR or Unicode line
  separators, because the parser trims lines and the merge does not; MergeReads drops the first.
- UnresolvedLaws.CheckIsExact: asks for lines and env values without line breaks; a value holding a
  line break would split into further lines.
- The other setup steps (dev defaults, validation, prompting, writing files) are tables and I/O.
- HTTP to the DNS service: listing is one page, TTLs are not kept, retries and failed calls are not modelled.
- Python's `TypeError` for an unset domain or a non-ASCII signature, and payloads that are not JSON objects.
- The sanitising of a user name before the suffix loop.
- React components, e-mail, Celery, metrics, log redaction, migrations and deployment plumbing.
