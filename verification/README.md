# What the server, its OAuth provider and its release tools guarantee

A Dafny model of five parts of the repository and proofs of what they promise, for every input, every
interleaving and every run. `dafny verify dfyconfig.toml` checks all of it.

| part | source | modules |
|---|---|---|
| OAuth grants and tokens over a key-value store | `repos/workers-oauth-provider/src` | `OAuthTypes`, `EmaClaims`, `GrantLifecycle`, `LifecycleInvariants`, `LifecycleTheorems`, `LifecycleEffects`, `CodeReplay`, `TokenText`, `RefreshRetry`, `EmaReplay`, `TokenEndpoint`, `Keys`, `KvNamespace`, `KvRefinement`, `KvRuns`, `Purge` |
| tiered release and shard balancing | `repos/workers-sdk/tools` | `Tiers`, `WorkerPool`, `ReleaseLog`, `Release`, `Sharding` |
| the package store and its optimistic publish | `packages/server/src/packages`, `packages/server/src/store/PackageState.ts` | `Manifest`, `PackageEvents`, `PackageEffects`, `PublishTheorems`, `PackageTools` |
| placeholders, the gateway, redaction | `packages/server/src/gateway`, `packages/server/src/vault` | `Placeholder`, `Gateway`, `Redact` |
| bounded stores | `packages/server/src/store` | `StorageData`, `RunRecords` |

`Wrappers`, `Texts` (splitting and joining) and `Lexicographic` (the order of keys and names) serve all of them.

## How it is modelled

Code that changes state step by step is a class or a method with loops: the token endpoint, the KV
namespace and its paged loops, the release, the worker pool, the package tools, the gateway, the stores.
Each method is proved against a function of the old state, and the theorems are about runs of those
functions. `LifecycleEffects` and `PackageEffects` say in terms of the stored records what each of those
functions leaves behind and why it refuses.

- **Grants and tokens.** A run is any list of handler steps, each with any callback answer, any time
  passing inside it and a failing write, mixed with revocations, losses of records and clock ticks.
  `GrantLifecycle` says what a step does, `TokenEndpoint.Provider` does it field by field, and
  `LifecycleInvariants` and `LifecycleTheorems` are about all runs. Hashing is injective, a wrapped key
  opens only under the token that wrapped it, a ciphertext only under its key, and a random string is one
  that was never used. Props carry the identity that the source compares with `!==`. A handler is given a
  token as missing, malformed or parsed; `TokenText` is how a text becomes one of these.
- **Records that expire.** KV serves a record through the second of its expiration. A run may lose any
  record at any time; `CodeReplay` calls a run orderly when records leave only after their expiration, and
  proves which theorem needs that.
- **Keys.** `KvNamespace` works on the textual keys with cursors that resume after the last key returned.
  `KvRefinement` connects it to the state machine, where keys are structured; the connection holds exactly
  when no stored user id continues another user id and grant id across a colon, and for an authorization
  when what its listing collects reaches no record that is not replaced. `KvRuns` lifts every handler and
  whole runs to textual keys.
- **Release.** The registry, the network and `pnpm publish` may answer anything consistent with two rules:
  a version that reads back is there, and a publish that reports success landed. A version that is there
  may fail to read back, and a publish that reports failure may have landed. A version that a packument
  lists is `Read`; one whose tarball was fetched as well is `Resolved`. A history spans any number of runs and
  holds every answer that the surroundings gave; what a run may do, and how it may end, depends on what that
  run has seen. An answer is out of date when it does not list what the registry holds.
- **Packages.** Between two calls of the store any list of guarded operations of other calls may run.
  Every tool is proved to contribute guarded operations only, so any number of concurrent calls is a run
  of `PackageEvents`. The compiler and the isolate are two arbitrary functions. As bookkeeping the store
  remembers the working state of every revision and every state of its table of packages.

## Where code and documentation differ

- The comment on `refreshTokenTTL` in `TokenExchangeCallbackResult` (oauth-provider.ts:186-191) says that
  it is ignored during a refresh; the handler refuses such a callback result with `invalid_request`
  (oauth-provider.ts:2829-2834). The model follows the handler.
- `checkValueSize` (StorageData.ts:45-52) speaks of bytes and compares the number of UTF-16 code units.
  The model follows the comparison.
- Packages.ts:186-188 says that the store never holds a manifest that could not publish. That is proved.
  The same is not true of files: a file edit may add a second index file, and
  `FilesPassUnlessTwoIndexes` shows that this is the only way.
- The list above `validateIdJagClaims` (validators.ts:183) says that `exp` is in the future; the code
  accepts an assertion for the skew after `exp` as well (validators.ts:248-252). The model follows the code.

Promises of the code that fail for some inputs, each with such an input and, unless it says otherwise, the
exact condition:

- A code presented a second time ends everything issued under its grant (RFC 6749, section 10.5), but neither
  a code exchange nor a token exchange clamps its access token to the grant (oauth-provider.ts:2617-2668,
  3034-3135; only a refresh does). If a token outlives the grant's record, a replay after that finds no grant
  and revokes nothing. `TokenSurvivesReplay` and `SlowExchangeSurvivesReplay` are such inputs;
  `TokenWithinGrantExactlyWhen` and `TokenExchangeCovers` say when a token fits, and
  `ReplayCanFailExactlyWhen` that over runs this is exactly what it takes.
- A code exchange that fails after its grant was saved, by a lifetime below 60 seconds from the callback or a
  failing write of the token, leaves a used code and no token, and the client's retry is taken for a replay
  (`RetriableExactlyWhen`).
- `completeAuthorization` accepts a user id with a colon, and the code it hands out is then refused for its
  format (oauth-provider.ts:2421-2425): `ColonUserNeverGetsTokens`, `AuthorizationRoundTrip`.
- The clamp of an exchanged token to its subject token's remaining life uses a clock reading from before the
  callback, so the new token can outlive its subject token: `SlowExchangeExtends`, `ExchangeNarrows`.
- The wait between tiers is for tarballs, since a version without one breaks installs
  (publish-packages.ts:378-379), but a re-run only asks whether a version is listed (line 313) and skips
  the wait for what an interrupted run published: `ReRunSkipsTheWait`, `ResolvedExactlyWhen`.
- Redaction leaves a value in sight when a marker contains it and no later replacement breaks it up, or,
  with brackets in the value, at an edge of a marker: `BracketsLeak`. `SingleCredentialExact` is exact for one
  credential of any kind, `RedactionCompleteExactlyWhen` for any number of values without brackets. For several
  values of which some have brackets the condition of `RedactionIsComplete` is sufficient only.
- A credential may be saved under the name `__proto__`, and a plain object does not keep a text under that
  name (OwnerVault.ts:121-138, 157-167): its placeholder is sent as it is and its value is not redacted:
  `ProtoFallsBack`, `NothingFallsBackExactlyWhen`.
- A purge, and an authorization that replaces grants, reach records of user ids that continue another user id
  across a colon: `ColonsCollide`, `TokensOfLiveGrantsStay`, `AuthorizationRefines`.

## Model

| member | source | states |
|---|---|---|
| TokenEndpoint.Provider.HandleAuthorizationCodeGrant | repos/workers-oauth-provider/src/oauth-provider.ts:2408-2689 | changes the namespace and answers exactly as the state machine's code exchange: all checks in order, replay, callback and re-keying, consumption of the code, mint |
| TokenEndpoint.Provider.CheckAuthorizationCode | repos/workers-oauth-provider/src/oauth-provider.ts:2413-2527 | finds the first failing check of a code request in the source's order, or a replay, or the grant to go on with |
| TokenEndpoint.Provider.ConsumeAndMint | repos/workers-oauth-provider/src/oauth-provider.ts:2617-2668 | consumes the code in the grant, stores it with the clamped expiration, then creates the access token, with a failing write at either place |
| TokenEndpoint.Provider.HandleRefreshTokenGrant | repos/workers-oauth-provider/src/oauth-provider.ts:2699-2981 | changes the namespace and answers exactly as the state machine's refresh |
| TokenEndpoint.Provider.CheckRefreshToken | repos/workers-oauth-provider/src/oauth-provider.ts:2700-2752 | accepts the current or the previous token of the grant, of its own client, while the grant has a storable rest of life |
| TokenEndpoint.Provider.RotateAndMint | repos/workers-oauth-provider/src/oauth-provider.ts:2869-2959 | re-checks expiry after the callback, rotates presented and new token, saves the grant, then stores the access token; a failed token write leaves the rotation in place |
| TokenEndpoint.Provider.ReencryptOnCode | repos/workers-oauth-provider/src/oauth-provider.ts:2545-2615 | a callback always re-encrypts the grant's props; token props get a key of their own when they differ |
| TokenEndpoint.Provider.ReencryptOnRefresh | repos/workers-oauth-provider/src/oauth-provider.ts:2778-2869 | the grant's props are re-encrypted only when the callback replaced them |
| TokenEndpoint.Provider.ExchangeToken | repos/workers-oauth-provider/src/oauth-provider.ts:2995-3165 | changes the namespace and answers exactly as the state machine's token exchange |
| TokenEndpoint.Provider.RunEmaPipeline | repos/workers-oauth-provider/src/oauth-provider.ts:3312-3432 | claim checks, replay marker, scope, mapper, lifetime and mint, in that order, each with its own clock reading |
| TokenEndpoint.Provider.IssueEmaAccessToken | repos/workers-oauth-provider/src/oauth-provider.ts:3476-3530 | the grant and the token minted from an assertion |
| TokenEndpoint.Provider.MarkUsed | repos/workers-oauth-provider/src/ema/jti.ts:20-36 | reads the replay marker, and writes it with its lifetime only when it was absent |
| TokenEndpoint.Provider.CreateAccessToken | repos/workers-oauth-provider/src/oauth-provider.ts:4190-4245 | refuses a lifetime below the KV minimum before anything is written, and stores the token otherwise |
| TokenEndpoint.Provider.SaveGrantWithTTL | repos/workers-oauth-provider/src/oauth-provider.ts:4043-4061 | stores a grant with its expiration, never closer than KV accepts |
| TokenEndpoint.Provider.CompleteAuthorization | repos/workers-oauth-provider/src/oauth-provider.ts:5248-5471 | stores the new grant (and the token of an implicit flow), then revokes what was collected before |
| TokenEndpoint.Provider.RevokeToken | repos/workers-oauth-provider/src/oauth-provider.ts:3554-3584 | RFC 7009 revocation: an owned access token goes alone, an owned refresh token takes its grant along, in hinted order |
| TokenEndpoint.Provider.Perform | repos/workers-oauth-provider/src/oauth-provider.ts:2320-2358 | every sequence of handler calls, losses and clock ticks is a run of the state machine; from a valid provider with fresh random strings it leads to a valid one, never fails to open a key or ciphertext, issues only tokens that open the props they are for, and gives a spent code or a used assertion nothing |
| LifecycleTheorems.AuthorizationRoundTrip | repos/workers-oauth-provider/src/oauth-provider.ts:2421-2689 | the text that an authorization hands out gets tokens if and only if the user id has no colon, client, verifier, redirect URI and resource are right, the callback does not throw and leaves a storable lifetime, and no write fails; with a colon in the user id the answer is invalid_grant |
| LifecycleTheorems.AuthorizationDelivers | repos/workers-oauth-provider/src/oauth-provider.ts:5416-5470 | those tokens: the access token opens the authorized props, or what the callback put in their place, within the authorized scope; there is a refresh token exactly unless its lifetime is 0, and it opens the grant's props; both sets of props by the callback's fields |
| LifecycleTheorems.ColonUserNeverGetsTokens | repos/workers-oauth-provider/src/oauth-provider.ts:2421-2425 | for a user id with a colon the authorization succeeds and the code it hands out is refused |
| TokenText.ReadsBackExactlyWhen | repos/workers-oauth-provider/src/oauth-provider.ts:2421-2427 | a token text whose ids are drawn without colons is read back as what it stands for if and only if its user id has no colon |
| TokenText.ReadingIsExact | repos/workers-oauth-provider/src/oauth-provider.ts:2706-2713 | a text that is read stands for exactly what is read |
| TokenText.ReadPartsAreColonFree | repos/workers-oauth-provider/src/oauth-provider.ts:2421-2427 | no part of a text that is read has a colon |
| LifecycleTheorems.CodeExchangesExactlyWhen | repos/workers-oauth-provider/src/oauth-provider.ts:2413-2676 | for every callback and every fault: a code gets tokens if and only if it is the grant's unused code, presented by its client with the right verifier and redirect URI, for a granted resource, the callback does not throw and leaves a storable lifetime, and no write fails |
| LifecycleTheorems.RetriableExactlyWhen | repos/workers-oauth-provider/src/oauth-provider.ts:2617-2676 | a code exchange that fails after its checks can be retried if and only if it failed before the grant was saved; otherwise the code is used up and the retry, a replay, ends the grant |
| LifecycleTheorems.SubjectTokenExchangesExactlyWhen | repos/workers-oauth-provider/src/oauth-provider.ts:2995-3148 | for every callback and every fault: a subject token is exchanged if and only if it and its grant are stored, it lives long enough, audience and requested lifetime can be granted, the callback does not throw and leaves a storable lifetime, and the write does not fail |
| LifecycleEffects.CodeExchangeStores | repos/workers-oauth-provider/src/oauth-provider.ts:2545-2689 | what an issuing code exchange stores and answers, field by field: tokens, lifetime, scope by membership, audience, the token's record, and the grant with its code used up and its first refresh token; every other record stays |
| LifecycleEffects.RefreshStores | repos/workers-oauth-provider/src/oauth-provider.ts:2836-2981 | the same for a refresh: presented and new token are the previous and the current one, the lifetime is the one asked for or what is left of the grant |
| LifecycleEffects.ExchangeStores | repos/workers-oauth-provider/src/oauth-provider.ts:3034-3165 | the same for a token exchange: the lifetime is the one asked for or what was left of the subject token, and no grant changes |
| LifecycleEffects.AssertionMintsExactlyWhen | repos/workers-oauth-provider/src/oauth-provider.ts:3312-3530 | for every mapper answer and fault: an assertion is turned into a token if and only if its claims are accepted, it was not used, no malformed scope is asked for, the mapper names a user without a colon, valid scopes and a storable lifetime, it has not expired by then, and no write fails |
| LifecycleEffects.MintStores | repos/workers-oauth-provider/src/oauth-provider.ts:3476-3530 | the minted token and its grant are for the mapper's user, props, lifetime and scopes as far as asserted, the requesting client and the asserted resource, under which the token opens the mapper's props |
| LifecycleEffects.AuthorizeStores | repos/workers-oauth-provider/src/oauth-provider.ts:5248-5471 | what an authorization stores and answers in both flows, field by field: the grant, its code for ten minutes with its challenge, or the token of an implicit flow |
| LifecycleEffects.AuthorizeReplaces | repos/workers-oauth-provider/src/oauth-provider.ts:5290-5471 | of all other records exactly the grants to be replaced go, with their tokens, and the rest stays as it was |
| LifecycleEffects.RefusedAuthorizationChangesNothing | repos/workers-oauth-provider/src/oauth-provider.ts:5248-5290 | a refused authorization leaves every record as it was |
| LifecycleEffects.CodeRefusals | repos/workers-oauth-provider/src/oauth-provider.ts:2413-2668 | for every request, callback and fault, which refusal a code exchange gets, in the order of the checks |
| LifecycleEffects.RefreshRefusals | repos/workers-oauth-provider/src/oauth-provider.ts:2700-2948 | the same for a refresh, and that only a failing write of the token leaves records changed |
| LifecycleEffects.ExchangeRefusals | repos/workers-oauth-provider/src/oauth-provider.ts:2995-3148 | the same for a token exchange, which changes no record when it is refused |
| LifecycleEffects.AssertionRefusals | repos/workers-oauth-provider/src/oauth-provider.ts:3312-3530 | the same for an assertion, and that its marker is written once its claims are accepted, whatever happens next, and kept until `exp` and at least 60 seconds |
| LifecycleEffects.RevocationTakes | repos/workers-oauth-provider/src/oauth-provider.ts:3554-3630 | a client that posts its own access token loses it and nothing else; with its own refresh token, current or previous, it loses the grant and all its tokens; posted by another client, or unknown, a token takes nothing |
| LifecycleEffects.RefreshTokenRevokesItsGrant | repos/workers-oauth-provider/src/oauth-provider.ts:3571-3630 | in every run, whatever the hint, the grant of a posted refresh token is dead |
| LifecycleEffects.RunKeepsKindsApart | repos/workers-oauth-provider/src/oauth-provider.ts:3571-3588 | in every run no access token is stored under the hash of a refresh token of its grant, so the hint never decides between two tokens |
| OAuthTypes.AudienceExactly | repos/workers-oauth-provider/src/oauth-provider.ts:4132-4185 | which audiences are granted, if and only if, by what is asked for, granted and configured, and which one it is |
| LifecycleInvariants.RunKeepsInv | repos/workers-oauth-provider/src/oauth-provider.ts:2408-3165 | the invariant of grants, tokens, keys and lifetimes holds in every store that any run reaches |
| LifecycleInvariants.StepKeepsInv | repos/workers-oauth-provider/src/oauth-provider.ts:2408-3165 | each of the eight kinds of step keeps that invariant |
| LifecycleInvariants.CodeKeepsInv | repos/workers-oauth-provider/src/oauth-provider.ts:2534-2653 | a code exchange keeps it, whatever the callback changes and whichever write fails |
| LifecycleInvariants.RefreshKeepsInv | repos/workers-oauth-provider/src/oauth-provider.ts:2762-2948 | a refresh keeps it, whatever the callback changes and whichever write fails |
| LifecycleInvariants.ExchangeKeepsInv | repos/workers-oauth-provider/src/oauth-provider.ts:3071-3148 | a token exchange keeps it |
| LifecycleInvariants.EmaKeepsInv | repos/workers-oauth-provider/src/oauth-provider.ts:3312-3530 | a mint from an assertion keeps it |
| LifecycleInvariants.AuthorizeKeepsInv | repos/workers-oauth-provider/src/oauth-provider.ts:5321-5451 | an authorization, implicit or with a code, keeps it |
| LifecycleInvariants.RekeyingStaysInStep | repos/workers-oauth-provider/src/oauth-provider.ts:2600-2615 | re-keying gives each key one plaintext only, and hands out keys that belong to their ciphertexts |
| LifecycleTheorems.KeyAgreement | repos/workers-oauth-provider/src/oauth-provider.ts:2534-2653 | an unused code, the current and the previous refresh token each open the grant's props and no other token does; every access token opens its own props |
| LifecycleTheorems.KeyAgreementInEveryRun | repos/workers-oauth-provider/src/oauth-provider.ts:4211-4229 | the same in every store reachable from an empty one, for the code, both refresh tokens and every access token |
| LifecycleTheorems.NeverACryptoFailure | repos/workers-oauth-provider/src/oauth-provider.ts:5094-5112 | so no request, whatever it presents, ever fails at unwrapping or decrypting |
| LifecycleTheorems.CodeDeliversProps | repos/workers-oauth-provider/src/oauth-provider.ts:2551-2615 | after a code exchange the token opens the callback's token props and the refresh token opens its grant props, each with its documented fallback; by the callback's fields: the token opens `accessTokenProps` when given, or else `newProps` when given, or else the props from before, and the grant's props are `newProps` when given and those from before otherwise |
| LifecycleTheorems.RefreshDeliversProps | repos/workers-oauth-provider/src/oauth-provider.ts:2800-2869 | after a refresh the new and the presented refresh token both open the callback's grant props, and the access token opens its token props; both sets of props by the callback's fields |
| LifecycleTheorems.ExchangeDeliversProps | repos/workers-oauth-provider/src/oauth-provider.ts:3080-3125 | an exchanged token opens the callback's token props and the grant stays as it was; the token's props by the callback's fields |
| LifecycleTheorems.StepIsLater | repos/workers-oauth-provider/src/oauth-provider.ts:2408-3165 | no step reuses a grant id or a token id, revives a wrapped code key, or makes a grant accept an old refresh token |
| LifecycleTheorems.RunIsLater | repos/workers-oauth-provider/src/oauth-provider.ts:2408-3165 | the same over whole runs |
| LifecycleTheorems.CodeExchangedOnce | repos/workers-oauth-provider/src/oauth-provider.ts:2439-2463 | in every run an exchanged code is refused whoever presents it again, whatever happened in between |
| LifecycleTheorems.ReplayKills | repos/workers-oauth-provider/src/oauth-provider.ts:2452-2463 | the second presentation by its own client removes the grant and all its access tokens, if the grant is still stored |
| CodeReplay.ReplayEndsTheGrant | repos/workers-oauth-provider/src/oauth-provider.ts:2452-2463 | section 10.5 of RFC 6749 over runs: after the replay no code, refresh or access token of the grant is ever accepted again, if the grant is still stored, or if records leave only at their expiration and the tokens of the code exchange and of all token exchanges under the grant fit into its life |
| CodeReplay.TokenWithinGrantExactlyWhen | repos/workers-oauth-provider/src/oauth-provider.ts:2617-2668 | after a code exchange the stored access token expires no later than its grant if and only if the grant does not expire, or the token's lifetime and the delay of its write fit into the clamped lifetime of the grant |
| CodeReplay.ReplayCanFailExactlyWhen | repos/workers-oauth-provider/src/oauth-provider.ts:2439-2463 | along a run in which records leave only at their expiration there is a moment from which a replay can leave some token of the grant accepted if and only if the token of the code exchange, or that of a token exchange under the grant, does not fit |
| CodeReplay.TokenSurvivesReplay | repos/workers-oauth-provider/src/oauth-provider.ts:2617-2668 | an input where that happens: an hour for access tokens, five minutes for refresh tokens, a replay 301 seconds after the exchange |
| CodeReplay.SlowExchangeSurvivesReplay | repos/workers-oauth-provider/src/oauth-provider.ts:3034-3135 | another input: five minutes for both kinds of token, an exchange 240 seconds after the code exchange that takes 50 seconds, and a replay 11 seconds later leaves the exchanged token accepted |
| CodeReplay.TokenExchangeCovers | repos/workers-oauth-provider/src/oauth-provider.ts:3034-3148 | a token exchange under a covered grant leaves it covered if and only if the end of the handler plus what is asked for or what is left of the subject token lies within the grant's expiration |
| CodeReplay.ExchangeCovers | repos/workers-oauth-provider/src/oauth-provider.ts:2643-2668 | a code exchange leaves every access token of its grant covered by the grant's expiration if and only if the token fits |
| CodeReplay.RunKeepsCovered | repos/workers-oauth-provider/src/oauth-provider.ts:2869-3148 | in every run in which records leave only at their expiration and the token of each exchange under the grant fits, the access tokens of a covered grant stay within its expiration |
| CodeReplay.RunKeepsPristine | repos/workers-oauth-provider/src/oauth-provider.ts:5416-5451 | in every run a grant whose code is unused has no expiry of its own and no access tokens |
| LifecycleTheorems.DeadIsRefused | repos/workers-oauth-provider/src/oauth-provider.ts:2431-2443 | every token of a revoked grant is refused at every endpoint |
| LifecycleTheorems.RefreshNarrows | repos/workers-oauth-provider/src/oauth-provider.ts:2836-2901 | a refreshed token has a scope within its grant's, lives at least the KV minimum and never outlives the grant |
| LifecycleTheorems.ExchangeNarrows | repos/workers-oauth-provider/src/oauth-provider.ts:3017-3135 | an exchanged token has a scope within the subject token's, outlives it by no more than the time spent in the handler, and does not outlive it if and only if the callback is instant or the lifetime asked for leaves room for the time it takes |
| LifecycleTheorems.ChainNarrows | repos/workers-oauth-provider/src/oauth-provider.ts:2995-3165 | along any chain of exchanges, with anything in between, scope never widens, and expiry is never extended when each exchange is in time |
| LifecycleTheorems.PromptChainsAreInTime | repos/workers-oauth-provider/src/oauth-provider.ts:3034-3059 | exchanges in whose handlers no time passes are in time |
| LifecycleTheorems.SlowExchangeExtends | repos/workers-oauth-provider/src/oauth-provider.ts:3034-3135 | the clock matters: five seconds in a handler let the new token expire after its subject token |
| LifecycleTheorems.WritesLiveLongEnough | repos/workers-oauth-provider/src/oauth-provider.ts:4557-4576 | over all runs no KV write asks for less than 60 seconds, and every token's scope is within its grant's |
| RefreshRetry.NeverLockedOut | repos/workers-oauth-provider/src/oauth-provider.ts:2912-2958 | a client with one request outstanding that keeps the last token it received always holds a token the stored grant accepts, also when responses or token writes get lost |
| RefreshRetry.FirstTokenIsAccepted | repos/workers-oauth-provider/src/oauth-provider.ts:2633-2653 | the refresh token from the code exchange is accepted to begin with |
| RefreshRetry.AcceptedTokenRefreshes | repos/workers-oauth-provider/src/oauth-provider.ts:2725-2948 | for every callback and every fault: an accepted token gets new tokens if and only if client and resource are right, the grant is not about to expire before or after the callback, the callback neither throws nor sets a refresh lifetime nor leaves a lifetime that cannot be stored, and no write fails |
| RefreshRetry.UseRetiresTheRest | repos/workers-oauth-provider/src/oauth-provider.ts:2912-2958 | once either accepted token is used, every other token issued earlier is refused for ever, also when the use rotated the grant and then failed to store its access token |
| RefreshRetry.RefreshRotatesOrKeeps | repos/workers-oauth-provider/src/oauth-provider.ts:2923-2931 | a refresh leaves all grants alone or makes the presented token the previous and the new token the current one |
| RefreshRetry.IssuingRotates | repos/workers-oauth-provider/src/oauth-provider.ts:2912-2958 | a refresh that issues tokens always rotates the grant |
| EmaReplay.MintsAtMostOnce | repos/workers-oauth-provider/src/ema/jti.ts:22-34 | in every run one assertion mints at most one access token |
| EmaReplay.StaysUsedUp | repos/workers-oauth-provider/src/oauth-provider.ts:3370-3414 | no step, not even the eviction of the marker, makes a used assertion usable |
| EmaReplay.SkewOutlastsTheMarker | repos/workers-oauth-provider/src/ema/validators.ts:245-275 | the claim checks accept an assertion at `exp` when its marker may be gone, and the lifetime computation refuses exactly there |
| EmaReplay.MintedScopeIsAsserted | repos/workers-oauth-provider/src/oauth-provider.ts:3476-3530 | a minted token carries only scopes the assertion names, when it names any |
| EmaClaims.ClaimsAcceptedExactlyWhen | repos/workers-oauth-provider/src/ema/validators.ts:188-300 | exactly which assertions pass the claim checks, with the skew on every time check; and the resource and the scopes that are then accepted |
| EmaClaims.MarkerTTL | repos/workers-oauth-provider/src/ema/jti.ts:22-26 | the marker lives at least until `exp` and at least as long as KV demands |
| EmaClaims.AccessTokenTTL | repos/workers-oauth-provider/src/ema/validators.ts:411-429 | the lifetime is the mapper's or else the configured one, given exactly before `exp` and when it is not below the minimum, with the reason when it is not given |
| EmaClaims.ParseScopeParamExactly | repos/workers-oauth-provider/src/ema/validators.ts:308-340 | the scope parameter is refused if and only if it holds a malformed scope; otherwise exactly the scopes written in it, or the assertion's when it is absent, are kept, as far as the assertion has them |
| OAuthTypes.AudienceStaysGranted | repos/workers-oauth-provider/src/oauth-provider.ts:4132-4185 | the audience is the configured resource, or each part of it matches a granted resource |
| OAuthTypes.DownscopeKeeps | repos/workers-oauth-provider/src/oauth-provider.ts:4251-4258 | exactly the scopes that are asked for and allowed are kept, and an absent or empty request asks for all |
| Texts.SplitsIntoParts | repos/workers-oauth-provider/src/oauth-provider.ts:4254-4255 | splitting at spaces gives exactly the parts that stand between spaces or an end of the text |
| Keys.PrefixMeansOwner | repos/workers-oauth-provider/src/oauth-provider.ts:5744-5745 | exactly which stored tokens share the prefix of a grant: its own and those of nested user ids |
| Keys.GrantPrefixMeansUser | repos/workers-oauth-provider/src/oauth-provider.ts:5688-5691 | exactly which grants a user's listing shows |
| Keys.ColonsCollide | repos/workers-oauth-provider/src/oauth-provider.ts:5744-5745 | a user id with a colon really does collide |
| Keys.ColonFreeIsNotNested | repos/workers-oauth-provider/src/oauth-provider.ts:5744-5745 | colon-free user ids never do |
| KvNamespace.PageSplits | repos/workers-oauth-provider/src/oauth-provider.ts:5747-5777 | going on from a page's cursor visits exactly the keys the page left out, and fewer of them |
| KvNamespace.Namespace.RevokeGrant | repos/workers-oauth-provider/src/oauth-provider.ts:5739-5781 | the paged deletion ends, and removes precisely the grant's key and every key with its token prefix |
| KvNamespace.Namespace.CollectGrantsToRevoke | repos/workers-oauth-provider/src/oauth-provider.ts:5295-5316 | collects exactly the grants of the user's listing that match client and, for metadata clients, redirect URI; a bad batch size is refused |
| KvNamespace.Namespace.CompleteAuthorization | repos/workers-oauth-provider/src/oauth-provider.ts:5295-5468 | collect, store, revoke on textual keys: the whole new namespace |
| KvNamespace.Namespace.ListUserGrants | repos/workers-oauth-provider/src/oauth-provider.ts:5687-5728 | lists grants of the user's prefix after the cursor, and all of them when it returns no cursor |
| KvRefinement.RevocationIsExact | repos/workers-oauth-provider/src/oauth-provider.ts:5739-5781 | deleting by key prefix removes the given grants and their tokens and nothing else if and only if no other token's user id is nested under one of them |
| KvRefinement.RevokeGrantRefines | repos/workers-oauth-provider/src/oauth-provider.ts:5739-5781 | one paged revocation is one revocation of the state machine, on the same condition |
| KvRefinement.AuthorizationRefines | repos/workers-oauth-provider/src/oauth-provider.ts:5295-5468 | the paged authorization on textual keys is the state machine's authorization step if and only if what its listing collects reaches, through user ids with colons, no stored grant or token that is not replaced |
| KvRefinement.ColonFreeUsersRefine | repos/workers-oauth-provider/src/oauth-provider.ts:5295-5316 | user ids that do not continue the authorizing one across a colon are enough for that |
| KvRefinement.SweepIsExact | repos/workers-oauth-provider/src/oauth-provider.ts:5739-5781 | sweeping the keys of some grants revokes a subset of them and nothing else if and only if no other stored grant or token is reached |
| KvRuns.RunRefines | repos/workers-oauth-provider/src/oauth-provider.ts:2408-3165 | along every run whose user ids have no colons, handlers that read, write and delete textual keys keep exactly the records of the state machine and answer every request as it does |
| KvRuns.StepRefines | repos/workers-oauth-provider/src/oauth-provider.ts:2408-3165 | one handler on textual keys answers as the state machine does, and leaves exactly its records if and only if no revocation in it reaches more than it means to, through user ids with colons |
| KvRuns.EmptyHolds | repos/workers-oauth-provider/src/oauth-provider.ts:4043-4061 | an empty namespace holds the records of the empty store |
| KvRuns.ReadIsAlike | repos/workers-oauth-provider/src/oauth-provider.ts:2429-2432 | the two keys of a presented token hold its grant and its token record, and nothing else's |
| KvRuns.SavedRepresents | repos/workers-oauth-provider/src/oauth-provider.ts:2643-2668 | writing back what a handler did to the records it read does the same to the whole namespace |
| KvRefinement.OnlyGrantLeft | repos/workers-oauth-provider/src/oauth-provider.ts:5408-5413 | after it the new grant is the only one of its user and client; for a metadata client, the only one with its redirect URI |
| KvRefinement.OtherGrantsStay | repos/workers-oauth-provider/src/oauth-provider.ts:5297-5304 | a grant of another user, client or redirect URI stays with all its tokens |
| Purge.PurgeExpiredData | repos/workers-oauth-provider/src/oauth-provider.ts:5823-5960 | removes exactly purgeable grants with their tokens and then orphaned tokens, counts them, stays within the batch, says `done` only when nothing is left to purge, and withholds it only when the batch was used up |
| Purge.PurgesByTheRules | repos/workers-oauth-provider/src/oauth-provider.ts:5871-5943 | by the fields of the records: only grants go that are expired or whose client is missing and no metadata URL, as the options ask, and only tokens whose grant is missing |
| Purge.NoneIsLeft | repos/workers-oauth-provider/src/oauth-provider.ts:5871-5943 | when done none of these is left |
| Purge.SweepGrants | repos/workers-oauth-provider/src/oauth-provider.ts:5838-5902 | the grant sweep: all purgeable grants when it finishes, and a full batch when it does not |
| Purge.SweepTokens | repos/workers-oauth-provider/src/oauth-provider.ts:5904-5956 | the token sweep: all orphaned tokens when it finishes, and a full batch when it does not |
| Purge.PurgeGrantPage | repos/workers-oauth-provider/src/oauth-provider.ts:5856-5889 | every key of a page is looked at: the guard on the batch stops no page before its end |
| Purge.PurgeTokenPage | repos/workers-oauth-provider/src/oauth-provider.ts:5922-5946 | the same for a page of tokens |
| Purge.ShouldPurge | repos/workers-oauth-provider/src/oauth-provider.ts:5863-5884 | the client caches agree with direct lookups |
| Purge.IsOrphaned | repos/workers-oauth-provider/src/oauth-provider.ts:5929-5945 | the grant caches agree with direct lookups |
| Purge.LiveGrantsStay | repos/workers-oauth-provider/src/oauth-provider.ts:5864-5889 | no live grant with an existing client, and no client, is ever removed |
| Purge.TokensOfLiveGrantsStay | repos/workers-oauth-provider/src/oauth-provider.ts:5930-5943 | a token whose grant stays is kept if and only if its user id is nested under no purged grant, and kept unchanged |
| Tiers.ComputeTiers | repos/workers-sdk/tools/deployments/publish-packages.ts:145-201 | fails exactly when the known dependencies have a cycle, and names one; otherwise the tiers are well formed |
| Tiers.DepthSearch.DepthOf | repos/workers-sdk/tools/deployments/publish-packages.ts:152-181 | the memoised search ends, finds the longest dependency chain of each name, or a path that returns to itself |
| Tiers.DependenciesInEarlierTiers | repos/workers-sdk/tools/deployments/publish-packages.ts:145-201 | every dependency of a package lies in a strictly earlier tier |
| Tiers.EveryDepthOccurs | repos/workers-sdk/tools/deployments/publish-packages.ts:187-199 | no tier is empty: below every depth all smaller depths occur |
| Tiers.FillTiers | repos/workers-sdk/tools/deployments/publish-packages.ts:187-199 | filling puts every package into the tier of its depth, in listed order |
| Tiers.DepthsExcludeCycles | repos/workers-sdk/tools/deployments/publish-packages.ts:157-164 | if every name has a longest chain there is no cycle |
| Tiers.ReturningIsCyclic | repos/workers-sdk/tools/deployments/publish-packages.ts:157-164 | a path that comes back to a name still being visited contains a cycle |
| WorkerPool.Pool.Resume | repos/workers-sdk/tools/deployments/publish-packages.ts:488-497 | whichever worker resumes, its result lands at its package, it takes the next package or stops, and nothing is taken twice |
| WorkerPool.Pool.Start | repos/workers-sdk/tools/deployments/publish-packages.ts:499-503 | max(1, min(concurrency, n)) workers take the first packages |
| WorkerPool.Pool.Bounded | repos/workers-sdk/tools/deployments/publish-packages.ts:499-503 | at no time are more publishes in flight than workers |
| WorkerPool.Pool.Complete | repos/workers-sdk/tools/deployments/publish-packages.ts:503-507 | when all workers stopped, every package was published exactly once and has its result |
| WorkerPool.NoHoles | repos/workers-sdk/tools/deployments/publish-packages.ts:505-507 | the final filter drops nothing and keeps positions |
| Release.Release.PublishTier | repos/workers-sdk/tools/deployments/publish-packages.ts:480-508 | in every interleaving each package is published exactly once, result i is that of package i, and nothing else lands |
| Release.Release.Settle | repos/workers-sdk/tools/deployments/publish-packages.ts:486-497 | one settled publish: its result is recorded at its package, and every reported error is among the results |
| Release.Release.FilterUnpublished | repos/workers-sdk/tools/deployments/publish-packages.ts:299-318 | asks for every package; what it drops was listed and what it keeps was not; without an outdated answer it keeps exactly what the registry does not hold; it gives up exactly when a version cannot be read |
| Release.Release.WaitForPropagation | repos/workers-sdk/tools/deployments/publish-packages.ts:351-415 | returns only when every version was listed and its tarball was there, and after the settling time; gives up only after the deadline and while some version was still not there |
| Release.Release.PublishAllPackages | repos/workers-sdk/tools/deployments/publish-packages.ts:547-658 | a cycle is found if and only if there is one, and a dry run changes nothing; any other run ends if and only if with what it names: a version that could not be read, a failed publish, an error of the tagging, a version of its own that did not resolve in time, or all done; nothing is published before this run has found all it pins listed or has published it and seen it resolve; tagging happens only with every version on the registry; without outdated answers a run publishes exactly what is missing, once |
| Release.Release.PublishTiers | repos/workers-sdk/tools/deployments/publish-packages.ts:569-658 | the loop over the tiers and the tags, with the reason for each end in the history of the run |
| Release.Release.Poll | repos/workers-sdk/tools/deployments/publish-packages.ts:367-393 | one round of polling: what stays pending was looked up and did not resolve |
| Release.Release.RunUntilDone | repos/workers-sdk/tools/deployments/publish-packages.ts:547-658 | over any number of failed and repeated runs every run keeps to that |
| ReleaseLog.LegalStep | repos/workers-sdk/tools/deployments/publish-packages.ts:570-646 | an allowed event keeps a legal history legal |
| ReleaseLog.RunIsOrderly | repos/workers-sdk/tools/deployments/publish-packages.ts:570-646 | within a run only what the run published lands or resolves, and nothing is both found published and published |
| ReleaseLog.ResolvedExactlyWhen | repos/workers-sdk/tools/deployments/publish-packages.ts:299-382 | when a package is published, a package it pins has ever been seen to resolve if and only if this run published it or an earlier run resolved it; and this run published it unless it found it listed |
| ReleaseLog.ReRunSkipsTheWait | repos/workers-sdk/tools/deployments/publish-packages.ts:313-382 | a legal history in which a re-run publishes a dependent of a version whose tarball was never there |
| Release.TierMayStart | repos/workers-sdk/tools/deployments/publish-packages.ts:145-201 | when all earlier tiers are done, everything a tier pins is ready in this run |
| Release.RunNextTier | repos/workers-sdk/tools/deployments/publish-packages.ts:569-601 | publishing what does not read back keeps a run minimal |
| Release.AllTiersDone | repos/workers-sdk/tools/deployments/publish-packages.ts:547-658 | when all tiers are done no package is missing |
| Sharding.AssignShards | repos/workers-sdk/tools/e2e/runIndividualE2EFiles.ts:105-123 | the shards hold exactly the tests, each total is the sum of the table's durations (30 for unlisted files) of its shard, and the heaviest is within 4/3 - 1/(3m) of every distribution of the tests over as many shards |
| Sharding.NoDistributionIsMuchBetter | repos/workers-sdk/tools/e2e/runIndividualE2EFiles.ts:105-123 | that bound against assignments in sorted order is one against every distribution of the files, in the table's own durations |
| Sharding.DistributionIsAssignment | repos/workers-sdk/tools/e2e/runIndividualE2EFiles.ts:105-123 | every distribution of the files over shards is an assignment with the same load on every shard |
| Sharding.AssignSorted | repos/workers-sdk/tools/e2e/runIndividualE2EFiles.ts:110-123 | the loop makes the greedy choice for every file in order |
| Sharding.LightestShard | repos/workers-sdk/tools/e2e/runIndividualE2EFiles.ts:114-120 | the first shard with the lowest total |
| Sharding.SortByDuration | repos/workers-sdk/tools/e2e/runIndividualE2EFiles.ts:105-109 | a permutation in order of descending duration |
| Sharding.GreedyBound | repos/workers-sdk/tools/e2e/runIndividualE2EFiles.ts:113-123 | in any order, m times a shard's total is at most the sum up to its last file plus m - 1 times that file |
| Sharding.GreedyWithinTwice | repos/workers-sdk/tools/e2e/runIndividualE2EFiles.ts:113-123 | hence the heaviest shard is at most 2 - 1/m times the best possible |
| Sharding.LongestFirstWithinFourThirds | repos/workers-sdk/tools/e2e/runIndividualE2EFiles.ts:105-123 | longest first, it is at most 4/3 - 1/(3m) times the best possible |
| Sharding.LongJobsFit | repos/workers-sdk/tools/e2e/runIndividualE2EFiles.ts:105-123 | a file longer than a third of the best possible is placed without exceeding it |
| Sharding.LoadsAddUp | repos/workers-sdk/tools/e2e/runIndividualE2EFiles.ts:121-122 | no duration is lost or counted twice |
| Manifest.CheckFiles | packages/server/src/packages/Manifest.ts:77-100 | accepts exactly files with accepted, different paths and one index; the named reason is true |
| Manifest.CheckManifest | packages/server/src/packages/Manifest.ts:102-129 | accepts exactly manifests with a summary, exports, distinct identifiers and signatures in member form |
| Manifest.SummaryOkExactly | packages/server/src/packages/Manifest.ts:103-105 | a summary is accepted if and only if it is not all white space |
| Manifest.MemberFormExactly | packages/server/src/packages/Manifest.ts:118-126 | a signature is accepted if and only if, white space before it aside, it starts with the export's name and a parenthesis or a colon |
| Manifest.PathStaysInside | packages/server/src/packages/Manifest.ts:21-26 | an accepted path resolves to itself and can name nothing outside its package |
| Manifest.FilePathExactly | packages/server/src/packages/Manifest.ts:26-75 | a path is accepted if and only if it ends in `.ts` or `.js`, its segments before that are spelled like names, and no segment is a dot or two |
| Manifest.CheckFileIsNoPackageFile | packages/server/src/publish/Signatures.ts:13-15 | the conformance check's file name is no package path |
| Manifest.EmittedPathsMeet | packages/server/src/packages/Manifest.ts:69-70 | emitted paths are accepted JavaScript paths, and only a `.ts` file and its `.js` twin meet |
| Manifest.DeclarationKind | packages/server/src/packages/Manifest.ts:118-126 | a signature opens as a function or as a value, never both |
| PackageEvents.RunKeepsInv | packages/server/src/store/PackageState.ts:109-261 | in every interleaving of creations, edits and commits the store's invariant holds and live versions never go back |
| PackageEvents.StepKeepsInv | packages/server/src/store/PackageState.ts:119-261 | each store operation keeps the invariant |
| PackageEvents.CommitKeepsInv | packages/server/src/store/PackageState.ts:233-261 | a checked commit is accepted exactly at the pinned revision, and the branch without an index file is never taken |
| PackageEvents.TouchKeepsInv | packages/server/src/store/PackageState.ts:176-213 | an edit gets a new revision with the new working state and rewrites no old one |
| PublishTheorems.PublishedWasChecked | packages/server/src/packages/Publish.ts:64-142 | every live version in every run is the manifest, entry and emitted files of the package's state at one moment of the run, at the revision the version names, and passed all checks beside the packages that were live at that moment |
| PublishTheorems.LiveVersionsNeverGoBack | packages/server/src/store/PackageState.ts:233-261 | a live package stays live, at a revision that never goes down |
| PublishTheorems.PublishedMeansLive | packages/server/src/store/PackageState.ts:109-115 | state published: the working manifest is live and the working files are those that passed beside what was live at a moment of this revision; modified: the revision is higher |
| PublishTheorems.CommitMovesUnlessEdited | packages/server/src/packages/Publish.ts:64-142 | after any events since the pin, the commit of a source that passed beside what was live at any moment since moves the pointer if and only if none of them edited the package, and serves the emitted files |
| PublishTheorems.RefusedChangesNothing | packages/server/src/store/PackageState.ts:227-250 | a refused or failed operation leaves the old version serving |
| PublishTheorems.ManifestsAlwaysPass | packages/server/src/packages/Packages.ts:186-200 | the store never holds a manifest that could not publish, even when half edits race |
| PublishTheorems.FilesPassUnlessTwoIndexes | packages/server/src/packages/Packages.ts:171-184 | stored files always pass, except exactly when an edit added the second index file |
| PublishTheorems.SecondIndexByEdit | packages/server/src/packages/Packages.ts:175-183 | that edit is possible |
| PackageTools.Owner.PublishAction | packages/server/src/packages/Publish.ts:56-143 | for every interference: it succeeds if and only if the pinned source passes all checks against the then live packages and no edit landed; then the package is published from that source with files that passed beside those packages; otherwise it changes nothing; and changes nothing but the live version |
| PackageTools.Owner.Check | packages/server/src/packages/Publish.ts:69-136 | compile, drop the check file, boot: succeeds exactly when all checks pass |
| PackageTools.Owner.CompilerFiles | packages/server/src/packages/Publish.ts:94-97 | no source file takes the place of the conformance check |
| PackageTools.Owner.Imports | packages/server/src/packages/Publish.ts:85-92 | the other live packages and the declarations of all of them, self excluded |
| PackageTools.Owner.EditAction | packages/server/src/packages/Packages.ts:159-212 | changes one file or the manifest of an existing package, and refuses as malformed exactly the requests without a name, with both or neither, or with half of a file edit; after a file edit the file at that path is exactly the given content and nothing else but revision and time changed; after a manifest edit the given halves are stored, the others and all files are as met |
| PackageTools.Owner.EditManifestAction | packages/server/src/packages/Packages.ts:186-212 | checks the merged manifest, stores only the given halves on whatever is there by then, and keeps the store valid, half by half |
| PackageTools.Owner.EditFileAction | packages/server/src/packages/Packages.ts:171-184 | stores one file with an accepted path in an existing package; an existing path is overwritten, every other row stays and the revision is one higher |
| PackageTools.Owner.CreateAction | packages/server/src/packages/Packages.ts:120-142 | creates exactly when name, files and manifest are accepted and the name is free and unreserved; the new row and its files, by content, for both kinds of input |
| PackageEffects.CreationStores | packages/server/src/store/PackageState.ts:119-141 | an accepted creation stores a draft at revision 1 with exactly the given files, and every other row stays |
| PackageEffects.FileEditStores | packages/server/src/store/PackageState.ts:182-196 | a file edit writes exactly one file row, whether or not its path was there, and raises the revision |
| PackageEffects.ManifestEditStores | packages/server/src/store/PackageState.ts:200-213 | a manifest edit writes each given half, keeps each absent one, touches no file and raises the revision |
| PackageEffects.CommitStores | packages/server/src/store/PackageState.ts:233-261 | a commit is accepted if and only if the revision is the checked one and there is an index file, and writes exactly the live version |
| PackageEffects.ChecksPassExactly | packages/server/src/packages/Publish.ts:69-136 | what the checks of a publish are: rules, compilation of exactly the sources and the conformance check against exactly the declarations of the capabilities and the other live packages, and a boot with no export missing |
| PackageEffects.OthersAreLive | packages/server/src/packages/Publish.ts:85-92 | the other packages are exactly those that are live, without the package itself |
| PackageTools.PreparedFrom | packages/server/src/packages/Packages.ts:86-117 | what a creation from a run or from source creates, literally |
| PackageTools.Owner.CreatePackage | packages/server/src/store/PackageState.ts:119-141 | inserts row and files, or undoes all of it |
| PackageTools.Owner.CommitPublish | packages/server/src/store/PackageState.ts:233-261 | moves the pointer only at the checked revision |
| PackageTools.Owner.ReadSource | packages/server/src/store/PackageState.ts:215-225 | pins manifest, files and revision |
| PackageTools.Owner.ListPublished | packages/server/src/store/PackageState.ts:265-271 | every live version and nothing else |
| Placeholder.Scan | packages/server/src/gateway/Placeholder.ts:25-33 | returns exactly the names whose placeholder occurs at some position of some part, once each |
| Placeholder.PiecesFindOccurrences | packages/server/src/gateway/Placeholder.ts:18-41 | the pass from left to right finds exactly the occurrences, each at its position |
| Placeholder.OccurrencesAreApart | packages/server/src/gateway/Placeholder.ts:18 | two placeholders never overlap |
| Placeholder.MatchIsOccurrence | packages/server/src/gateway/Placeholder.ts:18 | the expression captures the one name whose placeholder starts there |
| Placeholder.PiecesAreTheText | packages/server/src/gateway/Placeholder.ts:40-41 | cutting into pieces loses no text |
| Placeholder.Substitute | packages/server/src/gateway/Placeholder.ts:40-41 | replaces each placeholder that stands in the text by the value of its name, keeps it where there is no value, and leaves a text without placeholders alone |
| Placeholder.ValueReplacesPlaceholder | packages/server/src/gateway/Placeholder.ts:40-41 | where the placeholder of a name stands its value stands in the result, or the placeholder itself when there is none, between what the texts before and after it become |
| Placeholder.SubstitutionIsDetermined | packages/server/src/gateway/Placeholder.ts:40-41 | whatever function of texts does that, and leaves texts without placeholders alone, is the substitution |
| Placeholder.PiecesSplit | packages/server/src/gateway/Placeholder.ts:40-41 | the pieces of a text are those before a placeholder, the placeholder, and those after it |
| Placeholder.NeverFallsBack | packages/server/src/gateway/Placeholder.ts:35-41 | with a value for every mentioned name the fallback branch is never taken |
| Placeholder.TextWithoutPlaceholdersStays | packages/server/src/gateway/Placeholder.ts:40-41 | text without placeholders is left alone |
| Gateway.Route | packages/server/src/gateway/Gateway.ts:152-251 | a credentialed request leaves exactly when every mentioned name is saved, approved for the host and readable, over a secure transport, with every placeholder but that of `__proto__` replaced; one that mentions none is forwarded as it came; a refusal by policy decrypts nothing; the URL, each header value and the body then carry the saved value where a placeholder stood; every refusal has its own exact condition |
| Gateway.Refuse | packages/server/src/gateway/Gateway.ts:224-238 | a refusal names exactly the mentioned credentials that are not saved, or else those not approved for the host, or else those that do not decrypt |
| Gateway.PartsAreSent | packages/server/src/gateway/Gateway.ts:239-251 | in every part that is sent, the saved value stands where the placeholder of its credential stood, and only that of `__proto__` stays |
| Gateway.LowerIsLowerCase | packages/server/src/vault/OwnerVault.ts:108-119 | hosts are compared with each capital as its small letter and all else unchanged |
| Gateway.OtherEncodingsStay | packages/server/src/gateway/Gateway.ts:73-80 | a URL without `%7B` and `%7D` in either case is scanned and sent as it is |
| Gateway.EncodingsDecoded | packages/server/src/gateway/Gateway.ts:80 | each encoding turns into its character wherever it stands, and nothing else changes |
| Gateway.SubstitutesAll | packages/server/src/gateway/Gateway.ts:239-248 | the resolved values replace every placeholder that the scan found, the one of `__proto__` excepted |
| Gateway.NothingFallsBackExactlyWhen | packages/server/src/vault/OwnerVault.ts:121-138 | with every mentioned name readable, every placeholder is replaced if and only if none names `__proto__` |
| Gateway.ProtoFallsBack | packages/server/src/gateway/Placeholder.ts:15-16 | `__proto__` passes as a credential name, and its placeholder is sent as it is |
| Gateway.EncodedPlaceholderIsFound | packages/server/src/gateway/Gateway.ts:73-80 | a placeholder with percent-encoded braces is found, each in either case |
| Gateway.OwnerVault.ResolveForHost | packages/server/src/vault/OwnerVault.ts:103-143 | resolves exactly when every name is saved, approved and readable, with the values of all names but `__proto__`; otherwise lists the refusals, and decrypts only after policy passed for all |
| Gateway.OwnerVault.AllValues | packages/server/src/vault/OwnerVault.ts:152-169 | every readable value of the vault except one saved as `__proto__` |
| Gateway.RefusalsAreExact | packages/server/src/vault/OwnerVault.ts:108-119 | which names are refused for which reason |
| Redact.RedactionIsComplete | packages/server/src/gateway/Redact.ts:22-30 | for any number of values, brackets or not: if each is apart from the markers of the same and of shorter values, neither inside the other nor overlapping at an end, no value is left anywhere, not even across inserted markers |
| Redact.RedactionCompleteExactlyWhen | packages/server/src/gateway/Redact.ts:22-30 | for any number of values without brackets: no value is left in any text if and only if none is left in what the remaining loop makes of each marker |
| Redact.InOrderAcross | packages/server/src/gateway/Redact.ts:26 | the loop works on both sides of a bracket separately |
| Redact.SingleCredentialExact | packages/server/src/gateway/Redact.ts:22-30 | for one credential, brackets or not: complete for every text if and only if the value cannot come back inside its marker, at its end or at its start; without brackets, if and only if it is no part of what the marker says |
| Redact.BracketsLeak | packages/server/src/gateway/Redact.ts:22-30 | a value with a bracket can come back at the edge of a marker |
| Redact.ValueIsRedactedWhole | packages/server/src/gateway/Redact.ts:18-30 | longest first, a value that contains others becomes its own marker, and the marker stays if no value of that length or shorter is in it |
| Redact.RedactedInPlace | packages/server/src/gateway/Redact.ts:22-30 | for one credential: the first occurrence becomes its marker, the text before it stays and the text after it is redacted by itself |
| Redact.FirstReplaced | packages/server/src/gateway/Redact.ts:27 | split and join replace the first occurrence and go on behind it |
| Redact.ShorterFirstLeaks | packages/server/src/gateway/Redact.ts:18-20 | in another order its rest would stay visible |
| Texts.JoinSplit | packages/server/src/gateway/Redact.ts:26 | splitting cuts out the value and nothing else |
| Redact.TextWithoutValuesStays | packages/server/src/gateway/Redact.ts:22-30 | text without values is left alone |
| Redact.RedactText | packages/server/src/gateway/Redact.ts:22-30 | the loop over the values, longest first |
| Redact.ByLengthPermutes | packages/server/src/gateway/Redact.ts:18-20 | sorting loses no value |
| Redact.TreeIsClear | packages/server/src/gateway/Redact.ts:36-49 | on the same condition no value is left in any string or key of a redacted JSON tree |
| Redact.TreeMirrors | packages/server/src/gateway/Redact.ts:36-49 | a redacted tree has the shape and order of the original: each text and key is redacted in its own place, and of keys that become the same the first gives the place and the last the value |
| Redact.TreeWithoutValuesStays | packages/server/src/gateway/Redact.ts:36-49 | a tree without any value in it is unchanged |
| Redact.EntriesSurvive | packages/server/src/gateway/Redact.ts:43-47 | an object keeps all entries exactly when redaction leaves its keys apart |
| StorageData.RangeIsPrefix | packages/server/src/store/StorageData.ts:85-97 | for every key that passes the key check the range scan is the prefix filter |
| StorageData.RangeIsExact | packages/server/src/store/StorageData.ts:85-97 | for any strings: the scan finds the prefix itself and what continues it below DEL |
| StorageData.UncheckedKeyIsMissed | packages/server/src/store/StorageData.ts:40-43 | a key outside the charset would be missed |
| StorageData.Storage.List | packages/server/src/store/StorageData.ts:91-107 | the first hundred keys under the prefix in order, cut exactly when there are more; a prefix outside the charset is refused |
| StorageData.Storage.Set | packages/server/src/store/StorageData.ts:64-71 | only keys and values that pass are stored |
| StorageData.Storage.Delete | packages/server/src/store/StorageData.ts:73-77 | removes the key and says whether it was there |
| RunRecords.Store.PutRecord | packages/server/src/store/RunRecords.ts:155-180 | the record holds the first min(n, 200) lines in order and the drop count is the rest if no line was swept, and accounts for all lines only then; nothing of the run stays; a second record undoes everything |
| RunRecords.Store.AppendTrail | packages/server/src/store/RunRecords.ts:123-139 | buffers a line below the bound and counts it above |
| RunRecords.RecordBalances | packages/server/src/store/RunRecords.ts:155-161 | buffered, dropped and swept lines of every run always add up, and other runs lose only old lines |
| RunRecords.SweepCosts | packages/server/src/store/RunRecords.ts:158-159 | the sweep costs a run lines exactly when it has old ones |
| RunRecords.WithoutTakes | packages/server/src/store/RunRecords.ts:142-153 | taking one run's trail takes all of it and nothing of another run |
| RunRecords.RowsLeft | packages/server/src/store/RunRecords.ts:142-160 | a record write leaves exactly the rows of other runs that are not older than the horizon |

## Left out

- Real cryptography, encodings and key sizes; hashing, wrapping and encryption are symbolic.
- Eventual consistency of KV and races between handlers: a handler is one step. Failures are modelled for
  the writes of the grant and of the access token, not inside the best-effort revocations.
- KV time-to-live inside `KvNamespace`: the namespace holds what has not expired.
- Lifetimes that are not whole numbers of seconds.
- Token records of old versions that lack a client id, and grants of old versions without a redirect URI.
- Client authentication, URL, PKCE and metadata-document parsing: their verdicts are inputs. JWT signatures
  and issuer lookup are the input `verified`.
- Token exchange never compares the requesting client with the subject token's client; the model has no
  requesting client there either.
- Pinning of audiences together with ID-JAG and `resourceMatchOriginOnly`, which compares origins only.
- Progress of repeated purges: no cursor survives a call, so only what `done` means is stated.
- Retries of registry reads, which count as one read that may fail, and the text of logs.
- Publishes whose promise rejects: the source's publish runner always resolves with a result.
- Reading the package manifests from disk; package names are taken to be distinct.
- Durations are whole numbers, where the source adds them up in floating point.
- RedactionIsComplete: the condition is sufficient. `SingleCredentialExact` and `RedactionCompleteExactlyWhen`
  are exact, for one credential and for values without brackets.
- Derived encodings of a value, which redaction does not look for.
- Objects with keys that JavaScript treats specially, in redacted results: an object's entries keep their
  listed order, and a key `__proto__` is an entry like any other.
- NeverFallsBack: takes the values as a map; that a credential named `__proto__` has no value in it is said by
  `ResolveForHost` and `NothingFallsBackExactlyWhen`.
- AllValues: leaves out a credential named `__proto__`, as the source does, so its value is not redacted.
- ReplayEndsTheGrant: assumes, when the grant is no longer stored, that records leave only after their
  expiration and that the tokens of the code exchange and of every token exchange under the grant fit. KV may
  also lose a grant early, and then the replay finds no grant to revoke.
- The SQL engine: tables are maps and sequences, and a transaction that throws restores the state before it.
- The TypeScript compiler, the isolate boot and the generated declaration texts: arbitrary functions.
- The internal hosts, budgets and transport rules of the gateway: their verdicts are inputs.
- Header names and bodies that are not valid UTF-8 are passed through and never scanned, as in the source.
- Reading and querying of run records, search ranking, daily counters, log bounding and vault paths, which
  would only add easy members.
