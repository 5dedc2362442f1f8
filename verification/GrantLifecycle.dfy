/** The grant and token lifecycle as a state machine (repos/workers-oauth-provider/src/oauth-provider.ts).

    One step is one handler run from start to end. The functions below are the specification that
    the handlers of `TokenEndpoint` are proved against, and the subject of the theorems about runs. */
module GrantLifecycle {
  import opened Wrappers
  import opened OAuthTypes
  import opened EmaClaims

  /** What KV holds, the clock, and what randomness has been used up. `lifetimes` are the seconds
      to live of every finite expiration KV was ever given. */
  datatype Store = Store(
    now: int,
    grants: map<GrantRef, Stored<Grant>>,
    tokens: map<TokenRef, Stored<Token>>,
    markers: map<string, int>,
    nextKey: CryptoKey, used: set<string>, lifetimes: seq<int>)

  function InitialStore(now: int): Store {
    Store(now, map[], map[], map[], 0, {}, [])
  }

  /** A token as it arrives: missing, not of the form `a:b:c`, or parsed. */
  datatype Presented = Missing | Malformed | Parsed(token: Bearer)

  /** What a callback returned. `refreshTokenTTL` tells an absent property from an undefined one. */
  datatype CallbackResult = CallbackResult(
    newProps: Option<Props>, accessTokenProps: Option<Props>, accessTokenTTL: Option<int>,
    refreshTokenTTL: Option<Option<int>>, accessTokenScope: Option<seq<string>>)

  datatype Callback = NoCallback | Threw | Returned(result: Option<CallbackResult>)

  /** Whether a KV write of the handler fails. */
  datatype Fault = NoFault | GrantWriteFails | TokenWriteFails

  datatype Response =
    | Issued(accessToken: Bearer, refreshToken: Option<Bearer>, expiresIn: int, scope: seq<string>,
             audience: Option<seq<string>>)
    | Authorized(code: Bearer)
    | Done
    | Refused(error: Error)

  datatype Outcome = Outcome(store: Store, response: Response)

  function RefOf(b: Bearer): GrantRef { GrantRef(b.userId, b.grantId) }

  function TokenRefOf(b: Bearer): TokenRef { TokenRef(b.userId, b.grantId, Digest(b)) }

  function Advance(s: Store, seconds: nat): Store { s.(now := s.now + seconds) }

  function Use(s: Store, random: set<string>): Store { s.(used := s.used + random) }

  // ---------------------------------------------------------------- storage

  function PutGrant(s: Store, ref: GrantRef, g: Grant, expiration: Option<int>): Store {
    s.(grants := s.grants[ref := Stored(g, expiration)],
       lifetimes := s.lifetimes + if expiration.Some? then [expiration.value - s.now] else [])
  }

  function PutToken(s: Store, ref: TokenRef, t: Token, ttl: int): Store {
    s.(tokens := s.tokens[ref := Stored(t, Some(s.now + ttl))], lifetimes := s.lifetimes + [ttl])
  }

  /** The grant's own expiry, but never closer than KV accepts. */
  function GrantExpiration(now: int, g: Grant): Option<int> {
    if g.expiresAt.None? then None
    else Some(Max(g.expiresAt.value, now + KV_MIN_EXPIRATION_TTL_SECONDS + KV_EXPIRATION_CLAMP_MARGIN_SECONDS))
  }

  function SaveGrantWithTTL(s: Store, ref: GrantRef, g: Grant): Store {
    PutGrant(s, ref, g, GrantExpiration(s.now, g))
  }

  /** Delete a grant and every access token stored under it. */
  function Revoke(s: Store, ref: GrantRef): Store {
    s.(grants := map r | r in s.grants && r != ref :: s.grants[r],
       tokens := map t | t in s.tokens && GrantRef(t.userId, t.grantId) != ref :: s.tokens[t])
  }

  function RevokeAll(s: Store, refs: set<GrantRef>): Store {
    s.(grants := map r | r in s.grants && r !in refs :: s.grants[r],
       tokens := map t | t in s.tokens && GrantRef(t.userId, t.grantId) !in refs :: s.tokens[t])
  }

  // ---------------------------------------------------------------- creating access tokens

  datatype Mint = Mint(clientId: string, scope: seq<string>, encryptedProps: Ciphertext, key: CryptoKey,
                       expiresIn: int, audience: Option<seq<string>>)

  function TokenRecord(now: int, b: Bearer, m: Mint, grantScope: seq<string>): Token {
    Token(Digest(b), b.grantId, b.userId, now + m.expiresIn, m.audience, m.scope, WrappedKey(b, m.key),
          m.clientId, grantScope, m.encryptedProps)
  }

  /** `createAccessToken`: refuses a lifetime that KV cannot store. */
  function CreateAccessToken(s: Store, b: Bearer, m: Mint, refreshToken: Option<Bearer>, fault: Fault): Outcome {
    if m.expiresIn < KV_MIN_EXPIRATION_TTL_SECONDS then Outcome(s, Refused(InvalidRequest))
    else if fault.TokenWriteFails? then Outcome(s, Refused(ServerError))
    else
      Outcome(PutToken(s, TokenRefOf(b), TokenRecord(s.now, b, m, m.scope), m.expiresIn),
              Issued(b, refreshToken, m.expiresIn, m.scope, m.audience))
  }

  // ---------------------------------------------------------------- authorization

  datatype AuthorizeRequest = AuthorizeRequest(
    accepted: bool, userId: string, clientId: string, scope: seq<string>, props: Props,
    redirectUri: string, resource: Option<seq<string>>,
    codeChallenge: Option<Challenge>, codeChallengeMethod: Option<ChallengeMethod>,
    isImplicit: bool, revokeExisting: bool, isMetadataClient: bool,
    grantId: string, secret: string)

  function NewGrant(r: AuthorizeRequest, data: Ciphertext): Grant {
    Grant(r.grantId, r.clientId, r.userId, r.scope, data, None, None, None, None, None, None, None, None, None,
          r.resource, Some(r.redirectUri))
  }

  /** The grants that an authorization replaces: those of the same user and client and, for a
      client identified by a metadata document, of the same redirect URI. */
  predicate Replaces(r: AuthorizeRequest, ref: GrantRef, g: Grant) {
    r.revokeExisting && ref.userId == r.userId && g.clientId == r.clientId &&
    (r.isMetadataClient ==> g.redirectUri == Some(r.redirectUri))
  }

  function Replaced(s: Store, r: AuthorizeRequest): set<GrantRef> {
    set ref | ref in s.grants && Replaces(r, ref, s.grants[ref].record)
  }

  function Authorize(cfg: Config, s: Store, r: AuthorizeRequest): Outcome {
    if !r.accepted then Outcome(s, Refused(InvalidRequest))
    else
      var data, key := Ciphertext(s.nextKey, r.props), s.nextKey;
      var b, ref := Bearer(r.userId, r.grantId, r.secret), GrantRef(r.userId, r.grantId);
      var s1 := Use(s, {r.grantId, r.secret}).(nextKey := key + 1);
      if r.isImplicit then
        var s2 := PutGrant(s1, ref, NewGrant(r, data), None);
        var m := Mint(r.clientId, r.scope, data, key, cfg.accessTokenTTL, r.resource);
        var s3 := PutToken(s2, TokenRefOf(b), TokenRecord(s.now, b, m, r.scope), cfg.accessTokenTTL);
        Outcome(RevokeAll(s3, Replaced(s, r)), Issued(b, None, cfg.accessTokenTTL, r.scope, r.resource))
      else
        var g := NewGrant(r, data).(authCodeId := Some(Digest(b)), authCodeWrappedKey := Some(WrappedKey(b, key)),
                                    codeChallenge := r.codeChallenge, codeChallengeMethod := r.codeChallengeMethod);
        var s2 := PutGrant(s1, ref, g, Some(s.now + CODE_TTL_SECONDS));
        Outcome(RevokeAll(s2, Replaced(s, r)), Authorized(b))
  }

  // ---------------------------------------------------------------- re-keying by callbacks

  /** The grant's props and key after a callback, those of the new token, and the next unused key. */
  datatype Rekeyed = Rekeyed(grantData: Ciphertext, grantKey: CryptoKey, tokenData: Ciphertext, tokenKey: CryptoKey,
                             nextKey: CryptoKey)

  function TokenProps(r: Option<CallbackResult>, current: Props): Props {
    if r.None? then current
    else if r.value.accessTokenProps.Some? then r.value.accessTokenProps.value
    else if r.value.newProps.Some? then r.value.newProps.value
    else current
  }

  function GrantProps(r: Option<CallbackResult>, current: Props): Props {
    if r.Some? && r.value.newProps.Some? then r.value.newProps.value else current
  }

  /** Token props that are not the grant's get a key of their own. */
  function KeyForToken(grantData: Ciphertext, grantKey: CryptoKey, tokenProps: Props, grantProps: Props,
                       nextKey: CryptoKey): Rekeyed
  {
    if tokenProps != grantProps then
      Rekeyed(grantData, grantKey, Ciphertext(nextKey, tokenProps), nextKey, nextKey + 1)
    else Rekeyed(grantData, grantKey, grantData, grantKey, nextKey)
  }

  /** Code exchange: a callback always re-encrypts the grant's props. */
  function RekeyOnCode(key: CryptoKey, data: Ciphertext, callback: Callback, nextKey: CryptoKey): Rekeyed
    requires !callback.Threw?
  {
    match callback
    case NoCallback => Rekeyed(data, key, data, key, nextKey)
    case Returned(r) =>
      var grantProps := GrantProps(r, data.plain);
      KeyForToken(Ciphertext(nextKey, grantProps), nextKey, TokenProps(r, data.plain), grantProps, nextKey + 1)
  }

  /** Refresh: the grant's props are re-encrypted only when the callback replaced them. */
  function RekeyOnRefresh(key: CryptoKey, data: Ciphertext, callback: Callback, nextKey: CryptoKey): Rekeyed
    requires !callback.Threw?
  {
    match callback
    case NoCallback => Rekeyed(data, key, data, key, nextKey)
    case Returned(r) =>
      var grantProps := GrantProps(r, data.plain);
      if r.Some? && r.value.newProps.Some? then
        KeyForToken(Ciphertext(nextKey, grantProps), nextKey, TokenProps(r, data.plain), grantProps, nextKey + 1)
      else KeyForToken(data, key, TokenProps(r, data.plain), grantProps, nextKey)
  }

  /** Token exchange: only the new token's props can change. */
  function RekeyOnExchange(key: CryptoKey, data: Ciphertext, callback: Callback, nextKey: CryptoKey): Rekeyed
    requires !callback.Threw?
  {
    match callback
    case NoCallback => Rekeyed(data, key, data, key, nextKey)
    case Returned(r) => KeyForToken(data, key, TokenProps(r, data.plain), data.plain, nextKey)
  }

  function CallbackTTL(callback: Callback, ttl: int): int {
    if callback.Returned? && callback.result.Some? && callback.result.value.accessTokenTTL.Some?
    then callback.result.value.accessTokenTTL.value else ttl
  }

  function CallbackScope(callback: Callback, scopes: seq<string>, allowed: seq<string>): (r: seq<string>)
    ensures Within(scopes, allowed) ==> Within(r, allowed)
  {
    if callback.Returned? && callback.result.Some? && callback.result.value.accessTokenScope.Some?
    then Downscope(Many(callback.result.value.accessTokenScope.value), allowed) else scopes
  }

  function CallbackRefreshTTL(callback: Callback, ttl: Option<int>): Option<int> {
    if callback.Returned? && callback.result.Some? && callback.result.value.refreshTokenTTL.Some?
    then callback.result.value.refreshTokenTTL.value else ttl
  }

  // ---------------------------------------------------------------- authorization code grant

  datatype CodeRequest = CodeRequest(
    code: Presented, clientId: string, redirectUri: Option<string>, redirectUriValid: bool,
    codeVerifier: Option<string>, scope: ScopeParam, resource: Option<seq<string>>,
    callback: Callback, callbackTime: nat, mintDelay: nat,
    newRefreshSecret: string, newAccessSecret: string, fault: Fault)

  /** The stored PKCE method is one the server supports. */
  predicate MethodSupported(cfg: Config, g: Grant) {
    var m := if g.codeChallengeMethod.Some? then g.codeChallengeMethod.value else Plain;
    if g.codeChallenge.Some? then m == S256 || (m == Plain && cfg.allowPlainPkce) else m != Unknown
  }

  predicate VerifierMatches(g: Grant, verifier: string)
    requires g.codeChallenge.Some?
  {
    g.codeChallenge.value == if g.codeChallengeMethod == Some(S256) then Hashed(verifier) else Text(verifier)
  }

  datatype CodeCheck = Proceed(grant: Grant) | Replay | Reject(error: Error)

  /** Everything that is checked before the code is consumed, in order. */
  function CheckCode(cfg: Config, s: Store, r: CodeRequest): CodeCheck {
    if r.code.Missing? then Reject(InvalidRequest)
    else if r.code.Malformed? then Reject(InvalidGrant)
    else
      var ref := RefOf(r.code.token);
      if ref !in s.grants then Reject(InvalidGrant)
      else
        var g := s.grants[ref].record;
        if g.authCodeId != Some(Digest(r.code.token)) then Reject(InvalidGrant)
        else if g.clientId != r.clientId then Reject(InvalidGrant)
        else if g.authCodeWrappedKey.None? then Replay
        else if !MethodSupported(cfg, g) then Reject(InvalidGrant)
        else if r.redirectUri.None? && g.codeChallenge.None? then Reject(InvalidRequest)
        else if r.redirectUri.Some? && !r.redirectUriValid then Reject(InvalidGrant)
        else if g.codeChallenge.None? && r.codeVerifier.Some? then Reject(InvalidRequest)
        else if g.codeChallenge.Some? && r.codeVerifier.None? then Reject(InvalidRequest)
        else if g.codeChallenge.Some? && !VerifierMatches(g, r.codeVerifier.value) then Reject(InvalidGrant)
        else if ResolveTokenResource(cfg, r.resource, g.resource).Err? then Reject(InvalidTarget)
        else Proceed(g)
  }

  /** The grant once its code is consumed: the code's hash stays, its wrapped key goes. */
  function ConsumeCode(g: Grant, data: Ciphertext, key: CryptoKey, refreshToken: Option<Bearer>,
                       expiresAt: Option<int>): Grant
  {
    var used := g.(encryptedProps := data, codeChallenge := None, codeChallengeMethod := None,
                   authCodeWrappedKey := None);
    if refreshToken.None? then used
    else used.(refreshTokenId := Some(Digest(refreshToken.value)),
               refreshTokenWrappedKey := Some(WrappedKey(refreshToken.value, key)),
               previousRefreshTokenId := None, previousRefreshTokenWrappedKey := None,
               expiresAt := expiresAt)
  }

  function ExchangeCode(cfg: Config, s: Store, r: CodeRequest): Outcome {
    match CheckCode(cfg, s, r)
    case Reject(e) => Outcome(s, Refused(e))
    case Replay => Outcome(Revoke(s, RefOf(r.code.token)), Refused(InvalidGrant))
    case Proceed(g) =>
      var b, ref := r.code.token, RefOf(r.code.token);
      if Open(b, g.authCodeWrappedKey.value, g.encryptedProps).None? then Outcome(s, Refused(CryptoFailure))
      else if r.callback.Threw? then Outcome(Advance(s, r.callbackTime), Refused(CallbackError))
      else
        var k := RekeyOnCode(g.authCodeWrappedKey.value.key, g.encryptedProps, r.callback, s.nextKey);
        var s1 := Advance(Use(s, {r.newRefreshSecret, r.newAccessSecret}), r.callbackTime).(nextKey := k.nextKey);
        ConsumeAndMint(cfg, s1, r, g, k)
  }

  /** After the callback: consume the code in the grant, then create the access token. */
  function ConsumeAndMint(cfg: Config, s: Store, r: CodeRequest, g: Grant, k: Rekeyed): Outcome
    requires r.code.Parsed? && ResolveTokenResource(cfg, r.resource, g.resource).Ok?
  {
    var b := r.code.token;
    var refreshTTL := CallbackRefreshTTL(r.callback, cfg.refreshTokenTTL);
    var refreshToken := if refreshTTL != Some(0) then Some(Bearer(b.userId, b.grantId, r.newRefreshSecret)) else None;
    var expiresAt := if refreshTTL.Some? then Some(s.now + refreshTTL.value) else None;
    if r.fault.GrantWriteFails? then Outcome(s, Refused(ServerError))
    else
      var s2 := SaveGrantWithTTL(s, RefOf(b), ConsumeCode(g, k.grantData, k.grantKey, refreshToken, expiresAt));
      var scope := CallbackScope(r.callback, Downscope(r.scope, g.scope), g.scope);
      var m := Mint(g.clientId, scope, k.tokenData, k.tokenKey, CallbackTTL(r.callback, cfg.accessTokenTTL),
                    ResolveTokenResource(cfg, r.resource, g.resource).value);
      CreateAccessToken(Advance(s2, r.mintDelay), Bearer(b.userId, b.grantId, r.newAccessSecret), m, refreshToken,
                        r.fault)
  }

  // ---------------------------------------------------------------- refresh token grant

  datatype RefreshRequest = RefreshRequest(
    refreshToken: Presented, clientId: string, scope: ScopeParam, resource: Option<seq<string>>,
    callback: Callback, callbackTime: nat,
    newAccessSecret: string, newRefreshSecret: string, fault: Fault)

  predicate TooCloseToExpiry(now: int, g: Grant) {
    g.expiresAt.Some? && g.expiresAt.value - now < KV_MIN_EXPIRATION_TTL_SECONDS
  }

  function CheckRefresh(cfg: Config, s: Store, r: RefreshRequest): Result<Grant, Error> {
    if r.refreshToken.Missing? then Err(InvalidRequest)
    else if r.refreshToken.Malformed? then Err(InvalidGrant)
    else
      var ref, id := RefOf(r.refreshToken.token), Some(Digest(r.refreshToken.token));
      if ref !in s.grants then Err(InvalidGrant)
      else
        var g := s.grants[ref].record;
        if g.refreshTokenId != id && g.previousRefreshTokenId != id then Err(InvalidGrant)
        else if g.clientId != r.clientId then Err(InvalidGrant)
        else if TooCloseToExpiry(s.now, g) then Err(InvalidGrant)
        else if ResolveTokenResource(cfg, r.resource, g.resource).Err? then Err(InvalidTarget)
        else Ok(g)
  }

  /** The presented token becomes the previous one, the new token the current one. */
  function Rotate(g: Grant, presented: Bearer, newToken: Bearer, data: Ciphertext, key: CryptoKey): Grant {
    g.(encryptedProps := data,
       previousRefreshTokenId := Some(Digest(presented)),
       previousRefreshTokenWrappedKey := Some(WrappedKey(presented, key)),
       refreshTokenId := Some(Digest(newToken)),
       refreshTokenWrappedKey := Some(WrappedKey(newToken, key)))
  }

  /** The lifetime of a refreshed token: at most what is left of the grant. */
  function ClampedTTL(now: int, g: Grant, ttl: int): int {
    if g.expiresAt.Some? && g.expiresAt.value - now > 0 then Min(ttl, g.expiresAt.value - now) else ttl
  }

  /** The wrapped key a presented refresh token is tried on: the current one if it is current. */
  function WrappedKeyFor(g: Grant, presented: Bearer): Option<WrappedKey> {
    if g.refreshTokenId == Some(Digest(presented)) then g.refreshTokenWrappedKey else g.previousRefreshTokenWrappedKey
  }

  function Refresh(cfg: Config, s: Store, r: RefreshRequest): Outcome {
    match CheckRefresh(cfg, s, r)
    case Err(e) => Outcome(s, Refused(e))
    case Ok(g) =>
      var b, ref := r.refreshToken.token, RefOf(r.refreshToken.token);
      var wrapped := WrappedKeyFor(g, b);
      if wrapped.None? || Open(b, wrapped.value, g.encryptedProps).None? then Outcome(s, Refused(CryptoFailure))
      else if r.callback.Threw? then Outcome(Advance(s, r.callbackTime), Refused(CallbackError))
      else if r.callback.Returned? && r.callback.result.Some? && r.callback.result.value.refreshTokenTTL.Some? then
        Outcome(Advance(s, r.callbackTime), Refused(InvalidRequest))
      else
        var k := RekeyOnRefresh(wrapped.value.key, g.encryptedProps, r.callback, s.nextKey);
        var s1 := Advance(Use(s, {r.newRefreshSecret, r.newAccessSecret}), r.callbackTime).(nextKey := k.nextKey);
        RotateAndMint(cfg, s1, r, g, k)
  }

  /** After the callback: re-check the expiry, rotate the grant's tokens, store the access token. */
  function RotateAndMint(cfg: Config, s: Store, r: RefreshRequest, g: Grant, k: Rekeyed): Outcome
    requires r.refreshToken.Parsed? && ResolveTokenResource(cfg, r.resource, g.resource).Ok?
  {
    var b := r.refreshToken.token;
    var ttl := ClampedTTL(s.now, g, CallbackTTL(r.callback, cfg.accessTokenTTL));
    if TooCloseToExpiry(s.now, g) then Outcome(s, Refused(InvalidGrant))
    else if ttl < KV_MIN_EXPIRATION_TTL_SECONDS then Outcome(s, Refused(InvalidRequest))
    else if r.fault.GrantWriteFails? then Outcome(s, Refused(ServerError))
    else
      var newRefresh := Bearer(b.userId, b.grantId, r.newRefreshSecret);
      var newAccess := Bearer(b.userId, b.grantId, r.newAccessSecret);
      var s2 := SaveGrantWithTTL(s, RefOf(b), Rotate(g, b, newRefresh, k.grantData, k.grantKey));
      if r.fault.TokenWriteFails? then Outcome(s2, Refused(ServerError))
      else
        var scope := CallbackScope(r.callback, Downscope(r.scope, g.scope), g.scope);
        var m := Mint(g.clientId, scope, k.tokenData, k.tokenKey, ttl,
                      ResolveTokenResource(cfg, r.resource, g.resource).value);
        Outcome(PutToken(s2, TokenRefOf(newAccess), TokenRecord(s2.now, newAccess, m, g.scope), ttl),
                Issued(newAccess, Some(newRefresh), ttl, scope, m.audience))
  }

  // ---------------------------------------------------------------- token exchange

  datatype ExchangeRequest = ExchangeRequest(
    subjectToken: Presented, scopes: Option<seq<string>>, resource: Option<seq<string>>, expiresIn: Option<int>,
    callback: Callback, callbackTime: nat, newAccessSecret: string, fault: Fault)

  /** `unwrapToken`: the record of an unexpired access token. */
  function FindToken(s: Store, b: Bearer): Option<Token> {
    if TokenRefOf(b) in s.tokens && s.tokens[TokenRefOf(b)].record.expiresAt >= s.now
    then Some(s.tokens[TokenRefOf(b)].record) else None
  }

  function ExchangeAudience(cfg: Config, r: ExchangeRequest, t: Token, g: Grant): Result<Option<seq<string>>, Error> {
    if cfg.configuredResource.Some? && t.audience != Some([cfg.configuredResource.value]) then Err(InvalidTarget)
    else if r.resource.None? then Ok(t.audience)
    else ResolveTokenResource(cfg, r.resource, g.resource)
  }

  function ExchangeScopes(r: ExchangeRequest, t: Token): (scopes: seq<string>)
    ensures Within(scopes, t.scope)
  {
    var requested := if r.scopes.Some? then Downscope(Many(r.scopes.value), t.scope) else t.scope;
    CallbackScope(r.callback, requested, t.scope)
  }

  /** The lifetime of an exchanged token: at most what is left of the subject token. */
  function ExchangeTTL(cfg: Config, r: ExchangeRequest, remaining: int): (ttl: int)
    ensures ttl <= remaining
  {
    var requested := if r.expiresIn.Some? then r.expiresIn.value else cfg.accessTokenTTL;
    Min(CallbackTTL(r.callback, Min(requested, remaining)), remaining)
  }

  function Exchange(cfg: Config, s: Store, r: ExchangeRequest): Outcome {
    if r.subjectToken.Missing? then Outcome(s, Refused(InvalidRequest))
    else if r.subjectToken.Malformed? then Outcome(s, Refused(InvalidGrant))
    else
      var b := r.subjectToken.token;
      var found := FindToken(s, b);
      if found.None? then Outcome(s, Refused(InvalidGrant))
      else
        var t, ref := found.value, RefOf(b);
        if Open(b, t.wrappedEncryptionKey, t.encryptedProps).None? then Outcome(s, Refused(CryptoFailure))
        else if ref !in s.grants then Outcome(s, Refused(InvalidGrant))
        else
          var audience := ExchangeAudience(cfg, r, t, s.grants[ref].record);
          if audience.Err? then Outcome(s, Refused(audience.error))
          else if t.expiresAt - s.now < KV_MIN_EXPIRATION_TTL_SECONDS then Outcome(s, Refused(InvalidGrant))
          else if r.expiresIn.Some? && r.expiresIn.value <= 0 then Outcome(s, Refused(InvalidRequest))
          else if r.callback.Threw? then Outcome(Advance(s, r.callbackTime), Refused(CallbackError))
          else
            var k := RekeyOnExchange(t.wrappedEncryptionKey.key, t.encryptedProps, r.callback, s.nextKey);
            var s1 := Advance(Use(s, {r.newAccessSecret}), r.callbackTime).(nextKey := k.nextKey);
            var m := Mint(t.clientId, ExchangeScopes(r, t), k.tokenData, k.tokenKey,
                          ExchangeTTL(cfg, r, t.expiresAt - s.now), audience.value);
            CreateAccessToken(s1, Bearer(b.userId, b.grantId, r.newAccessSecret), m, None, r.fault)
  }

  // ---------------------------------------------------------------- enterprise-managed authorization

  /** What the deployer's claims mapper answered. */
  datatype Mapped = MapperRefused | MappedTo(userId: string, scope: seq<string>, props: Props,
                                             accessTokenTTL: Option<int>)

  predicate MapperAccepts(m: Mapped, p: Policy) {
    && m.MappedTo? && m.userId != "" && ':' !in m.userId
    && (forall s :: s in m.scope ==> p.validScope(s))
    && (m.accessTokenTTL.Some? ==> m.accessTokenTTL.value > 0)
  }

  datatype EmaRequest = EmaRequest(
    verified: bool, claims: IdJag, clientId: string, policy: Policy, scope: ScopeParam, mapped: Mapped,
    markDelay: nat, mapperDelay: nat, mintDelay: nat,
    grantId: string, newAccessSecret: string, fault: Fault)

  /** One ID-JAG token request: claim checks, replay marker, mapper, lifetime, mint; the clock is
      read afresh before the marker, before the mint and for the token. */
  function MintFromAssertion(cfg: Config, s: Store, r: EmaRequest): Outcome {
    if !r.verified then Outcome(s, Refused(InvalidGrant))
    else
      var checked := ValidateClaims(r.claims, r.clientId, r.policy, s.now);
      if checked.Err? then Outcome(s, Refused(InvalidGrant))
      else
        var s1 := Advance(s, r.markDelay);
        var marker := JtiKey(r.claims);
        if marker in s1.markers then Outcome(s1, Refused(InvalidGrant))
        else
          var ttl := MarkerTTL(r.claims.exp, s1.now);
          var s2 := s1.(markers := s1.markers[marker := s1.now + ttl], lifetimes := s1.lifetimes + [ttl]);
          if ParseScopeParam(r.scope, checked.value.scopes, r.policy).Err? then Outcome(s2, Refused(InvalidRequest))
          else if !MapperAccepts(r.mapped, r.policy) then Outcome(Advance(s2, r.mapperDelay), Refused(InvalidGrant))
          else
            var s3 := Advance(s2, r.mapperDelay);
            var lifetime := AccessTokenTTL(cfg.accessTokenTTL, r.claims.exp, r.mapped.accessTokenTTL, s3.now,
                                           KV_MIN_EXPIRATION_TTL_SECONDS);
            if lifetime.Err? then Outcome(s3, Refused(InvalidGrant))
            else IssueFromAssertion(s3, r, checked.value, lifetime.value)
  }

  function IssueFromAssertion(s: Store, r: EmaRequest, checked: ValidIdJag, ttl: int): Outcome
    requires r.mapped.MappedTo?
  {
    var scope := if checked.scopes != [] then Downscope(Many(r.mapped.scope), checked.scopes) else r.mapped.scope;
    var data, key := Ciphertext(s.nextKey, r.mapped.props), s.nextKey;
    var s1 := Use(s, {r.grantId, r.newAccessSecret}).(nextKey := key + 1);
    var g := Grant(r.grantId, r.clientId, r.mapped.userId, scope, data, Some(s.now + ttl),
                   None, None, None, None, None, None, None, None, Some([checked.resource]), None);
    if r.fault.GrantWriteFails? then Outcome(s1, Refused(ServerError))
    else
      var s2 := SaveGrantWithTTL(s1, GrantRef(r.mapped.userId, r.grantId), g);
      var m := Mint(r.clientId, scope, data, key, ttl, Some([checked.resource]));
      CreateAccessToken(Advance(s2, r.mintDelay), Bearer(r.mapped.userId, r.grantId, r.newAccessSecret), m, None,
                        r.fault)
  }

  // ---------------------------------------------------------------- revocation (RFC 7009)

  predicate OwnsAccessToken(s: Store, b: Bearer, clientId: string) {
    TokenRefOf(b) in s.tokens && s.tokens[TokenRefOf(b)].record.clientId == clientId
  }

  predicate OwnsRefreshToken(s: Store, b: Bearer, clientId: string) {
    RefOf(b) in s.grants &&
    var g := s.grants[RefOf(b)].record;
    (g.refreshTokenId == Some(Digest(b)) || g.previousRefreshTokenId == Some(Digest(b))) && g.clientId == clientId
  }

  /** An access token goes alone, a refresh token takes its grant along. */
  function RevokeToken(s: Store, presented: Presented, clientId: string, refreshFirst: bool): Outcome {
    if presented.Missing? then Outcome(s, Refused(InvalidRequest))
    else if presented.Malformed? then Outcome(s, Done)
    else
      var b := presented.token;
      var access, refresh := OwnsAccessToken(s, b, clientId), OwnsRefreshToken(s, b, clientId);
      if refresh && (refreshFirst || !access) then Outcome(Revoke(s, RefOf(b)), Done)
      else if access then Outcome(s.(tokens := s.tokens - {TokenRefOf(b)}), Done)
      else Outcome(s, Done)
  }

  // ---------------------------------------------------------------- runs

  /** `Remove` is any loss of records: KV eviction, a purge, the deletion of a client. `Tick` lets
      time pass and may evict replay markers whose lifetime is over. */
  datatype Event =
    | AuthorizeEvent(a: AuthorizeRequest)
    | CodeEvent(c: CodeRequest)
    | RefreshEvent(r: RefreshRequest)
    | ExchangeEvent(x: ExchangeRequest)
    | EmaEvent(m: EmaRequest)
    | RevokeEvent(token: Presented, clientId: string, refreshFirst: bool)
    | Remove(grants: set<GrantRef>, tokens: set<TokenRef>)
    | Tick(seconds: nat, evicted: set<string>)

  function Step(cfg: Config, s: Store, e: Event): Outcome {
    match e
    case AuthorizeEvent(a) => Authorize(cfg, s, a)
    case CodeEvent(c) => ExchangeCode(cfg, s, c)
    case RefreshEvent(r) => Refresh(cfg, s, r)
    case ExchangeEvent(x) => Exchange(cfg, s, x)
    case EmaEvent(m) => MintFromAssertion(cfg, s, m)
    case RevokeEvent(token, clientId, refreshFirst) => RevokeToken(s, token, clientId, refreshFirst)
    case Remove(grants, tokens) => Outcome(s.(grants := s.grants - grants, tokens := s.tokens - tokens), Done)
    case Tick(seconds, evicted) =>
      var s1 := Advance(s, seconds);
      Outcome(s1.(markers := map k | k in s1.markers && !(k in evicted && s1.markers[k] <= s1.now) :: s1.markers[k]),
              Done)
  }

  /** The random strings a step draws are new and distinct. */
  predicate Fresh(s: Store, e: Event) {
    match e
    case AuthorizeEvent(a) => a.grantId !in s.used && a.secret !in s.used && a.grantId != a.secret
    case CodeEvent(c) => c.newRefreshSecret !in s.used && c.newAccessSecret !in s.used &&
                         c.newRefreshSecret != c.newAccessSecret
    case RefreshEvent(r) => r.newRefreshSecret !in s.used && r.newAccessSecret !in s.used &&
                            r.newRefreshSecret != r.newAccessSecret
    case ExchangeEvent(x) => x.newAccessSecret !in s.used
    case EmaEvent(m) => m.grantId !in s.used && m.newAccessSecret !in s.used && m.grantId != m.newAccessSecret
    case _ => true
  }

  function Run(cfg: Config, s: Store, events: seq<Event>): Store
    decreases |events|
  {
    if events == [] then s else Run(cfg, Step(cfg, s, events[0]).store, events[1..])
  }

  predicate FreshRun(cfg: Config, s: Store, events: seq<Event>)
    decreases |events|
  {
    events == [] || (Fresh(s, events[0]) && FreshRun(cfg, Step(cfg, s, events[0]).store, events[1..]))
  }
}
