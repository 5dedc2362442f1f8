/** What each handler stores and answers, field by field, in terms of the request and of what was stored
    before (repos/workers-oauth-provider/src/oauth-provider.ts). */
module LifecycleEffects {
  import opened Wrappers
  import opened OAuthTypes
  import opened EmaClaims
  import opened GrantLifecycle
  import opened LifecycleInvariants
  import opened LifecycleTheorems
  import opened Texts

  /** The scopes of a new token: those that the callback names, or else those that the request asks for,
      as far as they are allowed. */
  ghost predicate ScopeAsAsked(callback: Callback, asked: ScopeParam, allowed: seq<string>, scope: seq<string>) {
    forall x :: x in scope <==>
      x in allowed &&
      if Gave(callback) && callback.result.value.accessTokenScope.Some?
      then x in callback.result.value.accessTokenScope.value
      else Requested(asked, x)
  }

  lemma ScopeIsAsAsked(callback: Callback, asked: ScopeParam, allowed: seq<string>)
    ensures ScopeAsAsked(callback, asked, allowed, CallbackScope(callback, Downscope(asked, allowed), allowed))
  {
    hide Downscope, Requested;
    forall x ensures x in Downscope(asked, allowed) <==> Requested(asked, x) && x in allowed {
      DownscopeKeeps(asked, allowed, x);
    }
    if Gave(callback) && callback.result.value.accessTokenScope.Some? {
      var given := Many(callback.result.value.accessTokenScope.value);
      forall x ensures x in Downscope(given, allowed) <==> Requested(given, x) && x in allowed {
        DownscopeKeeps(given, allowed, x);
      }
      assert forall x :: Requested(given, x) <==> x in callback.result.value.accessTokenScope.value by {
        RequestedMany(given.scopes);
      }
    }
  }

  lemma RequestedMany(scopes: seq<string>)
    ensures forall x :: Requested(Many(scopes), x) <==> x in scopes
  {
  }

  /** The access token record of this token is stored, with its own expiry as that of the record. What it
      holds of the grant's scope is the token's own, except after a refresh. */
  ghost predicate TokenStoredAs(s: Store, s': Store, a: Bearer, clientId: string, scope: seq<string>,
                                grantScope: seq<string>, audience: Option<seq<string>>, expiresAt: int) {
    var ref := TokenRefOf(a);
    && ref in s'.tokens && s'.tokens == s.tokens[ref := s'.tokens[ref]]
    && s'.tokens[ref].expiration == Some(expiresAt)
    && var t := s'.tokens[ref].record;
    && t.id == Digest(a) && t.userId == a.userId && t.grantId == a.grantId && t.clientId == clientId
    && t.scope == scope && t.grantScope == grantScope && t.audience == audience && t.expiresAt == expiresAt
  }

  /** KV keeps a grant until it expires, but at least 65 seconds. */
  predicate KeptLongEnough(x: Stored<Grant>, now: int) {
    if x.record.expiresAt.None? then x.expiration.None?
    else x.expiration == Some(if x.record.expiresAt.value < now + 65 then now + 65 else x.record.expiresAt.value)
  }

  // ---------------------------------------------------------------- authorization code grant

  lemma CodeExchangeStores(cfg: Config, s: Store, r: CodeRequest)
    requires ExchangeCode(cfg, s, r).response.Issued?
    ensures r.code.Parsed? && RefOf(r.code.token) in s.grants
    ensures var s', issued := ExchangeCode(cfg, s, r).store, ExchangeCode(cfg, s, r).response;
      var b, g, at := r.code.token, s.grants[RefOf(r.code.token)].record, s.now + r.callbackTime;
      var ttl := if Gave(r.callback) && r.callback.result.value.refreshTokenTTL.Some?
                 then r.callback.result.value.refreshTokenTTL.value else cfg.refreshTokenTTL;
      && issued.accessToken == Bearer(b.userId, b.grantId, r.newAccessSecret)
      && issued.refreshToken == (if ttl == Some(0) then None else Some(Bearer(b.userId, b.grantId, r.newRefreshSecret)))
      && issued.expiresIn == (if Gave(r.callback) && r.callback.result.value.accessTokenTTL.Some?
                              then r.callback.result.value.accessTokenTTL.value else cfg.accessTokenTTL)
      && ScopeAsAsked(r.callback, r.scope, g.scope, issued.scope)
      && ResolveTokenResource(cfg, r.resource, g.resource) == Ok(issued.audience)
      && s'.now == at + r.mintDelay
      && TokenStoredAs(s, s', issued.accessToken, g.clientId, issued.scope, issued.scope, issued.audience,
                       s'.now + issued.expiresIn)
      // the grant: the code is used up, and the refresh token, if any, is its first
      && RefOf(b) in s'.grants && s'.grants == s.grants[RefOf(b) := s'.grants[RefOf(b)]]
      && KeptLongEnough(s'.grants[RefOf(b)], at)
      && var g' := s'.grants[RefOf(b)].record;
      && g'.authCodeId == g.authCodeId && g'.authCodeWrappedKey.None?
      && g'.codeChallenge.None? && g'.codeChallengeMethod.None?
      && g'.id == g.id && g'.userId == g.userId && g'.clientId == g.clientId && g'.scope == g.scope
      && g'.resource == g.resource && g'.redirectUri == g.redirectUri
      && if issued.refreshToken.None? then
           g'.refreshTokenId == g.refreshTokenId && g'.previousRefreshTokenId == g.previousRefreshTokenId
           && g'.expiresAt == g.expiresAt
         else
           g'.refreshTokenId == Some(Digest(issued.refreshToken.value)) && g'.previousRefreshTokenId.None?
           && g'.expiresAt == if ttl.None? then None else Some(at + ttl.value)
  {
    hide CheckCode, ResolveTokenResource, RekeyOnCode, CallbackScope, Downscope;
    var g := CheckCode(cfg, s, r).grant;
    CheckedCode(cfg, s, r, g);
    ScopeIsAsAsked(r.callback, r.scope, g.scope);
  }

  // ---------------------------------------------------------------- refresh token grant

  lemma RefreshStores(cfg: Config, s: Store, r: RefreshRequest)
    requires Refresh(cfg, s, r).response.Issued?
    ensures r.refreshToken.Parsed? && RefOf(r.refreshToken.token) in s.grants
    ensures var s', issued := Refresh(cfg, s, r).store, Refresh(cfg, s, r).response;
      var b, g := r.refreshToken.token, s.grants[RefOf(r.refreshToken.token)].record;
      var ttl := if Gave(r.callback) && r.callback.result.value.accessTokenTTL.Some?
                 then r.callback.result.value.accessTokenTTL.value else cfg.accessTokenTTL;
      && s'.now == s.now + r.callbackTime
      && issued.accessToken == Bearer(b.userId, b.grantId, r.newAccessSecret)
      && issued.refreshToken == Some(Bearer(b.userId, b.grantId, r.newRefreshSecret))
      // the lifetime asked for, or what is left of the grant
      && issued.expiresIn == (if g.expiresAt.Some? && g.expiresAt.value - s'.now < ttl
                              then g.expiresAt.value - s'.now else ttl)
      && ScopeAsAsked(r.callback, r.scope, g.scope, issued.scope)
      && ResolveTokenResource(cfg, r.resource, g.resource) == Ok(issued.audience)
      && TokenStoredAs(s, s', issued.accessToken, g.clientId, issued.scope, g.scope, issued.audience,
                       s'.now + issued.expiresIn)
      // the grant: the presented token, current or previous until now, is the previous one, the new one current
      && (g.refreshTokenId == Some(Digest(b)) || g.previousRefreshTokenId == Some(Digest(b)))
      && RefOf(b) in s'.grants && s'.grants == s.grants[RefOf(b) := s'.grants[RefOf(b)]]
      && KeptLongEnough(s'.grants[RefOf(b)], s'.now)
      && var g' := s'.grants[RefOf(b)].record;
      && g'.refreshTokenId == Some(Digest(issued.refreshToken.value)) && g'.previousRefreshTokenId == Some(Digest(b))
      && g'.expiresAt == g.expiresAt
      && g'.authCodeId == g.authCodeId && g'.authCodeWrappedKey == g.authCodeWrappedKey
      && g'.codeChallenge == g.codeChallenge && g'.codeChallengeMethod == g.codeChallengeMethod
      && g'.id == g.id && g'.userId == g.userId && g'.clientId == g.clientId && g'.scope == g.scope
      && g'.resource == g.resource && g'.redirectUri == g.redirectUri
  {
    hide CheckRefresh, ResolveTokenResource, RekeyOnRefresh, CallbackScope, Downscope;
    var g := CheckRefresh(cfg, s, r).value;
    CheckedRefresh(cfg, s, r, g);
    ScopeIsAsAsked(r.callback, r.scope, g.scope);
  }

  // ---------------------------------------------------------------- token exchange

  lemma ExchangeStores(cfg: Config, s: Store, r: ExchangeRequest)
    requires Exchange(cfg, s, r).response.Issued?
    ensures r.subjectToken.Parsed? && TokenRefOf(r.subjectToken.token) in s.tokens
    ensures RefOf(r.subjectToken.token) in s.grants
    ensures var s', issued := Exchange(cfg, s, r).store, Exchange(cfg, s, r).response;
      var b, t := r.subjectToken.token, s.tokens[TokenRefOf(r.subjectToken.token)].record;
      var ttl := if Gave(r.callback) && r.callback.result.value.accessTokenTTL.Some?
                 then r.callback.result.value.accessTokenTTL.value
                 else if r.expiresIn.Some? then r.expiresIn.value else cfg.accessTokenTTL;
      && s'.now == s.now + r.callbackTime && s'.grants == s.grants
      && issued.accessToken == Bearer(b.userId, b.grantId, r.newAccessSecret) && issued.refreshToken.None?
      // the lifetime asked for, or what was left of the subject token when the handler looked
      && issued.expiresIn == (if t.expiresAt - s.now < ttl then t.expiresAt - s.now else ttl)
      && ScopeAsAsked(r.callback, if r.scopes.Some? then Many(r.scopes.value) else Absent, t.scope, issued.scope)
      && TokenStoredAs(s, s', issued.accessToken, t.clientId, issued.scope, issued.scope, issued.audience,
                       s'.now + issued.expiresIn)
      // without a resource in the request the audience is the subject token's, and it is never another
      // than the configured one
      && (cfg.configuredResource.Some? ==> t.audience == Some([cfg.configuredResource.value]))
      && (r.resource.None? ==> issued.audience == t.audience)
      && (r.resource.Some? ==>
            ResolveTokenResource(cfg, r.resource, s.grants[RefOf(b)].record.resource) == Ok(issued.audience))
  {
    hide ResolveTokenResource, RekeyOnExchange, CallbackScope, Downscope;
    var t := s.tokens[TokenRefOf(r.subjectToken.token)].record;
    ScopeIsAsAsked(r.callback, if r.scopes.Some? then Many(r.scopes.value) else Absent, t.scope);
    AbsentAsksForAll(t.scope);
  }

  lemma AbsentAsksForAll(allowed: seq<string>)
    ensures Downscope(Absent, allowed) == allowed
  {
  }

  // ---------------------------------------------------------------- enterprise-managed authorization

  /** Exactly when an assertion is turned into a token; `ClaimsAcceptedExactlyWhen` has the first line. */
  lemma AssertionMintsExactlyWhen(cfg: Config, s: Store, r: EmaRequest)
    ensures MintFromAssertion(cfg, s, r).response.Issued? <==>
      && r.verified && ValidateClaims(r.claims, r.clientId, r.policy, s.now).Ok?
      && r.claims.iss + "\n" + r.claims.jti !in s.markers
      && !(exists w :: Written(r.scope, w) && !r.policy.validScope(w))
      && r.mapped.MappedTo? && r.mapped.userId != "" && ':' !in r.mapped.userId
      && (forall x :: x in r.mapped.scope ==> r.policy.validScope(x))
      && (r.mapped.accessTokenTTL.Some? ==> r.mapped.accessTokenTTL.value > 0)
      && s.now + r.markDelay + r.mapperDelay < r.claims.exp
      && 60 <= (if r.mapped.accessTokenTTL.Some? then r.mapped.accessTokenTTL.value else cfg.accessTokenTTL)
      && r.fault == NoFault
  {
    hide ValidateClaims, ParseScopeParam, Written, Downscope, GrantExpiration;
    var checked := ValidateClaims(r.claims, r.clientId, r.policy, s.now);
    if checked.Ok? { ParseScopeParamExactly(r.scope, checked.value.scopes, r.policy); }
  }

  /** What a mint stores and answers: user, props, scope and lifetime are the mapper's, the client is the one
      that asks, and the audience is the asserted resource. */
  lemma MintStores(cfg: Config, s: Store, r: EmaRequest)
    requires MintFromAssertion(cfg, s, r).response.Issued?
    ensures r.mapped.MappedTo?
    ensures var s', issued := MintFromAssertion(cfg, s, r).store, MintFromAssertion(cfg, s, r).response;
      var c, m, at := r.claims, r.mapped, s.now + r.markDelay + r.mapperDelay;
      var ref, resource := GrantRef(m.userId, r.grantId),
                           if c.resource.Some? then c.resource.value else r.policy.configuredResource;
      && s'.now == at + r.mintDelay
      && issued.accessToken == Bearer(m.userId, r.grantId, r.newAccessSecret) && issued.refreshToken.None?
      && issued.expiresIn == (if m.accessTokenTTL.Some? then m.accessTokenTTL.value else cfg.accessTokenTTL)
      && issued.audience == Some([resource])
      && (forall x :: x in issued.scope <==>
            x in m.scope && (AssertsScopes(c) ==> x != "" && PartOf(c.scope.value, ' ', x)))
      && TokenStoredAs(s, s', issued.accessToken, r.clientId, issued.scope, issued.scope, issued.audience,
                       s'.now + issued.expiresIn)
      && Open(issued.accessToken, s'.tokens[TokenRefOf(issued.accessToken)].record.wrappedEncryptionKey,
              s'.tokens[TokenRefOf(issued.accessToken)].record.encryptedProps) == Some(m.props)
      && ref in s'.grants && s'.grants == s.grants[ref := s'.grants[ref]] && KeptLongEnough(s'.grants[ref], at)
      && var g := s'.grants[ref].record;
      && g.id == r.grantId && g.userId == m.userId && g.clientId == r.clientId && g.scope == issued.scope
      && g.resource == Some([resource]) && g.encryptedProps.plain == m.props
      && g.expiresAt == Some(at + issued.expiresIn)
      && g.refreshTokenId.None? && g.previousRefreshTokenId.None? && g.authCodeId.None? && g.authCodeWrappedKey.None?
  {
    hide ValidateClaims, ParseScopeParam, Downscope, PartOf;
    var checked := ValidateClaims(r.claims, r.clientId, r.policy, s.now);
    ClaimsAcceptedExactlyWhen(r.claims, r.clientId, r.policy, s.now);
    SomeScope(r.claims, checked.value.scopes);
    MappedScopes(r.mapped.scope, checked.value.scopes);
  }

  /** The assertion names some scope. */
  ghost predicate AssertsScopes(c: IdJag) {
    c.scope.Some? && exists w :: w != "" && PartOf(c.scope.value, ' ', w)
  }

  lemma SomeScope(c: IdJag, scopes: seq<string>)
    requires forall w :: w in scopes <==> c.scope.Some? && w != "" && PartOf(c.scope.value, ' ', w)
    ensures scopes != [] <==> AssertsScopes(c)
  {
    if scopes != [] { assert scopes[0] in scopes; }
  }

  lemma MappedScopes(mapped: seq<string>, asserted: seq<string>)
    ensures forall x :: x in Downscope(Many(mapped), asserted) <==> x in mapped && x in asserted
  {
    forall x ensures x in Downscope(Many(mapped), asserted) <==> x in mapped && x in asserted {
      DownscopeKeeps(Many(mapped), asserted, x);
    }
  }

  // ---------------------------------------------------------------- authorization

  /** The authorization asks to replace this grant. */
  ghost predicate ToReplace(a: AuthorizeRequest, ref: GrantRef, g: Grant) {
    && a.revokeExisting && ref.userId == a.userId && g.clientId == a.clientId
    && (a.isMetadataClient ==> g.redirectUri == Some(a.redirectUri))
  }

  /** What an authorization stores. */
  lemma AuthorizeStores(cfg: Config, s: Store, a: AuthorizeRequest)
    requires Inv(s) && Fresh(s, AuthorizeEvent(a)) && a.accepted
    ensures var s', response := Authorize(cfg, s, a).store, Authorize(cfg, s, a).response;
      var b, ref := Bearer(a.userId, a.grantId, a.secret), GrantRef(a.userId, a.grantId);
      && s'.now == s.now && ref in s'.grants
      && response == (if a.isImplicit then Issued(b, None, cfg.accessTokenTTL, a.scope, a.resource) else Authorized(b))
      && var x := s'.grants[ref];
      && x.record.id == a.grantId && x.record.userId == a.userId && x.record.clientId == a.clientId
      && x.record.scope == a.scope && x.record.resource == a.resource && x.record.redirectUri == Some(a.redirectUri)
      && x.record.encryptedProps.plain == a.props && x.record.expiresAt.None?
      && x.record.refreshTokenId.None? && x.record.previousRefreshTokenId.None?
      // a code is stored with its challenge for ten minutes, and opens the props
      && (if a.isImplicit then x.expiration.None? && x.record.authCodeId.None? && x.record.authCodeWrappedKey.None?
          else && x.expiration == Some(s.now + 600) && x.record.authCodeId == Some(Digest(b))
               && x.record.codeChallenge == a.codeChallenge && x.record.codeChallengeMethod == a.codeChallengeMethod
               && x.record.authCodeWrappedKey.Some?
               && Open(b, x.record.authCodeWrappedKey.value, x.record.encryptedProps) == Some(a.props))
      // the token of an implicit flow
      && (TokenRefOf(b) in s'.tokens <==> a.isImplicit)
      && (a.isImplicit ==>
            var t := s'.tokens[TokenRefOf(b)];
            && t.expiration == Some(s.now + cfg.accessTokenTTL) && t.record.expiresAt == s.now + cfg.accessTokenTTL
            && t.record.clientId == a.clientId && t.record.scope == a.scope && t.record.audience == a.resource
            && Open(b, t.record.wrappedEncryptionKey, t.record.encryptedProps) == Some(a.props))
  {
    hide Inv;
    FreshGrant(s, a);
  }

  /** Of the other records exactly those go that the authorization replaces. */
  lemma AuthorizeReplaces(cfg: Config, s: Store, a: AuthorizeRequest)
    requires a.accepted
    ensures var s', b, ref := Authorize(cfg, s, a).store, Bearer(a.userId, a.grantId, a.secret),
                              GrantRef(a.userId, a.grantId);
      && (forall r :: r != ref ==> (r in s'.grants <==> r in s.grants && !ToReplace(a, r, s.grants[r].record)))
      && (forall r :: r != ref && r in s'.grants ==> s'.grants[r] == s.grants[r])
      && (forall t :: t != TokenRefOf(b) ==>
            (t in s'.tokens <==>
               t in s.tokens && var r := GrantRef(t.userId, t.grantId); r in s.grants ==>
                 !ToReplace(a, r, s.grants[r].record)))
      && (forall t :: t != TokenRefOf(b) && t in s'.tokens ==> s'.tokens[t] == s.tokens[t])
  {
  }

  lemma FreshGrant(s: Store, a: AuthorizeRequest)
    requires Inv(s) && a.grantId !in s.used
    ensures GrantRef(a.userId, a.grantId) !in s.grants
    ensures TokenRefOf(Bearer(a.userId, a.grantId, a.secret)) !in s.tokens
  {
  }

  lemma RefusedAuthorizationChangesNothing(cfg: Config, s: Store, a: AuthorizeRequest)
    requires !a.accepted
    ensures Authorize(cfg, s, a) == Outcome(s, Refused(InvalidRequest))
  {
  }

  // ---------------------------------------------------------------- revocation (RFC 7009)

  /** What a revocation takes away: of the client's own tokens an access token alone, a refresh token,
      current or previous, with its grant and all access tokens of that grant. Where a text is both, the
      hint decides. Any other text, and any other client, takes nothing. */
  lemma RevocationTakes(s: Store, presented: Presented, clientId: string, refreshFirst: bool)
    ensures presented.Missing? ==>
      RevokeToken(s, presented, clientId, refreshFirst) == Outcome(s, Refused(InvalidRequest))
    ensures presented.Malformed? ==> RevokeToken(s, presented, clientId, refreshFirst) == Outcome(s, Done)
    ensures presented.Parsed? ==>
      var s', response := RevokeToken(s, presented, clientId, refreshFirst).store,
                          RevokeToken(s, presented, clientId, refreshFirst).response;
      var b, ref, t := presented.token, RefOf(presented.token), TokenRefOf(presented.token);
      var access := t in s.tokens && s.tokens[t].record.clientId == clientId;
      var refresh := ref in s.grants && s.grants[ref].record.clientId == clientId &&
                     (s.grants[ref].record.refreshTokenId == Some(Digest(b)) ||
                      s.grants[ref].record.previousRefreshTokenId == Some(Digest(b)));
      && response == Done
      && (access ==> t !in s'.tokens && FindToken(s', b).None?)
      && (access && !(refresh && refreshFirst) ==> s' == s.(tokens := s.tokens - {t}))
      && (refresh && !(access && !refreshFirst) ==>
            && s' == s.(grants := s.grants - {ref}, tokens := s'.tokens)
            && (forall u :: u in s'.tokens <==> u in s.tokens && (u.userId != b.userId || u.grantId != b.grantId))
            && (forall u :: u in s'.tokens ==> s'.tokens[u] == s.tokens[u]))
      && (!access && !refresh ==> s' == s)
  {
  }

  /** No access token is stored under the hash of a refresh token of its grant. */
  ghost predicate KindsApart(s: Store) {
    forall t :: t in s.tokens && GrantRef(t.userId, t.grantId) in s.grants ==>
      var g := s.grants[GrantRef(t.userId, t.grantId)].record;
      g.refreshTokenId != Some(t.id) && g.previousRefreshTokenId != Some(t.id)
  }

  /** Only an answer with a token stores one. */
  lemma NewTokensAreIssued(cfg: Config, s: Store, e: Event)
    requires !Step(cfg, s, e).response.Issued?
    ensures forall t :: t in Step(cfg, s, e).store.tokens ==> t in s.tokens
  {
    hide CheckCode, CheckRefresh, ResolveTokenResource, ValidateClaims, ParseScopeParam, MapperAccepts, RekeyOnCode,
         RekeyOnRefresh, RekeyOnExchange, ExchangeAudience, ExchangeScopes, CallbackScope, Downscope, ConsumeCode,
         Rotate, AccessTokenTTL, Open;
  }

  /** A step gives a new access token and a new refresh token different secrets. */
  lemma NewKindsApart(cfg: Config, s: Store, e: Event, t: TokenRef)
    requires Inv(s) && Fresh(s, e)
    requires t in Step(cfg, s, e).store.tokens && t !in s.tokens
    requires GrantRef(t.userId, t.grantId) in Step(cfg, s, e).store.grants
    ensures var g := Step(cfg, s, e).store.grants[GrantRef(t.userId, t.grantId)].record;
      forall id :: id in {g.refreshTokenId, g.previousRefreshTokenId} && id.Some? ==>
        id.value.of.secret in s.used || id.value.of.secret != t.id.of.secret
  {
    hide Inv, GrantOk, KeptLongEnough, ScopeAsAsked, ToReplace, AssertsScopes, ResolveTokenResource, ExchangeCode,
         Refresh, Exchange, MintFromAssertion, Authorize;
    NewTokenIsIssued(cfg, s, e, t);
    match e
    case AuthorizeEvent(a) =>
      AuthorizeIssues(cfg, s, a);
      AuthorizeStores(cfg, s, a);
      AuthorizeReplaces(cfg, s, a);
    case CodeEvent(r) => CodeExchangeStores(cfg, s, r); DrawnSecrets(s, RefOf(r.code.token));
    case RefreshEvent(r) => RefreshStores(cfg, s, r); DrawnSecrets(s, RefOf(r.refreshToken.token));
    case ExchangeEvent(r) => ExchangeStores(cfg, s, r); DrawnSecrets(s, RefOf(r.subjectToken.token));
    case EmaEvent(r) => MintStores(cfg, s, r);
    case _ =>
  }

  lemma NewTokenIsIssued(cfg: Config, s: Store, e: Event, t: TokenRef)
    requires t in Step(cfg, s, e).store.tokens && t !in s.tokens
    ensures Step(cfg, s, e).response.Issued?
  {
    hide Step;
    if !Step(cfg, s, e).response.Issued? { NewTokensAreIssued(cfg, s, e); }
  }

  lemma AuthorizeIssues(cfg: Config, s: Store, a: AuthorizeRequest)
    ensures Authorize(cfg, s, a).response.Issued? ==> a.accepted
  {
  }

  lemma DrawnSecrets(s: Store, ref: GrantRef)
    requires Inv(s) && ref in s.grants
    ensures var g := s.grants[ref].record;
      forall id :: id in {g.refreshTokenId, g.previousRefreshTokenId} && id.Some? ==> id.value.of.secret in s.used
  {
    assert GrantOk(s, ref, s.grants[ref].record);
  }

  lemma StepKeepsKindsApart(cfg: Config, s: Store, e: Event)
    requires Inv(s) && KindsApart(s) && Fresh(s, e)
    ensures KindsApart(Step(cfg, s, e).store)
  {
    hide Inv, Step, Fresh, GrantOk, TokenOk;
    var s' := Step(cfg, s, e).store;
    StepIsLater(cfg, s, e);
    SecretsAreUsed(s);
    forall t | t in s'.tokens && GrantRef(t.userId, t.grantId) in s'.grants
      ensures var g := s'.grants[GrantRef(t.userId, t.grantId)].record;
        g.refreshTokenId != Some(t.id) && g.previousRefreshTokenId != Some(t.id)
    {
      var ref := GrantRef(t.userId, t.grantId);
      if t !in s.tokens { NewKindsApart(cfg, s, e, t); }
      if ref in s.grants { DrawnSecrets(s, ref); }
    }
  }

  lemma {:induction false} RunKeepsKindsApart(cfg: Config, s: Store, events: seq<Event>)
    requires cfg.Valid() && Inv(s) && KindsApart(s) && FreshRun(cfg, s, events)
    ensures Inv(Run(cfg, s, events)) && KindsApart(Run(cfg, s, events))
    decreases |events|
  {
    hide Inv, KindsApart;
    if events != [] {
      StepKeepsInv(cfg, s, events[0]);
      StepKeepsKindsApart(cfg, s, events[0]);
      RunKeepsKindsApart(cfg, Step(cfg, s, events[0]).store, events[1..]);
    }
  }

  /** In every run, a client that posts a refresh token of its grant, current or previous, ends the grant
      whatever the hint is: none of its tokens is accepted any more (`DeadIsRefused`). */
  lemma RefreshTokenRevokesItsGrant(cfg: Config, start: int, events: seq<Event>, b: Bearer, clientId: string,
                                    refreshFirst: bool)
    requires cfg.Valid() && FreshRun(cfg, InitialStore(start), events)
    requires var s := Run(cfg, InitialStore(start), events);
      RefOf(b) in s.grants && var g := s.grants[RefOf(b)].record;
      g.clientId == clientId && (g.refreshTokenId == Some(Digest(b)) || g.previousRefreshTokenId == Some(Digest(b)))
    ensures var s := Run(cfg, InitialStore(start), events);
      Dead(RevokeToken(s, Parsed(b), clientId, refreshFirst).store, RefOf(b))
  {
    hide Inv, RevokeToken, FreshRun, Run;
    var s := Run(cfg, InitialStore(start), events);
    NothingStoredYet(start);
    RunKeepsKindsApart(cfg, InitialStore(start), events);
    KnownGrantId(s, RefOf(b));
    RevocationTakes(s, Parsed(b), clientId, refreshFirst);
  }

  lemma NothingStoredYet(start: int)
    ensures Inv(InitialStore(start)) && KindsApart(InitialStore(start))
  {
  }

  // ---------------------------------------------------------------- refusals

  /** The lifetime that the new access token asks for. */
  function AskedFor(callback: Callback, otherwise: int): int {
    if Gave(callback) && callback.result.value.accessTokenTTL.Some? then callback.result.value.accessTokenTTL.value
    else otherwise
  }

  /** The unused code of a stored grant, presented by its client. */
  predicate OwnUnusedCode(s: Store, r: CodeRequest) {
    r.code.Parsed? && RefOf(r.code.token) in s.grants &&
    var g := s.grants[RefOf(r.code.token)].record;
    g.authCodeId == Some(Digest(r.code.token)) && g.authCodeWrappedKey.Some? && g.clientId == r.clientId
  }

  /** The request leaves out what the authorization calls for, or gives what it does not. */
  predicate PkceIncomplete(r: CodeRequest, g: Grant) {
    if g.codeChallenge.None? then r.redirectUri.None? || (r.redirectUriValid && r.codeVerifier.Some?)
    else (r.redirectUri.None? || r.redirectUriValid) && r.codeVerifier.None?
  }

  /** Why a code is refused, with which answer. */
  lemma CodeRefusals(cfg: Config, s: Store, r: CodeRequest)
    requires cfg.Valid() && Inv(s)
    ensures r.code.Missing? ==> ExchangeCode(cfg, s, r) == Outcome(s, Refused(InvalidRequest))
    ensures !r.code.Missing? && !OwnUnusedCode(s, r) ==> ExchangeCode(cfg, s, r).response == Refused(InvalidGrant)
    ensures OwnUnusedCode(s, r) ==>
      var g, answer, ttl := s.grants[RefOf(r.code.token)].record, ExchangeCode(cfg, s, r).response,
                            AskedFor(r.callback, cfg.accessTokenTTL);
      var supported := g.codeChallengeMethod != Some(Unknown) &&
                       (g.codeChallenge.Some? && g.codeChallengeMethod != Some(S256) ==> cfg.allowPlainPkce);
      var passes := PkceSatisfied(cfg, g.codeChallenge, g.codeChallengeMethod, r.codeVerifier) &&
                    if r.redirectUri.Some? then r.redirectUriValid else g.codeChallenge.Some?;
      if !passes then
        ExchangeCode(cfg, s, r) ==
          Outcome(s, Refused(if supported && PkceIncomplete(r, g) then InvalidRequest else InvalidGrant))
      else if ResolveTokenResource(cfg, r.resource, g.resource).Err? then
        ExchangeCode(cfg, s, r) == Outcome(s, Refused(InvalidTarget))
      else if r.callback.Threw? then answer == Refused(CallbackError)
      else if r.fault.GrantWriteFails? then answer == Refused(ServerError)
      else if ttl < 60 then answer == Refused(InvalidRequest)
      else if r.fault.TokenWriteFails? then answer == Refused(ServerError)
      else answer.Issued?
  {
    hide Inv, ResolveTokenResource, CallbackScope, Downscope, ConsumeCode, RekeyOnCode, Open;
    if r.code.Parsed? { CodeOpens(s, r.code.token); }
  }

  lemma CodeOpens(s: Store, b: Bearer)
    requires Inv(s)
    ensures RefOf(b) in s.grants ==>
      var g := s.grants[RefOf(b)].record;
      g.authCodeWrappedKey.Some? && g.authCodeId == Some(Digest(b)) ==>
        Open(b, g.authCodeWrappedKey.value, g.encryptedProps).Some?
  {
    hide Inv;
    KeyAgreement(s, b);
  }

  /** Why a refresh is refused, with which answer. Only a failing write of the token leaves a change of
      the records behind: the grant is rotated by then. */
  lemma RefreshRefusals(cfg: Config, s: Store, r: RefreshRequest)
    requires cfg.Valid() && Inv(s)
    ensures r.refreshToken.Missing? ==> Refresh(cfg, s, r) == Outcome(s, Refused(InvalidRequest))
    ensures r.refreshToken.Malformed? || (r.refreshToken.Parsed? && RefOf(r.refreshToken.token) !in s.grants) ==>
      Refresh(cfg, s, r) == Outcome(s, Refused(InvalidGrant))
    ensures r.refreshToken.Parsed? && RefOf(r.refreshToken.token) in s.grants ==>
      var g, id, later := s.grants[RefOf(r.refreshToken.token)].record, Some(Digest(r.refreshToken.token)),
                          s.now + r.callbackTime;
      var answer, ttl := Refresh(cfg, s, r).response, AskedFor(r.callback, cfg.accessTokenTTL);
      if id !in {g.refreshTokenId, g.previousRefreshTokenId} || g.clientId != r.clientId ||
         (g.expiresAt.Some? && g.expiresAt.value - s.now < 60) then
        Refresh(cfg, s, r) == Outcome(s, Refused(InvalidGrant))
      else if ResolveTokenResource(cfg, r.resource, g.resource).Err? then
        Refresh(cfg, s, r) == Outcome(s, Refused(InvalidTarget))
      else if r.callback.Threw? then answer == Refused(CallbackError)
      else if Gave(r.callback) && r.callback.result.value.refreshTokenTTL.Some? then answer == Refused(InvalidRequest)
      else if g.expiresAt.Some? && g.expiresAt.value - later < 60 then answer == Refused(InvalidGrant)
      else if ttl < 60 then answer == Refused(InvalidRequest)
      else if r.fault != NoFault then answer == Refused(ServerError)
      else answer.Issued?
    ensures var o := Refresh(cfg, s, r);
      o.response.Refused? ==> o.store.tokens == s.tokens && (!r.fault.TokenWriteFails? ==> o.store.grants == s.grants)
  {
    hide Inv, ResolveTokenResource, CallbackScope, Downscope, Rotate, RekeyOnRefresh, Open;
    if r.refreshToken.Parsed? { RefreshTokenOpens(s, r.refreshToken.token); }
  }

  lemma RefreshTokenOpens(s: Store, b: Bearer)
    requires Inv(s)
    ensures RefOf(b) in s.grants ==>
      var g := s.grants[RefOf(b)].record;
      Some(Digest(b)) in {g.refreshTokenId, g.previousRefreshTokenId} ==>
        WrappedKeyFor(g, b).Some? && Open(b, WrappedKeyFor(g, b).value, g.encryptedProps).Some?
  {
    hide Inv;
    KeyAgreement(s, b);
  }

  /** Why a token exchange is refused, with which answer; it never changes a record then. */
  lemma ExchangeRefusals(cfg: Config, s: Store, r: ExchangeRequest)
    requires cfg.Valid() && Inv(s)
    ensures r.subjectToken.Missing? ==> Exchange(cfg, s, r) == Outcome(s, Refused(InvalidRequest))
    ensures !r.subjectToken.Missing? &&
            (r.subjectToken.Malformed? || TokenRefOf(r.subjectToken.token) !in s.tokens ||
             RefOf(r.subjectToken.token) !in s.grants) ==>
      Exchange(cfg, s, r) == Outcome(s, Refused(InvalidGrant))
    ensures r.subjectToken.Parsed? && TokenRefOf(r.subjectToken.token) in s.tokens &&
            RefOf(r.subjectToken.token) in s.grants ==>
      var t, g := s.tokens[TokenRefOf(r.subjectToken.token)].record, s.grants[RefOf(r.subjectToken.token)].record;
      var answer := Exchange(cfg, s, r).response;
      var audienceRefused := (cfg.configuredResource.Some? && t.audience != Some([cfg.configuredResource.value])) ||
                             (r.resource.Some? && ResolveTokenResource(cfg, r.resource, g.resource).Err?);
      if t.expiresAt < s.now then answer == Refused(InvalidGrant)
      else if audienceRefused then answer == Refused(InvalidTarget)
      else if t.expiresAt - s.now < 60 then answer == Refused(InvalidGrant)
      else if r.expiresIn.Some? && r.expiresIn.value <= 0 then answer == Refused(InvalidRequest)
      else if r.callback.Threw? then answer == Refused(CallbackError)
      else if AskedFor(r.callback, if r.expiresIn.Some? then r.expiresIn.value else cfg.accessTokenTTL) < 60 then
        answer == Refused(InvalidRequest)
      else if r.fault.TokenWriteFails? then answer == Refused(ServerError)
      else answer.Issued?
    ensures var o := Exchange(cfg, s, r);
      o.response.Refused? ==> o.store.tokens == s.tokens && o.store.grants == s.grants
  {
    hide Inv, ResolveTokenResource, CallbackScope, Downscope, RekeyOnExchange, Open;
    if r.subjectToken.Parsed? { AccessTokenOpens(s, r.subjectToken.token); }
  }

  lemma AccessTokenOpens(s: Store, b: Bearer)
    requires Inv(s)
    ensures TokenRefOf(b) in s.tokens ==>
      var t := s.tokens[TokenRefOf(b)].record; Open(b, t.wrappedEncryptionKey, t.encryptedProps).Some?
  {
    hide Inv;
    KeyAgreement(s, b);
  }

  /** Why an assertion is refused, with which answer, and from when on it is used up: once its claims are
      accepted, its marker stays whatever happens next. */
  lemma AssertionRefusals(cfg: Config, s: Store, r: EmaRequest)
    ensures var o, c, at := MintFromAssertion(cfg, s, r), r.claims, s.now + r.markDelay;
      if !r.verified || ValidateClaims(c, r.clientId, r.policy, s.now).Err? then o == Outcome(s, Refused(InvalidGrant))
      else if c.iss + "\n" + c.jti in s.markers then
        o == Outcome(s.(now := at), Refused(InvalidGrant))
      else
        // kept until `exp`, and at least 60 seconds
        && o.store.markers == s.markers[c.iss + "\n" + c.jti := if c.exp - at < 60 then at + 60 else c.exp]
        && if exists w :: Written(r.scope, w) && !r.policy.validScope(w) then o.response == Refused(InvalidRequest)
           else if !r.mapped.MappedTo? || r.mapped.userId == "" || ':' in r.mapped.userId ||
                   (exists x :: x in r.mapped.scope && !r.policy.validScope(x)) ||
                   (r.mapped.accessTokenTTL.Some? && r.mapped.accessTokenTTL.value <= 0) ||
                   at + r.mapperDelay >= c.exp ||
                   (if r.mapped.accessTokenTTL.Some? then r.mapped.accessTokenTTL.value else cfg.accessTokenTTL) < 60
                then o.response == Refused(InvalidGrant) && o.store.grants == s.grants && o.store.tokens == s.tokens
           else if r.fault != NoFault then o.response == Refused(ServerError) && o.store.tokens == s.tokens
           else o.response.Issued?
  {
    hide ValidateClaims, ParseScopeParam, Written, MapperAccepts, AccessTokenTTL, IssueFromAssertion, Downscope;
    var checked := ValidateClaims(r.claims, r.clientId, r.policy, s.now);
    if r.verified && checked.Ok? && r.claims.iss + "\n" + r.claims.jti !in s.markers {
      ParseScopeParamExactly(r.scope, checked.value.scopes, r.policy);
      RefusedMapping(r.mapped, r.policy);
      if MapperAccepts(r.mapped, r.policy) { RefusedIssue(cfg, s, r, checked.value); }
    }
  }

  lemma RefusedMapping(m: Mapped, p: Policy)
    ensures !MapperAccepts(m, p) <==>
      || !m.MappedTo? || m.userId == "" || ':' in m.userId || (exists x :: x in m.scope && !p.validScope(x))
      || (m.accessTokenTTL.Some? && m.accessTokenTTL.value <= 0)
  {
  }

  /** What becomes of an assertion that the mapper accepts. */
  lemma RefusedIssue(cfg: Config, s: Store, r: EmaRequest, checked: ValidIdJag)
    requires MapperAccepts(r.mapped, r.policy)
    ensures var at, ttl := s.now + r.markDelay + r.mapperDelay,
                           if r.mapped.accessTokenTTL.Some? then r.mapped.accessTokenTTL.value else cfg.accessTokenTTL;
      var lifetime := AccessTokenTTL(cfg.accessTokenTTL, r.claims.exp, r.mapped.accessTokenTTL, at,
                                     KV_MIN_EXPIRATION_TTL_SECONDS);
      && (lifetime.Err? <==> at >= r.claims.exp || ttl < 60)
      && forall s3: Store :: lifetime.Ok? && s3.tokens == s.tokens ==>
           var o := IssueFromAssertion(s3, r, checked, lifetime.value);
           && o.store.markers == s3.markers
           && if r.fault != NoFault then o.response == Refused(ServerError) && o.store.tokens == s.tokens
              else o.response.Issued?
  {
    hide Downscope;
  }
}
