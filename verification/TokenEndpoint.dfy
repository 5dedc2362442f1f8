/** The handlers of the token endpoint, as they change the KV namespace step by step
    (repos/workers-oauth-provider/src/oauth-provider.ts). Each is proved to do exactly what its
    specification in `GrantLifecycle` says. Random strings and the callback's answer are inputs. */
module TokenEndpoint {
  import opened Wrappers
  import opened OAuthTypes
  import opened EmaClaims
  import opened GrantLifecycle
  import LifecycleInvariants
  import LifecycleTheorems

  lemma RevokeNone(s: Store)
    ensures RevokeAll(s, {}) == s
  {
  }

  lemma RevokeOneMore(s: Store, refs: set<GrantRef>, ref: GrantRef)
    ensures Revoke(RevokeAll(s, refs), ref) == RevokeAll(s, refs + {ref})
  {
  }

  // ---------------------------------------------------------------- what a caller gets

  /** The access token is stored and opens these props. */
  ghost predicate Opens(s: Store, token: Bearer, props: Props) {
    TokenRefOf(token) in s.tokens &&
    var t := s.tokens[TokenRefOf(token)].record;
    Open(token, t.wrappedEncryptionKey, t.encryptedProps) == Some(props)
  }

  function ResultOf(callback: Callback): Option<CallbackResult> {
    if callback.Returned? then callback.result else None
  }

  ghost predicate CodeAnswer(s: Store, r: CodeRequest, s': Store, response: Response) {
    && (response.Issued? ==>
          && r.code.Parsed? && RefOf(r.code.token) in s.grants
          && Opens(s', response.accessToken,
                   TokenProps(ResultOf(r.callback), s.grants[RefOf(r.code.token)].record.encryptedProps.plain))
          && LifecycleTheorems.CodeSpent(s', r.code.token))
    && (r.code.Parsed? && LifecycleTheorems.CodeSpent(s, r.code.token) ==> response == Refused(InvalidGrant))
  }

  lemma CodeAnswers(cfg: Config, s: Store, r: CodeRequest)
    requires cfg.Valid() && LifecycleInvariants.Inv(s) && Fresh(s, CodeEvent(r))
    ensures var o := ExchangeCode(cfg, s, r); CodeAnswer(s, r, o.store, o.response)
  {
    hide LifecycleInvariants.Inv, ExchangeCode, LifecycleTheorems.CodeSpent;
    if ExchangeCode(cfg, s, r).response.Issued? {
      LifecycleTheorems.CodeDeliversProps(cfg, s, r);
      LifecycleTheorems.ExchangingSpendsTheCode(cfg, s, r);
    }
    if r.code.Parsed? && LifecycleTheorems.CodeSpent(s, r.code.token) {
      LifecycleTheorems.SpentCodeIsRefused(cfg, s, r);
    }
  }

  ghost predicate RefreshAnswer(s: Store, r: RefreshRequest, s': Store, response: Response) {
    response.Issued? ==>
      && r.refreshToken.Parsed? && RefOf(r.refreshToken.token) in s.grants
      && Opens(s', response.accessToken,
               TokenProps(ResultOf(r.callback), s.grants[RefOf(r.refreshToken.token)].record.encryptedProps.plain))
  }

  lemma RefreshAnswers(cfg: Config, s: Store, r: RefreshRequest)
    requires cfg.Valid() && LifecycleInvariants.Inv(s) && Fresh(s, RefreshEvent(r))
    ensures var o := Refresh(cfg, s, r); RefreshAnswer(s, r, o.store, o.response)
  {
    hide LifecycleInvariants.Inv, Refresh;
    if Refresh(cfg, s, r).response.Issued? { LifecycleTheorems.RefreshDeliversProps(cfg, s, r); }
  }

  ghost predicate ExchangeAnswer(s: Store, r: ExchangeRequest, s': Store, response: Response) {
    && s'.grants == s.grants
    && (response.Issued? ==>
          && r.subjectToken.Parsed? && FindToken(s, r.subjectToken.token).Some?
          && Opens(s', response.accessToken,
                   TokenProps(ResultOf(r.callback), FindToken(s, r.subjectToken.token).value.encryptedProps.plain)))
  }

  lemma ExchangeAnswers(cfg: Config, s: Store, r: ExchangeRequest)
    requires cfg.Valid() && LifecycleInvariants.Inv(s) && Fresh(s, ExchangeEvent(r))
    ensures var o := Exchange(cfg, s, r); ExchangeAnswer(s, r, o.store, o.response)
  {
    hide LifecycleInvariants.Inv, FindToken, ExchangeAudience, ExchangeScopes, RekeyOnExchange;
    if Exchange(cfg, s, r).response.Issued? { LifecycleTheorems.ExchangeDeliversProps(cfg, s, r); }
  }

  ghost predicate EmaAnswer(s: Store, r: EmaRequest, s': Store, response: Response) {
    response.Issued? ==>
      && JtiKey(r.claims) !in s.markers && JtiKey(r.claims) in s'.markers
      && r.mapped.MappedTo? && Opens(s', response.accessToken, r.mapped.props)
  }

  lemma EmaAnswers(cfg: Config, s: Store, r: EmaRequest)
    requires cfg.Valid() && LifecycleInvariants.Inv(s) && Fresh(s, EmaEvent(r))
    ensures var o := MintFromAssertion(cfg, s, r); EmaAnswer(s, r, o.store, o.response)
  {
    hide LifecycleInvariants.Inv, ValidateClaims, ParseScopeParam, AccessTokenTTL, Downscope;
  }

  /** What a step gives a caller, whoever calls. */
  ghost predicate Answer(s: Store, e: Event, s': Store, response: Response) {
    response != Refused(CryptoFailure) &&
    match e
    case CodeEvent(r) => CodeAnswer(s, r, s', response)
    case RefreshEvent(r) => RefreshAnswer(s, r, s', response)
    case ExchangeEvent(r) => ExchangeAnswer(s, r, s', response)
    case EmaEvent(r) => EmaAnswer(s, r, s', response)
    case _ => true
  }

  lemma StepAnswers(cfg: Config, s: Store, e: Event)
    requires cfg.Valid() && LifecycleInvariants.Inv(s) && Fresh(s, e)
    ensures var o := Step(cfg, s, e); LifecycleInvariants.Inv(o.store) && Answer(s, e, o.store, o.response)
  {
    hide LifecycleInvariants.Inv, CodeAnswer, RefreshAnswer, ExchangeAnswer, EmaAnswer;
    hide Authorize, ExchangeCode, Refresh, Exchange, MintFromAssertion, GrantLifecycle.RevokeToken;
    LifecycleInvariants.StepKeepsInv(cfg, s, e);
    LifecycleTheorems.NeverACryptoFailure(cfg, s, e);
    match e
    case CodeEvent(r) => CodeAnswers(cfg, s, r);
    case RefreshEvent(r) => RefreshAnswers(cfg, s, r);
    case ExchangeEvent(r) => ExchangeAnswers(cfg, s, r);
    case EmaEvent(r) => EmaAnswers(cfg, s, r);
    case _ =>
  }

  class Provider {
    const cfg: Config
    var now: int
    var grants: map<GrantRef, Stored<Grant>>
    var tokens: map<TokenRef, Stored<Token>>
    var markers: map<string, int>
    var nextKey: CryptoKey
    ghost var used: set<string>
    ghost var lifetimes: seq<int>

    ghost function View(): Store
      reads this
    {
      Store(now, grants, tokens, markers, nextKey, used, lifetimes)
    }

    /** The configuration is accepted, and the records are in step with each other. */
    ghost predicate Valid()
      reads this
    {
      cfg.Valid() && LifecycleInvariants.Inv(View())
    }

    constructor (cfg: Config, now: int)
      ensures this.cfg == cfg && View() == InitialStore(now)
      ensures cfg.Valid() ==> Valid()
    {
      this.cfg, this.now := cfg, now;
      grants, tokens, markers, nextKey := map[], map[], map[], 0;
      used, lifetimes := {}, [];
    }

    /** `revokeGrant`; its paged loop is `KvNamespace.Namespace.RevokeGrant`. */
    method RevokeGrant(grantId: string, userId: string)
      modifies this
      ensures View() == Revoke(old(View()), GrantRef(userId, grantId))
    {
      tokens := map t | t in tokens && GrantRef(t.userId, t.grantId) != GrantRef(userId, grantId) :: tokens[t];
      grants := map r | r in grants && r != GrantRef(userId, grantId) :: grants[r];
    }

    method SaveGrantWithTTL(ref: GrantRef, grantData: Grant)
      modifies this
      ensures View() == GrantLifecycle.SaveGrantWithTTL(old(View()), ref, grantData)
    {
      var minExpiration := now + KV_MIN_EXPIRATION_TTL_SECONDS + KV_EXPIRATION_CLAMP_MARGIN_SECONDS;
      if grantData.expiresAt.Some? {
        var expiration := Max(grantData.expiresAt.value, minExpiration);
        grants := grants[ref := Stored(grantData, Some(expiration))];
        lifetimes := lifetimes + [expiration - now];
      } else {
        grants := grants[ref := Stored(grantData, None)];
        lifetimes := lifetimes + [];
      }
    }

    method CreateAccessToken(b: Bearer, m: Mint, refreshToken: Option<Bearer>, fault: Fault)
      returns (response: Response)
      modifies this
      ensures GrantLifecycle.CreateAccessToken(old(View()), b, m, refreshToken, fault) == Outcome(View(), response)
    {
      if m.expiresIn < KV_MIN_EXPIRATION_TTL_SECONDS {
        return Refused(InvalidRequest);
      }
      var accessTokenData := Token(Digest(b), b.grantId, b.userId, now + m.expiresIn, m.audience, m.scope,
                                   WrappedKey(b, m.key), m.clientId, m.scope, m.encryptedProps);
      if fault.TokenWriteFails? {
        return Refused(ServerError);
      }
      tokens := tokens[TokenRefOf(b) := Stored(accessTokenData, Some(now + m.expiresIn))];
      lifetimes := lifetimes + [m.expiresIn];
      return Issued(b, refreshToken, m.expiresIn, m.scope, m.audience);
    }

    /** `encryptProps`: a new key for this one ciphertext. */
    method EncryptProps(props: Props) returns (data: Ciphertext, key: CryptoKey)
      modifies `nextKey
      ensures key == old(nextKey) && nextKey == old(nextKey) + 1 && data == Ciphertext(key, props)
    {
      key := nextKey;
      data := Ciphertext(key, props);
      nextKey := nextKey + 1;
    }

    // -------------------------------------------------------------- what a callback changes

    /** Lifetime and scope overrides of a callback. */
    method Overrides(callback: Callback, accessTokenTTL: int, tokenScopes: seq<string>, allowed: seq<string>)
      returns (ttl: int, scopes: seq<string>)
      ensures ttl == CallbackTTL(callback, accessTokenTTL) && scopes == CallbackScope(callback, tokenScopes, allowed)
    {
      ttl, scopes := accessTokenTTL, tokenScopes;
      if callback.Returned? && callback.result.Some? {
        var callbackResult := callback.result.value;
        if callbackResult.accessTokenTTL.Some? { ttl := callbackResult.accessTokenTTL.value; }
        if callbackResult.accessTokenScope.Some? {
          scopes := Downscope(Many(callbackResult.accessTokenScope.value), allowed);
        }
      }
    }

    /** The props a callback chose for the grant and for the token. */
    method ChooseProps(result: Option<CallbackResult>, decryptedProps: Props)
      returns (grantProps: Props, accessTokenProps: Props)
      ensures grantProps == GrantProps(result, decryptedProps) && accessTokenProps == TokenProps(result, decryptedProps)
    {
      grantProps, accessTokenProps := decryptedProps, decryptedProps;
      if result.Some? {
        var callbackResult := result.value;
        if callbackResult.newProps.Some? {
          grantProps := callbackResult.newProps.value;
          if callbackResult.accessTokenProps.None? { accessTokenProps := callbackResult.newProps.value; }
        }
        if callbackResult.accessTokenProps.Some? { accessTokenProps := callbackResult.accessTokenProps.value; }
      }
    }

    /** The token's ciphertext: the grant's own unless the props differ. */
    method EncryptTokenProps(accessTokenProps: Props, grantProps: Props, grantData: Ciphertext, grantKey: CryptoKey)
      returns (k: Rekeyed)
      modifies `nextKey
      ensures k == KeyForToken(grantData, grantKey, accessTokenProps, grantProps, old(nextKey)) && nextKey == k.nextKey
    {
      if accessTokenProps != grantProps {
        var encrypted, key := EncryptProps(accessTokenProps);
        k := Rekeyed(grantData, grantKey, encrypted, key, nextKey);
      } else {
        k := Rekeyed(grantData, grantKey, grantData, grantKey, nextKey);
      }
    }

    method ReencryptOnCode(key: CryptoKey, data: Ciphertext, callback: Callback) returns (k: Rekeyed)
      requires !callback.Threw?
      modifies `nextKey
      ensures k == RekeyOnCode(key, data, callback, old(nextKey)) && nextKey == k.nextKey
    {
      k := Rekeyed(data, key, data, key, nextKey);
      if callback.Returned? {
        var grantProps, accessTokenProps := ChooseProps(callback.result, data.plain);
        var encryptedProps, grantEncryptionKey := EncryptProps(grantProps);
        k := EncryptTokenProps(accessTokenProps, grantProps, encryptedProps, grantEncryptionKey);
      }
    }

    method ReencryptOnRefresh(key: CryptoKey, data: Ciphertext, callback: Callback) returns (k: Rekeyed)
      requires !callback.Threw?
      modifies `nextKey
      ensures k == RekeyOnRefresh(key, data, callback, old(nextKey)) && nextKey == k.nextKey
    {
      k := Rekeyed(data, key, data, key, nextKey);
      if callback.Returned? {
        var grantProps, accessTokenProps := ChooseProps(callback.result, data.plain);
        var encryptedProps, grantEncryptionKey := data, key;
        if callback.result.Some? && callback.result.value.newProps.Some? {
          encryptedProps, grantEncryptionKey := EncryptProps(grantProps);
        }
        k := EncryptTokenProps(accessTokenProps, grantProps, encryptedProps, grantEncryptionKey);
      }
    }

    method ReencryptOnExchange(key: CryptoKey, data: Ciphertext, callback: Callback) returns (k: Rekeyed)
      requires !callback.Threw?
      modifies `nextKey
      ensures k == RekeyOnExchange(key, data, callback, old(nextKey)) && nextKey == k.nextKey
    {
      k := Rekeyed(data, key, data, key, nextKey);
      if callback.Returned? {
        var _, accessTokenProps := ChooseProps(callback.result, data.plain);
        k := EncryptTokenProps(accessTokenProps, data.plain, data, key);
      }
    }

    // -------------------------------------------------------------- authorization code grant

    method CheckAuthorizationCode(r: CodeRequest) returns (check: CodeCheck)
      ensures check == CheckCode(cfg, View(), r)
    {
      hide ResolveTokenResource;
      if r.code.Missing? { return Reject(InvalidRequest); }
      if r.code.Malformed? { return Reject(InvalidGrant); }
      var code := r.code.token;
      if RefOf(code) !in grants { return Reject(InvalidGrant); }
      var grantData := grants[RefOf(code)].record;
      if grantData.authCodeId != Some(Digest(code)) { return Reject(InvalidGrant); }
      if grantData.clientId != r.clientId { return Reject(InvalidGrant); }
      if grantData.authCodeWrappedKey.None? { return Replay; }
      if !MethodSupported(cfg, grantData) { return Reject(InvalidGrant); }
      var isPkceEnabled := grantData.codeChallenge.Some?;
      if r.redirectUri.None? && !isPkceEnabled { return Reject(InvalidRequest); }
      if r.redirectUri.Some? && !r.redirectUriValid { return Reject(InvalidGrant); }
      if !isPkceEnabled && r.codeVerifier.Some? { return Reject(InvalidRequest); }
      if isPkceEnabled {
        if r.codeVerifier.None? { return Reject(InvalidRequest); }
        if !VerifierMatches(grantData, r.codeVerifier.value) { return Reject(InvalidGrant); }
      }
      if ResolveTokenResource(cfg, r.resource, grantData.resource).Err? { return Reject(InvalidTarget); }
      return Proceed(grantData);
    }

    method HandleAuthorizationCodeGrant(r: CodeRequest) returns (response: Response)
      modifies this
      ensures ExchangeCode(cfg, old(View()), r) == Outcome(View(), response)
    {
      hide CheckCode, ResolveTokenResource, RekeyOnCode, GrantLifecycle.ConsumeAndMint;
      var check := CheckAuthorizationCode(r);
      match check {
        case Reject(e) => return Refused(e);
        case Replay =>
          LifecycleInvariants.ReplayedCode(cfg, View(), r);
          RevokeGrant(r.code.token.grantId, r.code.token.userId);
          return Refused(InvalidGrant);
        case Proceed(grantData) =>
          LifecycleInvariants.CheckedCode(cfg, View(), r, grantData);
          var code := r.code.token;
          var encryptionKey := Unwrap(code, grantData.authCodeWrappedKey.value);
          if encryptionKey.None? || Decrypt(encryptionKey.value, grantData.encryptedProps).None? {
            return Refused(CryptoFailure);
          }
          now := now + r.callbackTime;
          if r.callback.Threw? { return Refused(CallbackError); }
          var k := ReencryptOnCode(encryptionKey.value, grantData.encryptedProps, r.callback);
          used := used + {r.newRefreshSecret, r.newAccessSecret};
          response := ConsumeAndMint(r, grantData, k);
      }
    }

    method ConsumeAndMint(r: CodeRequest, grant: Grant, k: Rekeyed) returns (response: Response)
      requires r.code.Parsed? && ResolveTokenResource(cfg, r.resource, grant.resource).Ok?
      modifies this
      ensures GrantLifecycle.ConsumeAndMint(cfg, old(View()), r, grant, k) == Outcome(View(), response)
    {
      hide ResolveTokenResource, GrantLifecycle.CreateAccessToken, GrantLifecycle.SaveGrantWithTTL;
      var code, grantData := r.code.token, grant;
      var refreshTokenTTL := cfg.refreshTokenTTL;
      if r.callback.Returned? && r.callback.result.Some? && r.callback.result.value.refreshTokenTTL.Some? {
        refreshTokenTTL := r.callback.result.value.refreshTokenTTL.value;
      }
      var accessTokenTTL, tokenScopes := Overrides(r.callback, cfg.accessTokenTTL, Downscope(r.scope, grantData.scope),
                                                   grantData.scope);
      grantData := grantData.(encryptedProps := k.grantData);
      grantData := grantData.(codeChallenge := None, codeChallengeMethod := None);
      grantData := grantData.(authCodeWrappedKey := None);
      var refreshToken := None;
      if refreshTokenTTL != Some(0) {
        var newToken := Bearer(code.userId, code.grantId, r.newRefreshSecret);
        refreshToken := Some(newToken);
        grantData := grantData.(refreshTokenId := Some(Digest(newToken)));
        grantData := grantData.(refreshTokenWrappedKey := Some(WrappedKey(newToken, k.grantKey)));
        grantData := grantData.(previousRefreshTokenId := None, previousRefreshTokenWrappedKey := None);
        grantData := grantData.(expiresAt := if refreshTokenTTL.Some? then Some(now + refreshTokenTTL.value) else None);
      }
      if r.fault.GrantWriteFails? { return Refused(ServerError); }
      SaveGrantWithTTL(RefOf(code), grantData);
      now := now + r.mintDelay;
      var m := Mint(grantData.clientId, tokenScopes, k.tokenData, k.tokenKey, accessTokenTTL,
                    ResolveTokenResource(cfg, r.resource, grantData.resource).value);
      response := CreateAccessToken(Bearer(code.userId, code.grantId, r.newAccessSecret), m, refreshToken, r.fault);
    }

    // -------------------------------------------------------------- refresh token grant

    method CheckRefreshToken(r: RefreshRequest) returns (check: Result<Grant, Error>)
      ensures check == CheckRefresh(cfg, View(), r)
    {
      hide ResolveTokenResource;
      if r.refreshToken.Missing? { return Err(InvalidRequest); }
      if r.refreshToken.Malformed? { return Err(InvalidGrant); }
      var providedTokenHash := Digest(r.refreshToken.token);
      var grantKey := RefOf(r.refreshToken.token);
      if grantKey !in grants { return Err(InvalidGrant); }
      var grantData := grants[grantKey].record;
      var isCurrentToken := grantData.refreshTokenId == Some(providedTokenHash);
      var isPreviousToken := grantData.previousRefreshTokenId == Some(providedTokenHash);
      if !isCurrentToken && !isPreviousToken { return Err(InvalidGrant); }
      if grantData.clientId != r.clientId { return Err(InvalidGrant); }
      if grantData.expiresAt.Some? {
        if grantData.expiresAt.value - now < KV_MIN_EXPIRATION_TTL_SECONDS { return Err(InvalidGrant); }
      }
      if ResolveTokenResource(cfg, r.resource, grantData.resource).Err? { return Err(InvalidTarget); }
      return Ok(grantData);
    }

    method HandleRefreshTokenGrant(r: RefreshRequest) returns (response: Response)
      modifies this
      ensures Refresh(cfg, old(View()), r) == Outcome(View(), response)
    {
      hide CheckRefresh, ResolveTokenResource, RekeyOnRefresh, GrantLifecycle.RotateAndMint;
      var check := CheckRefreshToken(r);
      if check.Err? { return Refused(check.error); }
      var grantData := check.value;
      LifecycleInvariants.CheckedRefresh(cfg, View(), r, grantData);
      var refreshToken := r.refreshToken.token;
      var wrapped := if grantData.refreshTokenId == Some(Digest(refreshToken)) then grantData.refreshTokenWrappedKey
                     else grantData.previousRefreshTokenWrappedKey;
      if wrapped.None? || Open(refreshToken, wrapped.value, grantData.encryptedProps).None? {
        return Refused(CryptoFailure);
      }
      var encryptionKey := wrapped.value.key;
      now := now + r.callbackTime;
      if r.callback.Threw? { return Refused(CallbackError); }
      if r.callback.Returned? && r.callback.result.Some? {
        // refreshTokenTTL cannot be changed during a refresh
        if r.callback.result.value.refreshTokenTTL.Some? { return Refused(InvalidRequest); }
      }
      var k := ReencryptOnRefresh(encryptionKey, grantData.encryptedProps, r.callback);
      used := used + {r.newRefreshSecret, r.newAccessSecret};
      response := RotateAndMint(r, grantData, k);
    }

    method RotateAndMint(r: RefreshRequest, grant: Grant, k: Rekeyed) returns (response: Response)
      requires r.refreshToken.Parsed? && ResolveTokenResource(cfg, r.resource, grant.resource).Ok?
      modifies this
      ensures GrantLifecycle.RotateAndMint(cfg, old(View()), r, grant, k) == Outcome(View(), response)
    {
      hide ResolveTokenResource, GrantLifecycle.SaveGrantWithTTL;
      var refreshToken, grantData := r.refreshToken.token, grant;
      var accessTokenTTL, tokenScopes := Overrides(r.callback, cfg.accessTokenTTL, Downscope(r.scope, grantData.scope),
                                                   grantData.scope);
      if grantData.expiresAt.Some? && grantData.expiresAt.value - now < KV_MIN_EXPIRATION_TTL_SECONDS {
        return Refused(InvalidGrant);
      }
      if grantData.expiresAt.Some? {
        var remainingRefreshTokenLifetime := grantData.expiresAt.value - now;
        if remainingRefreshTokenLifetime > 0 { accessTokenTTL := Min(accessTokenTTL, remainingRefreshTokenLifetime); }
      }
      if accessTokenTTL < KV_MIN_EXPIRATION_TTL_SECONDS { return Refused(InvalidRequest); }

      var newAccessToken := Bearer(refreshToken.userId, refreshToken.grantId, r.newAccessSecret);
      var newRefreshToken := Bearer(refreshToken.userId, refreshToken.grantId, r.newRefreshSecret);
      grantData := grantData.(encryptedProps := k.grantData);
      // the token the client used this time becomes the previous one, wrapping the key of now
      grantData := grantData.(previousRefreshTokenId := Some(Digest(refreshToken)));
      grantData := grantData.(previousRefreshTokenWrappedKey := Some(WrappedKey(refreshToken, k.grantKey)));
      grantData := grantData.(refreshTokenId := Some(Digest(newRefreshToken)));
      grantData := grantData.(refreshTokenWrappedKey := Some(WrappedKey(newRefreshToken, k.grantKey)));
      if r.fault.GrantWriteFails? { return Refused(ServerError); }
      SaveGrantWithTTL(RefOf(refreshToken), grantData);
      if r.fault.TokenWriteFails? { return Refused(ServerError); }
      var audience := ResolveTokenResource(cfg, r.resource, grantData.resource).value;
      var accessTokenData := Token(Digest(newAccessToken), refreshToken.grantId, refreshToken.userId,
                                   now + accessTokenTTL, audience,
                                   tokenScopes, WrappedKey(newAccessToken, k.tokenKey),
                                   grantData.clientId, grantData.scope, k.tokenData);
      tokens := tokens[TokenRefOf(newAccessToken) := Stored(accessTokenData, Some(now + accessTokenTTL))];
      lifetimes := lifetimes + [accessTokenTTL];
      return Issued(newAccessToken, Some(newRefreshToken), accessTokenTTL, tokenScopes, audience);
    }

    // -------------------------------------------------------------- token exchange

    method ExchangeToken(r: ExchangeRequest) returns (response: Response)
      modifies this
      ensures Exchange(cfg, old(View()), r) == Outcome(View(), response)
    {
      hide ResolveTokenResource, RekeyOnExchange, GrantLifecycle.CreateAccessToken, ExchangeAudience, CallbackScope,
           CallbackTTL;
      if r.subjectToken.Missing? { return Refused(InvalidRequest); }
      if r.subjectToken.Malformed? { return Refused(InvalidGrant); }
      var subjectToken := r.subjectToken.token;
      if TokenRefOf(subjectToken) !in tokens { return Refused(InvalidGrant); }
      var tokenData := tokens[TokenRefOf(subjectToken)].record;
      if tokenData.expiresAt < now { return Refused(InvalidGrant); }
      if Open(subjectToken, tokenData.wrappedEncryptionKey, tokenData.encryptedProps).None? {
        return Refused(CryptoFailure);
      }
      if RefOf(subjectToken) !in grants { return Refused(InvalidGrant); }
      var newAudience := ResolveAudience(r, tokenData, grants[RefOf(subjectToken)].record);
      if newAudience.Err? { return Refused(newAudience.error); }
      var subjectTokenRemainingLifetime := tokenData.expiresAt - now;
      if subjectTokenRemainingLifetime < KV_MIN_EXPIRATION_TTL_SECONDS { return Refused(InvalidGrant); }
      var accessTokenTTL := cfg.accessTokenTTL;
      if r.expiresIn.Some? {
        if r.expiresIn.value <= 0 { return Refused(InvalidRequest); }
        accessTokenTTL := r.expiresIn.value;
      }
      accessTokenTTL := Min(accessTokenTTL, subjectTokenRemainingLifetime);
      var tokenScopes := if r.scopes.Some? then Downscope(Many(r.scopes.value), tokenData.scope) else tokenData.scope;
      now := now + r.callbackTime;
      if r.callback.Threw? { return Refused(CallbackError); }
      accessTokenTTL, tokenScopes := Overrides(r.callback, accessTokenTTL, tokenScopes, tokenData.scope);
      accessTokenTTL := Min(accessTokenTTL, subjectTokenRemainingLifetime);
      var k := ReencryptOnExchange(tokenData.wrappedEncryptionKey.key, tokenData.encryptedProps, r.callback);
      used := used + {r.newAccessSecret};
      var m := Mint(tokenData.clientId, tokenScopes, k.tokenData, k.tokenKey, accessTokenTTL, newAudience.value);
      response := CreateAccessToken(Bearer(subjectToken.userId, subjectToken.grantId, r.newAccessSecret), m, None,
                                    r.fault);
    }

    method ResolveAudience(r: ExchangeRequest, tokenData: Token, grantData: Grant)
      returns (audience: Result<Option<seq<string>>, Error>)
      ensures audience == ExchangeAudience(cfg, r, tokenData, grantData)
    {
      if cfg.configuredResource.Some? && tokenData.audience != Some([cfg.configuredResource.value]) {
        return Err(InvalidTarget);
      }
      if r.resource.None? { return Ok(tokenData.audience); }
      return ResolveTokenResource(cfg, r.resource, grantData.resource);
    }

    // -------------------------------------------------------------- enterprise-managed authorization

    /** `markUsed`: look the marker up, then write it with its lifetime. */
    method MarkUsed(c: IdJag) returns (replayed: bool)
      modifies `markers, `lifetimes
      ensures replayed <==> JtiKey(c) in old(markers)
      ensures replayed ==> markers == old(markers) && lifetimes == old(lifetimes)
      ensures !replayed ==> markers == old(markers)[JtiKey(c) := now + MarkerTTL(c.exp, now)]
      ensures !replayed ==> lifetimes == old(lifetimes) + [MarkerTTL(c.exp, now)]
    {
      var ttl := Max(EMA_JTI_MIN_TTL_SECONDS, c.exp - now);
      if JtiKey(c) in markers { return true; }
      markers := markers[JtiKey(c) := now + ttl];
      lifetimes := lifetimes + [ttl];
      return false;
    }

    method RunEmaPipeline(r: EmaRequest) returns (response: Response)
      modifies this
      ensures MintFromAssertion(cfg, old(View()), r) == Outcome(View(), response)
    {
      hide ValidateClaims, ParseScopeParam, AccessTokenTTL, IssueFromAssertion;
      if !r.verified { return Refused(InvalidGrant); }
      var claims := ValidateClaims(r.claims, r.clientId, r.policy, now);
      if claims.Err? { return Refused(InvalidGrant); }
      now := now + r.markDelay;
      var replayed := MarkUsed(r.claims);
      if replayed { return Refused(InvalidGrant); }
      var requestedScope := ParseScopeParam(r.scope, claims.value.scopes, r.policy);
      if requestedScope.Err? { return Refused(InvalidRequest); }
      now := now + r.mapperDelay;
      if !MapperAccepts(r.mapped, r.policy) { return Refused(InvalidGrant); }
      var ttl := AccessTokenTTL(cfg.accessTokenTTL, r.claims.exp, r.mapped.accessTokenTTL, now,
                                KV_MIN_EXPIRATION_TTL_SECONDS);
      if ttl.Err? { return Refused(InvalidGrant); }

      response := IssueEmaAccessToken(r, claims.value, ttl.value);
    }

    method IssueEmaAccessToken(r: EmaRequest, checked: ValidIdJag, accessTokenTTL: int) returns (response: Response)
      requires r.mapped.MappedTo?
      modifies this
      ensures IssueFromAssertion(old(View()), r, checked, accessTokenTTL) == Outcome(View(), response)
    {
      hide GrantLifecycle.CreateAccessToken, GrantLifecycle.SaveGrantWithTTL;
      var tokenScopes := if checked.scopes != [] then Downscope(Many(r.mapped.scope), checked.scopes)
                         else r.mapped.scope;
      var encryptedData, encryptionKey := EncryptProps(r.mapped.props);
      used := used + {r.grantId, r.newAccessSecret};
      var grant := Grant(r.grantId, r.clientId, r.mapped.userId, tokenScopes, encryptedData, Some(now + accessTokenTTL),
                         None, None, None, None, None, None, None, None, Some([checked.resource]), None);
      if r.fault.GrantWriteFails? { return Refused(ServerError); }
      SaveGrantWithTTL(GrantRef(r.mapped.userId, r.grantId), grant);
      now := now + r.mintDelay;
      var m := Mint(r.clientId, tokenScopes, encryptedData, encryptionKey, accessTokenTTL, Some([checked.resource]));
      response := CreateAccessToken(Bearer(r.mapped.userId, r.grantId, r.newAccessSecret), m, None, r.fault);
    }

    // -------------------------------------------------------------- authorization and revocation

    /** Revoke grants one by one; each is `RevokeGrant`. */
    method RevokeGrants(refs: set<GrantRef>)
      modifies this
      ensures View() == RevokeAll(old(View()), refs)
    {
      hide RevokeAll, Revoke;
      var left := refs;
      RevokeNone(View());
      assert refs - left == {};
      while left != {}
        invariant left <= refs && View() == RevokeAll(old(View()), refs - left)
      {
        var ref :| ref in left;
        RevokeOneMore(old(View()), refs - left, ref);
        assert refs - left + {ref} == refs - (left - {ref});
        RevokeGrant(ref.grantId, ref.userId);
        left := left - {ref};
      }
      assert refs - {} == refs;
    }

    /** `completeAuthorization`: collect the grants to replace, store the new records, then revoke
        what was collected. Its paged listing is `KvNamespace.Namespace.CollectGrantsToRevoke`. */
    method CompleteAuthorization(r: AuthorizeRequest) returns (response: Response)
      modifies this
      ensures Authorize(cfg, old(View()), r) == Outcome(View(), response)
    {
      hide RevokeAll;
      if !r.accepted { return Refused(InvalidRequest); }
      var grantsToRevoke := set ref | ref in grants && Replaces(r, ref, grants[ref].record);
      var encryptedData, encryptionKey := EncryptProps(r.props);
      used := used + {r.grantId, r.secret};
      var bearer, grantKey := Bearer(r.userId, r.grantId, r.secret), GrantRef(r.userId, r.grantId);
      var grant := Grant(r.grantId, r.clientId, r.userId, r.scope, encryptedData,
                         None, None, None, None, None, None, None, None, None,
                         r.resource, Some(r.redirectUri));
      if r.isImplicit {
        grants := grants[grantKey := Stored(grant, None)];
        var accessTokenData := Token(Digest(bearer), r.grantId, r.userId, now + cfg.accessTokenTTL, r.resource, r.scope,
                                     WrappedKey(bearer, encryptionKey), r.clientId, r.scope, encryptedData);
        tokens := tokens[TokenRefOf(bearer) := Stored(accessTokenData, Some(now + cfg.accessTokenTTL))];
        lifetimes := lifetimes + [] + [cfg.accessTokenTTL];
        RevokeGrants(grantsToRevoke);
        return Issued(bearer, None, cfg.accessTokenTTL, r.scope, r.resource);
      } else {
        grant := grant.(authCodeId := Some(Digest(bearer)),
                        authCodeWrappedKey := Some(WrappedKey(bearer, encryptionKey)));
        grant := grant.(codeChallenge := r.codeChallenge, codeChallengeMethod := r.codeChallengeMethod);
        grants := grants[grantKey := Stored(grant, Some(now + CODE_TTL_SECONDS))];
        lifetimes := lifetimes + [CODE_TTL_SECONDS];
        RevokeGrants(grantsToRevoke);
        return Authorized(bearer);
      }
    }

    method RevokeAccessIfOwned(b: Bearer, clientId: string) returns (revoked: bool)
      modifies `tokens
      ensures revoked <==> OwnsAccessToken(old(View()), b, clientId)
      ensures tokens == if revoked then old(tokens) - {TokenRefOf(b)} else old(tokens)
    {
      if TokenRefOf(b) !in tokens { return false; }
      if tokens[TokenRefOf(b)].record.clientId != clientId { return false; }
      tokens := tokens - {TokenRefOf(b)};
      return true;
    }

    method RevokeRefreshIfOwned(b: Bearer, clientId: string) returns (revoked: bool)
      modifies this
      ensures revoked <==> OwnsRefreshToken(old(View()), b, clientId)
      ensures View() == if revoked then Revoke(old(View()), RefOf(b)) else old(View())
    {
      if RefOf(b) !in grants { return false; }
      var grantData := grants[RefOf(b)].record;
      var isRefreshToken := grantData.refreshTokenId == Some(Digest(b)) ||
                            grantData.previousRefreshTokenId == Some(Digest(b));
      if !isRefreshToken { return false; }
      if grantData.clientId != clientId { return false; }
      RevokeGrant(b.grantId, b.userId);
      return true;
    }

    method RevokeToken(token: Presented, clientId: string, hintedRefresh: bool) returns (response: Response)
      modifies this
      ensures GrantLifecycle.RevokeToken(old(View()), token, clientId, hintedRefresh) == Outcome(View(), response)
    {
      if token.Missing? { return Refused(InvalidRequest); }
      if token.Malformed? { return Done; }
      var revoked;
      if hintedRefresh {
        revoked := RevokeRefreshIfOwned(token.token, clientId);
        if revoked { return Done; }
        revoked := RevokeAccessIfOwned(token.token, clientId);
      } else {
        revoked := RevokeAccessIfOwned(token.token, clientId);
        if revoked { return Done; }
        revoked := RevokeRefreshIfOwned(token.token, clientId);
      }
      return Done;
    }

    /** One step of a run: whichever handler is called next, or what time and KV do by themselves. So
        every sequence of calls is a run of the state machine. */
    method Perform(e: Event) returns (response: Response)
      modifies this
      ensures Step(cfg, old(View()), e) == Outcome(View(), response)
      // the records stay in step, no key or ciphertext ever fails to open, an issued token opens the
      // props it is for, and a spent code or a used assertion gets nothing
      ensures old(Valid()) && Fresh(old(View()), e) ==> Valid() && Answer(old(View()), e, View(), response)
    {
      hide LifecycleInvariants.Inv, Answer;
      if cfg.Valid() && LifecycleInvariants.Inv(View()) && Fresh(View(), e) { StepAnswers(cfg, View(), e); }
      hide Authorize, ExchangeCode, Refresh, Exchange, MintFromAssertion, GrantLifecycle.RevokeToken;
      match e {
        case AuthorizeEvent(a) => response := CompleteAuthorization(a);
        case CodeEvent(c) => response := HandleAuthorizationCodeGrant(c);
        case RefreshEvent(r) => response := HandleRefreshTokenGrant(r);
        case ExchangeEvent(x) => response := ExchangeToken(x);
        case EmaEvent(m) => response := RunEmaPipeline(m);
        case RevokeEvent(token, clientId, hintedRefresh) => response := RevokeToken(token, clientId, hintedRefresh);
        case Remove(goneGrants, goneTokens) =>
          grants, tokens := grants - goneGrants, tokens - goneTokens;
          response := Done;
        case Tick(seconds, evicted) =>
          now := now + seconds;
          markers := map k | k in markers && !(k in evicted && markers[k] <= now) :: markers[k];
          response := Done;
      }
    }
  }
}
