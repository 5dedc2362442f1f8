/** What holds in every store that any run of the provider can reach. */
module LifecycleInvariants {
  import opened Wrappers
  import opened OAuthTypes
  import opened EmaClaims
  import opened GrantLifecycle

  // ---------------------------------------------------------------- the invariant

  /** A stored hash and a wrapped key belong together: the token with that hash, and it alone,
      unwraps the key that decrypts the props. */
  ghost predicate Opens(id: Option<Digest>, wrapped: Option<WrappedKey>, data: Ciphertext) {
    id.Some? && wrapped.Some? && wrapped.value == WrappedKey(id.value.of, data.key)
  }

  /** A hash stored in a grant is that of a token the server drew for this very grant. */
  ghost predicate DrawnFor(s: Store, ref: GrantRef, id: Option<Digest>) {
    id.Some? ==> RefOf(id.value.of) == ref && id.value.of.secret in s.used
  }

  ghost predicate GrantOk(s: Store, ref: GrantRef, g: Grant) {
    && g.id == ref.grantId && g.userId == ref.userId && ref.grantId in s.used
    && DrawnFor(s, ref, g.authCodeId) && DrawnFor(s, ref, g.refreshTokenId)
    && DrawnFor(s, ref, g.previousRefreshTokenId)
    && (g.authCodeWrappedKey.Some? ==>
          Opens(g.authCodeId, g.authCodeWrappedKey, g.encryptedProps) && g.refreshTokenId.None? &&
          g.previousRefreshTokenId.None?)
    && (g.refreshTokenId.Some? ==> Opens(g.refreshTokenId, g.refreshTokenWrappedKey, g.encryptedProps))
    && (g.previousRefreshTokenId.Some? ==>
          Opens(g.previousRefreshTokenId, g.previousRefreshTokenWrappedKey, g.encryptedProps) && g.refreshTokenId.Some?)
    && g.encryptedProps.key < s.nextKey
  }

  ghost predicate TokenOk(s: Store, ref: TokenRef, t: Token) {
    && t.id == ref.id && t.grantId == ref.grantId && t.userId == ref.userId && ref.grantId in s.used
    && RefOf(ref.id.of) == GrantRef(ref.userId, ref.grantId) && ref.id.of.secret in s.used
    && t.wrappedEncryptionKey == WrappedKey(ref.id.of, t.encryptedProps.key)
    && t.encryptedProps.key < s.nextKey
    && (GrantRef(ref.userId, ref.grantId) in s.grants ==>
          Within(t.scope, s.grants[GrantRef(ref.userId, ref.grantId)].record.scope))
  }

  /** Each key encrypts one plaintext only, which is what makes the constant IV sound. */
  ghost predicate OnePlaintextPerKey(s: Store) {
    && (forall a, b ::
          a in s.grants && b in s.grants &&
          s.grants[a].record.encryptedProps.key == s.grants[b].record.encryptedProps.key ==>
            s.grants[a].record.encryptedProps == s.grants[b].record.encryptedProps)
    && (forall a, b ::
          a in s.tokens && b in s.tokens &&
          s.tokens[a].record.encryptedProps.key == s.tokens[b].record.encryptedProps.key ==>
            s.tokens[a].record.encryptedProps == s.tokens[b].record.encryptedProps)
    && (forall a, b ::
          a in s.grants && b in s.tokens &&
          s.grants[a].record.encryptedProps.key == s.tokens[b].record.encryptedProps.key ==>
            s.grants[a].record.encryptedProps == s.tokens[b].record.encryptedProps)
  }

  ghost predicate Inv(s: Store) {
    && (forall ref :: ref in s.grants ==> GrantOk(s, ref, s.grants[ref].record))
    && (forall ref :: ref in s.tokens ==> TokenOk(s, ref, s.tokens[ref].record))
    && OnePlaintextPerKey(s)
    && (forall l :: l in s.lifetimes ==> l >= KV_MIN_EXPIRATION_TTL_SECONDS)
  }

  // ---------------------------------------------------------------- storage keeps it

  /** Storing `data` would not give a key a second plaintext. */
  ghost predicate Fits(s: Store, data: Ciphertext) {
    && data.key < s.nextKey
    && (forall r :: r in s.grants && s.grants[r].record.encryptedProps.key == data.key ==>
          s.grants[r].record.encryptedProps == data)
    && (forall t :: t in s.tokens && s.tokens[t].record.encryptedProps.key == data.key ==>
          s.tokens[t].record.encryptedProps == data)
  }

  /** The access tokens of a grant have no scope outside `scope`. */
  ghost predicate TokensWithin(s: Store, ref: GrantRef, scope: seq<string>) {
    forall t :: t in s.tokens && GrantRef(t.userId, t.grantId) == ref ==> Within(s.tokens[t].record.scope, scope)
  }

  lemma GrantOkLater(s: Store, s': Store, ref: GrantRef, g: Grant)
    requires GrantOk(s, ref, g) && s.used <= s'.used && s.nextKey <= s'.nextKey
    ensures GrantOk(s', ref, g)
  {
  }

  lemma TokenOkLater(s: Store, s': Store, ref: TokenRef, t: Token)
    requires TokenOk(s, ref, t) && s.used <= s'.used && s.nextKey <= s'.nextKey
    requires GrantRef(ref.userId, ref.grantId) in s'.grants ==>
      Within(t.scope, s'.grants[GrantRef(ref.userId, ref.grantId)].record.scope)
    ensures TokenOk(s', ref, t)
  {
  }

  lemma TokenScopeOk(s: Store, ref: TokenRef, t: Token)
    requires TokenOk(s, ref, t) && GrantRef(ref.userId, ref.grantId) in s.grants
    ensures Within(t.scope, s.grants[GrantRef(ref.userId, ref.grantId)].record.scope)
  {
  }

  /** Removing records, passing time and drawing randomness keep the invariant. */
  lemma LosingKeepsInv(s: Store, s': Store)
    requires Inv(s) && s'.lifetimes == s.lifetimes && s.used <= s'.used && s.nextKey <= s'.nextKey
    requires forall r :: r in s'.grants ==> r in s.grants && s'.grants[r] == s.grants[r]
    requires forall t :: t in s'.tokens ==> t in s.tokens && s'.tokens[t] == s.tokens[t]
    ensures Inv(s')
    ensures forall d :: Fits(s, d) ==> Fits(s', d)
  {
    hide GrantOk, TokenOk, Within;
    forall ref | ref in s'.grants ensures GrantOk(s', ref, s'.grants[ref].record) {
      GrantOkLater(s, s', ref, s.grants[ref].record);
    }
    forall ref | ref in s'.tokens ensures TokenOk(s', ref, s'.tokens[ref].record) {
      if GrantRef(ref.userId, ref.grantId) in s.grants { TokenScopeOk(s, ref, s.tokens[ref].record); }
      TokenOkLater(s, s', ref, s.tokens[ref].record);
    }
  }

  lemma OnePlaintextAfterGrant(s: Store, s': Store, ref: GrantRef, data: Ciphertext)
    requires OnePlaintextPerKey(s) && Fits(s, data) && s'.tokens == s.tokens && ref in s'.grants
    requires forall r :: r in s'.grants && r != ref ==> r in s.grants && s'.grants[r] == s.grants[r]
    requires s'.grants[ref].record.encryptedProps == data
    ensures OnePlaintextPerKey(s')
  {
  }

  lemma OnePlaintextAfterToken(s: Store, s': Store, ref: TokenRef, data: Ciphertext)
    requires OnePlaintextPerKey(s) && Fits(s, data) && s'.grants == s.grants && ref in s'.tokens
    requires forall r :: r in s'.tokens && r != ref ==> r in s.tokens && s'.tokens[r] == s.tokens[r]
    requires s'.tokens[ref].record.encryptedProps == data
    ensures OnePlaintextPerKey(s')
  {
  }

  lemma PutGrantKeepsInv(s: Store, ref: GrantRef, g: Grant, expiration: Option<int>)
    requires Inv(s) && GrantOk(s, ref, g) && Fits(s, g.encryptedProps) && TokensWithin(s, ref, g.scope)
    requires expiration.Some? ==> expiration.value - s.now >= KV_MIN_EXPIRATION_TTL_SECONDS
    ensures Inv(PutGrant(s, ref, g, expiration))
    ensures forall d :: Fits(s, d) && (d.key == g.encryptedProps.key ==> d == g.encryptedProps) ==>
      Fits(PutGrant(s, ref, g, expiration), d)
  {
    hide OnePlaintextPerKey, GrantOk, TokenOk, Within;
    var s' := PutGrant(s, ref, g, expiration);
    OnePlaintextAfterGrant(s, s', ref, g.encryptedProps);
    forall r | r in s'.grants ensures GrantOk(s', r, s'.grants[r].record) {
      GrantOkLater(s, s', r, if r == ref then g else s.grants[r].record);
    }
    forall t | t in s'.tokens ensures TokenOk(s', t, s'.tokens[t].record) {
      var owner := GrantRef(t.userId, t.grantId);
      if owner != ref && owner in s.grants { TokenScopeOk(s, t, s.tokens[t].record); }
      TokenOkLater(s, s', t, s.tokens[t].record);
    }
  }

  lemma PutTokenKeepsInv(s: Store, ref: TokenRef, t: Token, ttl: int)
    requires Inv(s) && TokenOk(s, ref, t) && Fits(s, t.encryptedProps) && ttl >= KV_MIN_EXPIRATION_TTL_SECONDS
    ensures Inv(PutToken(s, ref, t, ttl))
  {
    hide OnePlaintextPerKey, GrantOk, TokenOk, Within;
    var s' := PutToken(s, ref, t, ttl);
    OnePlaintextAfterToken(s, s', ref, t.encryptedProps);
    forall r | r in s'.grants ensures GrantOk(s', r, s'.grants[r].record) {
      GrantOkLater(s, s', r, s.grants[r].record);
    }
    forall r | r in s'.tokens ensures TokenOk(s', r, s'.tokens[r].record) {
      var record := if r == ref then t else s.tokens[r].record;
      if GrantRef(r.userId, r.grantId) in s.grants { TokenScopeOk(s, r, record); }
      TokenOkLater(s, s', r, record);
    }
  }

  /** A grant id drawn now has no tokens yet. */
  lemma NewGrantHasNoTokens(s: Store, userId: string, grantId: string, scope: seq<string>)
    requires Inv(s) && grantId !in s.used
    ensures TokensWithin(s, GrantRef(userId, grantId), scope) && GrantRef(userId, grantId) !in s.grants
  {
  }

  lemma GrantTokensWithin(s: Store, ref: GrantRef)
    requires Inv(s) && ref in s.grants
    ensures TokensWithin(s, ref, s.grants[ref].record.scope) && Fits(s, s.grants[ref].record.encryptedProps)
  {
  }

  /** Whatever a callback does, keys stay in step with ciphertexts and no key is used twice. */
  ghost predicate InStep(s: Store, k: Rekeyed) {
    && k.grantData.key == k.grantKey && k.tokenData.key == k.tokenKey && s.nextKey <= k.nextKey
    && Fits(s.(nextKey := k.nextKey), k.grantData) && Fits(s.(nextKey := k.nextKey), k.tokenData)
    && (k.grantKey == k.tokenKey ==> k.grantData == k.tokenData)
  }

  lemma KeyForTokenInStep(s: Store, data: Ciphertext, tokenProps: Props, nextKey: CryptoKey)
    requires Inv(s) && s.nextKey <= nextKey && Fits(s.(nextKey := nextKey), data)
    ensures InStep(s, KeyForToken(data, data.key, tokenProps, data.plain, nextKey))
  {
  }

  lemma RekeyingStaysInStep(s: Store, data: Ciphertext, callback: Callback)
    requires Inv(s) && Fits(s, data) && !callback.Threw?
    ensures InStep(s, RekeyOnCode(data.key, data, callback, s.nextKey))
    ensures InStep(s, RekeyOnRefresh(data.key, data, callback, s.nextKey))
    ensures InStep(s, RekeyOnExchange(data.key, data, callback, s.nextKey))
  {
    hide GrantOk, TokenOk, OnePlaintextPerKey, Fits, KeyForToken;
    NewKeyFits(s);
    if callback.Returned? {
      var grantProps, tokenProps := GrantProps(callback.result, data.plain), TokenProps(callback.result, data.plain);
      KeyForTokenInStep(s, Ciphertext(s.nextKey, grantProps), tokenProps, s.nextKey + 1);
      KeyForTokenInStep(s, data, tokenProps, s.nextKey);
    }
  }

  lemma NewKeyFits(s: Store)
    requires Inv(s)
    ensures forall n: nat, d: Ciphertext :: s.nextKey <= d.key < n ==> Fits(s.(nextKey := n), d)
    ensures forall n: nat, d: Ciphertext :: s.nextKey <= n && Fits(s, d) ==> Fits(s.(nextKey := n), d)
  {
  }

  // ---------------------------------------------------------------- every step keeps it

  lemma MintKeepsInv(s: Store, b: Bearer, m: Mint, grantScope: seq<string>, ttl: int)
    requires Inv(s) && b.grantId in s.used && b.secret in s.used && m.key == m.encryptedProps.key
    requires Fits(s, m.encryptedProps)
    requires RefOf(b) in s.grants ==> Within(m.scope, s.grants[RefOf(b)].record.scope)
    requires ttl >= KV_MIN_EXPIRATION_TTL_SECONDS
    ensures Inv(PutToken(s, TokenRefOf(b), TokenRecord(s.now, b, m, grantScope), ttl))
  {
    PutTokenKeepsInv(s, TokenRefOf(b), TokenRecord(s.now, b, m, grantScope), ttl);
  }

  lemma AuthorizeKeepsInv(cfg: Config, s: Store, a: AuthorizeRequest)
    requires cfg.Valid() && Inv(s) && Fresh(s, AuthorizeEvent(a))
    ensures Inv(Authorize(cfg, s, a).store)
  {
    hide Inv, GrantOk, TokenOk, Fits, TokensWithin, OnePlaintextPerKey;
    if a.accepted {
      var data, key := Ciphertext(s.nextKey, a.props), s.nextKey;
      var b, ref := Bearer(a.userId, a.grantId, a.secret), GrantRef(a.userId, a.grantId);
      var s1 := Use(s, {a.grantId, a.secret}).(nextKey := key + 1);
      LosingKeepsInv(s, s1);
      NewKeyFits(s);
      NewGrantHasNoTokens(s, a.userId, a.grantId, a.scope);
      assert Fits(s1, data) && TokensWithin(s1, ref, a.scope) by { NewFitsUsed(s, s1, data, ref, a.scope); }
      if a.isImplicit {
        assert GrantOk(s1, ref, NewGrant(a, data)) by { NewGrantOk(s1, a, data); }
        PutGrantKeepsInv(s1, ref, NewGrant(a, data), None);
        var s2 := PutGrant(s1, ref, NewGrant(a, data), None);
        var m := Mint(a.clientId, a.scope, data, key, cfg.accessTokenTTL, a.resource);
        MintKeepsInv(s2, b, m, a.scope, cfg.accessTokenTTL);
        var s3 := PutToken(s2, TokenRefOf(b), TokenRecord(s.now, b, m, a.scope), cfg.accessTokenTTL);
        LosingKeepsInv(s3, RevokeAll(s3, Replaced(s, a)));
      } else {
        var g := NewGrant(a, data).(authCodeId := Some(Digest(b)), authCodeWrappedKey := Some(WrappedKey(b, key)),
                                    codeChallenge := a.codeChallenge, codeChallengeMethod := a.codeChallengeMethod);
        assert GrantOk(s1, ref, g) by { NewGrantOk(s1, a, data); }
        PutGrantKeepsInv(s1, ref, g, Some(s.now + CODE_TTL_SECONDS));
        var s2 := PutGrant(s1, ref, g, Some(s.now + CODE_TTL_SECONDS));
        LosingKeepsInv(s2, RevokeAll(s2, Replaced(s, a)));
      }
    }
  }

  lemma NewFitsUsed(s: Store, s1: Store, data: Ciphertext, ref: GrantRef, scope: seq<string>)
    requires Fits(s.(nextKey := s1.nextKey), data) && TokensWithin(s, ref, scope)
    requires s1.grants == s.grants && s1.tokens == s.tokens
    ensures Fits(s1, data) && TokensWithin(s1, ref, scope)
  {
  }

  lemma NewGrantOk(s: Store, a: AuthorizeRequest, data: Ciphertext)
    requires a.grantId in s.used && a.secret in s.used && data.key < s.nextKey
    ensures var b := Bearer(a.userId, a.grantId, a.secret);
      && GrantOk(s, RefOf(b), NewGrant(a, data))
      && GrantOk(s, RefOf(b),
                 NewGrant(a, data).(authCodeId := Some(Digest(b)), authCodeWrappedKey := Some(WrappedKey(b, data.key)),
                 codeChallenge := a.codeChallenge, codeChallengeMethod := a.codeChallengeMethod))
  {
  }

  lemma CreateKeepsInv(s: Store, b: Bearer, m: Mint, refreshToken: Option<Bearer>, fault: Fault)
    requires Inv(s) && b.grantId in s.used && b.secret in s.used && m.key == m.encryptedProps.key
    requires Fits(s, m.encryptedProps)
    requires RefOf(b) in s.grants ==> Within(m.scope, s.grants[RefOf(b)].record.scope)
    ensures Inv(CreateAccessToken(s, b, m, refreshToken, fault).store)
  {
    hide Inv, TokenOk, Fits;
    if m.expiresIn >= KV_MIN_EXPIRATION_TTL_SECONDS { MintKeepsInv(s, b, m, m.scope, m.expiresIn); }
  }

  /** The grant after a code exchange: its code no longer opens anything, its refresh token does. */
  lemma ConsumedGrantOk(s: Store, s1: Store, ref: GrantRef, g: Grant, data: Ciphertext, refreshToken: Option<Bearer>,
                        expiresAt: Option<int>)
    requires GrantOk(s, ref, g) && s.used <= s1.used && data.key < s1.nextKey
    requires g.authCodeWrappedKey.Some?
    requires refreshToken.Some? ==> RefOf(refreshToken.value) == ref && refreshToken.value.secret in s1.used
    ensures GrantOk(s1, ref, ConsumeCode(g, data, data.key, refreshToken, expiresAt))
  {
  }

  lemma RotatedGrantOk(s: Store, s1: Store, ref: GrantRef, g: Grant, presented: Bearer, newToken: Bearer,
                       data: Ciphertext)
    requires GrantOk(s, ref, g) && s.used <= s1.used && data.key < s1.nextKey
    requires g.refreshTokenId == Some(Digest(presented)) || g.previousRefreshTokenId == Some(Digest(presented))
    requires RefOf(newToken) == ref && newToken.secret in s1.used
    ensures GrantOk(s1, ref, Rotate(g, presented, newToken, data, data.key))
  {
  }

  lemma CodeKeepsInv(cfg: Config, s: Store, r: CodeRequest)
    requires cfg.Valid() && Inv(s) && Fresh(s, CodeEvent(r))
    ensures Inv(ExchangeCode(cfg, s, r).store)
  {
    hide OnePlaintextPerKey, Fits, TokensWithin, TokenOk, CheckCode, RekeyOnCode, ConsumeAndMint;
    match CheckCode(cfg, s, r)
    case Reject(e) =>
    case Replay =>
      ReplayedCode(cfg, s, r);
      LosingKeepsInv(s, Revoke(s, RefOf(r.code.token)));
    case Proceed(g) =>
      CheckedCode(cfg, s, r, g);
      var b, ref := r.code.token, RefOf(r.code.token);
      assert GrantOk(s, ref, g);
      LosingKeepsInv(s, Advance(s, r.callbackTime));
      if !r.callback.Threw? {
        var k := RekeyOnCode(g.authCodeWrappedKey.value.key, g.encryptedProps, r.callback, s.nextKey);
        GrantTokensWithin(s, ref);
        RekeyingStaysInStep(s, g.encryptedProps, r.callback);
        var s1 := Advance(Use(s, {r.newRefreshSecret, r.newAccessSecret}), r.callbackTime).(nextKey := k.nextKey);
        LosingKeepsInv(s, s1);
        assert Fits(s1, k.grantData) && Fits(s1, k.tokenData) && TokensWithin(s1, ref, g.scope) by {
          NewFitsUsed(s, s1, k.grantData, ref, g.scope);
          NewFitsUsed(s, s1, k.tokenData, ref, g.scope);
        }
        GrantOkLater(s, s1, ref, g);
        ConsumeKeepsInv(cfg, s1, r, g, k);
      }
  }

  lemma ConsumeKeepsInv(cfg: Config, s: Store, r: CodeRequest, g: Grant, k: Rekeyed)
    requires cfg.Valid() && Inv(s) && r.code.Parsed? && ResolveTokenResource(cfg, r.resource, g.resource).Ok?
    requires RefOf(r.code.token) in s.grants && g == s.grants[RefOf(r.code.token)].record && g.authCodeWrappedKey.Some?
    requires r.newRefreshSecret in s.used && r.newAccessSecret in s.used
    requires Fits(s, k.grantData) && Fits(s, k.tokenData) && k.grantData.key == k.grantKey
    requires k.tokenData.key == k.tokenKey
    requires k.grantKey == k.tokenKey ==> k.grantData == k.tokenData
    requires TokensWithin(s, RefOf(r.code.token), g.scope)
    ensures Inv(ConsumeAndMint(cfg, s, r, g, k).store)
  {
    hide OnePlaintextPerKey, Fits, TokensWithin, TokenOk, CreateAccessToken;
    var b, ref := r.code.token, RefOf(r.code.token);
    var refreshTTL := CallbackRefreshTTL(r.callback, cfg.refreshTokenTTL);
    var refreshToken := if refreshTTL != Some(0) then Some(Bearer(b.userId, b.grantId, r.newRefreshSecret)) else None;
    var expiresAt := if refreshTTL.Some? then Some(s.now + refreshTTL.value) else None;
    assert GrantOk(s, ref, g);
    FittingKey(s, k.grantData);
    ConsumedGrantOk(s, s, ref, g, k.grantData, refreshToken, expiresAt);
    var next := ConsumeCode(g, k.grantData, k.grantKey, refreshToken, expiresAt);
    PutGrantKeepsInv(s, ref, next, GrantExpiration(s.now, next));
    var s2 := SaveGrantWithTTL(s, ref, next);
    var s3 := Advance(s2, r.mintDelay);
    LosingKeepsInv(s2, s3);
    var scope := CallbackScope(r.callback, Downscope(r.scope, g.scope), g.scope);
    var m := Mint(g.clientId, scope, k.tokenData, k.tokenKey, CallbackTTL(r.callback, cfg.accessTokenTTL),
                  ResolveTokenResource(cfg, r.resource, g.resource).value);
    CreateKeepsInv(s3, Bearer(b.userId, b.grantId, r.newAccessSecret), m, refreshToken, r.fault);
  }

  lemma ReplayedCode(cfg: Config, s: Store, r: CodeRequest)
    requires CheckCode(cfg, s, r) == Replay
    ensures r.code.Parsed? && RefOf(r.code.token) in s.grants
    ensures s.grants[RefOf(r.code.token)].record.authCodeId == Some(Digest(r.code.token))
  {
  }

  lemma CheckedCode(cfg: Config, s: Store, r: CodeRequest, g: Grant)
    requires CheckCode(cfg, s, r) == Proceed(g)
    ensures r.code.Parsed? && RefOf(r.code.token) in s.grants && g == s.grants[RefOf(r.code.token)].record
    ensures g.authCodeId == Some(Digest(r.code.token)) && g.authCodeWrappedKey.Some? && g.clientId == r.clientId
    ensures ResolveTokenResource(cfg, r.resource, g.resource).Ok?
  {
  }

  lemma FittingKey(s: Store, data: Ciphertext)
    requires Fits(s, data)
    ensures data.key < s.nextKey
  {
  }

  lemma RefreshKeepsInv(cfg: Config, s: Store, r: RefreshRequest)
    requires cfg.Valid() && Inv(s) && Fresh(s, RefreshEvent(r))
    ensures Inv(Refresh(cfg, s, r).store)
  {
    hide OnePlaintextPerKey, Fits, TokensWithin, TokenOk, CheckRefresh, RekeyOnRefresh, RotateAndMint;
    if CheckRefresh(cfg, s, r).Ok? {
      var g := CheckRefresh(cfg, s, r).value;
      CheckedRefresh(cfg, s, r, g);
      var b, ref := r.refreshToken.token, RefOf(r.refreshToken.token);
      assert GrantOk(s, ref, g);
      var wrapped := WrappedKeyFor(g, b);
      assert wrapped == Some(WrappedKey(b, g.encryptedProps.key));
      LosingKeepsInv(s, Advance(s, r.callbackTime));
      if !r.callback.Threw? {
        var k := RekeyOnRefresh(g.encryptedProps.key, g.encryptedProps, r.callback, s.nextKey);
        GrantTokensWithin(s, ref);
        RekeyingStaysInStep(s, g.encryptedProps, r.callback);
        var s1 := Advance(Use(s, {r.newRefreshSecret, r.newAccessSecret}), r.callbackTime).(nextKey := k.nextKey);
        LosingKeepsInv(s, s1);
        assert Fits(s1, k.grantData) && Fits(s1, k.tokenData) && TokensWithin(s1, ref, g.scope) by {
          NewFitsUsed(s, s1, k.grantData, ref, g.scope);
          NewFitsUsed(s, s1, k.tokenData, ref, g.scope);
        }
        GrantOkLater(s, s1, ref, g);
        RotateKeepsInv(cfg, s1, r, g, k);
      }
    }
  }

  lemma RotateKeepsInv(cfg: Config, s: Store, r: RefreshRequest, g: Grant, k: Rekeyed)
    requires cfg.Valid() && Inv(s) && r.refreshToken.Parsed? && ResolveTokenResource(cfg, r.resource, g.resource).Ok?
    requires RefOf(r.refreshToken.token) in s.grants && g == s.grants[RefOf(r.refreshToken.token)].record
    requires g.refreshTokenId == Some(Digest(r.refreshToken.token)) ||
      g.previousRefreshTokenId == Some(Digest(r.refreshToken.token))
    requires r.newRefreshSecret in s.used && r.newAccessSecret in s.used
    requires Fits(s, k.grantData) && Fits(s, k.tokenData) && k.grantData.key == k.grantKey
    requires k.tokenData.key == k.tokenKey
    requires k.grantKey == k.tokenKey ==> k.grantData == k.tokenData
    requires TokensWithin(s, RefOf(r.refreshToken.token), g.scope)
    ensures Inv(RotateAndMint(cfg, s, r, g, k).store)
  {
    hide OnePlaintextPerKey, Fits, TokensWithin, TokenOk, Rotate;
    var b, ref := r.refreshToken.token, RefOf(r.refreshToken.token);
    var newRefresh := Bearer(b.userId, b.grantId, r.newRefreshSecret);
    var newAccess := Bearer(b.userId, b.grantId, r.newAccessSecret);
    assert GrantOk(s, ref, g);
    FittingKey(s, k.grantData);
    RotatedGrantOk(s, s, ref, g, b, newRefresh, k.grantData);
    var next := Rotate(g, b, newRefresh, k.grantData, k.grantKey);
    RotateKeepsScope(g, b, newRefresh, k.grantData, k.grantKey);
    PutGrantKeepsInv(s, ref, next, GrantExpiration(s.now, next));
    var s2 := SaveGrantWithTTL(s, ref, next);
    var ttl := ClampedTTL(s.now, g, CallbackTTL(r.callback, cfg.accessTokenTTL));
    if ttl >= KV_MIN_EXPIRATION_TTL_SECONDS {
      var scope := CallbackScope(r.callback, Downscope(r.scope, g.scope), g.scope);
      var m := Mint(g.clientId, scope, k.tokenData, k.tokenKey, ttl,
                    ResolveTokenResource(cfg, r.resource, g.resource).value);
      MintKeepsInv(s2, newAccess, m, g.scope, ttl);
    }
  }

  lemma RotateKeepsScope(g: Grant, presented: Bearer, newToken: Bearer, data: Ciphertext, key: CryptoKey)
    ensures var next := Rotate(g, presented, newToken, data, key);
      next.scope == g.scope && next.encryptedProps == data && next.expiresAt == g.expiresAt
  {
  }

  lemma CheckedRefresh(cfg: Config, s: Store, r: RefreshRequest, g: Grant)
    requires CheckRefresh(cfg, s, r) == Ok(g)
    ensures r.refreshToken.Parsed? && RefOf(r.refreshToken.token) in s.grants
    ensures g == s.grants[RefOf(r.refreshToken.token)].record
    ensures g.refreshTokenId == Some(Digest(r.refreshToken.token)) ||
      g.previousRefreshTokenId == Some(Digest(r.refreshToken.token))
    ensures g.clientId == r.clientId && !TooCloseToExpiry(s.now, g)
    ensures ResolveTokenResource(cfg, r.resource, g.resource).Ok?
  {
  }

  lemma ExchangeKeepsInv(cfg: Config, s: Store, r: ExchangeRequest)
    requires cfg.Valid() && Inv(s) && Fresh(s, ExchangeEvent(r))
    ensures Inv(Exchange(cfg, s, r).store)
  {
    hide OnePlaintextPerKey, Fits, TokensWithin, GrantOk, ExchangeAudience, RekeyOnExchange, CreateAccessToken,
         ExchangeScopes;
    if r.subjectToken.Parsed? && FindToken(s, r.subjectToken.token).Some? && RefOf(r.subjectToken.token) in s.grants {
      var b := r.subjectToken.token;
      var t, ref := FindToken(s, b).value, RefOf(b);
      assert TokenOk(s, TokenRefOf(b), t);
      LosingKeepsInv(s, Advance(s, r.callbackTime));
      var audience := ExchangeAudience(cfg, r, t, s.grants[ref].record);
      if !r.callback.Threw? && audience.Ok? {
        var k := RekeyOnExchange(t.encryptedProps.key, t.encryptedProps, r.callback, s.nextKey);
        assert Fits(s, t.encryptedProps) by { TokenDataFits(s, TokenRefOf(b)); }
        RekeyingStaysInStep(s, t.encryptedProps, r.callback);
        var s1 := Advance(Use(s, {r.newAccessSecret}), r.callbackTime).(nextKey := k.nextKey);
        LosingKeepsInv(s, s1);
        GrantTokensWithin(s, ref);
        assert Fits(s1, k.tokenData) by { NewFitsUsed(s, s1, k.tokenData, ref, s.grants[ref].record.scope); }
        var m := Mint(t.clientId, ExchangeScopes(r, t), k.tokenData, k.tokenKey,
                      ExchangeTTL(cfg, r, t.expiresAt - s.now), audience.value);
        CreateKeepsInv(s1, Bearer(b.userId, b.grantId, r.newAccessSecret), m, None, r.fault);
      }
    }
  }

  lemma TokenDataFits(s: Store, ref: TokenRef)
    requires Inv(s) && ref in s.tokens
    ensures Fits(s, s.tokens[ref].record.encryptedProps)
  {
  }

  lemma EmaKeepsInv(cfg: Config, s: Store, r: EmaRequest)
    requires cfg.Valid() && Inv(s) && Fresh(s, EmaEvent(r))
    ensures Inv(MintFromAssertion(cfg, s, r).store)
  {
    hide OnePlaintextPerKey, Fits, TokensWithin, GrantOk, TokenOk, ValidateClaims, ParseScopeParam, MapperAccepts,
         AccessTokenTTL, IssueFromAssertion;
    if r.verified && ValidateClaims(r.claims, r.clientId, r.policy, s.now).Ok? {
      var s1 := Advance(s, r.markDelay);
      LosingKeepsInv(s, s1);
      var marker, ttl := JtiKey(r.claims), MarkerTTL(r.claims.exp, s1.now);
      var s2 := s1.(markers := s1.markers[marker := s1.now + ttl], lifetimes := s1.lifetimes + [ttl]);
      assert Inv(s2) by { MarkerKeepsInv(s1, s2); }
      var s3 := Advance(s2, r.mapperDelay);
      LosingKeepsInv(s2, s3);
      var mappedTTL := if r.mapped.MappedTo? then r.mapped.accessTokenTTL else None;
      var lifetime := AccessTokenTTL(cfg.accessTokenTTL, r.claims.exp, mappedTTL, s3.now,
                                     KV_MIN_EXPIRATION_TTL_SECONDS);
      if MapperAccepts(r.mapped, r.policy) {
        AcceptedIsMapped(r.mapped, r.policy);
        if lifetime.Ok? {
          IssueKeepsInv(s3, r, ValidateClaims(r.claims, r.clientId, r.policy, s.now).value, lifetime.value);
        }
      }
    }
  }

  lemma AcceptedIsMapped(m: Mapped, p: Policy)
    requires MapperAccepts(m, p)
    ensures m.MappedTo?
  {
  }

  lemma MarkerKeepsInv(s: Store, s': Store)
    requires Inv(s) && s'.grants == s.grants && s'.tokens == s.tokens && s'.used == s.used && s'.nextKey == s.nextKey
    requires |s'.lifetimes| > 0 && s'.lifetimes == s.lifetimes + [s'.lifetimes[|s'.lifetimes| - 1]]
    requires s'.lifetimes[|s'.lifetimes| - 1] >= KV_MIN_EXPIRATION_TTL_SECONDS
    ensures Inv(s')
  {
    hide GrantOk, TokenOk, Within;
    forall ref | ref in s'.grants ensures GrantOk(s', ref, s'.grants[ref].record) {
      GrantOkLater(s, s', ref, s.grants[ref].record);
    }
    forall ref | ref in s'.tokens ensures TokenOk(s', ref, s'.tokens[ref].record) {
      if GrantRef(ref.userId, ref.grantId) in s.grants { TokenScopeOk(s, ref, s.tokens[ref].record); }
      TokenOkLater(s, s', ref, s.tokens[ref].record);
    }
  }

  lemma IssueKeepsInv(s: Store, r: EmaRequest, checked: ValidIdJag, ttl: int)
    requires Inv(s) && Fresh(s, EmaEvent(r)) && r.mapped.MappedTo? && ttl >= KV_MIN_EXPIRATION_TTL_SECONDS
    ensures Inv(IssueFromAssertion(s, r, checked, ttl).store)
  {
    hide OnePlaintextPerKey, Fits, TokensWithin, TokenOk, CreateAccessToken, Inv;
    var scope := if checked.scopes != [] then Downscope(Many(r.mapped.scope), checked.scopes) else r.mapped.scope;
    var data, key := Ciphertext(s.nextKey, r.mapped.props), s.nextKey;
    var s1 := Use(s, {r.grantId, r.newAccessSecret}).(nextKey := key + 1);
    var g := Grant(r.grantId, r.clientId, r.mapped.userId, scope, data, Some(s.now + ttl),
                   None, None, None, None, None, None, None, None, Some([checked.resource]), None);
    var ref := GrantRef(r.mapped.userId, r.grantId);
    LosingKeepsInv(s, s1);
    NewKeyFits(s);
    NewGrantHasNoTokens(s, r.mapped.userId, r.grantId, scope);
    assert Fits(s1, data) && TokensWithin(s1, ref, scope) by { NewFitsUsed(s, s1, data, ref, scope); }
    PutGrantKeepsInv(s1, ref, g, GrantExpiration(s1.now, g));
    var s2 := SaveGrantWithTTL(s1, ref, g);
    var s3 := Advance(s2, r.mintDelay);
    LosingKeepsInv(s2, s3);
    var m := Mint(r.clientId, scope, data, key, ttl, Some([checked.resource]));
    CreateKeepsInv(s3, Bearer(r.mapped.userId, r.grantId, r.newAccessSecret), m, None, r.fault);
  }

  lemma StepKeepsInv(cfg: Config, s: Store, e: Event)
    requires cfg.Valid() && Inv(s) && Fresh(s, e)
    ensures Inv(Step(cfg, s, e).store)
  {
    hide Inv;
    match e
    case AuthorizeEvent(a) => AuthorizeKeepsInv(cfg, s, a);
    case CodeEvent(c) => CodeKeepsInv(cfg, s, c);
    case RefreshEvent(r) => RefreshKeepsInv(cfg, s, r);
    case ExchangeEvent(x) => ExchangeKeepsInv(cfg, s, x);
    case EmaEvent(m) => EmaKeepsInv(cfg, s, m);
    case RevokeEvent(token, clientId, refreshFirst) => LosingKeepsInv(s, Step(cfg, s, e).store);
    case Remove(grants, tokens) => LosingKeepsInv(s, Step(cfg, s, e).store);
    case Tick(seconds, evicted) => LosingKeepsInv(s, Step(cfg, s, e).store);
  }

  /** The invariant holds in every reachable store. */
  lemma {:induction false} RunKeepsInv(cfg: Config, s: Store, events: seq<Event>)
    requires cfg.Valid() && Inv(s) && FreshRun(cfg, s, events)
    ensures Inv(Run(cfg, s, events))
    decreases |events|
  {
    hide Inv;
    if events != [] {
      StepKeepsInv(cfg, s, events[0]);
      RunKeepsInv(cfg, Step(cfg, s, events[0]).store, events[1..]);
    }
  }
}
