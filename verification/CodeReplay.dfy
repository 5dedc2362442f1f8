/** The replay of an authorization code over whole runs, and how long records live
    (repos/workers-oauth-provider/src/oauth-provider.ts).

    A replay is recognised by the grant record. When the record has left KV at its expiration, the
    code can no longer be verified; what then matters is whether an access token can outlive it. */
module CodeReplay {
  import opened Wrappers
  import opened OAuthTypes
  import opened EmaClaims
  import opened GrantLifecycle
  import opened LifecycleInvariants
  import opened LifecycleTheorems

  function Owner(t: TokenRef): GrantRef { GrantRef(t.userId, t.grantId) }

  // ---------------------------------------------------------------- the end of a grant

  /** Nothing of a grant is of use any more: the record is gone and every access token has expired. */
  ghost predicate Ended(s: Store, ref: GrantRef) {
    && ref.grantId in s.used && ref !in s.grants
    && forall t :: t in s.tokens && Owner(t) == ref ==> s.tokens[t].record.expiresAt < s.now
  }

  lemma DeadIsEnded(s: Store, ref: GrantRef)
    requires Dead(s, ref)
    ensures Ended(s, ref)
  {
  }

  lemma EndedForGood(s: Store, s': Store, ref: GrantRef)
    requires Ended(s, ref) && Later(s, s')
    ensures Ended(s', ref)
  {
  }

  /** Every token of a grant that ended is refused everywhere. */
  lemma EndedIsRefused(cfg: Config, s: Store, b: Bearer)
    requires Ended(s, RefOf(b))
    ensures FindToken(s, b).None?
    ensures forall r: CodeRequest :: r.code == Parsed(b) ==> ExchangeCode(cfg, s, r).response == Refused(InvalidGrant)
    ensures forall r: RefreshRequest :: r.refreshToken == Parsed(b) ==>
      Refresh(cfg, s, r).response == Refused(InvalidGrant)
    ensures forall r: ExchangeRequest :: r.subjectToken == Parsed(b) ==>
      Exchange(cfg, s, r).response == Refused(InvalidGrant)
  {
  }

  // ---------------------------------------------------------------- what each handler touches

  /** Everything that does not belong to the grant `ref` stays. */
  ghost predicate OnlyUnder(s: Store, s': Store, ref: GrantRef) {
    && (forall r :: r != ref ==> (r in s'.grants <==> r in s.grants))
    && (forall r :: r != ref && r in s.grants ==> r in s'.grants && s'.grants[r] == s.grants[r])
    && (forall t :: Owner(t) != ref ==> (t in s'.tokens <==> t in s.tokens))
    && (forall t :: Owner(t) != ref && t in s.tokens ==> t in s'.tokens && s'.tokens[t] == s.tokens[t])
  }

  /** The tokens of the grant are those of before, and perhaps new ones that expire by `limit`. */
  ghost predicate NewTokensBy(s: Store, s': Store, ref: GrantRef, limit: int) {
    forall t :: t in s'.tokens && Owner(t) == ref ==>
      (t in s.tokens && s'.tokens[t] == s.tokens[t]) || s'.tokens[t].record.expiresAt <= limit
  }

  ghost predicate SameRecords(s: Store, s': Store) {
    s'.grants == s.grants && s'.tokens == s.tokens
  }

  /** The grant is stored as `x`, nothing else of other grants changes, and new tokens expire by `limit`. */
  ghost predicate Writes(s: Store, s': Store, ref: GrantRef, x: Stored<Grant>, limit: int) {
    OnlyUnder(s, s', ref) && ref in s'.grants && s'.grants[ref] == x && NewTokensBy(s, s', ref, limit)
  }

  lemma PutGrantWrites(s: Store, s1: Store, ref: GrantRef, g: Grant, expiration: Option<int>, limit: int)
    requires SameRecords(s, s1)
    ensures Writes(s, PutGrant(s1, ref, g, expiration), ref, Stored(g, expiration), limit)
  {
  }

  lemma PutTokenWrites(s: Store, s1: Store, ref: GrantRef, x: Stored<Grant>, limit: int, t: TokenRef, token: Token,
                       ttl: int)
    requires Writes(s, s1, ref, x, limit) && Owner(t) == ref && token.expiresAt <= limit
    ensures Writes(s, PutToken(s1, t, token, ttl), ref, x, limit)
  {
  }

  lemma CreateWrites(s: Store, s1: Store, ref: GrantRef, x: Stored<Grant>, limit: int, b: Bearer, m: Mint,
                     refreshToken: Option<Bearer>, fault: Fault)
    requires Writes(s, s1, ref, x, limit) && RefOf(b) == ref && s1.now + m.expiresIn <= limit
    ensures var s' := CreateAccessToken(s1, b, m, refreshToken, fault).store;
      Writes(s, s', ref, x, limit) && s'.now == s1.now && s'.used == s1.used
  {
    hide Writes;
    if m.expiresIn >= KV_MIN_EXPIRATION_TTL_SECONDS && !fault.TokenWriteFails? {
      PutTokenWrites(s, s1, ref, x, limit, TokenRefOf(b), TokenRecord(s1.now, b, m, m.scope), m.expiresIn);
    }
  }

  lemma WritesLater(s: Store, s1: Store, s2: Store, ref: GrantRef, x: Stored<Grant>, limit: int)
    requires Writes(s, s1, ref, x, limit) && SameRecords(s1, s2)
    ensures Writes(s, s2, ref, x, limit)
  {
  }

  /** What a code exchange stores as the consumed grant, at the time `at` after the callback. */
  ghost predicate Consumed(cfg: Config, r: CodeRequest, g: Grant, at: int, x: Stored<Grant>) {
    var ttl := CallbackRefreshTTL(r.callback, cfg.refreshTokenTTL);
    && x.record.authCodeWrappedKey.None? && x.expiration == GrantExpiration(at, x.record)
    && x.record.expiresAt == (if ttl == Some(0) then g.expiresAt else if ttl.Some? then Some(at + ttl.value) else None)
  }

  /** The latest expiry of the access token of a code exchange. */
  function TokenLimit(cfg: Config, r: CodeRequest, at: int): int {
    at + r.mintDelay + CallbackTTL(r.callback, cfg.accessTokenTTL)
  }

  lemma ConsumeWrites(cfg: Config, s: Store, s1: Store, r: CodeRequest, g: Grant, k: Rekeyed)
    requires r.code.Parsed? && ResolveTokenResource(cfg, r.resource, g.resource).Ok? && SameRecords(s, s1)
    requires !r.fault.GrantWriteFails?
    ensures var s' := ConsumeAndMint(cfg, s1, r, g, k).store;
      && s'.now == s1.now + r.mintDelay && s'.used == s1.used && RefOf(r.code.token) in s'.grants
      && var x := s'.grants[RefOf(r.code.token)];
         Consumed(cfg, r, g, s1.now, x) && Writes(s, s', RefOf(r.code.token), x, TokenLimit(cfg, r, s1.now))
  {
    hide Writes, CreateAccessToken, CallbackScope, CallbackTTL, CallbackRefreshTTL, GrantExpiration, ConsumeCode,
         Consumed;
    var b, ref := r.code.token, RefOf(r.code.token);
    var refreshTTL := CallbackRefreshTTL(r.callback, cfg.refreshTokenTTL);
    var refreshToken := if refreshTTL != Some(0) then Some(Bearer(b.userId, b.grantId, r.newRefreshSecret)) else None;
    var expiresAt := if refreshTTL.Some? then Some(s1.now + refreshTTL.value) else None;
    var next := ConsumeCode(g, k.grantData, k.grantKey, refreshToken, expiresAt);
    var x := Stored(next, GrantExpiration(s1.now, next));
    ConsumedAs(cfg, r, g, s1.now, k, refreshToken, expiresAt);
    PutGrantWrites(s, s1, ref, next, GrantExpiration(s1.now, next), TokenLimit(cfg, r, s1.now));
    var s2 := SaveGrantWithTTL(s1, ref, next);
    WritesLater(s, s2, Advance(s2, r.mintDelay), ref, x, TokenLimit(cfg, r, s1.now));
    var scope := CallbackScope(r.callback, Downscope(r.scope, g.scope), g.scope);
    var m := Mint(g.clientId, scope, k.tokenData, k.tokenKey, CallbackTTL(r.callback, cfg.accessTokenTTL),
                  ResolveTokenResource(cfg, r.resource, g.resource).value);
    CreateWrites(s, Advance(s2, r.mintDelay), ref, x, TokenLimit(cfg, r, s1.now),
                 Bearer(b.userId, b.grantId, r.newAccessSecret), m,
                 refreshToken, r.fault);
    WrittenAs(s, ConsumeAndMint(cfg, s1, r, g, k).store, ref, x, TokenLimit(cfg, r, s1.now));
  }

  lemma WrittenAs(s: Store, s': Store, ref: GrantRef, x: Stored<Grant>, limit: int)
    requires Writes(s, s', ref, x, limit)
    ensures ref in s'.grants && s'.grants[ref] == x
  {
  }

  lemma ConsumedAs(cfg: Config, r: CodeRequest, g: Grant, at: int, k: Rekeyed, refreshToken: Option<Bearer>,
                   expiresAt: Option<int>)
    requires var ttl := CallbackRefreshTTL(r.callback, cfg.refreshTokenTTL);
      (refreshToken.Some? <==> ttl != Some(0)) && expiresAt == if ttl.Some? then Some(at + ttl.value) else None
    ensures var next := ConsumeCode(g, k.grantData, k.grantKey, refreshToken, expiresAt);
      Consumed(cfg, r, g, at, Stored(next, GrantExpiration(at, next)))
  {
    hide CallbackRefreshTTL, GrantExpiration;
  }

  /** A code exchange that gets past its checks changes no record, or stores the consumed grant. */
  lemma CodeEffect(cfg: Config, s: Store, r: CodeRequest)
    requires CheckCode(cfg, s, r).Proceed?
    ensures var s', g, at := ExchangeCode(cfg, s, r).store, CheckCode(cfg, s, r).grant, s.now + r.callbackTime;
      && r.code.Parsed? && s.now <= s'.now && s.used <= s'.used
      && (SameRecords(s, s') ||
          (&& at <= s'.now && RefOf(r.code.token) in s'.grants
           && var x := s'.grants[RefOf(r.code.token)];
              Consumed(cfg, r, g, at, x) && Writes(s, s', RefOf(r.code.token), x, TokenLimit(cfg, r, at))))
  {
    hide CheckCode, ResolveTokenResource, RekeyOnCode, ConsumeAndMint, Writes, Consumed, TokenLimit;
    var g := CheckCode(cfg, s, r).grant;
    CheckedCode(cfg, s, r, g);
    if !r.callback.Threw? {
      var k := RekeyOnCode(g.authCodeWrappedKey.value.key, g.encryptedProps, r.callback, s.nextKey);
      var s1 := Advance(Use(s, {r.newRefreshSecret, r.newAccessSecret}), r.callbackTime).(nextKey := k.nextKey);
      if r.fault.GrantWriteFails? { GrantNotWritten(cfg, s1, r, g, k); } else { ConsumeWrites(cfg, s, s1, r, g, k); }
    }
  }

  lemma GrantNotWritten(cfg: Config, s: Store, r: CodeRequest, g: Grant, k: Rekeyed)
    requires r.code.Parsed? && ResolveTokenResource(cfg, r.resource, g.resource).Ok? && r.fault.GrantWriteFails?
    ensures ConsumeAndMint(cfg, s, r, g, k).store == s
  {
  }

  lemma RotateWrites(cfg: Config, s: Store, s1: Store, r: RefreshRequest, g: Grant, k: Rekeyed, limit: int)
    requires r.refreshToken.Parsed? && ResolveTokenResource(cfg, r.resource, g.resource).Ok? && SameRecords(s, s1)
    requires limit == if g.expiresAt.Some? then g.expiresAt.value
                      else s1.now + CallbackTTL(r.callback, cfg.accessTokenTTL)
    ensures var s', ref := RotateAndMint(cfg, s1, r, g, k).store, RefOf(r.refreshToken.token);
      && s'.now == s1.now && s'.used == s1.used
      && (SameRecords(s, s') ||
          (&& ref in s'.grants
           && var x := s'.grants[ref];
           && x.record.authCodeWrappedKey == g.authCodeWrappedKey && x.record.expiresAt == g.expiresAt
           && x.expiration == GrantExpiration(s1.now, g) && Writes(s, s', ref, x, limit)))
  {
    hide Writes, CallbackScope, CallbackTTL, GrantExpiration, Rotate;
    var b, ref := r.refreshToken.token, RefOf(r.refreshToken.token);
    var ttl := ClampedTTL(s1.now, g, CallbackTTL(r.callback, cfg.accessTokenTTL));
    if !TooCloseToExpiry(s1.now, g) && ttl >= KV_MIN_EXPIRATION_TTL_SECONDS && !r.fault.GrantWriteFails? {
      var newRefresh, newAccess := Bearer(b.userId, b.grantId, r.newRefreshSecret),
                                   Bearer(b.userId, b.grantId, r.newAccessSecret);
      var next := Rotate(g, b, newRefresh, k.grantData, k.grantKey);
      RotatedKeeps(g, b, newRefresh, k.grantData, k.grantKey, s1.now);
      var x, s2 := Stored(next, GrantExpiration(s1.now, next)), SaveGrantWithTTL(s1, ref, next);
      PutGrantWrites(s, s1, ref, next, GrantExpiration(s1.now, next), limit);
      if !r.fault.TokenWriteFails? {
        var scope := CallbackScope(r.callback, Downscope(r.scope, g.scope), g.scope);
        var m := Mint(g.clientId, scope, k.tokenData, k.tokenKey, ttl,
                      ResolveTokenResource(cfg, r.resource, g.resource).value);
        PutTokenWrites(s, s2, ref, x, limit, TokenRefOf(newAccess), TokenRecord(s2.now, newAccess, m, g.scope), ttl);
      }
    }
  }

  lemma RotatedKeeps(g: Grant, presented: Bearer, newToken: Bearer, data: Ciphertext, key: CryptoKey, now: int)
    ensures var next := Rotate(g, presented, newToken, data, key);
      next.authCodeWrappedKey == g.authCodeWrappedKey && next.expiresAt == g.expiresAt &&
      GrantExpiration(now, next) == GrantExpiration(now, g)
  {
  }

  lemma RefreshEffect(cfg: Config, s: Store, r: RefreshRequest)
    ensures var s' := Refresh(cfg, s, r).store;
      && s.now <= s'.now && s.used <= s'.used
      && (SameRecords(s, s') ||
          (&& r.refreshToken.Parsed?
           && RefOf(r.refreshToken.token) in s.grants && RefOf(r.refreshToken.token) in s'.grants
           && OnlyUnder(s, s', RefOf(r.refreshToken.token))
           && var g, x := s.grants[RefOf(r.refreshToken.token)].record, s'.grants[RefOf(r.refreshToken.token)];
           && Some(Digest(r.refreshToken.token)) in {g.refreshTokenId, g.previousRefreshTokenId}
           && x.record.authCodeWrappedKey == g.authCodeWrappedKey && x.record.expiresAt == g.expiresAt
           && x.expiration == GrantExpiration(s'.now, g)
           && (g.expiresAt.Some? ==> NewTokensBy(s, s', RefOf(r.refreshToken.token), g.expiresAt.value))))
  {
    hide CheckRefresh, ResolveTokenResource, RekeyOnRefresh, RotateAndMint, OnlyUnder, NewTokensBy;
    if CheckRefresh(cfg, s, r).Ok? {
      var g := CheckRefresh(cfg, s, r).value;
      CheckedRefresh(cfg, s, r, g);
      var wrapped := WrappedKeyFor(g, r.refreshToken.token);
      if wrapped.Some? && !r.callback.Threw? {
        var k := RekeyOnRefresh(wrapped.value.key, g.encryptedProps, r.callback, s.nextKey);
        var s1 := Advance(Use(s, {r.newRefreshSecret, r.newAccessSecret}), r.callbackTime).(nextKey := k.nextKey);
        var limit := if g.expiresAt.Some? then g.expiresAt.value
                     else s1.now + CallbackTTL(r.callback, cfg.accessTokenTTL);
        RotateWrites(cfg, s, s1, r, g, k, limit);
      }
    }
  }

  lemma CreateUnder(s: Store, s1: Store, b: Bearer, m: Mint, refreshToken: Option<Bearer>, fault: Fault, limit: int)
    requires SameRecords(s, s1)
    ensures var s' := CreateAccessToken(s1, b, m, refreshToken, fault).store;
      && s'.now == s1.now && s'.used == s1.used && s'.grants == s.grants && OnlyUnder(s, s', RefOf(b))
      && (s1.now + m.expiresIn <= limit ==> NewTokensBy(s, s', RefOf(b), limit))
  {
  }

  /** When the token of an exchange expires: what is asked for or what is left, from the end of the handler. */
  function ExchangeLimit(cfg: Config, s: Store, r: ExchangeRequest, subject: Token): int {
    s.now + r.callbackTime + Min(AskedTTL(cfg, r), subject.expiresAt - s.now)
  }

  lemma ExchangeEffect(cfg: Config, s: Store, r: ExchangeRequest)
    ensures var s' := Exchange(cfg, s, r).store;
      && s.now <= s'.now && s.used <= s'.used && s'.grants == s.grants
      && (SameRecords(s, s') ||
          (&& r.subjectToken.Parsed?
           && FindToken(s, r.subjectToken.token).Some? && RefOf(r.subjectToken.token) in s.grants
           && OnlyUnder(s, s', RefOf(r.subjectToken.token))
           && NewTokensBy(s, s', RefOf(r.subjectToken.token),
                          ExchangeLimit(cfg, s, r, FindToken(s, r.subjectToken.token).value))))
  {
    hide ExchangeAudience, ExchangeScopes, RekeyOnExchange, CreateAccessToken, OnlyUnder, NewTokensBy;
    if r.subjectToken.Parsed? && FindToken(s, r.subjectToken.token).Some? && RefOf(r.subjectToken.token) in s.grants &&
       !r.callback.Threw? {
      var b := r.subjectToken.token;
      var t := FindToken(s, b).value;
      var audience := ExchangeAudience(cfg, r, t, s.grants[RefOf(b)].record);
      if audience.Ok? {
        var k := RekeyOnExchange(t.wrappedEncryptionKey.key, t.encryptedProps, r.callback, s.nextKey);
        var s1 := Advance(Use(s, {r.newAccessSecret}), r.callbackTime).(nextKey := k.nextKey);
        var m := Mint(t.clientId, ExchangeScopes(r, t), k.tokenData, k.tokenKey,
                      ExchangeTTL(cfg, r, t.expiresAt - s.now), audience.value);
        CreateUnder(s, s1, Bearer(b.userId, b.grantId, r.newAccessSecret), m, None, r.fault,
                    ExchangeLimit(cfg, s, r, t));
      }
    }
  }

  lemma IssueWrites(s: Store, s1: Store, r: EmaRequest, checked: ValidIdJag, ttl: int)
    requires r.mapped.MappedTo? && SameRecords(s, s1)
    ensures var s', ref := IssueFromAssertion(s1, r, checked, ttl).store, GrantRef(r.mapped.userId, r.grantId);
      && s1.now <= s'.now && s1.used <= s'.used
      && (SameRecords(s, s') ||
          (OnlyUnder(s, s', ref) && ref in s'.grants && s'.grants[ref].record.authCodeWrappedKey.None?))
  {
    hide Writes, CreateAccessToken, GrantExpiration, Downscope;
    var ref := GrantRef(r.mapped.userId, r.grantId);
    var scope := if checked.scopes != [] then Downscope(Many(r.mapped.scope), checked.scopes) else r.mapped.scope;
    var data, key := Ciphertext(s1.nextKey, r.mapped.props), s1.nextKey;
    var s2 := Use(s1, {r.grantId, r.newAccessSecret}).(nextKey := key + 1);
    var g := Grant(r.grantId, r.clientId, r.mapped.userId, scope, data, Some(s1.now + ttl),
                   None, None, None, None, None, None, None, None, Some([checked.resource]), None);
    if !r.fault.GrantWriteFails? {
      var x, limit := Stored(g, GrantExpiration(s2.now, g)), s2.now + r.mintDelay + ttl;
      PutGrantWrites(s, s2, ref, g, GrantExpiration(s2.now, g), limit);
      var s3 := SaveGrantWithTTL(s2, ref, g);
      WritesLater(s, s3, Advance(s3, r.mintDelay), ref, x, limit);
      var m := Mint(r.clientId, scope, data, key, ttl, Some([checked.resource]));
      CreateWrites(s, Advance(s3, r.mintDelay), ref, x, limit, Bearer(r.mapped.userId, r.grantId, r.newAccessSecret), m,
                   None, r.fault);
      UnderWrites(s, IssueFromAssertion(s1, r, checked, ttl).store, ref, x, limit);
    }
  }

  lemma UnderWrites(s: Store, s': Store, ref: GrantRef, x: Stored<Grant>, limit: int)
    requires Writes(s, s', ref, x, limit)
    ensures OnlyUnder(s, s', ref) && ref in s'.grants && s'.grants[ref] == x
  {
  }

  lemma EmaEffect(cfg: Config, s: Store, r: EmaRequest)
    ensures var s' := MintFromAssertion(cfg, s, r).store;
      && s.now <= s'.now && s.used <= s'.used
      && (SameRecords(s, s') ||
          (&& r.mapped.MappedTo? && OnlyUnder(s, s', GrantRef(r.mapped.userId, r.grantId))
           && GrantRef(r.mapped.userId, r.grantId) in s'.grants
           && s'.grants[GrantRef(r.mapped.userId, r.grantId)].record.authCodeWrappedKey.None?))
  {
    hide ValidateClaims, ParseScopeParam, AccessTokenTTL, IssueFromAssertion, OnlyUnder;
    if r.verified && ValidateClaims(r.claims, r.clientId, r.policy, s.now).Ok? && MapperAccepts(r.mapped, r.policy) {
      var marker, s1 := JtiKey(r.claims), Advance(s, r.markDelay);
      var ttl := MarkerTTL(r.claims.exp, s1.now);
      var s2 := s1.(markers := s1.markers[marker := s1.now + ttl], lifetimes := s1.lifetimes + [ttl]);
      var s3 := Advance(s2, r.mapperDelay);
      var lifetime := AccessTokenTTL(cfg.accessTokenTTL, r.claims.exp, r.mapped.accessTokenTTL, s3.now,
                                     KV_MIN_EXPIRATION_TTL_SECONDS);
      if lifetime.Ok? {
        IssueWrites(s, s3, r, ValidateClaims(r.claims, r.clientId, r.policy, s.now).value, lifetime.value);
      }
    }
  }

  lemma AuthorizeEffect(cfg: Config, s: Store, a: AuthorizeRequest)
    requires a.accepted
    ensures var s', ref := Authorize(cfg, s, a).store, GrantRef(a.userId, a.grantId);
      && s.now <= s'.now && s.used <= s'.used
      && (forall r :: r in s'.grants && r != ref ==> r in s.grants && s'.grants[r] == s.grants[r])
      && (forall t :: t in s'.tokens && Owner(t) != ref ==> t in s.tokens && s'.tokens[t] == s.tokens[t])
      && (forall r :: r in s.grants && r != ref && r !in s'.grants ==> forall t :: t in s'.tokens ==> Owner(t) != r)
      && (ref in s'.grants ==> s'.grants[ref].record.expiresAt.None?)
      && (ref in s'.grants && s'.grants[ref].record.authCodeWrappedKey.Some? ==>
            forall t :: t in s'.tokens && Owner(t) == ref ==> t in s.tokens)
  {
  }

  lemma RevokeTokenEffect(s: Store, token: Presented, clientId: string, refreshFirst: bool)
    ensures var s' := RevokeToken(s, token, clientId, refreshFirst).store;
      && s'.now == s.now && s'.used == s.used
      && (forall r :: r in s'.grants ==> r in s.grants && s'.grants[r] == s.grants[r])
      && (forall t :: t in s'.tokens ==> t in s.tokens && s'.tokens[t] == s.tokens[t])
      && (forall r :: r in s.grants && r !in s'.grants ==> forall t :: t in s'.tokens ==> Owner(t) != r)
  {
  }

  // ---------------------------------------------------------------- unused codes

  /** While its code is unused, a grant has no expiry of its own and no access tokens. */
  ghost predicate Pristine(s: Store) {
    forall r :: r in s.grants && s.grants[r].record.authCodeWrappedKey.Some? ==>
      s.grants[r].record.expiresAt.None? && forall t :: t in s.tokens ==> Owner(t) != r
  }

  lemma PristineOutside(s: Store, s': Store, ref: GrantRef)
    requires Pristine(s) && OnlyUnder(s, s', ref)
    requires ref in s'.grants ==> s'.grants[ref].record.authCodeWrappedKey.None?
    ensures Pristine(s')
  {
  }

  lemma PristineLosing(s: Store, s': Store)
    requires Pristine(s)
    requires forall r :: r in s'.grants ==> r in s.grants && s'.grants[r] == s.grants[r]
    requires forall t :: t in s'.tokens ==> t in s.tokens
    ensures Pristine(s')
  {
  }

  lemma StepKeepsPristine(cfg: Config, s: Store, e: Event)
    requires Inv(s) && Pristine(s) && Fresh(s, e)
    ensures Pristine(Step(cfg, s, e).store)
  {
    hide Inv, Pristine, OnlyUnder, NewTokensBy, Authorize, ExchangeCode, Refresh, Exchange, MintFromAssertion,
         RevokeToken, CheckCode;
    PristineLosing(s, s);
    match e
    case AuthorizeEvent(a) => if a.accepted { AuthorizePristine(cfg, s, a); } else { RefusedAuthorization(cfg, s, a); }
    case CodeEvent(r) => CodePristine(cfg, s, r);
    case RefreshEvent(r) => RefreshPristine(cfg, s, r);
    case ExchangeEvent(r) => ExchangePristine(cfg, s, r);
    case EmaEvent(r) => EmaPristine(cfg, s, r);
    case RevokeEvent(token, clientId, refreshFirst) =>
      RevokeTokenEffect(s, token, clientId, refreshFirst);
      PristineLosing(s, Step(cfg, s, e).store);
    case Remove(grants, tokens) => PristineLosing(s, Step(cfg, s, e).store);
    case Tick(seconds, evicted) => PristineLosing(s, Step(cfg, s, e).store);
  }

  lemma RefusedAuthorization(cfg: Config, s: Store, a: AuthorizeRequest)
    requires !a.accepted
    ensures Authorize(cfg, s, a).store == s
  {
  }

  lemma AuthorizePristine(cfg: Config, s: Store, a: AuthorizeRequest)
    requires Inv(s) && Pristine(s) && Fresh(s, AuthorizeEvent(a)) && a.accepted
    ensures Pristine(Authorize(cfg, s, a).store)
  {
    hide Inv, Authorize;
    AuthorizeEffect(cfg, s, a);
    SecretsAreUsed(s);
  }

  /** A check that does not let the request proceed rejects it or finds a replay. */
  lemma NotProceeding(cfg: Config, s: Store, r: CodeRequest)
    requires !CheckCode(cfg, s, r).Proceed?
    ensures var s' := ExchangeCode(cfg, s, r).store;
      s' == s || (CheckCode(cfg, s, r) == Replay && r.code.Parsed? && s' == Revoke(s, RefOf(r.code.token)))
  {
    hide CheckCode;
    if CheckCode(cfg, s, r).Replay? { ReplayedCode(cfg, s, r); }
  }

  lemma ConsumedPristine(cfg: Config, s: Store, s': Store, r: CodeRequest)
    requires Pristine(s) && CheckCode(cfg, s, r).Proceed? && r.code.Parsed? && RefOf(r.code.token) in s'.grants
    requires var x, at := s'.grants[RefOf(r.code.token)], s.now + r.callbackTime;
      Consumed(cfg, r, CheckCode(cfg, s, r).grant, at, x) &&
      Writes(s, s', RefOf(r.code.token), x, TokenLimit(cfg, r, at))
    ensures Pristine(s')
  {
    hide CheckCode, OnlyUnder, NewTokensBy, Pristine;
    PristineOutside(s, s', RefOf(r.code.token));
  }

  lemma CodePristine(cfg: Config, s: Store, r: CodeRequest)
    requires Pristine(s)
    ensures Pristine(ExchangeCode(cfg, s, r).store)
  {
    hide Pristine, OnlyUnder, NewTokensBy, ExchangeCode, CheckCode, Writes, Consumed, TokenLimit;
    var s' := ExchangeCode(cfg, s, r).store;
    if CheckCode(cfg, s, r).Proceed? {
      CodeEffect(cfg, s, r);
      if SameRecords(s, s') { PristineLosing(s, s'); } else { ConsumedPristine(cfg, s, s', r); }
    } else {
      NotProceeding(cfg, s, r);
      PristineLosing(s, s');
    }
  }

  lemma RefreshPristine(cfg: Config, s: Store, r: RefreshRequest)
    requires Inv(s) && Pristine(s)
    ensures Pristine(Refresh(cfg, s, r).store)
  {
    hide Inv, Pristine, OnlyUnder, NewTokensBy, Refresh;
    var s' := Refresh(cfg, s, r).store;
    RefreshEffect(cfg, s, r);
    if SameRecords(s, s') {
      PristineLosing(s, s');
    } else {
      UsedCodeOf(s, RefOf(r.refreshToken.token));
      PristineOutside(s, s', RefOf(r.refreshToken.token));
    }
  }

  /** A grant that accepts a refresh token has no unused code. */
  lemma UsedCodeOf(s: Store, ref: GrantRef)
    requires Inv(s) && ref in s.grants
    requires (s.grants[ref].record.refreshTokenId.Some? || s.grants[ref].record.previousRefreshTokenId.Some?)
    ensures s.grants[ref].record.authCodeWrappedKey.None?
  {
    assert GrantOk(s, ref, s.grants[ref].record);
  }

  lemma ExchangePristine(cfg: Config, s: Store, r: ExchangeRequest)
    requires Pristine(s)
    ensures Pristine(Exchange(cfg, s, r).store)
  {
    hide OnlyUnder, NewTokensBy, Exchange;
    var s' := Exchange(cfg, s, r).store;
    ExchangeEffect(cfg, s, r);
    if SameRecords(s, s') {
      PristineLosing(s, s');
    } else {
      var b := r.subjectToken.token;
      assert TokenRefOf(b) in s.tokens && Owner(TokenRefOf(b)) == RefOf(b);
      PristineOutside(s, s', RefOf(b));
    }
  }

  lemma EmaPristine(cfg: Config, s: Store, r: EmaRequest)
    requires Pristine(s)
    ensures Pristine(MintFromAssertion(cfg, s, r).store)
  {
    hide Pristine, OnlyUnder, MintFromAssertion;
    var s' := MintFromAssertion(cfg, s, r).store;
    EmaEffect(cfg, s, r);
    if SameRecords(s, s') {
      PristineLosing(s, s');
    } else {
      PristineOutside(s, s', GrantRef(r.mapped.userId, r.grantId));
    }
  }

  /** In every run an unused code's grant has no expiry and no access tokens. */
  lemma {:induction false} RunKeepsPristine(cfg: Config, s: Store, events: seq<Event>)
    requires cfg.Valid() && Inv(s) && Pristine(s) && FreshRun(cfg, s, events)
    ensures Inv(Run(cfg, s, events)) && Pristine(Run(cfg, s, events))
    decreases |events|
  {
    hide Inv, Pristine, Step;
    if events != [] {
      StepKeepsInv(cfg, s, events[0]);
      StepKeepsPristine(cfg, s, events[0]);
      RunKeepsPristine(cfg, Step(cfg, s, events[0]).store, events[1..]);
    }
  }

  // ---------------------------------------------------------------- can a token outlive its grant?

  /** The access token of a code exchange stays within the life of the grant that is stored with it.
      KV keeps a grant for at least 65 seconds, the minimum and its margin. */
  predicate TokenFitsGrant(cfg: Config, r: CodeRequest) {
    var ttl := CallbackRefreshTTL(r.callback, cfg.refreshTokenTTL);
    ttl.None? || ttl == Some(0) ||
    r.mintDelay + CallbackTTL(r.callback, cfg.accessTokenTTL)
      <= Max(ttl.value, KV_MIN_EXPIRATION_TTL_SECONDS + KV_EXPIRATION_CLAMP_MARGIN_SECONDS)
  }

  /** How long KV is told to keep the grant that a code exchange stores at the time `at`. */
  function KeptUntil(cfg: Config, r: CodeRequest, at: int): Option<int> {
    var ttl := CallbackRefreshTTL(r.callback, cfg.refreshTokenTTL);
    if ttl.None? || ttl == Some(0) then None
    else Some(at + Max(ttl.value, KV_MIN_EXPIRATION_TTL_SECONDS + KV_EXPIRATION_CLAMP_MARGIN_SECONDS))
  }

  /** A code exchange does not clamp its access token as a refresh does: KV keeps the token no longer
      than the grant exactly when the configuration and the callback happen to fit. */
  lemma TokenWithinGrantExactlyWhen(cfg: Config, s: Store, r: CodeRequest)
    requires Pristine(s) && ExchangeCode(cfg, s, r).response.Issued?
    ensures var s', a := ExchangeCode(cfg, s, r).store, ExchangeCode(cfg, s, r).response.accessToken;
      && r.code.Parsed? && RefOf(a) == RefOf(r.code.token) && RefOf(a) in s'.grants && TokenRefOf(a) in s'.tokens
      && var grant, token := s'.grants[RefOf(a)].expiration, s'.tokens[TokenRefOf(a)].expiration;
      && token == Some(s'.tokens[TokenRefOf(a)].record.expiresAt)
      && token.value == TokenLimit(cfg, r, s.now + r.callbackTime)
      && s'.now <= token.value && s'.grants[RefOf(a)].record.authCodeWrappedKey.None?
      && grant == KeptUntil(cfg, r, s.now + r.callbackTime)
      && ((grant.Some? ==> token.value <= grant.value) <==> TokenFitsGrant(cfg, r))
  {
    hide CheckCode, ResolveTokenResource, CallbackScope, RekeyOnCode, CallbackTTL, CallbackRefreshTTL;
    IssuedMeansChecked(cfg, s, r);
    CheckedCode(cfg, s, r, CheckCode(cfg, s, r).grant);
  }

  // ---------------------------------------------------------------- records that leave on time

  /** The grant is stored no shorter than any of its tokens can live; once it is gone, they have expired. */
  ghost predicate Covered(s: Store, ref: GrantRef) {
    && ref.grantId in s.used
    && (ref in s.grants ==>
          var x := s.grants[ref];
          && x.record.authCodeWrappedKey.None?
          && (x.record.expiresAt.None? <==> x.expiration.None?)
          && (x.expiration.Some? ==>
                && x.record.expiresAt.value <= x.expiration.value
                && x.expiration.value <= GrantExpiration(s.now, x.record).value
                && forall t :: t in s.tokens && Owner(t) == ref ==> s.tokens[t].record.expiresAt <= x.expiration.value))
    && (ref !in s.grants ==> forall t :: t in s.tokens && Owner(t) == ref ==> s.tokens[t].record.expiresAt < s.now)
  }

  /** KV drops a grant only after its expiration, or all its tokens go with it. */
  predicate LeavesInOrder(s: Store, e: Event, ref: GrantRef) {
    e.Remove? && ref in e.grants && ref in s.grants ==>
      (s.grants[ref].expiration.Some? && s.grants[ref].expiration.value < s.now) ||
      forall t :: t in s.tokens && Owner(t) == ref ==> t in e.tokens
  }

  predicate LeaveInOrder(cfg: Config, s: Store, events: seq<Event>, ref: GrantRef)
    decreases |events|
  {
    events == [] ||
    (LeavesInOrder(s, events[0], ref) && LeaveInOrder(cfg, Step(cfg, s, events[0]).store, events[1..], ref))
  }

  /** The token of an exchange stays within the life of the grant that is stored. */
  predicate ExchangeFitsGrant(cfg: Config, s: Store, r: ExchangeRequest) {
    r.subjectToken.Parsed? && FindToken(s, r.subjectToken.token).Some? && RefOf(r.subjectToken.token) in s.grants ==>
      var expiration := s.grants[RefOf(r.subjectToken.token)].expiration;
      expiration.None? || ExchangeLimit(cfg, s, r, FindToken(s, r.subjectToken.token).value) <= expiration.value
  }

  /** If the step issues a token by an exchange under the grant, that token fits. */
  predicate IssuesWithin(cfg: Config, s: Store, e: Event, ref: GrantRef) {
    e.ExchangeEvent? && e.x.subjectToken.Parsed? && RefOf(e.x.subjectToken.token) == ref &&
    Exchange(cfg, s, e.x).response.Issued? ==>
      ExchangeFitsGrant(cfg, s, e.x)
  }

  predicate IssueWithin(cfg: Config, s: Store, events: seq<Event>, ref: GrantRef)
    decreases |events|
  {
    events == [] ||
    (IssuesWithin(cfg, s, events[0], ref) && IssueWithin(cfg, Step(cfg, s, events[0]).store, events[1..], ref))
  }

  lemma CoveredLosing(s: Store, s': Store, ref: GrantRef)
    requires Covered(s, ref) && s.used <= s'.used && s.now <= s'.now
    requires ref in s'.grants ==> ref in s.grants && s'.grants[ref] == s.grants[ref]
    requires forall t :: t in s'.tokens && Owner(t) == ref ==> t in s.tokens && s'.tokens[t] == s.tokens[t]
    requires ref in s.grants && ref !in s'.grants ==>
      (s.grants[ref].expiration.Some? && s.grants[ref].expiration.value < s'.now) || forall t :: t in s'.tokens ==>
        Owner(t) != ref
    ensures Covered(s', ref)
  {
  }

  lemma CoveredElsewhere(s: Store, s': Store, ref: GrantRef, other: GrantRef)
    requires Covered(s, ref) && s.used <= s'.used && s.now <= s'.now && OnlyUnder(s, s', other) && ref != other
    ensures Covered(s', ref)
  {
    CoveredLosing(s, s', ref);
  }

  lemma StepKeepsCovered(cfg: Config, s: Store, e: Event, ref: GrantRef)
    requires Inv(s) && Fresh(s, e) && Covered(s, ref) && LeavesInOrder(s, e, ref) && IssuesWithin(cfg, s, e, ref)
    ensures Covered(Step(cfg, s, e).store, ref)
  {
    hide Inv, Covered, OnlyUnder, NewTokensBy, Authorize, ExchangeCode, Refresh, Exchange, MintFromAssertion,
         RevokeToken, CheckCode, ExchangeFitsGrant;
    var s' := Step(cfg, s, e).store;
    UsedId(s, ref);
    match e
    case AuthorizeEvent(a) => if a.accepted {
      AuthorizeCovered(cfg, s, a, ref);
    } else {
      RefusedAuthorization(cfg, s, a);
    }
    case CodeEvent(r) => CodeCovered(cfg, s, r, ref);
    case RefreshEvent(r) => RefreshCovered(cfg, s, r, ref);
    case ExchangeEvent(r) => ExchangeCovered(cfg, s, r, ref);
    case EmaEvent(r) =>
      EmaEffect(cfg, s, r);
      if SameRecords(s, s') {
        CoveredLosing(s, s', ref);
      } else {
        CoveredElsewhere(s, s', ref, GrantRef(r.mapped.userId, r.grantId));
      }
    case RevokeEvent(token, clientId, refreshFirst) =>
      RevokeTokenEffect(s, token, clientId, refreshFirst);
      CoveredLosing(s, s', ref);
    case Remove(grants, tokens) => CoveredLosing(s, s', ref);
    case Tick(seconds, evicted) => CoveredLosing(s, s', ref);
  }

  lemma UsedId(s: Store, ref: GrantRef)
    requires Covered(s, ref)
    ensures ref.grantId in s.used
  {
  }

  lemma AuthorizeCovered(cfg: Config, s: Store, a: AuthorizeRequest, ref: GrantRef)
    requires Fresh(s, AuthorizeEvent(a)) && Covered(s, ref) && a.accepted
    ensures Covered(Authorize(cfg, s, a).store, ref)
  {
    hide Authorize;
    AuthorizeEffect(cfg, s, a);
    CoveredLosing(s, Authorize(cfg, s, a).store, ref);
  }

  lemma CodeCovered(cfg: Config, s: Store, r: CodeRequest, ref: GrantRef)
    requires Covered(s, ref)
    ensures Covered(ExchangeCode(cfg, s, r).store, ref)
  {
    hide Covered, OnlyUnder, NewTokensBy, ExchangeCode, CheckCode, Consumed, TokenLimit;
    var s' := ExchangeCode(cfg, s, r).store;
    if CheckCode(cfg, s, r).Proceed? {
      CodeEffect(cfg, s, r);
      CheckedCode(cfg, s, r, CheckCode(cfg, s, r).grant);
      UsedCode(s, ref);
      if SameRecords(s, s') { CoveredLosing(s, s', ref); } else { CoveredElsewhere(s, s', ref, RefOf(r.code.token)); }
    } else {
      NotProceeding(cfg, s, r);
      CoveredLosing(s, s', ref);
    }
  }

  lemma UsedCode(s: Store, ref: GrantRef)
    requires Covered(s, ref)
    ensures ref in s.grants ==> s.grants[ref].record.authCodeWrappedKey.None?
  {
  }

  lemma RefreshCovered(cfg: Config, s: Store, r: RefreshRequest, ref: GrantRef)
    requires Covered(s, ref)
    ensures Covered(Refresh(cfg, s, r).store, ref)
  {
    hide Refresh;
    var s' := Refresh(cfg, s, r).store;
    RefreshEffect(cfg, s, r);
    if SameRecords(s, s') { CoveredLosing(s, s', ref); }
    else if RefOf(r.refreshToken.token) != ref { CoveredElsewhere(s, s', ref, RefOf(r.refreshToken.token)); }
  }

  lemma ExchangeCovered(cfg: Config, s: Store, r: ExchangeRequest, ref: GrantRef)
    requires Covered(s, ref) && IssuesWithin(cfg, s, ExchangeEvent(r), ref)
    ensures Covered(Exchange(cfg, s, r).store, ref)
  {
    hide Exchange, ExchangeLimit;
    var s' := Exchange(cfg, s, r).store;
    ExchangeEffect(cfg, s, r);
    if SameRecords(s, s') {
      CoveredLosing(s, s', ref);
    } else if RefOf(r.subjectToken.token) != ref {
      CoveredElsewhere(s, s', ref, RefOf(r.subjectToken.token));
    } else {
      WrittenMeansIssued(cfg, s, r);
    }
  }

  /** An exchange under a covered grant leaves it covered exactly when its token fits. */
  lemma TokenExchangeCovers(cfg: Config, s: Store, r: ExchangeRequest)
    requires r.subjectToken.Parsed? && Covered(s, RefOf(r.subjectToken.token)) && Exchange(cfg, s, r).response.Issued?
    ensures Covered(Exchange(cfg, s, r).store, RefOf(r.subjectToken.token)) <==> ExchangeFitsGrant(cfg, s, r)
  {
    hide Covered, Exchange, ExchangeLimit;
    ExchangedUntil(cfg, s, r);
    if ExchangeFitsGrant(cfg, s, r) {
      ExchangeCovered(cfg, s, r, RefOf(r.subjectToken.token));
    } else {
      MisfitUncovers(Exchange(cfg, s, r).store, TokenRefOf(Exchange(cfg, s, r).response.accessToken));
    }
  }

  /** The token that an exchange issues. */
  lemma ExchangedUntil(cfg: Config, s: Store, r: ExchangeRequest)
    requires Exchange(cfg, s, r).response.Issued?
    ensures r.subjectToken.Parsed? && FindToken(s, r.subjectToken.token).Some?
    ensures RefOf(r.subjectToken.token) in s.grants
    ensures var s', a := Exchange(cfg, s, r).store, Exchange(cfg, s, r).response.accessToken;
      && RefOf(a) == RefOf(r.subjectToken.token) && TokenRefOf(a) in s'.tokens && s'.grants == s.grants
      && s'.now == s.now + r.callbackTime
      && s'.tokens[TokenRefOf(a)].record.expiresAt ==
           ExchangeLimit(cfg, s, r, FindToken(s, r.subjectToken.token).value)
      && s'.now < s'.tokens[TokenRefOf(a)].record.expiresAt
  {
    hide ExchangeAudience, ExchangeScopes, RekeyOnExchange;
  }

  lemma MisfitUncovers(s: Store, t: TokenRef)
    requires t in s.tokens && Owner(t) in s.grants && s.grants[Owner(t)].expiration.Some?
    requires s.tokens[t].record.expiresAt > s.grants[Owner(t)].expiration.value
    ensures !Covered(s, Owner(t))
  {
  }

  lemma WrittenMeansIssued(cfg: Config, s: Store, r: ExchangeRequest)
    requires !SameRecords(s, Exchange(cfg, s, r).store)
    ensures Exchange(cfg, s, r).response.Issued?
  {
    hide ExchangeAudience, ExchangeScopes, RekeyOnExchange;
  }

  /** If records leave in order and the exchanges under the grant fit, a covered grant stays covered. */
  lemma {:induction false} RunKeepsCovered(cfg: Config, s: Store, events: seq<Event>, ref: GrantRef)
    requires cfg.Valid() && Inv(s) && FreshRun(cfg, s, events) && Covered(s, ref)
    requires LeaveInOrder(cfg, s, events, ref) && IssueWithin(cfg, s, events, ref)
    ensures Covered(Run(cfg, s, events), ref)
    decreases |events|
  {
    hide Inv, Covered, Step, LeavesInOrder, IssuesWithin;
    if events != [] {
      StepKeepsInv(cfg, s, events[0]);
      StepKeepsCovered(cfg, s, events[0], ref);
      RunKeepsCovered(cfg, Step(cfg, s, events[0]).store, events[1..], ref);
    }
  }

  /** A code exchange covers its grant exactly when its token fits. */
  lemma ExchangeCovers(cfg: Config, s: Store, r: CodeRequest)
    requires Inv(s) && Pristine(s) && ExchangeCode(cfg, s, r).response.Issued?
    ensures r.code.Parsed?
    ensures TokenFitsGrant(cfg, r) <==> Covered(ExchangeCode(cfg, s, r).store, RefOf(r.code.token))
  {
    hide Inv, ExchangeCode, CheckCode, TokenFitsGrant, TokenLimit, OnlyUnder;
    TokenWithinGrantExactlyWhen(cfg, s, r);
    IssuedMeansChecked(cfg, s, r);
    CodeEffect(cfg, s, r);
    CheckedCode(cfg, s, r, CheckCode(cfg, s, r).grant);
    KnownGrantId(s, RefOf(r.code.token));
    var s', ref := ExchangeCode(cfg, s, r).store, RefOf(r.code.token);
    assert s.grants[ref].record.authCodeWrappedKey.Some?;
    forall t | t in s'.tokens && Owner(t) == ref
      ensures s'.tokens[t].record.expiresAt <= TokenLimit(cfg, r, s.now + r.callbackTime)
    {
      assert t !in s.tokens;
    }
    assert Owner(TokenRefOf(ExchangeCode(cfg, s, r).response.accessToken)) == ref;
  }

  // ---------------------------------------------------------------- section 10.5 of RFC 6749

  /** Section 10.5 of RFC 6749 over whole runs: after an exchange, the second presentation of the code
      by its client ends everything issued under the grant, in that step and for ever after, if the
      grant is still stored; and also when it is not, provided that records leave in order and that the
      token of the code exchange and those of all token exchanges under the grant fit it. */
  lemma ReplayEndsTheGrant(cfg: Config, s: Store, first: CodeRequest, between: seq<Event>, second: CodeRequest,
                           later: seq<Event>, b: Bearer)
    requires cfg.Valid() && Inv(s) && Pristine(s) && FreshRun(cfg, s, [CodeEvent(first)] + between)
    requires ExchangeCode(cfg, s, first).response.Issued?
    requires second.code == first.code && second.clientId == first.clientId && RefOf(b) == RefOf(first.code.token)
    requires var s0 := ExchangeCode(cfg, s, first).store;
      || RefOf(b) in Run(cfg, s0, between).grants
      || (&& LeaveInOrder(cfg, s0, between, RefOf(b))
          && TokenFitsGrant(cfg, first) && IssueWithin(cfg, s0, between, RefOf(b)))
    requires var s1 := Run(cfg, s, [CodeEvent(first)] + between);
      Fresh(s1, CodeEvent(second)) && FreshRun(cfg, ExchangeCode(cfg, s1, second).store, later)
    ensures var s1 := Run(cfg, s, [CodeEvent(first)] + between);
      var s2 := ExchangeCode(cfg, s1, second).store;
      && (RefOf(b) in s1.grants ==> Dead(s2, RefOf(b)))
      && Ended(s2, RefOf(b)) && FindToken(s2, b).None?
      && Ended(Run(cfg, s2, later), RefOf(b)) && FindToken(Run(cfg, s2, later), b).None?
  {
    hide Inv, Later, Pristine, Covered, Ended, TokenFitsGrant, LeaveInOrder, IssueWithin, ExchangeCode, CodeSpent,
         Dead, Evolved;
    var events, ref := [CodeEvent(first)] + between, RefOf(b);
    assert events[0] == CodeEvent(first) && events[1..] == between;
    var s0 := ExchangeCode(cfg, s, first).store;
    assert Fresh(s, CodeEvent(first)) && Step(cfg, s, CodeEvent(first)).store == s0;
    StepKeepsInv(cfg, s, CodeEvent(first));
    var s1 := Run(cfg, s0, between);
    RunKeepsInv(cfg, s0, between);
    RunIsLater(cfg, s0, between);
    ExchangedGrant(cfg, s, first);
    GrantsStayExchanged(s0, s1, first.code.token, first.clientId);
    ReplayKills(cfg, s1, second);
    var s2 := ExchangeCode(cfg, s1, second).store;
    assert Step(cfg, s1, CodeEvent(second)).store == s2;
    StepKeepsInv(cfg, s1, CodeEvent(second));
    if ref in s1.grants {
      DeadIsEnded(s2, ref);
    } else {
      ExchangeCovers(cfg, s, first);
      RunKeepsCovered(cfg, s0, between, ref);
      CoveredAndGone(s1, ref);
    }
    RunIsLater(cfg, s2, later);
    EndedForGood(s2, Run(cfg, s2, later), ref);
    EndedIsRefused(cfg, s2, b);
    EndedIsRefused(cfg, Run(cfg, s2, later), b);
  }

  lemma CoveredAndGone(s: Store, ref: GrantRef)
    requires Covered(s, ref) && ref !in s.grants
    ensures Ended(s, ref)
  {
  }

  /** The grant leaves KV after `wait` seconds, and nothing else happens. */
  function Lapse(ref: GrantRef, wait: nat): seq<Event> {
    [Tick(wait, {}), Remove({ref}, {})]
  }

  /** After `wait` seconds the grant has left KV in order, the code is presented again, and the token
      is still accepted. */
  predicate AcceptedAfterReplay(cfg: Config, s: Store, wait: nat, second: CodeRequest, b: Bearer) {
    LeaveInOrder(cfg, s, Lapse(RefOf(b), wait), RefOf(b)) &&
    FindToken(ExchangeCode(cfg, Run(cfg, s, Lapse(RefOf(b), wait)), second).store, b).Some?
  }

  /** From the store on, a replay can leave some token of the grant accepted. */
  ghost predicate ReplayCanFail(cfg: Config, s: Store, ref: GrantRef, second: CodeRequest) {
    exists wait: nat, b :: RefOf(b) == ref && AcceptedAfterReplay(cfg, s, wait, second, b)
  }

  /** That the tokens fit is exactly what it takes: along a run in which records leave in order there is a
      moment from which a replay can leave some token of the grant accepted if and only if the token of
      the code exchange or that of a token exchange under the grant does not fit. */
  lemma ReplayCanFailExactlyWhen(cfg: Config, s: Store, first: CodeRequest, between: seq<Event>, second: CodeRequest)
    requires cfg.Valid() && Inv(s) && Pristine(s) && FreshRun(cfg, s, [CodeEvent(first)] + between)
    requires ExchangeCode(cfg, s, first).response.Issued?
    requires second.code == first.code && second.clientId == first.clientId
    requires first.code.Parsed? ==>
      LeaveInOrder(cfg, ExchangeCode(cfg, s, first).store, between, RefOf(first.code.token))
    ensures first.code.Parsed?
    ensures var s0, ref := ExchangeCode(cfg, s, first).store, RefOf(first.code.token);
      (exists n :: 0 <= n <= |between| && ReplayCanFail(cfg, Run(cfg, s0, between[..n]), ref, second)) <==>
      !(TokenFitsGrant(cfg, first) && IssueWithin(cfg, s0, between, ref))
  {
    hide Inv, Pristine, Covered, ExchangeCode, TokenFitsGrant, ReplayCanFail, Run, IssueWithin, LeaveInOrder;
    TokenWithinGrantExactlyWhen(cfg, s, first);
    ExchangeCovers(cfg, s, first);
    var s0, ref := ExchangeCode(cfg, s, first).store, RefOf(first.code.token);
    AfterFirst(cfg, s, first, between);
    if !TokenFitsGrant(cfg, first) {
      TokenOutlivesGrant(cfg, s0, ExchangeCode(cfg, s, first).response.accessToken, second);
      NoneRun(cfg, s0, between);
    } else if IssueWithin(cfg, s0, between, ref) {
      forall n | 0 <= n <= |between| ensures !ReplayCanFail(cfg, Run(cfg, s0, between[..n]), ref, second) {
        CoveredAlong(cfg, s0, between, n, ref);
        CoveredIsSafe(cfg, Run(cfg, s0, between[..n]), ref, second);
      }
    } else {
      var n := FirstMisfit(cfg, s0, between, ref, second);
    }
  }

  lemma AfterFirst(cfg: Config, s: Store, first: CodeRequest, between: seq<Event>)
    requires cfg.Valid() && Inv(s) && FreshRun(cfg, s, [CodeEvent(first)] + between)
    ensures Inv(ExchangeCode(cfg, s, first).store) && FreshRun(cfg, ExchangeCode(cfg, s, first).store, between)
  {
    hide Inv, ExchangeCode;
    var events := [CodeEvent(first)] + between;
    assert events[0] == CodeEvent(first) && events[1..] == between;
    assert Step(cfg, s, CodeEvent(first)).store == ExchangeCode(cfg, s, first).store;
    StepKeepsInv(cfg, s, CodeEvent(first));
  }

  lemma NoneRun(cfg: Config, s: Store, events: seq<Event>)
    ensures events[..0] == [] && Run(cfg, s, events[..0]) == s
  {
  }

  /** A token that outlives its stored grant is accepted after a replay. */
  lemma TokenOutlivesGrant(cfg: Config, s: Store, a: Bearer, second: CodeRequest)
    requires second.code.Parsed? && RefOf(second.code.token) == RefOf(a)
    requires RefOf(a) in s.grants && TokenRefOf(a) in s.tokens && s.grants[RefOf(a)].expiration.Some?
    requires s.grants[RefOf(a)].expiration.value < s.tokens[TokenRefOf(a)].record.expiresAt
    requires s.now <= s.tokens[TokenRefOf(a)].record.expiresAt
    ensures ReplayCanFail(cfg, s, RefOf(a), second)
  {
    hide Run, LeaveInOrder, ExchangeCode;
    var wait: nat := Max(0, s.grants[RefOf(a)].expiration.value + 1 - s.now);
    AfterLapse(cfg, s, RefOf(a), wait, second, TokenRefOf(a));
    assert AcceptedAfterReplay(cfg, s, wait, second, a);
  }

  lemma {:induction false} CoveredAlong(cfg: Config, s: Store, events: seq<Event>, n: nat, ref: GrantRef)
    requires n <= |events| && cfg.Valid() && Inv(s) && FreshRun(cfg, s, events) && Covered(s, ref)
    requires LeaveInOrder(cfg, s, events, ref) && IssueWithin(cfg, s, events, ref)
    ensures Inv(Run(cfg, s, events[..n])) && Covered(Run(cfg, s, events[..n]), ref)
    decreases n
  {
    hide Inv, Covered, Step, LeavesInOrder, IssuesWithin;
    if n > 0 {
      StepKeepsInv(cfg, s, events[0]);
      StepKeepsCovered(cfg, s, events[0], ref);
      CoveredAlong(cfg, Step(cfg, s, events[0]).store, events[1..], n - 1, ref);
      assert events[..n][1..] == events[1..][..n - 1];
    }
  }

  lemma CoveredIsSafe(cfg: Config, s: Store, ref: GrantRef, second: CodeRequest)
    requires cfg.Valid() && Inv(s) && Covered(s, ref) && second.code.Parsed? && RefOf(second.code.token) == ref
    ensures !ReplayCanFail(cfg, s, ref, second)
  {
    hide Inv, Covered, Ended, Run, LeaveInOrder, IssueWithin, ExchangeCode;
    forall wait: nat, b | RefOf(b) == ref ensures !AcceptedAfterReplay(cfg, s, wait, second, b) {
      if LeaveInOrder(cfg, s, Lapse(ref, wait), ref) {
        LapseIsQuiet(cfg, s, ref, wait);
        RunKeepsCovered(cfg, s, Lapse(ref, wait), ref);
        var s1 := Run(cfg, s, Lapse(ref, wait));
        GoneChangesNothing(cfg, s1, second);
        CoveredAndGone(s1, ref);
        EndedIsRefused(cfg, s1, b);
      }
    }
  }

  lemma LapseIsQuiet(cfg: Config, s: Store, ref: GrantRef, wait: nat)
    ensures FreshRun(cfg, s, Lapse(ref, wait)) && IssueWithin(cfg, s, Lapse(ref, wait), ref)
    ensures ref !in Run(cfg, s, Lapse(ref, wait)).grants
  {
    var tick, gone := Tick(wait, {}), Remove({ref}, {});
    var s0 := Step(cfg, s, tick).store;
    var s1 := Step(cfg, s0, gone).store;
    assert Lapse(ref, wait)[1..] == [gone] && [gone][1..] == [];
    assert Run(cfg, s, Lapse(ref, wait)) == Run(cfg, s0, [gone]) == Run(cfg, s1, []) == s1;
    assert IssueWithin(cfg, s1, [], ref) && FreshRun(cfg, s1, []);
    assert IssueWithin(cfg, s0, [gone], ref) && FreshRun(cfg, s0, [gone]);
  }

  lemma GoneChangesNothing(cfg: Config, s: Store, second: CodeRequest)
    requires second.code.Parsed? && RefOf(second.code.token) !in s.grants
    ensures ExchangeCode(cfg, s, second).store == s
  {
  }

  /** Right after the first exchange whose token does not fit, a replay can fail. */
  lemma {:induction false} FirstMisfit(cfg: Config, s: Store, events: seq<Event>, ref: GrantRef, second: CodeRequest)
    returns (n: nat)
    requires cfg.Valid() && Inv(s) && FreshRun(cfg, s, events) && Covered(s, ref)
    requires LeaveInOrder(cfg, s, events, ref) && !IssueWithin(cfg, s, events, ref)
    requires second.code.Parsed? && RefOf(second.code.token) == ref
    ensures n <= |events| && ReplayCanFail(cfg, Run(cfg, s, events[..n]), ref, second)
    decreases |events|
  {
    hide Inv, Covered, Step, Exchange, LeavesInOrder, ReplayCanFail, ExchangeLimit;
    var s1 := Step(cfg, s, events[0]).store;
    if !IssuesWithin(cfg, s, events[0], ref) {
      n := 1;
      assert events[..1][1..] == [] && events[..1][0] == events[0];
      assert Run(cfg, s, events[..1]) == Run(cfg, s1, []) == s1;
      ExchangeIsAStep(cfg, s, events[0]);
      ExchangedUntil(cfg, s, events[0].x);
      TokenOutlivesGrant(cfg, s1, Exchange(cfg, s, events[0].x).response.accessToken, second);
    } else {
      StepKeepsInv(cfg, s, events[0]);
      StepKeepsCovered(cfg, s, events[0], ref);
      n := FirstMisfit(cfg, s1, events[1..], ref, second);
      n := n + 1;
      assert events[..n][1..] == events[1..][..n - 1] && events[..n][0] == events[0];
    }
  }

  lemma ExchangeIsAStep(cfg: Config, s: Store, e: Event)
    ensures e.ExchangeEvent? ==> Step(cfg, s, e) == Exchange(cfg, s, e.x)
  {
  }

  /** An hour for access tokens and five minutes for refresh tokens: 301 seconds after the exchange the
      grant has left KV in order, the code is presented again, and the access token is still accepted. */
  lemma TokenSurvivesReplay(cfg: Config, s: Store, first: CodeRequest, second: CodeRequest)
    requires cfg.Valid() && Pristine(s) && ExchangeCode(cfg, s, first).response.Issued?
    requires cfg.accessTokenTTL == 3600 && cfg.refreshTokenTTL == Some(300) && first.callback == NoCallback
    requires first.mintDelay == 0
    requires second.code == first.code && second.clientId == first.clientId
    ensures AcceptedAfterReplay(cfg, ExchangeCode(cfg, s, first).store, 301, second,
                                ExchangeCode(cfg, s, first).response.accessToken)
  {
    hide Pristine, ExchangeCode, LeaveInOrder, Run;
    TokenWithinGrantExactlyWhen(cfg, s, first);
    IssuedMeansChecked(cfg, s, first);
    CodeClock(cfg, s, first);
    var s0, a := ExchangeCode(cfg, s, first).store, ExchangeCode(cfg, s, first).response.accessToken;
    AfterLapse(cfg, s0, RefOf(first.code.token), 301, second, TokenRefOf(a));
  }

  /** Five minutes for both kinds of token, so that the token of the code exchange fits. It is exchanged
      240 seconds later, which takes 50 seconds; 11 seconds after that the grant has left KV in order, the
      code is presented again, and the exchanged token is still accepted. */
  lemma SlowExchangeSurvivesReplay(cfg: Config, s: Store, first: CodeRequest, x: ExchangeRequest, second: CodeRequest)
    requires cfg.Valid() && Inv(s) && Pristine(s)
    requires FreshRun(cfg, s, [CodeEvent(first), Tick(240, {}), ExchangeEvent(x)])
    requires ExchangeCode(cfg, s, first).response.Issued?
    requires cfg.accessTokenTTL == 300 && cfg.refreshTokenTTL == Some(300) && cfg.configuredResource.None?
    requires first.callback == NoCallback && first.mintDelay == 0
    requires x.subjectToken == Parsed(ExchangeCode(cfg, s, first).response.accessToken)
    requires x.callback == NoCallback && x.callbackTime == 50 && x.resource.None? && x.expiresIn.None?
    requires x.fault == NoFault
    requires second.code == first.code && second.clientId == first.clientId
    ensures TokenFitsGrant(cfg, first)
    ensures var s1 := Step(cfg, ExchangeCode(cfg, s, first).store, Tick(240, {})).store;
      var o := Exchange(cfg, s1, x);
      o.response.Issued? && AcceptedAfterReplay(cfg, o.store, 11, second, o.response.accessToken)
  {
    hide Inv, Pristine, ExchangeCode, Exchange, LeaveInOrder, Run;
    TokenWithinGrantExactlyWhen(cfg, s, first);
    IssuedMeansChecked(cfg, s, first);
    CodeClock(cfg, s, first);
    var s0 := ExchangeCode(cfg, s, first).store;
    var events := [CodeEvent(first), Tick(240, {}), ExchangeEvent(x)];
    assert events == [CodeEvent(first)] + events[1..];
    AfterFirst(cfg, s, first, events[1..]);
    StepKeepsInv(cfg, s0, Tick(240, {}));
    var s1 := Step(cfg, s0, Tick(240, {})).store;
    SubjectTokenExchangesExactlyWhen(cfg, s1, x);
    var o := Exchange(cfg, s1, x);
    ExchangedUntil(cfg, s1, x);
    AfterLapse(cfg, o.store, RefOf(first.code.token), 11, second, TokenRefOf(o.response.accessToken));
  }

  lemma CodeClock(cfg: Config, s: Store, r: CodeRequest)
    requires ExchangeCode(cfg, s, r).response.Issued?
    ensures ExchangeCode(cfg, s, r).store.now == s.now + r.callbackTime + r.mintDelay
  {
    hide CheckCode, ResolveTokenResource, CallbackScope, RekeyOnCode, ConsumeCode;
  }

  lemma AfterLapse(cfg: Config, s: Store, ref: GrantRef, wait: nat, second: CodeRequest, t: TokenRef)
    requires second.code.Parsed? && RefOf(second.code.token) == ref && ref in s.grants && t in s.tokens
    requires Owner(t) == ref
    ensures var s1 := Run(cfg, s, Lapse(ref, wait));
      ExchangeCode(cfg, s1, second).store == s1 && t in s1.tokens && s1.tokens[t] == s.tokens[t] &&
      s1.now == s.now + wait
    ensures LeaveInOrder(cfg, s, Lapse(ref, wait), ref) <==>
      (s.grants[ref].expiration.Some? && s.grants[ref].expiration.value < s.now + wait)
  {
    var tick, gone := Tick(wait, {}), Remove({ref}, {});
    var s0 := Step(cfg, s, tick).store;
    var s1 := Step(cfg, s0, gone).store;
    assert Lapse(ref, wait)[1..] == [gone] && [gone][1..] == [];
    assert Run(cfg, s, Lapse(ref, wait)) == Run(cfg, s0, [gone]) == Run(cfg, s1, []) == s1;
    assert LeaveInOrder(cfg, s1, [], ref);
    assert LeaveInOrder(cfg, s0, [gone], ref) <==> LeavesInOrder(s0, gone, ref);
  }
}
