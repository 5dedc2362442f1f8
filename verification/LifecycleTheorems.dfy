/** What every run of the provider guarantees to the holders of codes and tokens. */
module LifecycleTheorems {
  import opened Wrappers
  import opened OAuthTypes
  import opened EmaClaims
  import opened GrantLifecycle
  import opened Keys
  import opened LifecycleInvariants
  import opened TokenText

  // ---------------------------------------------------------------- key agreement

  /** Key agreement: an unused code, the current and the previous refresh token, and every access
      token open exactly the props they are stored with, and no other token opens them. */
  lemma KeyAgreement(s: Store, b: Bearer)
    requires Inv(s)
    ensures RefOf(b) in s.grants ==>
      var g := s.grants[RefOf(b)].record;
      && (g.authCodeWrappedKey.Some? ==>
            (Open(b, g.authCodeWrappedKey.value, g.encryptedProps) == Some(g.encryptedProps.plain) <==>
               g.authCodeId == Some(Digest(b))))
      && (g.refreshTokenId.Some? ==> g.refreshTokenWrappedKey.Some?)
      && (g.refreshTokenId.Some? ==>
            (Open(b, g.refreshTokenWrappedKey.value, g.encryptedProps) == Some(g.encryptedProps.plain) <==>
               g.refreshTokenId == Some(Digest(b))))
      && (g.previousRefreshTokenId.Some? ==> g.previousRefreshTokenWrappedKey.Some?)
      && (g.previousRefreshTokenId.Some? ==>
            (Open(b, g.previousRefreshTokenWrappedKey.value, g.encryptedProps) == Some(g.encryptedProps.plain) <==>
               g.previousRefreshTokenId == Some(Digest(b))))
    ensures TokenRefOf(b) in s.tokens ==>
      var t := s.tokens[TokenRefOf(b)].record;
      Open(b, t.wrappedEncryptionKey, t.encryptedProps) == Some(t.encryptedProps.plain)
  {
    if RefOf(b) in s.grants { assert GrantOk(s, RefOf(b), s.grants[RefOf(b)].record); }
    if TokenRefOf(b) in s.tokens { assert TokenOk(s, TokenRefOf(b), s.tokens[TokenRefOf(b)].record); }
  }

  /** So no handler ever fails to unwrap or to decrypt, whatever is presented to it. */
  lemma NeverACryptoFailure(cfg: Config, s: Store, e: Event)
    requires Inv(s) && Fresh(s, e)
    ensures Step(cfg, s, e).response != Refused(CryptoFailure)
  {
    hide Inv, RekeyOnCode, RekeyOnRefresh, RekeyOnExchange, ResolveTokenResource, ValidateClaims, MapperAccepts,
         AccessTokenTTL;
    match e
    case CodeEvent(r) => if r.code.Parsed? { KeyAgreement(s, r.code.token); }
    case RefreshEvent(r) => if r.refreshToken.Parsed? { KeyAgreement(s, r.refreshToken.token); }
    case ExchangeEvent(r) => if r.subjectToken.Parsed? { KeyAgreement(s, r.subjectToken.token); }
    case _ =>
  }

  /** Key agreement in every reachable store. */
  lemma KeyAgreementInEveryRun(cfg: Config, start: int, events: seq<Event>, b: Bearer)
    requires cfg.Valid() && FreshRun(cfg, InitialStore(start), events)
    ensures Inv(Run(cfg, InitialStore(start), events))
    ensures var s := Run(cfg, InitialStore(start), events);
      RefOf(b) in s.grants ==>
        var g := s.grants[RefOf(b)].record;
        && (g.authCodeWrappedKey.Some? ==>
              (Open(b, g.authCodeWrappedKey.value, g.encryptedProps) == Some(g.encryptedProps.plain) <==>
                 g.authCodeId == Some(Digest(b))))
        && (g.refreshTokenId.Some? ==>
              g.refreshTokenWrappedKey.Some? &&
              (Open(b, g.refreshTokenWrappedKey.value, g.encryptedProps) == Some(g.encryptedProps.plain) <==>
                 g.refreshTokenId == Some(Digest(b))))
        && (g.previousRefreshTokenId.Some? ==>
              g.previousRefreshTokenWrappedKey.Some? &&
              (Open(b, g.previousRefreshTokenWrappedKey.value, g.encryptedProps) == Some(g.encryptedProps.plain) <==>
                 g.previousRefreshTokenId == Some(Digest(b))))
    ensures var s := Run(cfg, InitialStore(start), events);
      TokenRefOf(b) in s.tokens ==>
        var t := s.tokens[TokenRefOf(b)].record;
        Open(b, t.wrappedEncryptionKey, t.encryptedProps) == Some(t.encryptedProps.plain)
  {
    RunKeepsInv(cfg, InitialStore(start), events);
    KeyAgreement(Run(cfg, InitialStore(start), events), b);
  }

  // ---------------------------------------------------------------- how stores evolve

  /** A refresh token that a grant accepts was accepted before, or has a secret that is not in `used`. */
  ghost predicate IdFrom(used: set<string>, g: Grant, id: Option<Digest>) {
    id.None? || id == g.refreshTokenId || id == g.previousRefreshTokenId || id.value.of.secret !in used
  }

  /** What no step changes in a grant, what it can only take away, and what is new. */
  ghost predicate Evolved(used: set<string>, g: Grant, g': Grant) {
    && g'.id == g.id && g'.userId == g.userId && g'.clientId == g.clientId && g'.scope == g.scope
    && g'.authCodeId == g.authCodeId && g'.resource == g.resource
    && (g.authCodeWrappedKey.None? ==> g'.authCodeWrappedKey.None?)
    && IdFrom(used, g, g'.refreshTokenId) && IdFrom(used, g, g'.previousRefreshTokenId)
  }

  ghost predicate Later(s: Store, s': Store) {
    && s.used <= s'.used && s.now <= s'.now
    // a known grant id is never given to a new grant
    && (forall r :: r in s'.grants && r.grantId in s.used ==>
          r in s.grants && Evolved(s.used, s.grants[r].record, s'.grants[r].record))
    // an access token is never overwritten, and new ones have new secrets and a stored grant
    && (forall t :: t in s'.tokens && t in s.tokens ==> s'.tokens[t] == s.tokens[t])
    && (forall t :: t in s'.tokens && t !in s.tokens ==>
          t.id.of.secret !in s.used && (t.grantId in s.used ==> GrantRef(t.userId, t.grantId) in s.grants))
  }

  lemma LaterTransitive(a: Store, b: Store, c: Store)
    requires Inv(a) && Later(a, b) && Later(b, c)
    ensures Later(a, c)
  {
    forall t | t in c.tokens && t !in a.tokens && t.grantId in a.used
      ensures GrantRef(t.userId, t.grantId) in a.grants
    {
      if t in b.tokens { assert GrantRef(t.userId, t.grantId) in a.grants; }
    }
    forall t | t in c.tokens && t in a.tokens ensures c.tokens[t] == a.tokens[t] {
      assert TokenOk(a, t, a.tokens[t].record);
    }
  }

  lemma LaterLosing(s: Store, x: Store, x': Store)
    requires Later(s, x) && x.used <= x'.used && x.now <= x'.now
    requires forall r :: r in x'.grants ==> r in x.grants && x'.grants[r] == x.grants[r]
    requires forall t :: t in x'.tokens ==> t in x.tokens && x'.tokens[t] == x.tokens[t]
    ensures Later(s, x')
  {
  }

  lemma LaterPutGrant(s: Store, x: Store, ref: GrantRef, g: Grant, expiration: Option<int>)
    requires Later(s, x)
    requires ref.grantId in s.used ==> ref in x.grants && Evolved(s.used, x.grants[ref].record, g)
    ensures Later(s, PutGrant(x, ref, g, expiration))
  {
  }

  lemma SecretsAreUsed(s: Store)
    requires Inv(s)
    ensures forall t :: t in s.tokens ==> t.id.of.secret in s.used && t.grantId in s.used
  {
  }

  lemma LaterPutToken(s: Store, x: Store, ref: TokenRef, t: Token, ttl: int)
    requires Inv(s) && Later(s, x) && ref.id.of.secret !in s.used
    requires ref.grantId in s.used ==> GrantRef(ref.userId, ref.grantId) in s.grants
    ensures Later(s, PutToken(x, ref, t, ttl))
  {
    SecretsAreUsed(s);
  }

  lemma LaterCreate(s: Store, x: Store, b: Bearer, m: Mint, refreshToken: Option<Bearer>, fault: Fault)
    requires Inv(s) && Later(s, x) && b.secret !in s.used && (b.grantId in s.used ==> RefOf(b) in s.grants)
    ensures Later(s, CreateAccessToken(x, b, m, refreshToken, fault).store)
  {
    hide Inv, Later;
    if m.expiresIn >= KV_MIN_EXPIRATION_TTL_SECONDS && !fault.TokenWriteFails? {
      LaterPutToken(s, x, TokenRefOf(b), TokenRecord(x.now, b, m, m.scope), m.expiresIn);
    }
  }

  lemma NowIsLater(s: Store)
    ensures Later(s, s)
  {
  }

  lemma StepIsLater(cfg: Config, s: Store, e: Event)
    requires Inv(s) && Fresh(s, e)
    ensures Later(s, Step(cfg, s, e).store)
  {
    hide Inv, Later, Evolved, CheckCode, CheckRefresh, RekeyOnCode, RekeyOnRefresh, RekeyOnExchange, CreateAccessToken,
         ConsumeAndMint, RotateAndMint;
    hide ResolveTokenResource, ValidateClaims, MapperAccepts, AccessTokenTTL, IssueFromAssertion, ExchangeAudience;
    NowIsLater(s);
    match e
    case AuthorizeEvent(a) => AuthorizeIsLater(cfg, s, a);
    case CodeEvent(r) =>
      CodeIsLater(cfg, s, r);
    case RefreshEvent(r) => RefreshIsLater(cfg, s, r);
    case ExchangeEvent(r) => ExchangeIsLater(cfg, s, r);
    case EmaEvent(r) => EmaIsLater(cfg, s, r);
    case RevokeEvent(token, clientId, refreshFirst) => LaterLosing(s, s, Step(cfg, s, e).store);
    case Remove(grants, tokens) => LaterLosing(s, s, Step(cfg, s, e).store);
    case Tick(seconds, evicted) => LaterLosing(s, s, Step(cfg, s, e).store);
  }

  lemma AuthorizeIsLater(cfg: Config, s: Store, a: AuthorizeRequest)
    requires Inv(s) && Fresh(s, AuthorizeEvent(a))
    ensures Later(s, Authorize(cfg, s, a).store)
  {
    hide Inv, Later, Evolved;
    NowIsLater(s);
    if a.accepted {
      var data, key := Ciphertext(s.nextKey, a.props), s.nextKey;
      var b, ref := Bearer(a.userId, a.grantId, a.secret), GrantRef(a.userId, a.grantId);
      var s1 := Use(s, {a.grantId, a.secret}).(nextKey := key + 1);
      LaterLosing(s, s, s1);
      if a.isImplicit {
        var s2 := PutGrant(s1, ref, NewGrant(a, data), None);
        LaterPutGrant(s, s1, ref, NewGrant(a, data), None);
        var m := Mint(a.clientId, a.scope, data, key, cfg.accessTokenTTL, a.resource);
        var s3 := PutToken(s2, TokenRefOf(b), TokenRecord(s.now, b, m, a.scope), cfg.accessTokenTTL);
        LaterPutToken(s, s2, TokenRefOf(b), TokenRecord(s.now, b, m, a.scope), cfg.accessTokenTTL);
        LaterLosing(s, s3, RevokeAll(s3, Replaced(s, a)));
      } else {
        var g := NewGrant(a, data).(authCodeId := Some(Digest(b)), authCodeWrappedKey := Some(WrappedKey(b, key)),
                                    codeChallenge := a.codeChallenge, codeChallengeMethod := a.codeChallengeMethod);
        var s2 := PutGrant(s1, ref, g, Some(s.now + CODE_TTL_SECONDS));
        LaterPutGrant(s, s1, ref, g, Some(s.now + CODE_TTL_SECONDS));
        LaterLosing(s, s2, RevokeAll(s2, Replaced(s, a)));
      }
    }
  }

  lemma ConsumeEvolves(used: set<string>, g: Grant, data: Ciphertext, key: CryptoKey, refreshToken: Option<Bearer>,
                       expiresAt: Option<int>)
    requires refreshToken.Some? ==> refreshToken.value.secret !in used
    ensures Evolved(used, g, ConsumeCode(g, data, key, refreshToken, expiresAt))
    ensures ConsumeCode(g, data, key, refreshToken, expiresAt).authCodeWrappedKey.None?
  {
  }

  lemma RotateEvolves(used: set<string>, g: Grant, presented: Bearer, newToken: Bearer, data: Ciphertext,
                      key: CryptoKey)
    requires g.refreshTokenId == Some(Digest(presented)) || g.previousRefreshTokenId == Some(Digest(presented))
    requires newToken.secret !in used
    ensures Evolved(used, g, Rotate(g, presented, newToken, data, key))
  {
  }

  lemma CodeIsLater(cfg: Config, s: Store, r: CodeRequest)
    requires Inv(s) && Fresh(s, CodeEvent(r))
    ensures Later(s, ExchangeCode(cfg, s, r).store)
  {
    hide Inv, Later, Evolved, CheckCode, RekeyOnCode, CreateAccessToken, ConsumeCode, ResolveTokenResource;
    NowIsLater(s);
    match CheckCode(cfg, s, r)
    case Reject(e) =>
    case Replay =>
      ReplayedCode(cfg, s, r);
      LaterLosing(s, s, Revoke(s, RefOf(r.code.token)));
    case Proceed(g) =>
      CheckedCode(cfg, s, r, g);
      LaterLosing(s, s, Advance(s, r.callbackTime));
      if !r.callback.Threw? {
        var b, ref := r.code.token, RefOf(r.code.token);
        var k := RekeyOnCode(g.authCodeWrappedKey.value.key, g.encryptedProps, r.callback, s.nextKey);
        var s1 := Advance(Use(s, {r.newRefreshSecret, r.newAccessSecret}), r.callbackTime).(nextKey := k.nextKey);
        LaterLosing(s, s, s1);
        var refreshTTL := CallbackRefreshTTL(r.callback, cfg.refreshTokenTTL);
        var refreshToken := if refreshTTL != Some(0) then Some(Bearer(b.userId, b.grantId, r.newRefreshSecret))
                            else None;
        var expiresAt := if refreshTTL.Some? then Some(s1.now + refreshTTL.value) else None;
        var next := ConsumeCode(g, k.grantData, k.grantKey, refreshToken, expiresAt);
        ConsumeEvolves(s.used, g, k.grantData, k.grantKey, refreshToken, expiresAt);
        LaterPutGrant(s, s1, ref, next, GrantExpiration(s1.now, next));
        var s2 := SaveGrantWithTTL(s1, ref, next);
        LaterLosing(s, s2, Advance(s2, r.mintDelay));
        var scope := CallbackScope(r.callback, Downscope(r.scope, g.scope), g.scope);
        var m := Mint(g.clientId, scope, k.tokenData, k.tokenKey, CallbackTTL(r.callback, cfg.accessTokenTTL),
                      ResolveTokenResource(cfg, r.resource, g.resource).value);
        LaterCreate(s, Advance(s2, r.mintDelay), Bearer(b.userId, b.grantId, r.newAccessSecret), m, refreshToken,
                    r.fault);
      }
  }

  lemma RefreshIsLater(cfg: Config, s: Store, r: RefreshRequest)
    requires Inv(s) && Fresh(s, RefreshEvent(r))
    ensures Later(s, Refresh(cfg, s, r).store)
  {
    hide Inv, Later, Evolved, CheckRefresh, RekeyOnRefresh, Rotate, ResolveTokenResource;
    NowIsLater(s);
    LaterLosing(s, s, Advance(s, r.callbackTime));
    if CheckRefresh(cfg, s, r).Ok? {
      var g := CheckRefresh(cfg, s, r).value;
      CheckedRefresh(cfg, s, r, g);
      var b, ref := r.refreshToken.token, RefOf(r.refreshToken.token);
      var wrapped := WrappedKeyFor(g, b);
      if !r.callback.Threw? && wrapped.Some? {
        var k := RekeyOnRefresh(wrapped.value.key, g.encryptedProps, r.callback, s.nextKey);
        var s1 := Advance(Use(s, {r.newRefreshSecret, r.newAccessSecret}), r.callbackTime).(nextKey := k.nextKey);
        LaterLosing(s, s, s1);
        var newRefresh := Bearer(b.userId, b.grantId, r.newRefreshSecret);
        var newAccess := Bearer(b.userId, b.grantId, r.newAccessSecret);
        var next := Rotate(g, b, newRefresh, k.grantData, k.grantKey);
        RotateEvolves(s.used, g, b, newRefresh, k.grantData, k.grantKey);
        LaterPutGrant(s, s1, ref, next, GrantExpiration(s1.now, next));
        var s2 := SaveGrantWithTTL(s1, ref, next);
        var ttl := ClampedTTL(s1.now, g, CallbackTTL(r.callback, cfg.accessTokenTTL));
        var scope := CallbackScope(r.callback, Downscope(r.scope, g.scope), g.scope);
        var m := Mint(g.clientId, scope, k.tokenData, k.tokenKey, ttl,
                      ResolveTokenResource(cfg, r.resource, g.resource).value);
        LaterPutToken(s, s2, TokenRefOf(newAccess), TokenRecord(s2.now, newAccess, m, g.scope), ttl);
      }
    }
  }

  lemma ExchangeIsLater(cfg: Config, s: Store, r: ExchangeRequest)
    requires Inv(s) && Fresh(s, ExchangeEvent(r))
    ensures Later(s, Exchange(cfg, s, r).store)
  {
    hide Inv, Later, Evolved, RekeyOnExchange, CreateAccessToken, ExchangeAudience, ExchangeScopes;
    NowIsLater(s);
    LaterLosing(s, s, Advance(s, r.callbackTime));
    if r.subjectToken.Parsed? && FindToken(s, r.subjectToken.token).Some? && RefOf(r.subjectToken.token) in s.grants {
      var b := r.subjectToken.token;
      var t := FindToken(s, b).value;
      var audience := ExchangeAudience(cfg, r, t, s.grants[RefOf(b)].record);
      if !r.callback.Threw? && audience.Ok? {
        var k := RekeyOnExchange(t.wrappedEncryptionKey.key, t.encryptedProps, r.callback, s.nextKey);
        var s1 := Advance(Use(s, {r.newAccessSecret}), r.callbackTime).(nextKey := k.nextKey);
        LaterLosing(s, s, s1);
        var m := Mint(t.clientId, ExchangeScopes(r, t), k.tokenData, k.tokenKey,
                      ExchangeTTL(cfg, r, t.expiresAt - s.now), audience.value);
        LaterCreate(s, s1, Bearer(b.userId, b.grantId, r.newAccessSecret), m, None, r.fault);
      }
    }
  }

  lemma EmaIsLater(cfg: Config, s: Store, r: EmaRequest)
    requires Inv(s) && Fresh(s, EmaEvent(r))
    ensures Later(s, MintFromAssertion(cfg, s, r).store)
  {
    hide Inv, Later, Evolved, ValidateClaims, ParseScopeParam, MapperAccepts, AccessTokenTTL, IssueFromAssertion;
    NowIsLater(s);
    if r.verified && ValidateClaims(r.claims, r.clientId, r.policy, s.now).Ok? {
      var s1 := Advance(s, r.markDelay);
      LaterLosing(s, s, s1);
      var marker, ttl := JtiKey(r.claims), MarkerTTL(r.claims.exp, s1.now);
      var s2 := s1.(markers := s1.markers[marker := s1.now + ttl], lifetimes := s1.lifetimes + [ttl]);
      LaterLosing(s, s1, s2);
      var s3 := Advance(s2, r.mapperDelay);
      LaterLosing(s, s2, s3);
      if MapperAccepts(r.mapped, r.policy) {
        AcceptedIsMapped(r.mapped, r.policy);
        var lifetime := AccessTokenTTL(cfg.accessTokenTTL, r.claims.exp, r.mapped.accessTokenTTL, s3.now,
                                       KV_MIN_EXPIRATION_TTL_SECONDS);
        if lifetime.Ok? {
          IssueIsLater(s, s3, r, ValidateClaims(r.claims, r.clientId, r.policy, s.now).value, lifetime.value);
        }
      }
    }
  }

  lemma IssueIsLater(s: Store, x: Store, r: EmaRequest, checked: ValidIdJag, ttl: int)
    requires Inv(s) && Fresh(s, EmaEvent(r)) && Later(s, x) && r.mapped.MappedTo?
    ensures Later(s, IssueFromAssertion(x, r, checked, ttl).store)
  {
    hide Inv, Later, Evolved, CreateAccessToken;
    var scope := if checked.scopes != [] then Downscope(Many(r.mapped.scope), checked.scopes) else r.mapped.scope;
    var data, key := Ciphertext(x.nextKey, r.mapped.props), x.nextKey;
    var s1 := Use(x, {r.grantId, r.newAccessSecret}).(nextKey := key + 1);
    LaterLosing(s, x, s1);
    var g := Grant(r.grantId, r.clientId, r.mapped.userId, scope, data, Some(x.now + ttl),
                   None, None, None, None, None, None, None, None, Some([checked.resource]), None);
    var ref := GrantRef(r.mapped.userId, r.grantId);
    LaterPutGrant(s, s1, ref, g, GrantExpiration(s1.now, g));
    var s2 := SaveGrantWithTTL(s1, ref, g);
    LaterLosing(s, s2, Advance(s2, r.mintDelay));
    var m := Mint(r.clientId, scope, data, key, ttl, Some([checked.resource]));
    LaterCreate(s, Advance(s2, r.mintDelay), Bearer(r.mapped.userId, r.grantId, r.newAccessSecret), m, None, r.fault);
  }

  lemma {:induction false} RunIsLater(cfg: Config, s: Store, events: seq<Event>)
    requires cfg.Valid() && Inv(s) && FreshRun(cfg, s, events)
    ensures Later(s, Run(cfg, s, events))
    decreases |events|
  {
    hide Inv, Later;
    NowIsLater(s);
    if events != [] {
      var next := Step(cfg, s, events[0]).store;
      StepKeepsInv(cfg, s, events[0]);
      StepIsLater(cfg, s, events[0]);
      RunIsLater(cfg, next, events[1..]);
      LaterTransitive(s, next, Run(cfg, next, events[1..]));
    }
  }

  // ---------------------------------------------------------------- a code is exchanged at most once

  /** The code can never be exchanged (again). */
  ghost predicate CodeSpent(s: Store, c: Bearer) {
    && c.grantId in s.used
    && (RefOf(c) in s.grants ==>
          s.grants[RefOf(c)].record.authCodeId != Some(Digest(c)) || s.grants[RefOf(c)].record.authCodeWrappedKey.None?)
  }

  lemma SpentForGood(s: Store, s': Store, c: Bearer)
    requires CodeSpent(s, c) && Later(s, s')
    ensures CodeSpent(s', c)
  {
  }

  lemma ExchangingSpendsTheCode(cfg: Config, s: Store, r: CodeRequest)
    requires Inv(s) && Fresh(s, CodeEvent(r)) && ExchangeCode(cfg, s, r).response.Issued?
    ensures r.code.Parsed? && CodeSpent(ExchangeCode(cfg, s, r).store, r.code.token)
  {
    hide Inv, GrantOk, CheckCode, RekeyOnCode, ResolveTokenResource, ConsumeCode;
    var g := CheckCode(cfg, s, r).grant;
    CheckedCode(cfg, s, r, g);
    var ref, s' := RefOf(r.code.token), ExchangeCode(cfg, s, r).store;
    assert ref.grantId in s.used by { KnownGrantId(s, ref); }
    var k := RekeyOnCode(g.authCodeWrappedKey.value.key, g.encryptedProps, r.callback, s.nextKey);
    forall refreshToken, expiresAt { ConsumeEvolves({}, g, k.grantData, k.grantKey, refreshToken, expiresAt); }
  }

  lemma KnownGrantId(s: Store, ref: GrantRef)
    requires Inv(s) && ref in s.grants
    ensures ref.grantId in s.used
  {
  }

  lemma SpentCodeIsRefused(cfg: Config, s: Store, r: CodeRequest)
    requires r.code.Parsed? && CodeSpent(s, r.code.token)
    ensures ExchangeCode(cfg, s, r).response == Refused(InvalidGrant)
  {
  }

  /** In every run a code is exchanged at most once, whoever presents it. */
  lemma CodeExchangedOnce(cfg: Config, s: Store, first: CodeRequest, between: seq<Event>, second: CodeRequest)
    requires cfg.Valid() && Inv(s) && FreshRun(cfg, s, [CodeEvent(first)] + between)
    requires ExchangeCode(cfg, s, first).response.Issued? && second.code == first.code
    ensures ExchangeCode(cfg, Run(cfg, s, [CodeEvent(first)] + between), second).response == Refused(InvalidGrant)
  {
    hide Inv, Later, ExchangeCode, CodeSpent;
    var events := [CodeEvent(first)] + between;
    assert events[0] == CodeEvent(first) && events[1..] == between;
    var s1 := ExchangeCode(cfg, s, first).store;
    assert Fresh(s, CodeEvent(first)) && Step(cfg, s, CodeEvent(first)).store == s1;
    StepKeepsInv(cfg, s, CodeEvent(first));
    ExchangingSpendsTheCode(cfg, s, first);
    RunIsLater(cfg, s1, between);
    SpentForGood(s1, Run(cfg, s1, between), first.code.token);
    SpentCodeIsRefused(cfg, Run(cfg, s1, between), second);
  }

  // ---------------------------------------------------------------- replay of a code

  /** Nothing is left of a grant: neither the record nor any access token. */
  ghost predicate Dead(s: Store, ref: GrantRef) {
    ref.grantId in s.used && ref !in s.grants && forall t :: t in s.tokens ==> GrantRef(t.userId, t.grantId) != ref
  }

  /** Every token of a dead grant is refused everywhere, whether code, refresh or access token. */
  lemma DeadIsRefused(cfg: Config, s: Store, b: Bearer)
    requires Dead(s, RefOf(b))
    ensures FindToken(s, b).None?
    ensures forall r: CodeRequest :: r.code == Parsed(b) ==> ExchangeCode(cfg, s, r).response == Refused(InvalidGrant)
    ensures forall r: RefreshRequest :: r.refreshToken == Parsed(b) ==>
      Refresh(cfg, s, r).response == Refused(InvalidGrant)
    ensures forall r: ExchangeRequest :: r.subjectToken == Parsed(b) ==>
      Exchange(cfg, s, r).response == Refused(InvalidGrant)
  {
  }

  /** A used code presented again by its own client kills the grant while it is still stored. When
      the record is gone already, so that the code cannot be verified, nothing is touched. */
  lemma ReplayKills(cfg: Config, s: Store, r: CodeRequest)
    requires Inv(s) && r.code.Parsed? && r.code.token.grantId in s.used
    requires RefOf(r.code.token) in s.grants ==>
      var g := s.grants[RefOf(r.code.token)].record;
      g.authCodeId == Some(Digest(r.code.token)) && g.clientId == r.clientId && g.authCodeWrappedKey.None?
    ensures var s' := ExchangeCode(cfg, s, r).store;
      && (RefOf(r.code.token) in s.grants ==> Dead(s', RefOf(r.code.token)))
      && (RefOf(r.code.token) !in s.grants ==> s' == s)
  {
  }

  /** What the grant of an exchanged code looks like, if it is stored. */
  ghost predicate Exchanged(s: Store, c: Bearer, clientId: string) {
    && c.grantId in s.used
    && (RefOf(c) in s.grants ==>
          var g := s.grants[RefOf(c)].record;
          g.authCodeId == Some(Digest(c)) && g.clientId == clientId && g.authCodeWrappedKey.None?)
  }

  lemma ExchangedGrant(cfg: Config, s: Store, r: CodeRequest)
    requires Inv(s) && Fresh(s, CodeEvent(r)) && ExchangeCode(cfg, s, r).response.Issued?
    ensures r.code.Parsed? && Exchanged(ExchangeCode(cfg, s, r).store, r.code.token, r.clientId)
  {
    hide Inv, Later, CheckCode, ExchangeCode;
    ExchangingSpendsTheCode(cfg, s, r);
    IssuedMeansChecked(cfg, s, r);
    var g := CheckCode(cfg, s, r).grant;
    CheckedCode(cfg, s, r, g);
    StepIsLater(cfg, s, CodeEvent(r));
    StoredAfterwards(s, ExchangeCode(cfg, s, r).store, RefOf(r.code.token));
  }

  lemma IssuedMeansChecked(cfg: Config, s: Store, r: CodeRequest)
    requires ExchangeCode(cfg, s, r).response.Issued?
    ensures CheckCode(cfg, s, r).Proceed?
  {
  }

  lemma StoredAfterwards(s: Store, s': Store, ref: GrantRef)
    requires Inv(s) && Later(s, s') && ref in s.grants
    ensures ref in s'.grants ==> Evolved(s.used, s.grants[ref].record, s'.grants[ref].record)
  {
  }

  lemma GrantsStayExchanged(s: Store, s': Store, c: Bearer, clientId: string)
    requires Exchanged(s, c, clientId) && Later(s, s')
    ensures Exchanged(s', c, clientId)
  {
  }

  // ---------------------------------------------------------------- tokens only narrow

  /** A refreshed token has a scope within its grant's and never outlives it. */
  lemma RefreshNarrows(cfg: Config, s: Store, r: RefreshRequest)
    requires Refresh(cfg, s, r).response.Issued?
    ensures var s', issued := Refresh(cfg, s, r).store, Refresh(cfg, s, r).response;
      && TokenRefOf(issued.accessToken) in s'.tokens && RefOf(issued.accessToken) in s'.grants
      && var t, g := s'.tokens[TokenRefOf(issued.accessToken)].record, s'.grants[RefOf(issued.accessToken)].record;
      && t.scope == issued.scope && Within(t.scope, g.scope)
      && t.expiresAt == s'.now + issued.expiresIn && issued.expiresIn >= KV_MIN_EXPIRATION_TTL_SECONDS
      && (g.expiresAt.Some? ==> t.expiresAt <= g.expiresAt.value)
  {
    hide CheckRefresh, RekeyOnRefresh, ResolveTokenResource, Within, CallbackScope;
    var g := CheckRefresh(cfg, s, r).value;
    CheckedRefresh(cfg, s, r, g);
    KeepsWithin(r.callback, r.scope, g.scope);
  }

  lemma KeepsWithin(callback: Callback, requested: ScopeParam, allowed: seq<string>)
    ensures Within(CallbackScope(callback, Downscope(requested, allowed), allowed), allowed)
  {
  }

  /** The lifetime that is asked of an exchange, before the clamp. */
  function AskedTTL(cfg: Config, r: ExchangeRequest): int {
    CallbackTTL(r.callback, if r.expiresIn.Some? then r.expiresIn.value else cfg.accessTokenTTL)
  }

  /** No time passes between the two clock readings of the handler, or what is asked for leaves room
      for it in the rest of the subject token's life. */
  predicate InTime(cfg: Config, s: Store, r: ExchangeRequest) {
    r.subjectToken.Parsed? && FindToken(s, r.subjectToken.token).Some? &&
    (r.callbackTime == 0 ||
     AskedTTL(cfg, r) + r.callbackTime <= FindToken(s, r.subjectToken.token).value.expiresAt - s.now)
  }

  /** An exchanged token has a scope within the subject token's. It outlives it by no more than the
      time between the two clock readings of the handler, and not at all exactly when in time. */
  lemma ExchangeNarrows(cfg: Config, s: Store, r: ExchangeRequest)
    requires Exchange(cfg, s, r).response.Issued?
    ensures r.subjectToken.Parsed? && FindToken(s, r.subjectToken.token).Some?
    ensures var s', issued := Exchange(cfg, s, r).store, Exchange(cfg, s, r).response;
      && TokenRefOf(issued.accessToken) in s'.tokens
      && var t, t' := FindToken(s, r.subjectToken.token).value, s'.tokens[TokenRefOf(issued.accessToken)].record;
      && t'.scope == issued.scope && Within(t'.scope, t.scope)
      && t'.expiresAt <= t.expiresAt + r.callbackTime
      && (t'.expiresAt <= t.expiresAt <==> InTime(cfg, s, r))
  {
  }

  lemma WithinTransitive(a: seq<string>, b: seq<string>, c: seq<string>)
    requires Within(a, b) && Within(b, c)
    ensures Within(a, c)
  {
  }

  /** A chain of exchanges: each link is an exchange of the token of the link before, and anything
      may happen in between. */
  datatype Link = Link(between: seq<Event>, exchange: ExchangeRequest)

  ghost predicate Chain(cfg: Config, s: Store, subject: Bearer, links: seq<Link>)
    decreases |links|
  {
    links == [] ||
    var s1 := Run(cfg, s, links[0].between);
    && FreshRun(cfg, s, links[0].between) && Fresh(s1, ExchangeEvent(links[0].exchange))
    && links[0].exchange.subjectToken == Parsed(subject)
    && var o := Exchange(cfg, s1, links[0].exchange);
    && o.response.Issued? && Chain(cfg, o.store, o.response.accessToken, links[1..])
  }

  /** The token at the end of a chain. */
  ghost function LastToken(cfg: Config, s: Store, subject: Bearer, links: seq<Link>): Token
    requires TokenRefOf(subject) in s.tokens && Chain(cfg, s, subject, links)
    decreases |links|
  {
    if links == [] then s.tokens[TokenRefOf(subject)].record
    else
      var o := Exchange(cfg, Run(cfg, s, links[0].between), links[0].exchange);
      ExchangeNarrows(cfg, Run(cfg, s, links[0].between), links[0].exchange);
      LastToken(cfg, o.store, o.response.accessToken, links[1..])
  }

  /** Every exchange of the chain is in time. */
  ghost predicate ChainInTime(cfg: Config, s: Store, subject: Bearer, links: seq<Link>)
    requires Chain(cfg, s, subject, links)
    decreases |links|
  {
    links == [] ||
    var s1 := Run(cfg, s, links[0].between);
    var o := Exchange(cfg, s1, links[0].exchange);
    InTime(cfg, s1, links[0].exchange) && ChainInTime(cfg, o.store, o.response.accessToken, links[1..])
  }

  lemma {:induction false} PromptChainsAreInTime(cfg: Config, s: Store, subject: Bearer, links: seq<Link>)
    requires Chain(cfg, s, subject, links) && forall l :: l in links ==> l.exchange.callbackTime == 0
    ensures ChainInTime(cfg, s, subject, links)
    decreases |links|
  {
    hide Exchange;
    if links != [] {
      var s1 := Run(cfg, s, links[0].between);
      var o := Exchange(cfg, s1, links[0].exchange);
      ExchangeNarrows(cfg, s1, links[0].exchange);
      PromptChainsAreInTime(cfg, o.store, o.response.accessToken, links[1..]);
    }
  }

  /** However long the chain and whatever happens in between, scopes never widen and, if every
      exchange is in time, expiry is never extended. */
  lemma {:induction false} ChainNarrows(cfg: Config, s: Store, subject: Bearer, links: seq<Link>)
    requires cfg.Valid() && Inv(s) && TokenRefOf(subject) in s.tokens && Chain(cfg, s, subject, links)
    ensures Within(LastToken(cfg, s, subject, links).scope, s.tokens[TokenRefOf(subject)].record.scope)
    ensures ChainInTime(cfg, s, subject, links) ==>
      LastToken(cfg, s, subject, links).expiresAt <= s.tokens[TokenRefOf(subject)].record.expiresAt
    decreases |links|
  {
    hide Inv, Later, Exchange;
    if links != [] {
      var s1, x := Run(cfg, s, links[0].between), links[0].exchange;
      var o := Exchange(cfg, s1, x);
      RunKeepsInv(cfg, s, links[0].between);
      RunIsLater(cfg, s, links[0].between);
      ExchangeNarrows(cfg, s1, x);
      SameRecord(s, s1, TokenRefOf(subject));
      assert Step(cfg, s1, ExchangeEvent(x)).store == o.store;
      StepKeepsInv(cfg, s1, ExchangeEvent(x));
      ChainNarrows(cfg, o.store, o.response.accessToken, links[1..]);
      WithinTransitive(LastToken(cfg, s, subject, links).scope,
                       o.store.tokens[TokenRefOf(o.response.accessToken)].record.scope,
                       s.tokens[TokenRefOf(subject)].record.scope);
    }
  }

  lemma SameRecord(s: Store, s': Store, ref: TokenRef)
    requires Later(s, s') && ref in s.tokens && ref in s'.tokens
    ensures s'.tokens[ref] == s.tokens[ref]
  {
  }

  /** The clock does matter: five seconds inside a callback let an exchanged token expire after its
      subject token. */
  lemma SlowExchangeExtends(cfg: Config, s: Store, r: ExchangeRequest)
    requires cfg.Valid() && cfg.configuredResource.None? && r.subjectToken.Parsed? && r.resource.None?
    requires r.expiresIn.None?
    requires r.callback == NoCallback && r.callbackTime == 5 && r.fault == NoFault
    requires RefOf(r.subjectToken.token) in s.grants && FindToken(s, r.subjectToken.token).Some?
    requires FindToken(s, r.subjectToken.token).value.expiresAt == s.now + 60
    requires Inv(s)
    ensures var o := Exchange(cfg, s, r);
      && o.response.Issued? && TokenRefOf(o.response.accessToken) in o.store.tokens
      && o.store.tokens[TokenRefOf(o.response.accessToken)].record.expiresAt ==
        FindToken(s, r.subjectToken.token).value.expiresAt + 5
  {
    KeyAgreement(s, r.subjectToken.token);
  }

  /** No write the provider ever makes asks KV for less than its minimum lifetime. */
  lemma WritesLiveLongEnough(cfg: Config, start: int, events: seq<Event>)
    requires cfg.Valid() && FreshRun(cfg, InitialStore(start), events)
    ensures forall l :: l in Run(cfg, InitialStore(start), events).lifetimes ==> l >= KV_MIN_EXPIRATION_TTL_SECONDS
    ensures var s := Run(cfg, InitialStore(start), events);
      forall t :: t in s.tokens && GrantRef(t.userId, t.grantId) in s.grants ==>
        Within(s.tokens[t].record.scope, s.grants[GrantRef(t.userId, t.grantId)].record.scope)
  {
    RunKeepsInv(cfg, InitialStore(start), events);
    var s := Run(cfg, InitialStore(start), events);
    forall t | t in s.tokens && GrantRef(t.userId, t.grantId) in s.grants
      ensures Within(s.tokens[t].record.scope, s.grants[GrantRef(t.userId, t.grantId)].record.scope)
    {
      TokenScopeOk(s, t, s.tokens[t].record);
    }
  }

  // ---------------------------------------------------------------- the props that arrive

  predicate Gave(callback: Callback) { callback.Returned? && callback.result.Some? }

  /** The props of the token: the callback's `accessTokenProps`, or else its `newProps`, or else those from before. */
  ghost predicate TokenPropsAsDocumented(callback: Callback, before: Props, tokenProps: Option<Props>) {
    if !Gave(callback) || callback.result.value.accessTokenProps == callback.result.value.newProps == None
    then tokenProps == Some(before)
    else if callback.result.value.accessTokenProps.Some? then tokenProps == callback.result.value.accessTokenProps
    else tokenProps == callback.result.value.newProps
  }

  /** The props of the grant: the callback's `newProps`, or else those from before. */
  ghost predicate GrantPropsAsDocumented(callback: Callback, before: Props, grantProps: Props) {
    if Gave(callback) && callback.result.value.newProps.Some? then Some(grantProps) == callback.result.value.newProps
    else grantProps == before
  }

  /** What a code exchange hands out: the token opens the callback's token props, and the grant keeps
      the callback's grant props, each falling back as documented. */
  lemma CodeDeliversProps(cfg: Config, s: Store, r: CodeRequest)
    requires ExchangeCode(cfg, s, r).response.Issued?
    ensures r.code.Parsed? && RefOf(r.code.token) in s.grants
    ensures var s', issued, before := ExchangeCode(cfg, s, r).store, ExchangeCode(cfg, s, r).response,
                                      s.grants[RefOf(r.code.token)].record.encryptedProps.plain;
      var result := if r.callback.Returned? then r.callback.result else None;
      && TokenRefOf(issued.accessToken) in s'.tokens && RefOf(issued.accessToken) in s'.grants
      && var t, g := s'.tokens[TokenRefOf(issued.accessToken)].record, s'.grants[RefOf(issued.accessToken)].record;
      && Open(issued.accessToken, t.wrappedEncryptionKey, t.encryptedProps) == Some(TokenProps(result, before))
      && g.encryptedProps.plain == GrantProps(result, before)
      && (issued.refreshToken.Some? ==> g.refreshTokenWrappedKey.Some?)
      && (issued.refreshToken.Some? ==>
            Open(issued.refreshToken.value, g.refreshTokenWrappedKey.value, g.encryptedProps) ==
              Some(GrantProps(result, before)))
      && GrantPropsAsDocumented(r.callback, before, g.encryptedProps.plain)
      && TokenPropsAsDocumented(r.callback, before,
                                Open(issued.accessToken, t.wrappedEncryptionKey, t.encryptedProps))
  {
    hide CheckCode, ResolveTokenResource;
    CheckedCode(cfg, s, r, CheckCode(cfg, s, r).grant);
  }

  lemma RefreshDeliversProps(cfg: Config, s: Store, r: RefreshRequest)
    requires Refresh(cfg, s, r).response.Issued?
    ensures r.refreshToken.Parsed? && RefOf(r.refreshToken.token) in s.grants
    ensures var s', issued, before := Refresh(cfg, s, r).store, Refresh(cfg, s, r).response,
                                      s.grants[RefOf(r.refreshToken.token)].record.encryptedProps.plain;
      var result := if r.callback.Returned? then r.callback.result else None;
      && TokenRefOf(issued.accessToken) in s'.tokens && RefOf(issued.accessToken) in s'.grants
      && issued.refreshToken.Some?
      && var t, g := s'.tokens[TokenRefOf(issued.accessToken)].record, s'.grants[RefOf(issued.accessToken)].record;
      && Open(issued.accessToken, t.wrappedEncryptionKey, t.encryptedProps) == Some(TokenProps(result, before))
      && g.refreshTokenWrappedKey.Some? && g.previousRefreshTokenWrappedKey.Some?
      && Open(issued.refreshToken.value, g.refreshTokenWrappedKey.value, g.encryptedProps) ==
        Some(GrantProps(result, before))
      && Open(r.refreshToken.token, g.previousRefreshTokenWrappedKey.value, g.encryptedProps) ==
        Some(GrantProps(result, before))
      && GrantPropsAsDocumented(r.callback, before, g.encryptedProps.plain)
      && TokenPropsAsDocumented(r.callback, before,
                                Open(issued.accessToken, t.wrappedEncryptionKey, t.encryptedProps))
  {
    hide CheckRefresh, ResolveTokenResource;
    CheckedRefresh(cfg, s, r, CheckRefresh(cfg, s, r).value);
  }

  lemma ExchangeDeliversProps(cfg: Config, s: Store, r: ExchangeRequest)
    requires Exchange(cfg, s, r).response.Issued?
    ensures r.subjectToken.Parsed? && FindToken(s, r.subjectToken.token).Some?
    ensures var s', issued, before := Exchange(cfg, s, r).store, Exchange(cfg, s, r).response,
                                      FindToken(s, r.subjectToken.token).value.encryptedProps.plain;
      var result := if r.callback.Returned? then r.callback.result else None;
      && TokenRefOf(issued.accessToken) in s'.tokens && s'.grants == s.grants
      && var t := s'.tokens[TokenRefOf(issued.accessToken)].record;
      && Open(issued.accessToken, t.wrappedEncryptionKey, t.encryptedProps) == Some(TokenProps(result, before))
      && TokenPropsAsDocumented(r.callback, before,
                                Open(issued.accessToken, t.wrappedEncryptionKey, t.encryptedProps))
  {
    hide ExchangeAudience, ExchangeScopes;
  }

  // ---------------------------------------------------------------- who gets tokens

  /** What RFC 7636 asks of the verifier, given what the authorization stored. */
  ghost predicate PkceSatisfied(cfg: Config, challenge: Option<Challenge>, pkceMethod: Option<ChallengeMethod>,
                                verifier: Option<string>) {
    match challenge
    case None => verifier.None? && pkceMethod != Some(Unknown)
    case Some(expected) =>
      verifier.Some? &&
      if pkceMethod == Some(S256) then expected == Hashed(verifier.value)
      else pkceMethod != Some(Unknown) && cfg.allowPlainPkce && expected == Text(verifier.value)
  }

  /** A code gets tokens exactly when it is the grant's own, unused code, presented by its client with
      the verifier and the redirect URI that the authorization calls for, for a granted resource, the
      callback does not throw and leaves a lifetime that can be stored, and no write fails. */
  lemma CodeExchangesExactlyWhen(cfg: Config, s: Store, r: CodeRequest)
    requires cfg.Valid() && Inv(s)
    ensures ExchangeCode(cfg, s, r).response.Issued? <==>
      && r.code.Parsed? && RefOf(r.code.token) in s.grants
      && var g := s.grants[RefOf(r.code.token)].record;
      && g.authCodeId == Some(Digest(r.code.token)) && g.authCodeWrappedKey.Some? && g.clientId == r.clientId
      && PkceSatisfied(cfg, g.codeChallenge, g.codeChallengeMethod, r.codeVerifier)
      && (if r.redirectUri.Some? then r.redirectUriValid else g.codeChallenge.Some?)
      && ResolveTokenResource(cfg, r.resource, g.resource).Ok?
      && !r.callback.Threw? && CallbackTTL(r.callback, cfg.accessTokenTTL) >= KV_MIN_EXPIRATION_TTL_SECONDS
      && r.fault == NoFault
  {
    hide Inv, ResolveTokenResource, CallbackScope, ConsumeCode, RekeyOnCode;
    if r.code.Parsed? { KeyAgreement(s, r.code.token); }
  }

  /** A code exchange that passes its checks and then fails can be retried exactly when it failed
      before the grant was saved, by a throwing callback or a failing write of the grant. A lifetime
      that cannot be stored or a failing write of the token leaves the code used and no token issued:
      the client's retry is a replay, and ends the grant. */
  lemma RetriableExactlyWhen(cfg: Config, s: Store, r: CodeRequest, retry: CodeRequest)
    requires cfg.Valid() && Inv(s) && CheckCode(cfg, s, r).Proceed? && !ExchangeCode(cfg, s, r).response.Issued?
    requires retry.code == r.code && retry.clientId == r.clientId
    ensures var s' := ExchangeCode(cfg, s, r).store;
      if r.callback.Threw? || r.fault.GrantWriteFails? then
        s'.grants == s.grants && s'.tokens == s.tokens && CheckCode(cfg, s', retry) == CheckCode(cfg, s, retry)
      else
        && (CallbackTTL(r.callback, cfg.accessTokenTTL) < KV_MIN_EXPIRATION_TTL_SECONDS || r.fault.TokenWriteFails?)
        && CheckCode(cfg, s', retry) == Replay && Dead(ExchangeCode(cfg, s', retry).store, RefOf(r.code.token))
  {
    hide Inv, Later, ExchangeCode, CheckCode, Dead;
    FailedExchange(cfg, s, r);
    CheckedCode(cfg, s, r, CheckCode(cfg, s, r).grant);
    KnownGrantId(s, RefOf(r.code.token));
    var s' := ExchangeCode(cfg, s, r).store;
    if r.callback.Threw? || r.fault.GrantWriteFails? {
      SameCheck(cfg, s, s', retry);
    } else {
      UsedCodeIsReplay(cfg, s', retry);
      ReplayOfStored(cfg, s', retry);
      DeadAfterRevoking(s', RefOf(r.code.token));
    }
  }

  /** What a failed exchange leaves behind. */
  lemma FailedExchange(cfg: Config, s: Store, r: CodeRequest)
    requires cfg.Valid() && Inv(s) && CheckCode(cfg, s, r).Proceed? && !ExchangeCode(cfg, s, r).response.Issued?
    ensures var s' := ExchangeCode(cfg, s, r).store;
      r.code.Parsed? && s.used <= s'.used &&
      if r.callback.Threw? || r.fault.GrantWriteFails? then s'.grants == s.grants && s'.tokens == s.tokens
      else
        && (CallbackTTL(r.callback, cfg.accessTokenTTL) < KV_MIN_EXPIRATION_TTL_SECONDS || r.fault.TokenWriteFails?)
        && RefOf(r.code.token) in s'.grants
        && var g := s'.grants[RefOf(r.code.token)].record;
        && g.authCodeId == Some(Digest(r.code.token)) && g.clientId == r.clientId && g.authCodeWrappedKey.None?
  {
    hide Inv, ResolveTokenResource, CallbackScope, RekeyOnCode, CheckCode;
    CheckedCode(cfg, s, r, CheckCode(cfg, s, r).grant);
    KeyAgreement(s, r.code.token);
  }

  lemma SameCheck(cfg: Config, s: Store, s': Store, r: CodeRequest)
    requires s'.grants == s.grants
    ensures CheckCode(cfg, s', r) == CheckCode(cfg, s, r)
  {
  }

  lemma UsedCodeIsReplay(cfg: Config, s: Store, r: CodeRequest)
    requires r.code.Parsed? && RefOf(r.code.token) in s.grants
    requires var g := s.grants[RefOf(r.code.token)].record;
      g.authCodeId == Some(Digest(r.code.token)) && g.clientId == r.clientId && g.authCodeWrappedKey.None?
    ensures CheckCode(cfg, s, r) == Replay
  {
  }

  lemma ReplayOfStored(cfg: Config, s: Store, r: CodeRequest)
    requires CheckCode(cfg, s, r) == Replay && r.code.Parsed?
    ensures ExchangeCode(cfg, s, r).store == Revoke(s, RefOf(r.code.token))
  {
    hide CheckCode;
  }

  lemma DeadAfterRevoking(s: Store, ref: GrantRef)
    requires ref.grantId in s.used
    ensures Dead(Revoke(s, ref), ref)
  {
  }

  /** A subject token is exchanged exactly when it and its grant are stored, it has a storable rest of
      life, the audience can be granted, the callback does not throw, and the lifetime asked for is
      positive and, after the callback, can be stored. */
  lemma SubjectTokenExchangesExactlyWhen(cfg: Config, s: Store, r: ExchangeRequest)
    requires cfg.Valid() && Inv(s)
    ensures Exchange(cfg, s, r).response.Issued? <==>
      && r.subjectToken.Parsed? && TokenRefOf(r.subjectToken.token) in s.tokens
      && RefOf(r.subjectToken.token) in s.grants
      && var t, g := s.tokens[TokenRefOf(r.subjectToken.token)].record, s.grants[RefOf(r.subjectToken.token)].record;
      && t.expiresAt - s.now >= KV_MIN_EXPIRATION_TTL_SECONDS
      && ExchangeAudience(cfg, r, t, g).Ok?
      && !r.callback.Threw? && (r.expiresIn.Some? ==> r.expiresIn.value > 0)
      && AskedTTL(cfg, r) >= KV_MIN_EXPIRATION_TTL_SECONDS
      && !r.fault.TokenWriteFails?
  {
    hide Inv, ExchangeAudience, ExchangeScopes, RekeyOnExchange;
    if r.subjectToken.Parsed? { KeyAgreement(s, r.subjectToken.token); }
  }

  /** From authorization to tokens: the text that an authorization hands out is exchanged exactly when
      the user id has no colon, and the client, the verifier, the redirect URI and the resource are
      those of the authorization, and neither the callback nor a write fails. */
  lemma AuthorizationRoundTrip(cfg: Config, s: Store, a: AuthorizeRequest, c: CodeRequest)
    requires cfg.Valid() && Inv(s) && Fresh(s, AuthorizeEvent(a)) && a.accepted && !a.isImplicit
    requires NoColon(a.grantId) && NoColon(a.secret)
    requires c.code == Parse(AsText(Bearer(a.userId, a.grantId, a.secret)))
    ensures Authorize(cfg, s, a).response == Authorized(Bearer(a.userId, a.grantId, a.secret))
    ensures ExchangeCode(cfg, Authorize(cfg, s, a).store, c).response.Issued? <==>
      && NoColon(a.userId) && c.clientId == a.clientId
      && PkceSatisfied(cfg, a.codeChallenge, a.codeChallengeMethod, c.codeVerifier)
      && (if c.redirectUri.Some? then c.redirectUriValid else a.codeChallenge.Some?)
      && ResolveTokenResource(cfg, c.resource, a.resource).Ok?
      && !c.callback.Threw? && CallbackTTL(c.callback, cfg.accessTokenTTL) >= KV_MIN_EXPIRATION_TTL_SECONDS
      && c.fault == NoFault
    ensures !NoColon(a.userId) ==>
      ExchangeCode(cfg, Authorize(cfg, s, a).store, c) == Outcome(Authorize(cfg, s, a).store, Refused(InvalidGrant))
  {
    hide Inv, ResolveTokenResource, ExchangeCode, Authorize, PkceSatisfied;
    var b, s1 := Bearer(a.userId, a.grantId, a.secret), Authorize(cfg, s, a).store;
    ReadsBackExactlyWhen(b);
    AuthorizeKeepsInv(cfg, s, a);
    AuthorizedGrant(cfg, s, a);
    CodeExchangesExactlyWhen(cfg, s1, c);
    if !NoColon(a.userId) { MalformedIsRefused(cfg, s1, c); }
  }

  lemma MalformedIsRefused(cfg: Config, s: Store, c: CodeRequest)
    requires c.code.Malformed?
    ensures ExchangeCode(cfg, s, c) == Outcome(s, Refused(InvalidGrant))
  {
  }

  /** The tokens of such an exchange: the access token opens the authorized props, or those that the
      callback put in their place, within the authorized scope, and so does the refresh token. */
  lemma AuthorizationDelivers(cfg: Config, s: Store, a: AuthorizeRequest, c: CodeRequest)
    requires cfg.Valid() && Inv(s) && Fresh(s, AuthorizeEvent(a)) && a.accepted && !a.isImplicit
    requires NoColon(a.grantId) && NoColon(a.secret)
    requires c.code == Parse(AsText(Bearer(a.userId, a.grantId, a.secret)))
    requires ExchangeCode(cfg, Authorize(cfg, s, a).store, c).response.Issued?
    ensures var o := ExchangeCode(cfg, Authorize(cfg, s, a).store, c);
      var result := if c.callback.Returned? then c.callback.result else None;
      && o.response.scope == CallbackScope(c.callback, Downscope(c.scope, a.scope), a.scope)
      && Within(o.response.scope, a.scope)
      && TokenRefOf(o.response.accessToken) in o.store.tokens && RefOf(o.response.accessToken) in o.store.grants
      && var t := o.store.tokens[TokenRefOf(o.response.accessToken)].record;
      var g := o.store.grants[RefOf(o.response.accessToken)].record;
      && Open(o.response.accessToken, t.wrappedEncryptionKey, t.encryptedProps) == Some(TokenProps(result, a.props))
      && (o.response.refreshToken.Some? <==> CallbackRefreshTTL(c.callback, cfg.refreshTokenTTL) != Some(0))
      && (o.response.refreshToken.Some? ==>
            && g.refreshTokenWrappedKey.Some?
            && Open(o.response.refreshToken.value, g.refreshTokenWrappedKey.value, g.encryptedProps) ==
                 Some(GrantProps(result, a.props)))
      && GrantPropsAsDocumented(c.callback, a.props, g.encryptedProps.plain)
      && TokenPropsAsDocumented(c.callback, a.props,
                                Open(o.response.accessToken, t.wrappedEncryptionKey, t.encryptedProps))
  {
    hide Inv, ResolveTokenResource, ExchangeCode, Authorize, TokenProps, GrantProps, CallbackScope, Downscope;
    hide TokenPropsAsDocumented, GrantPropsAsDocumented;
    var s1 := Authorize(cfg, s, a).store;
    AuthorizationRoundTrip(cfg, s, a, c);
    ReadsBackExactlyWhen(Bearer(a.userId, a.grantId, a.secret));
    AuthorizedGrant(cfg, s, a);
    CodeDeliversProps(cfg, s1, c);
    CodeScope(cfg, s1, c);
    KeepsWithin(c.callback, c.scope, a.scope);
  }

  /** A user id with a colon in it: the authorization succeeds and its code is never accepted. */
  lemma ColonUserNeverGetsTokens(cfg: Config, s: Store, a: AuthorizeRequest, c: CodeRequest)
    requires cfg.Valid() && Inv(s) && Fresh(s, AuthorizeEvent(a)) && a.accepted && !a.isImplicit
    requires NoColon(a.grantId) && NoColon(a.secret) && a.userId == "tenant:user"
    requires c.code == Parse(AsText(Bearer(a.userId, a.grantId, a.secret)))
    ensures Authorize(cfg, s, a).response.Authorized?
    ensures ExchangeCode(cfg, Authorize(cfg, s, a).store, c).response == Refused(InvalidGrant)
  {
    assert a.userId[6] == ':';
    AuthorizationRoundTrip(cfg, s, a, c);
  }

  lemma AuthorizedGrant(cfg: Config, s: Store, a: AuthorizeRequest)
    requires Inv(s) && Fresh(s, AuthorizeEvent(a)) && a.accepted && !a.isImplicit
    ensures var o, ref, b := Authorize(cfg, s, a), GrantRef(a.userId, a.grantId), Bearer(a.userId, a.grantId, a.secret);
      && o.response == Authorized(b) && ref in o.store.grants
      && o.store.grants[ref].record == NewGrant(a, Ciphertext(s.nextKey, a.props)).(
           authCodeId := Some(Digest(b)), authCodeWrappedKey := Some(WrappedKey(b, s.nextKey)),
           codeChallenge := a.codeChallenge, codeChallengeMethod := a.codeChallengeMethod)
  {
    assert GrantRef(a.userId, a.grantId) !in s.grants by {
      if GrantRef(a.userId, a.grantId) in s.grants { KnownGrantId(s, GrantRef(a.userId, a.grantId)); }
    }
  }

  lemma CodeScope(cfg: Config, s: Store, c: CodeRequest)
    requires ExchangeCode(cfg, s, c).response.Issued?
    ensures c.code.Parsed? && RefOf(c.code.token) in s.grants
    ensures var o, g := ExchangeCode(cfg, s, c), s.grants[RefOf(c.code.token)].record;
      && o.response.scope == CallbackScope(c.callback, Downscope(c.scope, g.scope), g.scope)
      && (o.response.refreshToken.Some? <==> CallbackRefreshTTL(c.callback, cfg.refreshTokenTTL) != Some(0))
  {
    hide CheckCode, ResolveTokenResource, Downscope, ConsumeCode, CallbackScope;
    CheckedCode(cfg, s, c, CheckCode(cfg, s, c).grant);
  }
}
