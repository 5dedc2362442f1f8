/** Refresh token rotation seen from a client whose responses can get lost
    (repos/workers-oauth-provider/src/oauth-provider.ts, handleRefreshTokenGrant). */
module RefreshRetry {
  import opened Wrappers
  import opened OAuthTypes
  import opened GrantLifecycle
  import opened LifecycleInvariants
  import opened LifecycleTheorems

  /** The grant, while it is stored, accepts the token. */
  ghost predicate Accepts(s: Store, token: Bearer) {
    RefOf(token) in s.grants ==>
      var g := s.grants[RefOf(token)].record;
      g.refreshTokenId == Some(Digest(token)) || g.previousRefreshTokenId == Some(Digest(token))
  }

  /** What happens around one client: it tries to refresh, and the response arrives or is lost, or
      something else happens in which nobody presents a refresh token of its grant. */
  datatype Act = Attempt(r: RefreshRequest, arrives: bool) | Other(e: Event)

  function EventOf(a: Act): Event {
    match a case Attempt(r, _) => RefreshEvent(r) case Other(e) => e
  }

  /** The client keeps the last refresh token it received. */
  function Received(cfg: Config, s: Store, held: Bearer, a: Act): Bearer {
    if a.Attempt? && a.arrives && Refresh(cfg, s, a.r).response.Issued? &&
       Refresh(cfg, s, a.r).response.refreshToken.Some?
    then Refresh(cfg, s, a.r).response.refreshToken.value else held
  }

  /** The client presents what it holds, one request at a time. */
  predicate Plays(s: Store, held: Bearer, a: Act) {
    && Fresh(s, EventOf(a))
    && (a.Attempt? ==> a.r.refreshToken == Parsed(held))
    && (a.Other? && a.e.RefreshEvent? && a.e.r.refreshToken.Parsed? ==> RefOf(a.e.r.refreshToken.token) != RefOf(held))
  }

  predicate Playing(cfg: Config, s: Store, held: Bearer, acts: seq<Act>)
    decreases |acts|
  {
    acts == [] ||
    (Plays(s, held, acts[0]) &&
     Playing(cfg, Step(cfg, s, EventOf(acts[0])).store, Received(cfg, s, held, acts[0]), acts[1..]))
  }

  function AfterPlaying(cfg: Config, s: Store, held: Bearer, acts: seq<Act>): (Store, Bearer)
    decreases |acts|
  {
    if acts == [] then (s, held)
    else AfterPlaying(cfg, Step(cfg, s, EventOf(acts[0])).store, Received(cfg, s, held, acts[0]), acts[1..])
  }

  /** A refresh leaves the grant as it was, or rotates it to the presented and the new token. The
      latter also happens when the new access token cannot be stored. */
  lemma RefreshRotatesOrKeeps(cfg: Config, s: Store, r: RefreshRequest)
    requires r.refreshToken.Parsed?
    ensures var ref, o := RefOf(r.refreshToken.token), Refresh(cfg, s, r);
      var newToken := Bearer(ref.userId, ref.grantId, r.newRefreshSecret);
      && (o.store.grants == s.grants ||
          (ref in o.store.grants
           && o.store.grants[ref].record.refreshTokenId == Some(Digest(newToken))
           && o.store.grants[ref].record.previousRefreshTokenId == Some(Digest(r.refreshToken.token))))
      && (o.response.Issued? ==>
          (o.response.refreshToken == Some(newToken) && ref in o.store.grants
           && o.store.grants[ref].record.refreshTokenId == Some(Digest(newToken))
           && o.store.grants[ref].record.previousRefreshTokenId == Some(Digest(r.refreshToken.token))))
  {
    hide ResolveTokenResource, RekeyOnRefresh, CallbackScope;
  }

  /** The client's first refresh token, from the code exchange, is accepted. */
  lemma FirstTokenIsAccepted(cfg: Config, s: Store, r: CodeRequest)
    requires Inv(s) && Fresh(s, CodeEvent(r)) && ExchangeCode(cfg, s, r).response.Issued?
    requires ExchangeCode(cfg, s, r).response.refreshToken.Some?
    ensures var held := ExchangeCode(cfg, s, r).response.refreshToken.value;
      RefOf(held) in ExchangeCode(cfg, s, r).store.grants && Accepts(ExchangeCode(cfg, s, r).store, held)
  {
    hide Inv, CheckCode, ResolveTokenResource, RekeyOnCode, CallbackScope;
    CheckedCode(cfg, s, r, CheckCode(cfg, s, r).grant);
  }

  /** Steps that present no refresh token of this grant leave its accepted tokens alone. */
  lemma OthersKeepAccepting(cfg: Config, s: Store, e: Event, held: Bearer)
    requires Inv(s) && Fresh(s, e) && Accepts(s, held) && held.grantId in s.used
    requires e.RefreshEvent? && e.r.refreshToken.Parsed? ==> RefOf(e.r.refreshToken.token) != RefOf(held)
    ensures Accepts(Step(cfg, s, e).store, held)
  {
    hide Inv, Later, ResolveTokenResource, RekeyOnCode, RekeyOnRefresh, RekeyOnExchange, CallbackScope, GrantOk;
    match e
    case CodeEvent(r) =>
      hide ConsumeAndMint, CheckCode;
      StepIsLater(cfg, s, e);
      if CheckCode(cfg, s, r).Proceed? {
        CheckedCode(cfg, s, r, CheckCode(cfg, s, r).grant);
        OtherCode(cfg, s, r, held);
      } else if CheckCode(cfg, s, r).Replay? {
        ReplayedCode(cfg, s, r);
      }
    case RefreshEvent(r) => OtherRefresh(cfg, s, r, held);
    case EmaEvent(r) => OtherEma(cfg, s, r, held);
    case _ =>
  }

  lemma OtherCode(cfg: Config, s: Store, r: CodeRequest, held: Bearer)
    requires Inv(s) && Accepts(s, held) && CheckCode(cfg, s, r).Proceed?
    ensures Accepts(ExchangeCode(cfg, s, r).store, held)
  {
    hide Inv, ResolveTokenResource, RekeyOnCode, CheckCode, CallbackScope;
    var g := CheckCode(cfg, s, r).grant;
    CheckedCode(cfg, s, r, g);
    if RefOf(r.code.token) == RefOf(held) {
      UnusedCodeHasNoRefreshToken(s, RefOf(held));
    }
  }

  lemma UnusedCodeHasNoRefreshToken(s: Store, ref: GrantRef)
    requires Inv(s) && ref in s.grants && s.grants[ref].record.authCodeWrappedKey.Some?
    ensures s.grants[ref].record.refreshTokenId.None? && s.grants[ref].record.previousRefreshTokenId.None?
  {
  }

  lemma OtherRefresh(cfg: Config, s: Store, r: RefreshRequest, held: Bearer)
    requires Accepts(s, held)
    requires r.refreshToken.Parsed? ==> RefOf(r.refreshToken.token) != RefOf(held)
    ensures Accepts(Refresh(cfg, s, r).store, held)
  {
    hide ResolveTokenResource, RekeyOnRefresh, CallbackScope, Rotate;
  }

  lemma OtherEma(cfg: Config, s: Store, r: EmaRequest, held: Bearer)
    requires Accepts(s, held) && held.grantId in s.used && r.grantId !in s.used
    ensures Accepts(MintFromAssertion(cfg, s, r).store, held)
  {
  }

  /** A client that keeps the last token it received is never locked out: whatever responses were
      lost and whatever else happened, the stored grant accepts the token the client holds. */
  lemma {:induction false} NeverLockedOut(cfg: Config, s: Store, held: Bearer, acts: seq<Act>)
    requires cfg.Valid() && Inv(s) && Accepts(s, held) && held.grantId in s.used && Playing(cfg, s, held, acts)
    ensures var (s', held') := AfterPlaying(cfg, s, held, acts);
      Inv(s') && Accepts(s', held') && RefOf(held') == RefOf(held)
    decreases |acts|
  {
    hide Inv, Later, Refresh, Step, Accepts;
    if acts != [] {
      var a := acts[0];
      var s1, held1 := Step(cfg, s, EventOf(a)).store, Received(cfg, s, held, a);
      StepKeepsInv(cfg, s, EventOf(a));
      StepIsLater(cfg, s, EventOf(a));
      UsedGrows(s, s1);
      match a {
        case Attempt(r, arrives) => AttemptKeepsAccepting(cfg, s, held, r, arrives);
        case Other(e) => OthersKeepAccepting(cfg, s, e, held);
      }
      NeverLockedOut(cfg, s1, held1, acts[1..]);
    }
  }

  lemma UsedGrows(s: Store, s': Store)
    requires Later(s, s')
    ensures s.used <= s'.used
  {
  }

  lemma AttemptKeepsAccepting(cfg: Config, s: Store, held: Bearer, r: RefreshRequest, arrives: bool)
    requires Accepts(s, held) && r.refreshToken == Parsed(held)
    ensures var held' := Received(cfg, s, held, Attempt(r, arrives));
      Accepts(Step(cfg, s, RefreshEvent(r)).store, held') && RefOf(held') == RefOf(held)
  {
    hide Refresh;
    RefreshRotatesOrKeeps(cfg, s, r);
  }

  /** An accepted token works: its client gets new tokens exactly when the resource is granted, the
      grant is not about to expire, before or after the callback, the callback neither throws nor sets a
      refresh token lifetime nor leaves an access token lifetime too short to store, and no write fails. */
  lemma AcceptedTokenRefreshes(cfg: Config, s: Store, r: RefreshRequest)
    requires cfg.Valid() && Inv(s) && r.refreshToken.Parsed? && Accepts(s, r.refreshToken.token)
    requires RefOf(r.refreshToken.token) in s.grants
    ensures var g := s.grants[RefOf(r.refreshToken.token)].record;
      Refresh(cfg, s, r).response.Issued? <==>
        && g.clientId == r.clientId && !TooCloseToExpiry(s.now + r.callbackTime, g)
        && ResolveTokenResource(cfg, r.resource, g.resource).Ok?
        && !r.callback.Threw? && CallbackRefreshTTLAbsent(r.callback)
        && CallbackTTL(r.callback, cfg.accessTokenTTL) >= KV_MIN_EXPIRATION_TTL_SECONDS
        && r.fault == NoFault
  {
    hide Inv, ResolveTokenResource, CallbackScope, Rotate, RekeyOnRefresh;
    KeyAgreement(s, r.refreshToken.token);
  }

  /** The callback's answer has no refresh token lifetime, which a refresh refuses. */
  predicate CallbackRefreshTTLAbsent(callback: Callback) {
    callback.Returned? && callback.result.Some? ==> callback.result.value.refreshTokenTTL.None?
  }

  // ---------------------------------------------------------------- everything older is dead

  /** The token will not be accepted: it is not one the grant accepts now, and it is not new. */
  ghost predicate Retired(s: Store, token: Bearer) {
    && token.secret in s.used && token.grantId in s.used
    && (RefOf(token) in s.grants ==>
          var g := s.grants[RefOf(token)].record;
          g.refreshTokenId != Some(Digest(token)) && g.previousRefreshTokenId != Some(Digest(token)))
  }

  lemma RetiredForGood(s: Store, s': Store, token: Bearer)
    requires Retired(s, token) && Later(s, s')
    ensures Retired(s', token)
  {
  }

  lemma RetiredIsRefused(cfg: Config, s: Store, r: RefreshRequest)
    requires r.refreshToken.Parsed? && Retired(s, r.refreshToken.token)
    ensures Refresh(cfg, s, r).response == Refused(InvalidGrant) && Refresh(cfg, s, r).store == s
  {
  }

  /** Once either accepted token has been used, every other token issued earlier is refused for ever;
      also when the use rotated the grant and then failed to store its access token. */
  lemma UseRetiresTheRest(cfg: Config, s: Store, r: RefreshRequest, old_: Bearer, later: seq<Event>,
                          again: RefreshRequest)
    requires cfg.Valid() && Inv(s) && Fresh(s, RefreshEvent(r)) && Refresh(cfg, s, r).store.grants != s.grants
    requires r.refreshToken.Parsed? && RefOf(old_) == RefOf(r.refreshToken.token) && old_ != r.refreshToken.token
    requires old_.secret in s.used
    requires FreshRun(cfg, Refresh(cfg, s, r).store, later) && again.refreshToken == Parsed(old_)
    ensures Refresh(cfg, Run(cfg, Refresh(cfg, s, r).store, later), again).response == Refused(InvalidGrant)
  {
    hide Inv, Later, Refresh, Retired;
    var s1 := Refresh(cfg, s, r).store;
    assert Step(cfg, s, RefreshEvent(r)).store == s1;
    StepKeepsInv(cfg, s, RefreshEvent(r));
    StepIsLater(cfg, s, RefreshEvent(r));
    UsedGrows(s, s1);
    assert Retired(s1, old_) by { RotationRetires(cfg, s, r, old_); }
    RunIsLater(cfg, s1, later);
    RetiredForGood(s1, Run(cfg, s1, later), old_);
    RetiredIsRefused(cfg, Run(cfg, s1, later), again);
  }

  lemma RotationRetires(cfg: Config, s: Store, r: RefreshRequest, old_: Bearer)
    requires Inv(s) && Fresh(s, RefreshEvent(r)) && Refresh(cfg, s, r).store.grants != s.grants
    requires r.refreshToken.Parsed? && RefOf(old_) == RefOf(r.refreshToken.token) && old_ != r.refreshToken.token
    requires old_.secret in s.used
    ensures Retired(Refresh(cfg, s, r).store, old_)
  {
    hide Inv, Later, Refresh;
    RefreshRotatesOrKeeps(cfg, s, r);
    StepIsLater(cfg, s, RefreshEvent(r));
    UsedGrows(s, Step(cfg, s, RefreshEvent(r)).store);
    RotatedWasStored(cfg, s, r);
    KnownGrantId(s, RefOf(old_));
  }

  lemma RotatedWasStored(cfg: Config, s: Store, r: RefreshRequest)
    requires Refresh(cfg, s, r).store.grants != s.grants
    ensures r.refreshToken.Parsed? && RefOf(r.refreshToken.token) in s.grants
  {
    hide ResolveTokenResource, RekeyOnRefresh, RotateAndMint;
  }

  /** A use that issues tokens does rotate the grant. */
  lemma IssuingRotates(cfg: Config, s: Store, r: RefreshRequest)
    requires Inv(s) && Fresh(s, RefreshEvent(r)) && Refresh(cfg, s, r).response.Issued? && r.refreshToken.Parsed?
    ensures Refresh(cfg, s, r).store.grants != s.grants
  {
    hide Refresh;
    RefreshRotatesOrKeeps(cfg, s, r);
    var ref := RefOf(r.refreshToken.token);
    if ref in s.grants { assert GrantOk(s, ref, s.grants[ref].record); }
  }
}
