/** One ID-JAG assertion, one access token (repos/workers-oauth-provider/src/ema/jti.ts, ema/validators.ts,
    and runEmaPipeline in oauth-provider.ts). */
module EmaReplay {
  import opened Wrappers
  import opened OAuthTypes
  import opened EmaClaims
  import opened GrantLifecycle

  /** The assertion is used up: its marker stands until `exp`, or `exp` has passed. */
  ghost predicate UsedUp(s: Store, c: IdJag) {
    (JtiKey(c) in s.markers && s.markers[JtiKey(c)] >= c.exp) || s.now >= c.exp
  }

  /** A request that gets its token leaves its assertion used up. */
  lemma MintingUsesUp(cfg: Config, s: Store, r: EmaRequest)
    requires MintFromAssertion(cfg, s, r).response.Issued?
    ensures UsedUp(MintFromAssertion(cfg, s, r).store, r.claims)
  {
    hide ValidateClaims, ParseScopeParam, MapperAccepts;
  }

  /** The marker is evicted only when its lifetime is over, and then the assertion has expired. */
  lemma StaysUsedUp(cfg: Config, s: Store, e: Event, c: IdJag)
    requires UsedUp(s, c)
    ensures UsedUp(Step(cfg, s, e).store, c)
  {
    hide ValidateClaims, ParseScopeParam, MapperAccepts, ResolveTokenResource, ExchangeCode, Refresh, RekeyOnExchange,
         ExchangeAudience;
    match e
    case CodeEvent(r) => CodeKeepsMarkers(cfg, s, r);
    case RefreshEvent(r) => RefreshKeepsMarkers(cfg, s, r);
    case EmaEvent(r) => EmaStaysUsedUp(cfg, s, r, c);
    case _ =>
  }

  lemma CodeKeepsMarkers(cfg: Config, s: Store, r: CodeRequest)
    ensures ExchangeCode(cfg, s, r).store.markers == s.markers && ExchangeCode(cfg, s, r).store.now >= s.now
  {
    hide ResolveTokenResource, RekeyOnCode, ConsumeCode, GrantExpiration;
  }

  lemma RefreshKeepsMarkers(cfg: Config, s: Store, r: RefreshRequest)
    ensures Refresh(cfg, s, r).store.markers == s.markers && Refresh(cfg, s, r).store.now >= s.now
  {
    hide ResolveTokenResource, RekeyOnRefresh, Rotate, GrantExpiration;
  }

  lemma EmaStaysUsedUp(cfg: Config, s: Store, r: EmaRequest, c: IdJag)
    requires UsedUp(s, c)
    ensures UsedUp(MintFromAssertion(cfg, s, r).store, c)
  {
    hide ValidateClaims, ParseScopeParam, MapperAccepts;
  }

  lemma UsedUpIsRefused(cfg: Config, s: Store, r: EmaRequest)
    requires UsedUp(s, r.claims)
    ensures !MintFromAssertion(cfg, s, r).response.Issued?
  {
  }

  lemma {:induction false} RunStaysUsedUp(cfg: Config, s: Store, events: seq<Event>, c: IdJag)
    requires UsedUp(s, c)
    ensures UsedUp(Run(cfg, s, events), c)
    decreases |events|
  {
    hide UsedUp, Step;
    if events != [] {
      StaysUsedUp(cfg, s, events[0], c);
      RunStaysUsedUp(cfg, Step(cfg, s, events[0]).store, events[1..], c);
    }
  }

  /** In every run an assertion mints at most one access token. */
  lemma MintsAtMostOnce(cfg: Config, s: Store, first: EmaRequest, between: seq<Event>, second: EmaRequest)
    requires MintFromAssertion(cfg, s, first).response.Issued? && second.claims == first.claims
    ensures !MintFromAssertion(cfg, Run(cfg, MintFromAssertion(cfg, s, first).store, between), second).response.Issued?
  {
    hide MintFromAssertion, UsedUp;
    MintingUsesUp(cfg, s, first);
    RunStaysUsedUp(cfg, MintFromAssertion(cfg, s, first).store, between, first.claims);
    UsedUpIsRefused(cfg, Run(cfg, MintFromAssertion(cfg, s, first).store, between), second);
  }

  /** The claim checks alone would not do: with a skew they still accept an expired assertion, at a
      time when its marker may be gone. It is the lifetime computation that refuses it. */
  lemma SkewOutlastsTheMarker(c: IdJag, p: Policy, markedAt: int)
    requires CheckTimes(c, p, markedAt).None? && c.exp - markedAt >= EMA_JTI_MIN_TTL_SECONDS && p.clockSkew > 0
    ensures markedAt + MarkerTTL(c.exp, markedAt) == c.exp && CheckTimes(c, p, c.exp).None?
    ensures forall configured, mapper, minimum :: AccessTokenTTL(configured, c.exp, mapper, c.exp, minimum).Err?
  {
  }

  /** A minted token and its grant carry only scopes of the assertion, when it names any. */
  lemma MintedScopeIsAsserted(cfg: Config, s: Store, r: EmaRequest)
    requires MintFromAssertion(cfg, s, r).response.Issued?
    ensures var checked := ValidateClaims(r.claims, r.clientId, r.policy, s.now);
      checked.Ok? &&
      (checked.value.scopes != [] ==> Within(MintFromAssertion(cfg, s, r).response.scope, checked.value.scopes))
  {
    hide ValidateClaims, ParseScopeParam, MapperAccepts;
  }
}
