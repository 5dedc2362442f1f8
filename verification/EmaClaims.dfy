/** Claim checks, replay marker and lifetime of an ID-JAG assertion
    (repos/workers-oauth-provider/src/ema/validators.ts, ema/jti.ts). */
module EmaClaims {
  import opened Wrappers
  import opened OAuthTypes
  import opened Texts

  const EMA_JTI_MIN_TTL_SECONDS: int := 60

  /** The claims the checks read; `audience` is the string or the list of the `aud` claim. */
  datatype IdJag = IdJag(
    iss: string, sub: string, audience: seq<string>, clientId: string, jti: string,
    exp: int, iat: int, nbf: Option<int>,
    resource: Option<string>, scope: Option<string>, unsupportedClaim: bool)

  /** What the deployment expects. `resourceOk` says whether a resource matches the configured one. */
  datatype Policy = Policy(
    trustedIssuer: string, expectedAudience: string, configuredResource: string, resourceOk: string -> bool,
    validScope: string -> bool, clockSkew: nat, maxLifetime: nat)

  datatype ValidIdJag = ValidIdJag(resource: string, scopes: seq<string>)

  datatype ClaimError =
    | InvalidClaim | IssuerNotTrusted | UnsupportedClaim | AudMismatch | ClientIdMismatch | ResourceMismatch
    | InvalidScopeParam
    | Expired | IatInFuture | NbfInFuture | LifetimeTooLong | ExpiredAfterProcessing | InvalidMappedTtl

  /** The time checks, in order: the skew applies to every one of them. */
  function CheckTimes(c: IdJag, p: Policy, now: int): Option<ClaimError> {
    if c.exp + p.clockSkew <= now then Some(Expired)
    else if c.iat > now + p.clockSkew then Some(IatInFuture)
    else if c.nbf.Some? && c.nbf.value < 0 then Some(InvalidClaim)
    else if c.nbf.Some? && c.nbf.value > now + p.clockSkew then Some(NbfInFuture)
    else if c.exp - c.iat > p.maxLifetime + p.clockSkew then Some(LifetimeTooLong)
    else None
  }

  function ValidateClaims(c: IdJag, clientId: string, p: Policy, now: int): Result<ValidIdJag, ClaimError> {
    if c.iss == "" then Err(InvalidClaim)
    else if c.iss != p.trustedIssuer then Err(IssuerNotTrusted)
    else if c.sub == "" || |c.audience| != 1 || c.audience[0] == "" then Err(InvalidClaim)
    else if c.unsupportedClaim then Err(UnsupportedClaim)
    else if c.resource == Some("") || c.clientId == "" || c.jti == "" || c.exp < 0 || c.iat < 0 then Err(InvalidClaim)
    else if c.audience[0] != p.expectedAudience then Err(AudMismatch)
    else if c.clientId != clientId then Err(ClientIdMismatch)
    else
      var resource := if c.resource.Some? then c.resource.value else p.configuredResource;
      if !p.resourceOk(resource) then Err(ResourceMismatch)
      else
        var late := CheckTimes(c, p, now);
        var scopes := if c.scope.Some? then Words(c.scope.value) else [];
        if late.Some? then Err(late.value)
        else if c.scope == Some("") || exists s :: s in scopes && !p.validScope(s) then Err(InvalidClaim)
        else Ok(ValidIdJag(resource, scopes))
  }

  /** An assertion passes exactly when it is from the trusted issuer for this server, this client and
      a resource of this server, names only well-formed scopes, and the moment lies, give or take the
      skew, between its start and its expiry with a lifetime that is not too long. */
  lemma ClaimsAcceptedExactlyWhen(c: IdJag, clientId: string, p: Policy, now: int)
    ensures ValidateClaims(c, clientId, p, now).Ok? <==>
      && c.iss == p.trustedIssuer && c.audience == [p.expectedAudience] && c.clientId == clientId
      && "" !in {c.iss, c.sub, p.expectedAudience, c.clientId, c.jti} && !c.unsupportedClaim
      && c.resource != Some("") && p.resourceOk(if c.resource.Some? then c.resource.value else p.configuredResource)
      && c.scope != Some("") && (c.scope.Some? ==> forall w :: w in Words(c.scope.value) ==> p.validScope(w))
      && 0 <= c.exp && 0 <= c.iat && c.iat - p.clockSkew <= now < c.exp + p.clockSkew
      && (c.nbf.Some? ==> 0 <= c.nbf.value <= now + p.clockSkew)
      && c.exp - c.iat <= p.maxLifetime + p.clockSkew
    ensures var r := ValidateClaims(c, clientId, p, now);
      r.Ok? ==>
        && r.value.resource == (if c.resource.Some? then c.resource.value else p.configuredResource)
        && forall w :: w in r.value.scopes <==> c.scope.Some? && w != "" && PartOf(c.scope.value, ' ', w)
  {
    if c.scope.Some? {
      forall w ensures w in Words(c.scope.value) <==> w != "" && PartOf(c.scope.value, ' ', w) {
        SplitsIntoParts(c.scope.value, ' ', w);
      }
    }
  }

  function AllWords(parts: seq<string>): seq<string> {
    if parts == [] then [] else Words(parts[0]) + AllWords(parts[1..])
  }

  /** The request's scope, bounded by the assertion's scopes when it has any. */
  function ParseScopeParam(scope: ScopeParam, assertionScopes: seq<string>,
                           p: Policy): (r: Result<seq<string>, ClaimError>)
    ensures r.Ok? && assertionScopes != [] ==> Within(r.value, assertionScopes)
  {
    var requested := match scope
                     case Absent => assertionScopes
                     case OneString(text) => Words(text)
                     case Many(parts) => AllWords(parts);
    if !scope.Absent? && exists s :: s in requested && !p.validScope(s) then Err(InvalidScopeParam)
    else Ok(if assertionScopes != [] then Keep(requested, assertionScopes) else requested)
  }

  /** The scope is written in the parameter, between spaces. */
  ghost predicate Written(scope: ScopeParam, word: string) {
    match scope
    case Absent => false
    case OneString(text) => word != "" && PartOf(text, ' ', word)
    case Many(parts) => word != "" && exists part :: part in parts && PartOf(part, ' ', word)
  }

  lemma {:induction false} AllWordsAreParts(parts: seq<string>, word: string)
    ensures word in AllWords(parts) <==> word != "" && exists part :: part in parts && PartOf(part, ' ', word)
  {
    if parts != [] {
      SplitsIntoParts(parts[0], ' ', word);
      AllWordsAreParts(parts[1..], word);
      assert parts == [parts[0]] + parts[1..];
    }
  }

  /** The parameter is refused exactly when it holds a malformed scope. Otherwise the scopes kept are
      those written, or the assertion's when there is no parameter, as far as the assertion allows. */
  lemma ParseScopeParamExactly(scope: ScopeParam, assertionScopes: seq<string>, p: Policy)
    ensures ParseScopeParam(scope, assertionScopes, p).Err? <==> exists w :: Written(scope, w) && !p.validScope(w)
    ensures var r := ParseScopeParam(scope, assertionScopes, p);
      r.Ok? ==> forall w :: w in r.value <==>
        (scope.Absent? || Written(scope, w)) && (w in assertionScopes || (assertionScopes == [] && !scope.Absent?))
  {
    forall w ensures scope.OneString? ==> (w in Words(scope.text) <==> Written(scope, w)) {
      if scope.OneString? { SplitsIntoParts(scope.text, ' ', w); }
    }
    forall w ensures scope.Many? ==> (w in AllWords(scope.scopes) <==> Written(scope, w)) {
      if scope.Many? { AllWordsAreParts(scope.scopes, w); }
    }
  }

  /** The replay marker's key: the hash of issuer and jti stands for the text that is hashed. */
  function JtiKey(c: IdJag): string { c.iss + "\n" + c.jti }

  /** How long the marker lives: at least until `exp`, and at least as long as KV demands. */
  function MarkerTTL(exp: int, now: int): (ttl: int)
    ensures ttl >= EMA_JTI_MIN_TTL_SECONDS && now + ttl >= exp
  {
    Max(EMA_JTI_MIN_TTL_SECONDS, exp - now)
  }

  /** The access token's lifetime: what the mapper says, or else the configured one. */
  function AccessTokenTTL(configured: int, exp: int, mapper: Option<int>, now: int,
                          minimum: int): (ttl: Result<int, ClaimError>)
    ensures ttl.Ok? <==> now < exp && minimum <= (if mapper.Some? then mapper.value else configured)
    ensures ttl.Ok? ==> ttl.value == if mapper.Some? then mapper.value else configured
    ensures ttl == Err(ExpiredAfterProcessing) <==> now >= exp
    ensures ttl.Err? && now < exp ==> ttl.error == InvalidMappedTtl
  {
    if exp - now <= 0 then Err(ExpiredAfterProcessing)
    else
      var t := if mapper.Some? then mapper.value else configured;
      if t < minimum then Err(InvalidMappedTtl) else Ok(t)
  }
}
