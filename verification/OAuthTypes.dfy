/** The records of the OAuth provider and the symbolic cryptography they rest on
    (repos/workers-oauth-provider/src/oauth-provider.ts).

    Hashing is injective, a wrapped key opens only under the token that wrapped it, and a
    ciphertext opens only under its key. Props stand for the identity of a JavaScript object. */
module OAuthTypes {
  import opened Texts
  import opened Wrappers

  type Props = string
  type CryptoKey = nat

  /** A code, refresh token or access token `userId:grantId:secret`. */
  datatype Bearer = Bearer(userId: string, grantId: string, secret: string)

  datatype Digest = Digest(of: Bearer)
  datatype Ciphertext = Ciphertext(key: CryptoKey, plain: Props)
  datatype WrappedKey = WrappedKey(under: Bearer, key: CryptoKey)

  function Unwrap(token: Bearer, wrapped: WrappedKey): Option<CryptoKey> {
    if wrapped.under == token then Some(wrapped.key) else None
  }

  function Decrypt(key: CryptoKey, data: Ciphertext): Option<Props> {
    if data.key == key then Some(data.plain) else None
  }

  /** What an endpoint does with a presented token: unwrap the key, then open the props. */
  function Open(token: Bearer, wrapped: WrappedKey, data: Ciphertext): Option<Props> {
    match Unwrap(token, wrapped)
    case Some(key) => Decrypt(key, data)
    case None => None
  }

  /** A PKCE challenge: a text, or the S256 hash of a verifier. */
  datatype Challenge = Text(text: string) | Hashed(verifier: string)
  datatype ChallengeMethod = Plain | S256 | Unknown

  datatype Grant = Grant(
    id: string, clientId: string, userId: string, scope: seq<string>, encryptedProps: Ciphertext,
    expiresAt: Option<int>,
    refreshTokenId: Option<Digest>, refreshTokenWrappedKey: Option<WrappedKey>,
    previousRefreshTokenId: Option<Digest>, previousRefreshTokenWrappedKey: Option<WrappedKey>,
    authCodeId: Option<Digest>, authCodeWrappedKey: Option<WrappedKey>,
    codeChallenge: Option<Challenge>, codeChallengeMethod: Option<ChallengeMethod>,
    resource: Option<seq<string>>, redirectUri: Option<string>)

  datatype Token = Token(
    id: Digest, grantId: string, userId: string, expiresAt: int, audience: Option<seq<string>>,
    scope: seq<string>, wrappedEncryptionKey: WrappedKey,
    clientId: string, grantScope: seq<string>, encryptedProps: Ciphertext)

  /** Keys of the namespace: `grant:userId:grantId` and `token:userId:grantId:id`. */
  datatype GrantRef = GrantRef(userId: string, grantId: string)
  datatype TokenRef = TokenRef(userId: string, grantId: string, id: Digest)

  /** A stored record with the absolute expiration KV was given, if any. */
  datatype Stored<T> = Stored(record: T, expiration: Option<int>)

  // ---------------------------------------------------------------- scopes

  /** The `scope` parameter of a request: absent, one string, or a list. */
  datatype ScopeParam = Absent | OneString(text: string) | Many(scopes: seq<string>)

  function Words(text: string): (words: seq<string>)
    ensures forall w :: w in words ==> w != ""
  {
    NonEmpty(SplitAt(text, ' '))
  }

  function Keep(requested: seq<string>, allowed: seq<string>): (kept: seq<string>)
    ensures forall s :: s in kept <==> s in requested && s in allowed
  {
    if requested == [] then []
    else (if requested[0] in allowed then [requested[0]] else []) + Keep(requested[1..], allowed)
  }

  ghost predicate Within(scopes: seq<string>, allowed: seq<string>) {
    forall s :: s in scopes ==> s in allowed
  }

  /** Restrict the requested scopes to the allowed ones; an empty request asks for all of them. */
  function Downscope(requested: ScopeParam, allowed: seq<string>): (scopes: seq<string>)
    ensures Within(scopes, allowed)
  {
    match requested
    case Absent => allowed
    case OneString(text) => if text == "" then allowed else Keep(Words(text), allowed)
    case Many(scopes) => Keep(scopes, allowed)
  }

  /** A scope is asked for by name, or by asking for nothing in particular. */
  ghost predicate Requested(requested: ScopeParam, scope: string) {
    match requested
    case Absent => true
    case OneString(text) => text == "" || (scope != "" && PartOf(text, ' ', scope))
    case Many(scopes) => scope in scopes
  }

  /** What is kept is exactly what is asked for and allowed. */
  lemma DownscopeKeeps(requested: ScopeParam, allowed: seq<string>, scope: string)
    ensures scope in Downscope(requested, allowed) <==> Requested(requested, scope) && scope in allowed
  {
    if requested.OneString? { SplitsIntoParts(requested.text, ' ', scope); }
  }

  // ---------------------------------------------------------------- configuration and audience

  const KV_MIN_EXPIRATION_TTL_SECONDS: int := 60
  const KV_EXPIRATION_CLAMP_MARGIN_SECONDS: int := 5
  const CODE_TTL_SECONDS: int := 600

  datatype Config = Config(
    accessTokenTTL: int, refreshTokenTTL: Option<int>, configuredResource: Option<string>,
    matchOriginOnly: bool, allowPlainPkce: bool,
    validUri: string -> bool, originOf: string -> Option<string>)
  {
    /** Checked when the provider is constructed. */
    predicate Valid() { accessTokenTTL >= KV_MIN_EXPIRATION_TTL_SECONDS }
  }

  datatype Error = InvalidRequest | InvalidGrant | InvalidTarget | ServerError | CallbackError | CryptoFailure

  function ParseResource(cfg: Config, value: Option<seq<string>>): Option<seq<string>> {
    if value.None? || value.value == [] || exists u :: u in value.value && !cfg.validUri(u) then None else value
  }

  predicate ResourceMatches(cfg: Config, requested: string, granted: string) {
    if !cfg.matchOriginOnly then requested == granted
    else match (cfg.originOf(requested), cfg.originOf(granted))
         case (Some(r), Some(g)) => r == g
         case _ => requested == granted
  }

  /** The audience of a new token, from the request and the grant. */
  function ResolveTokenResource(cfg: Config, requested: Option<seq<string>>, granted: Option<seq<string>>)
    : (r: Result<Option<seq<string>>, Error>)
    ensures r.Err? ==> r.error == InvalidTarget
  {
    var requestedAudience := ParseResource(cfg, requested);
    var grantedAudience := ParseResource(cfg, granted);
    if requested.Some? && requestedAudience.None? then Err(InvalidTarget)
    else if granted.Some? && grantedAudience.None? then Err(InvalidTarget)
    else if cfg.configuredResource.Some? then
      var configured := [cfg.configuredResource.value];
      if requested.Some? && requested.value != configured then Err(InvalidTarget)
      else if granted == Some(configured) || granted.None? then Ok(Some(configured))
      else Err(InvalidTarget)
    else if requested.Some? && granted.Some? &&
            (exists r :: r in requested.value && forall g :: g in granted.value ==> !ResourceMatches(cfg, r, g)) then
      Err(InvalidTarget)
    else Ok(if requestedAudience.Some? then requestedAudience else grantedAudience)
  }

  /** An audience never leaves what was granted: it is the configured resource when there is one,
      and otherwise each of its resources matches one of the grant's. */
  lemma AudienceStaysGranted(cfg: Config, requested: Option<seq<string>>, granted: Option<seq<string>>)
    ensures var r := ResolveTokenResource(cfg, requested, granted);
      && (r.Ok? && cfg.configuredResource.Some? ==> r.value == Some([cfg.configuredResource.value]))
      && (r.Ok? && cfg.configuredResource.None? && granted.Some? ==>
            r.value.Some? && forall a :: a in r.value.value ==>
              exists g :: g in granted.value && (a == g || ResourceMatches(cfg, a, g)))
  {
  }

  predicate WellFormed(cfg: Config, resources: Option<seq<string>>) {
    resources.Some? ==> resources.value != [] && forall u :: u in resources.value ==> cfg.validUri(u)
  }

  /** Which audiences are granted, and which one: with a configured resource nothing else may be asked for
      or granted; otherwise each resource that is asked for must be a granted one, or have the origin of
      one where only origins count. What is asked for comes before what was granted. */
  lemma AudienceExactly(cfg: Config, requested: Option<seq<string>>, granted: Option<seq<string>>)
    ensures ResolveTokenResource(cfg, requested, granted).Ok? <==>
      && WellFormed(cfg, requested) && WellFormed(cfg, granted)
      && (cfg.configuredResource.Some? ==>
            forall x :: x in [requested, granted] ==> x.None? || x == Some([cfg.configuredResource.value]))
      && (cfg.configuredResource.None? && requested.Some? && granted.Some? ==>
            forall r :: r in requested.value ==>
              exists g :: g in granted.value &&
                if cfg.matchOriginOnly && cfg.originOf(r).Some? && cfg.originOf(g).Some?
                then cfg.originOf(r) == cfg.originOf(g) else r == g)
    ensures var a := ResolveTokenResource(cfg, requested, granted);
      a.Ok? ==>
        a.value == if cfg.configuredResource.Some? then Some([cfg.configuredResource.value])
                   else if requested.Some? then requested else granted
  {
    forall r, g ensures ResourceMatches(cfg, r, g) <==>
      if cfg.matchOriginOnly && cfg.originOf(r).Some? && cfg.originOf(g).Some?
      then cfg.originOf(r) == cfg.originOf(g) else r == g {}
    assert requested in [requested, granted] && granted in [requested, granted];
  }
}
