/** What the paged loops of `KvNamespace` do to the records, against the state machine of
    `GrantLifecycle` (repos/workers-oauth-provider/src/oauth-provider.ts). */
module KvRefinement {
  import opened Wrappers
  import opened OAuthTypes
  import opened GrantLifecycle
  import opened Keys
  import opened KvNamespace
  import LifecycleInvariants

  /** How a token's hash is written in its key: hexadecimal digits. */
  type Hex = Digest -> string

  ghost predicate ColonFree(hex: Hex) {
    forall d :: NoColon(hex(d))
  }

  ghost predicate GrantStored(data: Data, s: Store, r: GrantRef)
    requires r in s.grants
  {
    var g := s.grants[r].record;
    NoColon(r.grantId) && g.id == r.grantId && g.userId == r.userId &&
    GrantKey(r.userId, r.grantId) in data && data[GrantKey(r.userId, r.grantId)] == GrantEntry(g)
  }

  ghost predicate TokenStored(hex: Hex, data: Data, s: Store, r: TokenRef)
    requires r in s.tokens
  {
    var t := s.tokens[r].record;
    var key := TokenKey(r.userId, r.grantId, hex(r.id));
    NoColon(r.grantId) && t.id == r.id && t.grantId == r.grantId && t.userId == r.userId &&
    key in data && data[key] == TokenEntry(t)
  }

  ghost predicate EntryKnown(hex: Hex, s: Store, key: string, e: Entry) {
    match e
    case GrantEntry(g) => GrantRef(g.userId, g.id) in s.grants && key == GrantKey(g.userId, g.id)
    case TokenEntry(t) => TokenRef(t.userId, t.grantId, t.id) in s.tokens &&
                          key == TokenKey(t.userId, t.grantId, hex(t.id))
    case _ => true
  }

  /** The textual records are those of the store, each under its own key. */
  ghost predicate Represents(hex: Hex, data: Data, s: Store) {
    && (forall r :: r in s.grants ==> GrantStored(data, s, r))
    && (forall r :: r in s.tokens ==> TokenStored(hex, data, s, r))
    && (forall k :: k in data ==> EntryKnown(hex, s, k, data[k]))
  }

  ghost predicate RevokedWith(refs: set<GrantRef>, key: string) {
    exists r :: r in refs && RevokedKey(r.userId, r.grantId, key)
  }

  ghost function WithoutRevoked(data: Data, refs: set<GrantRef>): Data {
    map k | k in data && !RevokedWith(refs, k) :: data[k]
  }

  lemma RevokedGrantKey(refs: set<GrantRef>, u: string, g: string)
    requires NoColon(g) && forall r :: r in refs ==> NoColon(r.grantId)
    ensures RevokedWith(refs, GrantKey(u, g)) <==> GrantRef(u, g) in refs
  {
    forall r | r in refs && RevokedKey(r.userId, r.grantId, GrantKey(u, g)) ensures r == GrantRef(u, g) {
      KindsDiffer(r.userId, r.grantId, "", GrantKey(u, g));
      KindsDiffer(u, g, "", GrantKey(u, g));
      GrantKeyInjective(u, g, r.userId, r.grantId);
    }
    if GrantRef(u, g) in refs { assert RevokedKey(u, g, GrantKey(u, g)); }
  }

  lemma RevokedTokenKey(refs: set<GrantRef>, u: string, g: string, id: string)
    requires NoColon(g) && NoColon(id) && forall r :: r in refs ==> NoColon(r.grantId)
    ensures RevokedWith(refs, TokenKey(u, g, id)) <==>
      GrantRef(u, g) in refs || exists r :: r in refs && Nested(r.userId, r.grantId, u)
  {
    forall r | r in refs
      ensures RevokedKey(r.userId, r.grantId, TokenKey(u, g, id)) <==>
        r == GrantRef(u, g) || Nested(r.userId, r.grantId, u)
    {
      PrefixMeansOwner(r.userId, r.grantId, u, g, id);
      KindsDiffer(r.userId, r.grantId, "", TokenKey(u, g, id));
      KindsDiffer(u, g, "", TokenKey(u, g, id));
    }
    if GrantRef(u, g) in refs { assert RevokedKey(u, g, TokenKey(u, g, id)); }
  }

  /** Sweeping the keys of the grants `swept` revokes `refs` and nothing else exactly when no other
      stored grant is swept, and no other stored token belongs to a swept grant or to a user id that
      is nested under one. */
  lemma SweepIsExact(hex: Hex, data: Data, s: Store, refs: set<GrantRef>, swept: set<GrantRef>)
    requires ColonFree(hex) && Represents(hex, data, s)
    requires refs <= swept && forall r :: r in swept ==> NoColon(r.grantId)
    ensures Represents(hex, WithoutRevoked(data, swept), RevokeAll(s, refs)) <==> SweepsOnly(s, refs, swept)
  {
    hide TokenKey, GrantKey, Nested, NoColon, RevokedWith;
    var data', s' := WithoutRevoked(data, swept), RevokeAll(s, refs);
    forall r | r in s'.grants ensures GrantStored(data', s', r) <==> r !in swept {
      assert GrantStored(data, s, r);
      RevokedGrantKey(swept, r.userId, r.grantId);
    }
    forall t | t in s'.tokens
      ensures TokenStored(hex, data', s', t) <==>
        forall r :: r in swept ==> OwnerOf(t) != r && !Nested(r.userId, r.grantId, t.userId)
    {
      assert TokenStored(hex, data, s, t);
      RevokedTokenKey(swept, t.userId, t.grantId, hex(t.id));
    }
    forall k | k in data' ensures EntryKnown(hex, s', k, data'[k]) {
      assert EntryKnown(hex, s, k, data[k]);
      match data[k] {
        case GrantEntry(g) =>
          assert GrantStored(data, s, GrantRef(g.userId, g.id));
          RevokedGrantKey(swept, g.userId, g.id);
        case TokenEntry(t) =>
          assert TokenStored(hex, data, s, TokenRef(t.userId, t.grantId, t.id));
          RevokedTokenKey(swept, t.userId, t.grantId, hex(t.id));
        case _ =>
      }
    }
  }

  function OwnerOf(t: TokenRef): GrantRef { GrantRef(t.userId, t.grantId) }

  ghost predicate SweepsOnly(s: Store, refs: set<GrantRef>, swept: set<GrantRef>) {
    && (forall r :: r in swept && r in s.grants ==> r in refs)
    && (forall r, t :: r in swept && t in s.tokens && OwnerOf(t) !in refs ==>
          OwnerOf(t) != r && !Nested(r.userId, r.grantId, t.userId))
  }

  /** Deleting by key prefix implements revocation exactly: it removes the given grants and their
      tokens and nothing else if and only if no token's user id is nested under one of them. */
  lemma RevocationIsExact(hex: Hex, data: Data, s: Store, refs: set<GrantRef>)
    requires ColonFree(hex) && Represents(hex, data, s) && forall r :: r in refs ==> NoColon(r.grantId)
    ensures Represents(hex, WithoutRevoked(data, refs), RevokeAll(s, refs)) <==>
      forall r, t :: r in refs && t in s.tokens && GrantRef(t.userId, t.grantId) !in refs ==>
        !Nested(r.userId, r.grantId, t.userId)
  {
    hide Nested, NoColon, Represents, WithoutRevoked;
    SweepIsExact(hex, data, s, refs, refs);
  }

  /** One paged `revokeGrant` is one `Revoke` of the state machine, on the same condition. */
  lemma RevokeGrantRefines(hex: Hex, data: Data, s: Store, userId: string, grantId: string)
    requires ColonFree(hex) && Represents(hex, data, s) && NoColon(grantId)
    ensures Represents(hex, RevokedData(data, userId, grantId), Revoke(s, GrantRef(userId, grantId))) <==>
      forall t :: t in s.tokens ==> !Nested(userId, grantId, t.userId)
  {
    hide TokenKey, GrantKey, NoColon, Represents;
    var refs := {GrantRef(userId, grantId)};
    RevocationIsExact(hex, data, s, refs);
    forall k ensures RevokedWith(refs, k) <==> RevokedKey(userId, grantId, k) {
      if RevokedKey(userId, grantId, k) { assert GrantRef(userId, grantId) in refs; }
    }
    assert WithoutRevoked(data, refs) == RevokedData(data, userId, grantId);
    var a, b := RevokeAll(s, refs), Revoke(s, GrantRef(userId, grantId));
    assert a.grants == b.grants && a.tokens == b.tokens;
    forall t | t in s.tokens && GrantRef(t.userId, t.grantId) in refs ensures !Nested(userId, grantId, t.userId) {
      assert |userId + ":" + grantId| > |userId|;
    }
  }

  // ---------------------------------------------------------------- authorization

  /** The criterion and the records of an authorization request. */
  function CriterionOf(r: AuthorizeRequest): Criterion {
    Criterion(r.userId, r.clientId, r.isMetadataClient, r.redirectUri)
  }

  function StoredGrant(s: Store, r: AuthorizeRequest): Grant {
    var data, b := Ciphertext(s.nextKey, r.props), Bearer(r.userId, r.grantId, r.secret);
    if r.isImplicit then NewGrant(r, data)
    else NewGrant(r, data).(authCodeId := Some(Digest(b)), authCodeWrappedKey := Some(WrappedKey(b, s.nextKey)),
                            codeChallenge := r.codeChallenge, codeChallengeMethod := r.codeChallengeMethod)
  }

  function StoredToken(cfg: Config, s: Store, r: AuthorizeRequest): Token {
    var m := Mint(r.clientId, r.scope, Ciphertext(s.nextKey, r.props), s.nextKey, cfg.accessTokenTTL, r.resource);
    TokenRecord(s.now, Bearer(r.userId, r.grantId, r.secret), m, r.scope)
  }

  function NewRecords(hex: Hex, cfg: Config, s: Store, r: AuthorizeRequest): map<string, Entry> {
    var grant := map[GrantKey(r.userId, r.grantId) := GrantEntry(StoredGrant(s, r))];
    var id := Digest(Bearer(r.userId, r.grantId, r.secret));
    if r.isImplicit then grant + map[TokenKey(r.userId, r.grantId, hex(id)) := TokenEntry(StoredToken(cfg, s, r))]
    else grant
  }

  /** The store after the new records are written and before anything is revoked. */
  function Written(cfg: Config, s: Store, r: AuthorizeRequest): Store {
    var b, ref := Bearer(r.userId, r.grantId, r.secret), GrantRef(r.userId, r.grantId);
    var s1 := Use(s, {r.grantId, r.secret}).(nextKey := s.nextKey + 1);
    if r.isImplicit
    then PutToken(PutGrant(s1, ref, StoredGrant(s, r), None), TokenRefOf(b), StoredToken(cfg, s, r), cfg.accessTokenTTL)
    else PutGrant(s1, ref, StoredGrant(s, r), Some(s.now + CODE_TTL_SECONDS))
  }

  /** No stored user id continues `userId:`. Colon-free user ids always satisfy this. */
  ghost predicate NoNestedUser(s: Store, userId: string) {
    && (forall r :: r in s.grants ==> !(userId + ":" <= r.userId))
    && (forall t :: t in s.tokens ==> !(userId + ":" <= t.userId))
  }

  lemma NotUnderItself(u: string, g: string, other: string)
    requires !(u + ":" <= other)
    ensures !Nested(u, g, other)
  {
  }

  lemma PutGrantRepresents(hex: Hex, data: Data, s: Store, ref: GrantRef, g: Grant, expiration: Option<int>)
    requires Represents(hex, data, s) && ref !in s.grants
    requires NoColon(ref.grantId) && g.id == ref.grantId && g.userId == ref.userId
    ensures Represents(hex, data[GrantKey(ref.userId, ref.grantId) := GrantEntry(g)], PutGrant(s, ref, g, expiration))
  {
    hide TokenKey, GrantKey, NoColon;
    var key := GrantKey(ref.userId, ref.grantId);
    var data', s' := data[key := GrantEntry(g)], PutGrant(s, ref, g, expiration);
    forall r | r in s'.grants ensures GrantStored(data', s', r) {
      if r != ref {
        assert GrantStored(data, s, r);
        if GrantKey(r.userId, r.grantId) == key { GrantKeyInjective(r.userId, r.grantId, ref.userId, ref.grantId); }
      }
    }
    forall t | t in s'.tokens ensures TokenStored(hex, data', s', t) {
      assert TokenStored(hex, data, s, t);
      KeysOfKinds(ref.userId, ref.grantId, t.userId, t.grantId, hex(t.id));
    }
    forall k | k in data' ensures EntryKnown(hex, s', k, data'[k]) {
      if k != key { assert EntryKnown(hex, s, k, data[k]); }
    }
  }

  lemma PutTokenRepresents(hex: Hex, data: Data, s: Store, ref: TokenRef, t: Token, ttl: int)
    requires ColonFree(hex) && Represents(hex, data, s) && forall t :: t in s.tokens ==> t.grantId != ref.grantId
    requires NoColon(ref.grantId) && t.id == ref.id && t.grantId == ref.grantId && t.userId == ref.userId
    ensures Represents(hex, data[TokenKey(ref.userId, ref.grantId, hex(ref.id)) := TokenEntry(t)],
                       PutToken(s, ref, t, ttl))
  {
    hide TokenKey, GrantKey, NoColon;
    var key := TokenKey(ref.userId, ref.grantId, hex(ref.id));
    var data', s' := data[key := TokenEntry(t)], PutToken(s, ref, t, ttl);
    forall r | r in s'.grants ensures GrantStored(data', s', r) {
      assert GrantStored(data, s, r);
      KeysOfKinds(r.userId, r.grantId, ref.userId, ref.grantId, hex(ref.id));
    }
    forall r | r in s'.tokens ensures TokenStored(hex, data', s', r) {
      if r != ref {
        assert TokenStored(hex, data, s, r);
        if TokenKey(r.userId, r.grantId, hex(r.id)) == key {
          TokenKeyInjective(r.userId, r.grantId, hex(r.id), ref.userId, ref.grantId, hex(ref.id));
        }
      }
    }
    forall k | k in data' ensures EntryKnown(hex, s', k, data'[k]) {
      if k != key { assert EntryKnown(hex, s, k, data[k]); }
    }
  }

  lemma WritingRepresents(hex: Hex, cfg: Config, data: Data, s: Store, r: AuthorizeRequest)
    requires ColonFree(hex) && Represents(hex, data, s) && NoColon(r.grantId)
    requires GrantRef(r.userId, r.grantId) !in s.grants && forall t :: t in s.tokens ==> t.grantId != r.grantId
    ensures Represents(hex, data + NewRecords(hex, cfg, s, r), Written(cfg, s, r))
  {
    hide TokenKey, GrantKey, NoColon, ColonFree, GrantStored, TokenStored, EntryKnown, Represents, StoredGrant,
         StoredToken, NewRecords;
    StoredIds(cfg, s, r);
    var ref := TokenRefOf(Bearer(r.userId, r.grantId, r.secret));
    var s1 := Use(s, {r.grantId, r.secret}).(nextKey := s.nextKey + 1);
    SameRecords(hex, data, s, s1);
    AddedRecords(hex, cfg, data, s, r);
    var expiration := if r.isImplicit then None else Some(s.now + CODE_TTL_SECONDS);
    PutGrantRepresents(hex, data, s1, GrantRef(r.userId, r.grantId), StoredGrant(s, r), expiration);
    if r.isImplicit {
      PutTokenRepresents(hex, data[GrantKey(r.userId, r.grantId) := GrantEntry(StoredGrant(s, r))],
                         PutGrant(s1, GrantRef(r.userId, r.grantId), StoredGrant(s, r), None),
                         ref, StoredToken(cfg, s, r), cfg.accessTokenTTL);
    }
  }

  lemma AddedRecords(hex: Hex, cfg: Config, data: Data, s: Store, r: AuthorizeRequest)
    ensures var data1 := data[GrantKey(r.userId, r.grantId) := GrantEntry(StoredGrant(s, r))];
      var id := hex(Digest(Bearer(r.userId, r.grantId, r.secret)));
      data + NewRecords(hex, cfg, s, r) ==
        if r.isImplicit then data1[TokenKey(r.userId, r.grantId, id) := TokenEntry(StoredToken(cfg, s, r))] else data1
  {
  }

  lemma StoredIds(cfg: Config, s: Store, r: AuthorizeRequest)
    ensures StoredGrant(s, r).id == r.grantId && StoredGrant(s, r).userId == r.userId
    ensures var t := StoredToken(cfg, s, r);
      t.id == Digest(Bearer(r.userId, r.grantId, r.secret)) && t.grantId == r.grantId && t.userId == r.userId
  {
  }

  lemma SameRecords(hex: Hex, data: Data, s: Store, s': Store)
    requires Represents(hex, data, s) && s'.grants == s.grants && s'.tokens == s.tokens
    ensures Represents(hex, data, s')
  {
  }

  lemma KeysOfKinds(u: string, g: string, u': string, g': string, id: string)
    ensures GrantKey(u, g) != TokenKey(u', g', id)
  {
    KindsDiffer(u, g, "", GrantKey(u, g));
    KindsDiffer(u', g', "", TokenKey(u', g', id));
  }

  lemma TokenKeyInjective(u: string, g: string, id: string, u': string, g': string, id': string)
    requires NoColon(g) && NoColon(id) && NoColon(g') && NoColon(id') && TokenKey(u, g, id) == TokenKey(u', g', id')
    ensures u == u' && g == g' && id == id'
  {
    assert TokenKey(u, g, id) == ("token:" + u + ":" + g) + ":" + id &&
           TokenKey(u', g', id') == ("token:" + u' + ":" + g') + ":" + id';
    LastColon("token:" + u + ":" + g, id, "token:" + u' + ":" + g', id');
    LastColon("token:" + u, g, "token:" + u', g');
    assert ("token:" + u)[6..] == u && ("token:" + u')[6..] == u';
  }

  /** The grants that the listing under the user's prefix selects: those of the user, and those of user
      ids that continue it across a colon, taken for grants of the user. */
  ghost function Collected(s: Store, r: AuthorizeRequest): set<GrantRef> {
    set ref | ref in s.grants && r.revokeExisting && (ref.userId == r.userId || r.userId + ":" <= ref.userId) &&
              Meets(CriterionOf(r), s.grants[ref].record) :: GrantRef(r.userId, ref.grantId)
  }

  lemma ListingFindsCollected(hex: Hex, data: Data, s: Store, r: AuthorizeRequest, id: string)
    requires Represents(hex, data, s) && r.revokeExisting
    ensures ToRevoke(data, CriterionOf(r), id) <==> GrantRef(r.userId, id) in Collected(s, r)
  {
    hide TokenKey, GrantKey, GrantPrefix;
    if GrantRef(r.userId, id) in Collected(s, r) {
      var ref :| ref in s.grants && (ref.userId == r.userId || r.userId + ":" <= ref.userId) && ref.grantId == id &&
                 Meets(CriterionOf(r), s.grants[ref].record);
      assert GrantStored(data, s, ref);
      GrantPrefixMeansUser(r.userId, ref.userId, id);
      assert ToRevokeAt(data, CriterionOf(r), GrantKey(ref.userId, id), id);
    }
    if ToRevoke(data, CriterionOf(r), id) {
      var key :| ToRevokeAt(data, CriterionOf(r), key, id);
      var g := data[key].grant;
      assert EntryKnown(hex, s, key, data[key]) && GrantStored(data, s, GrantRef(g.userId, g.id));
      GrantPrefixMeansUser(r.userId, g.userId, g.id);
      assert GrantRef(r.userId, GrantRef(g.userId, g.id).grantId) in Collected(s, r);
    }
  }

  /** The paged loops of an authorization implement the state machine's step: the stored records
      afterwards are those of `Authorize`, with every replaced grant and its tokens gone and every
      other record untouched. This holds exactly when what the listing collects does not reach, through
      user ids with colons, a stored grant or token that the authorization does not replace. */
  lemma AuthorizationRefines(hex: Hex, cfg: Config, data: Data, s: Store, r: AuthorizeRequest)
    requires ColonFree(hex) && Represents(hex, data, s) && LifecycleInvariants.Inv(s)
    requires r.accepted && Fresh(s, AuthorizeEvent(r)) && NoColon(r.grantId)
    ensures Represents(hex, AuthorizedData(data, CriterionOf(r), r.revokeExisting, NewRecords(hex, cfg, s, r)),
                       Authorize(cfg, s, r).store) <==>
            SweepsOnly(s, Replaced(s, r), Collected(s, r))
  {
    hide TokenKey, GrantKey, GrantPrefix, Represents, ToRevoke, NoColon, Collected, SweepsOnly, Nested;
    var refs, swept, stored := Replaced(s, r), Collected(s, r), data + NewRecords(hex, cfg, s, r);
    GrantsOfFreshId(s, r);
    WritingRepresents(hex, cfg, data, s, r);
    CollectedGrants(hex, data, s, r);
    forall k ensures RevokedWith(swept, k) <==> r.revokeExisting && Swept(data, CriterionOf(r), k) {
      SweptMeansCollected(hex, data, s, r, k);
    }
    assert AuthorizedData(data, CriterionOf(r), r.revokeExisting, NewRecords(hex, cfg, s, r)) ==
      WithoutRevoked(stored, swept);
    SweepIsExact(hex, stored, Written(cfg, s, r), refs, swept);
    NewRecordsStay(cfg, s, r);
    assert Authorize(cfg, s, r).store == RevokeAll(Written(cfg, s, r), refs);
  }

  /** User ids that do not continue the authorizing user's across a colon are enough for that. */
  lemma ColonFreeUsersRefine(s: Store, r: AuthorizeRequest)
    requires NoNestedUser(s, r.userId)
    ensures SweepsOnly(s, Replaced(s, r), Collected(s, r))
  {
    hide Nested;
    forall ref | ref in Collected(s, r) ensures ref in Replaced(s, r) {
      var stored :| stored in s.grants && (stored.userId == r.userId || r.userId + ":" <= stored.userId) &&
                    Meets(CriterionOf(r), s.grants[stored].record) && ref == GrantRef(r.userId, stored.grantId);
    }
    forall ref, t | ref in Collected(s, r) && t in s.tokens ensures !Nested(ref.userId, ref.grantId, t.userId) {
      NotUnderItself(r.userId, ref.grantId, t.userId);
    }
  }

  lemma CollectedGrants(hex: Hex, data: Data, s: Store, r: AuthorizeRequest)
    requires Represents(hex, data, s)
    ensures Replaced(s, r) <= Collected(s, r)
    ensures forall ref :: ref in Collected(s, r) ==> NoColon(ref.grantId)
  {
    hide NoColon;
    forall ref | ref in Replaced(s, r) ensures ref in Collected(s, r) {
      assert ref == GrantRef(r.userId, ref.grantId);
    }
    forall ref | ref in Collected(s, r) ensures NoColon(ref.grantId) {
      var stored :| stored in s.grants && ref == GrantRef(r.userId, stored.grantId);
      assert GrantStored(data, s, stored);
    }
  }

  /** The records just written are neither collected nor nested under what is. */
  lemma NewRecordsStay(cfg: Config, s: Store, r: AuthorizeRequest)
    requires LifecycleInvariants.Inv(s) && r.grantId !in s.used
    ensures SweepsOnly(Written(cfg, s, r), Replaced(s, r), Collected(s, r)) <==>
      SweepsOnly(s, Replaced(s, r), Collected(s, r))
  {
    hide StoredGrant, StoredToken, Meets, Nested, SweepsOnly, LifecycleInvariants.Inv;
    var s', swept := Written(cfg, s, r), Collected(s, r);
    var ref := GrantRef(r.userId, r.grantId);
    GrantsOfFreshId(s, r);
    assert ref !in swept;
    forall c | c in swept ensures !Nested(c.userId, c.grantId, r.userId) {
      NotUnderItself(r.userId, c.grantId, r.userId);
    }
    SweepsMore(s, s', Replaced(s, r), swept, ref);
  }

  lemma SweepsMore(s: Store, s': Store, refs: set<GrantRef>, swept: set<GrantRef>, ref: GrantRef)
    requires ref !in swept && forall c :: c in swept ==> !Nested(c.userId, c.grantId, ref.userId)
    requires forall g :: g in s'.grants <==> g in s.grants || g == ref
    requires forall t :: t in s.tokens ==> t in s'.tokens
    requires forall t :: t in s'.tokens && t !in s.tokens ==> OwnerOf(t) == ref
    ensures SweepsOnly(s', refs, swept) <==> SweepsOnly(s, refs, swept)
  {
    hide Nested;
  }

  lemma GrantsOfFreshId(s: Store, r: AuthorizeRequest)
    requires LifecycleInvariants.Inv(s) && r.grantId !in s.used
    ensures GrantRef(r.userId, r.grantId) !in s.grants && forall t :: t in s.tokens ==> t.grantId != r.grantId
    ensures forall g :: g in s.grants ==> g.grantId != r.grantId
  {
  }

  lemma SweptMeansCollected(hex: Hex, data: Data, s: Store, r: AuthorizeRequest, k: string)
    requires Represents(hex, data, s)
    ensures RevokedWith(Collected(s, r), k) <==> r.revokeExisting && Swept(data, CriterionOf(r), k)
  {
    hide ToRevoke, RevokedKey, Represents, Meets;
    if r.revokeExisting && Swept(data, CriterionOf(r), k) {
      var id :| ToRevoke(data, CriterionOf(r), id) && RevokedKey(r.userId, id, k);
      ListingFindsCollected(hex, data, s, r, id);
      assert RevokedKey(GrantRef(r.userId, id).userId, GrantRef(r.userId, id).grantId, k);
    }
    if RevokedWith(Collected(s, r), k) {
      var ref :| ref in Collected(s, r) && RevokedKey(ref.userId, ref.grantId, k);
      ListingFindsCollected(hex, data, s, r, ref.grantId);
      assert ref == GrantRef(r.userId, ref.grantId);
    }
  }

  /** After an authorization that revokes existing grants, the new grant is the only one of its user
      and client; for a client identified by a metadata document, the only one with its redirect URI. */
  lemma OnlyGrantLeft(cfg: Config, s: Store, r: AuthorizeRequest)
    requires r.accepted && r.revokeExisting && GrantRef(r.userId, r.grantId) !in s.grants
    ensures var left := Authorize(cfg, s, r).store.grants;
      forall ref ::
        (ref in left && ref.userId == r.userId && left[ref].record.clientId == r.clientId &&
         (r.isMetadataClient ==> left[ref].record.redirectUri == Some(r.redirectUri))) <==>
        ref == GrantRef(r.userId, r.grantId)
  {
  }

  /** And nothing else changes: a grant of another user, client or, for such clients, redirect URI
      stays as it was, with all of its tokens. */
  lemma OtherGrantsStay(cfg: Config, s: Store, r: AuthorizeRequest, ref: GrantRef)
    requires LifecycleInvariants.Inv(s) && Fresh(s, AuthorizeEvent(r)) && ref in s.grants
    requires var g := s.grants[ref].record;
      || ref.userId != r.userId || g.clientId != r.clientId
      || (r.isMetadataClient && g.redirectUri != Some(r.redirectUri))
    ensures var s' := Authorize(cfg, s, r).store;
      && ref in s'.grants && s'.grants[ref] == s.grants[ref]
      && forall t :: t in s.tokens && GrantRef(t.userId, t.grantId) == ref ==>
        t in s'.tokens && s'.tokens[t] == s.tokens[t]
  {
    GrantsOfFreshId(s, r);
  }
}
