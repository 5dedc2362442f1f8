/** Whole runs on the textual keys of the namespace (repos/workers-oauth-provider/src/oauth-provider.ts).

    A handler here reads the records it needs from their keys, decides, and writes, deletes or sweeps
    keys. It is proved to simulate the state machine of `GrantLifecycle` step by step. */
module KvRuns {
  import opened Wrappers
  import opened OAuthTypes
  import opened EmaClaims
  import opened GrantLifecycle
  import opened Keys
  import opened KvNamespace
  import opened KvRefinement
  import opened LifecycleInvariants

  /** Different hashes are written differently, and without colons. */
  ghost predicate Faithful(hex: Hex) {
    ColonFree(hex) && forall a, b :: hex(a) == hex(b) ==> a == b
  }

  /** All of a store but its grants and tokens: the clock, the markers and what randomness is used up. */
  function Bare(s: Store): Store { s.(grants := map[], tokens := map[]) }

  // ---------------------------------------------------------------- what a handler reads

  /** The records of a presented token, read from their two keys. */
  function Read(hex: Hex, data: Data, bare: Store, b: Bearer): Store {
    var grantKey, tokenKey := GrantKey(b.userId, b.grantId), TokenKey(b.userId, b.grantId, hex(Digest(b)));
    bare.(grants := if grantKey in data && data[grantKey].GrantEntry?
                    then map[RefOf(b) := Stored(data[grantKey].grant, None)] else map[],
          tokens := if tokenKey in data && data[tokenKey].TokenEntry?
                    then map[TokenRefOf(b) := Stored(data[tokenKey].token, None)] else map[])
  }

  function ReadPresented(hex: Hex, data: Data, bare: Store, presented: Presented): Store {
    if presented.Parsed? then Read(hex, data, bare, presented.token) else bare
  }

  /** The records that belong to a token are the same in both stores, and so is all but records. */
  ghost predicate Alike(s: Store, l: Store, presented: Presented) {
    && Bare(s) == Bare(l)
    && (presented.Parsed? ==>
          var ref, t := RefOf(presented.token), TokenRefOf(presented.token);
          && (ref in s.grants <==> ref in l.grants)
          && (ref in s.grants ==> s.grants[ref].record == l.grants[ref].record)
          && (t in s.tokens <==> t in l.tokens)
          && (t in s.tokens ==> s.tokens[t].record == l.tokens[t].record))
  }

  /** Ids in a presented token have no colon; they come from splitting at colons. */
  predicate ColonFreeToken(presented: Presented) {
    presented.Parsed? ==> NoColon(presented.token.grantId)
  }

  lemma ReadIsAlike(hex: Hex, data: Data, s: Store, presented: Presented)
    requires Faithful(hex) && Represents(hex, data, s) && ColonFreeToken(presented)
    ensures Alike(s, ReadPresented(hex, data, Bare(s), presented), presented)
  {
    hide GrantKey, TokenKey, NoColon;
    if presented.Parsed? {
      var b := presented.token;
      ReadGrant(hex, data, s, RefOf(b));
      ReadToken(hex, data, s, TokenRefOf(b));
    }
  }

  lemma ReadGrant(hex: Hex, data: Data, s: Store, ref: GrantRef)
    requires Represents(hex, data, s) && NoColon(ref.grantId)
    ensures var key := GrantKey(ref.userId, ref.grantId);
      && (ref in s.grants <==> key in data && data[key].GrantEntry?)
      && (ref in s.grants ==> data[key].grant == s.grants[ref].record)
  {
    hide GrantKey, TokenKey, NoColon;
    var key := GrantKey(ref.userId, ref.grantId);
    if ref in s.grants { assert GrantStored(data, s, ref); }
    if key in data && data[key].GrantEntry? {
      var g := data[key].grant;
      assert EntryKnown(hex, s, key, data[key]);
      assert GrantStored(data, s, GrantRef(g.userId, g.id));
      GrantKeyInjective(ref.userId, ref.grantId, g.userId, g.id);
    }
  }

  lemma ReadToken(hex: Hex, data: Data, s: Store, ref: TokenRef)
    requires Faithful(hex) && Represents(hex, data, s) && NoColon(ref.grantId)
    ensures var key := TokenKey(ref.userId, ref.grantId, hex(ref.id));
      && (ref in s.tokens <==> key in data && data[key].TokenEntry?)
      && (ref in s.tokens ==> data[key].token == s.tokens[ref].record)
  {
    hide GrantKey, TokenKey, NoColon;
    var key := TokenKey(ref.userId, ref.grantId, hex(ref.id));
    if ref in s.tokens { assert TokenStored(hex, data, s, ref); }
    if key in data && data[key].TokenEntry? {
      var t := data[key].token;
      assert EntryKnown(hex, s, key, data[key]);
      assert TokenStored(hex, data, s, TokenRef(t.userId, t.grantId, t.id));
      TokenKeyInjective(ref.userId, ref.grantId, hex(ref.id), t.userId, t.grantId, hex(t.id));
    }
  }

  // ---------------------------------------------------------------- what a handler writes

  function SaveGrant(data: Data, s: Store, ref: GrantRef): Data {
    if ref in s.grants then data[GrantKey(ref.userId, ref.grantId) := GrantEntry(s.grants[ref].record)] else data
  }

  function SaveToken(hex: Hex, data: Data, s: Store, response: Response): Data {
    if !response.Issued? || TokenRefOf(response.accessToken) !in s.tokens then data
    else
      var b := response.accessToken;
      data[TokenKey(b.userId, b.grantId, hex(Digest(b))) := TokenEntry(s.tokens[TokenRefOf(b)].record)]
  }

  /** The grant as the handler leaves it, and the access token if it issued one. */
  function Save(hex: Hex, data: Data, o: Outcome, ref: GrantRef): Data {
    SaveToken(hex, SaveGrant(data, o.store, ref), o.store, o.response)
  }

  /** A handler does the same to the whole store and to what it read. */
  ghost predicate SameWrites(s: Store, o: Outcome, l: Store, p: Outcome, ref: GrantRef) {
    && o.response == p.response && Bare(o.store) == Bare(p.store)
    && ((o.store.grants == s.grants && p.store.grants == l.grants) ||
        (ref in p.store.grants && o.store.grants == s.grants[ref := p.store.grants[ref]]))
    && if o.response.Issued? then
         var t := TokenRefOf(o.response.accessToken);
         RefOf(o.response.accessToken) == ref && t in p.store.tokens &&
         o.store.tokens == s.tokens[t := p.store.tokens[t]]
       else o.store.tokens == s.tokens
  }

  lemma PutGrantOver(hex: Hex, data: Data, s: Store, s': Store, ref: GrantRef, x: Stored<Grant>)
    requires Represents(hex, data, s) && s'.grants == s.grants[ref := x] && s'.tokens == s.tokens
    requires NoColon(ref.grantId) && x.record.id == ref.grantId && x.record.userId == ref.userId
    ensures Represents(hex, data[GrantKey(ref.userId, ref.grantId) := GrantEntry(x.record)], s')
  {
    hide TokenKey, GrantKey, NoColon;
    var key := GrantKey(ref.userId, ref.grantId);
    var data' := data[key := GrantEntry(x.record)];
    forall r | r in s'.grants ensures GrantStored(data', s', r) {
      if r != ref {
        assert GrantStored(data, s, r);
        if GrantKey(r.userId, r.grantId) == key { GrantKeyInjective(r.userId, r.grantId, ref.userId, ref.grantId); }
      }
    }
    forall t | t in s'.tokens ensures TokenStored(hex, data', s', t) {
      assert TokenStored(hex, data, s, t);
      KeysOfKinds(ref.userId, ref.grantId, t.userId, t.grantId, hex(t.id));
    }
    forall k | k in data' ensures EntryKnown(hex, s', k, data'[k]) {
      if k != key { assert EntryKnown(hex, s, k, data[k]); }
    }
  }

  lemma PutTokenOver(hex: Hex, data: Data, s: Store, s': Store, ref: TokenRef, x: Stored<Token>)
    requires Faithful(hex) && Represents(hex, data, s) && s'.tokens == s.tokens[ref := x] && s'.grants == s.grants
    requires NoColon(ref.grantId)
    requires x.record.id == ref.id && x.record.grantId == ref.grantId && x.record.userId == ref.userId
    ensures Represents(hex, data[TokenKey(ref.userId, ref.grantId, hex(ref.id)) := TokenEntry(x.record)], s')
  {
    hide TokenKey, GrantKey, NoColon;
    var key := TokenKey(ref.userId, ref.grantId, hex(ref.id));
    var data' := data[key := TokenEntry(x.record)];
    forall r | r in s'.grants ensures GrantStored(data', s', r) {
      assert GrantStored(data, s, r);
      KeysOfKinds(r.userId, r.grantId, ref.userId, ref.grantId, hex(ref.id));
    }
    forall r | r in s'.tokens ensures TokenStored(hex, data', s', r) {
      if r != ref {
        assert TokenStored(hex, data, s, r);
        if TokenKey(r.userId, r.grantId, hex(r.id)) == key {
          TokenKeyInjective(r.userId, r.grantId, hex(r.id), ref.userId, ref.grantId, hex(ref.id));
        }
      }
    }
    forall k | k in data' ensures EntryKnown(hex, s', k, data'[k]) {
      if k != key { assert EntryKnown(hex, s, k, data[k]); }
    }
  }

  /** What was read and is written back unchanged leaves the data as they were. */
  lemma SaveUnchanged(hex: Hex, data: Data, s: Store, l: Store, ref: GrantRef)
    requires Represents(hex, data, s)
    requires (ref in l.grants ==> ref in s.grants && l.grants[ref].record == s.grants[ref].record)
    ensures SaveGrant(data, l, ref) == data
  {
    hide GrantKey, TokenKey, NoColon;
    if ref in l.grants { assert GrantStored(data, s, ref); }
  }

  /** Saving what a handler did to the records it read does it to all records. */
  lemma SavedRepresents(hex: Hex, data: Data, s: Store, o: Outcome, l: Store, p: Outcome, ref: GrantRef)
    requires Faithful(hex) && Represents(hex, data, s) && Inv(o.store) && SameWrites(s, o, l, p, ref)
    requires ref in l.grants ==> ref in s.grants && l.grants[ref].record == s.grants[ref].record
    requires NoColon(ref.grantId)
    ensures Represents(hex, Save(hex, data, p, ref), o.store)
  {
    hide Represents, GrantKey, TokenKey, NoColon, Inv, Faithful;
    var s1 := s.(grants := o.store.grants);
    if o.store.grants == s.grants && p.store.grants == l.grants {
      SaveUnchanged(hex, data, s, p.store, ref);
      SameRecords(hex, data, s, s1);
    } else {
      StoredIdsOk(o.store, ref);
      PutGrantOver(hex, data, s, s1, ref, p.store.grants[ref]);
    }
    var data1 := SaveGrant(data, p.store, ref);
    if o.response.Issued? {
      var t := TokenRefOf(o.response.accessToken);
      TokenIdsOk(o.store, t);
      PutTokenOver(hex, data1, s1, o.store, t, p.store.tokens[t]);
    } else {
      SameRecords(hex, data1, s1, o.store);
    }
  }

  lemma StoredIdsOk(s: Store, ref: GrantRef)
    requires Inv(s) && ref in s.grants
    ensures s.grants[ref].record.id == ref.grantId && s.grants[ref].record.userId == ref.userId
  {
    assert GrantOk(s, ref, s.grants[ref].record);
  }

  lemma TokenIdsOk(s: Store, ref: TokenRef)
    requires Inv(s) && ref in s.tokens
    ensures var t := s.tokens[ref].record; t.id == ref.id && t.grantId == ref.grantId && t.userId == ref.userId
  {
    assert TokenOk(s, ref, s.tokens[ref].record);
  }

  // ---------------------------------------------------------------- handlers look only at what they read

  lemma SaveIsLocal(s: Store, l: Store, ref: GrantRef, g: Grant)
    requires Bare(s) == Bare(l)
    ensures var s', l' := SaveGrantWithTTL(s, ref, g), SaveGrantWithTTL(l, ref, g);
      && Bare(s') == Bare(l') && ref in l'.grants && s'.grants == s.grants[ref := l'.grants[ref]]
      && s'.tokens == s.tokens
  {
  }

  lemma CreateIsLocal(s: Store, l: Store, b: Bearer, m: Mint, refreshToken: Option<Bearer>, fault: Fault)
    requires Bare(s) == Bare(l)
    ensures var o, p := CreateAccessToken(s, b, m, refreshToken, fault),
                        CreateAccessToken(l, b, m, refreshToken, fault);
      && o.response == p.response && Bare(o.store) == Bare(p.store)
      && o.store.grants == s.grants && p.store.grants == l.grants
      && if o.response.Issued? then
           var t := TokenRefOf(o.response.accessToken);
           o.response.accessToken == b && t in p.store.tokens && o.store.tokens == s.tokens[t := p.store.tokens[t]]
         else o.store.tokens == s.tokens
  {
  }

  lemma AdvanceIsLocal(s: Store, l: Store, random: set<string>, seconds: nat, nextKey: CryptoKey)
    requires Bare(s) == Bare(l)
    ensures var s', l' := Advance(Use(s, random), seconds).(nextKey := nextKey),
                          Advance(Use(l, random), seconds).(nextKey := nextKey);
      && Bare(s') == Bare(l') && s'.grants == s.grants && s'.tokens == s.tokens
      && l'.grants == l.grants && l'.tokens == l.tokens
  {
  }

  lemma TimeIsLocal(s: Store, l: Store, seconds: nat)
    requires Bare(s) == Bare(l)
    ensures var s', l' := Advance(s, seconds), Advance(l, seconds);
      && Bare(s') == Bare(l') && s'.grants == s.grants && s'.tokens == s.tokens
      && l'.grants == l.grants && l'.tokens == l.tokens
  {
  }

  lemma ConsumeIsLocal(cfg: Config, s: Store, l: Store, r: CodeRequest, g: Grant, k: Rekeyed)
    requires Bare(s) == Bare(l) && r.code.Parsed? && ResolveTokenResource(cfg, r.resource, g.resource).Ok?
    ensures SameWrites(s, ConsumeAndMint(cfg, s, r, g, k), l, ConsumeAndMint(cfg, l, r, g, k), RefOf(r.code.token))
  {
    hide ResolveTokenResource, ConsumeCode, SaveGrantWithTTL, CreateAccessToken, CallbackScope, Downscope, Bare,
         Advance;
    var b := r.code.token;
    var refreshTTL := CallbackRefreshTTL(r.callback, cfg.refreshTokenTTL);
    var refreshToken := if refreshTTL != Some(0) then Some(Bearer(b.userId, b.grantId, r.newRefreshSecret)) else None;
    var expiresAt := if refreshTTL.Some? then Some(s.now + refreshTTL.value) else None;
    BareParts(s, l);
    if !r.fault.GrantWriteFails? {
      var next := ConsumeCode(g, k.grantData, k.grantKey, refreshToken, expiresAt);
      SaveIsLocal(s, l, RefOf(b), next);
      var s2, l2 := SaveGrantWithTTL(s, RefOf(b), next), SaveGrantWithTTL(l, RefOf(b), next);
      TimeIsLocal(s2, l2, r.mintDelay);
      var scope := CallbackScope(r.callback, Downscope(r.scope, g.scope), g.scope);
      var m := Mint(g.clientId, scope, k.tokenData, k.tokenKey, CallbackTTL(r.callback, cfg.accessTokenTTL),
                    ResolveTokenResource(cfg, r.resource, g.resource).value);
      CreateIsLocal(Advance(s2, r.mintDelay), Advance(l2, r.mintDelay), Bearer(b.userId, b.grantId, r.newAccessSecret),
                    m, refreshToken, r.fault);
    }
  }

  lemma BareParts(s: Store, l: Store)
    requires Bare(s) == Bare(l)
    ensures s.now == l.now && s.nextKey == l.nextKey && s.markers == l.markers && s.used == l.used
  {
  }

  lemma CheckIsLocal(cfg: Config, s: Store, l: Store, r: CodeRequest)
    requires Alike(s, l, r.code)
    ensures CheckCode(cfg, s, r) == CheckCode(cfg, l, r)
  {
    hide ResolveTokenResource, MethodSupported, VerifierMatches;
  }

  lemma CodeIsLocal(cfg: Config, s: Store, l: Store, r: CodeRequest)
    requires Alike(s, l, r.code) && !CheckCode(cfg, s, r).Replay?
    ensures var o, p := ExchangeCode(cfg, s, r), ExchangeCode(cfg, l, r);
      if r.code.Parsed? then SameWrites(s, o, l, p, RefOf(r.code.token))
      else o.store == s && p.store == l && o.response == p.response && !o.response.Issued?
  {
    hide CheckCode, ResolveTokenResource, RekeyOnCode, ConsumeAndMint, Advance, Use, Bare;
    CheckIsLocal(cfg, s, l, r);
    BareParts(s, l);
    TimeIsLocal(s, l, r.callbackTime);
    if !r.code.Parsed? { NoTokenNoCode(cfg, s, l, r); }
    if CheckCode(cfg, s, r).Proceed? {
      var g := CheckCode(cfg, s, r).grant;
      CheckedCode(cfg, s, r, g);
      if !r.callback.Threw? {
        var k := RekeyOnCode(g.authCodeWrappedKey.value.key, g.encryptedProps, r.callback, s.nextKey);
        var random := {r.newRefreshSecret, r.newAccessSecret};
        AdvanceIsLocal(s, l, random, r.callbackTime, k.nextKey);
        ConsumeIsLocal(cfg, Advance(Use(s, random), r.callbackTime).(nextKey := k.nextKey),
                       Advance(Use(l, random), r.callbackTime).(nextKey := k.nextKey), r, g, k);
      }
    }
  }

  lemma NoTokenNoCode(cfg: Config, s: Store, l: Store, r: CodeRequest)
    requires !r.code.Parsed?
    ensures var o, p := ExchangeCode(cfg, s, r), ExchangeCode(cfg, l, r);
      o.store == s && p.store == l && o.response == p.response && !o.response.Issued?
    ensures CheckCode(cfg, s, r).Reject?
  {
  }

  lemma RotateIsLocal(cfg: Config, s: Store, l: Store, r: RefreshRequest, g: Grant, k: Rekeyed)
    requires Bare(s) == Bare(l) && r.refreshToken.Parsed? && ResolveTokenResource(cfg, r.resource, g.resource).Ok?
    ensures SameWrites(s, RotateAndMint(cfg, s, r, g, k), l, RotateAndMint(cfg, l, r, g, k),
                       RefOf(r.refreshToken.token))
  {
    hide ResolveTokenResource, Rotate, SaveGrantWithTTL, CallbackScope, Downscope, Bare;
    var b := r.refreshToken.token;
    var newRefresh := Bearer(b.userId, b.grantId, r.newRefreshSecret);
    BareParts(s, l);
    var next := Rotate(g, b, newRefresh, k.grantData, k.grantKey);
    SaveIsLocal(s, l, RefOf(b), next);
    var s2, l2 := SaveGrantWithTTL(s, RefOf(b), next), SaveGrantWithTTL(l, RefOf(b), next);
    BareParts(s2, l2);
    var t := TokenRefOf(Bearer(b.userId, b.grantId, r.newAccessSecret));
    forall x: Token, ttl: int ensures Bare(PutToken(s2, t, x, ttl)) == Bare(PutToken(l2, t, x, ttl)) {
      PutTokenIsLocal(s2, l2, t, x, ttl);
    }
  }

  lemma PutTokenIsLocal(s: Store, l: Store, ref: TokenRef, x: Token, ttl: int)
    requires Bare(s) == Bare(l)
    ensures Bare(PutToken(s, ref, x, ttl)) == Bare(PutToken(l, ref, x, ttl))
  {
  }

  lemma RefreshCheckIsLocal(cfg: Config, s: Store, l: Store, r: RefreshRequest)
    requires Alike(s, l, r.refreshToken)
    ensures CheckRefresh(cfg, s, r) == CheckRefresh(cfg, l, r)
  {
    hide ResolveTokenResource;
  }

  lemma RefreshIsLocal(cfg: Config, s: Store, l: Store, r: RefreshRequest)
    requires Alike(s, l, r.refreshToken)
    ensures var o, p := Refresh(cfg, s, r), Refresh(cfg, l, r);
      if r.refreshToken.Parsed? then SameWrites(s, o, l, p, RefOf(r.refreshToken.token))
      else o.store == s && p.store == l && o.response == p.response && !o.response.Issued?
  {
    hide CheckRefresh, ResolveTokenResource, RekeyOnRefresh, RotateAndMint, Advance, Use, Bare;
    RefreshCheckIsLocal(cfg, s, l, r);
    BareParts(s, l);
    TimeIsLocal(s, l, r.callbackTime);
    if !r.refreshToken.Parsed? { NoTokenNoRefresh(cfg, s, l, r); }
    if CheckRefresh(cfg, s, r).Ok? {
      var g := CheckRefresh(cfg, s, r).value;
      CheckedRefresh(cfg, s, r, g);
      var wrapped := WrappedKeyFor(g, r.refreshToken.token);
      if wrapped.Some? && !r.callback.Threw? {
        var k := RekeyOnRefresh(wrapped.value.key, g.encryptedProps, r.callback, s.nextKey);
        var random := {r.newRefreshSecret, r.newAccessSecret};
        AdvanceIsLocal(s, l, random, r.callbackTime, k.nextKey);
        RotateIsLocal(cfg, Advance(Use(s, random), r.callbackTime).(nextKey := k.nextKey),
                      Advance(Use(l, random), r.callbackTime).(nextKey := k.nextKey), r, g, k);
      }
    }
  }

  lemma NoTokenNoRefresh(cfg: Config, s: Store, l: Store, r: RefreshRequest)
    requires !r.refreshToken.Parsed?
    ensures var o, p := Refresh(cfg, s, r), Refresh(cfg, l, r);
      o.store == s && p.store == l && o.response == p.response && !o.response.Issued?
    ensures CheckRefresh(cfg, s, r).Err?
  {
  }

  lemma ExchangeIsLocal(cfg: Config, s: Store, l: Store, r: ExchangeRequest)
    requires Alike(s, l, r.subjectToken)
    ensures var o, p := Exchange(cfg, s, r), Exchange(cfg, l, r);
      if r.subjectToken.Parsed? then SameWrites(s, o, l, p, RefOf(r.subjectToken.token))
      else o.store == s && p.store == l && o.response == p.response && !o.response.Issued?
  {
    hide ExchangeAudience, ExchangeScopes, ExchangeTTL, RekeyOnExchange, CreateAccessToken, Advance, Use, Bare;
    BareParts(s, l);
    TimeIsLocal(s, l, r.callbackTime);
    if r.subjectToken.Parsed? && FindToken(s, r.subjectToken.token).Some? && RefOf(r.subjectToken.token) in s.grants {
      var b := r.subjectToken.token;
      var t := FindToken(s, b).value;
      var audience := ExchangeAudience(cfg, r, t, s.grants[RefOf(b)].record);
      if audience.Ok? && !r.callback.Threw? {
        var k := RekeyOnExchange(t.wrappedEncryptionKey.key, t.encryptedProps, r.callback, s.nextKey);
        AdvanceIsLocal(s, l, {r.newAccessSecret}, r.callbackTime, k.nextKey);
        var m := Mint(t.clientId, ExchangeScopes(r, t), k.tokenData, k.tokenKey,
                      ExchangeTTL(cfg, r, t.expiresAt - s.now), audience.value);
        CreateIsLocal(Advance(Use(s, {r.newAccessSecret}), r.callbackTime).(nextKey := k.nextKey),
                      Advance(Use(l, {r.newAccessSecret}), r.callbackTime).(nextKey := k.nextKey),
                      Bearer(b.userId, b.grantId, r.newAccessSecret), m, None, r.fault);
      }
    }
  }

  lemma IssueIsLocal(s: Store, l: Store, r: EmaRequest, checked: ValidIdJag, ttl: int)
    requires r.mapped.MappedTo? && Bare(s) == Bare(l)
    ensures SameWrites(s, IssueFromAssertion(s, r, checked, ttl), l, IssueFromAssertion(l, r, checked, ttl),
                       GrantRef(r.mapped.userId, r.grantId))
  {
    hide SaveGrantWithTTL, CreateAccessToken, Downscope, Bare, Advance, Use;
    BareParts(s, l);
    var ref := GrantRef(r.mapped.userId, r.grantId);
    var scope := if checked.scopes != [] then Downscope(Many(r.mapped.scope), checked.scopes) else r.mapped.scope;
    var data, key := Ciphertext(s.nextKey, r.mapped.props), s.nextKey;
    KeyIsLocal(s, l, {r.grantId, r.newAccessSecret}, key + 1);
    var s1, l1 := Use(s, {r.grantId, r.newAccessSecret}).(nextKey := key + 1),
                  Use(l, {r.grantId, r.newAccessSecret}).(nextKey := key + 1);
    var g := Grant(r.grantId, r.clientId, r.mapped.userId, scope, data, Some(s.now + ttl),
                   None, None, None, None, None, None, None, None, Some([checked.resource]), None);
    if !r.fault.GrantWriteFails? {
      SaveIsLocal(s1, l1, ref, g);
      var s2, l2 := SaveGrantWithTTL(s1, ref, g), SaveGrantWithTTL(l1, ref, g);
      TimeIsLocal(s2, l2, r.mintDelay);
      var m := Mint(r.clientId, scope, data, key, ttl, Some([checked.resource]));
      CreateIsLocal(Advance(s2, r.mintDelay), Advance(l2, r.mintDelay),
                    Bearer(r.mapped.userId, r.grantId, r.newAccessSecret), m, None, r.fault);
    }
  }

  lemma KeyIsLocal(s: Store, l: Store, random: set<string>, nextKey: CryptoKey)
    requires Bare(s) == Bare(l)
    ensures var s', l' := Use(s, random).(nextKey := nextKey), Use(l, random).(nextKey := nextKey);
      && Bare(s') == Bare(l') && s'.grants == s.grants && s'.tokens == s.tokens
      && l'.grants == l.grants && l'.tokens == l.tokens
  {
  }

  /** The assertion gets as far as a lifetime for its token. */
  predicate GetsToIssue(cfg: Config, s: Store, r: EmaRequest) {
    && r.verified && ValidateClaims(r.claims, r.clientId, r.policy, s.now).Ok? && JtiKey(r.claims) !in s.markers
    && MapperAccepts(r.mapped, r.policy)
    && ParseScopeParam(r.scope, ValidateClaims(r.claims, r.clientId, r.policy, s.now).value.scopes, r.policy).Ok?
    && IssueTTL(cfg, s, r).Ok?
  }

  function IssueTTL(cfg: Config, s: Store, r: EmaRequest): Result<int, ClaimError> {
    AccessTokenTTL(cfg.accessTokenTTL, r.claims.exp, if r.mapped.MappedTo? then r.mapped.accessTokenTTL else None,
                   s.now + r.markDelay + r.mapperDelay, KV_MIN_EXPIRATION_TTL_SECONDS)
  }

  lemma MintIsIssue(cfg: Config, s: Store, r: EmaRequest)
    requires GetsToIssue(cfg, s, r)
    ensures r.mapped.MappedTo?
    ensures MintFromAssertion(cfg, s, r) ==
      IssueFromAssertion(Marked(s, r, MarkerTTL(r.claims.exp, s.now + r.markDelay)), r,
                         ValidateClaims(r.claims, r.clientId, r.policy, s.now).value, IssueTTL(cfg, s, r).value)
  {
    hide ValidateClaims, ParseScopeParam, AccessTokenTTL, IssueFromAssertion;
  }

  lemma RefusedMintIsLocal(cfg: Config, s: Store, r: EmaRequest)
    requires !GetsToIssue(cfg, s, r)
    ensures var o, p := MintFromAssertion(cfg, s, r), MintFromAssertion(cfg, Bare(s), r);
      && o.response == p.response && Bare(o.store) == Bare(p.store) && !o.response.Issued?
      && o.store.grants == s.grants && o.store.tokens == s.tokens
      && p.store.grants == map[] && p.store.tokens == map[]
  {
    hide ValidateClaims, ParseScopeParam, AccessTokenTTL, IssueFromAssertion, MapperAccepts;
    if MapperAccepts(r.mapped, r.policy) { AcceptedIsMapped(r.mapped, r.policy); }
  }

  lemma EmaIsLocal(cfg: Config, s: Store, r: EmaRequest)
    ensures var o, p := MintFromAssertion(cfg, s, r), MintFromAssertion(cfg, Bare(s), r);
      if r.mapped.MappedTo? then SameWrites(s, o, Bare(s), p, GrantRef(r.mapped.userId, r.grantId))
      else
        && o.response == p.response && Bare(o.store) == Bare(p.store) && !o.response.Issued?
        && o.store.grants == s.grants && o.store.tokens == s.tokens
  {
    hide MintFromAssertion, ValidateClaims, ParseScopeParam, AccessTokenTTL, IssueFromAssertion, MapperAccepts;
    if GetsToIssue(cfg, s, r) {
      var ttl := MarkerTTL(r.claims.exp, s.now + r.markDelay);
      MintIsIssue(cfg, s, r);
      MintIsIssue(cfg, Bare(s), r);
      IssueIsLocal(Marked(s, r, ttl), Marked(Bare(s), r, ttl), r,
                   ValidateClaims(r.claims, r.clientId, r.policy, s.now).value, IssueTTL(cfg, s, r).value);
    } else {
      RefusedMintIsLocal(cfg, s, r);
    }
  }

  /** The store when a mint comes to its lifetime: the marker is written, the mapper has answered. */
  function Marked(s: Store, r: EmaRequest, ttl: int): Store {
    var s1 := Advance(s, r.markDelay);
    Advance(s1.(markers := s1.markers[JtiKey(r.claims) := s1.now + ttl], lifetimes := s1.lifetimes + [ttl]),
            r.mapperDelay)
  }

  lemma RefusedMapperWritesNothing(cfg: Config, s: Store, r: EmaRequest)
    requires !MapperAccepts(r.mapped, r.policy)
    ensures var o := MintFromAssertion(cfg, s, r);
      o.store.grants == s.grants && o.store.tokens == s.tokens && !o.response.Issued?
  {
    hide ValidateClaims, ParseScopeParam, AccessTokenTTL, IssueFromAssertion;
  }

  // ---------------------------------------------------------------- one step

  /** The namespace, and beside it all of a store that is not records. */
  datatype Space = Space(data: Data, bare: Store)

  datatype SpaceOutcome = SpaceOutcome(space: Space, response: Response)

  /** The keys of the records that KV loses. */
  function LostKeys(hex: Hex, grants: set<GrantRef>, tokens: set<TokenRef>): set<string> {
    (set r | r in grants :: GrantKey(r.userId, r.grantId))
    + (set t | t in tokens :: TokenKey(t.userId, t.grantId, hex(t.id)))
  }

  /** One handler on the namespace: it reads records from their keys, and writes and deletes keys. */
  ghost function SpaceStep(hex: Hex, cfg: Config, w: Space, e: Event): SpaceOutcome {
    match e
    case AuthorizeEvent(a) =>
      var o := Authorize(cfg, w.bare, a);
      var stored := AuthorizedData(w.data, CriterionOf(a), a.revokeExisting, NewRecords(hex, cfg, w.bare, a));
      var data := if a.accepted then stored else w.data;
      SpaceOutcome(Space(data, Bare(o.store)), o.response)
    case CodeEvent(r) =>
      var l := ReadPresented(hex, w.data, w.bare, r.code);
      var o := ExchangeCode(cfg, l, r);
      var data := if !r.code.Parsed? then w.data
                  else if CheckCode(cfg, l, r).Replay?
                  then RevokedData(w.data, r.code.token.userId, r.code.token.grantId)
                  else Save(hex, w.data, o, RefOf(r.code.token));
      SpaceOutcome(Space(data, Bare(o.store)), o.response)
    case RefreshEvent(r) =>
      var o := Refresh(cfg, ReadPresented(hex, w.data, w.bare, r.refreshToken), r);
      var data := if r.refreshToken.Parsed? then Save(hex, w.data, o, RefOf(r.refreshToken.token)) else w.data;
      SpaceOutcome(Space(data, Bare(o.store)), o.response)
    case ExchangeEvent(r) =>
      var o := Exchange(cfg, ReadPresented(hex, w.data, w.bare, r.subjectToken), r);
      var data := if r.subjectToken.Parsed? then Save(hex, w.data, o, RefOf(r.subjectToken.token)) else w.data;
      SpaceOutcome(Space(data, Bare(o.store)), o.response)
    case EmaEvent(r) =>
      var o := MintFromAssertion(cfg, w.bare, r);
      var data := if r.mapped.MappedTo? then Save(hex, w.data, o, GrantRef(r.mapped.userId, r.grantId)) else w.data;
      SpaceOutcome(Space(data, Bare(o.store)), o.response)
    case RevokeEvent(token, clientId, refreshFirst) =>
      var l := ReadPresented(hex, w.data, w.bare, token);
      var data := if !token.Parsed? then w.data
                  else if RevokesGrant(l, token.token, clientId, refreshFirst)
                  then RevokedData(w.data, token.token.userId, token.token.grantId)
                  else if OwnsAccessToken(l, token.token, clientId)
                  then w.data - {TokenKey(token.token.userId, token.token.grantId, hex(Digest(token.token)))}
                  else w.data;
      SpaceOutcome(Space(data, w.bare), RevokeToken(l, token, clientId, refreshFirst).response)
    case Remove(grants, tokens) => SpaceOutcome(Space(w.data - LostKeys(hex, grants, tokens), w.bare), Done)
    case Tick(seconds, evicted) => SpaceOutcome(Space(w.data, Bare(Step(cfg, w.bare, e).store)), Done)
  }

  predicate RevokesGrant(s: Store, b: Bearer, clientId: string, refreshFirst: bool) {
    OwnsRefreshToken(s, b, clientId) && (refreshFirst || !OwnsAccessToken(s, b, clientId))
  }

  /** The ids in a step are drawn, or parsed, without colons. */
  predicate ColonFreeIds(e: Event) {
    match e
    case AuthorizeEvent(a) => NoColon(a.grantId)
    case CodeEvent(r) => ColonFreeToken(r.code)
    case RefreshEvent(r) => ColonFreeToken(r.refreshToken)
    case ExchangeEvent(r) => ColonFreeToken(r.subjectToken)
    case EmaEvent(r) => NoColon(r.grantId)
    case RevokeEvent(token, _, _) => ColonFreeToken(token)
    case Remove(grants, tokens) => (forall r :: r in grants ==> NoColon(r.grantId)) &&
                                   (forall t :: t in tokens ==> NoColon(t.grantId))
    case _ => true
  }

  /** No stored token is swept along because its user id continues this grant across a colon. */
  ghost predicate NoneNested(s: Store, b: Bearer) {
    forall t :: t in s.tokens ==> !Nested(b.userId, b.grantId, t.userId)
  }

  /** What the step sweeps is only what it means to revoke. */
  ghost predicate ReachesOnly(cfg: Config, s: Store, e: Event) {
    match e
    case AuthorizeEvent(a) => a.accepted ==> SweepsOnly(s, Replaced(s, a), Collected(s, a))
    case CodeEvent(r) => r.code.Parsed? && CheckCode(cfg, s, r).Replay? ==> NoneNested(s, r.code.token)
    case RevokeEvent(token, clientId, refreshFirst) =>
      token.Parsed? && RevokesGrant(s, token.token, clientId, refreshFirst) ==> NoneNested(s, token.token)
    case _ => true
  }

  /** The namespace holds exactly the records of the store. */
  ghost predicate Holds(hex: Hex, w: Space, s: Store) {
    w.bare == Bare(s) && Represents(hex, w.data, s)
  }

  /** One step on the namespace answers as the state machine does, and leaves exactly its records if and
      only if no sweep reaches, through user ids with colons, more than it means to revoke. */
  lemma StepRefines(hex: Hex, cfg: Config, w: Space, s: Store, e: Event)
    requires cfg.Valid() && Faithful(hex) && Holds(hex, w, s) && Inv(s) && Fresh(s, e) && ColonFreeIds(e)
    ensures SpaceStep(hex, cfg, w, e).response == Step(cfg, s, e).response
    ensures Holds(hex, SpaceStep(hex, cfg, w, e).space, Step(cfg, s, e).store) <==> ReachesOnly(cfg, s, e)
  {
    hide Inv, Faithful, Represents, Authorize, ExchangeCode, Refresh, Exchange, MintFromAssertion, RevokeToken,
         CheckCode;
    hide SweepsOnly, Collected, NoColon, NoneNested, Bare, AuthorizedData, NewRecords, ReadPresented, Save, RevokedData;
    match e
    case AuthorizeEvent(a) => AuthorizeRefines(hex, cfg, w, s, a);
    case CodeEvent(r) => CodeRefines(hex, cfg, w, s, r);
    case RefreshEvent(r) => RefreshRefines(hex, cfg, w, s, r);
    case ExchangeEvent(r) => ExchangeRefines(hex, cfg, w, s, r);
    case EmaEvent(r) => EmaRefines(hex, cfg, w, s, r);
    case RevokeEvent(token, clientId, refreshFirst) => RevokeRefines(hex, cfg, w, s, token, clientId, refreshFirst);
    case Remove(grants, tokens) => LossRefines(hex, cfg, w, s, grants, tokens);
    case Tick(seconds, evicted) => TickRefines(hex, cfg, w, s, seconds, evicted);
  }

  lemma AuthorizeRefines(hex: Hex, cfg: Config, w: Space, s: Store, a: AuthorizeRequest)
    requires Faithful(hex) && Holds(hex, w, s) && Inv(s) && Fresh(s, AuthorizeEvent(a)) && NoColon(a.grantId)
    ensures var p, o := SpaceStep(hex, cfg, w, AuthorizeEvent(a)), Authorize(cfg, s, a);
      && p.response == o.response && p.space.bare == Bare(o.store)
      && (Represents(hex, p.space.data, o.store) <==> ReachesOnly(cfg, s, AuthorizeEvent(a)))
  {
    hide Represents, AuthorizedData, NewRecords, Inv, Collected, SweepsOnly, NoColon;
    AuthorizeIsLocal(hex, cfg, s, a);
    if a.accepted {
      AuthorizationRefines(hex, cfg, w.data, s, a);
    }
  }

  lemma AuthorizeIsLocal(hex: Hex, cfg: Config, s: Store, a: AuthorizeRequest)
    ensures Authorize(cfg, Bare(s), a).response == Authorize(cfg, s, a).response
    ensures Bare(Authorize(cfg, Bare(s), a).store) == Bare(Authorize(cfg, s, a).store)
    ensures NewRecords(hex, cfg, Bare(s), a) == NewRecords(hex, cfg, s, a)
    ensures !a.accepted ==> Authorize(cfg, s, a).store == s
  {
    hide GrantKey, TokenKey;
  }

  lemma CodeRefines(hex: Hex, cfg: Config, w: Space, s: Store, r: CodeRequest)
    requires cfg.Valid() && Faithful(hex) && Holds(hex, w, s) && Inv(s) && Fresh(s, CodeEvent(r))
    requires ColonFreeToken(r.code)
    ensures var p, o := SpaceStep(hex, cfg, w, CodeEvent(r)), ExchangeCode(cfg, s, r);
      && p.response == o.response && p.space.bare == Bare(o.store)
      && (Represents(hex, p.space.data, o.store) <==> ReachesOnly(cfg, s, CodeEvent(r)))
  {
    hide Represents, Inv, NoColon, ExchangeCode, CheckCode, Save, RevokedData, NoneNested, ReadPresented;
    var l := ReadPresented(hex, w.data, w.bare, r.code);
    ReadIsAlike(hex, w.data, s, r.code);
    CheckIsLocal(cfg, s, l, r);
    CodeKeepsInv(cfg, s, r);
    if CheckCode(cfg, s, r).Replay? {
      ReplayedCode(cfg, s, r);
      ReplayRevokes(cfg, s, r);
      ReplayRevokes(cfg, l, r);
      SweepRefines(hex, w.data, s, r.code.token);
    } else {
      CodeIsLocal(cfg, s, l, r);
      if r.code.Parsed? {
        ReadAgrees(hex, w.data, s, l, r.code.token, r.code);
        SavedRepresents(hex, w.data, s, ExchangeCode(cfg, s, r), l, ExchangeCode(cfg, l, r), RefOf(r.code.token));
      }
    }
  }

  lemma ReplayRevokes(cfg: Config, s: Store, r: CodeRequest)
    requires CheckCode(cfg, s, r).Replay? && r.code.Parsed?
    ensures ExchangeCode(cfg, s, r) == Outcome(Revoke(s, RefOf(r.code.token)), Refused(InvalidGrant))
    ensures Bare(ExchangeCode(cfg, s, r).store) == Bare(s)
  {
    hide CheckCode;
  }

  lemma SweepRefines(hex: Hex, data: Data, s: Store, b: Bearer)
    requires Faithful(hex) && Represents(hex, data, s) && NoColon(b.grantId)
    ensures Represents(hex, RevokedData(data, b.userId, b.grantId), Revoke(s, RefOf(b))) <==> NoneNested(s, b)
  {
    hide Represents, NoColon, Nested, RevokedData;
    RevokeGrantRefines(hex, data, s, b.userId, b.grantId);
  }

  /** What was read agrees with the store. */
  lemma ReadAgrees(hex: Hex, data: Data, s: Store, l: Store, b: Bearer, presented: Presented)
    requires presented == Parsed(b) && Alike(s, l, presented)
    ensures RefOf(b) in l.grants ==> RefOf(b) in s.grants && l.grants[RefOf(b)].record == s.grants[RefOf(b)].record
  {
  }

  lemma RefreshRefines(hex: Hex, cfg: Config, w: Space, s: Store, r: RefreshRequest)
    requires cfg.Valid() && Faithful(hex) && Holds(hex, w, s) && Inv(s) && Fresh(s, RefreshEvent(r))
    requires ColonFreeToken(r.refreshToken)
    ensures var p, o := SpaceStep(hex, cfg, w, RefreshEvent(r)), Refresh(cfg, s, r);
      p.response == o.response && Holds(hex, p.space, o.store)
  {
    hide Represents, Inv, NoColon, Refresh, Save, ReadPresented;
    var l := ReadPresented(hex, w.data, w.bare, r.refreshToken);
    ReadIsAlike(hex, w.data, s, r.refreshToken);
    RefreshKeepsInv(cfg, s, r);
    RefreshIsLocal(cfg, s, l, r);
    if r.refreshToken.Parsed? {
      ReadAgrees(hex, w.data, s, l, r.refreshToken.token, r.refreshToken);
      SavedRepresents(hex, w.data, s, Refresh(cfg, s, r), l, Refresh(cfg, l, r), RefOf(r.refreshToken.token));
    }
  }

  lemma ExchangeRefines(hex: Hex, cfg: Config, w: Space, s: Store, r: ExchangeRequest)
    requires cfg.Valid() && Faithful(hex) && Holds(hex, w, s) && Inv(s) && Fresh(s, ExchangeEvent(r))
    requires ColonFreeToken(r.subjectToken)
    ensures var p, o := SpaceStep(hex, cfg, w, ExchangeEvent(r)), Exchange(cfg, s, r);
      p.response == o.response && Holds(hex, p.space, o.store)
  {
    hide Represents, Inv, NoColon, Exchange, Save, ReadPresented;
    var l := ReadPresented(hex, w.data, w.bare, r.subjectToken);
    ReadIsAlike(hex, w.data, s, r.subjectToken);
    ExchangeKeepsInv(cfg, s, r);
    ExchangeIsLocal(cfg, s, l, r);
    if r.subjectToken.Parsed? {
      ReadAgrees(hex, w.data, s, l, r.subjectToken.token, r.subjectToken);
      SavedRepresents(hex, w.data, s, Exchange(cfg, s, r), l, Exchange(cfg, l, r), RefOf(r.subjectToken.token));
    }
  }

  lemma EmaRefines(hex: Hex, cfg: Config, w: Space, s: Store, r: EmaRequest)
    requires cfg.Valid() && Faithful(hex) && Holds(hex, w, s) && Inv(s) && Fresh(s, EmaEvent(r)) && NoColon(r.grantId)
    ensures var p, o := SpaceStep(hex, cfg, w, EmaEvent(r)), MintFromAssertion(cfg, s, r);
      p.response == o.response && Holds(hex, p.space, o.store)
  {
    hide Represents, Inv, NoColon, MintFromAssertion, Save;
    EmaKeepsInv(cfg, s, r);
    EmaIsLocal(cfg, s, r);
    if r.mapped.MappedTo? {
      SavedRepresents(hex, w.data, s, MintFromAssertion(cfg, s, r), Bare(s), MintFromAssertion(cfg, Bare(s), r),
                      GrantRef(r.mapped.userId, r.grantId));
    } else {
      SameRecords(hex, w.data, s, MintFromAssertion(cfg, s, r).store);
    }
  }

  lemma RevokeRefines(hex: Hex, cfg: Config, w: Space, s: Store, token: Presented, clientId: string, refreshFirst: bool)
    requires Faithful(hex) && Holds(hex, w, s) && ColonFreeToken(token)
    ensures var e := RevokeEvent(token, clientId, refreshFirst);
      var p, o := SpaceStep(hex, cfg, w, e), RevokeToken(s, token, clientId, refreshFirst);
      && p.response == o.response && p.space.bare == Bare(o.store)
      && (Represents(hex, p.space.data, o.store) <==> ReachesOnly(cfg, s, e))
  {
    hide Represents, NoColon, RevokedData, NoneNested, ReadPresented, Faithful, TokenKey;
    var l := ReadPresented(hex, w.data, w.bare, token);
    ReadIsAlike(hex, w.data, s, token);
    if token.Parsed? {
      var b := token.token;
      assert OwnsAccessToken(l, b, clientId) == OwnsAccessToken(s, b, clientId);
      assert OwnsRefreshToken(l, b, clientId) == OwnsRefreshToken(s, b, clientId);
      SweepRefines(hex, w.data, s, b);
      TokenLossRefines(hex, w.data, s, TokenRefOf(b));
    }
  }

  lemma TokenLossRefines(hex: Hex, data: Data, s: Store, ref: TokenRef)
    requires Faithful(hex) && Represents(hex, data, s) && NoColon(ref.grantId)
    ensures Represents(hex, data - {TokenKey(ref.userId, ref.grantId, hex(ref.id))}, s.(tokens := s.tokens - {ref}))
  {
    hide Represents, NoColon, TokenKey, GrantKey;
    LostRecords(hex, data, s, {}, {ref});
    assert LostKeys(hex, {}, {ref}) == {TokenKey(ref.userId, ref.grantId, hex(ref.id))};
    assert s.(grants := s.grants - {}, tokens := s.tokens - {ref}) == s.(tokens := s.tokens - {ref});
  }

  /** Losing the keys of some records is losing those records. */
  lemma LostRecords(hex: Hex, data: Data, s: Store, grants: set<GrantRef>, tokens: set<TokenRef>)
    requires Faithful(hex) && Represents(hex, data, s)
    requires (forall r :: r in grants ==> NoColon(r.grantId)) && (forall t :: t in tokens ==> NoColon(t.grantId))
    ensures Represents(hex, data - LostKeys(hex, grants, tokens),
                       s.(grants := s.grants - grants, tokens := s.tokens - tokens))
  {
    hide TokenKey, GrantKey, NoColon;
    var data', s' := data - LostKeys(hex, grants, tokens), s.(grants := s.grants - grants, tokens := s.tokens - tokens);
    forall r | r in s.grants
      ensures NoColon(r.grantId) && (GrantKey(r.userId, r.grantId) in LostKeys(hex, grants, tokens) <==> r in grants)
    {
      assert GrantStored(data, s, r);
      GrantIsLost(hex, grants, tokens, r);
    }
    forall t | t in s.tokens
      ensures NoColon(t.grantId)
      ensures (TokenKey(t.userId, t.grantId, hex(t.id)) in LostKeys(hex, grants, tokens) <==> t in tokens)
    {
      assert TokenStored(hex, data, s, t);
      TokenIsLost(hex, grants, tokens, t);
    }
    forall r | r in s'.grants ensures GrantStored(data', s', r) { assert GrantStored(data, s, r); }
    forall t | t in s'.tokens ensures TokenStored(hex, data', s', t) { assert TokenStored(hex, data, s, t); }
    forall k | k in data' ensures EntryKnown(hex, s', k, data'[k]) { assert EntryKnown(hex, s, k, data[k]); }
  }

  lemma GrantIsLost(hex: Hex, grants: set<GrantRef>, tokens: set<TokenRef>, r: GrantRef)
    requires NoColon(r.grantId) && forall x :: x in grants ==> NoColon(x.grantId)
    ensures GrantKey(r.userId, r.grantId) in LostKeys(hex, grants, tokens) <==> r in grants
  {
    hide TokenKey, GrantKey, NoColon;
    var key := GrantKey(r.userId, r.grantId);
    forall x | x in grants && GrantKey(x.userId, x.grantId) == key ensures x == r {
      GrantKeyInjective(x.userId, x.grantId, r.userId, r.grantId);
    }
    forall t | t in tokens ensures TokenKey(t.userId, t.grantId, hex(t.id)) != key {
      KeysOfKinds(r.userId, r.grantId, t.userId, t.grantId, hex(t.id));
    }
  }

  lemma TokenIsLost(hex: Hex, grants: set<GrantRef>, tokens: set<TokenRef>, t: TokenRef)
    requires Faithful(hex) && NoColon(t.grantId) && forall x :: x in tokens ==> NoColon(x.grantId)
    ensures TokenKey(t.userId, t.grantId, hex(t.id)) in LostKeys(hex, grants, tokens) <==> t in tokens
  {
    hide TokenKey, GrantKey, NoColon;
    var key := TokenKey(t.userId, t.grantId, hex(t.id));
    forall x | x in tokens && TokenKey(x.userId, x.grantId, hex(x.id)) == key ensures x == t {
      TokenKeyInjective(x.userId, x.grantId, hex(x.id), t.userId, t.grantId, hex(t.id));
    }
    forall r | r in grants ensures GrantKey(r.userId, r.grantId) != key {
      KeysOfKinds(r.userId, r.grantId, t.userId, t.grantId, hex(t.id));
    }
  }

  lemma LossRefines(hex: Hex, cfg: Config, w: Space, s: Store, grants: set<GrantRef>, tokens: set<TokenRef>)
    requires Faithful(hex) && Holds(hex, w, s) && ColonFreeIds(Remove(grants, tokens))
    ensures var p, o := SpaceStep(hex, cfg, w, Remove(grants, tokens)), Step(cfg, s, Remove(grants, tokens));
      p.response == o.response && Holds(hex, p.space, o.store)
  {
    hide Represents, NoColon, LostKeys;
    LostRecords(hex, w.data, s, grants, tokens);
  }

  lemma TickRefines(hex: Hex, cfg: Config, w: Space, s: Store, seconds: nat, evicted: set<string>)
    requires Holds(hex, w, s)
    ensures var p, o := SpaceStep(hex, cfg, w, Tick(seconds, evicted)), Step(cfg, s, Tick(seconds, evicted));
      p.response == o.response && Holds(hex, p.space, o.store)
  {
    hide Represents;
    SameRecords(hex, w.data, s, Step(cfg, s, Tick(seconds, evicted)).store);
  }

  // ---------------------------------------------------------------- whole runs

  ghost function SpaceRun(hex: Hex, cfg: Config, w: Space, events: seq<Event>): Space
    decreases |events|
  {
    if events == [] then w else SpaceRun(hex, cfg, SpaceStep(hex, cfg, w, events[0]).space, events[1..])
  }

  /** Ids without colons, and user ids too. */
  predicate ColonFreeEvent(e: Event) {
    && ColonFreeIds(e)
    && match e
       case AuthorizeEvent(a) => NoColon(a.userId)
       case CodeEvent(r) => r.code.Parsed? ==> NoColon(r.code.token.userId)
       case RefreshEvent(r) => r.refreshToken.Parsed? ==> NoColon(r.refreshToken.token.userId)
       case ExchangeEvent(r) => r.subjectToken.Parsed? ==> NoColon(r.subjectToken.token.userId)
       case _ => true
  }

  ghost predicate ColonFreeUsers(s: Store) {
    (forall r :: r in s.grants ==> NoColon(r.userId)) && (forall t :: t in s.tokens ==> NoColon(t.userId))
  }

  lemma ColonFreeReachesOnly(cfg: Config, s: Store, e: Event)
    requires ColonFreeUsers(s)
    ensures ReachesOnly(cfg, s, e)
  {
    hide CheckCode, SweepsOnly, Collected, Replaced, RevokesGrant, Nested;
    if e.AuthorizeEvent? {
      NoneContinues(s, e.a.userId);
      ColonFreeUsersRefine(s, e.a);
    }
    forall b: Bearer ensures NoneNested(s, b) {
      forall t | t in s.tokens ensures !Nested(b.userId, b.grantId, t.userId) {
        ColonFreeIsNotNested(b.userId, b.grantId, t.userId);
      }
    }
  }

  lemma NoneContinues(s: Store, userId: string)
    requires ColonFreeUsers(s)
    ensures NoNestedUser(s, userId)
  {
    forall other | NoColon(other) ensures !(userId + ":" <= other) {
      var colon := (userId + ":")[|userId|];
      assert userId + ":" <= other ==> colon in other;
    }
  }

  lemma StepKeepsColonFree(cfg: Config, s: Store, e: Event)
    requires ColonFreeUsers(s) && ColonFreeEvent(e)
    ensures ColonFreeUsers(Step(cfg, s, e).store)
  {
    hide NoColon, Authorize, ExchangeCode, Refresh, Exchange, MintFromAssertion, RevokeToken, CheckCode;
    match e
    case AuthorizeEvent(a) => AuthorizeUsers(cfg, s, a);
    case CodeEvent(r) =>
      if CheckCode(cfg, s, r).Replay? {
        ReplayedCode(cfg, s, r);
        ReplayRevokes(cfg, s, r);
      } else {
        CodeIsLocal(cfg, s, s, r);
      }
    case RefreshEvent(r) => RefreshIsLocal(cfg, s, s, r);
    case ExchangeEvent(r) => ExchangeIsLocal(cfg, s, s, r);
    case EmaEvent(r) =>
      if MapperAccepts(r.mapped, r.policy) {
        EmaIsLocal(cfg, s, r);
        AcceptedUser(r);
      } else {
        RefusedMapperWritesNothing(cfg, s, r);
      }
    case RevokeEvent(token, clientId, refreshFirst) => RevokeUsers(s, token, clientId, refreshFirst);
    case _ =>
  }

  lemma AcceptedUser(r: EmaRequest)
    requires MapperAccepts(r.mapped, r.policy)
    ensures r.mapped.MappedTo? && NoColon(r.mapped.userId)
  {
  }

  lemma AuthorizeUsers(cfg: Config, s: Store, a: AuthorizeRequest)
    requires ColonFreeUsers(s) && NoColon(a.userId)
    ensures ColonFreeUsers(Authorize(cfg, s, a).store)
  {
    hide NoColon;
  }

  lemma RevokeUsers(s: Store, token: Presented, clientId: string, refreshFirst: bool)
    requires ColonFreeUsers(s)
    ensures ColonFreeUsers(RevokeToken(s, token, clientId, refreshFirst).store)
  {
    hide NoColon;
  }

  /** Along every run whose user ids have no colons, the namespace holds exactly the records of the
      state machine, and every request is answered alike. */
  lemma {:induction false} RunRefines(hex: Hex, cfg: Config, w: Space, s: Store, events: seq<Event>)
    requires cfg.Valid() && Faithful(hex) && Holds(hex, w, s) && Inv(s) && FreshRun(cfg, s, events)
    requires ColonFreeUsers(s) && forall e :: e in events ==> ColonFreeEvent(e)
    ensures Holds(hex, SpaceRun(hex, cfg, w, events), Run(cfg, s, events))
    ensures forall e :: Fresh(Run(cfg, s, events), e) && ColonFreeIds(e) ==>
      SpaceStep(hex, cfg, SpaceRun(hex, cfg, w, events), e).response == Step(cfg, Run(cfg, s, events), e).response
    decreases |events|
  {
    hide Inv, Faithful, Holds, Step, SpaceStep, Fresh, ColonFreeUsers, ReachesOnly, ColonFreeIds, ColonFreeEvent;
    if events == [] {
      forall e | Fresh(s, e) && ColonFreeIds(e) ensures SpaceStep(hex, cfg, w, e).response == Step(cfg, s, e).response {
        StepRefines(hex, cfg, w, s, e);
      }
    } else {
      assert ColonFreeIds(events[0]) by { ColonFreeMeansIds(events[0]); }
      StepRefines(hex, cfg, w, s, events[0]);
      ColonFreeReachesOnly(cfg, s, events[0]);
      StepKeepsInv(cfg, s, events[0]);
      StepKeepsColonFree(cfg, s, events[0]);
      RunRefines(hex, cfg, SpaceStep(hex, cfg, w, events[0]).space, Step(cfg, s, events[0]).store, events[1..]);
    }
  }

  lemma ColonFreeMeansIds(e: Event)
    requires ColonFreeEvent(e)
    ensures ColonFreeIds(e)
  {
  }

  /** To begin with, an empty namespace holds the records of the empty store. */
  lemma EmptyHolds(hex: Hex, now: int)
    ensures Holds(hex, Space(map[], Bare(InitialStore(now))), InitialStore(now))
    ensures Inv(InitialStore(now)) && ColonFreeUsers(InitialStore(now))
  {
  }
}
