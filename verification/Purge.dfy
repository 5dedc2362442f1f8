/** The purge of expired and orphaned records (repos/workers-oauth-provider/src/oauth-provider.ts):
    two sweeps over the namespace, each within a batch, and an honest `done`. */
module Purge {
  import opened Wrappers
  import opened OAuthTypes
  import opened Keys
  import opened KvNamespace

  const DEFAULT_PURGE_BATCH_SIZE: int := 50

  /** The purge options; a flag that is absent counts as set. */
  datatype PurgeOptions = PurgeOptions(batchSize: Option<int>, orphanedGrants: bool, expiredGrants: bool,
                                       orphanedTokens: bool)

  datatype PurgeResult = PurgeResult(grantsChecked: nat, grantsPurged: nat, tokensChecked: nat, tokensPurged: nat,
                                     done: bool)

  /** The instant, the options, and which client ids are URLs of metadata documents. */
  datatype Sweep = Sweep(now: int, options: PurgeOptions, isMetadataUrl: string -> bool)

  /** Every grant and token is stored under its own key. */
  ghost predicate WellKeyed(data: Data) {
    forall k :: k in data ==>
      && (data[k].GrantEntry? ==> NoColon(data[k].grant.id) && k == GrantKey(data[k].grant.userId, data[k].grant.id))
      && ("grant:" <= k <==> data[k].GrantEntry?)
      && ("token:" <= k <==> data[k].TokenEntry?)
  }

  predicate Expired(g: Grant, now: int) {
    g.expiresAt.Some? && now >= g.expiresAt.value
  }

  predicate MissingClient(data: Data, s: Sweep, g: Grant) {
    !s.isMetadataUrl(g.clientId) && ClientKey(g.clientId) !in data
  }

  predicate PurgeableGrant(data: Data, s: Sweep, g: Grant) {
    (s.options.expiredGrants && Expired(g, s.now)) || (s.options.orphanedGrants && MissingClient(data, s, g))
  }

  predicate OrphanedToken(data: Data, t: Token) {
    GrantKey(t.userId, t.grantId) !in data
  }

  function PurgeableGrants(data: Data, s: Sweep): set<string> {
    set k | k in data && data[k].GrantEntry? && PurgeableGrant(data, s, data[k].grant)
  }

  function OrphanedTokens(data: Data): set<string> {
    set k | k in data && data[k].TokenEntry? && OrphanedToken(data, data[k].token)
  }

  ghost predicate RevokedBy(data: Data, purged: set<string>, key: string) {
    exists p ::
      p in purged && p in data && data[p].GrantEntry? && RevokedKey(data[p].grant.userId, data[p].grant.id, key)
  }

  /** What is left once the grants at `purged` are revoked. */
  ghost function WithoutGrants(data: Data, purged: set<string>): Data {
    map k | k in data && !RevokedBy(data, purged, k) :: data[k]
  }

  // ---------------------------------------------------------------- what a sweep cannot disturb

  lemma ClientsStay(data: Data, purged: set<string>, clientId: string)
    ensures ClientKey(clientId) in WithoutGrants(data, purged) <==> ClientKey(clientId) in data
  {
    hide TokenPrefix, GrantKey, ClientKey;
    forall p | p in purged && p in data && data[p].GrantEntry?
      ensures !RevokedKey(data[p].grant.userId, data[p].grant.id, ClientKey(clientId))
    {
      KindsDiffer(data[p].grant.userId, data[p].grant.id, clientId, ClientKey(clientId));
    }
  }

  lemma PurgeableStays(data: Data, purged: set<string>, s: Sweep, g: Grant)
    ensures PurgeableGrant(WithoutGrants(data, purged), s, g) <==> PurgeableGrant(data, s, g)
  {
    hide ClientKey, WithoutGrants;
    ClientsStay(data, purged, g.clientId);
  }

  /** Revoking grants takes no other grant along. */
  lemma OnlyPurgedGrantsGo(data: Data, purged: set<string>, k: string)
    requires WellKeyed(data) && k in data && data[k].GrantEntry?
    ensures k in WithoutGrants(data, purged) <==> k !in purged
  {
  }

  lemma PurgeOneMore(data: Data, purged: set<string>, key: string)
    requires key in WithoutGrants(data, purged) && data[key].GrantEntry?
    ensures RevokedData(WithoutGrants(data, purged), data[key].grant.userId, data[key].grant.id) ==
      WithoutGrants(data, purged + {key})
  {
  }

  // ---------------------------------------------------------------- grant sweep

  ghost predicate CachesAgree(data: Data, good: set<string>, missing: set<string>) {
    (forall c :: c in good ==> ClientKey(c) in data) && (forall c :: c in missing ==> ClientKey(c) !in data)
  }

  /** Whether one grant is purged; the client is looked up only when neither cache knows it. */
  method ShouldPurge(kv: Namespace, s: Sweep, g: Grant, good: set<string>, missing: set<string>)
    returns (shouldPurge: bool, knownGoodClients: set<string>, knownMissingClients: set<string>)
    requires CachesAgree(kv.data, good, missing)
    ensures shouldPurge <==> PurgeableGrant(kv.data, s, g)
    ensures CachesAgree(kv.data, knownGoodClients, knownMissingClients)
  {
    shouldPurge, knownGoodClients, knownMissingClients := false, good, missing;
    if s.options.expiredGrants && g.expiresAt.Some? && s.now >= g.expiresAt.value { shouldPurge := true; }
    if !shouldPurge && s.options.orphanedGrants && !s.isMetadataUrl(g.clientId) {
      if g.clientId in knownMissingClients {
        shouldPurge := true;
      } else if g.clientId !in knownGoodClients {
        if ClientKey(g.clientId) in kv.data {
          knownGoodClients := knownGoodClients + {g.clientId};
        } else {
          knownMissingClients := knownMissingClients + {g.clientId};
          shouldPurge := true;
        }
      }
    }
  }

  lemma CachesStay(data: Data, purged: set<string>, purged': set<string>, good: set<string>, missing: set<string>)
    requires CachesAgree(WithoutGrants(data, purged), good, missing)
    ensures CachesAgree(WithoutGrants(data, purged'), good, missing)
  {
    hide WithoutGrants, ClientKey;
    forall c ensures ClientKey(c) in WithoutGrants(data, purged') <==> ClientKey(c) in WithoutGrants(data, purged) {
      ClientsStay(data, purged, c);
      ClientsStay(data, purged', c);
    }
  }

  /** The purgeable grants that are left all come after what was visited. */
  ghost predicate LeftAfter(data: Data, s: Sweep, purged: set<string>, finished: bool, cursor: Option<string>) {
    forall k :: k in PurgeableGrants(data, s) && k !in purged ==> !finished && Past(cursor, k)
  }

  /** The keys of one page, in order. The page is never longer than what is left of the batch, so
      the guard on the batch stops no page before its end. */
  method PurgeGrantPage(kv: Namespace, s: Sweep, keys: seq<string>, batchSize: int, checked: nat,
                        good: set<string>, missing: set<string>, ghost data: Data, ghost before: set<string>)
    returns (grantsChecked: nat, grantsPurged: nat, knownGoodClients: set<string>, knownMissingClients: set<string>,
             ghost purged: set<string>)
    requires WellKeyed(data) && kv.data == WithoutGrants(data, before) && before <= PurgeableGrants(data, s)
    requires CachesAgree(kv.data, good, missing) && checked + |keys| <= batchSize
    modifies kv
    ensures kv.data == WithoutGrants(data, purged) && purged <= PurgeableGrants(data, s)
    ensures before <= purged && grantsPurged == |purged| - |before| <= |keys| && grantsChecked == checked + |keys|
    ensures forall k :: k in keys && k in PurgeableGrants(data, s) ==> k in purged
    ensures CachesAgree(kv.data, knownGoodClients, knownMissingClients)
  {
    hide WithoutGrants, CachesAgree, PurgeableGrant, RevokedData, WellKeyed;
    grantsChecked, grantsPurged, knownGoodClients, knownMissingClients, purged := checked, 0, good, missing, before;
    var i := 0;
    while i < |keys| && grantsChecked < batchSize
      invariant i <= |keys| && grantsChecked == checked + i
      invariant kv.data == WithoutGrants(data, purged) && purged <= PurgeableGrants(data, s)
      invariant before <= purged && grantsPurged == |purged| - |before| <= i
      invariant forall j :: 0 <= j < i && keys[j] in PurgeableGrants(data, s) ==> keys[j] in purged
      invariant CachesAgree(kv.data, knownGoodClients, knownMissingClients)
    {
      grantsChecked := grantsChecked + 1;
      var key := keys[i];
      i := i + 1;
      StillThere(data, s, purged, key);
      if key in kv.data && kv.data[key].GrantEntry? {
        var grantData := kv.data[key].grant;
        var shouldPurge;
        PurgeableStays(data, purged, s, grantData);
        shouldPurge, knownGoodClients, knownMissingClients :=
          ShouldPurge(kv, s, grantData, knownGoodClients, knownMissingClients);
        if shouldPurge {
          PurgeOneMore(data, purged, key);
          CachesStay(data, purged, purged + {key}, knownGoodClients, knownMissingClients);
          kv.RevokeGrant(grantData.id, grantData.userId);
          grantsPurged := grantsPurged + 1;
          purged := purged + {key};
        }
      }
    }
  }

  /** A purgeable grant is in the namespace until it is purged, and what is there is as it was. */
  lemma StillThere(data: Data, s: Sweep, purged: set<string>, key: string)
    requires WellKeyed(data)
    ensures var left := WithoutGrants(data, purged);
      && (key in left ==> key in data && left[key] == data[key])
      && (key in left && left[key].GrantEntry? ==> key !in purged)
      && (key in PurgeableGrants(data, s) && key !in purged ==> key in left)
  {
  }

  /** The first sweep. */
  method SweepGrants(kv: Namespace, s: Sweep, batchSize: int)
    returns (grantsChecked: nat, grantsPurged: nat, grantsDone: bool, ghost purged: set<string>)
    requires WellKeyed(kv.data)
    modifies kv
    ensures kv.data == WithoutGrants(old(kv.data), purged) && purged <= PurgeableGrants(old(kv.data), s)
    ensures grantsPurged == |purged| <= grantsChecked <= Max(batchSize, 0)
    ensures grantsDone ==> purged == PurgeableGrants(old(kv.data), s)
    ensures !grantsDone ==> grantsChecked >= batchSize
  {
    hide WithoutGrants, CachesAgree, WellKeyed, PurgeableGrant, PageOf, Past;
    ghost var data := kv.data;
    var knownGoodClients, knownMissingClients, cursor: Option<string> := {}, {}, None;
    grantsChecked, grantsPurged, grantsDone, purged := 0, 0, false, {};
    NothingPurged(data);
    NothingVisited(data, s);
    while !grantsDone && grantsChecked < batchSize
      invariant kv.data == WithoutGrants(data, purged) && purged <= PurgeableGrants(data, s)
      invariant grantsPurged == |purged| <= grantsChecked <= Max(batchSize, 0)
      invariant CachesAgree(kv.data, knownGoodClients, knownMissingClients)
      invariant LeftAfter(data, s, purged, grantsDone, cursor)
      decreases batchSize - grantsChecked, !grantsDone
    {
      var limit := Min(1000, batchSize - grantsChecked);
      var page := kv.List("grant:", cursor, limit);
      PageIsShort(kv.data, "grant:", cursor, limit, page);
      PageCovers(data, s, purged, cursor, limit, page);
      var n;
      grantsChecked, n, knownGoodClients, knownMissingClients, purged :=
        PurgeGrantPage(kv, s, page.keys, batchSize, grantsChecked, knownGoodClients, knownMissingClients, data, purged);
      grantsPurged := grantsPurged + n;
      if page.cursor.None? { grantsDone := true; } else { cursor := page.cursor; }
    }
  }

  lemma NothingPurged(data: Data)
    ensures WithoutGrants(data, {}) == data && CachesAgree(data, {}, {})
  {
  }

  lemma NothingVisited(data: Data, s: Sweep)
    ensures LeftAfter(data, s, {}, false, None)
  {
  }

  lemma PageIsShort(data: Data, prefix: string, cursor: Option<string>, limit: nat, page: Page)
    requires PageOf(data, prefix, cursor, limit, page)
    ensures |page.keys| <= limit && (page.cursor.Some? ==> page.keys != [])
  {
  }

  /** Every purgeable grant that is left is on the page or after it. */
  lemma PageCovers(data: Data, s: Sweep, purged: set<string>, cursor: Option<string>, limit: nat, page: Page)
    requires WellKeyed(data) && PageOf(WithoutGrants(data, purged), "grant:", cursor, limit, page)
    requires LeftAfter(data, s, purged, false, cursor)
    ensures forall k :: k in PurgeableGrants(data, s) && k !in purged && k !in page.keys ==>
      page.cursor.Some? && Past(page.cursor, k)
  {
  }

  // ---------------------------------------------------------------- token sweep

  ghost predicate GrantCachesAgree(data: Data, good: set<string>, missing: set<string>) {
    (forall k :: k in good ==> k in data) && (forall k :: k in missing ==> k !in data)
  }

  /** Whether the grant of a token is missing; it is looked up only when neither cache knows it. */
  method IsOrphaned(kvData: Data, t: Token, good: set<string>, missing: set<string>, ghost data: Data)
    returns (orphaned: bool, knownGoodGrants: set<string>, knownMissingGrants: set<string>)
    requires GrantCachesAgree(data, good, missing)
    requires GrantKey(t.userId, t.grantId) in kvData <==> GrantKey(t.userId, t.grantId) in data
    ensures orphaned <==> OrphanedToken(data, t)
    ensures GrantCachesAgree(data, knownGoodGrants, knownMissingGrants)
  {
    hide GrantKey;
    orphaned, knownGoodGrants, knownMissingGrants := false, good, missing;
    var grantKey := GrantKey(t.userId, t.grantId);
    if grantKey in knownMissingGrants {
      orphaned := true;
    } else if grantKey !in knownGoodGrants {
      if grantKey in kvData {
        knownGoodGrants := knownGoodGrants + {grantKey};
      } else {
        knownMissingGrants := knownMissingGrants + {grantKey};
        orphaned := true;
      }
    }
  }

  /** The keys of one page of tokens; the guard on the batch stops no page before its end. */
  method PurgeTokenPage(kv: Namespace, keys: seq<string>, batchSize: int, checked: nat,
                        good: set<string>, missing: set<string>, ghost data: Data, ghost before: set<string>)
    returns (tokensChecked: nat, tokensPurged: nat, knownGoodGrants: set<string>, knownMissingGrants: set<string>,
             ghost purged: set<string>)
    requires WellKeyed(data) && kv.data == data - before && before <= OrphanedTokens(data)
    requires GrantCachesAgree(data, good, missing) && checked + |keys| <= batchSize
    modifies kv
    ensures kv.data == data - purged && purged <= OrphanedTokens(data)
    ensures before <= purged && tokensPurged == |purged| - |before| <= |keys| && tokensChecked == checked + |keys|
    ensures forall k :: k in keys && k in OrphanedTokens(data) ==> k in purged
    ensures GrantCachesAgree(data, knownGoodGrants, knownMissingGrants)
  {
    hide GrantCachesAgree, GrantKey, OrphanedToken, WellKeyed;
    tokensChecked, tokensPurged, knownGoodGrants, knownMissingGrants, purged := checked, 0, good, missing, before;
    var i := 0;
    while i < |keys| && tokensChecked < batchSize
      invariant i <= |keys| && tokensChecked == checked + i
      invariant kv.data == data - purged && purged <= OrphanedTokens(data)
      invariant before <= purged && tokensPurged == |purged| - |before| <= i
      invariant forall j :: 0 <= j < i && keys[j] in OrphanedTokens(data) ==> keys[j] in purged
      invariant GrantCachesAgree(data, knownGoodGrants, knownMissingGrants)
    {
      tokensChecked := tokensChecked + 1;
      var key := keys[i];
      i := i + 1;
      if key in kv.data && kv.data[key].TokenEntry? {
        var tokenData := kv.data[key].token;
        var orphaned;
        GrantKeyIsNoToken(data, tokenData.userId, tokenData.grantId);
        assert kv.data[key] == data[key];
        orphaned, knownGoodGrants, knownMissingGrants := IsOrphaned(kv.data, tokenData, knownGoodGrants,
                                                                    knownMissingGrants, data);
        if orphaned {
          kv.data := kv.data - {key};
          tokensPurged, purged := tokensPurged + 1, purged + {key};
        }
      }
    }
  }

  lemma GrantKeyIsNoToken(data: Data, userId: string, grantId: string)
    requires WellKeyed(data)
    ensures GrantKey(userId, grantId) !in OrphanedTokens(data)
  {
  }

  /** The orphaned tokens that are left all come after what was visited. */
  ghost predicate TokensLeftAfter(data: Data, purged: set<string>, finished: bool, cursor: Option<string>) {
    forall k :: k in OrphanedTokens(data) && k !in purged ==> !finished && Past(cursor, k)
  }

  lemma TokenPageCovers(data: Data, purged: set<string>, cursor: Option<string>, limit: nat, page: Page)
    requires WellKeyed(data) && PageOf(data - purged, "token:", cursor, limit, page)
    requires TokensLeftAfter(data, purged, false, cursor)
    ensures forall k :: k in OrphanedTokens(data) && k !in purged && k !in page.keys ==>
      page.cursor.Some? && Past(page.cursor, k)
  {
  }

  /** The second sweep. */
  method SweepTokens(kv: Namespace, batchSize: int)
    returns (tokensChecked: nat, tokensPurged: nat, tokensDone: bool, ghost purged: set<string>)
    requires WellKeyed(kv.data)
    modifies kv
    ensures kv.data == old(kv.data) - purged && purged <= OrphanedTokens(old(kv.data))
    ensures tokensPurged == |purged| <= tokensChecked <= Max(batchSize, 0)
    ensures tokensDone ==> purged == OrphanedTokens(old(kv.data))
    ensures !tokensDone ==> tokensChecked >= batchSize
  {
    hide WellKeyed, PageOf, Past, OrphanedToken;
    ghost var data := kv.data;
    var knownGoodGrants, knownMissingGrants, cursor: Option<string> := {}, {}, None;
    tokensChecked, tokensPurged, tokensDone, purged := 0, 0, false, {};
    NoTokenVisited(data);
    while !tokensDone && tokensChecked < batchSize
      invariant kv.data == data - purged && purged <= OrphanedTokens(data)
      invariant tokensPurged == |purged| <= tokensChecked <= Max(batchSize, 0)
      invariant GrantCachesAgree(data, knownGoodGrants, knownMissingGrants)
      invariant TokensLeftAfter(data, purged, tokensDone, cursor)
      decreases batchSize - tokensChecked, !tokensDone
    {
      var limit := Min(1000, batchSize - tokensChecked);
      var page := kv.List("token:", cursor, limit);
      PageIsShort(kv.data, "token:", cursor, limit, page);
      TokenPageCovers(data, purged, cursor, limit, page);
      var n;
      tokensChecked, n, knownGoodGrants, knownMissingGrants, purged :=
        PurgeTokenPage(kv, page.keys, batchSize, tokensChecked, knownGoodGrants, knownMissingGrants, data, purged);
      tokensPurged := tokensPurged + n;
      if page.cursor.None? { tokensDone := true; } else { cursor := page.cursor; }
    }
  }

  lemma NoTokenVisited(data: Data)
    ensures TokensLeftAfter(data, {}, false, None)
  {
  }

  // ---------------------------------------------------------------- the whole purge

  lemma WellKeyedStays(data: Data, purged: set<string>)
    requires WellKeyed(data)
    ensures WellKeyed(WithoutGrants(data, purged))
  {
  }

  /** Nothing that the options ask to purge is left. */
  ghost predicate NothingToPurge(data: Data, s: Sweep) {
    && PurgeableGrants(data, s) == {}
    && (s.options.orphanedTokens ==> OrphanedTokens(data) == {})
  }

  /** What the purge removes is exactly the grants at `grants` with their tokens, all of them
      purgeable, and the tokens at `tokens`, all of them orphaned by then. */
  ghost predicate PurgedExactly(before: Data, after: Data, s: Sweep, grants: set<string>, tokens: set<string>) {
    && grants <= PurgeableGrants(before, s)
    && tokens <= OrphanedTokens(WithoutGrants(before, grants)) && (tokens != {} ==> s.options.orphanedTokens)
    && after == WithoutGrants(before, grants) - tokens
  }

  method PurgeExpiredData(kv: Namespace, s: Sweep)
    returns (result: PurgeResult, ghost grants: set<string>, ghost tokens: set<string>)
    requires WellKeyed(kv.data)
    modifies kv
    ensures PurgedExactly(old(kv.data), kv.data, s, grants, tokens)
    ensures result.grantsPurged == |grants| && result.tokensPurged == |tokens|
    ensures result.done ==> NothingToPurge(kv.data, s)
    ensures var batch := if s.options.batchSize.None? then DEFAULT_PURGE_BATCH_SIZE else s.options.batchSize.value;
      && result.grantsChecked <= Max(batch, 0) && result.tokensChecked <= Max(batch, 0)
      && (!result.done ==> result.grantsChecked >= batch || result.tokensChecked >= batch)
  {
    hide WithoutGrants, WellKeyed, PurgeableGrants, OrphanedTokens;
    var batchSize := if s.options.batchSize.None? then DEFAULT_PURGE_BATCH_SIZE else s.options.batchSize.value;
    result, grants, tokens := PurgeResult(0, 0, 0, 0, false), {}, {};
    NothingPurged(kv.data);
    NothingEnabled(kv.data, s);
    WellKeyedStays(kv.data, {});
    if s.options.orphanedGrants || s.options.expiredGrants {
      var checked, purged, grantsDone;
      checked, purged, grantsDone, grants := SweepGrants(kv, s, batchSize);
      result := result.(grantsChecked := checked, grantsPurged := purged);
      WellKeyedStays(old(kv.data), grants);
      NoneBefore(kv.data);
      if !grantsDone { return; }
      AllGrantsPurged(old(kv.data), s);
    }
    ghost var swept := kv.data;
    if s.options.orphanedTokens {
      var checked, purged, tokensDone;
      checked, purged, tokensDone, tokens := SweepTokens(kv, batchSize);
      result := result.(tokensChecked := checked, tokensPurged := purged);
      if !tokensDone { return; }
    }
    TokenSweepKeepsGrants(swept, tokens, s);
    result := result.(done := true);
  }

  lemma NothingEnabled(data: Data, s: Sweep)
    ensures !s.options.orphanedGrants && !s.options.expiredGrants ==> PurgeableGrants(data, s) == {}
    ensures {} <= PurgeableGrants(data, s) && {} <= OrphanedTokens(data)
    ensures data - {} == data
  {
  }

  lemma NoneBefore(data: Data)
    ensures {} <= OrphanedTokens(data) && data - {} == data
  {
  }

  lemma AllGrantsPurged(data: Data, s: Sweep)
    requires WellKeyed(data)
    ensures PurgeableGrants(WithoutGrants(data, PurgeableGrants(data, s)), s) == {}
  {
    hide WellKeyed, PurgeableGrant, WithoutGrants;
    var all := PurgeableGrants(data, s);
    forall k | k in WithoutGrants(data, all) && WithoutGrants(data, all)[k].GrantEntry?
      ensures !PurgeableGrant(WithoutGrants(data, all), s, WithoutGrants(data, all)[k].grant)
    {
      StillThere(data, s, all, k);
      PurgeableStays(data, all, s, data[k].grant);
    }
  }

  /** Deleting orphaned tokens leaves grants and clients alone, and makes no new orphans. */
  lemma TokenSweepKeepsGrants(data: Data, tokens: set<string>, s: Sweep)
    requires WellKeyed(data) && tokens <= OrphanedTokens(data)
    ensures PurgeableGrants(data - tokens, s) == PurgeableGrants(data, s)
    ensures OrphanedTokens(data - tokens) == OrphanedTokens(data) - tokens
  {
    hide GrantKey, ClientKey, NoColon;
    forall g: Grant ensures ClientKey(g.clientId) in data - tokens <==> ClientKey(g.clientId) in data {
      KindsDiffer("", "", g.clientId, ClientKey(g.clientId));
    }
    forall t: Token ensures GrantKey(t.userId, t.grantId) in data - tokens <==> GrantKey(t.userId, t.grantId) in data {
      KindsDiffer(t.userId, t.grantId, "", GrantKey(t.userId, t.grantId));
    }
  }

  /** By the fields of the records: only grants are purged that are expired or whose client is missing,
      whichever the options name, and only tokens whose grant is missing afterwards. */
  lemma PurgesByTheRules(before: Data, after: Data, s: Sweep, grants: set<string>, tokens: set<string>)
    requires WellKeyed(before) && PurgedExactly(before, after, s, grants, tokens)
    ensures forall k :: k in grants ==>
      && k in before && before[k].GrantEntry?
      && var g := before[k].grant;
         || (s.options.expiredGrants && g.expiresAt.Some? && g.expiresAt.value <= s.now)
         || (s.options.orphanedGrants && !s.isMetadataUrl(g.clientId) && ClientKey(g.clientId) !in before)
    ensures forall k :: k in tokens ==>
      && s.options.orphanedTokens && k in before && before[k].TokenEntry?
      && GrantKey(before[k].token.userId, before[k].token.grantId) !in after
  {
  }

  /** And when the purge is done, none of them is left. */
  lemma NoneIsLeft(after: Data, s: Sweep)
    requires NothingToPurge(after, s)
    ensures forall k :: k in after && after[k].GrantEntry? ==>
      var g := after[k].grant;
      && (s.options.expiredGrants ==> g.expiresAt.None? || s.now < g.expiresAt.value)
      && (s.options.orphanedGrants ==> s.isMetadataUrl(g.clientId) || ClientKey(g.clientId) in after)
    ensures forall k :: k in after && after[k].TokenEntry? && s.options.orphanedTokens ==>
      GrantKey(after[k].token.userId, after[k].token.grantId) in after
  {
    hide ClientKey, GrantKey;
    forall k | k in after && after[k].GrantEntry? ensures !PurgeableGrant(after, s, after[k].grant) {
      assert k !in PurgeableGrants(after, s);
    }
    forall k | k in after && after[k].TokenEntry? && s.options.orphanedTokens
      ensures !OrphanedToken(after, after[k].token)
    {
      assert k !in OrphanedTokens(after);
    }
  }

  /** A purge removes no grant that is live: every grant that was not purgeable is still there,
      unchanged, and so is every client. */
  lemma LiveGrantsStay(before: Data, after: Data, s: Sweep, grants: set<string>, tokens: set<string>, k: string)
    requires WellKeyed(before) && PurgedExactly(before, after, s, grants, tokens)
    requires k in before && before[k].GrantEntry?
    ensures k in after <==> k !in grants
    ensures !PurgeableGrant(before, s, before[k].grant) ==> k in after && after[k] == before[k]
    ensures forall c :: ClientKey(c) in after <==> ClientKey(c) in before
  {
    hide WellKeyed, ClientKey, PurgeableGrant;
    OnlyPurgedGrantsGo(before, grants, k);
    WellKeyedStays(before, grants);
    forall c ensures ClientKey(c) in after <==> ClientKey(c) in before {
      ClientsStay(before, grants, c);
      ClientIsNoToken(WithoutGrants(before, grants), tokens, c);
    }
  }

  lemma ClientIsNoToken(data: Data, tokens: set<string>, clientId: string)
    requires WellKeyed(data) && tokens <= OrphanedTokens(data)
    ensures ClientKey(clientId) !in tokens
  {
    KindsDiffer("", "", clientId, ClientKey(clientId));
  }

  /** Nor does it remove the access token of a grant that stays, exactly unless the prefix of a purged
      grant covers the token's user id. */
  lemma TokensOfLiveGrantsStay(before: Data, after: Data, s: Sweep, grants: set<string>, tokens: set<string>,
                               k: string, id: string)
    requires WellKeyed(before) && PurgedExactly(before, after, s, grants, tokens)
    requires k in before && before[k].TokenEntry? && NoColon(id) && NoColon(before[k].token.grantId)
    requires k == TokenKey(before[k].token.userId, before[k].token.grantId, id)
    requires GrantKey(before[k].token.userId, before[k].token.grantId) in after
    ensures k in after <==> !CoveredByPurged(before, grants, before[k].token.userId)
    ensures k in after ==> after[k] == before[k]
  {
    hide PurgeableGrant, GrantKey, TokenKey, TokenPrefix, NoColon, Nested, RevokedKey;
    var t, grantKey := before[k].token, GrantKey(before[k].token.userId, before[k].token.grantId);
    assert grantKey in WithoutGrants(before, grants);
    forall p | p in grants && p in before && before[p].GrantEntry?
      ensures RevokedKey(before[p].grant.userId, before[p].grant.id, k) <==>
              Nested(before[p].grant.userId, before[p].grant.id, t.userId)
    {
      var g := before[p].grant;
      OtherGrantsToken(g.userId, g.id, t.userId, t.grantId, id);
      assert grantKey != GrantKey(g.userId, g.id) by { RevokesItself(g.userId, g.id); }
    }
  }

  /** The user id continues the key of a purged grant across a colon. */
  ghost predicate CoveredByPurged(data: Data, grants: set<string>, userId: string) {
    exists p ::
      p in grants && p in data && data[p].GrantEntry? && Nested(data[p].grant.userId, data[p].grant.id, userId)
  }

  lemma RevokesItself(userId: string, grantId: string)
    ensures RevokedKey(userId, grantId, GrantKey(userId, grantId))
  {
  }

  lemma OtherGrantsToken(u: string, g: string, u': string, g': string, id: string)
    requires NoColon(g) && NoColon(g') && NoColon(id)
    ensures RevokedKey(u, g, TokenKey(u', g', id)) ==> Nested(u, g, u') || GrantKey(u, g) == GrantKey(u', g')
    ensures Nested(u, g, u') ==> RevokedKey(u, g, TokenKey(u', g', id))
  {
    PrefixMeansOwner(u, g, u', g', id);
    KindsDiffer(u, g, "", TokenKey(u', g', id));
    KindsDiffer(u', g', "", TokenKey(u', g', id));
  }
}
