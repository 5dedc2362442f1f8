/** The KV namespace under its real, textual keys, and the loops that page through it
    (repos/workers-oauth-provider/src/oauth-provider.ts). A listing returns keys in order, and a
    cursor resumes strictly after the last key returned. */
module KvNamespace {
  import opened Wrappers
  import opened OAuthTypes
  import opened Keys
  import opened Lexicographic

  datatype Entry = GrantEntry(grant: Grant) | TokenEntry(token: Token) | ClientEntry | OtherEntry

  type Data = map<string, Entry>

  /** One answer of `list`; it has a cursor exactly when the listing is not complete. */
  datatype Page = Page(keys: seq<string>, cursor: Option<string>)

  const MAX_KV_LIST_LIMIT: nat := 1000
  const DEFAULT_REVOKE_EXISTING_GRANTS_BATCH_SIZE: nat := 50

  predicate Past(cursor: Option<string>, key: string) {
    cursor.None? || Less(cursor.value, key)
  }

  predicate Listed(data: Data, prefix: string, cursor: Option<string>, key: string) {
    key in data && prefix <= key && Past(cursor, key)
  }

  function AllListed(data: Data, prefix: string, cursor: Option<string>): set<string> {
    set k | k in data && Listed(data, prefix, cursor, k)
  }

  /** The first `limit` keys with the prefix, after the cursor. */
  ghost predicate PageOf(data: Data, prefix: string, cursor: Option<string>, limit: nat, page: Page) {
    && Ascending(page.keys) && |page.keys| <= limit
    && (forall k :: k in page.keys ==> Listed(data, prefix, cursor, k))
    && (forall k :: Listed(data, prefix, cursor, k) && k !in page.keys ==>
          |page.keys| == limit && forall p :: p in page.keys ==> Less(p, k))
    && (page.cursor.None? <==> forall k :: Listed(data, prefix, cursor, k) ==> k in page.keys)
    && (page.cursor.Some? ==> page.keys != [] && page.cursor.value == page.keys[|page.keys| - 1])
  }

  /** Going on from a page's cursor visits exactly the keys the page left out, so that a loop over
      pages sees every key once. */
  lemma PageSplits(data: Data, prefix: string, cursor: Option<string>, limit: nat, page: Page)
    requires PageOf(data, prefix, cursor, limit, page)
    ensures forall k :: Listed(data, prefix, cursor, k) <==>
      k in page.keys || (page.cursor.Some? && Listed(data, prefix, page.cursor, k))
    ensures forall k :: k in page.keys && page.cursor.Some? ==> !Past(page.cursor, k)
    ensures page.cursor.Some? ==> AllListed(data, prefix, page.cursor) < AllListed(data, prefix, cursor)
  {
    if page.cursor.Some? {
      var last := page.cursor.value;
      assert Listed(data, prefix, cursor, last);
      LessIrreflexive(last);
      forall k | Listed(data, prefix, page.cursor, k) ensures Listed(data, prefix, cursor, k) {
        if cursor.Some? { LessTransitive(cursor.value, last, k); }
      }
      forall k | k in page.keys ensures !Past(page.cursor, k) {
        var i :| 0 <= i < |page.keys| && page.keys[i] == k;
        if i < |page.keys| - 1 { LessAsymmetric(k, last); }
      }
      assert last in AllListed(data, prefix, cursor) && last !in AllListed(data, prefix, page.cursor);
    }
  }

  lemma ListedKeysExist(data: Data, prefix: string, cursor: Option<string>, limit: nat, page: Page)
    requires PageOf(data, prefix, cursor, limit, page)
    ensures forall k :: k in page.keys ==> k in data
  {
  }

  // ---------------------------------------------------------------- what the loops leave

  /** The keys that the revocation of one grant deletes. */
  predicate RevokedKey(userId: string, grantId: string, key: string) {
    key == GrantKey(userId, grantId) || TokenPrefix(userId, grantId) <= key
  }

  function RevokedData(data: Data, userId: string, grantId: string): Data {
    map k | k in data && !RevokedKey(userId, grantId, k) :: data[k]
  }

  /** Which grants of a listing an authorization replaces. */
  datatype Criterion = Criterion(userId: string, clientId: string, isMetadataClient: bool, redirectUri: string)

  predicate Meets(c: Criterion, g: Grant) {
    g.clientId == c.clientId && (c.isMetadataClient ==> g.redirectUri == Some(c.redirectUri))
  }

  predicate ToRevokeAt(data: Data, c: Criterion, key: string, id: string) {
    && key in data && GrantPrefix(c.userId) <= key && data[key].GrantEntry?
    && data[key].grant.id == id && data[key].grant.clientId == c.clientId
    && (c.isMetadataClient ==> data[key].grant.redirectUri == Some(c.redirectUri))
  }

  ghost predicate ToRevoke(data: Data, c: Criterion, id: string) {
    exists key :: ToRevokeAt(data, c, key, id)
  }

  function GrantsAt(data: Data, keys: seq<string>): seq<Grant>
    requires forall k :: k in keys ==> k in data
  {
    if keys == [] then []
    else (if data[keys[0]].GrantEntry? then [data[keys[0]].grant] else []) + GrantsAt(data, keys[1..])
  }

  lemma {:induction false} GrantsAtMembers(data: Data, keys: seq<string>)
    requires forall k :: k in keys ==> k in data
    ensures forall g :: g in GrantsAt(data, keys) <==> exists k :: k in keys && data[k] == GrantEntry(g)
  {
    if keys != [] {
      GrantsAtMembers(data, keys[1..]);
      assert forall g :: (exists k :: k in keys && data[k] == GrantEntry(g)) <==>
          (data[keys[0]] == GrantEntry(g) || exists k :: k in keys[1..] && data[k] == GrantEntry(g));
    }
  }

  lemma NextGrant(data: Data, keys: seq<string>, i: nat)
    requires i < |keys| && forall k :: k in keys ==> k in data
    ensures GrantsAt(data, keys[i..]) ==
      if data[keys[i]].GrantEntry? then [data[keys[i]].grant] + GrantsAt(data, keys[i + 1..])
      else GrantsAt(data, keys[i + 1..])
  {
  }

  lemma NoMoreGrants(data: Data, keys: seq<string>)
    requires forall k :: k in keys ==> k in data
    ensures GrantsAt(data, keys[|keys|..]) == []
  {
  }

  class Namespace {
    var data: Data

    constructor ()
      ensures data == map[]
    {
      data := map[];
    }

    /** KV's own `list`. */
    method List(prefix: string, cursor: Option<string>, limit: nat) returns (page: Page)
      requires limit > 0
      ensures PageOf(data, prefix, cursor, limit, page)
    {
      var rest := AllListed(data, prefix, cursor);
      var keys := [];
      while rest != {} && |keys| < limit
        invariant |keys| <= limit && Ascending(keys)
        invariant forall k :: k in rest ==> Listed(data, prefix, cursor, k) && k !in keys
        invariant forall k :: k in keys ==> Listed(data, prefix, cursor, k)
        invariant forall k :: Listed(data, prefix, cursor, k) ==> k in keys || k in rest
        invariant forall p, k :: p in keys && k in rest ==> Less(p, k)
        decreases rest
      {
        var k := Least(rest);
        LessIrreflexive(k);
        keys := keys + [k];
        rest := rest - {k};
      }
      if rest == {} {
        page := Page(keys, None);
      } else {
        var left: string :| left in rest;
        page := Page(keys, Some(keys[|keys| - 1]));
        assert Listed(data, prefix, cursor, left) && left !in keys;
      }
    }

    /** `revokeGrant`: page through the grant's tokens and delete them, then delete the grant. */
    method RevokeGrant(grantId: string, userId: string)
      modifies this
      ensures data == RevokedData(old(data), userId, grantId)
    {
      var tokenPrefix := TokenPrefix(userId, grantId);
      var cursor: Option<string>, allTokensDeleted := None, false;
      while !allTokensDeleted
        invariant forall k :: k in data ==> k in old(data) && data[k] == old(data)[k]
        invariant forall k :: k in old(data) && !(tokenPrefix <= k) ==> k in data
        invariant forall k :: k in data && tokenPrefix <= k ==> !allTokensDeleted && Past(cursor, k)
        decreases data.Keys, !allTokensDeleted
      {
        var page := List(tokenPrefix, cursor, MAX_KV_LIST_LIMIT);
        PageSplits(data, tokenPrefix, cursor, MAX_KV_LIST_LIMIT, page);
        ghost var before := data;
        data := map k | k in data && k !in page.keys :: data[k];
        assert forall k :: k in data && tokenPrefix <= k ==> Listed(before, tokenPrefix, cursor, k);
        if page.cursor.None? {
          allTokensDeleted := true;
        } else {
          assert page.keys[0] in page.keys && Listed(before, tokenPrefix, cursor, page.keys[0]);
          assert page.keys[0] in before.Keys && page.keys[0] !in data.Keys;
          cursor := page.cursor;
        }
      }
      data := data - {GrantKey(userId, grantId)};
    }

    method ListUserGrants(userId: string, cursor: Option<string>, limit: nat)
      returns (items: seq<Grant>, next: Option<string>, ghost page: Page)
      requires limit > 0
      ensures PageOf(data, GrantPrefix(userId), cursor, limit, page) && next == page.cursor
      ensures forall k :: k in page.keys ==> k in data
      ensures items == GrantsAt(data, page.keys)
      ensures forall g :: g in items ==>
        exists k :: Listed(data, GrantPrefix(userId), cursor, k) && data[k] == GrantEntry(g)
      ensures next.None? ==>
        forall k :: Listed(data, GrantPrefix(userId), cursor, k) && data[k].GrantEntry? ==> data[k].grant in items
    {
      hide PageOf, Listed, GrantsAt, GrantPrefix;
      var response := List(GrantPrefix(userId), cursor, limit);
      ListedKeysExist(data, GrantPrefix(userId), cursor, limit, response);
      page, next := response, response.cursor;
      items := GrantSummaries(response.keys);
      GrantsAtMembers(data, response.keys);
    }

    method GrantSummaries(keys: seq<string>) returns (items: seq<Grant>)
      requires forall k :: k in keys ==> k in data
      ensures items == GrantsAt(data, keys)
    {
      hide GrantsAt;
      items := [];
      assert keys[0..] == keys;
      for i := 0 to |keys|
        invariant items + GrantsAt(data, keys[i..]) == GrantsAt(data, keys)
      {
        NextGrant(data, keys, i);
        if data[keys[i]].GrantEntry? {
          ghost var rest := GrantsAt(data, keys[i + 1..]);
          assert items + ([data[keys[i]].grant] + rest) == items + [data[keys[i]].grant] + rest;
          items := items + [data[keys[i]].grant];
        }
      }
      NoMoreGrants(data, keys);
    }

    /** The existing grants of this user and client, collected page by page before the new one is stored. */
    method CollectGrantsToRevoke(c: Criterion, batchSize: Option<int>) returns (r: Result<seq<string>, Error>)
      ensures r.Err? <==> batchSize.Some? && batchSize.value < 1
      ensures r.Ok? ==> forall id :: id in r.value <==> ToRevoke(data, c, id)
    {
      if batchSize.Some? && batchSize.value < 1 { return Err(InvalidRequest); }
      var limit := if batchSize.None? then DEFAULT_REVOKE_EXISTING_GRANTS_BATCH_SIZE
                   else Min(batchSize.value, MAX_KV_LIST_LIMIT);
      var prefix := GrantPrefix(c.userId);
      var cursor: Option<string>, grantsToRevoke, more := None, [], true;
      while more
        invariant forall id :: id in grantsToRevoke ==> ToRevoke(data, c, id)
        invariant forall k, id :: ToRevokeAt(data, c, k, id) ==> id in grantsToRevoke || (more && Past(cursor, k))
        decreases more, AllListed(data, prefix, cursor)
      {
        var items, next, page := ListUserGrants(c.userId, cursor, limit);
        PageSplits(data, prefix, cursor, limit, page);
        var found := SelectIds(items, c);
        GrantsAtMembers(data, page.keys);
        forall id | id in found ensures ToRevoke(data, c, id) {
          var g :| g in items && g.id == id && Meets(c, g);
          var k :| k in page.keys && data[k] == GrantEntry(g);
          assert ToRevokeAt(data, c, k, id);
        }
        forall k, id | ToRevokeAt(data, c, k, id) && k in page.keys ensures id in found {
          assert data[k].grant in items;
        }
        forall k, id | ToRevokeAt(data, c, k, id)
          ensures id in grantsToRevoke + found || (next.Some? && Past(next, k))
        {
          if Past(cursor, k) { assert Listed(data, prefix, cursor, k); }
        }
        grantsToRevoke := grantsToRevoke + found;
        cursor, more := next, next.Some?;
      }
      return Ok(grantsToRevoke);
    }

    method SelectIds(items: seq<Grant>, c: Criterion) returns (ids: seq<string>)
      ensures forall id :: id in ids <==> exists g :: g in items && g.id == id && Meets(c, g)
    {
      ids := [];
      for i := 0 to |items|
        invariant forall id :: id in ids ==> exists g :: g in items && g.id == id && Meets(c, g)
        invariant forall j :: 0 <= j < i && Meets(c, items[j]) ==> items[j].id in ids
      {
        if Meets(c, items[i]) { ids := ids + [items[i].id]; }
      }
    }

    method RevokeGrants(ids: seq<string>, userId: string)
      modifies this
      ensures data == map k | k in old(data) && !(exists id :: id in ids && RevokedKey(userId, id, k)) :: old(data)[k]
    {
      for i := 0 to |ids|
        invariant data == map k | k in old(data) && !(exists id :: id in ids[..i] && RevokedKey(userId, id, k)) ::
          old(data)[k]
      {
        ghost var before := data;
        RevokeGrant(ids[i], userId);
        assert ids[..i + 1] == ids[..i] + [ids[i]];
      }
      assert ids[..|ids|] == ids;
    }

    /** The storage side of `completeAuthorization`: collect, store the new records, then revoke
        what was collected. A bad batch size fails before anything is stored. */
    method CompleteAuthorization(c: Criterion, revokeExistingGrants: bool, batchSize: Option<int>,
                                 newRecords: map<string, Entry>) returns (ok: bool)
      modifies this
      ensures ok <==> !(revokeExistingGrants && batchSize.Some? && batchSize.value < 1)
      ensures !ok ==> data == old(data)
      ensures ok ==> data == AuthorizedData(old(data), c, revokeExistingGrants, newRecords)
    {
      var grantsToRevoke := [];
      if revokeExistingGrants {
        var collected := CollectGrantsToRevoke(c, batchSize);
        if collected.Err? { return false; }
        grantsToRevoke := collected.value;
      }
      data := data + newRecords;
      RevokeGrants(grantsToRevoke, c.userId);
      return true;
    }
  }

  ghost predicate Swept(data: Data, c: Criterion, key: string) {
    exists id :: ToRevoke(data, c, id) && RevokedKey(c.userId, id, key)
  }

  ghost function AuthorizedData(data: Data, c: Criterion, revokeExistingGrants: bool,
                                newRecords: map<string, Entry>): Data
  {
    var stored := data + newRecords;
    map k | k in stored && !(revokeExistingGrants && Swept(data, c, k)) :: stored[k]
  }
}
