/** The names of KV records and what a prefix of such a name says
    (repos/workers-oauth-provider/src/oauth-provider.ts). */
module Keys {

  predicate NoColon(s: string) { ':' !in s }

  function GrantPrefix(userId: string): string { "grant:" + userId + ":" }

  function GrantKey(userId: string, grantId: string): string { GrantPrefix(userId) + grantId }

  function TokenPrefix(userId: string, grantId: string): string { "token:" + userId + ":" + grantId + ":" }

  function TokenKey(userId: string, grantId: string, id: string): string { TokenPrefix(userId, grantId) + id }

  function ClientKey(clientId: string): string { "client:" + clientId }

  /** The user id `other` continues `userId:grantId`, so its keys look like keys of that grant. */
  predicate Nested(userId: string, grantId: string, other: string) {
    other == userId + ":" + grantId || userId + ":" + grantId + ":" <= other
  }

  lemma NoColonPast(before: string, part: string, after: string)
    requires NoColon(part)
    ensures forall i :: |before| <= i < |before| + |part| ==> (before + part + after)[i] != ':'
  {
  }

  /** A name is split at its last colon. */
  lemma LastColon(a: string, x: string, b: string, y: string)
    requires NoColon(x) && NoColon(y) && a + ":" + x == b + ":" + y
    ensures a == b && x == y
  {
    var s := a + ":" + x;
    assert s[|a|] == ':' && s[|b|] == ':';
    NoColonPast(a + ":", x, "");
    NoColonPast(b + ":", y, "");
    assert s == (a + ":") + x + "" && s == (b + ":") + y + "";
    assert a == s[..|a|] && b == s[..|a|];
    assert x == s[|a| + 1..] && y == s[|a| + 1..];
  }

  lemma GrantKeyInjective(u: string, g: string, u': string, g': string)
    requires NoColon(g) && NoColon(g') && GrantKey(u, g) == GrantKey(u', g')
    ensures u == u' && g == g'
  {
    assert GrantKey(u, g) == ("grant:" + u) + ":" + g && GrantKey(u', g') == ("grant:" + u') + ":" + g';
    LastColon("grant:" + u, g, "grant:" + u', g');
    assert ("grant:" + u)[6..] == u && ("grant:" + u')[6..] == u';
  }

  /** Exactly which token keys carry a grant's prefix: the grant's own, and those of user ids that
      are nested under it. Grant ids and token ids are colon-free by construction; user ids need not be. */
  lemma PrefixMeansOwner(u: string, g: string, u': string, g': string, id: string)
    requires NoColon(g) && NoColon(g') && NoColon(id)
    ensures TokenPrefix(u, g) <= TokenKey(u', g', id) <==> (u == u' && g == g') || Nested(u, g, u')
  {
    var l, r := u + ":" + g + ":", u' + ":" + g' + ":" + id;
    assert TokenPrefix(u, g) == "token:" + l && TokenKey(u', g', id) == "token:" + r;
    assert TokenPrefix(u, g) <= TokenKey(u', g', id) <==> l <= r by {
      assert ("token:" + r)[..6] == "token:" && ("token:" + l)[6..] == l && ("token:" + r)[6..] == r;
      if "token:" + l <= "token:" + r {
        assert l == ("token:" + r)[..6 + |l|][6..];
        assert l == r[..|l|];
      }
    }
    if l <= r { PrefixImpliesOwner(u, g, u', g', id); }
    if Nested(u, g, u') { NestedImpliesPrefix(u, g, u', g', id); }
  }

  lemma NestedImpliesPrefix(u: string, g: string, u': string, g': string, id: string)
    requires Nested(u, g, u')
    ensures u + ":" + g + ":" <= u' + ":" + g' + ":" + id
  {
  }

  lemma PrefixImpliesOwner(u: string, g: string, u': string, g': string, id: string)
    requires NoColon(g) && NoColon(g') && NoColon(id)
    requires u + ":" + g + ":" <= u' + ":" + g' + ":" + id
    ensures (u == u' && g == g') || Nested(u, g, u')
  {
    var l, r := u + ":" + g + ":", u' + ":" + g' + ":" + id;
    var at := |l| - 1;                       // the colon that ends the prefix
    assert l[at] == ':' && r[at] == l[at];
    var last := |u'| + 1 + |g'|;             // the last colon of the key
    NoColonPast(u' + ":" + g' + ":", id, "");
    assert r == (u' + ":" + g' + ":") + id + "";
    NoColonPast(u' + ":", g', ":" + id);
    assert r == (u' + ":") + g' + (":" + id);
    assert at == last || at <= |u'|;
    if at == last {
      assert u + ":" + g == l[..at] && u' + ":" + g' == r[..at];
      LastColon(u, g, u', g');
    } else if at == |u'| {
      assert u + ":" + g == l[..at] && u' == r[..at];
    } else {
      assert u'[..|l|] == r[..|l|];
    }
  }

  lemma ColonFreeIsNotNested(u: string, g: string, u': string)
    requires NoColon(u')
    ensures !Nested(u, g, u')
  {
    var colon := (u + ":")[|u|];
    assert u + ":" <= u' ==> colon in u';
    assert u + ":" <= u + ":" + g <= u + ":" + g + ":";
  }

  /** A colon in a user id does matter: revoking grant `b` of user `a` reaches the tokens of user `a:b`. */
  lemma ColonsCollide()
    ensures TokenPrefix("a", "b") <= TokenKey("a:b", "g", "h")
  {
  }

  /** The listing of a user's grants reaches exactly the users whose id is, or continues, `u:`. */
  lemma GrantPrefixMeansUser(u: string, u': string, g': string)
    requires NoColon(g')
    ensures GrantPrefix(u) <= GrantKey(u', g') <==> u == u' || u + ":" <= u'
  {
    var l, r := u + ":", u' + ":" + g';
    assert GrantPrefix(u) == "grant:" + l && GrantKey(u', g') == "grant:" + r;
    assert GrantPrefix(u) <= GrantKey(u', g') <==> l <= r by {
      assert ("grant:" + r)[..6] == "grant:" && ("grant:" + l)[6..] == l && ("grant:" + r)[6..] == r;
      if "grant:" + l <= "grant:" + r {
        assert l == ("grant:" + r)[..6 + |l|][6..];
        assert l == r[..|l|];
      }
    }
    if l <= r {
      assert r[|u|] == l[|u|] == ':';
      NoColonPast(u' + ":", g', "");
      assert r == (u' + ":") + g' + "";
      if |u| == |u'| {
        assert u == r[..|u|] == u';
      } else {
        assert l == r[..|l|] == u'[..|l|];
      }
    }
    if u + ":" <= u' { assert r == u' + (":" + g'); }
  }

  lemma KindsDiffer(u: string, g: string, c: string, k: string)
    ensures GrantKey(u, g)[0] == 'g' && ClientKey(c)[0] == 'c' && TokenPrefix(u, g)[0] == 't'
    ensures TokenPrefix(u, g) <= k ==> "token:" <= k
    ensures "grant:" <= GrantKey(u, g) && "token:" <= TokenPrefix(u, g)
    ensures "token:" <= k ==> k != GrantKey(u, g) && k != ClientKey(c)
  {
  }
}
