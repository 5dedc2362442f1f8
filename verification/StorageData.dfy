/** The rows behind the `storage` capability (packages/server/src/store/StorageData.ts, and the checks
    at its door in packages/server/src/gateway/Internal.ts). */
module StorageData {
  import opened Wrappers
  import opened Lexicographic

  const VALUE_CEILING: nat := 32768
  const LIST_BOUND: nat := 100
  const DEL: char := 0x7f as char

  predicate KeyChar(c: char) {
    'a' <= c <= 'z' || '0' <= c <= '9' || c == ':' || c == '.' || c == '_' || c == '-'
  }

  predicate KeyOk(key: string) {
    key != "" && forall c :: c in key ==> KeyChar(c)
  }

  /** The range scan that stands for a prefix filter. */
  predicate InRange(prefix: string, key: string) {
    AtMost(prefix, key) && Less(key, prefix + [DEL])
  }

  lemma {:induction false} LessByPrefix(prefix: string, key: string)
    ensures AtMost(prefix, key) && Less(key, prefix + [DEL]) <==>
      prefix <= key && (|key| == |prefix| || key[|prefix|] < DEL)
  {
    if prefix == "" {
      assert prefix + [DEL] == [DEL];
    } else {
      assert (prefix + [DEL])[1..] == prefix[1..] + [DEL];
      if key != "" {
        LessByPrefix(prefix[1..], key[1..]);
        assert prefix == [prefix[0]] + prefix[1..] && key == [key[0]] + key[1..];
      }
    }
  }

  /** For any strings at all, the scan finds a key exactly when it is the prefix, or continues it
      with a character below DEL. */
  lemma RangeIsExact(prefix: string, key: string)
    ensures InRange(prefix, key) <==> prefix <= key && (|key| == |prefix| || key[|prefix|] < DEL)
  {
    LessByPrefix(prefix, key);
  }

  /** So for keys that pass the key check, the scan is the prefix filter, whatever the prefix. */
  lemma RangeIsPrefix(prefix: string, key: string)
    requires KeyOk(key)
    ensures InRange(prefix, key) <==> prefix <= key
  {
    RangeIsExact(prefix, key);
    if prefix <= key && |key| > |prefix| { assert key[|prefix|] in key && KeyChar(key[|prefix|]); }
  }

  /** A key outside the charset could be missed: the check at the door is needed. */
  lemma UncheckedKeyIsMissed()
    ensures "a" <= "a" + [DEL] && !InRange("a", "a" + [DEL])
  {
    RangeIsExact("a", "a" + [DEL]);
  }

  datatype StorageError = InvalidStorageKey | StorageValueTooLarge | Malformed

  class Storage {
    var rows: map<string, string>

    /** What the door lets in. */
    ghost predicate Valid()
      reads this
    {
      forall k :: k in rows ==> KeyOk(k) && |rows[k]| <= VALUE_CEILING
    }

    constructor ()
      ensures Valid() && rows == map[]
    {
      rows := map[];
    }

    method Get(key: string) returns (r: Result<Option<string>, StorageError>)
      ensures r == if !KeyOk(key) then Err(InvalidStorageKey) else Ok(if key in rows then Some(rows[key]) else None)
    {
      if !KeyOk(key) { return Err(InvalidStorageKey); }
      return Ok(if key in rows then Some(rows[key]) else None);
    }

    method Set(key: string, value: string) returns (r: Result<(), StorageError>)
      requires Valid()
      modifies this
      ensures Valid()
      ensures r == if !KeyOk(key) then Err(InvalidStorageKey)
                   else if |value| > 32768 then Err(StorageValueTooLarge) else Ok(())
      ensures rows == if r.Ok? then old(rows)[key := value] else old(rows)
    {
      if !KeyOk(key) { return Err(InvalidStorageKey); }
      if |value| > VALUE_CEILING { return Err(StorageValueTooLarge); }
      rows := rows[key := value];
      return Ok(());
    }

    method Delete(key: string) returns (r: Result<bool, StorageError>)
      requires Valid()
      modifies this
      ensures Valid()
      ensures r == if !KeyOk(key) then Err(InvalidStorageKey) else Ok(key in old(rows))
      ensures rows == if r.Ok? then old(rows) - {key} else old(rows)
    {
      var stored := Get(key);
      if stored.Err? { return Err(stored.error); }
      rows := rows - {key};
      return Ok(stored.value.Some?);
    }

    /** The query: keys in the range, in order, at most `limit`. */
    method Select(prefix: string, limit: nat) returns (keys: seq<string>)
      ensures Ascending(keys) && |keys| <= limit
      ensures forall k :: k in keys ==> k in rows && InRange(prefix, k)
      ensures forall k :: k in rows && InRange(prefix, k) && k !in keys ==>
        |keys| == limit && forall p :: p in keys ==> Less(p, k)
    {
      var all := Sorted(set k | k in rows && InRange(prefix, k));
      keys := if |all| <= limit then all else all[..limit];
      assert forall k :: k in keys ==> k in all;
      forall k | k in rows && InRange(prefix, k) && k !in keys
        ensures |keys| == limit && forall p :: p in keys ==> Less(p, k)
      {
        assert k in all;
        var j :| 0 <= j < |all| && all[j] == k;
      }
    }

    /** The first hundred keys under the prefix, in order; marked as cut exactly when there are more. */
    method List(prefix: string) returns (r: Result<(seq<string>, bool), StorageError>)
      requires Valid()
      ensures r.Err? <==> prefix != "" && !KeyOk(prefix)
      ensures r.Ok? ==>
        var (keys, truncated) := r.value;
        && Ascending(keys) && |keys| <= LIST_BOUND
        && (forall k :: k in keys ==> k in rows && prefix <= k)
        && (forall k :: k in rows && prefix <= k && k !in keys ==> |keys| == LIST_BOUND && forall p :: p in keys ==>
              Less(p, k))
        && (truncated <==> exists k :: k in rows && prefix <= k && k !in keys)
    {
      hide Less, AtMost, KeyOk, InRange;
      if prefix != "" && !KeyOk(prefix) { return Err(Malformed); }
      forall k | k in rows ensures InRange(prefix, k) <==> prefix <= k { RangeIsPrefix(prefix, k); }
      var found := Select(prefix, LIST_BOUND + 1);
      if |found| <= LIST_BOUND { return Ok((found, false)); }
      var keys, cut := found[..LIST_BOUND], found[LIST_BOUND];
      assert forall k :: k in keys ==> k in found;
      CutIsGreater(found, LIST_BOUND);
      assert cut in found && cut in rows && prefix <= cut && cut !in keys;
      forall k | k in rows && prefix <= k && k !in keys
        ensures |keys| == LIST_BOUND && forall p :: p in keys ==> Less(p, k)
      {
        if k in found { assert k == cut; }
      }
      return Ok((keys, true));
    }
  }

  lemma CutIsGreater(found: seq<string>, n: nat)
    requires Ascending(found) && |found| == n + 1
    ensures found[n] !in found[..n] && forall p :: p in found[..n] ==> Less(p, found[n])
    ensures forall k :: k in found && k !in found[..n] ==> k == found[n]
  {
    AscendingDiffer(found);
    forall k | k in found && k !in found[..n] ensures k == found[n] {
      assert forall j :: 0 <= j < n ==> found[j] in found[..n];
      var j :| 0 <= j < |found| && found[j] == k;
    }
  }
}
