/** The fetch gateway and the vault it asks: scan, then policy, then substitute
    (packages/server/src/gateway/Gateway.ts, packages/server/src/vault/OwnerVault.ts). */
module Gateway {
  import opened Wrappers
  import opened Manifest
  import opened Placeholder

  datatype Reason = UnknownName | NotApproved
  datatype Unresolved = Unresolved(name: string, reason: Reason)
  datatype Resolution = Resolved(values: map<string, string>) | Unresolvable(unresolved: seq<Unresolved>)

  function Lower(text: string): (lower: string)
    ensures |lower| == |text|
  {
    seq(|text|, i requires 0 <= i < |text| => if 'A' <= text[i] <= 'Z' then (text[i] as int + 32) as char else text[i])
  }

  const CAPITALS := "ABCDEFGHIJKLMNOPQRSTUVWXYZ"
  const SMALL_LETTERS := "abcdefghijklmnopqrstuvwxyz"

  /** Each capital turns into its small letter and everything else stays, so a host in lower case stays
      as it is and two spellings of a host that differ only in case meet. */
  lemma LowerIsLowerCase(text: string)
    ensures forall i, k :: 0 <= i < |text| && 0 <= k < 26 && text[i] == CAPITALS[k] ==>
      Lower(text)[i] == SMALL_LETTERS[k]
    ensures forall i :: 0 <= i < |text| && text[i] !in CAPITALS ==> Lower(text)[i] == text[i]
    ensures (forall c :: c in text ==> c !in CAPITALS) ==> Lower(text) == text
  {
    assert forall k :: 0 <= k < 26 ==> CAPITALS[k] as int == 65 + k && SMALL_LETTERS[k] as int == 97 + k;
    forall c: char | 'A' <= c <= 'Z' ensures c in CAPITALS { assert CAPITALS[c as int - 65] == c; }
    if forall c :: c in text ==> c !in CAPITALS {
      assert forall i :: 0 <= i < |text| ==> text[i] in text;
      assert Lower(text) == text;
    }
  }

  /** One saved credential: its approved hosts, and its value unless the row refuses to decrypt. */
  datatype Credential = Credential(hosts: seq<string>, value: Option<string>)

  type Credentials = map<string, Credential>

  predicate Approved(saved: Credentials, name: string, host: string) {
    name in saved && Lower(host) in saved[name].hosts
  }

  predicate Readable(saved: Credentials, name: string) {
    name in saved && saved[name].value.Some?
  }

  /** The names that policy refuses, each with its reason, in the order they were asked for. */
  function Refusals(saved: Credentials, names: seq<string>, host: string): seq<Unresolved> {
    if names == [] then []
    else
      (if names[0] !in saved then [Unresolved(names[0], UnknownName)]
       else if Lower(host) !in saved[names[0]].hosts then [Unresolved(names[0], NotApproved)] else [])
      + Refusals(saved, names[1..], host)
  }

  lemma {:induction false} RefusalsAreExact(saved: Credentials, names: seq<string>, host: string)
    ensures forall n :: Unresolved(n, UnknownName) in Refusals(saved, names, host) <==> n in names && n !in saved
    ensures forall n :: Unresolved(n, NotApproved) in Refusals(saved, names, host) <==>
      n in names && n in saved && !Approved(saved, n, host)
    ensures Refusals(saved, names, host) == [] <==> forall n :: n in names ==> Approved(saved, n, host)
  {
    if names != [] {
      RefusalsAreExact(saved, names[1..], host);
      assert names == [names[0]] + names[1..];
    }
  }

  lemma NextRefusal(saved: Credentials, names: seq<string>, i: nat, host: string)
    requires i < |names|
    ensures Refusals(saved, names[i..], host) ==
      (if names[i] !in saved then [Unresolved(names[i], UnknownName)]
       else if Lower(host) !in saved[names[i]].hosts then [Unresolved(names[i], NotApproved)] else [])
      + Refusals(saved, names[i + 1..], host)
  {
  }

  lemma NoRefusals(saved: Credentials, names: seq<string>, host: string)
    ensures Refusals(saved, names[|names|..], host) == []
  {
  }

  /** The one name under which a plain object does not keep a text. */
  const PROTO := "__proto__"

  /** The property assignment `values[name] = value` on a plain object. */
  function Assigned(values: map<string, string>, name: string, value: string): map<string, string> {
    if name == PROTO then values else values[name := value]
  }

  function ReadableValues(saved: Credentials, names: seq<string>): map<string, string> {
    map n | n in names && n != PROTO && Readable(saved, n) :: saved[n].value.value
  }

  /** What the vault hands out for redaction and substitution. */
  function VaultValues(saved: Credentials): map<string, string> {
    map n | n in saved && n != PROTO && saved[n].value.Some? :: saved[n].value.value
  }

  class OwnerVault {
    var saved: Credentials
    /** Every name whose value was ever decrypted for a request. */
    ghost var materialized: seq<string>

    constructor (saved: Credentials)
      ensures this.saved == saved && materialized == []
    {
      this.saved, materialized := saved, [];
    }

    method Decrypt(name: string) returns (value: Option<string>)
      requires name in saved
      modifies `materialized
      ensures value == saved[name].value && materialized == old(materialized) + [name]
    {
      materialized := materialized + [name];
      return saved[name].value;
    }

    /** First every name is held against policy. */
    method CheckPolicy(names: seq<string>, host: string) returns (unresolved: seq<Unresolved>)
      ensures unresolved == Refusals(saved, names, host)
    {
      hide Lower, Refusals;
      unresolved := [];
      assert names[0..] == names;
      for i := 0 to |names|
        invariant unresolved + Refusals(saved, names[i..], host) == Refusals(saved, names, host)
      {
        NextRefusal(saved, names, i, host);
        if names[i] !in saved {
          unresolved := unresolved + [Unresolved(names[i], UnknownName)];
        } else if Lower(host) !in saved[names[i]].hosts {
          unresolved := unresolved + [Unresolved(names[i], NotApproved)];
        }
      }
      NoRefusals(saved, names, host);
    }

    /** Then the values are decrypted; a row that refuses counts as never saved. */
    method ReadValues(names: seq<string>) returns (values: map<string, string>, unresolved: seq<Unresolved>)
      requires forall n :: n in names ==> n in saved
      modifies `materialized
      ensures materialized == old(materialized) + names
      ensures values == ReadableValues(saved, names)
      ensures forall u :: u in unresolved <==> u.reason == UnknownName && u.name in names && !Readable(saved, u.name)
    {
      values, unresolved := map[], [];
      for i := 0 to |names|
        invariant materialized == old(materialized) + names[..i]
        invariant forall u :: u in unresolved <==>
          u.reason == UnknownName && u.name in names[..i] && !Readable(saved, u.name)
        invariant values == ReadableValues(saved, names[..i])
      {
        assert names[..i + 1] == names[..i] + [names[i]] && names[i] in names;
        var value := Decrypt(names[i]);
        if value.None? {
          unresolved := unresolved + [Unresolved(names[i], UnknownName)];
        } else {
          values := Assigned(values, names[i], value.value);
        }
      }
      assert names[..|names|] == names;
    }

    /** Resolved exactly when every name is saved, approved for the host and readable; and while any
        name is refused by policy, no value at all is decrypted. */
    method ResolveForHost(names: seq<string>, host: string) returns (r: Resolution)
      modifies `materialized
      ensures r.Resolved? <==> forall n :: n in names ==> Approved(saved, n, host) && Readable(saved, n)
      ensures r.Resolved? ==> forall n :: n in r.values <==> n in names && n != PROTO
      ensures r.Resolved? ==> forall n :: n in r.values ==> r.values[n] == saved[n].value.value
      ensures var refused := Refusals(saved, names, host);
        if refused != [] then r == Unresolvable(refused) && materialized == old(materialized)
        else
          && materialized == old(materialized) + names
          && (forall n :: n in names ==> Approved(saved, n, host))
          && (r.Unresolvable? ==>
                forall u :: u in r.unresolved <==>
                  u.reason == UnknownName && u.name in names && !Readable(saved, u.name))
    {
      hide Lower, Refusals;
      var unresolved := CheckPolicy(names, host);
      RefusalsAreExact(saved, names, host);
      if |unresolved| > 0 { return Unresolvable(unresolved); }
      assert forall n :: n in names ==> Approved(saved, n, host);
      var values;
      values, unresolved := ReadValues(names);
      assert forall n :: n in names && !Readable(saved, n) ==> Unresolved(n, UnknownName) in unresolved;
      if |unresolved| > 0 {
        assert unresolved[0] in unresolved;
        return Unresolvable(unresolved);
      }
      return Resolved(values);
    }

    /** Every readable value in the vault that a plain object keeps, for redaction. */
    method AllValues() returns (values: map<string, string>)
      modifies `materialized
      ensures values == VaultValues(saved)
    {
      values := map[];
      var rest := saved.Keys;
      while rest != {}
        invariant rest <= saved.Keys
        invariant values == map n | n in saved.Keys - rest && n != PROTO && saved[n].value.Some? :: saved[n].value.value
        decreases rest
      {
        var name :| name in rest;
        var value := Decrypt(name);
        if value.Some? { values := Assigned(values, name, value.value); }
        rest := rest - {name};
      }
    }
  }

  // ---------------------------------------------------------------- braces in a URL

  predicate Encodes(text: string, digit: char, lower: char) {
    |text| >= 3 && text[0] == '%' && text[1] == '7' && (text[2] == digit || text[2] == lower)
  }

  lemma EncodesConcat(a: string, b: string, digit: char, lower: char)
    requires a != "" && (b == "" || (b[0] != '7' && b[0] != digit && b[0] != lower))
    ensures Encodes(a + b, digit, lower) <==> Encodes(a, digit, lower)
  {
    assert forall i :: 0 <= i < |a| ==> (a + b)[i] == a[i];
    assert b != "" ==> (a + b)[|a|] == b[0];
  }

  /** `text.replace(/%7X/gi, c)`. */
  function Decoded(text: string, digit: char, lower: char, c: char): string
    decreases |text|
  {
    if Encodes(text, digit, lower)
    then [c] + Decoded(text[3..], digit, lower, c)
    else if text == "" then "" else [text[0]] + Decoded(text[1..], digit, lower, c)
  }

  function Debraced(url: string): string {
    Decoded(Decoded(url, 'B', 'b', '{'), 'D', 'd', '}')
  }

  lemma {:induction false} DecodedConcat(a: string, b: string, digit: char, lower: char, c: char)
    requires b == "" || (b[0] != '7' && b[0] != digit && b[0] != lower)
    ensures Decoded(a + b, digit, lower, c) == Decoded(a, digit, lower, c) + Decoded(b, digit, lower, c)
    decreases |a|
  {
    if a == "" {
      assert a + b == b;
    } else {
      EncodesConcat(a, b, digit, lower);
      var n := if Encodes(a, digit, lower) then 3 else 1;
      assert (a + b)[n..] == a[n..] + b;
      DecodedConcat(a[n..], b, digit, lower, c);
    }
  }

  /** Each encoding turns into its character, wherever it stands, and a text without one stays. */
  lemma EncodingsDecoded(text: string, digit: char, lower: char, c: char)
    requires digit != '%' && lower != '%'
    ensures forall i :: 0 <= i < |text| && Encodes(text[i..], digit, lower) ==>
      Decoded(text, digit, lower, c) ==
      Decoded(text[..i], digit, lower, c) + ([c] + Decoded(text[i + 3..], digit, lower, c))
    ensures (forall i :: 0 <= i < |text| ==> !Encodes(text[i..], digit, lower)) ==>
      Decoded(text, digit, lower, c) == text
  {
    forall i | 0 <= i < |text| && Encodes(text[i..], digit, lower)
      ensures Decoded(text, digit, lower, c) ==
              Decoded(text[..i], digit, lower, c) + ([c] + Decoded(text[i + 3..], digit, lower, c))
    {
      assert text == text[..i] + text[i..] && text[i..][3..] == text[i + 3..];
      DecodedConcat(text[..i], text[i..], digit, lower, c);
    }
    if forall i :: 0 <= i < |text| ==> !Encodes(text[i..], digit, lower) { NothingToDecode(text, digit, lower, c); }
  }

  lemma {:induction false} NothingToDecode(text: string, digit: char, lower: char, c: char)
    requires forall i :: 0 <= i < |text| ==> !Encodes(text[i..], digit, lower)
    ensures Decoded(text, digit, lower, c) == text
  {
    if text != "" {
      assert text[0..] == text;
      forall i | 0 <= i < |text[1..]| ensures !Encodes(text[1..][i..], digit, lower) {
        assert text[1..][i..] == text[i + 1..];
      }
      NothingToDecode(text[1..], digit, lower, c);
    }
  }

  /** `%7B` or `%7D`, in either case, stands in the text at `i`. */
  predicate BraceAt(text: string, i: nat) {
    i + 3 <= |text| && text[i] == '%' && text[i + 1] == '7' && text[i + 2] in {'B', 'b', 'D', 'd'}
  }

  /** A URL without encoded braces is scanned and sent as it is, whatever else is encoded in it. */
  lemma OtherEncodingsStay(url: string)
    requires forall i: nat :: !BraceAt(url, i)
    ensures Debraced(url) == url
  {
    forall i | 0 <= i < |url| ensures !Encodes(url[i..], 'B', 'b') && !Encodes(url[i..], 'D', 'd') {
      assert !BraceAt(url, i);
    }
    EncodingsDecoded(url, 'B', 'b', '{');
    EncodingsDecoded(url, 'D', 'd', '}');
  }

  lemma {:induction false} PlainStays(plain: string, rest: string, digit: char, lower: char, c: char)
    requires '%' !in plain
    ensures Decoded(plain + rest, digit, lower, c) == plain + Decoded(rest, digit, lower, c)
  {
    if plain == "" {
      assert plain + rest == rest;
    } else {
      assert (plain + rest)[1..] == plain[1..] + rest;
      PlainStays(plain[1..], rest, digit, lower, c);
    }
  }

  lemma TwoBracesDecoded(x: char, y: char, rest: string, digit: char, lower: char, c: char)
    requires x in {digit, lower} && y in {digit, lower}
    ensures Decoded(Escape(x) + (Escape(y) + rest), digit, lower, c) == [c, c] + Decoded(rest, digit, lower, c)
  {
  }

  function Escape(digit: char): string { ['%', '7', digit] }

  /** A placeholder with its four braces percent-encoded, each in upper or lower case. */
  function Encoded(open: (char, char), name: string, close: (char, char), after: string): string {
    Escape(open.0) + (Escape(open.1) + ("credential:" + name + (Escape(close.0) + (Escape(close.1) + after))))
  }

  predicate BraceDigits(open: (char, char), close: (char, char)) {
    open.0 in {'B', 'b'} && open.1 in {'B', 'b'} && close.0 in {'D', 'd'} && close.1 in {'D', 'd'}
  }

  lemma FirstPass(before: string, open: (char, char), name: string, close: (char, char), after: string)
    requires '%' !in name && BraceDigits(open, close)
    ensures Decoded(before + Encoded(open, name, close, after), 'B', 'b', '{') ==
      Decoded(before, 'B', 'b', '{')
      + ("{{credential:" + name + (Escape(close.0) + (Escape(close.1) + Decoded(after, 'B', 'b', '{'))))
  {
    hide Decoded, Escape;
    var plain, tail := "credential:" + name, Escape(close.0) + (Escape(close.1) + after);
    assert Encoded(open, name, close, after)[0] == '%' by {
      assert Escape(open.0)[0] == '%' by { EscapeStarts(open.0); }
    }
    DecodedConcat(before, Encoded(open, name, close, after), 'B', 'b', '{');
    TwoBracesDecoded(open.0, open.1, plain + tail, 'B', 'b', '{');
    PlainStays(plain, tail, 'B', 'b', '{');
    ClosingBraceStays(close.0, Escape(close.1) + after);
    ClosingBraceStays(close.1, after);
    assert "{{" + (plain + Decoded(tail, 'B', 'b', '{')) == "{{credential:" + name + Decoded(tail, 'B', 'b', '{');
  }

  lemma EscapeStarts(digit: char)
    ensures |Escape(digit)| == 3 && Escape(digit)[0] == '%'
  {
  }

  lemma SecondPass(start: string, name: string, close: (char, char), after: string)
    requires '%' !in name && close.0 in {'D', 'd'} && close.1 in {'D', 'd'}
    ensures Decoded(start + ("{{credential:" + name + (Escape(close.0) + (Escape(close.1) + after))), 'D', 'd', '}') ==
      Decoded(start, 'D', 'd', '}') + (Token(name) + Decoded(after, 'D', 'd', '}'))
  {
    hide Decoded, Escape;
    var tail := Escape(close.0) + (Escape(close.1) + after);
    DecodedConcat(start, "{{credential:" + name + tail, 'D', 'd', '}');
    PlainStays("{{credential:" + name, tail, 'D', 'd', '}');
    TwoBracesDecoded(close.0, close.1, after, 'D', 'd', '}');
    assert Token(name) + Decoded(after, 'D', 'd', '}') ==
      "{{credential:" + name + ("}}" + Decoded(after, 'D', 'd', '}'));
  }

  /** A placeholder whose braces the URL parser percent-encoded is found all the same. */
  lemma EncodedPlaceholderIsFound(before: string, open: (char, char), name: string, close: (char, char), after: string)
    requires NameOk(name) && BraceDigits(open, close)
    ensures Mentions(Debraced(before + Encoded(open, name, close, after)), name)
  {
    hide Decoded, Encoded, Token;
    assert '%' !in name by { assert !NameChar('%'); }
    FirstPass(before, open, name, close, after);
    SecondPass(Decoded(before, 'B', 'b', '{'), name, close, Decoded(after, 'B', 'b', '{'));
    var left := Decoded(Decoded(before, 'B', 'b', '{'), 'D', 'd', '}');
    var end := Decoded(Decoded(after, 'B', 'b', '{'), 'D', 'd', '}');
    var result := Debraced(before + Encoded(open, name, close, after));
    assert result == left + (Token(name) + end) && result[|left|..] == Token(name) + end;
    assert OccursAt(result, |left|, name);
  }

  lemma ClosingBraceStays(x: char, rest: string)
    requires x in {'D', 'd'}
    ensures Decoded(Escape(x) + rest, 'B', 'b', '{') == Escape(x) + Decoded(rest, 'B', 'b', '{')
  {
    assert (Escape(x) + rest)[1..] == ['7', x] + rest;
    PlainStays(['7', x], rest, 'B', 'b', '{');
  }

  // ---------------------------------------------------------------- the route

  /** A request as it arrives; the text of a body is there when its bytes decode as UTF-8. */
  datatype Body = Body(bytes: string, text: Option<string>)
  datatype Request = Request(url: string, headers: seq<(string, string)>, body: Option<Body>)

  /** What the surroundings say: the daily budget, the host of the URL, and its transport. */
  datatype Surroundings = Surroundings(budgetExhausted: bool, isInternal: bool, isOwnOrigin: bool, isSecure: bool,
                                       host: string)

  datatype Denial =
    | FetchBudgetExhausted | OwnOriginRefused | InsecureTransport
    | UnknownCredential(names: seq<string>) | HostNotApproved(names: seq<string>)

  /** The outgoing body is the text when there is one, and the bytes as they came otherwise. */
  datatype Routed =
    | Internal
    | Denied(denial: Denial)
    | Forwarded(request: Request)
    | Credentialed(url: string, headers: seq<(string, string)>, body: Option<string>)

  /** The parts of a request that are scanned. */
  function ScannedParts(r: Request): (parts: seq<string>)
    ensures |parts| == |r.headers| + 2
  {
    [Debraced(r.url)] + seq(|r.headers|, i requires 0 <= i < |r.headers| => r.headers[i].1)
    + [if r.body.Some? && r.body.value.text.Some? then r.body.value.text.value else ""]
  }

  /** The request names the credential in its URL, in a header value or in the text of its body. */
  ghost predicate RequestMentions(r: Request, name: string) {
    || Mentions(Debraced(r.url), name)
    || (exists i :: 0 <= i < |r.headers| && Mentions(r.headers[i].1, name))
    || (r.body.Some? && r.body.value.text.Some? && Mentions(r.body.value.text.value, name))
  }

  lemma PartsMention(r: Request, name: string)
    ensures RequestMentions(r, name) <==> exists part :: part in ScannedParts(r) && Mentions(part, name)
  {
    hide OccursAt, Debraced;
    var parts := ScannedParts(r);
    assert parts[0] == Debraced(r.url) && parts[0] in parts;
    forall i | 0 <= i < |r.headers| ensures r.headers[i].1 in parts { assert parts[i + 1] == r.headers[i].1; }
    assert parts[|r.headers| + 1] in parts;
    WithinTheText("");
    assert !Mentions("", name);
    if part :| part in parts && Mentions(part, name) {
      var k :| 0 <= k < |parts| && parts[k] == part;
      if 0 < k <= |r.headers| { assert r.headers[k - 1].1 == part; }
    }
  }

  /** Every placeholder in every part is resolved: saved, approved for this host, readable. */
  ghost predicate Resolvable(saved: Credentials, r: Request, host: string) {
    forall n :: RequestMentions(r, n) ==> n in saved && Lower(host) in saved[n].hosts && saved[n].value.Some?
  }

  /** What is sent for a text: where the placeholder of a credential stands in the text, its saved value
      stands instead, and for `__proto__` the placeholder itself; what stands before and after it is
      treated on its own, and a text without placeholders stays. */
  ghost predicate SentFor(saved: Credentials, text: string, sent: string) {
    && ((forall n :: !Mentions(text, n)) ==> sent == text)
    && forall at: nat, n :: OccursAt(text, at, n) ==>
         && at + |Token(n)| <= |text| && n in saved && saved[n].value.Some?
         && sent == Materialize(saved, text[..at])
                    + ((if n == "__proto__" then "{{credential:__proto__}}" else saved[n].value.value)
                       + Materialize(saved, text[at + |Token(n)|..]))
  }

  lemma MaterializedIsSent(saved: Credentials, text: string)
    requires forall n :: Mentions(text, n) ==> Readable(saved, n)
    ensures SentFor(saved, text, Materialize(saved, text))
  {
    hide OccursAt, Pieces, Render;
    ValuesReplacePlaceholders(text, VaultValues(saved));
    assert OPEN + PROTO + CLOSE == "{{credential:__proto__}}";
    assert forall at, n :: OccursAt(text, at, n) ==> Mentions(text, n);
  }

  /** The text with each placeholder, and nothing else, replaced by the value of its credential; only
      the placeholder of `__proto__` stays. */
  function Materialize(saved: Credentials, text: string): string {
    Render(Pieces(text), VaultValues(saved))
  }

  /** Where every mentioned name is readable, every placeholder is replaced exactly when none of them
      names `__proto__`. */
  lemma NothingFallsBackExactlyWhen(saved: Credentials, text: string)
    requires forall n :: Mentions(text, n) ==> Readable(saved, n)
    ensures (forall p :: p in Pieces(text) && p.Ref? ==> p.name in VaultValues(saved)) <==> !Mentions(text, PROTO)
  {
    hide OccursAt, Pieces, Offset;
    if Mentions(text, PROTO) {
      var at :| OccursAt(text, at, PROTO);
      PiecesFindOccurrences(text, at, PROTO);
      var k :| 0 <= k < |Pieces(text)| && Pieces(text)[k] == Ref(PROTO) && Offset(Pieces(text), k) == at;
      assert Ref(PROTO) in Pieces(text);
    } else {
      NeverFallsBack(text, VaultValues(saved));
    }
  }

  /** `__proto__` can be the name of a credential, and its placeholder is sent as it is. */
  lemma ProtoFallsBack(saved: Credentials)
    ensures NameOk(PROTO) && Materialize(saved, Token(PROTO)) == Token(PROTO)
  {
    hide Match;
    var t := Token(PROTO);
    assert t[|t|..] == "" && t[0..] == t;
    MatchIsOccurrence(t, PROTO);
    assert Pieces(t) == [Ref(PROTO)] + Pieces("");
    RenderCons(Ref(PROTO), [], VaultValues(saved));
  }

  function NamesOf(unresolved: seq<Unresolved>, reason: Reason): (names: seq<string>)
    ensures forall n :: n in names <==> Unresolved(n, reason) in unresolved
  {
    if unresolved == [] then []
    else (if unresolved[0].reason == reason then [unresolved[0].name] else []) + NamesOf(unresolved[1..], reason)
  }

  /** With all mentioned names resolved, the resolved values do as well as the whole vault. */
  lemma SubstitutesAll(saved: Credentials, names: seq<string>, values: map<string, string>, text: string)
    requires forall n :: Mentions(text, n) ==> n in names
    requires forall n :: n in names ==> Readable(saved, n)
    requires forall n :: n in values <==> n in names && n != PROTO
    requires forall n :: n in values ==> Readable(saved, n) && values[n] == saved[n].value.value
    ensures Render(Pieces(text), values) == Materialize(saved, text)
    ensures forall p :: p in Pieces(text) && p.Ref? ==> p.name in values || p.name == PROTO
  {
    hide Pieces, Mentions;
    NamesInPieces(text, names);
    RenderDependsOnMentioned(Pieces(text), values, VaultValues(saved));
  }

  lemma NamesInPieces(text: string, names: seq<string>)
    requires forall n :: Mentions(text, n) ==> n in names
    ensures forall p :: p in Pieces(text) && p.Ref? ==> p.name in names
  {
    hide OccursAt, Pieces, Offset;
    forall p | p in Pieces(text) && p.Ref? ensures p.name in names {
      var k :| 0 <= k < |Pieces(text)| && Pieces(text)[k] == p;
      assert RefAt(Pieces(text), Offset(Pieces(text), k), p.name);
      PiecesFindOccurrences(text, Offset(Pieces(text), k), p.name);
    }
  }

  method SubstituteHeaders(headers: seq<(string, string)>, values: map<string, string>)
    returns (result: seq<(string, string)>)
    ensures |result| == |headers|
    ensures forall i :: 0 <= i < |headers| ==> result[i] == (headers[i].0, Render(Pieces(headers[i].1), values))
  {
    hide Render, Pieces;
    result := [];
    for i := 0 to |headers|
      invariant |result| == i
      invariant forall j :: 0 <= j < i ==> result[j] == (headers[j].0, Render(Pieces(headers[j].1), values))
    {
      var value := Substitute(headers[i].1, values);
      result := result + [(headers[i].0, value)];
    }
  }

  /** A refusal names exactly what is wrong: credentials that are not saved come first, then those not
      approved for the host, then those that do not decrypt. */
  ghost predicate RightlyRefused(saved: Credentials, r: Request, host: string, denial: Denial) {
    match denial
    case UnknownCredential(names) =>
      && names != []
      && if exists n :: RequestMentions(r, n) && n !in saved
         then forall n :: n in names <==> RequestMentions(r, n) && n !in saved
         else
           && (forall n :: RequestMentions(r, n) ==> Lower(host) in saved[n].hosts)
           && (forall n :: n in names <==> RequestMentions(r, n) && saved[n].value.None?)
    case HostNotApproved(names) =>
      && names != [] && (forall n :: RequestMentions(r, n) ==> n in saved)
      && (forall n :: n in names <==> RequestMentions(r, n) && Lower(host) !in saved[n].hosts)
    case _ => true
  }

  /** A name is unresolved when it is not saved or not approved or, all being approved, does not decrypt. */
  lemma UnresolvedExactly(saved: Credentials, names: seq<string>, host: string, unresolved: seq<Unresolved>)
    requires exists n :: n in names && !(Approved(saved, n, host) && Readable(saved, n))
    requires var refused := Refusals(saved, names, host);
      if refused != [] then unresolved == refused
      else forall u :: u in unresolved <==> u.reason == UnknownName && u.name in names && !Readable(saved, u.name)
    ensures forall n :: Unresolved(n, UnknownName) in unresolved <==>
      n in names && (n !in saved || ((forall m :: m in names ==> Approved(saved, m, host)) && saved[n].value.None?))
    ensures forall n :: Unresolved(n, NotApproved) in unresolved <==>
      n in names && n in saved && Lower(host) !in saved[n].hosts
  {
    hide Refusals, Lower;
    RefusalsAreExact(saved, names, host);
  }

  method Refuse(ghost saved: Credentials, ghost r: Request, ghost host: string, ghost names: seq<string>,
                unresolved: seq<Unresolved>) returns (denial: Denial)
    requires forall n :: n in names <==> RequestMentions(r, n)
    requires exists n :: n in names && !(Approved(saved, n, host) && Readable(saved, n))
    requires var refused := Refusals(saved, names, host);
      if refused != [] then unresolved == refused
      else forall u :: u in unresolved <==> u.reason == UnknownName && u.name in names && !Readable(saved, u.name)
    ensures RightlyRefused(saved, r, host, denial)
    ensures denial.UnknownCredential? || denial.HostNotApproved?
  {
    hide Refusals, Lower, RequestMentions, NamesOf;
    var unknown, unapproved := NamesOf(unresolved, UnknownName), NamesOf(unresolved, NotApproved);
    UnresolvedExactly(saved, names, host, unresolved);
    if unapproved != [] { assert unapproved[0] in unapproved; }
    if unknown != [] { assert unknown[0] in unknown; }
    return if |unknown| > 0 then UnknownCredential(unknown) else HostNotApproved(unapproved);
  }

  /** What goes out once every name is resolved. */
  method Substituted(ghost saved: Credentials, r: Request, url: string, ghost names: seq<string>,
                     values: map<string, string>) returns (sent: Routed)
    requires forall n :: RequestMentions(r, n) ==> n in names
    requires forall n :: n in names ==> Readable(saved, n)
    requires forall n :: n in values <==> n in names && n != PROTO
    requires forall n :: n in values ==> Readable(saved, n) && values[n] == saved[n].value.value
    requires url == Debraced(r.url)
    ensures sent.Credentialed? && sent.url == Materialize(saved, url)
    ensures |sent.headers| == |r.headers| && forall i :: 0 <= i < |r.headers| ==>
      sent.headers[i] == (r.headers[i].0, Materialize(saved, r.headers[i].1))
    ensures sent.body == if r.body.None? then None
                         else if r.body.value.text.None? then Some(r.body.value.bytes)
                         else Some(Materialize(saved, r.body.value.text.value))
  {
    hide Mentions, Render, Pieces, Debraced, Materialize, OccursAt;
    SubstitutesAll(saved, names, values, url);
    var sentUrl := Substitute(url, values);
    var headers := SubstituteHeaders(r.headers, values);
    forall i | 0 <= i < |r.headers| ensures headers[i].1 == Materialize(saved, r.headers[i].1) {
      SubstitutesAll(saved, names, values, r.headers[i].1);
    }
    var body := None;
    if r.body.Some? {
      if r.body.value.text.Some? {
        SubstitutesAll(saved, names, values, r.body.value.text.value);
        var text := Substitute(r.body.value.text.value, values);
        body := Some(text);
      } else {
        body := Some(r.body.value.bytes);
      }
    }
    return Credentialed(sentUrl, headers, body);
  }

  /** Each part that goes out carries the values of the names it mentions. */
  lemma PartsAreSent(saved: Credentials, r: Request)
    requires forall n :: RequestMentions(r, n) ==> Readable(saved, n)
    ensures SentFor(saved, Debraced(r.url), Materialize(saved, Debraced(r.url)))
    ensures forall i :: 0 <= i < |r.headers| ==>
      SentFor(saved, r.headers[i].1, Materialize(saved, r.headers[i].1))
    ensures r.body.Some? && r.body.value.text.Some? ==>
      SentFor(saved, r.body.value.text.value, Materialize(saved, r.body.value.text.value))
  {
    hide Mentions, Materialize, SentFor, Debraced;
    MaterializedIsSent(saved, Debraced(r.url));
    forall i | 0 <= i < |r.headers| ensures SentFor(saved, r.headers[i].1, Materialize(saved, r.headers[i].1)) {
      MaterializedIsSent(saved, r.headers[i].1);
    }
    if r.body.Some? && r.body.value.text.Some? { MaterializedIsSent(saved, r.body.value.text.value); }
  }

  /** The gateway's decision for one outgoing request. A credential leaves only in a request whose
      every placeholder is resolved for its host, over a secure transport; a request that mentions
      none is forwarded as it came; and a refusal by policy decrypts nothing. */
  method Route(vault: OwnerVault, r: Request, s: Surroundings) returns (routed: Routed)
    modifies vault`materialized
    ensures routed.Credentialed? <==>
      && !s.budgetExhausted && !s.isInternal && !s.isOwnOrigin && (exists n :: RequestMentions(r, n))
      && s.isSecure && Resolvable(vault.saved, r, s.host)
    ensures routed.Forwarded? <==>
      !s.budgetExhausted && !s.isInternal && !s.isOwnOrigin && forall n :: !RequestMentions(r, n)
    ensures routed.Forwarded? ==> routed.request == r
    ensures routed.Credentialed? ==>
      && routed.url == Materialize(vault.saved, Debraced(r.url))
      && |routed.headers| == |r.headers|
      && (forall i :: 0 <= i < |r.headers| ==>
            routed.headers[i] == (r.headers[i].0, Materialize(vault.saved, r.headers[i].1)))
      && routed.body == (if r.body.None? then None
                         else if r.body.value.text.None? then Some(r.body.value.bytes)
                         else Some(Materialize(vault.saved, r.body.value.text.value)))
    ensures routed.Credentialed? ==>
      && SentFor(vault.saved, Debraced(r.url), routed.url)
      && (forall i :: 0 <= i < |r.headers| ==> SentFor(vault.saved, r.headers[i].1, routed.headers[i].1))
      && (r.body.Some? && r.body.value.text.Some? ==>
            routed.body.Some? && SentFor(vault.saved, r.body.value.text.value, routed.body.value))
    // every other answer has its reason
    ensures routed == Denied(FetchBudgetExhausted) <==> s.budgetExhausted
    ensures routed == Internal <==> !s.budgetExhausted && s.isInternal
    ensures routed == Denied(OwnOriginRefused) <==> !s.budgetExhausted && !s.isInternal && s.isOwnOrigin
    ensures routed == Denied(InsecureTransport) <==>
      !s.budgetExhausted && !s.isInternal && !s.isOwnOrigin && !s.isSecure && exists n :: RequestMentions(r, n)
    ensures routed.Denied? && (routed.denial.UnknownCredential? || routed.denial.HostNotApproved?) ==>
      RightlyRefused(vault.saved, r, s.host, routed.denial)
    ensures vault.materialized != old(vault.materialized) ==>
      forall n :: RequestMentions(r, n) ==> n in vault.saved && Lower(s.host) in vault.saved[n].hosts
  {
    hide Mentions, OccursAt, Render, Pieces, Debraced, Lower, Materialize, Refusals, SentFor, RequestMentions,
         ScannedParts, RightlyRefused;
    if s.budgetExhausted { return Denied(FetchBudgetExhausted); }
    if s.isInternal { return Internal; }
    if s.isOwnOrigin { return Denied(OwnOriginRefused); }
    var url := Debraced(r.url);
    var names := Scan(ScannedParts(r));
    forall n ensures n in names <==> RequestMentions(r, n) { PartsMention(r, n); }
    if |names| == 0 { return Forwarded(r); }
    assert RequestMentions(r, names[0]);
    if !s.isSecure { return Denied(InsecureTransport); }
    var resolution := vault.ResolveForHost(names, s.host);
    if resolution.Unresolvable? {
      var denial := Refuse(vault.saved, r, s.host, names, resolution.unresolved);
      return Denied(denial);
    }
    PartsAreSent(vault.saved, r);
    routed := Substituted(vault.saved, r, url, names, resolution.values);
  }
}
