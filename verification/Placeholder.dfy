/** The placeholder protocol `{{credential:name}}` (packages/server/src/gateway/Placeholder.ts). */
module Placeholder {
  import opened Wrappers
  import opened Manifest

  const OPEN := "{{credential:"
  const CLOSE := "}}"

  function Token(name: string): string { OPEN + name + CLOSE }

  /** The placeholder of `name` stands in the text at position `at`. A name of a credential is
      spelled like the name of a package. */
  predicate OccursAt(text: string, at: int, name: string) {
    0 <= at <= |text| && NameOk(name) && Token(name) <= text[at..]
  }

  ghost predicate Mentions(text: string, name: string) {
    exists at :: OccursAt(text, at, name)
  }

  /** How many name characters the text starts with. */
  function NameRun(text: string): (n: nat)
    ensures n <= |text| && (forall i :: 0 <= i < n ==> NameChar(text[i])) && (n < |text| ==> !NameChar(text[n]))
  {
    if text != "" && NameChar(text[0]) then 1 + NameRun(text[1..]) else 0
  }

  /** The regular expression, anchored at the start of the text: the name it captures. */
  function Match(text: string): Option<string> {
    if !(OPEN <= text) then None
    else
      var rest := text[|OPEN|..];
      var n := NameRun(rest);
      if n > 0 && CLOSE <= rest[n..] then Some(rest[..n]) else None
  }

  lemma MatchOccurs(text: string, name: string)
    requires Match(text) == Some(name)
    ensures OccursAt(text, 0, name)
  {
  }

  lemma OccurrenceMatches(text: string, name: string)
    requires OccursAt(text, 0, name)
    ensures Match(text) == Some(name)
  {
    var rest := text[|OPEN|..];
    var n := NameRun(rest);
    assert text[0..] == text && OPEN <= Token(name) <= text;
    assert Token(name)[|OPEN|..] == name + CLOSE;
    assert name + CLOSE <= rest;
    assert rest[|name|] == (name + CLOSE)[|name|] == '}';
    assert forall i :: 0 <= i < |name| ==> rest[i] == (name + CLOSE)[i] == name[i];
    assert n == |name| && rest[..n] == name && rest[n..][..2] == CLOSE;
  }

  /** The expression captures the one name whose placeholder starts there. */
  lemma MatchIsOccurrence(text: string, name: string)
    ensures Match(text) == Some(name) <==> OccursAt(text, 0, name)
  {
    hide Match, OccursAt;
    if Match(text) == Some(name) { MatchOccurs(text, name); }
    if OccursAt(text, 0, name) { OccurrenceMatches(text, name); }
  }

  // ---------------------------------------------------------------- occurrences do not overlap

  /** After its first character, no character of a placeholder can start another one. */
  lemma OccurrencesAreApart(text: string, i: int, n: string, j: int, m: string)
    requires OccursAt(text, i, n) && OccursAt(text, j, m) && i <= j
    ensures (i == j && n == m) || i + |Token(n)| <= j
  {
    if i == j {
      MatchIsOccurrence(text[i..], n);
      MatchIsOccurrence(text[i..], m);
      assert text[i..][0..] == text[i..];
    } else if j < i + |Token(n)| {
      var d := j - i;
      assert Token(m)[0] == '{' && Token(m)[1] == '{';
      assert text[j] == text[j..][0] == Token(m)[0] && text[j + 1] == text[j..][1] == Token(m)[1];
      assert text[j] == text[i..][d] == Token(n)[d];
      assert text[i + 2] == text[i..][2] == Token(n)[2];
      InnerCharacters(n, d);
      assert false;
    }
  }

  lemma InnerCharacters(n: string, d: nat)
    requires NameOk(n) && 1 <= d < |Token(n)|
    ensures Token(n)[2] == 'c' && (d > 1 ==> Token(n)[d] != '{')
  {
    if |OPEN| <= d < |OPEN| + |n| {
      assert Token(n)[d] == n[d - |OPEN|];
      assert n[d - |OPEN|] in n;
    }
  }

  // ---------------------------------------------------------------- the pieces of a text

  datatype Piece = Lit(c: char) | Ref(name: string)

  /** The text cut up from left to right, each placeholder one piece. */
  function Pieces(text: string): seq<Piece>
    decreases |text|
  {
    if text == "" then []
    else
      var m := Match(text);
      if m.Some? then
        (MatchIsOccurrence(text, m.value); [Ref(m.value)] + Pieces(text[|Token(m.value)|..]))
      else [Lit(text[0])] + Pieces(text[1..])
  }

  function Width(p: Piece): nat { if p.Lit? then 1 else |Token(p.name)| }

  /** Where a piece starts in the text. */
  function Offset(pieces: seq<Piece>, k: nat): nat
    requires k <= |pieces|
  {
    if k == 0 then 0 else Width(pieces[0]) + Offset(pieces[1..], k - 1)
  }

  function Show(p: Piece, values: map<string, string>): string {
    if p.Lit? then [p.c] else if p.name in values then values[p.name] else Token(p.name)
  }

  function Render(pieces: seq<Piece>, values: map<string, string>): string {
    if pieces == [] then "" else Show(pieces[0], values) + Render(pieces[1..], values)
  }

  lemma RenderCons(p: Piece, pieces: seq<Piece>, values: map<string, string>)
    ensures Render([p] + pieces, values) == Show(p, values) + Render(pieces, values)
  {
    assert ([p] + pieces)[1..] == pieces;
  }

  /** Putting the placeholders back gives the text. */
  lemma {:induction false} PiecesAreTheText(text: string)
    ensures Render(Pieces(text), map[]) == text
    decreases |text|
  {
    hide Match, Render, Token, OccursAt;
    if text == "" {
      NothingLeft(text, map[]);
    } else {
      var m := Match(text);
      if m.Some? {
        var w := |Token(m.value)|;
        TokenFirst(text, m.value);
        PiecesAreTheText(text[w..]);
        RenderCons(Ref(m.value), Pieces(text[w..]), map[]);
      } else {
        PiecesAreTheText(text[1..]);
        RenderCons(Lit(text[0]), Pieces(text[1..]), map[]);
        assert text == [text[0]] + text[1..];
      }
    }
  }

  lemma TokenFirst(text: string, name: string)
    requires Match(text) == Some(name)
    ensures 0 < |Token(name)| <= |text| && text == Token(name) + text[|Token(name)|..]
  {
    MatchIsOccurrence(text, name);
  }

  ghost predicate RefAt(pieces: seq<Piece>, at: int, name: string) {
    exists k :: 0 <= k < |pieces| && pieces[k] == Ref(name) && Offset(pieces, k) == at
  }

  lemma RefAtTail(p: Piece, pieces: seq<Piece>, at: int, name: string)
    ensures RefAt([p] + pieces, at, name) <==> (at == 0 && p == Ref(name)) || RefAt(pieces, at - Width(p), name)
  {
    var all := [p] + pieces;
    assert all[1..] == pieces;
    if RefAt(pieces, at - Width(p), name) {
      var k :| 0 <= k < |pieces| && pieces[k] == Ref(name) && Offset(pieces, k) == at - Width(p);
      assert all[k + 1] == Ref(name) && Offset(all, k + 1) == at;
    }
    if at == 0 && p == Ref(name) { assert all[0] == Ref(name) && Offset(all, 0) == 0; }
    if RefAt(all, at, name) {
      var k :| 0 <= k < |all| && all[k] == Ref(name) && Offset(all, k) == at;
      if k > 0 { assert pieces[k - 1] == Ref(name) && Offset(pieces, k - 1) == at - Width(p); }
    }
  }

  lemma OccursInRest(text: string, w: nat, at: int, name: string)
    requires w <= |text| && w <= at
    ensures OccursAt(text, at, name) <==> OccursAt(text[w..], at - w, name)
  {
  }

  /** The pass from left to right misses nothing and invents nothing: the placeholders among the
      pieces are exactly the occurrences in the text, each at its own position. */
  lemma {:induction false} PiecesFindOccurrences(text: string, at: int, name: string)
    ensures RefAt(Pieces(text), at, name) <==> OccursAt(text, at, name)
    decreases |text|
  {
    hide NameOk, Offset;
    if text == "" {
      assert Pieces(text) == [];
    } else {
      var m := Match(text);
      var p := if m.Some? then Ref(m.value) else Lit(text[0]);
      var w := Width(p);
      if m.Some? { MatchIsOccurrence(text, m.value); }
      PiecesFindOccurrences(text[w..], at - w, name);
      RefAtTail(p, Pieces(text[w..]), at, name);
      assert Pieces(text) == [p] + Pieces(text[w..]);
      if at >= w {
        OccursInRest(text, w, at, name);
        assert !(at == 0 && p == Ref(name));
      } else {
        assert !OccursAt(text[w..], at - w, name);
        if at == 0 { MatchIsOccurrence(text, name); }
        if at > 0 && OccursAt(text, at, name) { OccurrencesAreApart(text, 0, m.value, at, name); }
      }
    }
  }

  // ---------------------------------------------------------------- scan

  /** Every name that the parts mention, once. */
  method Scan(parts: seq<string>) returns (names: seq<string>)
    ensures forall n :: n in names <==> exists part :: part in parts && Mentions(part, n)
    ensures forall i, j :: 0 <= i < j < |names| ==> names[i] != names[j]
  {
    hide OccursAt, Match;
    names := [];
    for p := 0 to |parts|
      invariant forall n :: n in names ==> exists part :: part in parts && Mentions(part, n)
      invariant forall q, n :: 0 <= q < p && Mentions(parts[q], n) ==> n in names
      invariant forall i, j :: 0 <= i < j < |names| ==> names[i] != names[j]
    {
      var part, at := parts[p], 0;
      ghost var before := names;
      WithinTheText(part);
      while at < |part|
        invariant at <= |part|
        invariant forall n :: n in names ==> n in before || Mentions(part, n)
        invariant forall n :: n in before ==> n in names
        invariant forall i, n :: OccursAt(part, i, n) ==> n in names || at <= i
        invariant forall i, j :: 0 <= i < j < |names| ==> names[i] != names[j]
      {
        var m := Match(part[at..]);
        MatchAt(part, at, m);
        if m.Some? {
          if m.value !in names { names := names + [m.value]; }
          at := at + |Token(m.value)|;
        } else {
          at := at + 1;
        }
      }
    }
  }

  /** What one step of the scan learns about the occurrences from `at` on. */
  lemma MatchAt(text: string, at: nat, m: Option<string>)
    requires at < |text| && m == Match(text[at..])
    ensures m.Some? ==> Mentions(text, m.value) && OccursAt(text, at, m.value) && at + |Token(m.value)| <= |text|
    ensures m.Some? ==> forall i, n :: OccursAt(text, i, n) && at <= i ==> n == m.value || at + |Token(m.value)| <= i
    ensures m.None? ==> forall i, n :: OccursAt(text, i, n) && at <= i ==> at + 1 <= i
  {
    hide NameOk, Match;
    if m.Some? {
      MatchIsOccurrence(text[at..], m.value);
      OccursInRest(text, at, at, m.value);
      forall i, n | OccursAt(text, i, n) && at <= i ensures n == m.value || at + |Token(m.value)| <= i {
        OccurrencesAreApart(text, at, m.value, i, n);
      }
    } else {
      forall i, n | OccursAt(text, i, n) && at <= i ensures at + 1 <= i {
        OccursInRest(text, at, at, n);
        MatchIsOccurrence(text[at..], n);
      }
    }
  }

  lemma WithinTheText(text: string)
    ensures forall i, n :: OccursAt(text, i, n) ==> 0 <= i < |text|
  {
  }

  // ---------------------------------------------------------------- substitute

  /** What stands in a part of the text stands in the text. */
  lemma OccursInPrefix(text: string, end: nat, at: int, name: string)
    requires end <= |text|
    ensures OccursAt(text[..end], at, name) <==> OccursAt(text, at, name) && at + |Token(name)| <= end
  {
    if 0 <= at <= end {
      assert text[..end][at..] == text[at..][..end - at];
      if at + |Token(name)| <= end { assert text[..end][at..][..|Token(name)|] == text[at..][..|Token(name)|]; }
    }
  }

  /** The first piece of a text. */
  function First(text: string): Piece
    requires text != ""
  {
    var m := Match(text);
    if m.Some? then Ref(m.value) else Lit(text[0])
  }

  lemma PiecesStep(text: string)
    requires text != ""
    ensures 0 < Width(First(text)) <= |text|
    ensures Pieces(text) == [First(text)] + Pieces(text[Width(First(text))..])
  {
    hide OccursAt;
    var m := Match(text);
    if m.Some? { TokenFirst(text, m.value); }
  }

  /** The text is cut at every placeholder that stands in it. */
  lemma {:induction false} PiecesSplit(text: string, at: nat, name: string)
    requires OccursAt(text, at, name)
    ensures at + |Token(name)| <= |text|
    ensures Pieces(text) == Pieces(text[..at]) + ([Ref(name)] + Pieces(text[at + |Token(name)|..]))
    decreases |text|
  {
    hide NameOk, Match, OccursAt, Token, Pieces, First;
    var end := at + |Token(name)|;
    TokenWithin(text, at, name);
    PiecesStep(text);
    var w := Width(First(text));
    if at == 0 {
      FirstIsRef(text, name);
      assert Pieces(text[..0]) == [] by { NoPieces(text[..0]); }
    } else {
      FirstInPrefix(text, at, name);
      PiecesStep(text[..at]);
      OccursInRest(text, w, at, name);
      PiecesSplit(text[w..], at - w, name);
      assert text[w..][..at - w] == text[..at][w..] && text[w..][at - w + |Token(name)|..] == text[end..];
    }
  }

  lemma NoPieces(text: string)
    requires text == ""
    ensures Pieces(text) == []
  {
  }

  lemma FirstIsRef(text: string, name: string)
    requires text != "" && OccursAt(text, 0, name)
    ensures First(text) == Ref(name)
  {
    MatchIsOccurrence(text, name);
  }

  /** The first piece ends before a later placeholder, and is the first piece up to there. */
  lemma FirstInPrefix(text: string, at: nat, name: string)
    requires 0 < at <= |text| && OccursAt(text, at, name)
    ensures Width(First(text)) <= at && First(text[..at]) == First(text)
  {
    hide Match, OccursAt, Token;
    var m := Match(text);
    if m.Some? {
      MatchIsOccurrence(text, m.value);
      OccurrencesAreApart(text, 0, m.value, at, name);
    }
    SameMatchInPrefix(text, at, m);
  }

  lemma TokenWithin(text: string, at: nat, name: string)
    requires OccursAt(text, at, name)
    ensures 0 < |Token(name)| && at + |Token(name)| <= |text|
  {
  }

  lemma SameMatchInPrefix(text: string, at: nat, m: Option<string>)
    requires 0 < at <= |text| && m == Match(text) && (m.Some? ==> |Token(m.value)| <= at)
    ensures Match(text[..at]) == m
  {
    hide Match, OccursAt, Token;
    var inner := Match(text[..at]);
    if m.Some? {
      MatchIsOccurrence(text, m.value);
      OccursInPrefix(text, at, 0, m.value);
      MatchIsOccurrence(text[..at], m.value);
    } else if inner.Some? {
      MatchIsOccurrence(text[..at], inner.value);
      OccursInPrefix(text, at, 0, inner.value);
      MatchIsOccurrence(text, inner.value);
    }
  }

  lemma {:induction false} RenderConcat(a: seq<Piece>, b: seq<Piece>, values: map<string, string>)
    ensures Render(a + b, values) == Render(a, values) + Render(b, values)
  {
    if a == [] {
      assert a + b == b;
    } else {
      assert (a + b)[1..] == a[1..] + b && (a + b)[0] == a[0];
      RenderConcat(a[1..], b, values);
    }
  }

  /** Where a placeholder stands in the text, its value stands in the result, or the placeholder itself
      when there is no value; what stands before and after it is treated on its own. With
      `TextWithoutPlaceholdersStays` this leaves nothing open (`SubstitutionIsDetermined`). */
  lemma ValueReplacesPlaceholder(text: string, values: map<string, string>, at: nat, name: string)
    requires OccursAt(text, at, name)
    ensures at + |Token(name)| <= |text|
    ensures Render(Pieces(text), values) ==
      Render(Pieces(text[..at]), values)
      + ((if name in values then values[name] else OPEN + name + CLOSE)
         + Render(Pieces(text[at + |Token(name)|..]), values))
  {
    hide Pieces, Render, OccursAt;
    PiecesSplit(text, at, name);
    RenderConcat(Pieces(text[..at]), [Ref(name)] + Pieces(text[at + |Token(name)|..]), values);
    RenderCons(Ref(name), Pieces(text[at + |Token(name)|..]), values);
  }

  /** Whatever treats each placeholder this way, and leaves text without placeholders alone, substitutes. */
  lemma {:induction false} SubstitutionIsDetermined(f: string -> string, values: map<string, string>, text: string)
    requires forall t, at, n :: OccursAt(t, at, n) ==>
      f(t) == f(t[..at]) + ((if n in values then values[n] else OPEN + n + CLOSE) + f(t[at + |Token(n)|..]))
    requires forall t :: (forall n :: !Mentions(t, n)) ==> f(t) == t
    ensures f(text) == Render(Pieces(text), values)
    decreases |text|
  {
    hide Pieces, Render, Token;
    if at: nat, n :| OccursAt(text, at, n) {
      TokenWithin(text, at, n);
      ValueReplacesPlaceholder(text, values, at, n);
      SubstitutionIsDetermined(f, values, text[..at]);
      SubstitutionIsDetermined(f, values, text[at + |Token(n)|..]);
    } else {
      TextWithoutPlaceholdersStays(text, values);
    }
  }

  lemma ValuesReplacePlaceholders(text: string, values: map<string, string>)
    ensures (forall n :: !Mentions(text, n)) ==> Render(Pieces(text), values) == text
    ensures forall at, n :: OccursAt(text, at, n) ==>
      && 0 <= at && at + |Token(n)| <= |text|
      && Render(Pieces(text), values) ==
           Render(Pieces(text[..at]), values)
           + ((if n in values then values[n] else OPEN + n + CLOSE)
              + Render(Pieces(text[at + |Token(n)|..]), values))
  {
    hide Pieces, Render, Token;
    if forall n :: !Mentions(text, n) { TextWithoutPlaceholdersStays(text, values); }
    forall at, n | OccursAt(text, at, n)
      ensures 0 <= at && at + |Token(n)| <= |text|
      ensures Render(Pieces(text), values) ==
              Render(Pieces(text[..at]), values)
              + ((if n in values then values[n] else OPEN + n + CLOSE)
                 + Render(Pieces(text[at + |Token(n)|..]), values))
    {
      ValueReplacesPlaceholder(text, values, at, n);
    }
  }

  method Substitute(text: string, values: map<string, string>) returns (result: string)
    ensures result == Render(Pieces(text), values)
    ensures (forall n :: !Mentions(text, n)) ==> result == text
    ensures forall at, n :: OccursAt(text, at, n) ==>
      result == Render(Pieces(text[..at]), values)
                + ((if n in values then values[n] else OPEN + n + CLOSE)
                   + Render(Pieces(text[at + |Token(n)|..]), values))
  {
    hide Match, Token, Pieces, Render;
    result := "";
    var at := 0;
    assert text[0..] == text;
    while at < |text|
      invariant at <= |text|
      invariant result + Render(Pieces(text[at..]), values) == Render(Pieces(text), values)
    {
      var m := Match(text[at..]);
      NextPiece(text, at, values);
      if m.Some? {
        result := result + if m.value in values then values[m.value] else Token(m.value);
        at := at + |Token(m.value)|;
      } else {
        result := result + [text[at]];
        at := at + 1;
      }
    }
    NothingLeft(text[at..], values);
    ValuesReplacePlaceholders(text, values);
  }

  lemma NothingLeft(text: string, values: map<string, string>)
    requires text == ""
    ensures Render(Pieces(text), values) == ""
  {
  }

  lemma NextPiece(text: string, at: nat, values: map<string, string>)
    requires at < |text|
    ensures var m := Match(text[at..]);
      if m.Some? then
        && 0 < |Token(m.value)| && at + |Token(m.value)| <= |text|
        && Render(Pieces(text[at..]), values) ==
          Show(Ref(m.value), values) + Render(Pieces(text[at + |Token(m.value)|..]), values)
      else Render(Pieces(text[at..]), values) == [text[at]] + Render(Pieces(text[at + 1..]), values)
  {
  }

  /** When every name that the text mentions has a value, each placeholder turns into its value,
      the fallback that keeps a placeholder is never taken, and all other text stays. */
  lemma NeverFallsBack(text: string, values: map<string, string>)
    requires forall n :: Mentions(text, n) ==> n in values
    ensures forall p :: p in Pieces(text) && p.Ref? ==> p.name in values
  {
    hide OccursAt, Match;
    forall p | p in Pieces(text) && p.Ref? ensures p.name in values {
      var k :| 0 <= k < |Pieces(text)| && Pieces(text)[k] == p;
      assert RefAt(Pieces(text), Offset(Pieces(text), k), p.name);
      PiecesFindOccurrences(text, Offset(Pieces(text), k), p.name);
    }
  }

  /** Only what the text mentions matters; a text without placeholders is left as it is. */
  lemma {:induction false} RenderDependsOnMentioned(pieces: seq<Piece>, a: map<string, string>, b: map<string, string>)
    requires forall p :: p in pieces && p.Ref? ==>
      (p.name in a <==> p.name in b) && (p.name in a ==> a[p.name] == b[p.name])
    ensures Render(pieces, a) == Render(pieces, b)
  {
    if pieces != [] {
      assert pieces[0] in pieces;
      RenderDependsOnMentioned(pieces[1..], a, b);
    }
  }

  lemma TextWithoutPlaceholdersStays(text: string, values: map<string, string>)
    requires forall n :: !Mentions(text, n)
    ensures Render(Pieces(text), values) == text
  {
    NeverFallsBack(text, map[]);
    RenderDependsOnMentioned(Pieces(text), values, map[]);
    PiecesAreTheText(text);
  }
}
