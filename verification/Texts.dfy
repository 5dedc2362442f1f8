/** Splitting text at a separator. */
module Texts {

  /** `text.split(c)` for a single character. */
  function SplitAt(text: string, c: char): (parts: seq<string>)
    ensures parts != []
    ensures forall p :: p in parts ==> c !in p
  {
    if text == "" then [""]
    else if text[0] == c then [""] + SplitAt(text[1..], c)
    else var rest := SplitAt(text[1..], c); [[text[0]] + rest[0]] + rest[1..]
  }

  lemma {:induction false} OnePart(text: string, c: char)
    requires c !in text
    ensures SplitAt(text, c) == [text]
  {
    if text != "" {
      OnePart(text[1..], c);
      assert text == [text[0]] + text[1..];
    }
  }

  lemma {:induction false} SplitAtSeparator(a: string, b: string, c: char)
    ensures SplitAt(a + [c] + b, c) == SplitAt(a, c) + SplitAt(b, c)
  {
    if a == "" {
      assert (a + [c] + b)[1..] == b;
    } else {
      SplitAtSeparator(a[1..], b, c);
      assert (a + [c] + b)[1..] == a[1..] + [c] + b;
      PrependToFirst(a[0], SplitAt(a[1..], c), SplitAt(b, c));
    }
  }

  lemma PrependToFirst(x: char, a: seq<string>, b: seq<string>)
    requires a != []
    ensures [""] + (a + b) == ([""] + a) + b
    ensures [[x] + (a + b)[0]] + (a + b)[1..] == ([[x] + a[0]] + a[1..]) + b
  {
  }

  /** Text without the separator extends the last part. */
  function Extend(parts: seq<string>, b: string): seq<string>
    requires parts != []
  {
    parts[..|parts| - 1] + [parts[|parts| - 1] + b]
  }

  lemma {:induction false} SplitExtended(a: string, b: string, c: char)
    requires c !in b
    ensures SplitAt(a + b, c) == Extend(SplitAt(a, c), b)
  {
    if a == "" {
      assert a + b == b;
      OnePart(b, c);
      assert Extend([""], b) == [b];
    } else {
      SplitExtended(a[1..], b, c);
      assert (a + b)[1..] == a[1..] + b;
      ExtendTail(SplitAt(a[1..], c), a[0], b);
    }
  }

  lemma ExtendTail(rest: seq<string>, x: char, b: string)
    requires rest != []
    ensures Extend([""] + rest, b) == [""] + Extend(rest, b)
    ensures Extend([[x] + rest[0]] + rest[1..], b) == var e := Extend(rest, b); [[x] + e[0]] + e[1..]
  {
    assert [x] + (rest[0] + b) == [x] + rest[0] + b;
  }

  lemma {:induction false} ManyPartsMeanSeparator(text: string, c: char)
    ensures |SplitAt(text, c)| == 1 <==> c !in text
  {
    if text != "" {
      ManyPartsMeanSeparator(text[1..], c);
      assert text == [text[0]] + text[1..];
    }
  }

  /** `text.split(v)`. */
  function Split(text: string, v: string): (parts: seq<string>)
    requires v != ""
    ensures parts != []
    decreases |text|
  {
    if text == "" then [""]
    else if v <= text then [""] + Split(text[|v|..], v)
    else var rest := Split(text[1..], v); [[text[0]] + rest[0]] + rest[1..]
  }

  /** `parts.join(m)`. */
  function Join(parts: seq<string>, m: string): string
    requires parts != []
  {
    if |parts| == 1 then parts[0] else parts[0] + m + Join(parts[1..], m)
  }

  /** Joining with what was split at gives the text back: splitting cuts out the value and nothing else. */
  lemma {:induction false} JoinSplit(text: string, v: string)
    requires v != ""
    ensures Join(Split(text, v), v) == text
    decreases |text|
  {
    if text == "" {
    } else if v <= text {
      JoinSplit(text[|v|..], v);
      JoinEmptyFirst(Split(text[|v|..], v), v);
      assert text == v + text[|v|..];
    } else {
      JoinSplit(text[1..], v);
      JoinPrepend(text[0], Split(text[1..], v), v);
      assert text == [text[0]] + text[1..];
    }
  }

  lemma JoinEmptyFirst(rest: seq<string>, m: string)
    requires rest != []
    ensures Join([""] + rest, m) == m + Join(rest, m)
  {
  }

  lemma JoinPrepend(c: char, rest: seq<string>, m: string)
    requires rest != []
    ensures Join([[c] + rest[0]] + rest[1..], m) == [c] + Join(rest, m)
  {
  }

  lemma {:induction false} SplitAtIsSplit(text: string, c: char)
    ensures SplitAt(text, c) == Split(text, [c])
  {
    if text != "" {
      SplitAtIsSplit(text[1..], c);
      assert [c] <= text <==> text[0] == c;
    }
  }

  /** `part` stands in the text between two separators, or between one and an end of the text. */
  ghost predicate PartOf(text: string, c: char, part: string) {
    c !in part && exists a, b :: Around(text, c, a, part, b)
  }

  predicate Around(text: string, c: char, a: string, part: string, b: string) {
    text == a + part + b && (a == "" || a[|a| - 1] == c) && (b == "" || b[0] == c)
  }

  /** The text around a part; only the first part has nothing before it. */
  lemma {:induction false} PartStands(text: string, c: char, k: nat) returns (a: string, b: string)
    requires k < |SplitAt(text, c)|
    ensures Around(text, c, a, SplitAt(text, c)[k], b) && (a == "" <==> k == 0)
  {
    if text == "" {
      a, b := "", "";
    } else if text[0] == c {
      if k == 0 {
        a, b := "", text;
      } else {
        a, b := PartStands(text[1..], c, k - 1);
        a := [c] + a;
        assert text == [c] + text[1..];
      }
    } else {
      a, b := PartStands(text[1..], c, k);
      if k > 0 { a := [text[0]] + a; }
      assert text == [text[0]] + text[1..];
    }
  }

  lemma FirstIsPart(part: string, c: char, b: string)
    requires c !in part && (b == "" || b[0] == c)
    ensures part in SplitAt(part + b, c)
  {
    hide SplitAt;
    OnePart(part, c);
    if b == "" {
      assert part + b == part;
    } else {
      SplitAtSeparator(part, b[1..], c);
      assert part + b == part + [c] + b[1..];
      assert part in [part] + SplitAt(b[1..], c);
    }
  }

  lemma LaterIsPart(text: string, c: char, a: string, part: string, b: string)
    requires c !in part && Around(text, c, a, part, b)
    ensures part in SplitAt(text, c)
  {
    hide SplitAt;
    FirstIsPart(part, c, b);
    if a == "" {
      assert text == part + b;
    } else {
      var before := a[..|a| - 1];
      SplitAtSeparator(before, part + b, c);
      assert text == before + [c] + (part + b);
      assert part in SplitAt(before, c) + SplitAt(part + b, c);
    }
  }

  /** Splitting gives exactly the parts between separators. */
  lemma SplitsIntoParts(text: string, c: char, part: string)
    ensures part in SplitAt(text, c) <==> PartOf(text, c, part)
  {
    hide Around;
    if part in SplitAt(text, c) {
      var k :| 0 <= k < |SplitAt(text, c)| && SplitAt(text, c)[k] == part;
      var a, b := PartStands(text, c, k);
    }
    if PartOf(text, c, part) {
      var a, b :| Around(text, c, a, part, b);
      LaterIsPart(text, c, a, part, b);
    }
  }

  function NonEmpty(parts: seq<string>): (r: seq<string>)
    ensures forall p :: p in r <==> p in parts && p != ""
  {
    if parts == [] then [] else (if parts[0] == "" then [] else [parts[0]]) + NonEmpty(parts[1..])
  }
}
