/** Redaction of credential values in everything that leaves a run (packages/server/src/gateway/Redact.ts). */
module Redact {
  import opened Texts

  /** A saved credential: its name and its value. */
  datatype Entry = Entry(name: string, value: string)

  // ---------------------------------------------------------------- occurrences

  predicate At(text: string, i: int, v: string) {
    0 <= i && i + |v| <= |text| && text[i..i + |v|] == v
  }

  ghost predicate OccursIn(v: string, text: string) {
    exists i :: At(text, i, v)
  }

  /** A slice of a text has the occurrences that lie within it. */
  lemma AtInSlice(text: string, lo: int, hi: int, i: int, v: string)
    requires 0 <= lo <= hi <= |text|
    ensures At(text[lo..hi], i, v) <==> 0 <= i && i + |v| <= hi - lo && At(text, lo + i, v)
  {
    if 0 <= i && i + |v| <= hi - lo {
      var a, b := text[lo..hi][i..i + |v|], text[lo + i..lo + i + |v|];
      assert forall k :: 0 <= k < |v| ==> a[k] == b[k];
      assert a == b;
    }
  }

  lemma PrefixIsAt(v: string, text: string)
    ensures v <= text <==> At(text, 0, v)
  {
    if |v| <= |text| { assert text[0..|v|] == text[..|v|]; }
  }

  lemma OccursInSlice(v: string, text: string, lo: nat, hi: nat)
    requires lo <= hi <= |text| && OccursIn(v, text[lo..hi])
    ensures OccursIn(v, text)
  {
    var slice := text[lo..hi];
    var i :| At(slice, i, v);
    forall k | 0 <= k < |v| ensures v[k] == text[lo + i + k] {
      assert slice[i..i + |v|][k] == slice[i + k];
    }
    assert text[lo + i..lo + i + |v|] == v;
    assert At(text, lo + i, v);
  }

  lemma MissingCharacter(v: string, text: string, c: char)
    requires c in v && c !in text
    ensures !OccursIn(v, text)
  {
  }

  /** A text without the character `c` that occurs around a `c` occurs on one side of it. */
  lemma OccursOnOneSide(v: string, a: string, c: char, b: string)
    requires c !in v && OccursIn(v, a + [c] + b)
    ensures OccursIn(v, a) || OccursIn(v, b)
  {
    var text := a + [c] + b;
    var i :| At(text, i, v);
    assert forall j :: i <= j < i + |v| ==> text[j] == v[j - i];
    assert text[|a|] == c;
    assert !(i <= |a| < i + |v|);
    if i + |v| <= |a| {
      assert a[i..i + |v|] == text[i..i + |v|];
      assert At(a, i, v);
    } else {
      var k := i - |a| - 1;
      assert b[k..k + |v|] == text[i..i + |v|];
      assert At(b, k, v);
    }
  }

  // ---------------------------------------------------------------- split and join

  function ReplaceAll(text: string, v: string, m: string): string
    requires v != ""
  {
    Join(Split(text, v), m)
  }

  lemma {:induction false} FirstPartIsPrefix(text: string, v: string)
    requires v != ""
    ensures Split(text, v)[0] <= text
    decreases |text|
  {
    if text != "" && !(v <= text) {
      FirstPartIsPrefix(text[1..], v);
      assert text == [text[0]] + text[1..];
    }
  }

  /** No part of a split contains what the text was split at, and every part is part of the text. */
  lemma {:induction false} PartsOfText(text: string, v: string, u: string)
    requires v != "" && u != ""
    ensures forall p :: p in Split(text, v) ==> !OccursIn(v, p)
    ensures forall p :: p in Split(text, v) && OccursIn(u, p) ==> OccursIn(u, text)
    decreases |text|
  {
    if text == "" {
    } else if v <= text {
      PartsOfText(text[|v|..], v, u);
      if OccursIn(u, text[|v|..|text|]) { OccursInSlice(u, text, |v|, |text|); }
      assert text[|v|..|text|] == text[|v|..];
    } else {
      PartsOfText(text[1..], v, u);
      FirstPartIsPrefix(text, v);
      var parts, rest := Split(text, v), Split(text[1..], v);
      assert text[1..|text|] == text[1..] && text[..|parts[0]|] == parts[0] && text[0..|parts[0]|] == parts[0];
      if OccursIn(u, text[1..|text|]) { OccursInSlice(u, text, 1, |text|); }
      if OccursIn(u, parts[0]) { OccursInSlice(u, text, 0, |parts[0]|); }
      FirstPartIsClear(text[0], rest[0], text, v);
    }
  }

  lemma FirstPartIsClear(c: char, first: string, text: string, v: string)
    requires v != "" && [c] + first <= text && !(v <= text) && !OccursIn(v, first)
    ensures !OccursIn(v, [c] + first)
  {
    forall i ensures !At([c] + first, i, v) {
      if i > 0 && i + |v| <= |first| + 1 {
        assert ([c] + first)[i..i + |v|] == first[i - 1..i - 1 + |v|];
        assert !At(first, i - 1, v);
      } else if i == 0 && |v| <= |first| + 1 {
        assert ([c] + first)[0..|v|] == text[..|v|];
      }
    }
  }

  // ---------------------------------------------------------------- one replacement

  function Inner(name: string): string { "redacted:" + name }

  function Marker(name: string): string { "[" + Inner(name) + "]" }

  predicate BracketFree(v: string) { '[' !in v && ']' !in v }

  /** Neither contains the other, and neither end of one overlaps the other. */
  ghost predicate Apart(v: string, m: string) {
    && m != "" && !OccursIn(v, m) && !OccursIn(m, v)
    && forall k :: 0 < k <= |v| && k <= |m| ==> v[..k] != m[|m| - k..] && v[|v| - k..] != m[..k]
  }

  lemma BracketFreeIsApart(v: string, name: string)
    requires v != "" && BracketFree(v) && !OccursIn(v, Inner(name))
    ensures Apart(v, Marker(name))
  {
    var m := Marker(name);
    assert m[0] == '[' && m[|m| - 1] == ']';
    assert m == "" + ['['] + (Inner(name) + [']'] + "");
    if OccursIn(v, m) {
      OccursOnOneSide(v, "", '[', Inner(name) + [']'] + "");
      OccursOnOneSide(v, Inner(name), ']', "");
      assert false;
    }
    MissingCharacter(m, v, '[');
    forall k | 0 < k <= |v| && k <= |m| ensures v[..k] != m[|m| - k..] && v[|v| - k..] != m[..k] {
      assert m[|m| - k..][k - 1] == ']' && v[..k][k - 1] in v;
      assert m[..k][0] == '[' && v[|v| - k..][0] in v;
    }
  }

  /** What occurs in a text that a marker joins together touches the marker, or is on one side of it. */
  lemma AcrossMarker(u: string, a: string, m: string, b: string)
    requires u != "" && Apart(u, m) && !OccursIn(u, a) && !OccursIn(u, b)
    ensures !OccursIn(u, a + m + b)
  {
    var text := a + m + b;
    forall i ensures !At(text, i, u) {
      if At(text, i, u) {
        Touching(u, a, m, b, i);
        assert false;
      }
    }
  }

  lemma Touching(u: string, a: string, m: string, b: string, i: int)
    requires At(a + m + b, i, u)
    ensures OccursIn(u, a) || OccursIn(u, b) || !Apart(u, m)
  {
    hide At, Apart;
    var text, n, e, end := a + m + b, |a|, |a| + |m|, i + |u|;
    assert text[0..n] == a && text[n..e] == m && text[e..|text|] == b;
    AtIsInside(text, i, u);
    AtInSlice(text, 0, n, i, u);
    AtInSlice(text, n, e, i - n, u);
    AtInSlice(text, e, |text|, i - e, u);
    if i <= n && e <= end {
      SliceOfOccurrence(text, i, u, n - i, e - i);
      SliceIsAt(m, u, n - i);
      ContainsIsNotApart(u, m);
    } else if i < n < end {
      SliceOfOccurrence(text, i, u, n - i, |u|);
      Overlap(text, n, end, e);
      OverlapIsNotApart(u, m, end - n);
    } else if i < e < end {
      SliceOfOccurrence(text, i, u, 0, e - i);
      OverlapBack(text, n, i, e);
      OverlapIsNotApart(u, m, e - i);
    } else if n <= i && end <= e {
      ContainsIsNotApart(u, m);
    }
  }

  lemma AtIsInside(text: string, i: int, u: string)
    requires At(text, i, u)
    ensures 0 <= i && i + |u| <= |text|
  {
  }

  lemma SliceIsAt(m: string, u: string, i: int)
    requires 0 <= i && i + |m| <= |u| && u[i..i + |m|] == m
    ensures At(u, i, m)
  {
  }

  lemma ContainsIsNotApart(u: string, m: string)
    ensures OccursIn(u, m) || OccursIn(m, u) ==> !Apart(u, m)
  {
  }

  lemma OverlapIsNotApart(u: string, m: string, k: int)
    requires 0 < k <= |u| && k <= |m| && (u[..k] == m[|m| - k..] || u[|u| - k..] == m[..k])
    ensures !Apart(u, m)
  {
  }

  lemma SliceOfOccurrence(text: string, i: int, u: string, lo: int, hi: int)
    requires At(text, i, u) && 0 <= lo <= hi <= |u|
    ensures u[lo..hi] == text[i + lo..i + hi]
  {
    var a, b := u[lo..hi], text[i + lo..i + hi];
    assert forall t :: 0 <= t < |u| ==> u[t] == text[i..i + |u|][t] == text[i + t];
    assert forall t :: 0 <= t < hi - lo ==> a[t] == u[lo + t] && b[t] == text[i + lo + t];
    assert a == b;
  }

  lemma Overlap(text: string, n: int, end: int, e: int)
    requires 0 <= n <= end <= e <= |text|
    ensures text[n..e][..end - n] == text[n..end]
  {
  }

  lemma OverlapBack(text: string, n: int, i: int, e: int)
    requires 0 <= n <= i <= e <= |text|
    ensures text[n..e][i - n..] == text[i..e]
  {
  }

  /** Joining parts without `u` by a marker that is apart from it makes no `u`. */
  lemma {:induction false} JoinStaysClear(parts: seq<string>, m: string, u: string)
    requires parts != [] && u != "" && Apart(u, m) && forall p :: p in parts ==> !OccursIn(u, p)
    ensures !OccursIn(u, Join(parts, m))
  {
    hide OccursIn, Apart;
    if |parts| > 1 {
      JoinStaysClear(parts[1..], m, u);
      AcrossMarker(u, parts[0], m, Join(parts[1..], m));
    }
  }

  lemma ReplaceClears(text: string, v: string, m: string)
    requires v != "" && Apart(v, m)
    ensures !OccursIn(v, ReplaceAll(text, v, m))
  {
    hide Apart;
    PartsOfText(text, v, v);
    JoinStaysClear(Split(text, v), m, v);
  }

  lemma ReplaceKeepsClear(text: string, v: string, m: string, u: string)
    requires v != "" && u != "" && Apart(u, m) && !OccursIn(u, text)
    ensures !OccursIn(u, ReplaceAll(text, v, m))
  {
    hide Apart;
    PartsOfText(text, v, u);
    JoinStaysClear(Split(text, v), m, u);
  }

  lemma PrefixOccurs(v: string, text: string)
    ensures v <= text ==> OccursIn(v, text)
  {
    if v <= text {
      assert text[0..|v|] == v;
      assert At(text, 0, v);
    }
  }

  lemma NotInTail(v: string, text: string)
    requires text != "" && !OccursIn(v, text)
    ensures !(v <= text) && !OccursIn(v, text[1..])
  {
    PrefixOccurs(v, text);
    assert text[1..|text|] == text[1..];
    if OccursIn(v, text[1..|text|]) { OccursInSlice(v, text, 1, |text|); }
  }

  lemma {:induction false} NothingToReplace(text: string, v: string, m: string)
    requires v != "" && !OccursIn(v, text)
    ensures ReplaceAll(text, v, m) == text
    decreases |text|
  {
    hide OccursIn, Join;
    if text == "" {
      JoinOne(m);
    } else {
      NotInTail(v, text);
      NothingToReplace(text[1..], v, m);
      JoinPrepend(text[0], Split(text[1..], v), m);
      assert text == [text[0]] + text[1..];
    }
  }

  lemma JoinOne(m: string)
    ensures Join([""], m) == ""
  {
  }

  lemma ReplaceStep(text: string, v: string, m: string)
    requires v != ""
    ensures ReplaceAll("", v, m) == ""
    ensures text != "" && v <= text ==> ReplaceAll(text, v, m) == m + ReplaceAll(text[|v|..], v, m)
    ensures text != "" && !(v <= text) ==> ReplaceAll(text, v, m) == [text[0]] + ReplaceAll(text[1..], v, m)
  {
    if text == "" {
    } else if v <= text {
      JoinEmptyFirst(Split(text[|v|..], v), m);
    } else {
      JoinPrepend(text[0], Split(text[1..], v), m);
    }
  }

  lemma PrefixEndsBefore(a: string, c: char, b: string, v: string)
    requires c !in v
    ensures v <= a + [c] + b ==> |v| <= |a|
  {
    assert (a + [c] + b)[|a|] == c;
    assert v <= a + [c] + b ==> forall i :: 0 <= i < |v| ==> v[i] == (a + [c] + b)[i];
  }

  /** A replacement works on both sides of a character that the value does not have, separately. */
  lemma {:induction false} ReplaceAcross(a: string, c: char, b: string, v: string, m: string)
    requires v != "" && c !in v
    ensures ReplaceAll(a + [c] + b, v, m) == ReplaceAll(a, v, m) + [c] + ReplaceAll(b, v, m)
    decreases |a|
  {
    hide ReplaceAll;
    var text := a + [c] + b;
    ReplaceStep(text, v, m);
    ReplaceStep(a, v, m);
    assert v <= text ==> |v| <= |a| by { PrefixEndsBefore(a, c, b, v); }
    if a == "" {
      assert text[1..] == b;
    } else if v <= text {
      assert v <= a && text[|v|..] == a[|v|..] + [c] + b;
      ReplaceAcross(a[|v|..], c, b, v, m);
    } else {
      assert text[1..] == a[1..] + [c] + b && (v <= a ==> v <= text);
      ReplaceAcross(a[1..], c, b, v, m);
    }
  }

  // ---------------------------------------------------------------- longest first

  predicate LongestFirst(entries: seq<Entry>) {
    forall i, j :: 0 <= i < j < |entries| ==> |entries[i].value| >= |entries[j].value|
  }

  /** The place of an entry behind all that are at least as long. */
  function InsertByLength(sorted: seq<Entry>, e: Entry): (r: seq<Entry>)
    requires LongestFirst(sorted)
    ensures LongestFirst(r) && forall x :: x in r ==> x == e || x in sorted
  {
    if sorted == [] || |sorted[|sorted| - 1].value| >= |e.value| then sorted + [e]
    else
      var rest, last := InsertByLength(sorted[..|sorted| - 1], e), sorted[|sorted| - 1];
      assert forall x :: x in sorted[..|sorted| - 1] ==> |x.value| >= |last.value|;
      assert forall x :: x in rest ==> |x.value| >= |last.value|;
      assert forall i :: 0 <= i < |rest| ==> rest[i] in rest;
      rest + [last]
  }

  lemma {:induction false} InsertPermutes(sorted: seq<Entry>, e: Entry)
    requires LongestFirst(sorted)
    ensures multiset(InsertByLength(sorted, e)) == multiset(sorted) + multiset{e}
  {
    if sorted != [] && |sorted[|sorted| - 1].value| < |e.value| {
      InsertPermutes(sorted[..|sorted| - 1], e);
      assert sorted == sorted[..|sorted| - 1] + [sorted[|sorted| - 1]];
    }
  }

  /** A stable sort by descending length. */
  function ByLength(entries: seq<Entry>): (r: seq<Entry>)
    ensures LongestFirst(r)
  {
    if entries == [] then [] else InsertByLength(ByLength(entries[..|entries| - 1]), entries[|entries| - 1])
  }

  lemma {:induction false} ByLengthPermutes(entries: seq<Entry>)
    ensures multiset(ByLength(entries)) == multiset(entries)
  {
    if entries != [] {
      var n := |entries| - 1;
      ByLengthPermutes(entries[..n]);
      InsertPermutes(ByLength(entries[..n]), entries[n]);
      assert entries == entries[..n] + [entries[n]];
    }
  }

  // ---------------------------------------------------------------- the whole text

  function RedactInOrder(entries: seq<Entry>, text: string): string {
    if entries == [] then text
    else
      var e := entries[0];
      RedactInOrder(entries[1..], if e.value == "" then text else ReplaceAll(text, e.value, Marker(e.name)))
  }

  function Redacted(values: seq<Entry>, text: string): string { RedactInOrder(ByLength(values), text) }

  method RedactText(values: seq<Entry>, text: string) returns (redacted: string)
    ensures redacted == Redacted(values, text)
  {
    hide ReplaceAll, ByLength;
    redacted := text;
    var sorted := ByLength(values);
    for i := 0 to |sorted|
      invariant RedactInOrder(sorted[i..], redacted) == RedactInOrder(sorted, text)
    {
      assert sorted[i..][1..] == sorted[i + 1..];
      if |sorted[i].value| > 0 {
        redacted := ReplaceAll(redacted, sorted[i].value, Marker(sorted[i].name));
      }
    }
  }

  /** Every value is apart from the marker of the same and of every later entry. */
  ghost predicate Clean(entries: seq<Entry>) {
    forall k :: 0 <= k < |entries| && entries[k].value != "" ==> Unmarked(entries[k..], entries[k].value)
  }

  ghost predicate Unmarked(values: seq<Entry>, v: string) {
    forall other :: other in values ==> Apart(v, Marker(other.name))
  }

  lemma {:induction false} InOrderStaysClear(entries: seq<Entry>, text: string, u: string)
    requires u != "" && Unmarked(entries, u) && !OccursIn(u, text)
    ensures !OccursIn(u, RedactInOrder(entries, text))
  {
    hide OccursIn, ReplaceAll, Marker, Apart;
    if entries != [] {
      var e := entries[0];
      if e.value != "" { ReplaceKeepsClear(text, e.value, Marker(e.name), u); }
      InOrderStaysClear(entries[1..], if e.value == "" then text else ReplaceAll(text, e.value, Marker(e.name)), u);
    }
  }

  lemma {:induction false} InOrderClears(entries: seq<Entry>, text: string, k: nat)
    requires k < |entries| && entries[k].value != "" && Unmarked(entries[k..], entries[k].value)
    ensures !OccursIn(entries[k].value, RedactInOrder(entries, text))
  {
    hide OccursIn, ReplaceAll, Marker, Apart;
    var first := entries[0];
    var next := if first.value == "" then text else ReplaceAll(text, first.value, Marker(first.name));
    if k == 0 {
      ReplaceClears(text, first.value, Marker(first.name));
      InOrderStaysClear(entries[1..], next, first.value);
    } else {
      assert entries[1..][k - 1..] == entries[k..];
      InOrderClears(entries[1..], next, k - 1);
    }
  }

  lemma SameEntries(values: seq<Entry>)
    ensures forall e :: e in ByLength(values) <==> e in values
  {
    ByLengthPermutes(values);
    forall e ensures e in ByLength(values) <==> e in values {
      assert e in ByLength(values) <==> e in multiset(ByLength(values));
      assert e in values <==> e in multiset(values);
    }
  }

  /** Redaction is complete: after the loop no value occurs anywhere in the text, not even across
      the markers that were inserted. */
  lemma RedactionIsComplete(values: seq<Entry>, text: string)
    requires Clean(ByLength(values))
    ensures forall e :: e in values && e.value != "" ==> !OccursIn(e.value, Redacted(values, text))
  {
    hide ByLength, Unmarked, OccursIn;
    SameEntries(values);
    var sorted := ByLength(values);
    forall e | e in values && e.value != "" ensures !OccursIn(e.value, Redacted(values, text)) {
      assert e in sorted;
      var k :| 0 <= k < |sorted| && sorted[k] == e;
      InOrderClears(sorted, text, k);
    }
  }

  lemma {:induction false} InOrderLeaves(entries: seq<Entry>, text: string)
    requires forall e :: e in entries && e.value != "" ==> !OccursIn(e.value, text)
    ensures RedactInOrder(entries, text) == text
  {
    if entries != [] {
      if entries[0].value != "" { NothingToReplace(text, entries[0].value, Marker(entries[0].name)); }
      InOrderLeaves(entries[1..], text);
    }
  }

  /** A text that contains no value is left as it is. */
  lemma TextWithoutValuesStays(values: seq<Entry>, text: string)
    requires forall e :: e in values && e.value != "" ==> !OccursIn(e.value, text)
    ensures Redacted(values, text) == text
  {
    hide ByLength;
    SameEntries(values);
    InOrderLeaves(ByLength(values), text);
  }

  // ---------------------------------------------------------------- why longest first

  lemma LongerDoesNotOccur(u: string, v: string)
    requires |u| >= |v| && u != v
    ensures !OccursIn(u, v)
  {
  }

  lemma WholeReplaced(v: string, m: string)
    requires v != ""
    ensures ReplaceAll(v, v, m) == m
  {
    assert v[|v|..] == "" && Split("", v) == [""];
    assert Split(v, v) == ["", ""];
    assert Join(["", ""], m) == "" + m + Join(["", ""][1..], m);
  }

  /** The first entry of the order that has this value. */
  predicate FirstWithValue(entries: seq<Entry>, k: nat)
    requires k < |entries|
  {
    entries[k].value != "" && forall j :: 0 <= j < k ==> entries[j].value != entries[k].value
  }

  /** A text that is a value becomes the marker, and the marker what the shorter values make of it. */
  lemma {:induction false} WholeInOrder(entries: seq<Entry>, k: nat)
    requires k < |entries| && LongestFirst(entries) && FirstWithValue(entries, k)
    ensures RedactInOrder(entries, entries[k].value) == RedactInOrder(entries[k + 1..], Marker(entries[k].name))
  {
    hide OccursIn, Marker, ReplaceAll;
    var v := entries[k].value;
    if k == 0 {
      WholeReplaced(v, Marker(entries[0].name));
    } else {
      LongerDoesNotOccur(entries[0].value, v);
      if entries[0].value != "" { NothingToReplace(v, entries[0].value, Marker(entries[0].name)); }
      WholeInOrder(entries[1..], k - 1);
      assert entries[1..][k..] == entries[k + 1..];
    }
  }

  /** Because the longest value goes first, a value that contains another is redacted whole: nothing
      of it is left around a marker of the shorter one. */
  lemma ValueIsRedactedWhole(values: seq<Entry>, e: Entry)
    requires e in values && e.value != "" && forall other :: other in values && other.value == e.value ==> other == e
    requires forall other :: other in values && other.value != "" && |other.value| <= |e.value| ==>
               !OccursIn(other.value, Marker(e.name))
    ensures Redacted(values, e.value) == "[redacted:" + e.name + "]"
  {
    hide ByLength, OccursIn, BracketFree, Marker;
    SameEntries(values);
    var sorted := ByLength(values);
    var k := FirstIndex(sorted, e);
    WholeInOrder(sorted, k);
    forall other | other in sorted[k + 1..] && other.value != "" ensures !OccursIn(other.value, Marker(e.name)) {
      assert other in sorted;
      assert |other.value| <= |e.value|;
    }
    InOrderLeaves(sorted[k + 1..], Marker(e.name));
    MarkerReads(e.name);
  }

  lemma FirstIndex(entries: seq<Entry>, e: Entry) returns (k: nat)
    requires e in entries && forall other :: other in entries && other.value == e.value ==> other == e
    ensures k < |entries| && entries[k] == e && forall j :: 0 <= j < k ==> entries[j].value != e.value
  {
    k := 0;
    while entries[k] != e
      invariant k < |entries| && e in entries[k..] && forall j :: 0 <= j < k ==> entries[j] != e
      decreases |entries| - k
    {
      k := k + 1;
    }
  }

  /** In the order of the record, the shorter value would leave the rest of the longer one in sight. */
  lemma ShorterFirstLeaks()
    ensures var values := [Entry("a", "b"), Entry("c", "xby")];
      RedactInOrder(values, "xby") == "x[redacted:a]y" && Redacted(values, "xby") == "[redacted:c]"
  {
    hide ReplaceAll, ByLength;
    var short, long := Entry("a", "b"), Entry("c", "xby");
    ShortReplaced();
    var left := "x[redacted:a]y";
    assert "xby"[1] == 'b';
    MissingCharacter("xby", left, 'b');
    NothingToReplace(left, "xby", Marker("c"));
    assert [short, long][1..] == [long] && [long][1..] == [] && [long, short][1..] == [short] && [short][1..] == [];
    assert RedactInOrder([short, long], "xby") == RedactInOrder([long], left) == RedactInOrder([], left) == left;
    WholeReplaced("xby", Marker("c"));
    var marker := Marker("c");
    assert marker == "[redacted:c]";
    assert "b"[0] == 'b';
    MissingCharacter("b", marker, 'b');
    NothingToReplace(marker, "b", Marker("a"));
    LongGoesFirst(short, long);
    assert RedactInOrder([long, short], "xby") == RedactInOrder([short], marker) == RedactInOrder([], marker) == marker;
  }

  lemma InsertedInFront(short: Entry, long: Entry)
    requires |short.value| < |long.value|
    ensures LongestFirst([short]) && InsertByLength([short], long) == [long, short]
  {
    assert [short][..0] == [];
    assert InsertByLength([], long) == [long];
  }

  lemma InsertedAlone(e: Entry)
    ensures InsertByLength([], e) == [e]
  {
  }

  lemma LongGoesFirst(short: Entry, long: Entry)
    requires |short.value| < |long.value|
    ensures ByLength([short, long]) == [long, short]
  {
    InsertedInFront(short, long);
    hide InsertByLength;
    InsertedAlone(short);
    assert [short, long][..1] == [short] && [short][..0] == [];
    assert ByLength([short]) == InsertByLength([], short) == [short];
  }

  lemma ShortReplaced()
    ensures ReplaceAll("xby", "b", Marker("a")) == "x[redacted:a]y"
  {
  }

  // ---------------------------------------------------------------- when redaction is complete

  /** How a value can come back at a marker: inside it, where it ends, or where it starts. In the last
      case the text that leads up to the marker must not make an earlier occurrence of the value. */
  ghost predicate ComesBack(v: string, m: string) {
    || OccursIn(v, m)
    || (exists k :: StartsAtEnd(v, m, k))
    || (exists j :: EndsAtStart(v, m, j))
  }

  predicate StartsAtEnd(v: string, m: string, k: int) {
    0 < k < |v| && k <= |m| && v[..k] == m[|m| - k..]
  }

  ghost predicate EndsAtStart(v: string, m: string, j: int) {
    && 0 < j < |v| && (v[j..] <= m || m <= v[j..])
    && forall t :: 0 <= t < j ==> !At(v[..j] + v, t, v)
  }

  /** For one credential the condition is exact, brackets or not: redaction is complete for every text
      if and only if the value cannot come back at its own marker. */
  lemma SingleCredentialExact(e: Entry)
    requires e.value != ""
    ensures (forall text :: !OccursIn(e.value, Redacted([e], text))) <==> !ComesBack(e.value, Marker(e.name))
    ensures BracketFree(e.value) ==> (ComesBack(e.value, Marker(e.name)) <==> OccursIn(e.value, Inner(e.name)))
  {
    hide ReplaceAll, ByLength, ComesBack, Marker, OccursIn;
    var v, m := e.value, Marker(e.name);
    if ComesBack(v, m) {
      var text := LeakingText(v, m);
      SingleStep(e, text);
      assert OccursIn(v, Redacted([e], text));
    } else {
      forall text ensures !OccursIn(v, Redacted([e], text)) {
        SingleStep(e, text);
        NothingComes(text, v, m);
      }
    }
    if BracketFree(v) { BracketFreeComesBack(v, e.name); }
  }

  lemma BracketFreeComesBack(v: string, name: string)
    requires v != "" && BracketFree(v)
    ensures ComesBack(v, Marker(name)) <==> OccursIn(v, Inner(name))
  {
    var m := Marker(name);
    if OccursIn(v, Inner(name)) {
      assert m[1..|m| - 1] == Inner(name);
      OccursInSlice(v, m, 1, |m| - 1);
    } else {
      BracketFreeIsApart(v, name);
      forall k ensures !StartsAtEnd(v, m, k) {}
      forall j ensures !EndsAtStart(v, m, j) {
        if 0 < j < |v| {
          assert v[j..][0] in v && m[0] == '[';
        }
      }
    }
  }

  /** The first occurrence of the value is replaced, and the rest by itself. */
  lemma {:induction false} FirstReplaced(text: string, v: string, m: string, i: nat)
    requires v != "" && At(text, i, v) && forall t :: 0 <= t < i ==> !At(text, t, v)
    ensures ReplaceAll(text, v, m) == text[..i] + m + ReplaceAll(text[i + |v|..], v, m)
    decreases i
  {
    hide ReplaceAll;
    ReplaceStep(text, v, m);
    if i == 0 {
      assert text[..0] + m == m && v <= text;
    } else {
      PrefixIsAt(v, text);
      var rest := text[1..];
      assert text[1..|text|] == rest;
      forall t: int ensures At(rest, t, v) <==> 0 <= t && At(text, t + 1, v) {
        AtInSlice(text, 1, |text|, t, v);
      }
      FirstReplaced(rest, v, m, i - 1);
      assert rest[i - 1 + |v|..] == text[i + |v|..];
      assert [text[0]] + (rest[..i - 1] + m + ReplaceAll(text[i + |v|..], v, m)) ==
        text[..i] + m + ReplaceAll(text[i + |v|..], v, m);
    }
  }

  lemma FirstOccurrence(text: string, v: string) returns (i: nat)
    requires OccursIn(v, text)
    ensures At(text, i, v) && forall t :: 0 <= t < i ==> !At(text, t, v)
  {
    var last: nat :| At(text, last, v);
    i := 0;
    while !At(text, i, v)
      invariant i <= last && forall t :: 0 <= t < i ==> !At(text, t, v)
      decreases last - i
    {
      i := i + 1;
    }
  }

  /** A text from which the value comes back. */
  lemma LeakingText(v: string, m: string) returns (text: string)
    requires v != "" && ComesBack(v, m)
    ensures OccursIn(v, ReplaceAll(text, v, m))
  {
    hide ReplaceAll;
    if OccursIn(v, m) {
      text := v;
      WholeReplaced(v, m);
    } else if exists k :: StartsAtEnd(v, m, k) {
      var k :| StartsAtEnd(v, m, k);
      text := v + v[k..];
      LeaksAtEnd(v, m, k);
    } else {
      var j :| EndsAtStart(v, m, j);
      text := v[..j] + v + if m <= v[j..] then v[j..][|m|..] else "";
      LeaksAtStart(v, m, j);
    }
  }

  lemma ShorterIsKept(text: string, v: string, m: string)
    requires |text| < |v|
    ensures ReplaceAll(text, v, m) == text
  {
    hide ReplaceAll;
    NothingToReplace(text, v, m);
  }

  lemma LeaksAtEnd(v: string, m: string, k: int)
    requires StartsAtEnd(v, m, k)
    ensures OccursIn(v, ReplaceAll(v + v[k..], v, m))
  {
    hide ReplaceAll;
    var text := v + v[k..];
    assert text[0..|v|] == v && At(text, 0, v);
    FirstReplaced(text, v, m, 0);
    assert text[|v|..] == v[k..];
    ShorterIsKept(v[k..], v, m);
    var out := m + v[k..];
    assert text[..0] + m + v[k..] == out;
    assert out[|m| - k..|m| - k + |v|] == v[..k] + v[k..] == v;
    assert At(out, |m| - k, v);
  }

  lemma LeaksAtStart(v: string, m: string, j: int)
    requires EndsAtStart(v, m, j)
    ensures OccursIn(v, ReplaceAll(v[..j] + v + if m <= v[j..] then v[j..][|m|..] else "", v, m))
  {
    hide ReplaceAll, OccursIn;
    var w := if m <= v[j..] then v[j..][|m|..] else "";
    FirstAtStart(v, w, j, v[..j] + v + w);
    FirstReplaced(v[..j] + v + w, v, m, j);
    ShorterIsKept(w, v, m);
    var out := v[..j] + m + w;
    Reassembled(v, m, w, j);
    PrefixOccurs(v, out);
  }

  lemma Reassembled(v: string, m: string, w: string, j: int)
    requires 0 < j < |v| && if m <= v[j..] then w == v[j..][|m|..] else v[j..] <= m && w == ""
    ensures v <= v[..j] + m + w
  {
    assert v == v[..j] + v[j..];
    assert v[..j] + m + w == v[..j] + (m + w);
  }

  lemma FirstAtStart(v: string, w: string, j: int, text: string)
    requires 0 < j < |v| && text == v[..j] + v + w && forall t :: 0 <= t < j ==> !At(v[..j] + v, t, v)
    ensures At(text, j, v) && forall t :: 0 <= t < j ==> !At(text, t, v)
    ensures text[..j] == v[..j] && text[j + |v|..] == w
  {
    assert text[j..j + |v|] == v;
    assert text[0..j + |v|] == v[..j] + v;
    forall t | 0 <= t < j ensures !At(text, t, v) { AtInSlice(text, 0, j + |v|, t, v); }
  }

  /** A value that cannot come back at the marker is gone for good. */
  lemma {:induction false} NothingComes(text: string, v: string, m: string)
    requires v != "" && !ComesBack(v, m)
    ensures !OccursIn(v, ReplaceAll(text, v, m))
    decreases |text|
  {
    hide ReplaceAll, ComesBack;
    if !OccursIn(v, text) {
      NothingToReplace(text, v, m);
    } else {
      var i := FirstOccurrence(text, v);
      FirstReplaced(text, v, m, i);
      var rest := text[i + |v|..];
      NothingComes(rest, v, m);
      forall x ensures !At(text[..i] + m + ReplaceAll(rest, v, m), x, v) {
        if At(text[..i] + m + ReplaceAll(rest, v, m), x, v) {
          ComingBack(text, v, m, i, ReplaceAll(rest, v, m), x);
          assert false;
        }
      }
    }
  }

  lemma ComingBack(text: string, v: string, m: string, i: nat, rest: string, x: int)
    requires v != "" && At(text, i, v) && (forall t :: 0 <= t < i ==> !At(text, t, v)) && !OccursIn(v, rest)
    requires At(text[..i] + m + rest, x, v)
    ensures ComesBack(v, m)
  {
    var out, e := text[..i] + m + rest, i + |m|;
    assert out[i..e] == m && out[..i] == text[..i] && out[e..] == rest;
    AtInSlice(out, e, |out|, x - e, v);
    AtInSlice(out, i, e, x - i, v);
    AtInSlice(out, 0, i, x, v);
    AtInSlice(text, 0, i, x, v);
    assert out[e..|out|] == rest && out[0..i] == text[0..i];
    assert x < e && (0 <= x ==> x + |v| > i);
    if i <= x && x + |v| > e {
      var k := e - x;
      assert v[..k] == out[x..e] == m[|m| - k..];
      assert StartsAtEnd(v, m, k);
    } else if x < i {
      StartsBefore(text, v, m, i, rest, x);
    }
  }

  lemma StartsBefore(text: string, v: string, m: string, i: nat, rest: string, x: int)
    requires v != "" && At(text, i, v) && forall t :: 0 <= t < i ==> !At(text, t, v)
    requires At(text[..i] + m + rest, x, v) && x < i < x + |v|
    ensures EndsAtStart(v, m, i - x)
  {
    var out, j := text[..i] + m + rest, i - x;
    assert v[..j] == out[x..i] == text[x..i];
    assert v[j..] == out[i..x + |v|];
    assert out[i..] == m + rest;
    if |v| - j <= |m| {
      assert v[j..] == m[..|v| - j];
    } else {
      assert v[j..][..|m|] == m;
    }
    assert text[x..i + |v|] == v[..j] + v;
    forall t | 0 <= t < j ensures !At(v[..j] + v, t, v) { AtInSlice(text, x, i + |v|, t, v); }
  }

  lemma MarkerReads(name: string)
    ensures Marker(name) == "[redacted:" + name + "]"
  {
  }

  /** One credential: its first occurrence becomes its marker, what stands before it stays, and what comes
      after it is redacted by itself; with `TextWithoutValuesStays` this leaves nothing open. */
  lemma RedactedInPlace(e: Entry, text: string, i: nat)
    requires e.value != "" && At(text, i, e.value) && forall t :: 0 <= t < i ==> !At(text, t, e.value)
    ensures Redacted([e], text) == text[..i] + "[redacted:" + e.name + "]" + Redacted([e], text[i + |e.value|..])
  {
    hide Redacted, ReplaceAll, Marker;
    FirstReplaced(text, e.value, Marker(e.name), i);
    SingleStep(e, text);
    SingleStep(e, text[i + |e.value|..]);
    MarkerReads(e.name);
  }

  lemma SingleStep(e: Entry, text: string)
    requires e.value != ""
    ensures Redacted([e], text) == ReplaceAll(text, e.value, Marker(e.name))
  {
    hide ReplaceAll;
    assert [e][..0] == [] && ByLength([e]) == [e] && [e][1..] == [];
    assert RedactInOrder([e], text) == RedactInOrder([], ReplaceAll(text, e.value, Marker(e.name)));
  }

  /** A value with a bracket can come back where a marker meets the text after it. */
  lemma BracketsLeak(name: string)
    ensures OccursIn("]x", Redacted([Entry(name, "]x")], "]xx"))
  {
    SingleStep(Entry(name, "]x"), "]xx");
    assert "]xx"[2..] == "x" && "x"[1..] == "" && [""][1..] == [];
    assert Split("", "]x") == [""];
    assert ['x'] + "" == "x";
    assert Split("x", "]x") == [['x'] + ""] + [] == ["x"];
    assert Split("]xx", "]x") == ["", "x"];
    assert ["", "x"][1..] == ["x"];
    var out := "" + Marker(name) + "x";
    assert Join(["", "x"], Marker(name)) == out;
    var n := |Marker(name)|;
    assert out[n - 1..n - 1 + 2] == "]x";
    assert At(out, n - 1, "]x");
  }

  predicate BracketFreeValues(entries: seq<Entry>) {
    forall e :: e in entries ==> BracketFree(e.value)
  }

  /** No value is left in what the shorter ones make of a marker, for every marker that can be put. */
  ghost predicate NothingComesBack(entries: seq<Entry>) {
    forall k, e :: 0 <= k < |entries| && FirstWithValue(entries, k) && e in entries && e.value != "" ==>
      !OccursIn(e.value, RedactInOrder(entries[k + 1..], Marker(entries[k].name)))
  }

  lemma {:induction false} InOrderAcross(entries: seq<Entry>, a: string, c: char, b: string)
    requires forall e :: e in entries ==> c !in e.value
    ensures RedactInOrder(entries, a + [c] + b) == RedactInOrder(entries, a) + [c] + RedactInOrder(entries, b)
  {
    hide ReplaceAll, Marker;
    if entries != [] {
      var v, m := entries[0].value, Marker(entries[0].name);
      if v == "" {
        InOrderAcross(entries[1..], a, c, b);
      } else {
        ReplaceAcross(a, c, b, v, m);
        InOrderAcross(entries[1..], ReplaceAll(a, v, m), c, ReplaceAll(b, v, m));
      }
    }
  }

  lemma {:induction false} EmptyStaysEmpty(entries: seq<Entry>)
    ensures RedactInOrder(entries, "") == ""
  {
    hide ReplaceAll;
    if entries != [] {
      if entries[0].value != "" { ReplaceStep("", entries[0].value, Marker(entries[0].name)); }
      EmptyStaysEmpty(entries[1..]);
    }
  }

  /** The later entries work on the parts around a marker and on what the marker says, separately. */
  lemma MarkerStandsApart(entries: seq<Entry>, a: string, name: string, b: string)
    requires BracketFreeValues(entries)
    ensures RedactInOrder(entries, Marker(name)) == ['['] + RedactInOrder(entries, Inner(name)) + [']']
    ensures RedactInOrder(entries, a + Marker(name) + b) ==
      RedactInOrder(entries, a) + ['['] + (RedactInOrder(entries, Inner(name)) + [']'] + RedactInOrder(entries, b))
  {
    hide RedactInOrder, Inner;
    EmptyStaysEmpty(entries);
    assert "" + ['['] + (Inner(name) + [']'] + "") == Marker(name);
    InOrderAcross(entries, "", '[', Inner(name) + [']'] + "");
    InOrderAcross(entries, Inner(name), ']', "");
    assert a + ['['] + (Inner(name) + [']'] + b) == a + Marker(name) + b;
    InOrderAcross(entries, a, '[', Inner(name) + [']'] + b);
    InOrderAcross(entries, Inner(name), ']', b);
  }

  lemma InMarkerOnly(u: string, a: string, inner: string, b: string)
    requires u != "" && BracketFree(u)
    requires !OccursIn(u, a) && !OccursIn(u, b) && !OccursIn(u, ['['] + inner + [']'])
    ensures !OccursIn(u, a + ['['] + (inner + [']'] + b))
  {
    hide OccursIn;
    var marker := ['['] + inner + [']'];
    if OccursIn(u, a + ['['] + (inner + [']'] + b)) {
      OccursOnOneSide(u, a, '[', inner + [']'] + b);
      OccursOnOneSide(u, inner, ']', b);
      assert marker[1..1 + |inner|] == inner;
      OccursInSlice(u, marker, 1, 1 + |inner|);
      assert false;
    }
  }

  /** If `u` is left neither in the parts nor in the marker, it is not left in the joined text. */
  lemma {:induction false} JoinedStaysClear(entries: seq<Entry>, parts: seq<string>, name: string, u: string)
    requires parts != [] && BracketFreeValues(entries) && u != "" && BracketFree(u)
    requires !OccursIn(u, RedactInOrder(entries, Marker(name)))
    requires forall p :: p in parts ==> !OccursIn(u, RedactInOrder(entries, p))
    ensures !OccursIn(u, RedactInOrder(entries, Join(parts, Marker(name))))
  {
    hide RedactInOrder, OccursIn, Inner, BracketFree, BracketFreeValues, Marker;
    if |parts| > 1 {
      var rest := Join(parts[1..], Marker(name));
      JoinedStaysClear(entries, parts[1..], name, u);
      MarkerStandsApart(entries, parts[0], name, rest);
      InMarkerOnly(u, RedactInOrder(entries, parts[0]), RedactInOrder(entries, Inner(name)),
                   RedactInOrder(entries, rest));
    }
  }

  /** From entry `k` on, when no value of an earlier entry is left in the text. */
  lemma {:induction false} FromEntryOn(entries: seq<Entry>, k: nat, text: string, u: Entry)
    requires k <= |entries| && BracketFreeValues(entries) && NothingComesBack(entries)
    requires u in entries && u.value != ""
    requires forall j :: 0 <= j < k && entries[j].value != "" ==> !OccursIn(entries[j].value, text)
    ensures !OccursIn(u.value, RedactInOrder(entries[k..], text))
    decreases |entries| - k
  {
    hide OccursIn, BracketFree, Marker, Join, Split;
    if k == |entries| {
      var j :| 0 <= j < k && entries[j] == u;
    } else {
      var v, m := entries[k].value, Marker(entries[k].name);
      assert entries[k..][1..] == entries[k + 1..];
      if !FirstWithValue(entries, k) {
        if v != "" { NothingToReplace(text, v, m); }
        FromEntryOn(entries, k + 1, text, u);
      } else {
        var parts := Split(text, v);
        PartsOfText(text, v, v);
        forall p | p in parts ensures !OccursIn(u.value, RedactInOrder(entries[k + 1..], p)) {
          forall j | 0 <= j < k + 1 && entries[j].value != "" ensures !OccursIn(entries[j].value, p) {
            PartsOfText(text, v, entries[j].value);
          }
          FromEntryOn(entries, k + 1, p, u);
        }
        assert forall e :: e in entries[k + 1..] ==> e in entries;
        JoinedStaysClear(entries[k + 1..], parts, entries[k].name, u.value);
      }
    }
  }

  /** When redaction is complete: for values without brackets, no value is left in any text exactly when
      none is left in what the loop, after putting a marker, still makes of that marker. */
  lemma RedactionCompleteExactlyWhen(values: seq<Entry>)
    requires BracketFreeValues(values)
    ensures (forall text, e :: e in values && e.value != "" ==> !OccursIn(e.value, Redacted(values, text))) <==>
            NothingComesBack(ByLength(values))
  {
    hide ByLength, OccursIn, BracketFree, RedactInOrder, Marker;
    SameEntries(values);
    var sorted := ByLength(values);
    if NothingComesBack(sorted) {
      forall text, e | e in values && e.value != "" ensures !OccursIn(e.value, Redacted(values, text)) {
        assert sorted[0..] == sorted;
        FromEntryOn(sorted, 0, text, e);
      }
    }
    if forall text, e :: e in values && e.value != "" ==> !OccursIn(e.value, Redacted(values, text)) {
      forall k, e | 0 <= k < |sorted| && FirstWithValue(sorted, k) && e in sorted && e.value != ""
        ensures !OccursIn(e.value, RedactInOrder(sorted[k + 1..], Marker(sorted[k].name)))
      {
        WholeInOrder(sorted, k);
        assert !OccursIn(e.value, Redacted(values, sorted[k].value));
      }
    }
  }

  // ---------------------------------------------------------------- JSON

  datatype Json = Text(text: string) | List(items: seq<Json>) | Object(fields: seq<Field>) | Scalar(shown: string)

  datatype Field = Field(key: string, value: Json)

  function IndexOfKey(entries: seq<Field>, key: string): (i: nat)
    ensures i <= |entries| && (i < |entries| ==> entries[i].key == key)
    ensures forall j :: 0 <= j < i ==> entries[j].key != key
  {
    if entries == [] || entries[0].key == key then 0 else 1 + IndexOfKey(entries[1..], key)
  }

  /** `Object.fromEntries`: a repeated key keeps its place and takes the later value. */
  function FromEntries(entries: seq<Field>): seq<Field> {
    if entries == [] then []
    else
      var before, last := FromEntries(entries[..|entries| - 1]), entries[|entries| - 1];
      var i := IndexOfKey(before, last.key);
      if i < |before| then before[i := last] else before + [last]
  }

  function RedactItems(values: seq<Entry>, items: seq<Json>): (r: seq<Json>)
    ensures |r| == |items|
    decreases items
  {
    if items == [] then [] else [RedactValue(values, items[0])] + RedactItems(values, items[1..])
  }

  function RedactEntries(values: seq<Entry>, entries: seq<Field>): (r: seq<Field>)
    ensures |r| == |entries|
    decreases entries
  {
    if entries == [] then []
    else [Field(Redacted(values, entries[0].key), RedactValue(values, entries[0].value))]
         + RedactEntries(values, entries[1..])
  }

  /** Every string in the tree, keys included, is redacted. */
  function RedactValue(values: seq<Entry>, subject: Json): Json
    decreases subject
  {
    match subject
    case Text(text) => Text(Redacted(values, text))
    case List(items) => List(RedactItems(values, items))
    case Object(entries) => Object(FromEntries(RedactEntries(values, entries)))
    case Scalar(_) => subject
  }

  /** `v` occurs in no string and in no key of the tree. */
  ghost predicate TreeClear(v: string, subject: Json)
    decreases subject
  {
    match subject
    case Text(text) => !OccursIn(v, text)
    case List(items) => forall i :: 0 <= i < |items| ==> TreeClear(v, items[i])
    case Object(entries) => forall i :: 0 <= i < |entries| ==>
      !OccursIn(v, entries[i].key) && TreeClear(v, entries[i].value)
    case Scalar(_) => true
  }

  lemma {:induction false} FromEntriesTakesEntries(entries: seq<Field>)
    ensures forall e :: e in FromEntries(entries) ==> e in entries
  {
    if entries != [] {
      var n := |entries| - 1;
      FromEntriesTakesEntries(entries[..n]);
      assert entries == entries[..n] + [entries[n]];
    }
  }

  lemma FromEntriesStaysClear(entries: seq<Field>, v: string)
    requires forall i :: 0 <= i < |entries| ==> !OccursIn(v, entries[i].key) && TreeClear(v, entries[i].value)
    ensures TreeClear(v, Object(FromEntries(entries)))
  {
    hide OccursIn, FromEntries;
    var r := FromEntries(entries);
    FromEntriesTakesEntries(entries);
    forall i | 0 <= i < |r| ensures !OccursIn(v, r[i].key) && TreeClear(v, r[i].value) {
      assert r[i] in entries;
      var k :| 0 <= k < |entries| && entries[k] == r[i];
    }
  }

  lemma {:induction false} ItemsAreClear(values: seq<Entry>, items: seq<Json>, e: Entry)
    requires NothingComesBack(ByLength(values)) && BracketFreeValues(values) && e in values && e.value != ""
    ensures forall i :: 0 <= i < |items| ==> TreeClear(e.value, RedactItems(values, items)[i])
    decreases items
  {
    hide NothingComesBack, BracketFreeValues, OccursIn, TreeClear;
    if items != [] {
      TreeIsClear(values, items[0], e);
      ItemsAreClear(values, items[1..], e);
    }
  }

  lemma {:induction false} EntriesAreClear(values: seq<Entry>, entries: seq<Field>, e: Entry)
    requires NothingComesBack(ByLength(values)) && BracketFreeValues(values) && e in values && e.value != ""
    ensures var r := RedactEntries(values, entries);
      (forall i :: 0 <= i < |r| ==> !OccursIn(e.value, r[i].key) && TreeClear(e.value, r[i].value)) &&
      TreeClear(e.value, Object(FromEntries(r)))
    decreases entries
  {
    hide NothingComesBack, BracketFreeValues, OccursIn, TreeClear;
    if entries != [] {
      RedactionCompleteExactlyWhen(values);
      TreeIsClear(values, entries[0].value, e);
      EntriesAreClear(values, entries[1..], e);
      assert RedactEntries(values, entries)[1..] == RedactEntries(values, entries[1..]);
    }
    FromEntriesStaysClear(RedactEntries(values, entries), e.value);
  }

  /** Under the same condition redaction of a JSON tree is complete: no value is left in any string or
      key of it. */
  lemma {:induction false} TreeIsClear(values: seq<Entry>, subject: Json, e: Entry)
    requires NothingComesBack(ByLength(values)) && BracketFreeValues(values) && e in values && e.value != ""
    ensures TreeClear(e.value, RedactValue(values, subject))
    decreases subject
  {
    hide NothingComesBack, BracketFreeValues, OccursIn;
    match subject {
      case Text(text) => RedactionCompleteExactlyWhen(values);
      case List(items) => ItemsAreClear(values, items, e);
      case Object(entries) => EntriesAreClear(values, entries, e);
      case Scalar(_) =>
    }
  }

  predicate DistinctKeys(entries: seq<Field>) {
    forall i, j :: 0 <= i < j < |entries| ==> entries[i].key != entries[j].key
  }

  /** An object loses no entry exactly when redaction leaves its keys apart. */
  lemma {:induction false} EntriesSurvive(entries: seq<Field>)
    ensures FromEntries(entries) == entries <==> DistinctKeys(entries)
    ensures DistinctKeys(FromEntries(entries))
  {
    if entries != [] {
      var n := |entries| - 1;
      var init := entries[..n];
      EntriesSurvive(init);
      FromEntriesTakesEntries(init);
      assert entries == init + [entries[n]];
      FromEntriesIsShort(init);
      if DistinctKeys(entries) {
        assert forall i :: 0 <= i < n ==> entries[i].key != entries[n].key;
      }
      if FromEntries(entries) == entries {
        assert FromEntries(init) == init by {
          assert |FromEntries(entries)| == n + 1;
          assert FromEntries(init) == FromEntries(entries)[..n];
        }
      }
    }
  }

  lemma {:induction false} FromEntriesIsShort(entries: seq<Field>)
    ensures |FromEntries(entries)| <= |entries|
  {
    if entries != [] { FromEntriesIsShort(entries[..|entries| - 1]); }
  }

  /** Every key is kept once; its place is that of its first entry and its value that of its last. */
  ghost predicate FirstPlaceLastValue(entries: seq<Field>, r: seq<Field>) {
    && DistinctKeys(r)
    && (forall e :: e in entries ==> IndexOfKey(r, e.key) < |r|)
    && (forall f :: f in r ==> LastOfKey(entries, f))
    && (forall i, j :: 0 <= i < j < |r| ==> IndexOfKey(entries, r[i].key) < IndexOfKey(entries, r[j].key))
  }

  lemma {:induction false} FromEntriesExactly(entries: seq<Field>)
    ensures FirstPlaceLastValue(entries, FromEntries(entries))
  {
    hide FirstPlaceLastValue, IndexOfKey;
    if entries == [] {
      NoEntries(entries, FromEntries(entries));
    } else {
      var n := |entries| - 1;
      FromEntriesExactly(entries[..n]);
      EntriesSurvive(entries);
      assert entries == entries[..n] + [entries[n]];
      OneMoreEntry(entries[..n], entries[n], FromEntries(entries[..n]), FromEntries(entries));
    }
  }

  lemma NoEntries(entries: seq<Field>, r: seq<Field>)
    requires entries == [] && r == []
    ensures FirstPlaceLastValue(entries, r)
  {
  }

  lemma OneMoreEntry(init: seq<Field>, last: Field, before: seq<Field>, r: seq<Field>)
    requires FirstPlaceLastValue(init, before) && DistinctKeys(r)
    requires var k := IndexOfKey(before, last.key); r == if k < |before| then before[k := last] else before + [last]
    ensures FirstPlaceLastValue(init + [last], r)
  {
    hide LastOfKey, IndexOfKey, DistinctKeys;
    forall f | f in r ensures LastOfKey(init + [last], f) { LastOfKeySnoc(init, last, f, before); }
    KeysStay(init, last, before, r);
    forall i | 0 <= i < |before| ensures IndexOfKey(init, before[i].key) < |init| { KeyFound(init, before[i]); }
    OrderStays(init, last, before, r);
  }

  lemma KeysStay(init: seq<Field>, last: Field, before: seq<Field>, r: seq<Field>)
    requires forall e :: e in init ==> IndexOfKey(before, e.key) < |before|
    requires var k := IndexOfKey(before, last.key); r == if k < |before| then before[k := last] else before + [last]
    ensures forall e :: e in init + [last] ==> IndexOfKey(r, e.key) < |r|
    ensures |before| < |r| ==> IndexOfKey(init, last.key) == |init|
  {
    hide IndexOfKey;
    var k := IndexOfKey(before, last.key);
    assert r[k] == last;
    forall e | e in init + [last] ensures IndexOfKey(r, e.key) < |r| {
      if e != last {
        var i := IndexOfKey(before, e.key);
        assert e in init && before[i].key == e.key && r[i].key == e.key;
      }
    }
    assert forall i :: 0 <= i < |init| ==> init[i] in init;
  }

  lemma KeyFound(entries: seq<Field>, f: Field)
    requires LastOfKey(entries, f)
    ensures IndexOfKey(entries, f.key) < |entries|
  {
  }

  lemma OrderStays(init: seq<Field>, last: Field, before: seq<Field>, r: seq<Field>)
    requires forall i :: 0 <= i < |before| ==> IndexOfKey(init, before[i].key) < |init|
    requires forall i, j :: 0 <= i < j < |before| ==>
      IndexOfKey(init, before[i].key) < IndexOfKey(init, before[j].key)
    requires var k := IndexOfKey(before, last.key); r == if k < |before| then before[k := last] else before + [last]
    requires |before| < |r| ==> IndexOfKey(init, last.key) == |init|
    ensures forall i, j :: 0 <= i < j < |r| ==>
      IndexOfKey(init + [last], r[i].key) < IndexOfKey(init + [last], r[j].key)
  {
    hide IndexOfKey;
    assert forall i :: 0 <= i < |before| ==> r[i].key == before[i].key;
    forall i, j | 0 <= i < j < |r|
      ensures IndexOfKey(init + [last], r[i].key) < IndexOfKey(init + [last], r[j].key)
    {
      FirstIndexStays(init, last, r[i].key);
      FirstIndexStays(init, last, r[j].key);
    }
  }

  /** The entry is the last one of its key. */
  ghost predicate LastOfKey(entries: seq<Field>, f: Field) {
    exists i :: 0 <= i < |entries| && entries[i] == f && forall j :: i < j < |entries| ==> entries[j].key != f.key
  }

  lemma LastOfKeySnoc(init: seq<Field>, last: Field, f: Field, before: seq<Field>)
    requires DistinctKeys(before) && forall g :: g in before ==> LastOfKey(init, g)
    requires var k := IndexOfKey(before, last.key);
      f in if k < |before| then before[k := last] else before + [last]
    ensures LastOfKey(init + [last], f)
  {
    var entries := init + [last];
    if f == last {
      assert entries[|init|] == last;
    } else {
      assert f in before && f.key != last.key;
      var i :| 0 <= i < |init| && init[i] == f && forall j :: i < j < |init| ==> init[j].key != f.key;
      assert entries[i] == f;
    }
  }

  lemma {:induction false} FirstIndexStays(init: seq<Field>, last: Field, key: string)
    ensures var i, n := IndexOfKey(init, key), |init|;
      IndexOfKey(init + [last], key) == if i < n then i else if last.key == key then n else n + 1
  {
    if init == [] {
      assert init + [last] == [last] && [last][1..] == [];
    } else {
      assert (init + [last])[1..] == init[1..] + [last];
      FirstIndexStays(init[1..], last, key);
    }
  }

  /** The tree has kept its shape and its order: each text and each key is redacted in its own place and
      everything else is as it was. Where two keys of an object have become the same, the last one's value stays. */
  ghost predicate Mirrors(values: seq<Entry>, subject: Json, r: Json)
    decreases subject
  {
    match subject
    case Text(text) => r == Text(Redacted(values, text))
    case Scalar(_) => r == subject
    case List(items) =>
      r.List? && |r.items| == |items| && forall i :: 0 <= i < |items| ==> Mirrors(values, items[i], r.items[i])
    case Object(entries) =>
      r.Object? && exists all: seq<Field> ::
        && |all| == |entries| && (DistinctKeys(all) ==> r.fields == all)
        && (forall i :: 0 <= i < |entries| ==>
              all[i].key == Redacted(values, entries[i].key) && Mirrors(values, entries[i].value, all[i].value))
        && FirstPlaceLastValue(all, r.fields)
  }

  lemma {:induction false} TreeMirrors(values: seq<Entry>, subject: Json)
    ensures Mirrors(values, subject, RedactValue(values, subject))
    decreases subject
  {
    hide Redacted, FirstPlaceLastValue;
    match subject
    case Text(text) =>
    case Scalar(_) =>
    case List(items) => ItemsMirror(values, items);
    case Object(entries) =>
      var all := RedactEntries(values, entries);
      EntriesMirror(values, entries);
      EntriesSurvive(all);
      FromEntriesExactly(all);
  }

  lemma {:induction false} ItemsMirror(values: seq<Entry>, items: seq<Json>)
    ensures forall i :: 0 <= i < |items| ==> Mirrors(values, items[i], RedactItems(values, items)[i])
    decreases items
  {
    hide Mirrors;
    if items != [] {
      TreeMirrors(values, items[0]);
      ItemsMirror(values, items[1..]);
    }
  }

  lemma {:induction false} EntriesMirror(values: seq<Entry>, entries: seq<Field>)
    ensures forall i :: 0 <= i < |entries| ==>
      && RedactEntries(values, entries)[i].key == Redacted(values, entries[i].key)
      && Mirrors(values, entries[i].value, RedactEntries(values, entries)[i].value)
    decreases entries
  {
    hide Mirrors, Redacted;
    if entries != [] {
      TreeMirrors(values, entries[0].value);
      EntriesMirror(values, entries[1..]);
    }
  }

  /** No object in the tree has a key twice. */
  ghost predicate KeysApart(subject: Json)
    decreases subject
  {
    match subject
    case List(items) => forall i :: 0 <= i < |items| ==> KeysApart(items[i])
    case Object(entries) => DistinctKeys(entries) && forall i :: 0 <= i < |entries| ==> KeysApart(entries[i].value)
    case _ => true
  }

  /** A tree without any value in it comes out as it went in. */
  lemma {:induction false} TreeWithoutValuesStays(values: seq<Entry>, subject: Json)
    requires KeysApart(subject) && forall e :: e in values && e.value != "" ==> TreeClear(e.value, subject)
    ensures RedactValue(values, subject) == subject
    decreases subject
  {
    hide Redacted, OccursIn;
    match subject {
      case Text(text) =>
        assert forall e :: e in values && e.value != "" ==> TreeClear(e.value, subject);
        TextWithoutValuesStays(values, text);
      case Scalar(_) =>
      case List(items) => ItemsStay(values, items);
      case Object(entries) =>
        EntriesStay(values, entries);
        EntriesSurvive(entries);
    }
  }

  lemma {:induction false} ItemsStay(values: seq<Entry>, items: seq<Json>)
    requires forall i :: 0 <= i < |items| ==> KeysApart(items[i])
    requires forall e, i :: e in values && e.value != "" && 0 <= i < |items| ==> TreeClear(e.value, items[i])
    ensures RedactItems(values, items) == items
    decreases items
  {
    hide KeysApart, TreeClear;
    if items != [] {
      TreeWithoutValuesStays(values, items[0]);
      ItemsStay(values, items[1..]);
    }
  }

  lemma {:induction false} EntriesStay(values: seq<Entry>, entries: seq<Field>)
    requires forall i :: 0 <= i < |entries| ==> KeysApart(entries[i].value)
    requires forall e, i :: e in values && e.value != "" && 0 <= i < |entries| ==>
      !OccursIn(e.value, entries[i].key) && TreeClear(e.value, entries[i].value)
    ensures RedactEntries(values, entries) == entries
    decreases entries
  {
    hide KeysApart, TreeClear, Redacted, OccursIn;
    if entries != [] {
      TextWithoutValuesStays(values, entries[0].key);
      TreeWithoutValuesStays(values, entries[0].value);
      EntriesStay(values, entries[1..]);
    }
  }
}
