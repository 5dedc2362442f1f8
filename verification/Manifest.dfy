/** The pure rules of the package store: names, file paths and the manifest
    (packages/server/src/packages/Manifest.ts). */
module Manifest {
  import opened Wrappers
  import opened Texts

  datatype Export = Export(name: string, signature: string)
  datatype PackageManifest = PackageManifest(summary: string, exports: seq<Export>)
  datatype PackageFile = PackageFile(path: string, content: string)

  /** Why a name, a list of files or a manifest is refused; `index` is the offending element. */
  datatype Invalid =
    | BadName
    | NoFiles | BadPath(index: nat) | RepeatedPath(index: nat) | NoIndex | TwoIndexes
    | NoSummary | NoExports | BadExportName(index: nat) | RepeatedExport(index: nat) | BadSignature(index: nat)

  // ---------------------------------------------------------------- names and paths

  predicate NameChar(c: char) {
    'a' <= c <= 'z' || '0' <= c <= '9' || c == '.' || c == '_' || c == '-'
  }

  predicate NameOk(name: string) {
    name != "" && forall c :: c in name ==> NameChar(c)
  }

  function CheckName(name: string): (invalid: Option<Invalid>)
    ensures invalid.None? <==> NameOk(name)
  {
    if name != "" && forall c :: c in name ==> NameChar(c) then None else Some(BadName)
  }

  /** `text.split("/")`. */
  function Segments(text: string): seq<string> { SplitAt(text, '/') }

  predicate EndsWith(text: string, suffix: string) {
    |suffix| <= |text| && text[|text| - |suffix|..] == suffix
  }

  /** The pattern of a path: non-empty segments of name characters, then `.ts` or `.js`. */
  predicate MatchesFilePattern(path: string) {
    (EndsWith(path, ".ts") || EndsWith(path, ".js")) && forall s :: s in Segments(path[..|path| - 3]) ==> NameOk(s)
  }

  predicate FilePathOk(path: string) {
    MatchesFilePattern(path) && "." !in Segments(path) && ".." !in Segments(path)
  }

  /** The file a path leads to from inside a directory, or None when it leads out of it. */
  function Resolve(directory: seq<string>, segments: seq<string>): Option<seq<string>>
    decreases |segments|
  {
    if segments == [] then Some(directory)
    else if segments[0] == "" || segments[0] == "." then Resolve(directory, segments[1..])
    else if segments[0] == ".." then
      if directory == [] then None else Resolve(directory[..|directory| - 1], segments[1..])
    else Resolve(directory + [segments[0]], segments[1..])
  }

  lemma {:induction false} PlainSegmentsStay(directory: seq<string>, segments: seq<string>)
    requires "" !in segments && "." !in segments && ".." !in segments
    ensures Resolve(directory, segments) == Some(directory + segments)
    decreases |segments|
  {
    if segments == [] {
      assert directory + [] == directory;
    } else {
      PlainSegmentsStay(directory + [segments[0]], segments[1..]);
      assert directory + [segments[0]] + segments[1..] == directory + segments;
    }
  }

  /** An accepted path can name nothing outside its own package: it resolves to itself, segment by
      segment, and is relative. */
  lemma PathStaysInside(path: string)
    requires FilePathOk(path)
    ensures Resolve([], Segments(path)) == Some(Segments(path)) && path[0] != '/'
  {
    var stem, suffix := path[..|path| - 3], path[|path| - 3..];
    assert path == stem + suffix;
    SplitExtended(stem, suffix, '/');
    var s := Segments(stem);
    assert forall x :: x in Segments(path) ==> x != "" by {
      forall i | 0 <= i < |Segments(path)| ensures Segments(path)[i] != "" {
        if i < |s| - 1 { assert NameOk(s[i]); }
      }
    }
    PlainSegmentsStay([], Segments(path));
    assert [] + Segments(path) == Segments(path);
    var first, head := path[0], Segments(path)[0];
    assert first == '/' ==> head == "";
  }

  /** A path is accepted exactly when it ends in `.ts` or `.js`, what stands between the slashes before
      that ending is never empty and is spelled like a name, and nothing between slashes is a dot or two. */
  lemma FilePathExactly(path: string)
    ensures FilePathOk(path) <==>
      && |path| >= 3 && path[|path| - 3..] in {".ts", ".js"}
      && (var stem := path[..|path| - 3]; forall s :: PartOf(stem, '/', s) ==> NameOk(s))
      && !PartOf(path, '/', ".") && !PartOf(path, '/', "..")
  {
    hide PartOf, NameOk, SplitAt;
    SplitsIntoParts(path, '/', ".");
    SplitsIntoParts(path, '/', "..");
    if |path| >= 3 {
      var stem := path[..|path| - 3];
      forall s ensures s in Segments(stem) <==> PartOf(stem, '/', s) { SplitsIntoParts(stem, '/', s); }
      assert EndsWith(path, ".ts") || EndsWith(path, ".js") <==> path[|path| - 3..] in {".ts", ".js"};
    }
  }

  const CHECK_FILE := "OPTI.check.ts"

  /** The file of the conformance check cannot be one of a package's files. */
  lemma CheckFileIsNoPackageFile()
    ensures !FilePathOk(CHECK_FILE)
  {
    var stem := CHECK_FILE[..|CHECK_FILE| - 3];
    assert stem == "OPTI.check";
    OnePart(stem, '/');
    assert Segments(stem)[0] == stem && stem[0] == 'O' && !NameChar('O');
    assert !NameOk(stem);
  }

  function EntryFile(paths: seq<string>): Option<string> {
    if "index.ts" in paths then Some("index.ts") else if "index.js" in paths then Some("index.js") else None
  }

  function EmittedPath(path: string): string {
    if EndsWith(path, ".ts") then path[..|path| - 3] + ".js" else path
  }

  /** Emitted paths are accepted paths of JavaScript, and only a `.ts` file and its `.js` twin meet. */
  lemma EmittedPathsMeet(p: string, q: string)
    requires FilePathOk(p) && FilePathOk(q)
    ensures FilePathOk(EmittedPath(p)) && EndsWith(EmittedPath(p), ".js")
    ensures EmittedPath(p) == EmittedPath(q) <==> p[..|p| - 3] == q[..|q| - 3]
  {
    hide MatchesFilePattern, FilePathOk;
    EmittedIsOk(p);
    EmittedIsOk(q);
    assert p == p[..|p| - 3] + p[|p| - 3..] && q == q[..|q| - 3] + q[|q| - 3..];
  }

  lemma EmittedIsOk(p: string)
    requires FilePathOk(p)
    ensures FilePathOk(EmittedPath(p)) && EndsWith(EmittedPath(p), ".js")
    ensures EmittedPath(p) == p[..|p| - 3] + ".js"
  {
    var stem, e := p[..|p| - 3], EmittedPath(p);
    assert p == stem + p[|p| - 3..] && e == stem + ".js";
    assert e[..|e| - 3] == stem;
    SplitExtended(stem, p[|p| - 3..], '/');
    SplitExtended(stem, ".js", '/');
    var s := Segments(stem);
    forall x | x in Segments(e) ensures x != "." && x != ".." {
      if x in s[..|s| - 1] { assert x in Segments(p); }
    }
  }

  // ---------------------------------------------------------------- files

  function Paths(files: seq<PackageFile>): (paths: seq<string>)
    ensures |paths| == |files| && forall i :: 0 <= i < |files| ==> paths[i] == files[i].path
  {
    seq(|files|, i requires 0 <= i < |files| => files[i].path)
  }

  predicate Distinct(s: seq<string>) {
    forall i, j :: 0 <= i < j < |s| ==> s[i] != s[j]
  }

  lemma DistinctNothing()
    ensures Distinct([])
  {
  }

  lemma DistinctStart(s: seq<string>, n: nat)
    requires Distinct(s) && n <= |s|
    ensures Distinct(s[..n])
  {
  }

  lemma DistinctOneMore(s: seq<string>, x: string)
    ensures Distinct(s + [x]) <==> Distinct(s) && x !in s
  {
    if x in s {
      var i :| 0 <= i < |s| && s[i] == x;
      assert (s + [x])[i] == (s + [x])[|s|];
    }
    if Distinct(s + [x]) {
      forall i, j | 0 <= i < j < |s| ensures s[i] != s[j] { assert (s + [x])[i] != (s + [x])[j]; }
    }
  }

  /** What a list of files has to be: paths that are accepted and differ, and exactly one index. */
  ghost predicate FilesOk(files: seq<PackageFile>) {
    && (forall f :: f in files ==> FilePathOk(f.path))
    && Distinct(Paths(files))
    && ("index.ts" in Paths(files) <==> "index.js" !in Paths(files))
  }

  method CheckFiles(files: seq<PackageFile>) returns (invalid: Option<Invalid>)
    ensures invalid.None? <==> FilesOk(files)
    ensures invalid == Some(NoFiles) <==> files == []
    ensures invalid.Some? && invalid.value.BadPath? ==>
      invalid.value.index < |files| && !FilePathOk(files[invalid.value.index].path)
    ensures invalid.Some? && invalid.value.RepeatedPath? ==>
      invalid.value.index < |files| && files[invalid.value.index].path in Paths(files[..invalid.value.index])
    ensures invalid == Some(TwoIndexes) ==> "index.ts" in Paths(files) && "index.js" in Paths(files)
    ensures invalid == Some(NoIndex) ==> EntryFile(Paths(files)).None?
  {
    hide FilePathOk, Distinct;
    DistinctNothing();
    if |files| == 0 { return Some(NoFiles); }
    var seen: set<string> := {};
    for i := 0 to |files|
      invariant seen == set p | p in Paths(files[..i])
      invariant forall j :: 0 <= j < i ==> FilePathOk(files[j].path)
      invariant Distinct(Paths(files[..i]))
    {
      assert Paths(files[..i + 1]) == Paths(files[..i]) + [files[i].path];
      DistinctOneMore(Paths(files[..i]), files[i].path);
      if Distinct(Paths(files)) { DistinctStart(Paths(files), i + 1); }
      assert Paths(files)[..i + 1] == Paths(files[..i + 1]);
      if !FilePathOk(files[i].path) { return Some(BadPath(i)); }
      if files[i].path in seen {
        return Some(RepeatedPath(i));
      }
      seen := seen + {files[i].path};
    }
    assert files[..|files|] == files;
    var paths := Paths(files);
    if EntryFile(paths).None? { return Some(NoIndex); }
    if "index.ts" in paths && "index.js" in paths { return Some(TwoIndexes); }
    return None;
  }

  // ---------------------------------------------------------------- the manifest

  /** White space and line terminators of ECMAScript, which `trim` strips. */
  predicate IsSpace(c: char) {
    var n := c as int;
    (9 <= n <= 13) || n == 32 || n == 0xA0 || n == 0x1680 || (0x2000 <= n <= 0x200A) ||
    n == 0x2028 || n == 0x2029 || n == 0x202F || n == 0x205F || n == 0x3000 || n == 0xFEFF
  }

  function TrimStart(text: string): string {
    if text != "" && IsSpace(text[0]) then TrimStart(text[1..]) else text
  }

  function TrimEnd(text: string): string {
    if text != "" && IsSpace(text[|text| - 1]) then TrimEnd(text[..|text| - 1]) else text
  }

  function Trim(text: string): string { TrimEnd(TrimStart(text)) }

  predicate IdentifierStart(c: char) {
    'A' <= c <= 'Z' || 'a' <= c <= 'z' || c == '_' || c == '$'
  }

  predicate IsIdentifier(name: string) {
    name != "" && IdentifierStart(name[0]) && forall c :: c in name ==> IdentifierStart(c) || '0' <= c <= '9'
  }

  /** A signature in member form, `name(...): ...` or `name: ...`. */
  predicate MemberForm(e: Export) {
    e.name + "(" <= Trim(e.signature) || e.name + ":" <= Trim(e.signature)
  }

  predicate SummaryOk(summary: string) { Trim(summary) != "" }

  function Names(exports: seq<Export>): (names: seq<string>)
    ensures |names| == |exports| && forall i :: 0 <= i < |exports| ==> names[i] == exports[i].name
  {
    seq(|exports|, i requires 0 <= i < |exports| => exports[i].name)
  }

  ghost predicate ExportsOk(exports: seq<Export>) {
    && exports != []
    && (forall e :: e in exports ==> IsIdentifier(e.name) && MemberForm(e))
    && Distinct(Names(exports))
  }

  /** The two halves of a manifest are judged apart, which is why half edits that race cannot
      compose to a manifest that fails. */
  ghost predicate ManifestOk(m: PackageManifest) {
    SummaryOk(m.summary) && ExportsOk(m.exports)
  }

  method CheckManifest(m: PackageManifest) returns (invalid: Option<Invalid>)
    ensures invalid.None? <==> ManifestOk(m)
    ensures invalid == Some(NoSummary) <==> Trim(m.summary) == ""
    ensures invalid.Some? && invalid.value.BadExportName? ==>
      invalid.value.index < |m.exports| && !IsIdentifier(m.exports[invalid.value.index].name)
    ensures invalid.Some? && invalid.value.BadSignature? ==>
      invalid.value.index < |m.exports| && !MemberForm(m.exports[invalid.value.index])
  {
    hide Trim, IsIdentifier, MemberForm, Distinct;
    DistinctNothing();
    if |Trim(m.summary)| == 0 { return Some(NoSummary); }
    if |m.exports| == 0 { return Some(NoExports); }
    var seen: set<string> := {};
    for i := 0 to |m.exports|
      invariant seen == set n | n in Names(m.exports[..i])
      invariant forall j :: 0 <= j < i ==> IsIdentifier(m.exports[j].name) && MemberForm(m.exports[j])
      invariant Distinct(Names(m.exports[..i]))
    {
      var declared := m.exports[i];
      assert Names(m.exports[..i + 1]) == Names(m.exports[..i]) + [declared.name];
      DistinctOneMore(Names(m.exports[..i]), declared.name);
      if Distinct(Names(m.exports)) { DistinctStart(Names(m.exports), i + 1); }
      assert Names(m.exports)[..i + 1] == Names(m.exports[..i + 1]);
      if !IsIdentifier(declared.name) { return Some(BadExportName(i)); }
      if declared.name in seen {
        return Some(RepeatedExport(i));
      }
      seen := seen + {declared.name};
      if !MemberForm(declared) { return Some(BadSignature(i)); }
    }
    assert m.exports[..|m.exports|] == m.exports;
    return None;
  }

  lemma {:induction false} TrimStartBlank(text: string)
    ensures TrimStart(text) == "" <==> forall c :: c in text ==> IsSpace(c)
  {
    if text != "" {
      TrimStartBlank(text[1..]);
      assert text == [text[0]] + text[1..];
    }
  }

  lemma {:induction false} TrimEndBlank(text: string)
    ensures TrimEnd(text) == "" <==> forall c :: c in text ==> IsSpace(c)
  {
    if text != "" {
      TrimEndBlank(text[..|text| - 1]);
      assert text == text[..|text| - 1] + [text[|text| - 1]];
    }
  }

  lemma {:induction false} TrimStartKeepsEnd(text: string) returns (start: nat)
    ensures start <= |text| && TrimStart(text) == text[start..]
    ensures forall i :: 0 <= i < start ==> IsSpace(text[i])
    ensures start < |text| ==> !IsSpace(text[start])
  {
    if text != "" && IsSpace(text[0]) {
      start := TrimStartKeepsEnd(text[1..]);
      start := start + 1;
      assert text[1..][start - 1..] == text[start..];
      assert forall i :: 0 < i <= |text| - 1 ==> text[i] == text[1..][i - 1];
    } else {
      start := 0;
      assert text[0..] == text;
    }
  }

  /** A summary is accepted exactly when something other than white space is in it. */
  lemma SummaryOkExactly(summary: string)
    ensures SummaryOk(summary) <==> exists c :: c in summary && !IsSpace(c)
  {
    var rest := TrimStart(summary);
    TrimStartBlank(summary);
    var start := TrimStartKeepsEnd(summary);
    TrimEndBlank(rest);
    if rest != "" { assert rest[0] == summary[start]; }
  }

  /** A signature is in member form exactly when, white space before it aside, it starts with the export's
      own name and then a parenthesis or a colon. */
  lemma MemberFormExactly(e: Export)
    requires IsIdentifier(e.name)
    ensures MemberForm(e) <==>
      exists k :: 0 <= k <= |e.signature| && (forall i :: 0 <= i < k ==> IsSpace(e.signature[i])) &&
        (e.name + "(" <= e.signature[k..] || e.name + ":" <= e.signature[k..])
  {
    hide TrimStart, TrimEnd;
    var text, rest := e.signature, TrimStart(e.signature);
    TrimEndKeepsPrefix(rest, e.name + "(");
    TrimEndKeepsPrefix(rest, e.name + ":");
    var start := TrimStartKeepsEnd(text);
    forall k | 0 <= k <= |text| && (forall i :: 0 <= i < k ==> IsSpace(text[i])) &&
               (e.name + "(" <= text[k..] || e.name + ":" <= text[k..])
      ensures k == start
    {
      assert text[k] == text[k..][0] == e.name[0] && !IsSpace(e.name[0]);
    }
  }

  lemma {:induction false} TrimEndKeepsPrefix(text: string, prefix: string)
    requires prefix != "" && !IsSpace(prefix[|prefix| - 1])
    ensures prefix <= TrimEnd(text) <==> prefix <= text
  {
    if text != "" && IsSpace(text[|text| - 1]) {
      TrimEndKeepsPrefix(text[..|text| - 1], prefix);
      assert prefix <= text ==> prefix[|prefix| - 1] == text[|prefix| - 1];
    }
  }

  /** In an accepted manifest every signature opens its declaration the way its kind is told: as a
      function with `name(`, or else as a value with `name:`, never both. */
  lemma DeclarationKind(e: Export)
    requires MemberForm(e)
    ensures e.name + "(" <= TrimStart(e.signature) <==> !(e.name + ":" <= TrimStart(e.signature))
  {
    var text := TrimStart(e.signature);
    TrimEndKeepsPrefix(text, e.name + "(");
    TrimEndKeepsPrefix(text, e.name + ":");
    assert (e.name + "(")[|e.name|] == '(' && (e.name + ":")[|e.name|] == ':';
  }
}
