// The update channel pointer: parseChannelPointer in
// packages/desktop/main/updateVerify.js, against the file electron-builder
// writes (`version:`, a `files:` list of `url:` and `sha512:`, and the older
// `path:` and `sha512:` pair).
module ChannelPointer {
  import opened Wrappers
  import opened Text
  import opened Manifest

  datatype PointerRefusal = EmptyPointer | NoVersion | NoFiles

  datatype File = File(url: string, sha512: string)

  // `nested`: `current` is the last file, the one a nested sha512 belongs to.
  datatype Pointer = Pointer(version: string, files: seq<File>, nested: bool)

  datatype PointerLine = Version(version: string) | Url(name: string) | NestedSha(sha: string) | Path(name: string)
      | TopSha(sha: string) | Other

  // ------------------------------------------------------------------ one line

  predicate NoLineEnd(s: string) {
    forall k | 0 <= k < |s| :: !IsLineEnd(s[k])
  }

  // What `\s*(.+)$` captures: all after the white space, or, when there is only
  // white space, its last character.
  function Capture(rest: string): Option<string> {
    var n := Span(rest, IsSpace);
    if rest == [] then None
    else
      var from := if n == |rest| then n - 1 else n;
      if NoLineEnd(rest[from..]) then Some(rest[from..]) else None
  }

  predicate IsQuote(c: char) {
    c == '\'' || c == '"'
  }

  function Unquote(v: string): string {
    var t := Trim(v);
    var u := if t != [] && IsQuote(t[0]) then t[1..] else t;
    if u != [] && IsQuote(u[|u| - 1]) then u[..|u| - 1] else u
  }

  function After(line: string, prefix: string): Option<string> {
    if !(prefix <= line) then None
    else
      match Capture(line[|prefix|..])
      case None => None
      case Some(v) => Some(Unquote(v))
  }

  // `- url:` behind white space.
  function UrlOf(line: string): Option<string> {
    var n := Span(line, IsSpace);
    if n == 0 || n == |line| || line[n] != '-' then None
    else
      var rest := line[n + 1..];
      var m := Span(rest, IsSpace);
      if m == 0 then None else After(rest[m..], "url:")
  }

  function NestedShaOf(line: string): Option<string> {
    var n := Span(line, IsSpace);
    if n == 0 then None else After(line[n..], "sha512:")
  }

  function ReadPointerLine(raw: string): PointerLine {
    var line := WithoutCr(raw);
    if After(line, "version:").Some? then Version(After(line, "version:").value)
    else if UrlOf(line).Some? then Url(UrlOf(line).value)
    else if NestedShaOf(line).Some? then NestedSha(NestedShaOf(line).value)
    else if After(line, "path:").Some? then Path(After(line, "path:").value)
    else if After(line, "sha512:").Some? then TopSha(After(line, "sha512:").value)
    else Other
  }

  // --------------------------------------------------------------- the whole text

  predicate Names(files: seq<File>, name: string) {
    exists k | 0 <= k < |files| :: files[k].url == name
  }

  function LastSha(files: seq<File>, sha: string): seq<File>
    requires files != []
  {
    files[|files| - 1 := files[|files| - 1].(sha512 := sha)]
  }

  function AddLine(p: Pointer, line: PointerLine): Pointer {
    match line
    case Version(v) => p.(version := v)
    case Url(name) => p.(files := p.files + [File(name, [])], nested := true)
    case NestedSha(sha) => if p.nested && p.files != [] then p.(files := LastSha(p.files, sha)) else p
    case Path(name) =>
      p.(files := if Names(p.files, name) then p.files else p.files + [File(name, [])], nested := false)
    case TopSha(sha) =>
      if p.files != [] && p.files[|p.files| - 1].sha512 == [] then p.(files := LastSha(p.files, sha)) else p
    case Other => p
  }

  function Claims(lines: seq<string>): Pointer {
    if lines == [] then Pointer([], [], false)
    else AddLine(Claims(lines[..|lines| - 1]), ReadPointerLine(lines[|lines| - 1]))
  }

  function ParsedPointer(text: string): Result<Pointer, PointerRefusal> {
    if Trim(text) == [] then Err(EmptyPointer)
    else
      var p := Claims(Lines(text));
      if p.version == [] then Err(NoVersion) else if p.files == [] then Err(NoFiles) else Ok(p)
  }

  method ParseChannelPointer(text: string) returns (r: Result<Pointer, PointerRefusal>)
    ensures r == ParsedPointer(text)
  {
    hide ReadPointerLine, Trim, LastSha;
    if Trim(text) == [] { return Err(EmptyPointer); }
    var version: string, files: seq<File>, nested := [], [], false;
    var lines := Lines(text);
    var i := 0;
    while i < |lines|
      invariant i <= |lines|
      invariant Claims(lines[..i]) == Pointer(version, files, nested)
    {
      assert lines[..i + 1][..i] == lines[..i];
      match ReadPointerLine(lines[i]) {
        case Version(v) => version := v;
        case Url(name) =>
          nested := true;
          files := files + [File(name, [])];
        case NestedSha(sha) =>
          if nested && files != [] {
            files := LastSha(files, sha);
          }
        case Path(name) =>
          nested := false;
          if !Names(files, name) {
            files := files + [File(name, [])];
          }
        case TopSha(sha) =>
          if files != [] && files[|files| - 1].sha512 == [] {
            files := LastSha(files, sha);
          }
        case Other =>
      }
      i := i + 1;
    }
    assert lines[..i] == lines;
    if version == [] { return Err(NoVersion); }
    if files == [] { return Err(NoFiles); }
    return Ok(Pointer(version, files, nested));
  }

  // ------------------------------------------------------------- nothing slips past

  lemma ClaimOne(lines: seq<string>, line: string)
    ensures Claims(lines + [line]) == AddLine(Claims(lines), ReadPointerLine(line))
  {
    assert (lines + [line])[..|lines|] == lines;
    hide ReadPointerLine, AddLine;
  }

  predicate LineNames(raw: string, name: string) {
    match ReadPointerLine(raw)
    case Url(n) => n == name
    case Path(n) => n == name
    case _ => false
  }

  predicate SomeLineNames(lines: seq<string>, name: string) {
    exists k | 0 <= k < |lines| :: LineNames(lines[k], name)
  }

  lemma SomeLineNamesGrows(lines: seq<string>, last: string, name: string)
    ensures SomeLineNames(lines + [last], name) <==> SomeLineNames(lines, name) || LineNames(last, name)
  {
    hide LineNames;
    var all := lines + [last];
    assert all[|lines|] == last;
    if k :| 0 <= k < |lines| && LineNames(lines[k], name) {
      assert all[k] == lines[k];
    }
    if k :| 0 <= k < |lines| && LineNames(all[k], name) {
      assert all[k] == lines[k];
    }
  }

  // The files are exactly what the `url:` and `path:` lines name: no line's
  // name is missing, and none comes from elsewhere.
  lemma {:induction false} FilesAreTheNamedLines(lines: seq<string>, name: string)
    ensures Names(Claims(lines).files, name) <==> SomeLineNames(lines, name)
  {
    if lines != [] {
      var front, last := lines[..|lines| - 1], lines[|lines| - 1];
      assert front + [last] == lines;
      var line := ReadPointerLine(last);
      assert LineNames(last, name) <==> (line.Url? || line.Path?) && line.name == name;
      hide *;
      FilesAreTheNamedLines(front, name);
      ClaimOne(front, last);
      AddedNames(Claims(front), line, name);
      SomeLineNamesGrows(front, last, name);
    }
  }

  lemma AddedNames(p: Pointer, line: PointerLine, name: string)
    ensures Names(AddLine(p, line).files, name)
       <==> Names(p.files, name) || ((line.Url? || line.Path?) && line.name == name)
  {
    var files := AddLine(p, line).files;
    if k :| 0 <= k < |p.files| && p.files[k].url == name {
      assert files[k].url == name;
    }
    if k :| 0 <= k < |files| && files[k].url == name && k < |p.files| {
      assert p.files[k].url == name;
    }
    if (line.Url? || (line.Path? && !Names(p.files, line.name))) && line.name == name {
      assert files[|p.files|].url == name;
    }
  }

  // ------------------------------------------------------------------- round trip

  // Text electron-builder writes bare: no white space, no quotes.
  predicate Bare(s: string) {
    s != [] && forall k | 0 <= k < |s| :: !IsSpace(s[k]) && !IsQuote(s[k])
  }

  // A key, a space and its value.
  function Labelled(key: string, v: string): string {
    key + (" " + v)
  }

  lemma CapturesBare(v: string)
    requires Bare(v)
    ensures Capture(" " + v) == Some(v) && Unquote(v) == v
  {
    var rest := " " + v;
    assert rest[1..] == v;
    assert Span(v, IsSpace) == 0;
    assert Span(rest, IsSpace) == 1;
    TrimOfTrimmed(v);
    hide Trim;
  }

  lemma LabelledShape(front: string, key: string, v: string)
    requires Bare(v) && key != []
    ensures var line := Labelled(key, v);
            && line[0] == key[0] && key <= line && line[|key|..] == " " + v
            && WithoutCr(front + line) == front + line
  {
    var line := Labelled(key, v);
    assert line[|line| - 1] == v[|v| - 1] && (front + line)[|front + line| - 1] == line[|line| - 1];
  }

  lemma AfterLabelled(key: string, v: string)
    requires Bare(v) && key != []
    ensures After(Labelled(key, v), key) == Some(v)
  {
    CapturesBare(v);
    LabelledShape([], key, v);
    hide Capture, Unquote, Labelled;
  }

  // A line with another first character is not under the key.
  lemma NotAfter(line: string, key: string)
    requires line != [] && key != [] && line[0] != key[0]
    ensures After(line, key) == None
  {
  }

  lemma NotIndented(line: string)
    requires line != [] && !IsSpace(line[0])
    ensures UrlOf(line) == None && NestedShaOf(line) == None
  {
  }

  lemma Unindented(key: string, v: string)
    requires Bare(v) && key != [] && !IsSpace(key[0])
    ensures var line := Labelled(key, v);
            && line != [] && line[0] == key[0] && WithoutCr(line) == line
            && UrlOf(line) == None && NestedShaOf(line) == None && After(line, key) == Some(v)
  {
    hide UrlOf, NestedShaOf, After, Labelled, WithoutCr;
    LabelledShape([], key, v);
    assert [] + Labelled(key, v) == Labelled(key, v);
    AfterLabelled(key, v);
    NotIndented(Labelled(key, v));
  }

  lemma ReadsVersion(v: string)
    requires Bare(v)
    ensures ReadPointerLine(Labelled("version:", v)) == Version(v)
  {
    Unindented("version:", v);
    hide Labelled, After, UrlOf, NestedShaOf, WithoutCr;
  }

  lemma ReadsPath(v: string)
    requires Bare(v)
    ensures ReadPointerLine(Labelled("path:", v)) == Path(v)
  {
    Unindented("path:", v);
    NotAfter(Labelled("path:", v), "version:");
    hide Labelled, After, UrlOf, NestedShaOf, WithoutCr;
  }

  lemma ReadsTopSha(v: string)
    requires Bare(v)
    ensures ReadPointerLine(Labelled("sha512:", v)) == TopSha(v)
  {
    Unindented("sha512:", v);
    NotAfter(Labelled("sha512:", v), "version:");
    NotAfter(Labelled("sha512:", v), "path:");
    hide Labelled, After, UrlOf, NestedShaOf, WithoutCr;
  }

  lemma {:induction false} SpanOfBlanks(n: nat, s: string, rest: string)
    requires s == seq(n, _ => ' ') + rest && rest != [] && !IsSpace(rest[0])
    ensures Span(s, IsSpace) == n && s[n..] == rest
  {
    if n > 0 {
      assert s[1..] == seq(n - 1, _ => ' ') + rest;
      SpanOfBlanks(n - 1, s[1..], rest);
    }
  }

  // A nested key, four spaces in.
  function Nested(key: string, v: string): string {
    "    " + Labelled(key, v)
  }

  // A nested key that starts a list item.
  function Item(key: string, v: string): string {
    "  - " + Labelled(key, v)
  }

  lemma NestedShape(key: string, v: string)
    requires Bare(v) && key != [] && !IsSpace(key[0])
    ensures var line := Nested(key, v);
            && line != [] && line[0] == ' ' && Span(line, IsSpace) == 4 && line[4..] == Labelled(key, v)
            && WithoutCr(line) == line
  {
    LabelledShape("    ", key, v);
    hide Labelled, WithoutCr;
    SpanOfBlanks(4, Nested(key, v), Labelled(key, v));
  }

  lemma ItemShape(key: string, v: string)
    requires Bare(v) && key != [] && !IsSpace(key[0])
    ensures var line := Item(key, v);
            && |line| > 3 && line[0] == ' ' && Span(line, IsSpace) == 2 && line[2] == '-'
            && Span(line[3..], IsSpace) == 1 && line[3..][1..] == Labelled(key, v)
            && WithoutCr(line) == line
  {
    LabelledShape("  - ", key, v);
    hide Labelled, WithoutCr;
    var line := Item(key, v);
    assert line == "  " + ("- " + Labelled(key, v));
    SpanOfBlanks(2, line, "- " + Labelled(key, v));
    assert line[3..] == " " + Labelled(key, v);
    SpanOfBlanks(1, line[3..], Labelled(key, v));
  }

  lemma ReadsNestedSha(v: string)
    requires Bare(v)
    ensures ReadPointerLine(Nested("sha512:", v)) == NestedSha(v)
  {
    NestedShape("sha512:", v);
    AfterLabelled("sha512:", v);
    NotAfter(Nested("sha512:", v), "version:");
    assert UrlOf(Nested("sha512:", v)) == None by {
      LabelledShape([], "sha512:", v);
      hide Labelled, Nested, After;
    }
    hide Labelled, Nested, After, UrlOf, WithoutCr, Span;
  }

  lemma ReadsUrl(v: string)
    requires Bare(v)
    ensures ReadPointerLine(Item("url:", v)) == Url(v)
  {
    ItemShape("url:", v);
    AfterLabelled("url:", v);
    NotAfter(Item("url:", v), "version:");
    hide Labelled, Item, After, WithoutCr, Span;
  }

  lemma ReadsFilesHeading()
    ensures ReadPointerLine("files:") == Other && WithoutCr("files:") == "files:"
  {
    NotAfter("files:", "version:");
    NotAfter("files:", "path:");
    NotAfter("files:", "sha512:");
    NotIndented("files:");
    hide After, UrlOf, NestedShaOf;
  }

  // ------------------------------------------------------------- the written lines

  function FileLines(f: File): (r: seq<string>)
    ensures |r| == 2
  {
    [Item("url:", f.url), Nested("sha512:", f.sha512)]
  }

  function FilesLines(files: seq<File>): seq<string> {
    if files == [] then [] else FilesLines(files[..|files| - 1]) + FileLines(files[|files| - 1])
  }

  function Heading(version: string): seq<string> {
    [Labelled("version:", version), "files:"]
  }

  function Legacy(f: File): seq<string> {
    [Labelled("path:", f.url), Labelled("sha512:", f.sha512)]
  }

  function PointerLines(version: string, files: seq<File>): seq<string>
    requires files != []
  {
    Heading(version) + FilesLines(files) + Legacy(files[0])
  }

  predicate Writable(files: seq<File>) {
    forall k | 0 <= k < |files| :: Bare(files[k].url) && Bare(files[k].sha512)
  }

  // Two more lines, of which the second is read after the first.
  lemma ClaimTwo(before: seq<string>, pair: seq<string>)
    requires |pair| == 2
    ensures Claims(before + pair)
        == AddLine(AddLine(Claims(before), ReadPointerLine(pair[0])), ReadPointerLine(pair[1]))
  {
    hide ReadPointerLine, Claims, AddLine;
    assert before + pair == before + [pair[0]] + [pair[1]];
    ClaimOne(before, pair[0]);
    ClaimOne(before + [pair[0]], pair[1]);
  }

  lemma ClaimsFile(before: seq<string>, f: File)
    requires Bare(f.url) && Bare(f.sha512)
    ensures var p := Claims(before + FileLines(f));
            p.version == Claims(before).version && p.files == Claims(before).files + [f]
  {
    hide *;
    ReadsFileLines(f);
    ClaimTwo(before, FileLines(f));
    AddsFile(Claims(before), f);
  }

  lemma ReadsFileLines(f: File)
    requires Bare(f.url) && Bare(f.sha512)
    ensures ReadPointerLine(FileLines(f)[0]) == Url(f.url) && ReadPointerLine(FileLines(f)[1]) == NestedSha(f.sha512)
  {
    hide ReadPointerLine, Bare, Item, Nested;
    ReadsUrl(f.url);
    ReadsNestedSha(f.sha512);
  }

  lemma AddsFile(p: Pointer, f: File)
    ensures var q := AddLine(AddLine(p, Url(f.url)), NestedSha(f.sha512));
            q.version == p.version && q.files == p.files + [f]
  {
  }

  lemma FilesLast(head: seq<string>, files: seq<File>)
    requires files != [] && Writable(files)
    ensures var front, f := files[..|files| - 1], files[|files| - 1];
            && Writable(front) && Bare(f.url) && Bare(f.sha512)
            && head + FilesLines(files) == head + FilesLines(front) + FileLines(f)
  {
    hide Bare, FileLines;
  }

  lemma {:induction false} ClaimsFiles(head: seq<string>, files: seq<File>)
    requires Writable(files) && Claims(head).files == []
    ensures Claims(head + FilesLines(files)).version == Claims(head).version
    ensures Claims(head + FilesLines(files)).files == files
  {
    hide FileLines, Claims, ReadPointerLine, Bare;
    if files == [] {
      assert head + FilesLines(files) == head;
    } else {
      var front, f := files[..|files| - 1], files[|files| - 1];
      hide *;
      FilesLast(head, files);
      ClaimsFiles(head, front);
      ClaimsFile(head + FilesLines(front), f);
    }
  }

  lemma ClaimsHeading(version: string)
    requires Bare(version)
    ensures Claims(Heading(version)) == Pointer(version, [], false)
  {
    ClaimTwo([], Heading(version));
    assert [] + Heading(version) == Heading(version);
    ReadsVersion(version);
    ReadsFilesHeading();
    hide ReadPointerLine, Bare, Labelled;
  }

  // The older pair repeats the first file and so changes nothing.
  lemma ClaimsLegacy(before: seq<string>, f: File)
    requires Bare(f.url) && Bare(f.sha512)
    requires Names(Claims(before).files, f.url)
    requires Claims(before).files != [] && Claims(before).files[|Claims(before).files| - 1].sha512 != []
    ensures var p := Claims(before + Legacy(f));
            p.version == Claims(before).version && p.files == Claims(before).files
  {
    hide *;
    AddsLegacy(Claims(before), f);
    ReadsLegacy(f);
    ClaimTwo(before, Legacy(f));
  }

  lemma ReadsLegacy(f: File)
    requires Bare(f.url) && Bare(f.sha512)
    ensures |Legacy(f)| == 2
    ensures ReadPointerLine(Legacy(f)[0]) == Path(f.url) && ReadPointerLine(Legacy(f)[1]) == TopSha(f.sha512)
  {
    hide ReadPointerLine, Bare, Labelled;
    ReadsPath(f.url);
    ReadsTopSha(f.sha512);
  }

  lemma AddsLegacy(p: Pointer, f: File)
    requires Names(p.files, f.url) && p.files != [] && p.files[|p.files| - 1].sha512 != []
    ensures var q := AddLine(AddLine(p, Path(f.url)), TopSha(f.sha512));
            q.version == p.version && q.files == p.files
  {
    hide Names;
  }

  lemma ClaimsWritten(version: string, files: seq<File>)
    requires Bare(version) && files != [] && Writable(files)
    ensures var p := Claims(PointerLines(version, files)); p.version == version && p.files == files
  {
    assert Names(files, files[0].url);
    assert Bare(files[|files| - 1].sha512) && Bare(files[0].url) && Bare(files[0].sha512);
    assert files[|files| - 1].sha512 != [];
    assert PointerLines(version, files) == Heading(version) + FilesLines(files) + Legacy(files[0]);
    hide *;
    ClaimsHeading(version);
    ClaimsFiles(Heading(version), files);
    ClaimsLegacy(Heading(version) + FilesLines(files), files[0]);
  }

  // ------------------------------------------------------------------ as one text

  // A line that is one, and ends in no carriage return of its own.
  predicate Whole(line: string) {
    OneLine(line) && WithoutCr(line) == line
  }

  lemma ReadsWithCr(line: string)
    requires WithoutCr(line) == line
    ensures ReadPointerLine(line + "\r") == ReadPointerLine(line)
  {
    assert WithoutCr(line + "\r") == line;
    hide After, UrlOf, NestedShaOf;
  }

  lemma {:induction false} ClaimsWithCr(lines: seq<string>, crlf: bool)
    requires forall k | 0 <= k < |lines| :: Whole(lines[k])
    ensures Claims(WithCr(lines, crlf)) == Claims(lines)
  {
    hide ReadPointerLine, Whole;
    if lines == [] {
      assert WithCr(lines, crlf) == lines;
    } else {
      var front, last := lines[..|lines| - 1], lines[|lines| - 1];
      var ended := if crlf then last + "\r" else last;
      assert WithCr(lines, crlf) == WithCr(front, crlf) + [ended] && lines == front + [last];
      LastReads(last, crlf);
      hide *;
      ClaimsWithCr(front, crlf);
      ClaimOne(WithCr(front, crlf), ended);
      ClaimOne(front, last);
    }
  }

  lemma LastReads(line: string, crlf: bool)
    requires Whole(line)
    ensures ReadPointerLine(if crlf then line + "\r" else line) == ReadPointerLine(line)
  {
    ReadsWithCr(line);
    hide ReadPointerLine;
  }

  lemma LabelledWhole(front: string, key: string, v: string)
    requires Bare(v) && key != [] && OneLine(front) && OneLine(key)
    ensures Whole(front + Labelled(key, v))
  {
    LabelledShape(front, key, v);
    assert '\n' !in v;
    hide WithoutCr;
  }

  lemma FileLinesWhole(f: File)
    requires Bare(f.url) && Bare(f.sha512)
    ensures Whole(FileLines(f)[0]) && Whole(FileLines(f)[1])
  {
    LabelledWhole("  - ", "url:", f.url);
    LabelledWhole("    ", "sha512:", f.sha512);
    hide Labelled, Whole, Bare;
  }

  lemma {:induction false} FilesWhole(files: seq<File>)
    requires Writable(files)
    ensures forall k | 0 <= k < |FilesLines(files)| :: Whole(FilesLines(files)[k])
  {
    hide Whole, Bare, FileLines;
    if files != [] {
      FilesWhole(files[..|files| - 1]);
      FileLinesWhole(files[|files| - 1]);
    }
  }

  lemma EndsWhole(version: string, f: File)
    requires Bare(version) && Bare(f.url) && Bare(f.sha512)
    ensures forall k | 0 <= k < 2 :: Whole(Heading(version)[k]) && Whole(Legacy(f)[k])
  {
    hide Labelled, Whole, Bare;
    LabelledAlone("version:", version);
    LabelledAlone("path:", f.url);
    LabelledAlone("sha512:", f.sha512);
    FilesHeadingWhole();
  }

  lemma LabelledAlone(key: string, v: string)
    requires Bare(v) && key != [] && OneLine(key)
    ensures Whole(Labelled(key, v))
  {
    LabelledWhole([], key, v);
    assert [] + Labelled(key, v) == Labelled(key, v);
    hide Labelled, Whole;
  }

  lemma FilesHeadingWhole()
    ensures Whole("files:")
  {
  }

  lemma PointerLinesWhole(version: string, files: seq<File>)
    requires Bare(version) && files != [] && Writable(files)
    ensures forall k | 0 <= k < |PointerLines(version, files)| :: Whole(PointerLines(version, files)[k])
  {
    assert Bare(files[0].url) && Bare(files[0].sha512);
    hide Whole, Bare, Labelled, FilesLines;
    FilesWhole(files);
    EndsWhole(version, files[0]);
  }

  lemma StartsInked(lines: seq<string>, crlf: bool)
    requires lines != [] && lines[0] != [] && !IsSpace(lines[0][0])
    ensures Trim(Printed(lines, crlf)) != []
  {
    assert Printed(lines, crlf)[0] == lines[0][0];
    TrimKeepsInk(Printed(lines, crlf), 0);
    hide Trim;
  }

  lemma ClaimsPrinted(lines: seq<string>, crlf: bool)
    requires forall k | 0 <= k < |lines| :: Whole(lines[k])
    ensures Claims(Lines(Printed(lines, crlf))) == Claims(lines)
  {
    assert forall k | 0 <= k < |lines| :: Whole(lines[k]) ==> OneLine(lines[k]);
    EmptyLineSaysNothing();
    hide ReadPointerLine, Whole, Claims;
    LinesOfPrinted(lines, crlf);
    ClaimsWithCr(lines, crlf);
    ClaimOne(WithCr(lines, crlf), []);
  }

  lemma EmptyLineSaysNothing()
    ensures ReadPointerLine([]) == Other
  {
  }

  // The round trip: the text written for a version and a list of files, each
  // with its hash, with either line ending, parses to exactly those.
  lemma PointerRoundTrip(version: string, files: seq<File>, crlf: bool)
    requires Bare(version) && files != [] && Writable(files)
    ensures var parsed := ParsedPointer(Printed(PointerLines(version, files), crlf));
            parsed.Ok? && parsed.value.version == version && parsed.value.files == files
  {
    var lines := PointerLines(version, files);
    assert version != [] by {
      hide ParsedPointer;
    }
    StartsWithVersion(version, files);
    hide Bare, PointerLines, Printed, Trim, Claims, Lines, Writable, Whole;
    PointerLinesWhole(version, files);
    StartsInked(lines, crlf);
    ClaimsPrinted(lines, crlf);
    ClaimsWritten(version, files);
  }

  lemma StartsWithVersion(version: string, files: seq<File>)
    requires Bare(version) && files != []
    ensures var lines := PointerLines(version, files); lines != [] && lines[0] != [] && !IsSpace(lines[0][0])
  {
    LabelledShape([], "version:", version);
    assert PointerLines(version, files)[0] == Labelled("version:", version);
    hide Labelled;
  }
}
