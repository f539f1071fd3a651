// How the lines of a channel pointer are read, with any white space and quotes
// around a value, and which file a hash belongs to.
module PointerReading {
  import opened Wrappers
  import opened Text
  import opened Manifest
  import opened ChannelPointer

  // ----------------------------------------------------------------------- values

  // A value as it is meant: no quote and no white space at its ends.
  predicate Clean(v: string) {
    && v != [] && Trimmed(v) && !IsQuote(v[0]) && !IsQuote(v[|v| - 1]) && NoLineEnd(v)
  }

  predicate QuoteOrNone(q: string) {
    q == "" || q == "'" || q == "\""
  }

  predicate Blanks(s: string) {
    forall k | 0 <= k < |s| :: IsSpace(s[k]) && !IsLineEnd(s[k])
  }

  // White space and one quote on either side are taken off.
  lemma UnquoteTakesOff(lead: string, q: string, v: string, r: string, trail: string)
    requires Blanks(lead) && Blanks(trail) && QuoteOrNone(q) && QuoteOrNone(r) && Clean(v)
    ensures Unquote(lead + (q + v + r) + trail) == v
  {
    hide *;
    QuotedTrimmed(q, v, r);
    BlanksAreSpaces(lead);
    BlanksAreSpaces(trail);
    TrimOfPadded(lead, q + v + r, trail);
    StripsFront(q, v, r);
    StripsBack(v, r);
    UnquoteOf(lead + (q + v + r) + trail, q + v + r, v + r, v);
  }

  lemma BlanksAreSpaces(s: string)
    requires Blanks(s)
    ensures All(s, IsSpace)
  {
    hide IsSpace, IsLineEnd;
  }

  lemma StripsFront(q: string, v: string, r: string)
    requires QuoteOrNone(q) && Clean(v)
    ensures var t := q + v + r; v + r == if t != [] && IsQuote(t[0]) then t[1..] else t
  {
    if q == "" {
      assert q + v + r == v + r;
    } else {
      assert (q + v + r)[1..] == v + r;
    }
    hide IsSpace, NoLineEnd;
  }

  lemma StripsBack(v: string, r: string)
    requires QuoteOrNone(r) && Clean(v)
    ensures var u := v + r; v == if u != [] && IsQuote(u[|u| - 1]) then u[..|u| - 1] else u
  {
    if r == "" {
      assert v + r == v;
    } else {
      assert (v + r)[..|v + r| - 1] == v;
    }
    hide IsSpace, NoLineEnd;
  }

  lemma UnquoteOf(x: string, t: string, u: string, v: string)
    requires Trim(x) == t
    requires u == if t != [] && IsQuote(t[0]) then t[1..] else t
    requires v == if u != [] && IsQuote(u[|u| - 1]) then u[..|u| - 1] else u
    ensures Unquote(x) == v
  {
    hide Trim, IsQuote;
  }

  lemma QuotedTrimmed(q: string, v: string, r: string)
    requires QuoteOrNone(q) && QuoteOrNone(r) && Clean(v)
    ensures var t := q + v + r; t != [] && Trimmed(t)
    ensures q == "" ==> (q + v + r)[0] == v[0]
  {
  }

  // What follows a key: blanks, the value in or out of quotes, blanks.
  function ValueText(gap: string, q: string, v: string, r: string, trail: string): string {
    gap + (q + v + r) + trail
  }

  lemma CapturesValue(gap: string, q: string, v: string, r: string, trail: string)
    requires Blanks(gap) && Blanks(trail) && QuoteOrNone(q) && QuoteOrNone(r) && Clean(v)
    ensures var c := Capture(ValueText(gap, q, v, r, trail)); c.Some? && Unquote(c.value) == v
  {
    hide *;
    var body := (q + v + r) + trail;
    ValueTextIs(gap, q, v, r, trail);
    BodyStarts(q, v, r, trail);
    SpanOfGap(gap, body);
    GapThen(gap, body);
    CaptureIs(ValueText(gap, q, v, r, trail), |gap|, body);
    NoBlanks(q + v + r);
    UnquoteTakesOff("", q, v, r, trail);
  }

  lemma ValueTextIs(gap: string, q: string, v: string, r: string, trail: string)
    ensures ValueText(gap, q, v, r, trail) == gap + ((q + v + r) + trail)
  {
  }

  lemma GapThen(gap: string, body: string)
    ensures (gap + body)[|gap|..] == body && |gap + body| == |gap| + |body|
  {
  }

  lemma NoBlanks(body: string)
    ensures "" + body == body && Blanks("")
  {
  }

  lemma CaptureIs(rest: string, n: nat, body: string)
    requires n < |rest| && Span(rest, IsSpace) == n && rest[n..] == body && NoLineEnd(body)
    ensures Capture(rest) == Some(body)
  {
    hide Span, NoLineEnd, IsSpace;
  }

  lemma BodyStarts(q: string, v: string, r: string, trail: string)
    requires Blanks(trail) && QuoteOrNone(q) && QuoteOrNone(r) && Clean(v)
    ensures var body := (q + v + r) + trail; body != [] && !IsSpace(body[0]) && NoLineEnd(body)
  {
  }

  lemma {:induction false} SpanOfGap(gap: string, body: string)
    requires Blanks(gap) && body != [] && !IsSpace(body[0])
    ensures Span(gap + body, IsSpace) == |gap|
  {
    hide IsSpace, IsLineEnd;
    if gap == [] {
      assert gap + body == body;
    } else {
      assert (gap + body)[1..] == gap[1..] + body;
      SpanOfGap(gap[1..], body);
    }
  }

  lemma AfterReads(key: string, gap: string, q: string, v: string, r: string, trail: string)
    requires Blanks(gap) && Blanks(trail) && QuoteOrNone(q) && QuoteOrNone(r) && Clean(v)
    ensures After(key + ValueText(gap, q, v, r, trail), key) == Some(v)
  {
    CapturesValue(gap, q, v, r, trail);
    var line := key + ValueText(gap, q, v, r, trail);
    assert line[|key|..] == ValueText(gap, q, v, r, trail);
    hide Capture, Unquote, ValueText, IsSpace, IsLineEnd;
  }

  // ------------------------------------------------------------------------ lines

  predicate Indent(s: string) {
    s != [] && Blanks(s)
  }

  lemma EndsInked(front: string, gap: string, q: string, v: string, r: string, trail: string)
    requires Blanks(gap) && Blanks(trail) && QuoteOrNone(q) && QuoteOrNone(r) && Clean(v)
    ensures WithoutCr(front + ValueText(gap, q, v, r, trail)) == front + ValueText(gap, q, v, r, trail)
  {
    var s := front + ValueText(gap, q, v, r, trail);
    if trail != [] {
      assert s[|s| - 1] == trail[|trail| - 1];
    } else if r != [] {
      assert s[|s| - 1] == r[|r| - 1];
    } else {
      assert s[|s| - 1] == v[|v| - 1];
    }
    hide IsSpace;
  }

  // The three keys that stand at the start of a line.
  lemma TopLineReads(key: string, gap: string, q: string, v: string, r: string, trail: string)
    requires key == "version:" || key == "path:" || key == "sha512:"
    requires Blanks(gap) && Blanks(trail) && QuoteOrNone(q) && QuoteOrNone(r) && Clean(v)
    ensures ReadPointerLine(key + ValueText(gap, q, v, r, trail))
         == if key == "version:" then Version(v) else if key == "path:" then Path(v) else TopSha(v)
  {
    var line := key + ValueText(gap, q, v, r, trail);
    AfterReads(key, gap, q, v, r, trail);
    EndsInked(key, gap, q, v, r, trail);
    KeyStarts(key, ValueText(gap, q, v, r, trail));
    NotIndented(line);
    hide ValueText, After, UrlOf, NestedShaOf, WithoutCr;
  }

  lemma KeyStarts(key: string, rest: string)
    requires key == "version:" || key == "path:" || key == "sha512:"
    ensures key + rest != [] && !IsSpace((key + rest)[0])
    ensures key != "version:" ==> After(key + rest, "version:").None?
    ensures key == "sha512:" ==> After(key + rest, "path:").None?
  {
    assert (key + rest)[0] == key[0];
    hide Capture, Unquote;
  }

  // An indented hash belongs to the list of files, and so does an indented dash
  // with a url behind it.
  lemma NestedShaReads(indent: string, gap: string, q: string, v: string, r: string, trail: string)
    requires Indent(indent)
    requires Blanks(gap) && Blanks(trail) && QuoteOrNone(q) && QuoteOrNone(r) && Clean(v)
    ensures ReadPointerLine(indent + ("sha512:" + ValueText(gap, q, v, r, trail))) == NestedSha(v)
  {
    hide *;
    var value := ValueText(gap, q, v, r, trail);
    var line := indent + ("sha512:" + value);
    Joined(indent, "sha512:", value);
    EndsInked(indent + "sha512:", gap, q, v, r, trail);
    AfterReads("sha512:", gap, q, v, r, trail);
    StartsWith("sha512:", value);
    IndentIsBlank(indent, "sha512:" + value);
    IndentedNoKey(line, "version:");
    NestedShaOfIs(indent, "sha512:" + value, v);
    ReadsAsNested(line, v);
  }

  lemma Joined(a: string, b: string, c: string)
    ensures a + b + c == a + (b + c)
  {
  }

  lemma StartsWith(key: string, rest: string)
    requires key == "sha512:" || key == "url:"
    ensures key + rest != [] && (key + rest)[0] == key[0] && !IsSpace((key + rest)[0]) && (key + rest)[0] != '-'
    ensures "version:" != [] && !IsSpace("version:"[0])
  {
    assert (key + rest)[0] == key[0];
  }

  lemma IndentIsBlank(indent: string, rest: string)
    requires Indent(indent)
    ensures indent + rest != [] && IsSpace((indent + rest)[0]) && Blanks(indent) && |indent| > 0
    ensures "version:" != [] && !IsSpace("version:"[0])
  {
    assert (indent + rest)[0] == indent[0];
  }

  lemma IndentedNoKey(line: string, key: string)
    requires line != [] && IsSpace(line[0]) && key != [] && !IsSpace(key[0])
    ensures After(line, key).None?
  {
    hide IsSpace;
  }

  lemma NestedShaOfIs(indent: string, item: string, v: string)
    requires Blanks(indent) && |indent| > 0 && item != [] && !IsSpace(item[0]) && item[0] != '-'
    requires After(item, "sha512:") == Some(v)
    ensures UrlOf(indent + item).None? && NestedShaOf(indent + item) == Some(v)
  {
    SpanOfGap(indent, item);
    GapThen(indent, item);
    assert (indent + item)[|indent|] == item[0];
    hide After, IsSpace, Blanks, Span;
  }

  lemma ReadsAsNested(line: string, v: string)
    requires WithoutCr(line) == line && After(line, "version:").None? && UrlOf(line).None?
    requires NestedShaOf(line) == Some(v)
    ensures ReadPointerLine(line) == NestedSha(v)
  {
    hide WithoutCr, After, UrlOf, NestedShaOf;
  }

  lemma UrlLineReads(indent: string, dash: string, gap: string, q: string, v: string, r: string, trail: string)
    requires Indent(indent) && Indent(dash)
    requires Blanks(gap) && Blanks(trail) && QuoteOrNone(q) && QuoteOrNone(r) && Clean(v)
    ensures ReadPointerLine(indent + ("-" + (dash + ("url:" + ValueText(gap, q, v, r, trail))))) == Url(v)
  {
    hide *;
    var value := ValueText(gap, q, v, r, trail);
    var item := "url:" + value;
    var line := indent + ("-" + (dash + item));
    Joined(indent, "-", dash + item);
    Joined(indent + "-", dash, item);
    Joined(indent + "-" + dash, "url:", value);
    EndsInked(indent + "-" + dash + "url:", gap, q, v, r, trail);
    AfterReads("url:", gap, q, v, r, trail);
    StartsWith("url:", value);
    IndentIsBlank(indent, "-" + (dash + item));
    IndentIsBlank(dash, item);
    IndentedNoKey(line, "version:");
    UrlOfIs(indent, dash, item, v);
    ReadsAsUrl(line, v);
  }

  lemma UrlOfIs(indent: string, dash: string, item: string, v: string)
    requires Blanks(indent) && |indent| > 0 && Blanks(dash) && |dash| > 0 && item != [] && !IsSpace(item[0])
    requires After(item, "url:") == Some(v)
    ensures UrlOf(indent + ("-" + (dash + item))) == Some(v)
  {
    var body := "-" + (dash + item);
    assert body[0] == '-' && !IsSpace(body[0]);
    SpanOfGap(indent, body);
    SpanOfGap(dash, item);
    GapThen(dash, item);
    assert (indent + body)[|indent|] == '-';
    AfterDash(indent, dash + item);
    hide After, IsSpace, Blanks, Span;
  }

  lemma AfterDash(indent: string, rest: string)
    ensures (indent + ("-" + rest))[|indent| + 1..] == rest
  {
  }

  lemma ReadsAsUrl(line: string, v: string)
    requires WithoutCr(line) == line && After(line, "version:").None? && UrlOf(line) == Some(v)
    ensures ReadPointerLine(line) == Url(v)
  {
    hide WithoutCr, After, UrlOf;
  }

  // ------------------------------------------------- which file a hash belongs to

  predicate NamesAFile(raw: string) {
    ReadPointerLine(raw).Url? || ReadPointerLine(raw).Path?
  }

  // The last indented hash among some lines, or the one before them.
  function LastNested(block: seq<string>, sha: string): string {
    if block == [] then sha
    else
      match ReadPointerLine(block[|block| - 1])
      case NestedSha(s) => s
      case _ => LastNested(block[..|block| - 1], sha)
  }

  predicate Inner(block: seq<string>) {
    forall k | 0 <= k < |block| :: !NamesAFile(block[k]) && !ReadPointerLine(block[k]).TopSha?
  }

  // The indented hashes behind a listed file are that file's, the last one
  // counting, and no other file's.
  lemma {:induction false} NestedHashIsItsFiles(before: seq<string>, raw: string, name: string, block: seq<string>)
    requires ReadPointerLine(raw) == Url(name) && Inner(block)
    ensures var p := Claims(before + [raw] + block);
            p.nested && p.files == Claims(before).files + [File(name, LastNested(block, ""))]
  {
    hide ReadPointerLine;
    if block == [] {
      assert before + [raw] + block == before + [raw];
      ClaimOne(before, raw);
    } else {
      var front, last := block[..|block| - 1], block[|block| - 1];
      assert before + [raw] + block == before + [raw] + front + [last];
      assert forall k | 0 <= k < |front| :: front[k] == block[k];
      NestedHashIsItsFiles(before, raw, name, front);
      ClaimOne(before + [raw] + front, last);
      assert !NamesAFile(last) && !ReadPointerLine(last).TopSha?;
    }
  }

  // Behind a `path:` line an indented hash belongs to nothing.
  lemma {:induction false} NestedHashBehindPath(before: seq<string>, raw: string, block: seq<string>)
    requires ReadPointerLine(raw).Path? && Inner(block)
    ensures var p := Claims(before + [raw] + block); !p.nested && p.files == Claims(before + [raw]).files
  {
    hide ReadPointerLine;
    if block == [] {
      assert before + [raw] + block == before + [raw];
      ClaimOne(before, raw);
    } else {
      var front, last := block[..|block| - 1], block[|block| - 1];
      assert before + [raw] + block == before + [raw] + front + [last];
      assert forall k | 0 <= k < |front| :: front[k] == block[k];
      NestedHashBehindPath(before, raw, front);
      ClaimOne(before + [raw] + front, last);
      assert !NamesAFile(last) && !ReadPointerLine(last).TopSha?;
    }
  }

  // The older pair: a name the list does not have is another file with that
  // hash; one it has adds no file, and the hash fills in the last file's only
  // if that one has none.
  lemma OlderPair(before: seq<string>, path: string, name: string, hashed: string, sha: string)
    requires ReadPointerLine(path) == Path(name) && ReadPointerLine(hashed) == TopSha(sha)
    ensures var had, p := Claims(before).files, Claims(before + [path] + [hashed]);
            if forall k | 0 <= k < |had| :: had[k].url != name then p.files == had + [File(name, sha)]
            else
              && |p.files| == |had| && p.files[..|had| - 1] == had[..|had| - 1]
              && p.files[|had| - 1] == File(had[|had| - 1].url,
                     if had[|had| - 1].sha512 == "" then sha else had[|had| - 1].sha512)
  {
    hide ReadPointerLine;
    ClaimOne(before, path);
    ClaimOne(before + [path], hashed);
    OlderPairFiles(Claims(before), name, sha);
  }

  lemma OlderPairFiles(p: Pointer, name: string, sha: string)
    ensures var had, files := p.files, AddLine(AddLine(p, Path(name)), TopSha(sha)).files;
            if forall k | 0 <= k < |had| :: had[k].url != name then files == had + [File(name, sha)]
            else
              && |files| == |had| && files[..|had| - 1] == had[..|had| - 1]
              && files[|had| - 1] == File(had[|had| - 1].url,
                     if had[|had| - 1].sha512 == "" then sha else had[|had| - 1].sha512)
  {
    var q := AddLine(p, Path(name));
    if !Names(p.files, name) {
      assert q.files == p.files + [File(name, "")];
      assert LastSha(q.files, sha) == p.files + [File(name, sha)];
    } else {
      assert q.files == p.files;
    }
  }

  // The version is the last one stated.
  lemma {:induction false} VersionIsLast(before: seq<string>, raw: string, v: string, after: seq<string>)
    requires ReadPointerLine(raw) == Version(v)
    requires forall k | 0 <= k < |after| :: !ReadPointerLine(after[k]).Version?
    ensures Claims(before + [raw] + after).version == v
  {
    hide ReadPointerLine;
    if after == [] {
      assert before + [raw] + after == before + [raw];
      ClaimOne(before, raw);
    } else {
      var front, last := after[..|after| - 1], after[|after| - 1];
      assert before + [raw] + after == before + [raw] + front + [last];
      assert forall k | 0 <= k < |front| :: front[k] == after[k];
      VersionIsLast(before, raw, v, front);
      ClaimOne(before + [raw] + front, last);
    }
  }

  // Which pointer is refused for what.
  lemma ParsedPointerCases(text: string)
    ensures var p, r := Claims(Lines(text)), ParsedPointer(text);
            if Trim(text) == "" then r == Err(EmptyPointer)
            else if p.version == "" then r == Err(NoVersion)
            else if |p.files| == 0 then r == Err(NoFiles)
            else r == Ok(p)
  {
    hide Trim, Claims, Lines;
  }
}
