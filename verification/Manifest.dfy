// The release manifest: parseManifest in packages/desktop/main/updateVerify.js,
// against the writer's format in tools/release/lib.sh (xr_write_manifest).
module Manifest {
  import opened Wrappers
  import opened Text

  // JavaScript's Number() on a string, where it names an integer.
  type Numbers = string -> Option<int>

  ghost predicate ReadsDecimals(num: Numbers) {
    forall n: nat :: num(Digits(n)) == Some(n)
  }

  datatype Refusal =
    | EmptyManifest | MalformedLine | NoHeader | CoversNothing | WrongCount

  datatype Contents = Contents(header: map<string, string>, entries: map<string, string>)

  // ------------------------------------------------------------------ one line

  // split('\n').
  function Lines(text: string): (ls: seq<string>)
    ensures |ls| >= 1
  {
    if text == [] then [[]]
    else
      var rest := Lines(text[1..]);
      if text[0] == '\n' then [[]] + rest else [[text[0]] + rest[0]] + rest[1..]
  }

  function WithoutCr(line: string): string {
    if line != [] && line[|line| - 1] == '\r' then line[..|line| - 1] else line
  }

  predicate IsHex(c: char) {
    IsDigit(c) || 'a' <= c <= 'f'
  }

  const HASH_WIDTH := 64

  // MANIFEST_LINE, which ignores case.
  predicate IsHashLine(line: string) {
    && |line| > HASH_WIDTH + 2
    && (forall k | 0 <= k < HASH_WIDTH :: IsHex(Lower(line[k])))
    && line[HASH_WIDTH] == ' ' && line[HASH_WIDTH + 1] == ' '
    && (forall k | HASH_WIDTH + 2 <= k < |line| :: !IsLineEnd(line[k]))
  }

  function NormalizeName(name: string): string {
    Trim(if |name| >= 2 && name[0] == '.' && name[1] == '/' then name[2..] else name)
  }

  datatype Line = Blank | Remark | Field(key: string, value: string) | Hashed(name: string, hash: string) | Malformed

  const SEPARATOR := ": "

  function ReadComment(line: string): Line {
    FindOccurs(line, SEPARATOR);
    match Find(line, SEPARATOR)
    case Some(i) => if i > 1 then Field(Trim(line[2..i]), Trim(line[i + 2..])) else Remark
    case None => Remark
  }

  function ReadLine(raw: string): Line {
    var line := WithoutCr(raw);
    if Trim(line) == [] then Blank
    else if '#' == line[0] then ReadComment(line)
    else if IsHashLine(line) then Hashed(NormalizeName(line[HASH_WIDTH + 2..]), LowerAll(line[..HASH_WIDTH]))
    else Malformed
  }

  // --------------------------------------------------------------- the whole text

  function Add(c: Contents, line: Line): Option<Contents> {
    match line
    case Field(key, value) => Some(c.(header := c.header[key := value]))
    case Hashed(name, hash) => Some(c.(entries := c.entries[name := hash]))
    case Malformed => None
    case _ => Some(c)
  }

  // What the first lines amount to; None once one is malformed.
  function Gathered(lines: seq<string>): Option<Contents> {
    if lines == [] then Some(Contents(map[], map[]))
    else
      match Gathered(lines[..|lines| - 1])
      case None => None
      case Some(c) => Add(c, ReadLine(lines[|lines| - 1]))
  }

  // The three checks at the end.
  function Judge(c: Contents, num: Numbers): Result<Contents, Refusal> {
    if "manifest-version" !in c.header || c.header["manifest-version"] == [] then Err(NoHeader)
    else if |c.entries| == 0 then Err(CoversNothing)
    else if "artifacts" !in c.header || num(c.header["artifacts"]) != Some(|c.entries|) then Err(WrongCount)
    else Ok(c)
  }

  function Parsed(text: string, num: Numbers): Result<Contents, Refusal> {
    if Trim(text) == [] then Err(EmptyManifest)
    else
      match Gathered(Lines(text))
      case None => Err(MalformedLine)
      case Some(c) => Judge(c, num)
  }

  lemma {:induction false} MalformedForGood(lines: seq<string>, n: nat)
    requires n <= |lines| && Gathered(lines[..n]) == None
    ensures Gathered(lines) == None
    decreases |lines|
  {
    if n == |lines| {
      assert lines[..n] == lines;
    } else {
      assert lines[..|lines| - 1][..n] == lines[..n];
      MalformedForGood(lines[..|lines| - 1], n);
    }
  }

  method ParseManifest(text: string, num: Numbers) returns (r: Result<Contents, Refusal>)
    ensures r == Parsed(text, num)
  {
    hide ReadLine, Trim;
    if Trim(text) == [] { return Err(EmptyManifest); }
    var header, entries := map[], map[];
    var lines := Lines(text);
    var i := 0;
    while i < |lines|
      invariant i <= |lines|
      invariant Gathered(lines[..i]) == Some(Contents(header, entries))
    {
      assert lines[..i + 1][..i] == lines[..i];
      match ReadLine(lines[i]) {
        case Field(key, value) => header := header[key := value];
        case Hashed(name, hash) => entries := entries[name := hash];
        case Malformed =>
          MalformedForGood(lines, i + 1);
          return Err(MalformedLine);
        case _ =>
      }
      i := i + 1;
    }
    assert lines[..i] == lines;
    if "manifest-version" !in header || header["manifest-version"] == [] { return Err(NoHeader); }
    if |entries| == 0 { return Err(CoversNothing); }
    if "artifacts" !in header || num(header["artifacts"]) != Some(|entries|) { return Err(WrongCount); }
    return Ok(Contents(header, entries));
  }

  lemma GatherOne(lines: seq<string>, line: string)
    ensures Gathered(lines + [line]) == if Gathered(lines).None? then None
        else Add(Gathered(lines).value, ReadLine(line))
  {
    assert (lines + [line])[..|lines|] == lines;
    hide ReadLine, Add;
  }

  predicate OnSomeLine(lines: seq<string>, name: string, hash: string) {
    exists k | 0 <= k < |lines| :: ReadLine(lines[k]) == Hashed(name, hash)
  }

  lemma OnSomeLineGrows(lines: seq<string>, last: string, name: string, hash: string)
    ensures OnSomeLine(lines + [last], name, hash)
        <==> OnSomeLine(lines, name, hash) || ReadLine(last) == Hashed(name, hash)
  {
    hide ReadLine;
    var all := lines + [last];
    assert all[|lines|] == last;
    if k :| 0 <= k < |lines| && ReadLine(lines[k]) == Hashed(name, hash) {
      assert all[k] == lines[k];
    }
    if k :| 0 <= k < |lines| && ReadLine(all[k]) == Hashed(name, hash) {
      assert all[k] == lines[k];
    }
  }

  lemma EntriesGrow(lines: seq<string>, last: string, name: string)
    requires Gathered(lines + [last]).Some?
    ensures Gathered(lines).Some?
    ensures var before, after := Gathered(lines).value.entries, Gathered(lines + [last]).value.entries;
            && (name in after <==> name in before || (ReadLine(last).Hashed? && ReadLine(last).name == name))
            && (name in after && !(ReadLine(last).Hashed? && ReadLine(last).name == name) ==>
               after[name] == before[name])
            && (name in after && ReadLine(last).Hashed? && ReadLine(last).name == name ==>
               ReadLine(last) == Hashed(name, after[name]))
  {
    GatherOne(lines, last);
    hide ReadLine, Gathered;
  }

  // Every entry stands on some line of the text, at that hash, and every name
  // on a hash line is an entry.
  lemma {:induction false} EntriesAreLines(lines: seq<string>, name: string)
    requires Gathered(lines).Some?
    ensures var entries := Gathered(lines).value.entries;
            && (name in entries ==> OnSomeLine(lines, name, entries[name]))
            && (forall hash | OnSomeLine(lines, name, hash) :: name in entries)
  {
    hide ReadLine, OnSomeLine, Add;
    if lines == [] {
      assert forall hash :: !OnSomeLine(lines, name, hash) by {
        NoLines(name);
      }
    } else {
      var front, last := lines[..|lines| - 1], lines[|lines| - 1];
      assert front + [last] == lines;
      hide *;
      EntriesGrow(front, last, name);
      EntriesAreLines(front, name);
      var entries := Gathered(lines).value.entries;
      if name in entries {
        OnSomeLineGrows(front, last, name, entries[name]);
      }
      forall hash | OnSomeLine(lines, name, hash)
        ensures name in entries
      {
        OnSomeLineGrows(front, last, name, hash);
      }
    }
  }

  lemma NoLines(name: string)
    ensures forall hash :: !OnSomeLine([], name, hash)
  {
    hide ReadLine;
  }

  // ------------------------------------------------------------------- the writer

  datatype HeaderLine = Note(text: string) | Keyed(key: string, value: string)

  datatype HashLine = HashLine(name: string, hash: string)

  function HeaderText(h: HeaderLine): string {
    match h
    case Note(text) => "# " + text
    case Keyed(key, value) => "# " + key + SEPARATOR + value
  }

  function HashText(e: HashLine): string {
    e.hash + "  ./" + e.name
  }

  // The writer's lines, in order: the header, then the hashes.
  function Written(h: seq<HeaderLine>, es: seq<HashLine>): seq<string> {
    seq(|h|, i requires 0 <= i < |h| => HeaderText(h[i])) + seq(|es|, i requires 0 <= i < |es| => HashText(es[i]))
  }

  function Printed(lines: seq<string>, crlf: bool): string {
    if lines == [] then []
    else lines[0] + (if crlf then "\r\n" else "\n") + Printed(lines[1..], crlf)
  }

  predicate OneLine(s: string) {
    '\n' !in s
  }

  predicate GoodHeaderLine(h: HeaderLine) {
    match h
    case Note(text) => OneLine(text) && !Contains("# " + text, SEPARATOR) && (text == [] || text[|text| - 1] != '\r')
    case Keyed(key, value) =>
      OneLine(key) && OneLine(value) && Trimmed(key) && Trimmed(value) && !Contains(key, SEPARATOR)
  }

  predicate GoodHashLine(e: HashLine) {
    && |e.hash| == HASH_WIDTH && All(e.hash, IsHex)
    && e.name != [] && Trimmed(e.name) && forall k | 0 <= k < |e.name| :: !IsLineEnd(e.name[k])
  }

  predicate Good(h: seq<HeaderLine>, es: seq<HashLine>) {
    (forall k | 0 <= k < |h| :: GoodHeaderLine(h[k])) && (forall k | 0 <= k < |es| :: GoodHashLine(es[k]))
  }

  // The header as a reader sees it: the last line of each key.
  function HeaderMap(h: seq<HeaderLine>): map<string, string> {
    if h == [] then map[]
    else
      var last := h[|h| - 1];
      var m := HeaderMap(h[..|h| - 1]);
      if last.Keyed? then m[last.key := last.value] else m
  }

  function EntryMap(es: seq<HashLine>): map<string, string> {
    if es == [] then map[]
    else EntryMap(es[..|es| - 1])[es[|es| - 1].name := es[|es| - 1].hash]
  }

  // --------------------------------------------------------- reading what was written

  lemma {:induction false} SpanStops(s: string, p: char -> bool, k: nat)
    requires k < |s| && !p(s[k])
    ensures Span(s, p) <= k
  {
    if k > 0 && p(s[0]) {
      SpanStops(s[1..], p, k - 1);
    }
  }

  lemma TrimKeepsInk(s: string, k: nat)
    requires k < |s| && !IsSpace(s[k])
    ensures Trim(s) != []
  {
    SpanStops(s, IsSpace, k);
    assert TrimStart(s)[k - Span(s, IsSpace)] == s[k];
  }

  lemma SeparatorChars(s: string, k: nat)
    ensures OccursAt(s, SEPARATOR, k) <==> k + 1 < |s| && s[k] == ':' && s[k + 1] == ' '
  {
    if k + 1 < |s| && s[k] == ':' && s[k + 1] == ' ' {
      assert s[k..][..2] == SEPARATOR;
    }
  }

  lemma NoEarlierSeparator(key: string, value: string, k: nat)
    requires !Contains(key, SEPARATOR) && k < |key| + 2
    ensures !OccursAt("# " + key + SEPARATOR + value, SEPARATOR, k)
  {
    var line := "# " + key + SEPARATOR + value;
    SeparatorChars(line, k);
    if 2 <= k <= |key| {
      FindOccurs(key, SEPARATOR);
      SeparatorChars(key, k - 2);
      assert line[k] == key[k - 2] && (k < |key| ==> line[k + 1] == key[k - 1]);
    }
  }

  lemma SeparatorAt(key: string, value: string)
    requires !Contains(key, SEPARATOR)
    ensures var line := "# " + key + SEPARATOR + value;
            && Find(line, SEPARATOR) == Some(|key| + 2)
            && line[2..|key| + 2] == key && line[|key| + 4..] == value
  {
    var line := "# " + key + SEPARATOR + value;
    var at := |key| + 2;
    assert line[at..] == SEPARATOR + value;
    forall k | 0 <= k < at
      ensures !OccursAt(line, SEPARATOR, k)
    {
      NoEarlierSeparator(key, value, k);
    }
    FindUnique(line, SEPARATOR, at);
  }

  lemma ReadsKeyed(key: string, value: string)
    requires GoodHeaderLine(Keyed(key, value))
    ensures ReadComment("# " + key + SEPARATOR + value) == Field(key, value)
  {
    SeparatorAt(key, value);
    TrimOfTrimmed(key);
    TrimOfTrimmed(value);
    hide Find, Trim, Contains, SEPARATOR;
  }

  lemma EndOf(front: string, back: string)
    ensures back != [] ==> (front + back)[|front + back| - 1] == back[|back| - 1]
    ensures back == [] ==> front + back == front
  {
  }

  lemma HeaderTextShape(h: HeaderLine)
    requires GoodHeaderLine(h)
    ensures var line := HeaderText(h);
            line != [] && line[0] == '#' && WithoutCr(line) == line && OneLine(line)
  {
    hide Contains, Trim, Find;
    match h
    case Note(text) => EndOf("# ", text);
    case Keyed(key, value) => EndOf("# " + key + SEPARATOR, value);
  }

  lemma ReadsHeaderLine(h: HeaderLine)
    requires GoodHeaderLine(h)
    ensures var line := HeaderText(h);
            && WithoutCr(line) == line && OneLine(line)
            && ReadLine(line) == (if h.Keyed? then Field(h.key, h.value) else Remark)
  {
    var line := HeaderText(h);
    HeaderTextShape(h);
    TrimKeepsInk(line, 0);
    if h.Keyed? {
      ReadsKeyed(h.key, h.value);
      hide Find, Trim, Contains, SEPARATOR, WithoutCr, ReadComment, GoodHeaderLine;
    } else {
      hide Find, Trim, SEPARATOR, WithoutCr;
    }
  }

  lemma HashTextShape(e: HashLine)
    requires GoodHashLine(e)
    ensures var line := HashText(e);
            && |line| == HASH_WIDTH + 4 + |e.name|
            && line[..HASH_WIDTH] == e.hash && line[HASH_WIDTH + 2..] == "./" + e.name
            && line[HASH_WIDTH] == ' ' && line[HASH_WIDTH + 1] == ' '
            && OneLine(line) && WithoutCr(line) == line && IsHex(line[0])
  {
    hide Trim;
    var line := HashText(e);
    assert line == e.hash + ("  " + ("./" + e.name));
    assert forall k | 0 <= k < |e.hash| :: IsHex(e.hash[k]) && e.hash[k] != '\n';
    assert '\n' !in e.name;
    EndOf(e.hash + "  ./", e.name);
  }

  lemma IsHashText(e: HashLine)
    requires GoodHashLine(e)
    ensures IsHashLine(HashText(e)) && LowerAll(HashText(e)[..HASH_WIDTH]) == e.hash
  {
    HashTextShape(e);
    var line := HashText(e);
    hide Trim, HashText;
    forall k | 0 <= k < HASH_WIDTH
      ensures IsHex(Lower(line[k])) && Lower(line[k]) == e.hash[k]
    {
      assert line[k] == line[..HASH_WIDTH][k] == e.hash[k] && IsHex(e.hash[k]);
    }
    forall k | HASH_WIDTH + 2 <= k < |line|
      ensures !IsLineEnd(line[k])
    {
      assert line[k] == ("./" + e.name)[k - HASH_WIDTH - 2];
    }
  }

  lemma ReadsHashLine(e: HashLine)
    requires GoodHashLine(e)
    ensures var line := HashText(e);
            && WithoutCr(line) == line && OneLine(line)
            && ReadLine(line) == Hashed(e.name, e.hash)
  {
    var line := HashText(e);
    HashTextShape(e);
    IsHashText(e);
    TrimKeepsInk(line, 0);
    TrimOfTrimmed(e.name);
    assert ("./" + e.name)[2..] == e.name;
    hide Trim, HashText, IsHashLine, LowerAll, WithoutCr, ReadComment;
  }

  function WithCr(lines: seq<string>, crlf: bool): seq<string> {
    seq(|lines|, i requires 0 <= i < |lines| => if crlf then lines[i] + "\r" else lines[i])
  }

  lemma ReadLineWithCr(line: string)
    requires WithoutCr(line) == line
    ensures ReadLine(line + "\r") == ReadLine(line)
  {
    assert WithoutCr(line + "\r") == line;
  }

  lemma {:induction false} LinesOfLine(line: string, rest: string)
    requires OneLine(line)
    ensures Lines(line + "\n" + rest) == [line] + Lines(rest)
  {
    var text := line + "\n" + rest;
    if line == [] {
      assert text[1..] == rest;
    } else {
      LinesOfLine(line[1..], rest);
      assert text[1..] == line[1..] + "\n" + rest;
      assert [line[0]] + line[1..] == line;
    }
  }

  lemma {:induction false} LinesOfPrinted(lines: seq<string>, crlf: bool)
    requires forall k | 0 <= k < |lines| :: OneLine(lines[k])
    ensures Lines(Printed(lines, crlf)) == WithCr(lines, crlf) + [[]]
  {
    if lines == [] {
      assert WithCr(lines, crlf) + [[]] == [[]];
    } else {
      LinesOfPrinted(lines[1..], crlf);
      var first := if crlf then lines[0] + "\r" else lines[0];
      assert Printed(lines, crlf) == first + "\n" + Printed(lines[1..], crlf);
      LinesOfLine(first, Printed(lines[1..], crlf));
      assert [first] + WithCr(lines[1..], crlf) == WithCr(lines, crlf);
    }
  }

  function Ended(line: string, crlf: bool): string {
    if crlf then line + "\r" else line
  }

  lemma WrittenLast(h: seq<HeaderLine>, es: seq<HashLine>, crlf: bool)
    requires h != [] || es != []
    ensures WithCr(Written(h, es), crlf)
         == if es != [] then WithCr(Written(h, es[..|es| - 1]), crlf) + [Ended(HashText(es[|es| - 1]), crlf)]
            else WithCr(Written(h[..|h| - 1], []), crlf) + [Ended(HeaderText(h[|h| - 1]), crlf)]
  {
    hide HashText, HeaderText;
  }

  lemma EndedReads(line: string, crlf: bool)
    requires WithoutCr(line) == line
    ensures ReadLine(Ended(line, crlf)) == ReadLine(line)
  {
    ReadLineWithCr(line);
    hide ReadLine, WithoutCr;
  }

  lemma AddsLine(c: Contents, a: string, b: string)
    ensures Add(c, Field(a, b)) == Some(c.(header := c.header[a := b]))
    ensures Add(c, Hashed(a, b)) == Some(c.(entries := c.entries[a := b]))
    ensures Add(c, Remark) == Some(c)
  {
  }

  lemma GatherHeaderLine(lines: seq<string>, c: Contents, h: HeaderLine, crlf: bool)
    requires Gathered(lines) == Some(c) && GoodHeaderLine(h)
    ensures Gathered(lines + [Ended(HeaderText(h), crlf)])
         == Some(if h.Keyed? then c.(header := c.header[h.key := h.value]) else c)
  {
    hide *;
    ReadsHeaderLine(h);
    EndedReads(HeaderText(h), crlf);
    GatherOne(lines, Ended(HeaderText(h), crlf));
    if h.Keyed? {
      AddsLine(c, h.key, h.value);
    } else {
      AddsLine(c, [], []);
    }
  }

  lemma GatherHashLine(lines: seq<string>, c: Contents, e: HashLine, crlf: bool)
    requires Gathered(lines) == Some(c) && GoodHashLine(e)
    ensures Gathered(lines + [Ended(HashText(e), crlf)]) == Some(c.(entries := c.entries[e.name := e.hash]))
  {
    hide *;
    ReadsHashLine(e);
    EndedReads(HashText(e), crlf);
    GatherOne(lines, Ended(HashText(e), crlf));
    AddsLine(c, e.name, e.hash);
  }

  lemma {:induction false} GathersHeader(h: seq<HeaderLine>, crlf: bool)
    requires Good(h, [])
    ensures Gathered(WithCr(Written(h, []), crlf)) == Some(Contents(HeaderMap(h), map[]))
  {
    if h == [] {
      assert Written(h, []) == [];
    } else {
      var front := h[..|h| - 1];
      GathersHeader(front, crlf);
      WrittenLast(h, [], crlf);
      GatherHeaderLine(WithCr(Written(front, []), crlf), Contents(HeaderMap(front), map[]), h[|h| - 1], crlf);
      hide Written, WithCr, Gathered, HeaderText, Ended, GoodHeaderLine;
    }
  }

  lemma {:induction false} GathersAll(h: seq<HeaderLine>, es: seq<HashLine>, crlf: bool)
    requires Good(h, es)
    ensures Gathered(WithCr(Written(h, es), crlf)) == Some(Contents(HeaderMap(h), EntryMap(es)))
    decreases |es|
  {
    if es == [] {
      GathersHeader(h, crlf);
    } else {
      var front := es[..|es| - 1];
      GathersAll(h, front, crlf);
      WrittenLast(h, es, crlf);
      GatherHashLine(WithCr(Written(h, front), crlf), Contents(HeaderMap(h), EntryMap(front)), es[|es| - 1], crlf);
      hide Written, WithCr, Gathered, HeaderMap, HashText, Ended, GoodHashLine;
    }
  }

  // What the writer's text parses to, for every header and every hash lines,
  // with either line ending: exactly its contents, judged.
  lemma ParsesWhatWasWritten(h: seq<HeaderLine>, es: seq<HashLine>, crlf: bool, num: Numbers)
    requires Good(h, es) && (h != [] || es != [])
    ensures Parsed(Printed(Written(h, es), crlf), num) == Judge(Contents(HeaderMap(h), EntryMap(es)), num)
  {
    hide *;
    WrittenOneLine(h, es);
    LinesOfPrinted(Written(h, es), crlf);
    GathersAll(h, es, crlf);
    StartsInked(h, es, crlf);
    EndsBlank(WithCr(Written(h, es), crlf));
    ParsedIs(Printed(Written(h, es), crlf), Contents(HeaderMap(h), EntryMap(es)), num);
  }

  lemma WrittenOneLine(h: seq<HeaderLine>, es: seq<HashLine>)
    requires Good(h, es)
    ensures var lines := Written(h, es); forall k | 0 <= k < |lines| :: OneLine(lines[k])
  {
    hide HeaderText, HashText, GoodHeaderLine, GoodHashLine, ReadLine, WithoutCr;
    var lines := Written(h, es);
    forall k | 0 <= k < |lines|
      ensures OneLine(lines[k])
    {
      if k < |h| {
        ReadsHeaderLine(h[k]);
      } else {
        ReadsHashLine(es[k - |h|]);
      }
    }
  }

  lemma EndsBlank(lines: seq<string>)
    ensures Gathered(lines + [[]]) == Gathered(lines)
  {
    GatherOne(lines, []);
    assert ReadLine([]) == Blank;
    hide ReadLine, Gathered;
  }

  lemma ParsedIs(text: string, c: Contents, num: Numbers)
    requires Trim(text) != [] && Gathered(Lines(text)) == Some(c)
    ensures Parsed(text, num) == Judge(c, num)
  {
    hide Trim, Gathered, Judge;
  }

  lemma StartsInked(h: seq<HeaderLine>, es: seq<HashLine>, crlf: bool)
    requires Good(h, es) && (h != [] || es != [])
    ensures Trim(Printed(Written(h, es), crlf)) != []
  {
    var lines := Written(h, es);
    assert lines[0] == if h != [] then HeaderText(h[0]) else HashText(es[0]);
    assert h == [] ==> IsHex(es[0].hash[0]);
    assert Printed(lines, crlf)[0] == lines[0][0];
    TrimKeepsInk(Printed(lines, crlf), 0);
  }

  predicate DistinctNames(es: seq<HashLine>) {
    forall i, j | 0 <= i < j < |es| :: es[i].name != es[j].name
  }

  lemma {:induction false} EntryNames(es: seq<HashLine>)
    ensures forall n :: n in EntryMap(es) <==> exists k | 0 <= k < |es| :: es[k].name == n
  {
    if es != [] {
      var front := es[..|es| - 1];
      EntryNames(front);
      forall n
        ensures n in EntryMap(es) <==> exists k | 0 <= k < |es| :: es[k].name == n
      {
        if n in EntryMap(front) {
          var k :| 0 <= k < |front| && front[k].name == n;
          assert es[k].name == n;
        }
        if k :| 0 <= k < |front| && es[k].name == n {
          assert front[k].name == n;
        }
      }
    }
  }

  lemma {:induction false} EntryCount(es: seq<HashLine>)
    ensures |EntryMap(es)| <= |es|
    ensures DistinctNames(es) ==> |EntryMap(es)| == |es|
  {
    if es != [] {
      var front, last := es[..|es| - 1], es[|es| - 1];
      EntryCount(front);
      EntryNames(front);
      assert EntryMap(es).Keys == EntryMap(front).Keys + {last.name};
    }
  }

  // The round trip: a header that names a version and counts its artifacts,
  // over distinct names, comes back whole.
  lemma RoundTrip(h: seq<HeaderLine>, es: seq<HashLine>, crlf: bool, num: Numbers)
    requires Good(h, es) && es != [] && DistinctNames(es) && ReadsDecimals(num)
    requires "manifest-version" in HeaderMap(h) && HeaderMap(h)["manifest-version"] != []
    requires "artifacts" in HeaderMap(h) && HeaderMap(h)["artifacts"] == Digits(|es|)
    ensures Parsed(Printed(Written(h, es), crlf), num) == Ok(Contents(HeaderMap(h), EntryMap(es)))
  {
    ParsesWhatWasWritten(h, es, crlf, num);
    EntryCount(es);
    hide Parsed, Printed, Written, HeaderMap, EntryMap, Good;
  }

  // The hash lines left when those with `keep[i]` false are dropped.
  function Kept(es: seq<HashLine>, keep: seq<bool>): (r: seq<HashLine>)
    requires |keep| == |es|
    ensures |r| <= |es| && (false in keep ==> |r| < |es|)
    ensures forall e | e in r :: e in es
  {
    if es == [] then []
    else (if keep[0] then [es[0]] else []) + Kept(es[1..], keep[1..])
  }

  // Dropping any non-empty set of hash lines from such a manifest makes it
  // refused, whatever the names.
  lemma DroppedLinesAreRefused(h: seq<HeaderLine>, es: seq<HashLine>, keep: seq<bool>, crlf: bool, num: Numbers)
    requires Good(h, es) && ReadsDecimals(num)
    requires "artifacts" in HeaderMap(h) && HeaderMap(h)["artifacts"] == Digits(|es|)
    requires |keep| == |es| && false in keep
    ensures Parsed(Printed(Written(h, Kept(es, keep)), crlf), num).Err?
  {
    assert h != [];
    KeptIsGood(h, es, keep);
    hide *;
    ParsesWhatWasWritten(h, Kept(es, keep), crlf, num);
    EntryCount(Kept(es, keep));
    WrongCountRefused(h, EntryMap(Kept(es, keep)), |es|, num);
  }

  lemma KeptIsGood(h: seq<HeaderLine>, es: seq<HashLine>, keep: seq<bool>)
    requires Good(h, es) && |keep| == |es|
    ensures Good(h, Kept(es, keep))
  {
    hide GoodHeaderLine, GoodHashLine, Kept;
    var kept := Kept(es, keep);
    forall k | 0 <= k < |kept|
      ensures GoodHashLine(kept[k])
    {
      assert kept[k] in es;
    }
  }

  lemma WrongCountRefused(h: seq<HeaderLine>, entries: map<string, string>, n: nat, num: Numbers)
    requires ReadsDecimals(num) && "artifacts" in HeaderMap(h) && HeaderMap(h)["artifacts"] == Digits(n)
    requires |entries| != n
    ensures Judge(Contents(HeaderMap(h), entries), num).Err?
  {
    hide HeaderMap, Digits;
  }
}
