// The install gate's checks: verifyChannelPointer, verifyDownloadedArtifact and
// verifyDownloadedUpdate in packages/desktop/main/updateVerify.js. The OpenPGP
// check, UTF-8 decoding, base64 decoding and Number() come from outside.
module UpdateVerify {
  import opened Wrappers
  import opened Text
  import opened Manifest
  import opened ChannelPointer

  // `base64` gives the lower-case hex of a base64 text for 64 bytes, and the
  // empty string for any other text.
  datatype Outside = Outside(
    signed: (seq<nat>, string) -> bool,
    decode: seq<nat> -> string,
    base64: string -> string,
    num: Numbers
  )

  // What the updater collected; an absent input is the empty string, which the
  // checks treat alike.
  datatype Evidence = Evidence(
    manifestBytes: seq<nat>,
    signature: string,
    expectedTag: string,
    artifactPath: string,
    sha256: string,
    sha512: string,
    pointerText: string,
    lane: string
  )

  datatype Reason =
    | BadSignature
    | BadManifest(refusal: Refusal)
    | NoTag | WrongRelease | LaneUnnamed | WrongLane | MockGateNotEnforced
    | NoArtifact | NotCovered | MalformedHash | WrongHash
    | BadPointer(pointerRefusal: PointerRefusal)
    | NoWantedVersion | WrongVersion | NotNamed | MalformedSha512 | NoClaimedSha512 | WrongSha512 | PointerUncovered

  datatype Verified = Verified(tag: string, name: string, entries: map<string, string>)

  predicate IsHexText(s: string, width: nat) {
    |s| == width && All(s, IsHex)
  }

  // ------------------------------------------------------------------ which release

  function TrailingDigits(s: string): (n: nat)
    ensures n <= |s| && All(s[|s| - n..], IsDigit)
    ensures n < |s| ==> !IsDigit(s[|s| - n - 1])
  {
    if s == [] || !IsDigit(s[|s| - 1]) then 0
    else
      var front := s[..|s| - 1];
      var n := TrailingDigits(front);
      assert s[|s| - n - 1..] == front[|front| - n..] + [s[|s| - 1]];
      n + 1
  }

  const RESIGN := "-resign"

  // Drop a `-resign<digits>` suffix.
  function ReleaseTagOf(tag: string): string {
    var n := TrailingDigits(tag);
    var stem := tag[..|tag| - n];
    if n > 0 && EndsWith(stem, RESIGN) then stem[..|stem| - |RESIGN|] else tag
  }

  ghost predicate IsResignOf(tag: string, release: string) {
    exists d: string :: d != [] && All(d, IsDigit) && tag == release + RESIGN + d
  }

  lemma {:induction false} TrailingDigitsOf(front: string, d: string)
    requires All(d, IsDigit) && front != [] && !IsDigit(front[|front| - 1])
    ensures TrailingDigits(front + d) == |d|
  {
    if d == [] {
      assert front + d == front;
    } else {
      assert (front + d)[..|front + d| - 1] == front + d[..|d| - 1];
      TrailingDigitsOf(front, d[..|d| - 1]);
    }
  }

  lemma StripsResign(release: string, d: string)
    requires d != [] && All(d, IsDigit)
    ensures ReleaseTagOf(release + RESIGN + d) == release
  {
    var stem := release + RESIGN;
    var tag := stem + d;
    assert stem[|stem| - 1] == 'n';
    TrailingDigitsOf(stem, d);
    assert tag[..|tag| - |d|] == stem;
    assert stem[|stem| - |RESIGN|..] == RESIGN;
    assert stem[..|stem| - |RESIGN|] == release;
    hide RESIGN, TrailingDigits;
  }

  lemma StrippedIsResign(tag: string)
    requires ReleaseTagOf(tag) != tag
    ensures IsResignOf(tag, ReleaseTagOf(tag))
  {
    hide RESIGN, TrailingDigits;
    var n := TrailingDigits(tag);
    assert tag == ReleaseTagOf(tag) + RESIGN + tag[|tag| - n..];
  }

  // A header tag answers a wanted tag when it is that tag or a re-signature of
  // it. The relation is one-way.
  lemma ReleaseTagAnswers(tag: string, wanted: string)
    ensures tag == wanted || ReleaseTagOf(tag) == wanted <==> tag == wanted || IsResignOf(tag, wanted)
    ensures IsResignOf(tag, wanted) ==> wanted != tag && !IsResignOf(wanted, tag)
  {
    if tag != wanted && ReleaseTagOf(tag) == wanted {
      StrippedIsResign(tag);
    }
    if d: string :| d != [] && All(d, IsDigit) && tag == wanted + RESIGN + d {
      StripsResign(wanted, d);
    }
    hide ReleaseTagOf, RESIGN, All;
  }

  function HeaderTag(header: map<string, string>): string {
    if "tag" in header then header["tag"] else "undefined"
  }

  predicate TagAnswers(header: map<string, string>, wanted: string) {
    ("tag" in header && header["tag"] == wanted) || ReleaseTagOf(HeaderTag(header)) == wanted
  }

  // --------------------------------------------------------------------- which lane

  // split(/\s+/) without the empty words.
  function Words(s: string): seq<string>
    decreases |s|
  {
    var r := TrimStart(s);
    var n := Span(r, c => !IsSpace(c));
    if n == 0 then [] else [r[..n]] + Words(r[n..])
  }

  predicate IsPartial(header: map<string, string>) {
    "lanes" in header && header["lanes"] != []
  }

  predicate LaneAnswers(header: map<string, string>, lane: string) {
    IsPartial(header) ==> lane != [] && lane in Words(header["lanes"])
  }

  predicate GateEnforced(header: map<string, string>) {
    "dev-mock-gate" in header && header["dev-mock-gate"] == "enforced"
  }

  // ------------------------------------------------------------------- the artifact

  function WithoutSlashes(path: string): (r: string)
    ensures r != [] ==> r[|r| - 1] != '/'
  {
    if path == [] || path[|path| - 1] != '/' then path else WithoutSlashes(path[..|path| - 1])
  }

  function AfterLastSlash(path: string): (r: string)
    ensures '/' !in r
  {
    if path == [] || path[|path| - 1] == '/' then [] else AfterLastSlash(path[..|path| - 1]) + [path[|path| - 1]]
  }

  function BaseName(path: string): string {
    AfterLastSlash(WithoutSlashes(path))
  }

  function ArtifactName(e: Evidence): string {
    NormalizeName(BaseName(e.artifactPath))
  }

  function VerifyArtifact(e: Evidence, o: Outside): Result<Verified, Reason> {
    if !o.signed(e.manifestBytes, e.signature) then Err(BadSignature)
    else
      match Parsed(o.decode(e.manifestBytes), o.num)
      case Err(refusal) => Err(BadManifest(refusal))
      case Ok(m) => CheckArtifact(e, m)
  }

  function CheckArtifact(e: Evidence, m: Contents): Result<Verified, Reason> {
    var tag, lane, name := Trim(e.expectedTag), Trim(e.lane), ArtifactName(e);
    if tag == [] then Err(NoTag)
    else if !TagAnswers(m.header, tag) then Err(WrongRelease)
    else if IsPartial(m.header) && lane == [] then Err(LaneUnnamed)
    else if IsPartial(m.header) && lane !in Words(m.header["lanes"]) then Err(WrongLane)
    else if !GateEnforced(m.header) then Err(MockGateNotEnforced)
    else if name == [] then Err(NoArtifact)
    else if name !in m.entries then Err(NotCovered)
    else if !IsHexText(LowerAll(e.sha256), HASH_WIDTH) then Err(MalformedHash)
    else if LowerAll(e.sha256) != m.entries[name] then Err(WrongHash)
    else Ok(Verified(tag, name, m.entries))
  }

  // -------------------------------------------------------------------- the pointer

  const SHA512_WIDTH := 128

  function NormalizeSha512(value: string, base64: string -> string): string {
    var raw := Trim(value);
    if IsHexText(LowerAll(raw), SHA512_WIDTH) then LowerAll(raw) else base64(raw)
  }

  // The first listed file whose normalised name is `name`.
  function FileNamed(files: seq<File>, name: string): Option<File> {
    if files == [] then None
    else if NormalizeName(files[0].url) == name then Some(files[0])
    else FileNamed(files[1..], name)
  }

  // The one file whose hash is checked is the first that bears the name.
  lemma {:induction false} FileNamedIsFirst(files: seq<File>, name: string)
    ensures match FileNamed(files, name)
            case Some(f) =>
              exists k | 0 <= k < |files| :: f == files[k] && NormalizeName(files[k].url) == name
                                             && forall j | 0 <= j < k :: NormalizeName(files[j].url) != name
            case None => forall j | 0 <= j < |files| :: NormalizeName(files[j].url) != name
  {
    hide NormalizeName;
    if files != [] && NormalizeName(files[0].url) != name {
      FileNamedIsFirst(files[1..], name);
      assert forall j | 0 < j < |files| :: files[j] == files[1..][j - 1];
      if FileNamed(files, name).Some? {
        var k :| 0 <= k < |files[1..]| && FileNamed(files, name).value == files[1..][k]
            && NormalizeName(files[1..][k].url) == name
                 && forall j | 0 <= j < k :: NormalizeName(files[1..][j].url) != name;
        assert files[k + 1] == files[1..][k];
      }
    }
  }

  predicate AllCovered(files: seq<File>, entries: map<string, string>) {
    forall k | 0 <= k < |files| :: NormalizeName(files[k].url) in entries
  }

  function WantedVersion(tag: string): string {
    var t := Trim(tag);
    if t != [] && t[0] == 'v' then t[1..] else t
  }

  // None when the pointer is anchored.
  function PointerProblem(text: string, tag: string, artifactName: string, sha512: string,
        entries: map<string, string>, o: Outside): Option<Reason> {
    match ParsedPointer(text)
    case Err(refusal) => Some(BadPointer(refusal))
    case Ok(p) =>
      var name, actual := NormalizeName(artifactName), LowerAll(sha512);
      var file := FileNamed(p.files, name);
      if WantedVersion(tag) == [] then Some(NoWantedVersion)
      else if p.version != WantedVersion(tag) then Some(WrongVersion)
      else if file.None? then Some(NotNamed)
      else if !IsHexText(actual, SHA512_WIDTH) then Some(MalformedSha512)
      else if NormalizeSha512(file.value.sha512, o.base64) == [] then Some(NoClaimedSha512)
      else if NormalizeSha512(file.value.sha512, o.base64) != actual then Some(WrongSha512)
      else if !AllCovered(p.files, entries) then Some(PointerUncovered)
      else None
  }

  // verifyChannelPointer, whose last check walks the files.
  method VerifyChannelPointer(text: string, tag: string, artifactName: string, sha512: string,
        entries: map<string, string>, o: Outside)
    returns (problem: Option<Reason>)
    ensures problem == PointerProblem(text, tag, artifactName, sha512, entries, o)
  {
    hide NormalizeName, LowerAll, NormalizeSha512, IsHexText, ParsedPointer, WantedVersion, FileNamed;
    var parsed := ParseChannelPointer(text);
    if parsed.Err? { return Some(BadPointer(parsed.error)); }
    var p := parsed.value;
    var want := WantedVersion(tag);
    if want == [] { return Some(NoWantedVersion); }
    if p.version != want { return Some(WrongVersion); }
    var file := FileNamed(p.files, NormalizeName(artifactName));
    if file.None? { return Some(NotNamed); }
    var actual := LowerAll(sha512);
    if !IsHexText(actual, SHA512_WIDTH) { return Some(MalformedSha512); }
    var claimed := NormalizeSha512(file.value.sha512, o.base64);
    if claimed == [] { return Some(NoClaimedSha512); }
    if claimed != actual { return Some(WrongSha512); }
    var i := 0;
    while i < |p.files|
      invariant i <= |p.files|
      invariant forall k | 0 <= k < i :: NormalizeName(p.files[k].url) in entries
    {
      if NormalizeName(p.files[i].url) !in entries { return Some(PointerUncovered); }
      i := i + 1;
    }
    return None;
  }

  function VerifyUpdate(e: Evidence, o: Outside): Result<Verified, Reason> {
    match VerifyArtifact(e, o)
    case Err(reason) => Err(reason)
    case Ok(v) =>
      match PointerProblem(e.pointerText, v.tag, v.name, e.sha512, v.entries, o)
      case Some(reason) => Err(reason)
      case None => Ok(v)
  }

  // ------------------------------------------------------- what an acceptance means

  lemma TrimIsTrimmed(s: string)
    ensures Trimmed(Trim(s))
  {
    var r := TrimStart(s);
    assert r != [] ==> r[0] == s[Span(s, IsSpace)] && !IsSpace(r[0]);
    var t := TrimEnd(r);
    assert t != [] ==> t[0] == r[0] && !IsSpace(t[|t| - 1]);
    assert Trim(s) == t;
    hide IsSpace, Trim;
  }

  predicate Answers(e: Evidence, m: Contents) {
    && Trim(e.expectedTag) != []
    && TagAnswers(m.header, Trim(e.expectedTag)) && LaneAnswers(m.header, Trim(e.lane)) && GateEnforced(m.header)
    && ArtifactName(e) in m.entries && m.entries[ArtifactName(e)] == LowerAll(e.sha256)
    && ArtifactName(e) != [] && IsHexText(LowerAll(e.sha256), HASH_WIDTH)
  }

  predicate Anchored(e: Evidence, p: Pointer, entries: map<string, string>, o: Outside) {
    && p.version == WantedVersion(e.expectedTag) && p.version != []
    && FileNamed(p.files, ArtifactName(e)).Some?
    && NormalizeSha512(FileNamed(p.files, ArtifactName(e)).value.sha512, o.base64) == LowerAll(e.sha512)
    && IsHexText(LowerAll(e.sha512), SHA512_WIDTH)
    && AllCovered(p.files, entries)
  }

  lemma CheckedMeans(e: Evidence, m: Contents)
    ensures CheckArtifact(e, m).Ok? <==> Answers(e, m)
    ensures Answers(e, m) ==> CheckArtifact(e, m) == Ok(Verified(Trim(e.expectedTag), ArtifactName(e), m.entries))
  {
    hide ArtifactName, Trim, LowerAll, TagAnswers, GateEnforced, Words, IsHexText;
  }

  lemma AnchoredMeans(e: Evidence, entries: map<string, string>, o: Outside)
    ensures PointerProblem(e.pointerText, Trim(e.expectedTag), ArtifactName(e), e.sha512, entries, o).None?
       <==> ParsedPointer(e.pointerText).Ok? && Anchored(e, ParsedPointer(e.pointerText).value, entries, o)
  {
    TrimIsTrimmed(e.expectedTag);
    TrimOfTrimmed(Trim(e.expectedTag));
    NamedOnce(e);
    assert WantedVersion(Trim(e.expectedTag)) == WantedVersion(e.expectedTag) by {
      hide Trim;
    }
    hide *;
    if ParsedPointer(e.pointerText).Ok? {
      ProblemIff(e.pointerText, Trim(e.expectedTag), ArtifactName(e), e.sha512, entries, o,
          ParsedPointer(e.pointerText).value);
      AnchoredIs(e, ParsedPointer(e.pointerText).value, entries, o);
    } else {
      ProblemWhenUnread(e.pointerText, Trim(e.expectedTag), ArtifactName(e), e.sha512, entries, o);
    }
  }

  // The checks on a pointer that was read, all at once.
  predicate PointerFits(p: Pointer, want: string, name: string, sha512: string, entries: map<string, string>,
      base64: string -> string) {
    && want != [] && p.version == want
    && FileNamed(p.files, name).Some?
    && IsHexText(LowerAll(sha512), SHA512_WIDTH)
    && NormalizeSha512(FileNamed(p.files, name).value.sha512, base64) == LowerAll(sha512)
    && AllCovered(p.files, entries)
  }

  lemma ProblemIff(text: string, tag: string, artifactName: string, sha512: string, entries: map<string, string>,
      o: Outside, p: Pointer)
    requires ParsedPointer(text) == Ok(p)
    ensures PointerProblem(text, tag, artifactName, sha512, entries, o).None?
       <==> PointerFits(p, WantedVersion(tag), NormalizeName(artifactName), sha512, entries, o.base64)
  {
    hide ParsedPointer, NormalizeName, LowerAll, NormalizeSha512, FileNamed, AllCovered, WantedVersion;
    if LowerAll(sha512) == [] {
      assert !IsHexText(LowerAll(sha512), SHA512_WIDTH);
    }
    hide IsHexText;
  }

  lemma ProblemWhenUnread(text: string, tag: string, artifactName: string, sha512: string,
        entries: map<string, string>, o: Outside)
    requires ParsedPointer(text).Err?
    ensures PointerProblem(text, tag, artifactName, sha512, entries, o).Some?
  {
    hide ParsedPointer, NormalizeName, LowerAll, NormalizeSha512, FileNamed, AllCovered, WantedVersion, IsHexText;
  }

  lemma AnchoredIs(e: Evidence, p: Pointer, entries: map<string, string>, o: Outside)
    ensures Anchored(e, p, entries, o)
        <==> PointerFits(p, WantedVersion(e.expectedTag), ArtifactName(e), e.sha512, entries, o.base64)
  {
    hide ArtifactName, LowerAll, NormalizeSha512, FileNamed, AllCovered, WantedVersion, IsHexText;
  }

  // Accepted exactly when every check holds, on the manifest, the artifact and
  // the pointer's own version, name and SHA-512: nothing else is asked, and the
  // order in which they are made cannot let one of them be skipped.
  lemma AcceptedIff(e: Evidence, o: Outside)
    ensures VerifyUpdate(e, o).Ok? <==>
              && o.signed(e.manifestBytes, e.signature)
              && Parsed(o.decode(e.manifestBytes), o.num).Ok?
              && Answers(e, Parsed(o.decode(e.manifestBytes), o.num).value)
              && ParsedPointer(e.pointerText).Ok?
              && Anchored(e, ParsedPointer(e.pointerText).value,
                 Parsed(o.decode(e.manifestBytes), o.num).value.entries, o)
  {
    if Parsed(o.decode(e.manifestBytes), o.num).Ok? {
      var m := Parsed(o.decode(e.manifestBytes), o.num).value;
      CheckedMeans(e, m);
      AnchoredMeans(e, m.entries, o);
    }
    hide Parsed, ParsedPointer, ArtifactName, Trim, Answers, Anchored, CheckArtifact, PointerProblem;
  }

  // Nothing is accepted unless the pinned key signed the manifest, the manifest
  // is for that release, this lane and an enforced gate, some hash line of it
  // carries the downloaded file's name and SHA-256, and every name on any
  // `url:` or `path:` line of the pointer stands on a hash line too.
  lemma AcceptedMeansSigned(e: Evidence, o: Outside)
    requires VerifyUpdate(e, o).Ok?
    ensures o.signed(e.manifestBytes, e.signature)
    ensures var manifest := Parsed(o.decode(e.manifestBytes), o.num);
            && manifest.Ok?
            && TagAnswers(manifest.value.header, Trim(e.expectedTag))
            && LaneAnswers(manifest.value.header, Trim(e.lane))
            && GateEnforced(manifest.value.header)
    ensures OnSomeLine(Lines(o.decode(e.manifestBytes)), ArtifactName(e), LowerAll(e.sha256))
    ensures forall named | SomeLineNames(Lines(e.pointerText), named) ::
              HasHashLine(Lines(o.decode(e.manifestBytes)), NormalizeName(named))
  {
    hide *;
    AcceptedIff(e, o);
    var text := o.decode(e.manifestBytes);
    var m := Parsed(text, o.num).value;
    AnswersMeans(e, m);
    ManifestEntries(text, o.num, ArtifactName(e));
    forall named | SomeLineNames(Lines(e.pointerText), named)
      ensures HasHashLine(Lines(text), NormalizeName(named))
    {
      PointerNamesAreCovered(e, m.entries, o, named);
      ManifestEntries(text, o.num, NormalizeName(named));
    }
  }

  ghost predicate HasHashLine(lines: seq<string>, name: string) {
    exists hash :: OnSomeLine(lines, name, hash)
  }

  lemma AnswersMeans(e: Evidence, m: Contents)
    requires Answers(e, m)
    ensures TagAnswers(m.header, Trim(e.expectedTag)) && LaneAnswers(m.header, Trim(e.lane)) && GateEnforced(m.header)
    ensures ArtifactName(e) in m.entries && m.entries[ArtifactName(e)] == LowerAll(e.sha256)
  {
    hide TagAnswers, LaneAnswers, GateEnforced, ArtifactName, Trim, LowerAll, IsHexText;
  }

  lemma ManifestEntries(text: string, num: Numbers, name: string)
    requires Parsed(text, num).Ok?
    ensures var entries := Parsed(text, num).value.entries;
            name in entries ==> OnSomeLine(Lines(text), name, entries[name]) && HasHashLine(Lines(text), name)
  {
    ParsedGathered(text, num);
    EntriesAreLines(Lines(text), name);
    hide OnSomeLine, Gathered, Parsed, Lines;
  }

  lemma ParsedGathered(text: string, num: Numbers)
    requires Parsed(text, num).Ok?
    ensures Gathered(Lines(text)) == Some(Parsed(text, num).value)
  {
    hide Gathered, Lines, Trim;
  }

  lemma PointerNamesAreCovered(e: Evidence, entries: map<string, string>, o: Outside, named: string)
    requires ParsedPointer(e.pointerText).Ok? && Anchored(e, ParsedPointer(e.pointerText).value, entries, o)
    requires SomeLineNames(Lines(e.pointerText), named)
    ensures NormalizeName(named) in entries
  {
    var files := ParsedPointer(e.pointerText).value.files;
    FilesAreTheNamedLines(Lines(e.pointerText), named);
    assert files == Claims(Lines(e.pointerText)).files && AllCovered(files, entries) by {
      hide Claims, Lines, Trim, NormalizeName, LowerAll, NormalizeSha512, WantedVersion, FileNamed, ArtifactName,
          AllCovered;
    }
    hide SomeLineNames, Lines, Claims, NormalizeName, ParsedPointer, Anchored;
    var k :| 0 <= k < |files| && files[k].url == named;
    assert NormalizeName(files[k].url) == NormalizeName(named);
  }

  // Normalising a base name again changes nothing.
  lemma NamedOnce(e: Evidence)
    ensures NormalizeName(ArtifactName(e)) == ArtifactName(e)
  {
    var base := BaseName(e.artifactPath);
    assert '/' !in base;
    TrimIsTrimmed(base);
    TrimOfTrimmed(Trim(base));
    TrimKeepsOut(base, '/');
    hide Trim, BaseName;
  }

  lemma TrimKeepsOut(s: string, c: char)
    requires c !in s
    ensures c !in Trim(s)
  {
    assert c !in TrimStart(s);
    assert TrimEnd(TrimStart(s)) <= TrimStart(s);
  }
}
