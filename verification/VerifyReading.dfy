// What the install gate compares, in terms of the texts it is given: versions
// and tags, lanes, file names and hashes, and that a refusal says what failed.
module VerifyReading {
  import opened Wrappers
  import opened Text
  import opened Manifest
  import opened ManifestReading
  import opened ChannelPointer
  import opened UpdateVerify

  // --------------------------------------------------------------- version and tag

  // One leading `v` of a tag is not part of the version.
  lemma WantedVersionOf(lead: string, v: string, trail: string)
    requires All(lead, IsSpace) && All(trail, IsSpace) && v != [] && Trimmed(v)
    ensures WantedVersion(lead + ("v" + v) + trail) == v
    ensures v[0] != 'v' ==> WantedVersion(lead + v + trail) == v
  {
    TrimOfPadded(lead, v, trail);
    assert ("v" + v)[0] == 'v' && ("v" + v)[1..] == v && !IsSpace('v');
    assert Trimmed("v" + v);
    TrimOfPadded(lead, "v" + v, trail);
    hide Trim, Trimmed, IsSpace;
  }

  // The header's tag is the wanted one, or that with `-resign` and digits; a
  // header without a tag answers only for the text JavaScript makes of it.
  ghost predicate TagNames(tag: string, wanted: string) {
    tag == wanted || exists d: string :: d != "" && All(d, IsDigit) && tag == wanted + "-resign" + d
  }

  lemma TagAnswersIff(header: map<string, string>, wanted: string)
    ensures TagAnswers(header, wanted)
            <==> if "tag" in header then TagNames(header["tag"], wanted) else wanted == "undefined"
  {
    ReleaseTagAnswers(HeaderTag(header), wanted);
    NoResign();
    hide ReleaseTagOf;
  }

  lemma NoResign()
    ensures ReleaseTagOf("undefined") == "undefined"
  {
    assert "undefined"[|"undefined"| - 1] == 'd' && TrailingDigits("undefined") == 0;
  }

  // ------------------------------------------------------------------------- lanes

  // `w` stands in `s` with white space, or the end, on both sides.
  predicate StandsBetween(s: string, a: string, w: string, b: string) {
    s == a + w + b && (a != [] ==> IsSpace(a[|a| - 1])) && (b != [] ==> IsSpace(b[0]))
  }

  predicate IsWordText(w: string) {
    w != [] && All(w, c => !IsSpace(c))
  }

  lemma WordIff(s: string, w: string)
    ensures w in Words(s) <==> IsWordText(w) && exists a, b :: StandsBetween(s, a, w, b)
  {
    if w in Words(s) {
      var a, b := WordStands(s, w);
    }
    if IsWordText(w) {
      if a, b :| StandsBetween(s, a, w, b) {
        StandsIsWord(s, a, w, b);
      }
    }
    hide Words, StandsBetween;
  }

  // The blanks before the first word, that word, and what follows it.
  predicate Opens(s: string, g: string, word: string, rest: string) {
    && s == g + word + rest && All(g, IsSpace)
    && All(word, c => !IsSpace(c)) && (rest != [] ==> IsSpace(rest[0])) && (word == [] ==> rest == [])
  }

  lemma WordsUnfold(s: string)
    ensures var r := TrimStart(s);
            var n := Span(r, c => !IsSpace(c));
            Words(s) == if n == 0 then [] else [r[..n]] + Words(r[n..])
  {
    hide IsSpace, TrimStart;
  }

  lemma Pieces(s: string, m: nat, n: nat)
    requires m <= |s| && n <= |s| - m
    ensures s == s[..m] + s[m..][..n] + s[m..][n..]
    ensures n == 0 ==> s[m..][n..] == s[m..]
  {
  }

  lemma WordsOpen(s: string) returns (g: string, word: string, rest: string)
    ensures Opens(s, g, word, rest)
    ensures Words(s) == if word == [] then [] else [word] + Words(rest)
  {
    hide Words, IsSpace, Span;
    WordsUnfold(s);
    var m := Span(s, IsSpace);
    var r := s[m..];
    assert TrimStart(s) == r;
    var n := Span(r, c => !IsSpace(c));
    g, word, rest := s[..m], r[..n], r[n..];
    Pieces(s, m, n);
  }

  lemma {:induction false} WordStands(s: string, w: string) returns (a: string, b: string)
    requires w in Words(s)
    ensures IsWordText(w) && StandsBetween(s, a, w, b)
    decreases |s|
  {
    hide *;
    var g, word, rest := WordsOpen(s);
    OpensParts(s, g, word, rest);
    if w == word {
      a, b := g, rest;
      FirstStands(s, g, word, rest);
    } else {
      var a', b' := WordStands(rest, w);
      a, b := g + word + a', b';
      LaterStands(s, g, word, rest, a', w, b');
    }
  }

  lemma OpensParts(s: string, g: string, word: string, rest: string)
    requires Opens(s, g, word, rest)
    ensures |s| == |g| + |word| + |rest|
  {
  }

  lemma FirstStands(s: string, g: string, word: string, rest: string)
    requires Opens(s, g, word, rest) && word != []
    ensures IsWordText(word) && StandsBetween(s, g, word, rest)
  {
    hide IsSpace;
  }

  lemma LaterStands(s: string, g: string, word: string, rest: string, a: string, w: string, b: string)
    requires Opens(s, g, word, rest) && IsWordText(w) && StandsBetween(rest, a, w, b)
    ensures StandsBetween(s, g + word + a, w, b)
  {
    assert g + word + (a + w + b) == g + word + a + w + b;
    assert (a + w + b)[|a|] == w[0];
    hide IsSpace;
  }

  lemma {:induction false} StandsIsWord(s: string, a: string, w: string, b: string)
    requires IsWordText(w) && StandsBetween(s, a, w, b)
    ensures w in Words(s)
    decreases |s|
  {
    hide *;
    var g, word, rest := WordsOpen(s);
    OpensParts(s, g, word, rest);
    WordIsOrLater(s, g, word, rest, a, w, b);
    if w == word {
      WordNotEmpty(w);
    } else {
      var a' := Beyond(s, g, word, rest, a, w, b);
      StandsIsWord(rest, a', w, b);
    }
  }

  lemma WordNotEmpty(w: string)
    requires IsWordText(w)
    ensures w != []
  {
  }

  lemma WordIsOrLater(s: string, g: string, word: string, rest: string, a: string, w: string, b: string)
    requires Opens(s, g, word, rest) && IsWordText(w) && StandsBetween(s, a, w, b)
    ensures word != []
    ensures w == word || |a| > |g| + |word|
  {
    hide IsSpace;
    assert s[|a|] == w[0];
    forall k | 0 <= k < |s|
      ensures k < |g| ==> IsSpace(s[k])
      ensures |g| <= k < |g| + |word| ==> !IsSpace(s[k])
      ensures k == |g| + |word| ==> IsSpace(s[k])
      ensures |a| <= k < |a| + |w| ==> !IsSpace(s[k])
      ensures k == |a| + |w| || k == |a| - 1 ==> IsSpace(s[k])
    {
      Positions(g, word, rest, k);
      Positions(a, w, b, k);
    }
    assert |a| == |g| ==> |w| == |word|;
    assert s[|a|..|a| + |w|] == w && s[|g|..|g| + |word|] == word;
  }

  lemma Positions(a: string, w: string, b: string, k: nat)
    requires k < |a| + |w| + |b|
    ensures (a + w + b)[k] == if k < |a| then a[k] else if k < |a| + |w| then w[k - |a|] else b[k - |a| - |w|]
  {
  }

  lemma Beyond(s: string, g: string, word: string, rest: string, a: string, w: string, b: string)
    returns (a': string)
    requires Opens(s, g, word, rest) && StandsBetween(s, a, w, b) && |a| > |g| + |word|
    ensures StandsBetween(rest, a', w, b) && |rest| < |s|
  {
    hide IsSpace;
    a' := a[|g| + |word|..];
    assert s[|g| + |word|..] == rest == a' + w + b;
    assert a'[|a'| - 1] == a[|a| - 1];
  }

  // A manifest that names no lanes speaks for all of them; one that does
  // speaks for the lanes that stand among the words it gives.
  lemma LaneAnswersIff(header: map<string, string>, lane: string)
    ensures LaneAnswers(header, lane)
            <==> || !("lanes" in header) || header["lanes"] == ""
                 || (IsWordText(lane) && exists a, b :: StandsBetween(header["lanes"], a, lane, b))
    ensures GateEnforced(header) <==> "dev-mock-gate" in header && header["dev-mock-gate"] == "enforced"
  {
    if "lanes" in header {
      WordIff(header["lanes"], lane);
    }
    hide Words, StandsBetween;
  }

  // ----------------------------------------------------------------- names and hashes

  // The base name of a path is what stands behind its last slash that is not
  // at the end.
  lemma BaseNameOf(dir: string, file: string, slashes: nat)
    requires file != [] && '/' !in file
    ensures BaseName(dir + "/" + file + Slashes(slashes)) == file && BaseName(file + Slashes(slashes)) == file
  {
    Slashless(dir + "/" + file, slashes);
    Slashless(file, slashes);
    assert (dir + "/" + file)[|dir + "/" + file| - 1] == file[|file| - 1];
    LastPiece(dir + "/", file);
    LastPiece([], file);
    assert [] + file == file;
    hide WithoutSlashes, AfterLastSlash;
  }

  function Slashes(n: nat): (s: string)
    ensures |s| == n
  {
    seq(n, i => '/')
  }

  lemma {:induction false} Slashless(path: string, n: nat)
    requires path != [] && path[|path| - 1] != '/'
    ensures WithoutSlashes(path + Slashes(n)) == path
  {
    if n == 0 {
      assert path + Slashes(n) == path;
    } else {
      var s := path + Slashes(n);
      assert s[..|s| - 1] == path + Slashes(n - 1);
      Slashless(path, n - 1);
    }
  }

  lemma {:induction false} LastPiece(front: string, file: string)
    requires '/' !in file && (front == [] || front[|front| - 1] == '/')
    ensures AfterLastSlash(front + file) == file
  {
    if file == [] {
      assert front + file == front;
    } else {
      var last := file[|file| - 1];
      assert (front + file)[..|front + file| - 1] == front + file[..|file| - 1];
      LastPiece(front, file[..|file| - 1]);
      assert last in file;
    }
  }

  // A hash is compared in small letters, whatever the case it comes in.
  lemma HexOfAnyCase(s: string, width: nat)
    ensures IsHexText(LowerAll(s), width) <==> |s| == width && All(s, IsHexOfAnyCase)
  {
    var small := LowerAll(s);
    assert forall k | 0 <= k < |s| :: small[k] == Lower(s[k]);
    forall k | 0 <= k < |s|
      ensures IsHex(small[k]) <==> IsHexOfAnyCase(s[k])
    {
    }
    hide IsHex, IsHexOfAnyCase, Lower;
  }

  // A pointer's hash of 128 hexadecimal digits is itself in small letters; any
  // other text is read as base64.
  lemma Sha512Forms(lead: string, raw: string, trail: string, base64: string -> string)
    requires All(lead, IsSpace) && All(trail, IsSpace) && Trimmed(raw)
    ensures NormalizeSha512(lead + raw + trail, base64)
         == if |raw| == 128 && All(raw, IsHexOfAnyCase) then LowerAll(raw) else base64(raw)
  {
    TrimOfPadded(lead, raw, trail);
    HexOfAnyCase(raw, 128);
    hide Trim, LowerAll, IsHexText, Trimmed, IsSpace;
  }

  // ------------------------------------------------------------------------ refusals

  // A refusal of the artifact names a check that failed, the first of them in
  // the order they stand here.
  lemma ArtifactReason(e: Evidence, m: Contents)
    ensures var name := ArtifactName(e);
            CheckArtifact(e, m)
            == if Trim(e.expectedTag) == "" then Err(NoTag)
               else if !TagAnswers(m.header, Trim(e.expectedTag)) then Err(WrongRelease)
               else if IsPartial(m.header) && Trim(e.lane) == "" then Err(LaneUnnamed)
               else if !LaneAnswers(m.header, Trim(e.lane)) then Err(WrongLane)
               else if !GateEnforced(m.header) then Err(MockGateNotEnforced)
               else if name == "" then Err(NoArtifact)
               else if name !in m.entries then Err(NotCovered)
               else if !(|e.sha256| == 64 && All(e.sha256, IsHexOfAnyCase)) then Err(MalformedHash)
               else if m.entries[name] != LowerAll(e.sha256) then Err(WrongHash)
               else Ok(Verified(Trim(e.expectedTag), name, m.entries))
  {
    HexOfAnyCase(e.sha256, 64);
    hide ArtifactName, Trim, LowerAll, TagAnswers, Words, IsHexText, All, GateEnforced;
  }

  predicate SomeUncovered(files: seq<File>, entries: map<string, string>) {
    exists k | 0 <= k < |files| :: NormalizeName(files[k].url) !in entries
  }

  lemma UncoveredIff(files: seq<File>, entries: map<string, string>)
    ensures SomeUncovered(files, entries) <==> !AllCovered(files, entries)
  {
    hide NormalizeName;
  }

  // And so does a refusal of a pointer that was read; one that was not is
  // refused as it was by the reader.
  lemma PointerReason(text: string, tag: string, artifactName: string, sha512: string,
      entries: map<string, string>, o: Outside, p: Pointer)
    requires ParsedPointer(text) == Ok(p)
    ensures var file, want := FileNamed(p.files, NormalizeName(artifactName)), WantedVersion(tag);
            PointerProblem(text, tag, artifactName, sha512, entries, o)
            == if want == "" then Some(NoWantedVersion)
               else if p.version != want then Some(WrongVersion)
               else if file.None? then Some(NotNamed)
               else if !(|sha512| == 128 && All(sha512, IsHexOfAnyCase)) then Some(MalformedSha512)
               else if NormalizeSha512(file.value.sha512, o.base64) == "" then Some(NoClaimedSha512)
               else if NormalizeSha512(file.value.sha512, o.base64) != LowerAll(sha512) then Some(WrongSha512)
               else if SomeUncovered(p.files, entries) then Some(PointerUncovered)
               else None
  {
    HexOfAnyCase(sha512, 128);
    UncoveredIff(p.files, entries);
    hide ParsedPointer, NormalizeName, LowerAll, NormalizeSha512, FileNamed, WantedVersion, IsHexText, All;
    hide AllCovered, SomeUncovered;
  }

  lemma UnreadPointer(text: string, tag: string, artifactName: string, sha512: string,
      entries: map<string, string>, o: Outside, refusal: PointerRefusal)
    requires ParsedPointer(text) == Err(refusal)
    ensures PointerProblem(text, tag, artifactName, sha512, entries, o) == Some(BadPointer(refusal))
  {
    hide ParsedPointer;
  }

  // The signature comes first, then the manifest, then the artifact's checks,
  // then the pointer's.
  lemma ChecksInOrder(e: Evidence, o: Outside)
    ensures var r := VerifyUpdate(e, o);
            if !o.signed(e.manifestBytes, e.signature) then r == Err(BadSignature)
            else
              match Parsed(o.decode(e.manifestBytes), o.num)
              case Err(refusal) => r == Err(BadManifest(refusal))
              case Ok(m) =>
                if CheckArtifact(e, m).Err? then r == CheckArtifact(e, m)
                else
                  var v := CheckArtifact(e, m).value;
                  match PointerProblem(e.pointerText, v.tag, v.name, e.sha512, v.entries, o)
                  case Some(why) => r == Err(why)
                  case None => r == Ok(v)
  {
    hide Parsed, CheckArtifact, PointerProblem;
  }
}
