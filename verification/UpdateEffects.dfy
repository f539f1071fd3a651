// What each answer does to the running preparation, and how a preparation whose
// awaits are all answered ends.
module UpdateEffects {
  import opened Wrappers
  import opened Text
  import opened UpdateVerify
  import opened UpdateGate
  import opened VerifyReading

  lemma WantedWithV(version: string)
    requires version != "" && Trimmed(version)
    ensures WantedVersion("v" + version) == version
  {
    hide *;
    Unpadded("v" + version);
    WantedVersionOf("", version, "");
  }

  lemma Unpadded(s: string)
    ensures "" + s + "" == s && All("", IsSpace)
  {
  }

  // The manifest asked for is that of the version with one leading `v`, and the
  // version checked against the pointer is the one without it.
  lemma TagIsVersion(version: string)
    ensures TagOf(version)
         == if version == "" then "v" else if version[0] == 'v' then version else "v" + version
    ensures version != "" && Trimmed(version) && version[0] != 'v' ==> WantedVersion(TagOf(version)) == version
  {
    if version != "" && Trimmed(version) && version[0] != 'v' {
      WantedWithV(version);
    }
    hide WantedVersion, Trimmed;
  }

  // The refusal of a preparation for the file at `path`, which is deleted when
  // it is known.
  function Refused(s: Updater, path: string): Updater {
    Updater(s.downloaded, s.prepared, Settled(path, false), if path == "" then s.removed else s.removed + {path})
  }

  // A preparation starts only with none in flight, closing the restart path.
  lemma StartEffect(s: Updater, c: Config)
    ensures Step(s, Start, c)
         == if s.phase.Idle? then Updater(None, false, Downloading, s.removed) else s
    ensures s.phase.Settled? ==> Step(s, Finally, c) == Updater(s.downloaded, s.prepared, Idle, s.removed)
    ensures !s.phase.Settled? ==> Step(s, Finally, c) == s
  {
  }

  // The download's file is the event's, or else the download's own; without a
  // file or a version the preparation is refused.
  lemma DownloadEffect(s: Updater, paths: Option<string>, c: Config)
    requires s.phase.Downloading?
    ensures var file := if s.downloaded.Some? then s.downloaded.value.file else "";
            var version := if s.downloaded.Some? then s.downloaded.value.version else "";
            Step(s, DownloadDone(paths), c)
            == if paths.None? then Refused(s, file)
               else
                 var path := if file == "" then paths.value else file;
                 if path == "" || version == "" then Refused(s, path)
                 else Updater(s.downloaded, s.prepared, FetchingManifest(path, version), s.removed)
  {
  }

  // Each later answer takes the preparation one await on; a failure refuses it.
  lemma AnswerEffect(s: Updater, ev: Event, c: Config)
    ensures var n := Step(s, ev, c);
            match (s.phase, ev)
            case (FetchingManifest(path, version), ManifestDone(m)) =>
              n == if m.None? then Refused(s, path) else s.(phase := FetchingPointer(path, version, m.value))
            case (FetchingPointer(path, version, m), PointerDone(p)) =>
              n == if p.None? then Refused(s, path) else s.(phase := Hashing(path, version, m, p.value))
            case (Hashing(path, version, m, p), HashesDone(h)) =>
              n == if h.None? then Refused(s, path)
                   else s.(phase := Verifying(version,
                       Evidence(m.bytes, m.signature, TagOf(version), path, h.value.sha256, h.value.sha512, p, c.lane)))
            case (Verifying(_, e), Verdict) =>
              n == if VerifyUpdate(e, c.outside).Ok? then s.(prepared := true, phase := Settled(e.artifactPath, true))
                   else Refused(s, e.artifactPath)
            case _ => true
  {
    hide VerifyUpdate, TagOf;
  }

  predicate Fits(p: Phase, ev: Event) {
    match ev
    case Start => p.Idle?
    case UpdateDownloaded(_) => true
    case DownloadDone(_) => p.Downloading?
    case ManifestDone(_) => p.FetchingManifest?
    case PointerDone(_) => p.FetchingPointer?
    case HashesDone(_) => p.Hashing?
    case Verdict => p.Verifying?
    case Finally => p.Settled?
    case Restart(_) => false
  }

  // An answer to another await than the one waited for changes nothing, nor
  // does a restart; an `update-downloaded` event is only noted.
  lemma NothingElse(s: Updater, ev: Event, c: Config)
    ensures !Fits(s.phase, ev) ==> Step(s, ev, c) == s
    ensures ev.UpdateDownloaded? ==> Step(s, ev, c) == Updater(ev.info, s.prepared, s.phase, s.removed)
    ensures Installs(s, ev) <==> ev.Restart? && ev.canRestart && s.prepared
  {
    hide VerifyUpdate, Collected;
  }

  // One preparation with every await answered, from any idle state.
  function WholeAttempt(info: Info, paths: string, m: UpdateGate.Manifest, pointer: string, h: Hashes): seq<Event> {
    [Start, UpdateDownloaded(Some(info)), DownloadDone(Some(paths)), ManifestDone(Some(m)), PointerDone(Some(pointer)),
     HashesDone(Some(h)), Verdict]
  }

  function After(s: Updater, evs: seq<Event>, c: Config): Updater
    decreases |evs|
  {
    if evs == [] then s else After(Step(s, evs[0], c), evs[1..], c)
  }

  // Such a preparation opens the restart path exactly when the gate accepts
  // what its own steps gathered, and otherwise deletes the file.
  lemma WholeAttemptEnds(s: Updater, info: Info, paths: string, m: UpdateGate.Manifest, pointer: string, h: Hashes,
      c: Config)
    requires s.phase.Idle? && info.version != "" && (info.file != "" || paths != "")
    ensures var path := if info.file == "" then paths else info.file;
            var e := Evidence(m.bytes, m.signature, TagOf(info.version), path, h.sha256, h.sha512, pointer, c.lane);
            After(s, WholeAttempt(info, paths, m, pointer, h), c)
            == if VerifyUpdate(e, c.outside).Ok?
               then Updater(Some(info), true, Settled(path, true), s.removed)
               else Updater(Some(info), false, Settled(path, false), s.removed + {path})
  {
    var path := if info.file == "" then paths else info.file;
    var e := Evidence(m.bytes, m.signature, TagOf(info.version), path, h.sha256, h.sha512, pointer, c.lane);
    hide *;
    var s1 := Step(s, Start, c);
    var s2 := Step(s1, UpdateDownloaded(Some(info)), c);
    var s3 := Step(s2, DownloadDone(Some(paths)), c);
    var s4 := Step(s3, ManifestDone(Some(m)), c);
    var s5 := Step(s4, PointerDone(Some(pointer)), c);
    var s6 := Step(s5, HashesDone(Some(h)), c);
    StartEffect(s, c);
    NothingElse(s1, UpdateDownloaded(Some(info)), c);
    DownloadEffect(s2, Some(paths), c);
    AnswerEffect(s3, ManifestDone(Some(m)), c);
    AnswerEffect(s4, PointerDone(Some(pointer)), c);
    AnswerEffect(s5, HashesDone(Some(h)), c);
    AnswerEffect(s6, Verdict, c);
    assert s6 == Updater(Some(info), false, Verifying(info.version, e), s.removed);
    RefusedIs(s6, path);
    SevenSteps(s, info, paths, m, pointer, h, c);
  }

  lemma RefusedIs(s: Updater, path: string)
    requires path != ""
    ensures Refused(s, path) == Updater(s.downloaded, s.prepared, Settled(path, false), s.removed + {path})
  {
  }

  lemma SevenSteps(s: Updater, info: Info, paths: string, m: UpdateGate.Manifest, pointer: string, h: Hashes, c: Config)
    ensures After(s, WholeAttempt(info, paths, m, pointer, h), c)
         == Step(Step(Step(Step(Step(Step(Step(s, Start, c), UpdateDownloaded(Some(info)), c),
                DownloadDone(Some(paths)), c), ManifestDone(Some(m)), c), PointerDone(Some(pointer)), c),
                HashesDone(Some(h)), c), Verdict, c)
  {
    hide Step;
    var evs := WholeAttempt(info, paths, m, pointer, h);
    var s1 := Step(s, Start, c);
    var s2 := Step(s1, UpdateDownloaded(Some(info)), c);
    var s3 := Step(s2, DownloadDone(Some(paths)), c);
    var s4 := Step(s3, ManifestDone(Some(m)), c);
    var s5 := Step(s4, PointerDone(Some(pointer)), c);
    var s6 := Step(s5, HashesDone(Some(h)), c);
    AfterOne(s, evs, 0, c);
    AfterOne(s1, evs, 1, c);
    AfterOne(s2, evs, 2, c);
    AfterOne(s3, evs, 3, c);
    AfterOne(s4, evs, 4, c);
    AfterOne(s5, evs, 5, c);
    AfterOne(s6, evs, 6, c);
    assert evs[0..] == evs && evs[7..] == [];
  }

  lemma AfterOne(s: Updater, evs: seq<Event>, k: nat, c: Config)
    requires k < |evs|
    ensures After(s, evs[k..], c) == After(Step(s, evs[k], c), evs[k + 1..], c)
  {
    hide Step;
    assert evs[k..][0] == evs[k] && evs[k..][1..] == evs[k + 1..];
  }
}
