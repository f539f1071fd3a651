// When an install may run: attachUpdater in packages/desktop/main/updater.js.
// One preparation at a time downloads, fetches the manifest and the pointer,
// hashes the file and verifies; each await is a step boundary, updater events
// arrive at any time, and a restart may be asked for between any two steps.
module UpdateGate {
  import opened Wrappers
  import opened UpdateVerify

  datatype Config = Config(outside: Outside, lane: string)

  // An `update-downloaded` payload; a missing field is the empty string.
  datatype Info = Info(file: string, version: string)

  datatype Manifest = Manifest(bytes: seq<nat>, signature: string)

  datatype Hashes = Hashes(sha256: string, sha512: string)

  // Where the preparation is suspended. Settled: it has its result, and the
  // `finally` that clears downloadInFlight has not run.
  datatype Phase =
    | Idle
    | Downloading
    | FetchingManifest(path: string, version: string)
    | FetchingPointer(path: string, version: string, manifest: Manifest)
    | Hashing(path: string, version: string, manifest: Manifest, pointer: string)
    | Verifying(version: string, evidence: Evidence)
    | Settled(path: string, ok: bool)

  datatype Updater = Updater(
    downloaded: Option<Info>,
    prepared: bool,
    phase: Phase,
    // the files the gate has asked to delete
    removed: set<string>
  ) {
    // startDownload's single flight.
    predicate InFlight() {
      !phase.Idle?
    }

    function Rejected(path: string): Updater {
      this.(phase := Settled(path, false), removed := if path != [] then removed + {path} else removed)
    }
  }

  // What each await answered; None for a failure.
  datatype Event =
    | Start
    | UpdateDownloaded(info: Option<Info>)
    | DownloadDone(paths: Option<string>)
    | ManifestDone(manifest: Option<Manifest>)
    | PointerDone(pointer: Option<string>)
    | HashesDone(hashes: Option<Hashes>)
    | Verdict
    | Finally
    | Restart(canRestart: bool)

  function DownloadedFile(s: Updater): string {
    if s.downloaded.Some? then s.downloaded.value.file else []
  }

  function TagOf(version: string): string {
    if version != [] && version[0] == 'v' then version else "v" + version
  }

  function Collected(p: Phase, h: Hashes, c: Config): Evidence
    requires p.Hashing?
  {
    Evidence(p.manifest.bytes, p.manifest.signature, TagOf(p.version), p.path, h.sha256, h.sha512, p.pointer, c.lane)
  }

  function DownloadResolved(s: Updater, paths: string): Updater {
    var path := if DownloadedFile(s) != [] then DownloadedFile(s) else paths;
    var version := if s.downloaded.Some? then s.downloaded.value.version else [];
    if path == [] || version == [] then s.Rejected(path) else s.(phase := FetchingManifest(path, version))
  }

  function Step(s: Updater, ev: Event, c: Config): Updater {
    match ev
    case Start => if s.InFlight() then s else s.(prepared := false, downloaded := None, phase := Downloading)
    case UpdateDownloaded(info) => s.(downloaded := info)
    case DownloadDone(paths) =>
      if !s.phase.Downloading? then s
      else if paths.None? then s.Rejected(DownloadedFile(s))
      else DownloadResolved(s, paths.value)
    case ManifestDone(m) =>
      if !s.phase.FetchingManifest? then s
      else if m.None? then s.Rejected(s.phase.path)
      else s.(phase := FetchingPointer(s.phase.path, s.phase.version, m.value))
    case PointerDone(p) =>
      if !s.phase.FetchingPointer? then s
      else if p.None? then s.Rejected(s.phase.path)
      else s.(phase := Hashing(s.phase.path, s.phase.version, s.phase.manifest, p.value))
    case HashesDone(h) =>
      if !s.phase.Hashing? then s
      else if h.None? then s.Rejected(s.phase.path)
      else s.(phase := Verifying(s.phase.version, Collected(s.phase, h.value, c)))
    case Verdict =>
      if !s.phase.Verifying? then s
      else if VerifyUpdate(s.phase.evidence, c.outside).Err? then s.Rejected(s.phase.evidence.artifactPath)
      else s.(prepared := true, phase := Settled(s.phase.evidence.artifactPath, true))
    case Finally => if s.phase.Settled? then s.(phase := Idle) else s
    case Restart(_) => s
  }

  // Does this step call quitAndInstall?
  predicate Installs(s: Updater, ev: Event) {
    ev.Restart? && s.prepared && ev.canRestart
  }

  function Initial(): Updater {
    Updater(None, false, Idle, {})
  }

  function Run(evs: seq<Event>, c: Config): Updater {
    if evs == [] then Initial() else Step(Run(evs[..|evs| - 1], c), evs[|evs| - 1], c)
  }

  // ------------------------------------------------------------ the latest attempt

  // Does step `k` start a preparation?
  predicate Starts(evs: seq<Event>, k: nat, c: Config)
    requires k < |evs|
  {
    evs[k].Start? && !Run(evs[..k], c).InFlight()
  }

  // The steps from the latest start on (all of them when there was none).
  function Attempt(evs: seq<Event>, c: Config): (n: nat)
    ensures n <= |evs|
  {
    if evs == [] then 0
    else if Starts(evs, |evs| - 1, c) then |evs| - 1
    else Attempt(evs[..|evs| - 1], c)
  }

  lemma {:induction false} AttemptIsLatest(evs: seq<Event>, c: Config)
    ensures forall k | Attempt(evs, c) < k < |evs| :: !Starts(evs, k, c)
    ensures Attempt(evs, c) > 0 ==> Attempt(evs, c) < |evs| && Starts(evs, Attempt(evs, c), c)
  {
    hide Step;
    if evs != [] {
      var front := evs[..|evs| - 1];
      AttemptIsLatest(front, c);
      forall k | 0 <= k < |front|
        ensures Starts(evs, k, c) == Starts(front, k, c)
      {
        assert front[..k] == evs[..k];
      }
    }
  }

  // The attempt's steps so far.
  function Since(evs: seq<Event>, c: Config): seq<Event> {
    evs[Attempt(evs, c)..]
  }

  lemma SinceGrows(evs: seq<Event>, c: Config)
    requires evs != []
    ensures var front, last := evs[..|evs| - 1], evs[|evs| - 1];
            Since(evs, c) == if Starts(evs, |evs| - 1, c) then [last] else Since(front, c) + [last]
  {
    hide Starts;
  }

  // The path and the version this attempt's download reported: the event's, or
  // the download's own path where the event named none.
  predicate Reported(path: string, version: string, attempt: seq<Event>) {
    && path != [] && version != []
    && (UpdateDownloaded(Some(Info(path, version))) in attempt
        || (UpdateDownloaded(Some(Info([], version))) in attempt && DownloadDone(Some(path)) in attempt))
  }

  // Evidence put together from what this attempt's own steps answered.
  predicate FromAttempt(e: Evidence, version: string, attempt: seq<Event>, lane: string) {
    && Reported(e.artifactPath, version, attempt) && e.expectedTag == TagOf(version)
    && ManifestDone(Some(Manifest(e.manifestBytes, e.signature))) in attempt
    && PointerDone(Some(e.pointerText)) in attempt
    && HashesDone(Some(Hashes(e.sha256, e.sha512))) in attempt
    && e.lane == lane
  }

  predicate Gathered(s: Updater, attempt: seq<Event>, c: Config) {
    && (s.InFlight() && s.downloaded.Some? ==> UpdateDownloaded(s.downloaded) in attempt)
    && match s.phase
       case FetchingManifest(path, version) => Reported(path, version, attempt)
       case FetchingPointer(path, version, manifest) =>
         Reported(path, version, attempt) && ManifestDone(Some(manifest)) in attempt
       case Hashing(path, version, manifest, pointer) =>
         Reported(path, version, attempt) && ManifestDone(Some(manifest)) in attempt
             && PointerDone(Some(pointer)) in attempt
       case Verifying(version, evidence) => FromAttempt(evidence, version, attempt, c.lane)
       case _ => true
  }

  lemma StillGathered(s: Updater, attempt: seq<Event>, ev: Event, c: Config)
    requires Gathered(s, attempt, c)
    ensures Gathered(s, attempt + [ev], c)
  {
    hide TagOf;
    assert forall e | e in attempt :: e in attempt + [ev];
  }

  lemma GatheredGrows(s: Updater, attempt: seq<Event>, ev: Event, c: Config)
    requires Gathered(s, attempt, c) && !(ev.Start? && !s.InFlight())
    ensures Gathered(Step(s, ev, c), attempt + [ev], c)
  {
    StillGathered(s, attempt, ev, c);
    var all := attempt + [ev];
    assert all[|attempt|] == ev;
    hide *;
    match ev
    case DownloadDone(paths) => DownloadGathers(s, all, paths, c);
    case ManifestDone(manifest) => AnswerGathers(s, all, ev, c);
    case PointerDone(pointer) => AnswerGathers(s, all, ev, c);
    case HashesDone(hashes) => HashesGather(s, all, hashes, c);
    case _ => OtherGathers(s, all, ev, c);
  }

  lemma AnswerGathers(s: Updater, attempt: seq<Event>, ev: Event, c: Config)
    requires Gathered(s, attempt, c) && ev in attempt && (ev.ManifestDone? || ev.PointerDone?)
    ensures Gathered(Step(s, ev, c), attempt, c)
  {
    hide FromAttempt, Reported;
  }

  lemma HashesGather(s: Updater, attempt: seq<Event>, hashes: Option<Hashes>, c: Config)
    requires Gathered(s, attempt, c) && HashesDone(hashes) in attempt
    ensures Gathered(Step(s, HashesDone(hashes), c), attempt, c)
  {
    hide TagOf, Reported;
    if s.phase.Hashing? && hashes.Some? {
      assert hashes.value == Hashes(hashes.value.sha256, hashes.value.sha512);
      assert s.phase.manifest == Manifest(s.phase.manifest.bytes, s.phase.manifest.signature);
    }
  }

  lemma OtherGathers(s: Updater, attempt: seq<Event>, ev: Event, c: Config)
    requires Gathered(s, attempt, c) && ev in attempt && !(ev.Start? && !s.InFlight())
    requires ev.Start? || ev.UpdateDownloaded? || ev.Verdict? || ev.Finally? || ev.Restart?
    ensures Gathered(Step(s, ev, c), attempt, c)
  {
    hide FromAttempt, Reported, VerifyUpdate;
  }

  lemma DownloadGathers(s: Updater, attempt: seq<Event>, paths: Option<string>, c: Config)
    requires Gathered(s, attempt, c) && DownloadDone(paths) in attempt
    ensures Gathered(Step(s, DownloadDone(paths), c), attempt, c)
  {
    hide TagOf, FromAttempt;
    assert s.downloaded.Some? ==> s.downloaded.value == Info(DownloadedFile(s), s.downloaded.value.version);
  }

  lemma {:induction false} RunGathers(evs: seq<Event>, c: Config)
    ensures Gathered(Run(evs, c), Since(evs, c), c)
  {
    if evs != [] {
      var front, last := evs[..|evs| - 1], evs[|evs| - 1];
      RunGathers(front, c);
      SinceGrows(evs, c);
      var s := Run(front, c);
      if Starts(evs, |evs| - 1, c) {
      } else {
        GatheredGrows(s, Since(front, c), last, c);
      }
      hide Gathered, Since, Step;
    }
  }

  // ----------------------------------------------------------------- the install

  // Does this step's verification accept?
  predicate Accepts(s: Updater, ev: Event, c: Config) {
    ev.Verdict? && s.phase.Verifying? && VerifyUpdate(s.phase.evidence, c.outside).Ok?
  }

  // Step `k` accepted evidence gathered in the attempt that is still the latest
  // at the end of `evs`.
  predicate VerifiedAt(evs: seq<Event>, k: nat, c: Config)
    requires k < |evs|
  {
    var s := Run(evs[..k], c);
    && Attempt(evs, c) <= k && Accepts(s, evs[k], c)
    && FromAttempt(s.phase.evidence, s.phase.version, evs[Attempt(evs, c)..k], c.lane)
  }

  predicate VerifiedBefore(evs: seq<Event>, n: nat, c: Config)
    requires n <= |evs|
  {
    exists k | 0 <= k < n :: VerifiedAt(evs, k, c)
  }

  // In every interleaving, the restart path is open exactly when the latest
  // preparation verified: quitAndInstall never runs on an older one's verdict,
  // on none, or on inputs from outside that attempt.
  lemma {:induction false} PreparedIffLatestVerified(evs: seq<Event>, c: Config)
    ensures Run(evs, c).prepared <==> VerifiedBefore(evs, |evs|, c)
  {
    if evs != [] {
      var n := |evs| - 1;
      hide *;
      PreparedIffLatestVerified(evs[..n], c);
      VerifiedEarlier(evs, c);
      VerifiedLast(evs, c);
      PreparedStep(evs, c);
      OneMore(evs, c);
    }
  }

  lemma OneMore(evs: seq<Event>, c: Config)
    requires evs != []
    ensures VerifiedBefore(evs, |evs|, c) <==> VerifiedBefore(evs, |evs| - 1, c) || VerifiedAt(evs, |evs| - 1, c)
  {
    hide VerifiedAt;
  }

  lemma VerifiedEarlier(evs: seq<Event>, c: Config)
    requires evs != []
    ensures VerifiedBefore(evs, |evs| - 1, c)
       <==> !Starts(evs, |evs| - 1, c) && VerifiedBefore(evs[..|evs| - 1], |evs| - 1, c)
  {
    var n := |evs| - 1;
    var front := evs[..n];
    forall k | 0 <= k < n
      ensures VerifiedAt(evs, k, c) <==> !Starts(evs, n, c) && VerifiedAt(front, k, c)
    {
      assert front[..k] == evs[..k];
      if !Starts(evs, n, c) && Attempt(evs, c) <= k {
        assert evs[Attempt(evs, c)..k] == front[Attempt(evs, c)..k];
      }
      hide Starts, FromAttempt, Accepts;
    }
    hide VerifiedAt, Starts;
  }

  lemma VerifiedLast(evs: seq<Event>, c: Config)
    requires evs != []
    ensures VerifiedAt(evs, |evs| - 1, c) <==> Accepts(Run(evs[..|evs| - 1], c), evs[|evs| - 1], c)
  {
    var n := |evs| - 1;
    RunGathers(evs[..n], c);
    assert !Starts(evs, n, c) || evs[n].Start?;
    SameAttempt(evs, c);
    if Run(evs[..n], c).phase.Verifying? {
      VerifyingGathered(Run(evs[..n], c), Since(evs[..n], c), c);
    }
    hide Starts, FromAttempt, Gathered, Step, VerifyUpdate, Run, Attempt, Since;
  }

  lemma VerifyingGathered(s: Updater, attempt: seq<Event>, c: Config)
    requires Gathered(s, attempt, c) && s.phase.Verifying?
    ensures FromAttempt(s.phase.evidence, s.phase.version, attempt, c.lane)
  {
    hide FromAttempt;
  }

  lemma SameAttempt(evs: seq<Event>, c: Config)
    requires evs != []
    ensures !Starts(evs, |evs| - 1, c) ==>
              Attempt(evs, c) <= |evs| - 1 && Since(evs[..|evs| - 1], c) == evs[Attempt(evs, c)..|evs| - 1]
  {
    hide Starts;
  }

  lemma PreparedStep(evs: seq<Event>, c: Config)
    requires evs != []
    ensures var s, ev := Run(evs[..|evs| - 1], c), evs[|evs| - 1];
            Run(evs, c).prepared <==> (s.prepared && !Starts(evs, |evs| - 1, c)) || Accepts(s, ev, c)
  {
    hide VerifyUpdate;
  }

  lemma InstallsOnlyVerified(evs: seq<Event>, canRestart: bool, c: Config)
    ensures Installs(Run(evs, c), Restart(canRestart))
       <==> canRestart && exists k | 0 <= k < |evs| :: VerifiedAt(evs, k, c) && forall j | k <= j < |evs| ::
           !Starts(evs, j, c)
  {
    PreparedIffLatestVerified(evs, c);
    AttemptIsLatest(evs, c);
    forall k | 0 <= k < |evs| && VerifiedAt(evs, k, c)
      ensures forall j | k <= j < |evs| :: !Starts(evs, j, c)
    {
      assert !Starts(evs, k, c);
    }
    hide VerifiedAt, Starts;
  }

  // A preparation that did not end ready has asked to delete the file it was
  // about, and is not ready.
  predicate Cleaned(s: Updater) {
    && (s.phase.Settled? && !s.phase.ok && s.phase.path != [] ==> s.phase.path in s.removed)
    && (s.InFlight() && !(s.phase.Settled? && s.phase.ok) ==> !s.prepared)
  }

  lemma {:induction false} RefusedIsRemoved(evs: seq<Event>, c: Config)
    ensures Cleaned(Run(evs, c))
  {
    hide Step, Cleaned;
    if evs == [] {
      CleanAtFirst();
    } else {
      RefusedIsRemoved(evs[..|evs| - 1], c);
      CleanedStep(Run(evs[..|evs| - 1], c), evs[|evs| - 1], c);
    }
  }

  lemma CleanAtFirst()
    ensures Cleaned(Initial())
  {
  }

  lemma CleanedStep(s: Updater, ev: Event, c: Config)
    requires Cleaned(s)
    ensures Cleaned(Step(s, ev, c))
  {
    hide VerifyUpdate, TagOf, Collected;
    match ev
    case Verdict =>
    case DownloadDone(_) =>
    case _ =>
  }

  // ------------------------------------------------------------ the closure's state

  class UpdaterGate {
    const cfg: Config
    var downloaded: Option<Info>
    var prepared: bool
    var suspended: Phase
    var removed: set<string>

    ghost function View(): Updater
      reads this
    {
      Updater(downloaded, prepared, suspended, removed)
    }

    constructor (cfg: Config)
      ensures View() == Initial() && this.cfg == cfg
    {
      this.cfg := cfg;
      downloaded, prepared, suspended, removed := None, false, Idle, {};
    }

    method OnUpdateDownloaded(info: Option<Info>)
      modifies this`downloaded
      ensures View() == Step(old(View()), UpdateDownloaded(info), cfg)
    {
      downloaded := info;
    }

    method StartDownload()
      modifies this
      ensures View() == Step(old(View()), Start, cfg)
    {
      if suspended != Idle { return; }
      prepared := false;
      downloaded := None;
      suspended := Downloading;
    }

    method Reject(path: string)
      modifies this`suspended, this`removed
      ensures View() == old(View()).Rejected(path)
    {
      if path != [] {
        removed := removed + {path};
      }
      suspended := Settled(path, false);
    }

    method AfterDownload(paths: Option<string>)
      requires suspended.Downloading?
      modifies this`suspended, this`removed
      ensures View() == Step(old(View()), DownloadDone(paths), cfg)
    {
      var file := if downloaded.Some? then downloaded.value.file else [];
      if paths.None? {
        Reject(file);
        return;
      }
      var path := if file != [] then file else paths.value;
      var version := if downloaded.Some? then downloaded.value.version else [];
      if path == [] || version == [] {
        Reject(path);
      } else {
        suspended := FetchingManifest(path, version);
      }
    }

    method AfterManifest(manifest: Option<Manifest>)
      requires suspended.FetchingManifest?
      modifies this`suspended, this`removed
      ensures View() == Step(old(View()), ManifestDone(manifest), cfg)
    {
      if manifest.None? {
        Reject(suspended.path);
      } else {
        suspended := FetchingPointer(suspended.path, suspended.version, manifest.value);
      }
    }

    method AfterPointer(pointer: Option<string>)
      requires suspended.FetchingPointer?
      modifies this`suspended, this`removed
      ensures View() == Step(old(View()), PointerDone(pointer), cfg)
    {
      if pointer.None? {
        Reject(suspended.path);
      } else {
        suspended := Hashing(suspended.path, suspended.version, suspended.manifest, pointer.value);
      }
    }

    method AfterHashes(hashes: Option<Hashes>)
      requires suspended.Hashing?
      modifies this`suspended, this`removed
      ensures View() == Step(old(View()), HashesDone(hashes), cfg)
    {
      if hashes.None? {
        Reject(suspended.path);
      } else {
        suspended := Verifying(suspended.version, Collected(suspended, hashes.value, cfg));
      }
    }

    method AfterVerdict()
      requires suspended.Verifying?
      modifies this`suspended, this`removed, this`prepared
      ensures View() == Step(old(View()), Verdict, cfg)
    {
      hide VerifyUpdate;
      var path := suspended.evidence.artifactPath;
      if VerifyUpdate(suspended.evidence, cfg.outside).Err? {
        Reject(path);
      } else {
        prepared := true;
        suspended := Settled(path, true);
      }
    }

    method AfterSettled()
      requires suspended.Settled?
      modifies this`suspended
      ensures View() == Step(old(View()), Finally, cfg)
    {
      suspended := Idle;
    }

    method RestartAndInstall(canRestart: bool) returns (quits: bool)
      ensures quits == Installs(View(), Restart(canRestart))
    {
      if !prepared { return false; }
      if !canRestart { return false; }
      return true;
    }
  }
}
