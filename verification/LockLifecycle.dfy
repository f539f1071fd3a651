// The desktop lock lifecycle: packages/desktop/main/runtime.js over the two
// files that outlive the process, session.bin (keychain.js) and autolock.json
// (autoLockState.js). Handlers are steps; every unlink and write may be refused.
module LockLifecycle {
  import opened Wrappers

  // ------------------------------------------------------------ the idle record

  datatype Record = Record(armed: bool, idleMs: int, lastActivity: int)

  // autolock.json as the next read finds it.
  datatype RecordFile = Absent | Corrupt | Stored(record: Record)

  const CLOCK_ROLLBACK_TOLERANCE_MS := 300_000
  const STAMP_INTERVAL_MS := 30_000

  predicate HasEnforceableWindow(r: Record) {
    r.idleMs > 0 && r.lastActivity > 0
  }

  // An armed record without an enforceable window counts as malformed.
  function LoadRecord(f: RecordFile): Option<Record> {
    if f.Stored? && (f.record.armed ==> HasEnforceableWindow(f.record)) then Some(f.record) else None
  }

  // The idle decision both shells share.
  predicate ShouldAutoLock(r: Record, now: int) {
    r.armed && HasEnforceableWindow(r)
    && (r.lastActivity - now > CLOCK_ROLLBACK_TOLERANCE_MS || now - r.lastActivity >= r.idleMs)
  }

  // What a launch must not open a cached key under: no usable record, or an
  // armed one whose window has passed.
  predicate GateLocks(f: RecordFile, now: int) {
    match LoadRecord(f)
    case None => true
    case Some(r) => r.armed && ShouldAutoLock(r, now)
  }

  // A renderer report; `idleMs` is None when it is not a finite number.
  datatype Report = Report(armed: bool, idleMs: Option<int>, activity: bool)

  // How a store's unlinks went: whether the file and its temporary sibling
  // were refused.
  datatype Unlinks = Unlinks(keepsFile: bool, keepsTmp: bool)

  // -------------------------------------------------------------- the whole shell

  datatype Shell = Shell(
    // the two files
    sessionBin: bool,
    autolock: RecordFile,
    // the process, if there is one
    running: bool,
    keyReadable: bool,
    inMemory: bool,
    revoked: bool,
    host: bool,
    cleanupPending: bool
  ) {
    // KeychainSessionBackend.load: is there a key to be had?
    predicate HasKey() {
      !revoked && (inMemory || (keyReadable && sessionBin))
    }

    // KeychainSessionBackend.clear revokes first, then tries both unlinks.
    function SessionCleared(u: Unlinks): Shell {
      this.(revoked := true, inMemory := false, sessionBin := sessionBin && u.keepsFile)
    }

    predicate SessionClearThrows(u: Unlinks) {
      (sessionBin && u.keepsFile) || u.keepsTmp
    }

    function RecordCleared(u: Unlinks): Shell {
      this.(autolock := if u.keepsFile then autolock else Absent)
    }

    predicate RecordClearThrows(u: Unlinks) {
      (autolock != Absent && u.keepsFile) || u.keepsTmp
    }

    function RecordSaved(r: Record, ok: bool): Shell {
      this.(autolock := if ok then Stored(r) else autolock)
    }

    function Stamped(now: int, ok: bool): Shell {
      match LoadRecord(autolock)
      case None => this
      case Some(r) =>
        if !r.armed || now - r.lastActivity < STAMP_INTERVAL_MS then this
        else RecordSaved(r.(lastActivity := now), ok)
    }

    // ensureHost; `opens` says whether the cached key decrypts the vault.
    function HostEnsured(opens: bool, u: Unlinks): Shell {
      if cleanupPending || host || !HasKey() then this
      else if opens then this.(host := true)
      else SessionCleared(u)
    }

    // lockRuntimeForAutoLock.
    function AutoLocked(u: Unlinks, ru: Unlinks): Shell {
      var s := this.(host := false, cleanupPending := true);
      if s.SessionClearThrows(u) then s.SessionCleared(u)
      else s.SessionCleared(u).(cleanupPending := false).RecordCleared(ru)
    }

    predicate LaunchLocks(now: int) {
      HasKey() && GateLocks(autolock, now)
    }

    // enforceLaunchAutoLock once it has decided to lock.
    function LaunchLocked(u: Unlinks, ru: Unlinks): Shell {
      var s := SessionCleared(u).(cleanupPending := SessionClearThrows(u));
      s.RecordCleared(ru)
    }

    predicate IdleLocks(now: int) {
      match LoadRecord(autolock)
      case None => false
      case Some(r) => r.armed && ShouldAutoLock(r, now)
    }

    predicate SystemLocks() {
      match LoadRecord(autolock)
      case None => false
      case Some(r) => r.armed
    }

    predicate ArmedNow() {
      LoadRecord(autolock).Some? && LoadRecord(autolock).value.armed
    }

    // The activity stamp an arming report leaves.
    function ArmedStamp(m: Report, now: int): int {
      if !m.activity && ArmedNow() && LoadRecord(autolock).value.lastActivity > 0
      then LoadRecord(autolock).value.lastActivity
      else now
    }

    // applyAutoLockReport.
    function ReportApplied(m: Report, now: int, saves: bool, u: Unlinks): Shell {
      if !m.armed then RecordSaved(Record(false, 0, now), saves)
      else if m.idleMs.None? || m.idleMs.value <= 0 then RecordCleared(u)
      else if m.activity && !ArmedNow() then this
      else RecordSaved(Record(true, m.idleMs.value, ArmedStamp(m, now)), saves)
    }

    predicate ReportThrows(m: Report, saves: bool, u: Unlinks) {
      if !m.armed then !saves
      else if m.idleMs.None? || m.idleMs.value <= 0 then RecordClearThrows(u)
      else !(m.activity && !ArmedNow()) && !saves
    }

    // A report; an arm that could not be stored locks instead, and the record
    // is cleared once more after that.
    function Reported(m: Report, now: int, saves: bool, cu: Unlinks, u: Unlinks, ru: Unlinks, again: Unlinks): Shell {
      if cleanupPending then this
      else
        var s := ReportApplied(m, now, saves, cu);
        if !ReportThrows(m, saves, cu) || !m.armed || m.activity then s
        else s.AutoLocked(u, ru).RecordCleared(again)
    }

    // A fresh password unlock (or create, import): the key is saved first.
    function Unlocked(now: int, stamps: bool, writes: bool, ru: Unlinks, opens: bool, u: Unlinks): Shell {
      var s := (if cleanupPending then this else Stamped(now, stamps)).(revoked := false, inMemory := true);
      if keyReadable && !writes then s
      else
        s.(sessionBin := s.sessionBin || s.keyReadable)
         .(cleanupPending := false).RecordCleared(ru).HostEnsured(opens, u)
    }

    // wallet.lock; `signingCleared` is the other secret's clear.
    function WalletLocked(now: int, stamps: bool, u: Unlinks, signingCleared: bool, ru: Unlinks): Shell {
      var s := if cleanupPending then this else Stamped(now, stamps);
      var secretsCleared := !s.SessionClearThrows(u) && signingCleared;
      var t := s.SessionCleared(u).(cleanupPending := !secretsCleared, host := false);
      if secretsCleared then t.RecordCleared(ru) else t
    }

    function Wiped(metaClears: bool, u: Unlinks, ru: Unlinks): Shell {
      var s := this.(host := false);
      if metaClears then s.SessionCleared(u).RecordCleared(ru) else s
    }
  }

  datatype Event =
    | Launch(now: int, readable: bool, u: Unlinks, ru: Unlinks, opens: bool)
    | Quit
    | IdleCheck(now: int, u: Unlinks, ru: Unlinks)
    | SystemEvent(now: int, u: Unlinks, ru: Unlinks)
    | AutoLockReport(now: int, m: Report, saves: bool, cu: Unlinks, u: Unlinks, ru: Unlinks, again: Unlinks)
    | VaultMessage(now: int, stamps: bool, opens: bool, u: Unlinks)
    | StatusQuery(now: int, stamps: bool)
    | PasswordUnlock(now: int, stamps: bool, writes: bool, ru: Unlinks, opens: bool, u: Unlinks)
    | WalletLock(now: int, stamps: bool, u: Unlinks, signingCleared: bool, ru: Unlinks)
    | Wipe(metaClears: bool, u: Unlinks, ru: Unlinks)

  function Started(s: Shell, readable: bool): Shell {
    Shell(s.sessionBin, s.autolock, true, readable, false, false, false, false)
  }

  function Step(s: Shell, ev: Event): Shell {
    match ev
    case Launch(now, readable, u, ru, opens) =>
      if s.running then s
      else
        var p := Started(s, readable);
        if p.LaunchLocks(now) then p.LaunchLocked(u, ru) else p.HostEnsured(opens, u)
    case Quit => Shell(s.sessionBin, s.autolock, false, false, false, false, false, false)
    case _ => if s.running then Handled(s, ev) else s
  }

  // The events a running process handles.
  function Handled(s: Shell, ev: Event): Shell
    requires !ev.Launch? && !ev.Quit?
  {
    match ev
    case IdleCheck(now, u, ru) => if s.IdleLocks(now) then s.AutoLocked(u, ru) else s
    case SystemEvent(_, u, ru) => if s.SystemLocks() then s.AutoLocked(u, ru) else s
    case AutoLockReport(now, m, saves, cu, u, ru, again) => s.Reported(m, now, saves, cu, u, ru, again)
    case VaultMessage(now, stamps, opens, u) =>
      if s.cleanupPending then s else s.Stamped(now, stamps).HostEnsured(opens, u)
    case StatusQuery(now, stamps) => if s.cleanupPending then s else s.Stamped(now, stamps)
    case PasswordUnlock(now, stamps, writes, ru, opens, u) => s.Unlocked(now, stamps, writes, ru, opens, u)
    case WalletLock(now, stamps, u, signingCleared, ru) => s.WalletLocked(now, stamps, u, signingCleared, ru)
    case Wipe(metaClears, u, ru) => s.Wiped(metaClears, u, ru)
  }

  // Does this event hand a vault-backed message to a host?
  predicate Serves(s: Shell, ev: Event) {
    s.running && ev.VaultMessage? && !s.cleanupPending && Step(s, ev).host
  }

  // What session.status reports as hasSession.
  predicate StatusHasSession(s: Shell) {
    !s.cleanupPending && s.HasKey()
  }

  function Run(s: Shell, evs: seq<Event>): Shell {
    if evs == [] then s else Step(Run(s, evs[..|evs| - 1]), evs[|evs| - 1])
  }

  // ------------------------------------------------ what an operation leaves alone

  // The record is all that differs.
  predicate OnlyRecord(s: Shell, q: Shell) {
    && q.sessionBin == s.sessionBin && q.running == s.running && q.keyReadable == s.keyReadable
    && q.inMemory == s.inMemory && q.revoked == s.revoked && q.host == s.host && q.cleanupPending == s.cleanupPending
  }

  lemma StampedFrame(s: Shell, now: int, ok: bool)
    ensures OnlyRecord(s, s.Stamped(now, ok))
  {
  }

  lemma SavedFrame(s: Shell, r: Record, saves: bool, u: Unlinks)
    ensures OnlyRecord(s, s.RecordSaved(r, saves)) && OnlyRecord(s, s.RecordCleared(u)) && OnlyRecord(s, s)
  {
  }

  // The record an arming or disarming report saves.
  function Reporting(s: Shell, m: Report, now: int): Record {
    if m.armed && m.idleMs.Some? then Record(true, m.idleMs.value, s.ArmedStamp(m, now)) else Record(false, 0, now)
  }

  lemma ReportAppliedFrame(s: Shell, m: Report, now: int, saves: bool, u: Unlinks)
    ensures OnlyRecord(s, s.ReportApplied(m, now, saves, u))
  {
    SavedFrame(s, Reporting(s, m, now), saves, u);
    hide Shell.ArmedNow, Shell.ArmedStamp, Shell.RecordSaved, Shell.RecordCleared, OnlyRecord;
    if !m.armed {
    } else if m.idleMs.None? || m.idleMs.value <= 0 {
    } else if m.activity && !s.ArmedNow() {
    } else {
    }
  }

  // The shell once the session was cleared and the host dropped for it.
  function Locked(s: Shell, u: Unlinks, f: RecordFile): Shell {
    s.SessionCleared(u).(host := false, cleanupPending := s.SessionClearThrows(u), autolock := f)
  }

  lemma AutoLockedFrame(s: Shell, u: Unlinks, ru: Unlinks)
    ensures var q := s.AutoLocked(u, ru); q == Locked(s, u, q.autolock)
    ensures s.SessionClearThrows(u) ==> s.AutoLocked(u, ru).autolock == s.autolock
  {
  }

  // A report touches the record alone, or locks.
  lemma ReportedFrame(s: Shell, m: Report, now: int, saves: bool, cu: Unlinks, u: Unlinks, ru: Unlinks, again: Unlinks)
    ensures var q := s.Reported(m, now, saves, cu, u, ru, again);
            OnlyRecord(s, q) || (!s.cleanupPending && q == Locked(s, u, q.autolock))
    ensures s.cleanupPending ==> s.Reported(m, now, saves, cu, u, ru, again) == s
  {
    ReportAppliedFrame(s, m, now, saves, cu);
    AutoLockedFrame(s.ReportApplied(m, now, saves, cu), u, ru);
    hide Shell.ReportApplied, Shell.ReportThrows, Shell.AutoLocked;
  }

  // ensureHost opens, clears, or does nothing.
  lemma HostEnsuredFrame(s: Shell, opens: bool, u: Unlinks)
    ensures var q := s.HostEnsured(opens, u);
            q == s || (!s.cleanupPending && s.HasKey() && q == if opens then s.(host := true) else s.SessionCleared(u))
  {
    hide Shell.HasKey;
  }

  // ------------------------------------------------------------ launching, exactly

  // A launch opens the vault from the cached key exactly when the key is there,
  // readable and right, and the record says Never or is still in its window.
  lemma LaunchOpensIff(s: Shell, now: int, readable: bool, u: Unlinks, ru: Unlinks, opens: bool)
    requires !s.running
    ensures Step(s, Launch(now, readable, u, ru, opens)).host <==>
              s.sessionBin && readable && opens
              && LoadRecord(s.autolock).Some?
              && var r := LoadRecord(s.autolock).value;
                 !r.armed || (-CLOCK_ROLLBACK_TOLERANCE_MS <= now - r.lastActivity < r.idleMs)
  {
  }

  // ------------------------------------------------- one process, whatever is refused

  // From an auto-lock on, this process has no key.
  predicate ProcessShut(s: Shell) {
    s.running && s.revoked && !s.inMemory && !s.host
  }

  predicate AutoLocks(s: Shell, ev: Event) {
    match ev
    case Launch(now, readable, _, _, _) => !s.running && Started(s, readable).LaunchLocks(now)
    case IdleCheck(now, _, _) => s.running && s.IdleLocks(now)
    case SystemEvent(_, _, _) => s.running && s.SystemLocks()
    case AutoLockReport(now, m, saves, cu, _, _, _) =>
      s.running && !s.cleanupPending && m.armed && !m.activity && s.ReportThrows(m, saves, cu)
    case _ => false
  }

  lemma AutoLockShutsProcess(s: Shell, ev: Event)
    requires AutoLocks(s, ev)
    ensures ProcessShut(Step(s, ev))
  {
    hide LoadRecord, Shell.ReportApplied, Shell.AutoLocked, Shell.LaunchLocks, Shell.SessionClearThrows,
        HasEnforceableWindow;
    hide Shell.IdleLocks, Shell.SystemLocks;
    match ev
    case Launch(_, _, _, _, _) =>
    case IdleCheck(_, u, ru) => AutoLockedFrame(s, u, ru);
    case SystemEvent(_, u, ru) => AutoLockedFrame(s, u, ru);
    case AutoLockReport(now, m, saves, cu, u, ru, again) =>
      ReportAppliedFrame(s, m, now, saves, cu);
      AutoLockedFrame(s.ReportApplied(m, now, saves, cu), u, ru);
    case _ =>
  }

  // From the start of any auto-lock until the next password unlock or
  // relaunch, no vault-backed message reaches a host and no status reports a
  // session, whichever clears were refused.
  lemma {:induction false} ShutUntilUnlock(s: Shell, evs: seq<Event>)
    requires ProcessShut(s)
    requires forall k | 0 <= k < |evs| :: !evs[k].PasswordUnlock? && !evs[k].Quit?
    ensures ProcessShut(Run(s, evs)) && !StatusHasSession(Run(s, evs))
    ensures forall k | 0 <= k < |evs| :: !Serves(Run(s, evs[..k]), evs[k])
  {
    hide Step, Serves, ProcessShut;
    if evs == [] {
      ShutMeansNoSession(s);
    } else {
      var prefix, ev := evs[..|evs| - 1], evs[|evs| - 1];
      hide *;
      RunSplits(s, evs);
      ShutUntilUnlock(s, prefix);
      ShutStep(Run(s, prefix), ev);
      ShutMeansNoSession(Run(s, evs));
      forall k | 0 <= k < |evs|
        ensures !Serves(Run(s, evs[..k]), evs[k])
      {
        if k < |prefix| {
          assert prefix[..k] == evs[..k] && prefix[k] == evs[k];
        }
      }
    }
  }

  lemma ShutMeansNoSession(s: Shell)
    requires ProcessShut(s)
    ensures !StatusHasSession(s)
  {
  }

  lemma ShutStep(s: Shell, ev: Event)
    requires ProcessShut(s) && !ev.PasswordUnlock? && !ev.Quit?
    ensures ProcessShut(Step(s, ev)) && !Serves(s, ev)
  {
    hide LoadRecord, Shell.IdleLocks, Shell.SystemLocks, Shell.SessionClearThrows, Shell.HostEnsured, Shell.Stamped;
    hide Shell.Reported, Shell.AutoLocked;
    match ev
    case IdleCheck(_, u, ru) => AutoLockedFrame(s, u, ru);
    case SystemEvent(_, u, ru) => AutoLockedFrame(s, u, ru);
    case AutoLockReport(now, m, saves, cu, u, ru, again) => ReportedFrame(s, m, now, saves, cu, u, ru, again);
    case VaultMessage(now, stamps, opens, u) =>
      StampedFrame(s, now, stamps);
      HostEnsuredFrame(s.Stamped(now, stamps), opens, u);
    case StatusQuery(now, stamps) => StampedFrame(s, now, stamps);
    case WalletLock(now, stamps, _, _, _) => StampedFrame(s, now, stamps);
    case _ =>
  }

  // While a cleanup is owed the process runs without a host, whatever came
  // before: over every run of launches, quits and messages.
  predicate PendingMeansClosed(s: Shell) {
    s.cleanupPending ==> s.running && !s.host
  }

  lemma {:induction false} PendingRun(s: Shell, evs: seq<Event>)
    requires PendingMeansClosed(s)
    ensures PendingMeansClosed(Run(s, evs))
  {
    if evs != [] {
      var prefix, ev := evs[..|evs| - 1], evs[|evs| - 1];
      PendingRun(s, prefix);
      PendingStep(Run(s, prefix), ev);
    }
  }

  // What ends an owed cleanup: a password unlock, a clear of the session that
  // goes through, or the end of the process.
  predicate Repays(s: Shell, ev: Event) {
    match ev
    case PasswordUnlock(_, _, _, _, _, _) => true
    case Quit => true
    case IdleCheck(now, u, _) => s.IdleLocks(now) && !s.SessionClearThrows(u)
    case SystemEvent(_, u, _) => s.SystemLocks() && !s.SessionClearThrows(u)
    case WalletLock(_, _, u, signingCleared, _) => !s.SessionClearThrows(u) && signingCleared
    case _ => false
  }

  predicate NoneRepays(s: Shell, evs: seq<Event>) {
    forall k | 0 <= k < |evs| :: !Repays(Run(s, evs[..k]), evs[k])
  }

  // Until then, in every run, the flag stands, no vault-backed message is
  // served, and the record is left as it is or wiped: no report can put one on
  // disk under which the next launch would open the key.
  lemma {:induction false} DebtStands(s: Shell, evs: seq<Event>)
    requires PendingMeansClosed(s) && s.cleanupPending && NoneRepays(s, evs)
    ensures Run(s, evs).cleanupPending && PendingMeansClosed(Run(s, evs))
    ensures Run(s, evs).autolock == s.autolock || Run(s, evs).autolock == Absent
    ensures forall k | 0 <= k < |evs| :: !Serves(Run(s, evs[..k]), evs[k])
  {
    hide Step, Serves, Repays, PendingMeansClosed;
    if evs != [] {
      var prefix, ev := evs[..|evs| - 1], evs[|evs| - 1];
      hide *;
      RunSplits(s, evs);
      NoneRepaysSplits(s, evs);
      DebtStands(s, prefix);
      DebtStep(Run(s, prefix), ev);
      forall k | 0 <= k < |evs|
        ensures !Serves(Run(s, evs[..k]), evs[k])
      {
        if k < |prefix| {
          assert prefix[..k] == evs[..k] && prefix[k] == evs[k];
        }
      }
    }
  }

  lemma NoneRepaysSplits(s: Shell, evs: seq<Event>)
    requires evs != [] && NoneRepays(s, evs)
    ensures NoneRepays(s, evs[..|evs| - 1]) && !Repays(Run(s, evs[..|evs| - 1]), evs[|evs| - 1])
  {
    hide Repays, Run;
    var prefix := evs[..|evs| - 1];
    forall k | 0 <= k < |prefix|
      ensures !Repays(Run(s, prefix[..k]), prefix[k])
    {
      assert prefix[..k] == evs[..k] && prefix[k] == evs[k];
    }
  }

  lemma RunSplits(s: Shell, evs: seq<Event>)
    requires evs != []
    ensures Run(s, evs) == Step(Run(s, evs[..|evs| - 1]), evs[|evs| - 1])
  {
    hide Step;
  }

  lemma DebtStep(s: Shell, ev: Event)
    requires PendingMeansClosed(s) && s.cleanupPending && !Repays(s, ev)
    ensures Step(s, ev).cleanupPending && PendingMeansClosed(Step(s, ev))
    ensures Step(s, ev).autolock == s.autolock || Step(s, ev).autolock == Absent
    ensures !Serves(s, ev)
  {
    hide LoadRecord, Shell.IdleLocks, Shell.SystemLocks, Shell.SessionClearThrows, Shell.HostEnsured, Shell.Stamped;
    hide Shell.Reported, Shell.AutoLocked, Shell.HasKey;
    match ev
    case IdleCheck(_, u, ru) => AutoLockedFrame(s, u, ru);
    case SystemEvent(_, u, ru) => AutoLockedFrame(s, u, ru);
    case AutoLockReport(now, m, saves, cu, u, ru, again) => ReportedFrame(s, m, now, saves, cu, u, ru, again);
    case Launch(_, _, _, _, _) =>
    case WalletLock(_, _, _, _, _) =>
    case _ =>
  }

  lemma PendingStep(s: Shell, ev: Event)
    requires PendingMeansClosed(s)
    ensures PendingMeansClosed(Step(s, ev))
  {
    hide *;
    match ev
    case Launch(_, _, _, _, _) => PendingLaunch(s, ev);
    case _ => PendingHandled(s, ev);
  }

  lemma PendingLaunch(s: Shell, ev: Event)
    requires PendingMeansClosed(s) && ev.Launch?
    ensures PendingMeansClosed(Step(s, ev))
  {
    HostEnsuredFrame(Started(s, ev.readable), ev.opens, ev.u);
    hide Shell.LaunchLocks, Shell.HostEnsured, Shell.SessionClearThrows, Shell.HasKey;
  }

  lemma PendingMessage(s: Shell, ev: Event)
    requires PendingMeansClosed(s) && (ev.VaultMessage? || ev.StatusQuery? || ev.PasswordUnlock?)
    ensures PendingMeansClosed(Step(s, ev))
  {
    hide Shell.HostEnsured, Shell.Stamped, Shell.HasKey, Shell.Unlocked;
    match ev
    case VaultMessage(now, stamps, opens, u) =>
      StampedFrame(s, now, stamps);
      HostEnsuredFrame(s.Stamped(now, stamps), opens, u);
    case StatusQuery(now, stamps) => StampedFrame(s, now, stamps);
    case PasswordUnlock(_, _, _, _, _, _) =>
      if s.running {
        PendingUnlock(s, ev);
      }
  }

  lemma PendingOther(s: Shell, ev: Event)
    requires PendingMeansClosed(s)
    requires !ev.Launch? && !ev.VaultMessage? && !ev.StatusQuery? && !ev.PasswordUnlock?
    ensures PendingMeansClosed(Step(s, ev))
  {
    hide Shell.IdleLocks, Shell.SystemLocks, Shell.SessionClearThrows, Shell.Stamped, Shell.Reported, Shell.AutoLocked;
    match ev
    case IdleCheck(_, u, ru) => AutoLockedFrame(s, u, ru);
    case SystemEvent(_, u, ru) => AutoLockedFrame(s, u, ru);
    case AutoLockReport(now, m, saves, cu, u, ru, again) => ReportedFrame(s, m, now, saves, cu, u, ru, again);
    case WalletLock(now, stamps, _, _, _) => StampedFrame(s, now, stamps);
    case _ =>
  }

  lemma PendingHandled(s: Shell, ev: Event)
    requires PendingMeansClosed(s) && !ev.Launch?
    ensures PendingMeansClosed(Step(s, ev))
  {
    hide *;
    match ev
    case VaultMessage(_, _, _, _) => PendingMessage(s, ev);
    case StatusQuery(_, _) => PendingMessage(s, ev);
    case PasswordUnlock(_, _, _, _, _, _) => PendingMessage(s, ev);
    case _ => PendingOther(s, ev);
  }

  lemma PendingUnlock(s: Shell, ev: Event)
    requires PendingMeansClosed(s) && ev.PasswordUnlock? && s.running
    ensures PendingMeansClosed(s.Unlocked(ev.now, ev.stamps, ev.writes, ev.ru, ev.opens, ev.u))
  {
    StampedFrame(s, ev.now, ev.stamps);
    var q := (if s.cleanupPending then s else s.Stamped(ev.now, ev.stamps)).(revoked := false, inMemory := true);
    HostEnsuredFrame(q.(sessionBin := q.sessionBin || q.keyReadable, cleanupPending := false).RecordCleared(ev.ru),
        ev.opens, ev.u);
    hide Shell.Stamped, Shell.HostEnsured, Shell.HasKey;
  }

  // -------------------------------------------------------- across quits and crashes

  // A record under which every later launch locks.
  predicate Stale(f: RecordFile, t: int) {
    match LoadRecord(f)
    case None => true
    case Some(r) => r.armed && r.lastActivity <= t && t - r.lastActivity >= r.idleMs
  }

  // Nothing opens from here without a password: there is no key, or it is on
  // disk under a record that locks the next launch, in a process that has
  // revoked it and drops every report.
  predicate Shut(s: Shell, t: int) {
    && !s.host && !s.inMemory
    && (s.sessionBin ==> Stale(s.autolock, t) && (s.running ==> s.revoked && s.cleanupPending))
    && PendingMeansClosed(s)
  }

  // The record was stamped by the clock the run goes by.
  predicate StampedBy(f: RecordFile, t: int) {
    f.Stored? ==> f.record.lastActivity <= t
  }

  function TimeOf(ev: Event, t: int): int {
    match ev
    case Launch(now, _, _, _, _) => now
    case IdleCheck(now, _, _) => now
    case SystemEvent(now, _, _) => now
    case AutoLockReport(now, _, _, _, _, _, _) => now
    case VaultMessage(now, _, _, _) => now
    case StatusQuery(now, _) => now
    case PasswordUnlock(now, _, _, _, _, _) => now
    case WalletLock(now, _, _, _, _) => now
    case _ => t
  }

  function Clock(evs: seq<Event>, t: int): int {
    if evs == [] then t else TimeOf(evs[|evs| - 1], Clock(evs[..|evs| - 1], t))
  }

  // The clock does not run backwards.
  predicate Ordered(evs: seq<Event>, t: int) {
    evs == [] || (Ordered(evs[..|evs| - 1], t) && Clock(evs[..|evs| - 1], t) <= Clock(evs, t))
  }

  // The locks that are meant to hold across a quit: the launch gate's and the
  // windowless idle check's.
  predicate LocksForGood(s: Shell, ev: Event) {
    (ev.Launch? || ev.IdleCheck?) && AutoLocks(s, ev)
  }

  // Has such a lock happened with no password unlock since?
  predicate LockedSince(s: Shell, evs: seq<Event>) {
    evs != []
    && var prefix, ev := evs[..|evs| - 1], evs[|evs| - 1];
       !ev.PasswordUnlock? && (LockedSince(s, prefix) || LocksForGood(Run(s, prefix), ev))
  }

  // From the lock on, a launch that finds a key file can read it.
  predicate ReadableOnceLocked(s: Shell, evs: seq<Event>) {
    forall k | 0 <= k < |evs| :: LockedSince(s, evs[..k]) && evs[k].Launch? && Run(s, evs[..k]).sessionBin ==>
        evs[k].readable
  }

  lemma LockIsForGood(s: Shell, ev: Event, t: int)
    requires LocksForGood(s, ev) && PendingMeansClosed(s)
    requires StampedBy(s.autolock, t) && t <= TimeOf(ev, t)
    ensures Shut(Step(s, ev), TimeOf(ev, t))
  {
  }

  lemma ShutForGood(s: Shell, ev: Event, t: int)
    requires Shut(s, t) && t <= TimeOf(ev, t)
    requires !ev.PasswordUnlock? && (ev.Launch? && s.sessionBin ==> ev.readable)
    ensures Shut(Step(s, ev), TimeOf(ev, t)) && !Serves(s, ev)
  {
    hide *;
    ShutParts(s, t);
    if !s.sessionBin {
      KeylessStep(s, ev);
      PendingStep(s, ev);
      KeylessIsShut(Step(s, ev), TimeOf(ev, t));
      KeylessServesNothing(s, ev);
    } else if !s.running {
      HeldLaunch(s, ev, t);
    } else {
      HeldHandled(s, ev, t);
    }
  }

  lemma ShutParts(s: Shell, t: int)
    requires Shut(s, t)
    ensures !s.host && !s.inMemory && PendingMeansClosed(s)
  {
    hide Stale;
  }

  lemma KeylessIsShut(s: Shell, t: int)
    requires !s.sessionBin && !s.host && !s.inMemory && PendingMeansClosed(s)
    ensures Shut(s, t)
  {
    hide Stale;
  }

  lemma KeylessServesNothing(s: Shell, ev: Event)
    requires !s.sessionBin && !s.host && !s.inMemory && !ev.PasswordUnlock?
    ensures !Serves(s, ev)
  {
    KeylessStep(s, ev);
    hide Step;
  }

  // A key file that is still there: no process, so only a launch does anything.
  lemma HeldLaunch(s: Shell, ev: Event, t: int)
    requires Shut(s, t) && s.sessionBin && !s.running && t <= TimeOf(ev, t)
    requires ev.Launch? ==> ev.readable
    ensures Shut(Step(s, ev), TimeOf(ev, t)) && !Serves(s, ev)
  {
    hide Shell.HostEnsured, HasEnforceableWindow, Handled;
    if ev.Launch? {
      StaleLocks(s.autolock, t, ev.now);
      hide LoadRecord, GateLocks;
    } else {
      hide GateLocks, LoadRecord;
    }
  }

  lemma StaleLocks(f: RecordFile, t: int, now: int)
    requires Stale(f, t) && t <= now
    ensures GateLocks(f, now) && Stale(f, now) && Stale(Absent, now)
  {
  }

  // A key file that is still there in a process that has revoked it and drops
  // every report.
  lemma HeldHandled(s: Shell, ev: Event, t: int)
    requires Shut(s, t) && s.sessionBin && s.running && t <= TimeOf(ev, t) && !ev.PasswordUnlock?
    ensures Shut(Step(s, ev), TimeOf(ev, t)) && !Serves(s, ev)
  {
    StaleLocks(s.autolock, t, TimeOf(ev, t));
    hide LoadRecord, Stale, Shell.IdleLocks, Shell.SystemLocks, Shell.HostEnsured, Shell.Stamped;
    hide Shell.Reported, Shell.AutoLocked;
    match ev
    case IdleCheck(_, u, ru) => AutoLockedFrame(s, u, ru);
    case SystemEvent(_, u, ru) => AutoLockedFrame(s, u, ru);
    case AutoLockReport(now, m, saves, cu, u, ru, again) => ReportedFrame(s, m, now, saves, cu, u, ru, again);
    case _ =>
  }

  lemma StampsFollowClock(s: Shell, ev: Event, t: int)
    requires StampedBy(s.autolock, t) && t <= TimeOf(ev, t)
    ensures StampedBy(Step(s, ev).autolock, TimeOf(ev, t))
  {
    var now := TimeOf(ev, t);
    hide *;
    match ev
    case AutoLockReport(_, _, _, _, _, _, _) => ReportEventStamps(s, ev, t);
    case Launch(_, _, _, _, _) => LaunchStamps(s, ev, t);
    case IdleCheck(_, _, _) => LockEventStamps(s, ev, t);
    case SystemEvent(_, _, _) => LockEventStamps(s, ev, t);
    case _ => MessageStamps(s, ev, t);
  }

  lemma LaterStamps(f: RecordFile, t: int, now: int)
    requires StampedBy(f, t) && t <= now
    ensures StampedBy(f, now) && StampedBy(Absent, now)
  {
  }

  lemma ReportEventStamps(s: Shell, ev: Event, t: int)
    requires StampedBy(s.autolock, t) && t <= TimeOf(ev, t) && ev.AutoLockReport?
    ensures StampedBy(Step(s, ev).autolock, TimeOf(ev, t))
  {
    LaterStamps(s.autolock, t, ev.now);
    ReportStamps(s, ev.m, t, ev.now, ev.saves, ev.cu, ev.u, ev.ru, ev.again);
    hide Shell.Reported, StampedBy;
  }

  lemma LaunchStamps(s: Shell, ev: Event, t: int)
    requires StampedBy(s.autolock, t) && t <= TimeOf(ev, t) && ev.Launch?
    ensures StampedBy(Step(s, ev).autolock, TimeOf(ev, t))
  {
    LaterStamps(s.autolock, t, ev.now);
    HostEnsuredFrame(Started(s, ev.readable), ev.opens, ev.u);
    hide StampedBy, Shell.HostEnsured, Shell.LaunchLocks, Shell.SessionClearThrows, Shell.HasKey;
  }

  lemma LockEventStamps(s: Shell, ev: Event, t: int)
    requires StampedBy(s.autolock, t) && t <= TimeOf(ev, t) && (ev.IdleCheck? || ev.SystemEvent?)
    ensures StampedBy(Step(s, ev).autolock, TimeOf(ev, t))
  {
    LaterStamps(s.autolock, t, ev.now);
    LockKeepsOrDrops(s, ev.u, ev.ru);
    hide StampedBy, Shell.AutoLocked, Shell.IdleLocks, Shell.SystemLocks;
  }

  lemma MessageStamps(s: Shell, ev: Event, t: int)
    requires StampedBy(s.autolock, t) && t <= TimeOf(ev, t)
    requires ev.Quit? || ev.VaultMessage? || ev.StatusQuery? || ev.PasswordUnlock? || ev.WalletLock? || ev.Wipe?
    ensures StampedBy(Step(s, ev).autolock, TimeOf(ev, t))
  {
    LaterStamps(s.autolock, t, TimeOf(ev, t));
    hide StampedBy, LoadRecord, Shell.Stamped, Shell.HostEnsured, Shell.SessionClearThrows, Shell.HasKey;
    match ev
    case VaultMessage(now, stamps, opens, u) =>
      StampedStamps(s, t, now, stamps);
      HostEnsuredFrame(s.Stamped(now, stamps), opens, u);
    case StatusQuery(now, stamps) => StampedStamps(s, t, now, stamps);
    case PasswordUnlock(now, stamps, writes, ru, opens, u) =>
      StampedStamps(s, t, now, stamps);
      UnlockKeepsOrDrops(s, ev);
    case WalletLock(now, stamps, _, _, _) => StampedStamps(s, t, now, stamps);
    case _ =>
  }

  lemma UnlockKeepsOrDrops(s: Shell, ev: Event)
    requires ev.PasswordUnlock?
    ensures var f := s.Unlocked(ev.now, ev.stamps, ev.writes, ev.ru, ev.opens, ev.u).autolock;
            f == s.autolock || f == s.Stamped(ev.now, ev.stamps).autolock || f == Absent
  {
    var q := (if s.cleanupPending then s else s.Stamped(ev.now, ev.stamps)).(revoked := false, inMemory := true);
    var r := q.(sessionBin := q.sessionBin || q.keyReadable, cleanupPending := false).RecordCleared(ev.ru);
    HostEnsuredFrame(r, ev.opens, ev.u);
    hide Shell.Stamped, Shell.HostEnsured, Shell.HasKey;
  }

  lemma StampedStamps(s: Shell, t: int, now: int, ok: bool)
    requires StampedBy(s.autolock, t) && t <= now
    ensures StampedBy(s.Stamped(now, ok).autolock, now)
  {
  }

  lemma ReportStamps(s: Shell, m: Report, t: int, now: int, saves: bool, cu: Unlinks, u: Unlinks, ru: Unlinks,
      again: Unlinks)
    requires StampedBy(s.autolock, t) && t <= now
    ensures StampedBy(s.Reported(m, now, saves, cu, u, ru, again).autolock, now)
  {
    ReportAppliedStamps(s, m, t, now, saves, cu);
    var q := s.ReportApplied(m, now, saves, cu);
    LockKeepsOrDrops(q, u, ru);
    hide Shell.ReportApplied, Shell.ReportThrows, Shell.AutoLocked;
  }

  lemma ReportAppliedStamps(s: Shell, m: Report, t: int, now: int, saves: bool, cu: Unlinks)
    requires StampedBy(s.autolock, t) && t <= now
    ensures StampedBy(s.ReportApplied(m, now, saves, cu).autolock, now)
  {
    ArmedStampFollows(s, m, t, now);
    SavedStamps(s, Reporting(s, m, now), saves, t, now, cu);
    hide Shell.ArmedNow, Shell.ArmedStamp, Shell.RecordSaved, Shell.RecordCleared, StampedBy;
    if !m.armed {
    } else if m.idleMs.None? || m.idleMs.value <= 0 {
    } else if m.activity && !s.ArmedNow() {
    } else {
    }
  }

  lemma SavedStamps(s: Shell, r: Record, saves: bool, t: int, now: int, u: Unlinks)
    requires StampedBy(s.autolock, t) && t <= now && r.lastActivity <= now
    ensures StampedBy(s.RecordSaved(r, saves).autolock, now)
    ensures StampedBy(s.RecordCleared(u).autolock, now) && StampedBy(s.autolock, now)
  {
  }

  lemma ArmedStampFollows(s: Shell, m: Report, t: int, now: int)
    requires StampedBy(s.autolock, t) && t <= now
    ensures s.ArmedStamp(m, now) <= now
  {
  }

  lemma LockKeepsOrDrops(s: Shell, u: Unlinks, ru: Unlinks)
    ensures s.AutoLocked(u, ru).autolock == s.autolock || s.AutoLocked(u, ru).autolock == Absent
  {
  }

  // In every run of launches, quits and messages, whatever is refused, once the
  // launch gate or the idle check has locked, nothing opens the vault from the
  // cached key until a password unlock: no launch, and no message.
  lemma {:induction false} LockedStaysLocked(s: Shell, evs: seq<Event>, t: int)
    requires PendingMeansClosed(s) && StampedBy(s.autolock, t)
    requires Ordered(evs, t) && ReadableOnceLocked(s, evs)
    ensures LockedSince(s, evs) ==> !Run(s, evs).host
    ensures forall k | 0 <= k < |evs| :: LockedSince(s, evs[..k]) ==> !Serves(Run(s, evs[..k]), evs[k])
  {
    hide *;
    LockedRun(s, evs, t);
    if LockedSince(s, evs) {
      ShutHasNoHost(Run(s, evs), Clock(evs, t));
    }
    forall k | 0 <= k < |evs| && LockedSince(s, evs[..k])
      ensures !Serves(Run(s, evs[..k]), evs[k])
    {
      LockedPrefix(s, evs, t, k);
    }
  }

  lemma ShutHasNoHost(s: Shell, t: int)
    requires Shut(s, t)
    ensures !s.host
  {
    hide Stale;
  }

  // What every run keeps, whether or not it has locked.
  lemma {:induction false} LockedRun(s: Shell, evs: seq<Event>, t: int)
    requires PendingMeansClosed(s) && StampedBy(s.autolock, t)
    requires Ordered(evs, t) && ReadableOnceLocked(s, evs)
    ensures LockedSince(s, evs) ==> Shut(Run(s, evs), Clock(evs, t))
    ensures StampedBy(Run(s, evs).autolock, Clock(evs, t)) && PendingMeansClosed(Run(s, evs))
  {
    if evs != [] {
      var prefix, ev := evs[..|evs| - 1], evs[|evs| - 1];
      var now := Clock(prefix, t);
      assert Ordered(prefix, t) && Clock(evs, t) == TimeOf(ev, now) && now <= Clock(evs, t);
      assert LockedSince(s, evs) ==>
          !ev.PasswordUnlock? && (LockedSince(s, prefix) || LocksForGood(Run(s, prefix), ev));
      assert Run(s, evs) == Step(Run(s, prefix), ev);
      hide *;
      PrefixReadable(s, evs, |evs| - 1);
      LockedRun(s, prefix, t);
      var q := Run(s, prefix);
      StampsFollowClock(q, ev, now);
      PendingStep(q, ev);
      if LockedSince(s, evs) {
        if LockedSince(s, prefix) {
          ShutForGood(q, ev, now);
        } else {
          LockIsForGood(q, ev, now);
        }
      }
    }
  }

  lemma PrefixReadable(s: Shell, evs: seq<Event>, n: nat)
    requires n < |evs| && ReadableOnceLocked(s, evs)
    ensures ReadableOnceLocked(s, evs[..n])
    ensures LockedSince(s, evs[..n]) && evs[n].Launch? && Run(s, evs[..n]).sessionBin ==> evs[n].readable
  {
    hide LockedSince, Run;
    forall k | 0 <= k < n
      ensures evs[..n][..k] == evs[..k] && evs[..n][k] == evs[k]
    {
    }
  }

  lemma {:induction false} PrefixOrdered(evs: seq<Event>, t: int, n: nat)
    requires n <= |evs| && Ordered(evs, t)
    ensures Ordered(evs[..n], t)
    ensures n < |evs| ==> Clock(evs[..n], t) <= TimeOf(evs[n], Clock(evs[..n], t))
    decreases |evs|
  {
    hide TimeOf;
    if n == |evs| {
      assert evs[..n] == evs;
    } else if n < |evs| - 1 {
      assert evs[..|evs| - 1][..n] == evs[..n] && evs[..|evs| - 1][n] == evs[n];
      PrefixOrdered(evs[..|evs| - 1], t, n);
    }
  }

  lemma LockedPrefix(s: Shell, evs: seq<Event>, t: int, k: nat)
    requires PendingMeansClosed(s) && StampedBy(s.autolock, t)
    requires Ordered(evs, t) && ReadableOnceLocked(s, evs) && k < |evs| && LockedSince(s, evs[..k])
    ensures !Serves(Run(s, evs[..k]), evs[k])
  {
    hide *;
    PrefixOrdered(evs, t, k);
    PrefixReadable(s, evs, k);
    LockedRun(s, evs[..k], t);
    ShutServesNothing(Run(s, evs[..k]), evs[k], Clock(evs[..k], t));
  }

  // A password unlock serves no vault-backed message either.
  lemma ShutServesNothing(s: Shell, ev: Event, t: int)
    requires Shut(s, t) && t <= TimeOf(ev, t)
    requires ev.Launch? && s.sessionBin ==> ev.readable
    ensures !Serves(s, ev)
  {
    if !ev.PasswordUnlock? {
      ShutForGood(s, ev, t);
    }
    hide Shut, Step;
  }

  // ---------------------------------------------- where the guarantee ends, exactly

  // `LockedStaysLocked` asks for an answering keychain and a clock that does
  // not run back. Without either, from a shell with nothing in memory: it stays
  // shut in every continuation exactly when there is no key file. A key left
  // behind is opened again by a launch that cannot read it, sees nothing to
  // protect and takes a disarming report, and the launch after that.
  lemma ForGoodIffKeyGone(s: Shell)
    requires !s.running && !s.host && !s.inMemory
    ensures (forall evs | NoUnlock(evs) :: !Run(s, evs).host) <==> !s.sessionBin
  {
    if s.sessionBin {
      ReopeningRunReopens(s, 0);
      assert NoUnlock(ReopeningRun(0)) && Run(s, ReopeningRun(0)).host;
    } else {
      forall evs | NoUnlock(evs)
        ensures !Run(s, evs).host
      {
        KeylessStaysShut(s, evs);
      }
    }
  }

  predicate NoUnlock(evs: seq<Event>) {
    forall k | 0 <= k < |evs| :: !evs[k].PasswordUnlock?
  }

  // Launch while the key cannot be read, accept a disarm, quit, relaunch.
  function ReopeningRun(t: int): seq<Event> {
    var none := Unlinks(false, false);
    [Launch(t, false, none, none, true),
     AutoLockReport(t, Report(false, None, false), true, none, none, none, none),
     Quit,
     Launch(t, true, none, none, true)]
  }

  lemma ReopeningRunReopens(s: Shell, t: int)
    requires s.sessionBin && !s.running
    ensures Run(s, ReopeningRun(t)).host
    ensures Ordered(ReopeningRun(t), t) && NoUnlock(ReopeningRun(t))
  {
    var evs := ReopeningRun(t);
    assert evs[..3][..2] == evs[..2] && evs[..2][..1] == evs[..1] && evs[..1][..0] == [];
    var a := Step(s, evs[0]);
    var b := Step(a, evs[1]);
    var c := Step(b, evs[2]);
    assert Run(s, evs[..0]) == s && Run(s, evs[..1]) == a && Run(s, evs[..2]) == b && Run(s, evs[..3]) == c;
    assert Clock(evs[..0], t) == t && Clock(evs[..1], t) == t && Clock(evs[..2], t) == t && Clock(evs[..3], t) == t;
    assert Ordered(evs[..0], t) && Ordered(evs[..1], t) && Ordered(evs[..2], t) && Ordered(evs[..3], t);
    assert LoadRecord(c.autolock) == Some(Record(false, 0, t));
  }

  lemma {:induction false} KeylessStaysShut(s: Shell, evs: seq<Event>)
    requires !s.sessionBin && !s.host && !s.inMemory && NoUnlock(evs)
    ensures var q := Run(s, evs); !q.sessionBin && !q.host && !q.inMemory
  {
    if evs != [] {
      var prefix := evs[..|evs| - 1];
      KeylessStaysShut(s, prefix);
      KeylessStep(Run(s, prefix), evs[|evs| - 1]);
      hide Step;
    }
  }

  lemma KeylessStep(s: Shell, ev: Event)
    requires !s.sessionBin && !s.host && !s.inMemory && !ev.PasswordUnlock?
    ensures var q := Step(s, ev); !q.sessionBin && !q.host && !q.inMemory
  {
    hide *;
    match ev
    case Launch(_, _, _, _, _) => KeylessLaunch(s, ev);
    case _ => KeylessHandled(s, ev);
  }

  lemma KeylessLaunch(s: Shell, ev: Event)
    requires !s.sessionBin && !s.host && !s.inMemory && ev.Launch?
    ensures var q := Step(s, ev); !q.sessionBin && !q.host && !q.inMemory
  {
    HostEnsuredFrame(Started(s, ev.readable), ev.opens, ev.u);
    hide Shell.LaunchLocks, Shell.HostEnsured, Shell.SessionClearThrows;
  }

  lemma KeylessHandled(s: Shell, ev: Event)
    requires !s.sessionBin && !s.host && !s.inMemory && !ev.PasswordUnlock? && !ev.Launch?
    ensures var q := Step(s, ev); !q.sessionBin && !q.host && !q.inMemory
  {
    hide LoadRecord, Shell.IdleLocks, Shell.SystemLocks, Shell.SessionClearThrows, Shell.HostEnsured, Shell.Stamped;
    hide Shell.Reported, Shell.AutoLocked;
    match ev
    case Quit =>
    case IdleCheck(_, u, ru) => AutoLockedFrame(s, u, ru);
    case SystemEvent(_, u, ru) => AutoLockedFrame(s, u, ru);
    case AutoLockReport(now, m, saves, cu, u, ru, again) => ReportedFrame(s, m, now, saves, cu, u, ru, again);
    case VaultMessage(now, stamps, opens, u) =>
      StampedFrame(s, now, stamps);
      HostEnsuredFrame(s.Stamped(now, stamps), opens, u);
    case StatusQuery(now, stamps) => StampedFrame(s, now, stamps);
    case WalletLock(now, stamps, _, _, _) => StampedFrame(s, now, stamps);
    case Wipe(_, _, _) =>
  }

  // With a readable keychain the clock alone decides. A launch locks and can
  // remove nothing; the record that locked it opens the key at a later launch
  // exactly when the clock then reads inside that record's window. The gate
  // locks outside the window, so this needs a clock that ran back, or a record
  // stamped ahead of the clock it was locked by.
  lemma KeptLockReopensIff(s: Shell, now: int, u: Unlinks, ru: Unlinks, later: int, v: Unlinks, rv: Unlinks)
    requires !s.running && LocksForGood(s, Launch(now, true, u, ru, true))
    requires u.keepsFile && (s.autolock != Absent ==> ru.keepsFile)
    ensures var locked := Step(s, Launch(now, true, u, ru, true));
            Step(Step(locked, Quit), Launch(later, true, v, rv, true)).host <==>
              InWindow(s.autolock, later)
    ensures InWindow(s.autolock, later) ==>
              later < now || LoadRecord(s.autolock).value.lastActivity - now > CLOCK_ROLLBACK_TOLERANCE_MS
  {
  }

  // An armed record whose window the clock is in.
  predicate InWindow(f: RecordFile, now: int) {
    match LoadRecord(f)
    case None => false
    case Some(r) => !r.armed || -CLOCK_ROLLBACK_TOLERANCE_MS <= now - r.lastActivity < r.idleMs
  }

  // The clock is set back between the two launches by more than the idle time
  // that had run over.
  lemma ClockSetBackReopens(s: Shell, u: Unlinks, ru: Unlinks)
    requires !s.running && s.sessionBin && u.keepsFile && ru.keepsFile
    requires s.autolock == Stored(Record(true, 600_000, 1_000_000))
    ensures var first := Launch(1_700_000, true, u, ru, true);
            var locked := Step(s, first);
            && LocksForGood(s, first) && !locked.host
            && Step(Step(locked, Quit), Launch(1_500_000, true, u, ru, true)).host
  {
    var first, second := Launch(1_700_000, true, u, ru, true), Launch(1_500_000, true, u, ru, true);
    assert LoadRecord(s.autolock) == Some(Record(true, 600_000, 1_000_000));
    assert GateLocks(s.autolock, 1_700_000) && InWindow(s.autolock, 1_500_000);
    assert LocksForGood(s, first) && !Step(s, first).host;
    hide *;
    KeptLockReopensIff(s, 1_700_000, u, ru, 1_500_000, u, ru);
  }

  // A record stamped ahead of the clock locks the launch, and opens once the
  // clock has caught up with it.
  lemma StampAheadReopens(s: Shell, now: int, u: Unlinks, ru: Unlinks)
    requires !s.running && s.sessionBin && u.keepsFile && ru.keepsFile
    requires s.autolock.Stored? && s.autolock.record.armed && HasEnforceableWindow(s.autolock.record)
    requires s.autolock.record.lastActivity - now > CLOCK_ROLLBACK_TOLERANCE_MS
    ensures var caughtUp := s.autolock.record.lastActivity;
            var locked := Step(s, Launch(now, true, u, ru, true));
            && LocksForGood(s, Launch(now, true, u, ru, true)) && !locked.host
            && Step(Step(locked, Quit), Launch(caughtUp, true, u, ru, true)).host
  {
    KeptLockReopensIff(s, now, u, ru, s.autolock.record.lastActivity, u, ru);
  }

  // An OS screen lock or suspend keeps the record when session.bin cannot be
  // removed, so it holds for the process but not across a quit: a relaunch
  // opens the cached key exactly while the record's own window lasts.
  lemma SystemLockAcrossQuit(s: Shell, now: int, u: Unlinks, ru: Unlinks, later: int, readable: bool, opens: bool)
    requires s.running && s.SystemLocks() && s.sessionBin && u.keepsFile
    ensures var locked := Step(s, SystemEvent(now, u, ru));
            var r := LoadRecord(s.autolock).value;
            ProcessShut(locked) && locked.cleanupPending
            && (Step(Step(locked, Quit), Launch(later, readable, u, ru, opens)).host <==>
                  readable && opens && -CLOCK_ROLLBACK_TOLERANCE_MS <= later - r.lastActivity < r.idleMs)
  {
  }

  // ------------------------------------------------------------------- the runtime

  datatype Reply = Refused | Served | Failed | Answered

  datatype Store = Meta | Storage | Session | BroadcastQueue | UnlockThrottle | AutoLock | PanicMode

  const STORES: nat := 7

  // The order a wipe takes the stores in.
  function StoreAt(i: nat): Store
    requires i < STORES
  {
    match i
    case 0 => Meta
    case 1 => Storage
    case 2 => Session
    case 3 => BroadcastQueue
    case 4 => UnlockThrottle
    case 5 => AutoLock
    case _ => PanicMode
  }

  // Of the first `n` stores, in order, those in `refused` or those not.
  function Named(refused: set<Store>, n: nat, which: bool): seq<Store>
    requires n <= STORES
  {
    if n == 0 then []
    else Named(refused, n - 1, which) + (if (StoreAt(n - 1) in refused) == which then [StoreAt(n - 1)] else [])
  }

  // The shell once the first `n` stores have been tried.
  function WipedTo(s: Shell, n: nat, u: Unlinks, ru: Unlinks): Shell {
    if n > 5 then s.SessionCleared(u).RecordCleared(ru) else if n > 2 then s.SessionCleared(u) else s
  }

  lemma WipeBegins(s: Shell, others: set<Store>, u: Unlinks, ru: Unlinks)
    ensures WipedTo(s, 0, u, ru) == s && Refusing(s.(host := false), others, u, ru) == Refusing(s, others, u, ru)
    ensures forall which :: Named(Refusing(s, others, u, ru), 0, which) == []
  {
  }

  // One store on: what its clear does, and whether it is refused.
  lemma WipeGoesOn(s: Shell, n: nat, u: Unlinks, ru: Unlinks)
    requires n < STORES
    ensures var q, store := WipedTo(s, n, u, ru), StoreAt(n);
            && (store == Meta <==> n == 0)
            && WipedTo(s, n + 1, u, ru)
               == (if store == Session then q.SessionCleared(u) else if store == AutoLock then q.RecordCleared(ru)
                   else q)
  {
    hide Shell.SessionCleared, Shell.RecordCleared;
  }

  lemma WipeRefuses(s: Shell, n: nat, others: set<Store>, u: Unlinks, ru: Unlinks)
    requires n < STORES
    ensures var q, store := WipedTo(s, n, u, ru), StoreAt(n);
            store in Refusing(s, others, u, ru) <==>
              if store == Session then q.SessionClearThrows(u)
              else if store == AutoLock then q.RecordClearThrows(ru)
              else store in others
  {
    assert s.SessionCleared(u).RecordClearThrows(ru) == s.RecordClearThrows(ru);
    hide Shell.SessionCleared, Shell.RecordCleared, Shell.SessionClearThrows, Shell.RecordClearThrows;
  }

  lemma NamesOneMore(refused: set<Store>, n: nat)
    requires n < STORES
    ensures forall which ::
              Named(refused, n + 1, which)
              == Named(refused, n, which) + if (StoreAt(n) in refused) == which then [StoreAt(n)] else []
  {
    hide StoreAt;
  }

  lemma WipeEnds(s: Shell, u: Unlinks, ru: Unlinks)
    ensures WipedTo(s, STORES, u, ru) == s.SessionCleared(u).RecordCleared(ru)
  {
  }

  class Runtime {
    var sessionBin: bool
    var autolock: RecordFile
    var running: bool
    var keyReadable: bool
    var inMemory: bool
    var revoked: bool
    var host: bool
    var cleanupPending: bool

    function View(): Shell
      reads this
    {
      Shell(sessionBin, autolock, running, keyReadable, inMemory, revoked, host, cleanupPending)
    }

    constructor (sessionBin: bool, autolock: RecordFile)
      ensures View() == Shell(sessionBin, autolock, false, false, false, false, false, false)
    {
      this.sessionBin, this.autolock := sessionBin, autolock;
      running, keyReadable, inMemory, revoked, host, cleanupPending := false, false, false, false, false, false;
    }

    method LoadKey() returns (some: bool)
      ensures some == View().HasKey()
    {
      if revoked { return false; }
      if inMemory { return true; }
      some := keyReadable && sessionBin;
    }

    method ClearSession(u: Unlinks) returns (ok: bool)
      modifies this
      ensures View() == old(View()).SessionCleared(u) && ok == !old(View()).SessionClearThrows(u)
    {
      revoked := true;
      inMemory := false;
      var refused := false;
      if sessionBin {
        if u.keepsFile { refused := true; } else { sessionBin := false; }
      }
      if u.keepsTmp { refused := true; }
      ok := !refused;
    }

    method ClearRecord(u: Unlinks) returns (ok: bool)
      modifies this`autolock
      ensures View() == old(View()).RecordCleared(u) && ok == !old(View()).RecordClearThrows(u)
    {
      if autolock != Absent {
        if u.keepsFile { return false; }
        autolock := Absent;
      }
      ok := !u.keepsTmp;
    }

    method SaveRecord(r: Record, saves: bool) returns (ok: bool)
      modifies this`autolock
      ensures View() == old(View()).RecordSaved(r, saves) && ok == saves
    {
      if saves { autolock := Stored(r); }
      ok := saves;
    }

    method StampActivity(now: int, saves: bool)
      modifies this`autolock
      ensures View() == old(View()).Stamped(now, saves)
    {
      var state := LoadRecord(autolock);
      if state.None? || !state.value.armed { return; }
      if now - state.value.lastActivity < STAMP_INTERVAL_MS { return; }
      var _ := SaveRecord(state.value.(lastActivity := now), saves);
    }

    method TearDownHost()
      modifies this`host
      ensures !host
    {
      host := false;
    }

    method LockForAutoLock(u: Unlinks, ru: Unlinks)
      modifies this
      ensures View() == old(View()).AutoLocked(u, ru)
    {
      TearDownHost();
      cleanupPending := true;
      var ok := ClearSession(u);
      if !ok { return; }
      cleanupPending := false;
      var _ := ClearRecord(ru);
    }

    method EnforceLaunchAutoLock(now: int, u: Unlinks, ru: Unlinks) returns (locked: bool)
      requires !cleanupPending
      modifies this
      ensures locked == old(View()).LaunchLocks(now)
      ensures View() == if locked then old(View()).LaunchLocked(u, ru) else old(View())
    {
      var some := LoadKey();
      if !some { return false; }
      var state := LoadRecord(autolock);
      if state.Some? {
        if !state.value.armed { return false; }
        if HasEnforceableWindow(state.value) && !ShouldAutoLock(state.value, now) { return false; }
      }
      locked := true;
      cleanupPending := true;
      var ok := ClearSession(u);
      if ok { cleanupPending := false; }
      var _ := ClearRecord(ru);
    }

    method EnsureHost(opens: bool, u: Unlinks) returns (ok: bool)
      modifies this
      ensures View() == old(View()).HostEnsured(opens, u)
      ensures ok == host
    {
      if cleanupPending || host { return host; }
      var some := LoadKey();
      if !some { return false; }
      if !opens {
        var _ := ClearSession(u);
        return false;
      }
      host := true;
      ok := true;
    }

    // Boot: the gate first, and the cached key only on an explicit "not locked".
    method Boot(now: int, readable: bool, u: Unlinks, ru: Unlinks, opens: bool)
      requires !running
      modifies this
      ensures View() == Step(old(View()), Launch(now, readable, u, ru, opens))
    {
      running, keyReadable, inMemory, revoked, host, cleanupPending := true, readable, false, false, false, false;
      var locked := EnforceLaunchAutoLock(now, u, ru);
      if !locked { var _ := EnsureHost(opens, u); }
    }

    // A quit or a crash: the process state goes, the files stay.
    method Die()
      modifies this
      ensures View() == Step(old(View()), Event.Quit)
    {
      running, keyReadable, inMemory, revoked, host, cleanupPending := false, false, false, false, false, false;
    }

    method RunIdleAutoLock(now: int, u: Unlinks, ru: Unlinks) returns (locked: bool)
      requires running
      modifies this
      ensures View() == Step(old(View()), IdleCheck(now, u, ru))
      ensures locked == AutoLocks(old(View()), IdleCheck(now, u, ru))
    {
      var state := LoadRecord(autolock);
      if state.None? || !state.value.armed { return false; }
      if !HasEnforceableWindow(state.value) || !ShouldAutoLock(state.value, now) { return false; }
      LockForAutoLock(u, ru);
      locked := true;
    }

    method RunSystemAutoLock(now: int, u: Unlinks, ru: Unlinks) returns (locked: bool)
      requires running
      modifies this
      ensures View() == Step(old(View()), SystemEvent(now, u, ru))
      ensures locked == AutoLocks(old(View()), SystemEvent(now, u, ru))
    {
      var state := LoadRecord(autolock);
      if state.None? || !state.value.armed { return false; }
      if !HasEnforceableWindow(state.value) { return false; }
      LockForAutoLock(u, ru);
      locked := true;
    }

    method ApplyAutoLockReport(m: Report, now: int, saves: bool, ru: Unlinks) returns (ok: bool)
      modifies this`autolock
      ensures View() == old(View()).ReportApplied(m, now, saves, ru) && ok == !old(View()).ReportThrows(m, saves, ru)
    {
      if !m.armed {
        ok := SaveRecord(Record(false, 0, now), saves);
        return;
      }
      if m.idleMs.None? || m.idleMs.value <= 0 {
        ok := ClearRecord(ru);
        return;
      }
      var current := LoadRecord(autolock);
      if m.activity && !(current.Some? && current.value.armed) { return true; }
      var lastActivity := now;
      if !m.activity && current.Some? && current.value.armed && current.value.lastActivity > 0 {
        lastActivity := current.value.lastActivity;
      }
      ok := SaveRecord(Record(true, m.idleMs.value, lastActivity), saves);
    }

    method HandleReport(now: int, m: Report, saves: bool, cu: Unlinks, u: Unlinks, ru: Unlinks, again: Unlinks)
        returns (reply: Reply)
      requires running
      modifies this
      ensures View() == Step(old(View()), AutoLockReport(now, m, saves, cu, u, ru, again))
      ensures reply == Failed || reply == Answered
      ensures reply == Failed
              <==> !old(cleanupPending) && old(View()).ReportThrows(m, saves, cu) && (!m.armed || m.activity)
    {
      if cleanupPending { return Answered; }
      var ok := ApplyAutoLockReport(m, now, saves, cu);
      if ok { return Answered; }
      if !m.armed || m.activity { return Failed; }
      LockForAutoLock(u, ru);
      var _ := ClearRecord(again);
      reply := Answered;
    }

    method HandleVaultMessage(now: int, stamps: bool, opens: bool, u: Unlinks) returns (reply: Reply)
      requires running
      modifies this
      ensures View() == Step(old(View()), VaultMessage(now, stamps, opens, u))
      ensures reply == Served <==> Serves(old(View()), VaultMessage(now, stamps, opens, u))
      ensures reply == Served || reply == Refused
    {
      if cleanupPending { return Refused; }
      StampActivity(now, stamps);
      if !host {
        var ok := EnsureHost(opens, u);
        if !host { return Refused; }
      }
      reply := Served;
    }

    method HandleStatus(now: int, stamps: bool) returns (hasSession: bool)
      requires running
      modifies this`autolock
      ensures View() == Step(old(View()), StatusQuery(now, stamps))
      ensures hasSession == StatusHasSession(View())
    {
      if !cleanupPending { StampActivity(now, stamps); }
      hasSession := LoadKey();
      if cleanupPending { hasSession := false; }
    }

    method HandleUnlock(now: int, stamps: bool, writes: bool, ru: Unlinks, opens: bool, u: Unlinks)
      requires running
      modifies this
      ensures View() == Step(old(View()), PasswordUnlock(now, stamps, writes, ru, opens, u))
    {
      hide Shell.HostEnsured, Shell.RecordCleared, Shell.Stamped;
      if !cleanupPending { StampActivity(now, stamps); }
      revoked := false;
      inMemory := true;
      if keyReadable {
        if !writes { return; }
        sessionBin := true;
      }
      OnUnlocked(ru, opens, u);
    }

    // A fresh password-authenticated unlock supersedes a failed cleanup.
    method OnUnlocked(ru: Unlinks, opens: bool, u: Unlinks)
      modifies this
      ensures View() == old(View()).(cleanupPending := false).RecordCleared(ru).HostEnsured(opens, u)
    {
      cleanupPending := false;
      var _ := ClearRecord(ru);
      var _ := EnsureHost(opens, u);
    }

    method HandleLock(now: int, stamps: bool, u: Unlinks, signingCleared: bool, ru: Unlinks)
      requires running
      modifies this
      ensures View() == Step(old(View()), WalletLock(now, stamps, u, signingCleared, ru))
    {
      hide Shell.Stamped, Shell.RecordCleared;
      if !cleanupPending { StampActivity(now, stamps); }
      var sessionCleared := ClearSession(u);
      cleanupPending := !(sessionCleared && signingCleared);
      TearDownHost();
      if !cleanupPending { var _ := ClearRecord(ru); }
    }

    // Clear every store in order, collecting refusals; a meta that will not go
    // stops the wipe with every other store as it was.
    method WipeRuntimeStores(others: set<Store>, u: Unlinks, ru: Unlinks)
        returns (cleared: seq<Store>, errors: seq<Store>)
      requires running
      modifies this
      ensures View() == Step(old(View()), Wipe(Meta !in others, u, ru))
      ensures Meta in others ==> cleared == [] && errors == [Meta]
      ensures var refused := Refusing(old(View()), others, u, ru);
              Meta !in others ==> cleared == Named(refused, STORES, false) && errors == Named(refused, STORES, true)
    {
      hide WipedTo, Refusing, Named;
      TearDownHost();
      cleared, errors := [], [];
      ghost var before := View();
      ghost var refused := Refusing(before, others, u, ru);
      WipeBegins(before, others, u, ru);
      WipeBegins(old(View()), others, u, ru);
      for i := 0 to STORES
        invariant i > 0 ==> Meta !in others
        invariant cleared == Named(refused, i, false) && errors == Named(refused, i, true)
        invariant View() == WipedTo(before, i, u, ru)
      {
        var store := StoreAt(i);
        var ok := ClearStore(store, others, u, ru);
        WipeGoesOn(before, i, u, ru);
        WipeRefuses(before, i, others, u, ru);
        NamesOneMore(refused, i);
        if ok {
          cleared := cleared + [store];
        } else {
          errors := errors + [store];
          if store == Meta { return; }
        }
      }
      WipeEnds(before, u, ru);
    }

    method ClearStore(store: Store, others: set<Store>, u: Unlinks, ru: Unlinks) returns (ok: bool)
      modifies this
      ensures ok == match store
                    case Session => !old(View()).SessionClearThrows(u)
                    case AutoLock => !old(View()).RecordClearThrows(ru)
                    case _ => store !in others
      ensures View() == match store
                        case Session => old(View()).SessionCleared(u)
                        case AutoLock => old(View()).RecordCleared(ru)
                        case _ => old(View())
    {
      ok := store !in others;
      if store == Session { ok := ClearSession(u); }
      if store == AutoLock { ok := ClearRecord(ru); }
    }
  }

  // The stores whose clear is refused: the two files by their unlinks, the
  // others as given.
  function Refusing(s: Shell, others: set<Store>, u: Unlinks, ru: Unlinks): set<Store> {
    others - {Session, AutoLock}
    + (if s.SessionClearThrows(u) then {Session} else {})
    + (if s.RecordClearThrows(ru) then {AutoLock} else {})
  }
}
