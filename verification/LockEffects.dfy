// What each event of the lock lifecycle does, in terms of the two files, the
// process's own flags and the numbers of the record alone.
module LockEffects {
  import opened Wrappers
  import opened LockLifecycle

  // ------------------------------------------------------------------ the record

  // A stored record that says Never, or has a window that can be enforced.
  predicate Usable(f: RecordFile) {
    f.Stored? && (f.record.armed ==> f.record.idleMs > 0 && f.record.lastActivity > 0)
  }

  predicate Armed(f: RecordFile) {
    Usable(f) && f.record.armed
  }

  lemma LoadsIff(f: RecordFile)
    ensures LoadRecord(f) == if Usable(f) then Some(f.record) else None
  {
  }

  // The window has passed, or the stamp is more than five minutes ahead.
  predicate Elapsed(r: Record, now: int) {
    now - r.lastActivity >= r.idleMs || r.lastActivity - now > 300_000
  }

  // The record with activity noted, at most once in thirty seconds.
  function Noted(f: RecordFile, now: int, ok: bool): RecordFile {
    if Armed(f) && now - f.record.lastActivity >= 30_000 && ok
    then Stored(Record(true, f.record.idleMs, now)) else f
  }

  function Unlinked(f: RecordFile, u: Unlinks): RecordFile {
    if u.keepsFile then f else Absent
  }

  predicate KeyStays(s: Shell, u: Unlinks) {
    s.sessionBin && u.keepsFile
  }

  // A session clear throws when either unlink was refused.
  predicate ClearRefused(s: Shell, u: Unlinks) {
    (s.sessionBin && u.keepsFile) || u.keepsTmp
  }

  // Is there a key to open the vault with?
  predicate KeyAtHand(s: Shell) {
    !s.revoked && (s.inMemory || (s.keyReadable && s.sessionBin))
  }

  lemma KeyAtHandIff(s: Shell)
    ensures s.HasKey() <==> KeyAtHand(s)
    ensures StatusHasSession(s) <==> !s.cleanupPending && KeyAtHand(s)
  {
  }

  lemma StampedIs(s: Shell, now: int, ok: bool)
    ensures s.Stamped(now, ok) == s.(autolock := Noted(s.autolock, now, ok))
  {
    LoadsIff(s.autolock);
    hide LoadRecord, HasEnforceableWindow, Usable;
    if Armed(s.autolock) {
      assert Armed(s.autolock) ==> Usable(s.autolock);
    }
  }

  // ----------------------------------------------------------------------- locks

  // The shell after an auto-lock: revoked and without a host whatever was
  // refused; the record goes only once the session is gone.
  function LockedDown(s: Shell, u: Unlinks, ru: Unlinks): Shell {
    Shell(KeyStays(s, u),
        if ClearRefused(s, u) then s.autolock else Unlinked(s.autolock, ru),
        s.running, s.keyReadable, false, true, false, ClearRefused(s, u))
  }

  lemma AutoLockedIs(s: Shell, u: Unlinks, ru: Unlinks)
    ensures s.AutoLocked(u, ru) == LockedDown(s, u, ru)
  {
  }

  // The windowless idle check drops the host exactly when the stored record is
  // armed, has a window, and the window has passed or the clock ran back more
  // than the five minutes allowed.
  lemma IdleCheckLocksIff(s: Shell, now: int, u: Unlinks, ru: Unlinks)
    requires s.running && s.host
    ensures !Step(s, IdleCheck(now, u, ru)).host
            <==> && s.autolock.Stored? && s.autolock.record.armed
                 && s.autolock.record.idleMs > 0 && s.autolock.record.lastActivity > 0
                 && (now - s.autolock.record.lastActivity >= s.autolock.record.idleMs
                     || s.autolock.record.lastActivity - now > 300_000)
  {
  }

  lemma IdleCheckEffect(s: Shell, now: int, u: Unlinks, ru: Unlinks)
    requires s.running
    ensures Step(s, IdleCheck(now, u, ru))
         == if Armed(s.autolock) && Elapsed(s.autolock.record, now) then LockedDown(s, u, ru) else s
  {
    AutoLockedIs(s, u, ru);
    hide Shell.AutoLocked, LockedDown;
  }

  lemma SystemEventEffect(s: Shell, now: int, u: Unlinks, ru: Unlinks)
    requires s.running
    ensures Step(s, SystemEvent(now, u, ru)) == if Armed(s.autolock) then LockedDown(s, u, ru) else s
  {
    AutoLockedIs(s, u, ru);
    hide Shell.AutoLocked, LockedDown;
  }

  // The events that lock by themselves: a launch that finds a key and no usable
  // record or one past its window, the two checks, and an arm that could not be
  // stored.
  lemma AutoLocksIff(s: Shell, ev: Event)
    ensures AutoLocks(s, ev)
            <==> match ev
                 case Launch(now, readable, _, _, _) =>
                   && !s.running && readable && s.sessionBin
                   && (!Usable(s.autolock) || (s.autolock.record.armed && Elapsed(s.autolock.record, now)))
                 case IdleCheck(now, _, _) => s.running && Armed(s.autolock) && Elapsed(s.autolock.record, now)
                 case SystemEvent(_, _, _) => s.running && Armed(s.autolock)
                 case AutoLockReport(_, m, saves, cu, _, _, _) =>
                   && s.running && !s.cleanupPending && m.armed && !m.activity
                   && (if m.idleMs.Some? && m.idleMs.value > 0 then !saves
                       else (s.autolock != Absent && cu.keepsFile) || cu.keepsTmp)
                 case _ => false
  {
    match ev
    case AutoLockReport(now, m, saves, cu, _, _, _) =>
      ReportAppliedIs(s, now, m, saves, cu);
      hide Shell.ReportApplied, Shell.ReportThrows, Saved, Unlinked, StampFor, LoadRecord;
    case _ =>
      LoadsIff(s.autolock);
      hide LoadRecord;
  }

  // An explicit lock drops the host and revokes the key in every case; the
  // record goes, and the cleanup is done, once every secret is cleared.
  lemma WalletLockEffect(s: Shell, now: int, stamps: bool, u: Unlinks, signingCleared: bool, ru: Unlinks)
    requires s.running
    ensures var q := Step(s, WalletLock(now, stamps, u, signingCleared, ru));
            var f := if s.cleanupPending then s.autolock else Noted(s.autolock, now, stamps);
            var done := !ClearRefused(s, u) && signingCleared;
            q == Shell(KeyStays(s, u), if done then Unlinked(f, ru) else f,
                true, s.keyReadable, false, true, false, !done)
  {
    StampedIs(s, now, stamps);
    hide Shell.Stamped, Noted;
  }

  lemma WipeEffect(s: Shell, metaClears: bool, u: Unlinks, ru: Unlinks)
    requires s.running
    ensures Step(s, Wipe(metaClears, u, ru))
         == if !metaClears then s.(host := false)
            else Shell(KeyStays(s, u), Unlinked(s.autolock, ru), true, s.keyReadable, false, true, false,
                s.cleanupPending)
  {
  }

  // ----------------------------------------------------------- launches and quits

  // A launch finds the two files and nothing else; with a key to be had it
  // locks without a usable record or past its window, and otherwise opens if
  // the key is the right one.
  lemma LaunchEffect(s: Shell, now: int, readable: bool, u: Unlinks, ru: Unlinks, opens: bool)
    requires !s.running
    ensures var f := s.autolock;
            Step(s, Launch(now, readable, u, ru, opens))
            == if !(readable && s.sessionBin) then Shell(s.sessionBin, f, true, readable, false, false, false, false)
               else if !Usable(f) || (f.record.armed && Elapsed(f.record, now))
               then Shell(KeyStays(s, u), Unlinked(f, ru), true, readable, false, true, false, ClearRefused(s, u))
               else if opens then Shell(true, f, true, readable, false, false, true, false)
               else Shell(KeyStays(s, u), f, true, readable, false, true, false, false)
  {
  }

  lemma QuitEffect(s: Shell)
    ensures Step(s, Quit) == Shell(s.sessionBin, s.autolock, false, false, false, false, false, false)
  {
  }

  // Nothing happens in a process that does not run, and nothing launches twice.
  lemma NotRunning(s: Shell, ev: Event)
    requires !ev.Quit? && (ev.Launch? <==> s.running)
    ensures Step(s, ev) == s
  {
  }

  // -------------------------------------------------------------------- messages

  // The shell once a host was asked for with no cleanup owed.
  function Opened(s: Shell, opens: bool, u: Unlinks): Shell {
    if s.host || !KeyAtHand(s) then s
    else if opens then s.(host := true)
    else s.(sessionBin := KeyStays(s, u), inMemory := false, revoked := true)
  }

  lemma HostEnsuredIs(s: Shell, opens: bool, u: Unlinks)
    requires !s.cleanupPending
    ensures s.HostEnsured(opens, u) == Opened(s, opens, u)
  {
  }

  lemma VaultMessageEffect(s: Shell, now: int, stamps: bool, opens: bool, u: Unlinks)
    requires s.running
    ensures Step(s, VaultMessage(now, stamps, opens, u))
         == if s.cleanupPending then s
            else Opened(s.(autolock := Noted(s.autolock, now, stamps)), opens, u)
    ensures Serves(s, VaultMessage(now, stamps, opens, u))
            <==> !s.cleanupPending && (s.host || (KeyAtHand(s) && opens))
  {
    StampedIs(s, now, stamps);
    if !s.cleanupPending {
      HostEnsuredIs(s.(autolock := Noted(s.autolock, now, stamps)), opens, u);
    }
    hide Shell.Stamped, Noted, Shell.HostEnsured;
  }

  lemma StatusQueryEffect(s: Shell, now: int, stamps: bool)
    requires s.running
    ensures Step(s, StatusQuery(now, stamps))
         == if s.cleanupPending then s else s.(autolock := Noted(s.autolock, now, stamps))
  {
    StampedIs(s, now, stamps);
    hide Shell.Stamped, Noted;
  }

  // A password unlock always puts the key in memory. Unless its save fails it
  // also repays the cleanup, clears the record and asks for a host.
  lemma PasswordUnlockEffect(s: Shell, now: int, stamps: bool, writes: bool, ru: Unlinks, opens: bool, u: Unlinks)
    requires s.running
    ensures var f := if s.cleanupPending then s.autolock else Noted(s.autolock, now, stamps);
            Step(s, PasswordUnlock(now, stamps, writes, ru, opens, u))
            == if s.keyReadable && !writes then s.(autolock := f, revoked := false, inMemory := true)
               else
                 var saved := s.sessionBin || s.keyReadable;
                 if s.host || opens
                 then Shell(saved, Unlinked(f, ru), true, s.keyReadable, true, false, true, false)
                 else Shell(saved && u.keepsFile, Unlinked(f, ru), true, s.keyReadable, false, true, false, false)
  {
    StampedIs(s, now, stamps);
    hide Shell.Stamped, Noted;
  }

  // --------------------------------------------------------------------- reports

  // The stamp an arming report leaves: the stored one, unless there is none in
  // force or the report is of activity.
  function StampFor(f: RecordFile, m: Report, now: int): int {
    if !m.activity && Armed(f) then f.record.lastActivity else now
  }

  // Does the report keep no record, ask for one, or say nothing new?
  lemma ReportEffect(s: Shell, now: int, m: Report, saves: bool, cu: Unlinks, u: Unlinks, ru: Unlinks, again: Unlinks)
    requires s.running
    ensures var q, f := Step(s, AutoLockReport(now, m, saves, cu, u, ru, again)), s.autolock;
            && (s.cleanupPending ==> q == s)
            && (!s.cleanupPending && !m.armed ==>
                  q == s.(autolock := if saves then Stored(Record(false, 0, now)) else f))
            && (!s.cleanupPending && m.armed && !(m.idleMs.Some? && m.idleMs.value > 0) ==>
                  var kept := s.(autolock := Unlinked(f, cu));
                  q == if m.activity || !((f != Absent && cu.keepsFile) || cu.keepsTmp) then kept
                       else LockedAfterReport(kept, u, ru, again))
            && (!s.cleanupPending && m.armed && m.idleMs.Some? && m.idleMs.value > 0 ==>
                  q == if m.activity && !Armed(f) then s
                       else if saves then s.(autolock := Stored(Record(true, m.idleMs.value, StampFor(f, m, now))))
                       else if m.activity then s
                       else LockedAfterReport(s, u, ru, again))
  {
    ReportAppliedIs(s, now, m, saves, cu);
    LockedAfterReportIs(s.ReportApplied(m, now, saves, cu), u, ru, again);
    hide Shell.ReportApplied, Shell.AutoLocked, LockedAfterReport, Unlinked, StampFor, Shell.RecordCleared, Armed;
    hide Shell.ReportThrows;
  }

  // The record a report asks for, when it asks for one.
  function Asked(f: RecordFile, m: Report, now: int): Record {
    if m.armed && m.idleMs.Some? then Record(true, m.idleMs.value, StampFor(f, m, now)) else Record(false, 0, now)
  }

  function Saved(f: RecordFile, r: Record, ok: bool): RecordFile {
    if ok then Stored(r) else f
  }

  lemma StoredIs(s: Shell, r: Record, saves: bool, u: Unlinks)
    ensures s.RecordSaved(r, saves) == s.(autolock := Saved(s.autolock, r, saves))
    ensures s.RecordCleared(u) == s.(autolock := Unlinked(s.autolock, u))
    ensures s.RecordClearThrows(u) <==> (s.autolock != Absent && u.keepsFile) || u.keepsTmp
  {
  }

  // What a report stores, and whether storing it throws.
  lemma ReportAppliedIs(s: Shell, now: int, m: Report, saves: bool, cu: Unlinks)
    ensures var q, throws, f := s.ReportApplied(m, now, saves, cu), s.ReportThrows(m, saves, cu), s.autolock;
            if !m.armed
            then q == s.(autolock := Saved(f, Record(false, 0, now), saves)) && throws == !saves
            else if !(m.idleMs.Some? && m.idleMs.value > 0)
            then q == s.(autolock := Unlinked(f, cu)) && throws == ((f != Absent && cu.keepsFile) || cu.keepsTmp)
            else if m.activity && !Armed(f) then q == s && !throws
            else q == s.(autolock := Saved(f, Record(true, m.idleMs.value, StampFor(f, m, now)), saves))
                 && throws == !saves
  {
    ArmedIs(s, m, now);
    StoredIs(s, Asked(s.autolock, m, now), saves, cu);
    hide Shell.ArmedNow, Shell.ArmedStamp, StampFor, Armed, LoadRecord;
    hide Shell.RecordSaved, Shell.RecordCleared, Saved, Unlinked, Shell.RecordClearThrows;
    if !m.armed {
    } else if m.idleMs.None? || m.idleMs.value <= 0 {
    } else if m.activity && !s.ArmedNow() {
    } else {
    }
  }

  lemma ArmedIs(s: Shell, m: Report, now: int)
    ensures s.ArmedNow() <==> Armed(s.autolock)
    ensures s.ArmedStamp(m, now) == StampFor(s.autolock, m, now)
  {
  }

  // The lock after an arm that could not be stored: the record is tried once
  // more whether or not the session went.
  function LockedAfterReport(s: Shell, u: Unlinks, ru: Unlinks, again: Unlinks): Shell {
    var q := LockedDown(s, u, ru);
    q.(autolock := Unlinked(q.autolock, again))
  }

  lemma LockedAfterReportIs(s: Shell, u: Unlinks, ru: Unlinks, again: Unlinks)
    ensures s.AutoLocked(u, ru).RecordCleared(again) == LockedAfterReport(s, u, ru, again)
  {
    AutoLockedIs(s, u, ru);
    hide Shell.AutoLocked, LockedDown;
  }

  // ------------------------------------------------------------------------ wipes

  function Kept(stores: seq<Store>, refused: set<Store>, which: bool): seq<Store> {
    if stores == [] then []
    else (if (stores[0] in refused) == which then [stores[0]] else []) + Kept(stores[1..], refused, which)
  }

  const ORDER: seq<Store> := [Meta, Storage, Session, BroadcastQueue, UnlockThrottle, AutoLock, PanicMode]

  // The stores are named in the order a wipe clears them.
  lemma NamedInOrder(refused: set<Store>, which: bool)
    ensures Named(refused, STORES, which) == Kept(ORDER, refused, which)
  {
    NamedFrom(refused, which, STORES);
    assert ORDER[..STORES] == ORDER;
  }

  lemma {:induction false} NamedFrom(refused: set<Store>, which: bool, n: nat)
    requires n <= STORES
    ensures Named(refused, n, which) == Kept(ORDER[..n], refused, which)
  {
    if n > 0 {
      NamedFrom(refused, which, n - 1);
      assert ORDER[..n] == ORDER[..n - 1] + [StoreAt(n - 1)];
      KeptLast(ORDER[..n - 1], StoreAt(n - 1), refused, which);
    }
  }

  lemma {:induction false} KeptLast(stores: seq<Store>, last: Store, refused: set<Store>, which: bool)
    ensures Kept(stores + [last], refused, which)
         == Kept(stores, refused, which) + if (last in refused) == which then [last] else []
  {
    if stores != [] {
      assert (stores + [last])[1..] == stores[1..] + [last];
      KeptLast(stores[1..], last, refused, which);
    }
  }

  lemma RefusedIff(s: Shell, others: set<Store>, u: Unlinks, ru: Unlinks, store: Store)
    ensures store in Refusing(s, others, u, ru)
            <==> match store
                 case Session => ClearRefused(s, u)
                 case AutoLock => (s.autolock != Absent && ru.keepsFile) || ru.keepsTmp
                 case _ => store in others
  {
  }
}
