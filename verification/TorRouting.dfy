// Tor routing: packages/desktop/main/torRouting.js. One asynchronous apply at
// a time moves three egress paths; each await is a step boundary, every
// `setProxy` may be refused, and sessions may be created between any two steps
// (packages/desktop/main/index.js, getTrezorConnectSession).
module TorRouting {
  import opened Wrappers

  type SessionId = nat

  const MAIN: SessionId := 0

  datatype Proxy = Proxy(host: string, port: int)

  // What a Chromium session was last told.
  datatype Route = Direct | Via(proxy: Proxy)

  // Node's global dispatcher: the one in force at boot, or a SOCKS one.
  datatype Dispatcher = Boot | Socks(proxy: Proxy)

  // The effective settings of one apply call.
  datatype Request = Off | On(proxy: Proxy)

  // Where the running apply is suspended.
  datatype Phase =
    | Idle
    | Probing(proxy: Proxy)
    | OnMain(proxy: Proxy)
    | OnExtras(proxy: Proxy, todo: set<SessionId>, failed: bool)
    | Restoring(todo: set<SessionId>, failed: bool)

  datatype Routing = Routing(
    applied: Option<Proxy>,
    routed: bool,
    originalDispatcher: Option<Dispatcher>,
    dispatcher: Dispatcher,
    pool: Option<Proxy>,
    sessions: map<SessionId, Route>,
    queue: seq<Request>,
    phase: Phase
  ) {
    // currentProxyConfig.
    function Current(): Route {
      if applied.Some? then Via(applied.value) else Direct
    }

    function Begun(): Routing
      requires queue != []
    {
      var t := this.(queue := queue[1..]);
      match queue[0]
      case Off =>
        if applied.None? && !routed then t
        else t.(dispatcher := if originalDispatcher.Some? then originalDispatcher.value else dispatcher,
                pool := None,
                phase := Restoring(sessions.Keys, false))
      case On(p) =>
        if applied == Some(p) then t else t.(phase := Probing(p))
    }

    function Probed(p: Proxy): Routing {
      this.(routed := true,
            pool := Some(p),
            originalDispatcher := if originalDispatcher.None? then Some(dispatcher) else originalDispatcher,
            dispatcher := Socks(p),
            phase := OnMain(p))
    }

    function MainSet(p: Proxy, ok: bool, left: Route): Routing {
      if !ok then this.(sessions := sessions[MAIN := left], applied := None, phase := Idle)
      else
        var extras := sessions.Keys - {MAIN};
        this.(sessions := sessions[MAIN := Via(p)],
              applied := Some(p),
              phase := if extras == {} then Idle else OnExtras(p, extras, false))
    }

    function ExtraSet(sid: SessionId, ok: bool, left: Route): Routing
      requires phase.OnExtras?
    {
      var rest, bad := phase.todo - {sid}, phase.failed || !ok;
      var t := this.(sessions := sessions[sid := if ok then Current() else left]);
      if rest != {} then t.(phase := OnExtras(phase.proxy, rest, bad))
      else t.(phase := Idle, applied := if bad then None else applied)
    }

    function DirectSet(sid: SessionId, ok: bool, left: Route): Routing
      requires phase.Restoring?
    {
      var rest, bad := phase.todo - {sid}, phase.failed || !ok;
      var t := this.(sessions := sessions[sid := if ok then Direct else left]);
      if rest != {} then t.(phase := Restoring(rest, bad))
      else t.(phase := Idle, applied := None, routed := bad)
    }
  }

  datatype Event =
    | Toggle(request: Request)
    | Begin
    | ProbeDone
    // the awaited setProxy settled; a refused one leaves the session anywhere
    | SetProxyDone(sid: SessionId, ok: bool, left: Route)
    | Created(sid: SessionId)

  function Step(s: Routing, ev: Event): Routing {
    match ev
    case Toggle(r) => s.(queue := s.queue + [r])
    case Begin => if s.phase.Idle? && s.queue != [] then s.Begun() else s
    case ProbeDone => if s.phase.Probing? then s.Probed(s.phase.proxy) else s
    case Created(sid) => if sid in s.sessions then s else s.(sessions := s.sessions[sid := s.Current()])
    case SetProxyDone(sid, ok, left) =>
      match s.phase
      case OnMain(p) => if sid == MAIN then s.MainSet(p, ok, left) else s
      case OnExtras(_, todo, _) => if sid in todo then s.ExtraSet(sid, ok, left) else s
      case Restoring(todo, _) => if sid in todo then s.DirectSet(sid, ok, left) else s
      case _ => s
  }

  function Initial(): Routing {
    Routing(None, false, None, Boot, None, map[MAIN := Direct], [], Idle)
  }

  function Run(s: Routing, evs: seq<Event>): Routing {
    if evs == [] then s else Step(Run(s, evs[..|evs| - 1]), evs[|evs| - 1])
  }

  // ------------------------------------------------------- one proxy everywhere

  // All three egress paths use exactly `p`.
  predicate Uses(s: Routing, p: Proxy) {
    s.pool == Some(p) && s.dispatcher == Socks(p) && forall sid | sid in s.sessions :: s.sessions[sid] == Via(p)
  }

  // All three are as they were before the first apply.
  predicate AllDirect(s: Routing) {
    s.pool == None && s.dispatcher == Boot && forall sid | sid in s.sessions :: s.sessions[sid] == Direct
  }

  predicate Sound(s: Routing) {
    && MAIN in s.sessions
    && (s.originalDispatcher == None || s.originalDispatcher == Some(Boot))
    && (s.originalDispatcher == None ==> s.dispatcher == Boot)
    && (s.applied.Some? ==> s.routed)
    && match s.phase
       case Idle => s.applied.Some? ==> Uses(s, s.applied.value)
       case Probing(_) => s.applied.Some? ==> Uses(s, s.applied.value)
       case OnMain(p) => s.routed && s.pool == Some(p) && s.dispatcher == Socks(p)
       case OnExtras(p, todo, failed) =>
         && s.applied == Some(p) && s.pool == Some(p) && s.dispatcher == Socks(p)
         && todo <= s.sessions.Keys && todo != {}
         && (!failed ==> forall sid | sid in s.sessions && sid !in todo :: s.sessions[sid] == Via(p))
       case Restoring(todo, _) =>
         s.routed && s.pool == None && s.dispatcher == Boot && todo <= s.sessions.Keys && todo != {}
  }

  lemma OnlyMain(s: Routing)
    ensures s.sessions.Keys - {MAIN} == {} ==> forall sid | sid in s.sessions :: sid == MAIN
  {
    assert forall sid | sid in s.sessions && sid != MAIN :: sid in s.sessions.Keys - {MAIN};
  }

  lemma NoneLeft(s: Routing, done: SessionId)
    requires s.phase.OnExtras? || s.phase.Restoring?
    ensures s.phase.todo - {done} == {} ==> forall sid | sid in s.phase.todo :: sid == done
  {
    assert forall sid | sid in s.phase.todo && sid != done :: sid in s.phase.todo - {done};
  }

  lemma SoundStep(s: Routing, ev: Event)
    requires Sound(s)
    ensures Sound(Step(s, ev))
  {
    match ev
    case SetProxyDone(sid, ok, left) =>
      OnlyMain(s);
      if s.phase.OnExtras? || s.phase.Restoring? {
        NoneLeft(s, sid);
      }
    case _ =>
  }

  // With no apply in progress and the toggle applied, the pool, the dispatcher
  // and every session use exactly the applied proxy: in every run, whatever
  // was refused before and whenever sessions were created.
  lemma {:induction false} AppliedMeansEverywhere(evs: seq<Event>)
    ensures Sound(Run(Initial(), evs))
    ensures var s := Run(Initial(), evs);
            s.phase.Idle? && s.applied.Some? ==> Uses(s, s.applied.value)
  {
    if evs != [] {
      AppliedMeansEverywhere(evs[..|evs| - 1]);
      SoundStep(Run(Initial(), evs[..|evs| - 1]), evs[|evs| - 1]);
    }
  }

  // ---------------------------------------------------------------- off is off

  // The hole in "not routed means direct": the off apply takes its list of
  // sessions up front but keeps `applied` until it ends, so a session created
  // in between is put on the proxy and never visited.
  predicate SlipsPastOff(s: Routing, ev: Event) {
    s.phase.Restoring? && s.applied.Some? && ev.Created? && ev.sid !in s.sessions
  }

  predicate NoneSlips(s: Routing, evs: seq<Event>) {
    forall k | 0 <= k < |evs| :: !SlipsPastOff(Run(s, evs[..k]), evs[k])
  }

  predicate DirectWhenUnrouted(s: Routing) {
    && (!s.routed ==> AllDirect(s))
    && (s.phase.Restoring? && !s.phase.failed ==>
          forall sid | sid in s.sessions && sid !in s.phase.todo :: s.sessions[sid] == Direct)
  }

  lemma DirectStep(s: Routing, ev: Event)
    requires Sound(s) && DirectWhenUnrouted(s) && !SlipsPastOff(s, ev)
    ensures DirectWhenUnrouted(Step(s, ev))
  {
    match ev
    case SetProxyDone(sid, ok, left) =>
      OnlyMain(s);
      if s.phase.OnExtras? || s.phase.Restoring? {
        NoneLeft(s, sid);
      }
    case _ =>
  }

  lemma {:induction false} NotRoutedMeansDirect(evs: seq<Event>)
    requires NoneSlips(Initial(), evs)
    ensures DirectWhenUnrouted(Run(Initial(), evs))
    ensures !Run(Initial(), evs).routed ==> AllDirect(Run(Initial(), evs))
  {
    if evs != [] {
      var prefix := evs[..|evs| - 1];
      forall k | 0 <= k < |prefix|
        ensures !SlipsPastOff(Run(Initial(), prefix[..k]), prefix[k])
      {
        assert prefix[..k] == evs[..k];
      }
      NotRoutedMeansDirect(prefix);
      AppliedMeansEverywhere(prefix);
      DirectStep(Run(Initial(), prefix), evs[|evs| - 1]);
    }
  }

  // Everything true of an off apply that started from `s` and is still running.
  predicate RestoringFrom(s: Routing, t: Routing) {
    && t.phase.Restoring? && t.applied == s.applied && t.pool == None && t.dispatcher == Boot && t.routed
    && t.phase.todo <= s.sessions.Keys <= t.sessions.Keys && t.phase.todo != {}
    && (!t.phase.failed ==> forall sid | sid in s.sessions && sid !in t.phase.todo :: t.sessions[sid] == Direct)
    && (forall sid | sid in t.sessions && sid !in s.sessions :: t.sessions[sid] == s.Current())
  }

  // Did the step settle one of the off apply's own setProxy calls, refused?
  predicate Refuses(t: Routing, ev: Event) {
    t.phase.Restoring? && ev.SetProxyDone? && ev.sid in t.phase.todo && !ev.ok
  }

  predicate NoneRefuses(t: Routing, evs: seq<Event>) {
    forall k | 0 <= k < |evs| :: !Refuses(Run(t, evs[..k]), evs[k])
  }

  // `evs` takes the apply that has just begun to its end and no further.
  predicate EndsApply(t: Routing, evs: seq<Event>) {
    Run(t, evs).phase.Idle? && forall k | 0 <= k < |evs| :: !Run(t, evs[..k]).phase.Idle?
  }

  lemma {:induction false} RestoringRun(s: Routing, t: Routing, evs: seq<Event>)
    requires RestoringFrom(s, t) && !t.phase.failed
    requires forall k | 0 <= k <= |evs| :: !Run(t, evs[..k]).phase.Idle?
    ensures RestoringFrom(s, Run(t, evs))
    ensures Run(t, evs).phase.failed <==> !NoneRefuses(t, evs)
  {
    if evs == [] {
      assert NoneRefuses(t, evs);
    } else {
      var prefix, ev := evs[..|evs| - 1], evs[|evs| - 1];
      PrefixBusy(t, evs);
      RestoringRun(s, t, prefix);
      RefusalsGrow(t, evs);
      assert evs[..|evs|] == evs;
      RestoringStep(s, Run(t, prefix), ev);
    }
  }

  lemma PrefixBusy(t: Routing, evs: seq<Event>)
    requires evs != [] && forall k | 0 <= k < |evs| :: !Run(t, evs[..k]).phase.Idle?
    ensures var prefix := evs[..|evs| - 1];
            forall k | 0 <= k <= |prefix| :: !Run(t, prefix[..k]).phase.Idle?
  {
    var prefix := evs[..|evs| - 1];
    forall k | 0 <= k <= |prefix|
      ensures !Run(t, prefix[..k]).phase.Idle?
    {
      assert prefix[..k] == evs[..k];
    }
  }

  lemma RefusalsGrow(t: Routing, evs: seq<Event>)
    requires evs != []
    ensures var prefix, ev := evs[..|evs| - 1], evs[|evs| - 1];
            NoneRefuses(t, evs) <==> NoneRefuses(t, prefix) && !Refuses(Run(t, prefix), ev)
  {
    hide Refuses, Run;
    var prefix, ev := evs[..|evs| - 1], evs[|evs| - 1];
    forall k | 0 <= k < |prefix|
      ensures Refuses(Run(t, prefix[..k]), prefix[k]) == Refuses(Run(t, evs[..k]), evs[k])
    {
      assert prefix[..k] == evs[..k] && prefix[k] == evs[k];
    }
  }

  lemma RestoringStep(s: Routing, t: Routing, ev: Event)
    requires RestoringFrom(s, t)
    ensures var n := Step(t, ev);
            if !n.phase.Idle? then RestoringFrom(s, n) && n.phase.failed == (t.phase.failed || Refuses(t, ev))
            else Restored(s, n) && n.routed == (t.phase.failed || Refuses(t, ev))
  {
    if ev.SetProxyDone? {
      NoneLeft(t, ev.sid);
    }
  }

  // How an off apply that started from `s` leaves things.
  predicate Restored(s: Routing, n: Routing) {
    && n.applied == None && n.pool == None && n.dispatcher == Boot
    && s.sessions.Keys <= n.sessions.Keys
    && (!n.routed ==> forall sid | sid in s.sessions :: n.sessions[sid] == Direct)
    && (forall sid | sid in n.sessions && sid !in s.sessions :: n.sessions[sid] == s.Current())
  }

  // One off apply, from any state a run can reach, after whatever failed: the
  // original dispatcher and a null pool always; `routed` cleared exactly when
  // no session refused; and then everything is direct exactly when nothing was
  // applied at the start or no session was created meanwhile.
  lemma OffRestores(s: Routing, evs: seq<Event>)
    requires Sound(s) && s.phase.Idle? && s.queue != [] && s.queue[0].Off? && s.routed
    requires EndsApply(Step(s, Begin), evs)
    ensures var n := Run(Step(s, Begin), evs);
            && n.applied == None && n.pool == None && n.dispatcher == Boot
            && (!n.routed <==> NoneRefuses(Step(s, Begin), evs))
            && (!n.routed ==> (AllDirect(n) <==> s.applied == None || n.sessions.Keys == s.sessions.Keys))
  {
    var t := Step(s, Begin);
    assert RestoringFrom(s, t);
    if evs != [] {
      var prefix, ev := evs[..|evs| - 1], evs[|evs| - 1];
      PrefixBusy(t, evs);
      RestoringRun(s, t, prefix);
      RefusalsGrow(t, evs);
      RestoringStep(s, Run(t, prefix), ev);
      var n := Run(t, evs);
      assert Restored(s, n);
      if n.sessions.Keys != s.sessions.Keys {
        var sid :| sid in n.sessions && sid !in s.sessions;
        assert n.sessions[sid] == s.Current();
      }
    }
  }

  // A concrete run into the hole: the session created during the off apply
  // keeps the proxy, `routed` says everything is direct, and because it does
  // the next off does not even try.
  lemma SlippedSessionStaysProxied(p: Proxy)
    ensures var evs := [Toggle(On(p)), Begin, ProbeDone, SetProxyDone(MAIN, true, Direct),
                        Toggle(Off), Begin, Created(1), SetProxyDone(MAIN, true, Direct)];
            var s := Run(Initial(), evs);
            && s.phase.Idle? && !s.routed && s.applied == None
            && s.sessions == map[MAIN := Direct, 1 := Via(p)]
            && Step(Step(s, Toggle(Off)), Begin) == s
  {
    var accepted := SetProxyDone(MAIN, true, Direct);
    var on := [Toggle(On(p)), Begin, ProbeDone, accepted];
    var s := Routing(Some(p), true, Some(Boot), Socks(p), Some(p), map[MAIN := Via(p)], [], Idle);
    TurnsOn(p);
    SlipsPast(s, p);
    hide Step, Run, Initial;
    RunOf4(Initial(), [], Toggle(On(p)), Begin, ProbeDone, accepted);
    assert [] + on == on;
    RunOf4(Initial(), on, Toggle(Off), Begin, Created(1), accepted);
    assert on + [Toggle(Off), Begin, Created(1), accepted]
        == [Toggle(On(p)), Begin, ProbeDone, accepted, Toggle(Off), Begin, Created(1), accepted];
    assert Run(Initial(), []) == Initial() by {
      NoEvents(Initial());
    }
  }

  lemma NoEvents(s: Routing)
    ensures Run(s, []) == s
  {
  }

  lemma TurnsOn(p: Proxy)
    ensures Step(Step(Step(Step(Initial(), Toggle(On(p))), Begin), ProbeDone), SetProxyDone(MAIN, true, Direct))
         == Routing(Some(p), true, Some(Boot), Socks(p), Some(p), map[MAIN := Via(p)], [], Idle)
  {
    assert {MAIN} - {MAIN} == {};
    var toggled := Step(Initial(), Toggle(On(p)));
    assert toggled == Initial().(queue := [On(p)]);
    assert Step(toggled, Begin) == Initial().(phase := Probing(p));
  }

  lemma SlipsPast(s: Routing, p: Proxy)
    requires s == Routing(Some(p), true, Some(Boot), Socks(p), Some(p), map[MAIN := Via(p)], [], Idle)
    ensures var n := Step(Step(Step(Step(s, Toggle(Off)), Begin), Created(1)), SetProxyDone(MAIN, true, Direct));
            && n.phase.Idle? && !n.routed && n.applied == None
            && n.sessions == map[MAIN := Direct, 1 := Via(p)]
            && Step(Step(n, Toggle(Off)), Begin) == n
  {
    assert {MAIN} - {MAIN} == {} && s.sessions.Keys == {MAIN};
    var begun := Step(Step(s, Toggle(Off)), Begin);
    assert begun == Routing(Some(p), true, Some(Boot), Boot, None, map[MAIN := Via(p)], [], Restoring({MAIN}, false));
  }

  lemma RunOf4(s: Routing, evs: seq<Event>, a: Event, b: Event, c: Event, d: Event)
    ensures Run(s, evs + [a, b, c, d]) == Step(Step(Step(Step(Run(s, evs), a), b), c), d)
  {
    var all := evs + [a, b, c, d];
    var n := |evs|;
    assert all[..n + 3] == evs + [a, b, c] && all[..n + 3][..n + 2] == evs + [a, b];
    assert all[..n + 3][..n + 2][..n + 1] == evs + [a] && all[..n + 3][..n + 2][..n + 1][..n] == evs;
    assert Run(s, evs + [a]) == Step(Run(s, evs), a);
    assert Run(s, evs + [a, b]) == Step(Run(s, evs + [a]), b);
  }

  // ----------------------------------------------------------- the last toggle wins

  function LastToggle(evs: seq<Event>): Request {
    if evs == [] then Off
    else if evs[|evs| - 1].Toggle? then evs[|evs| - 1].request
    else LastToggle(evs[..|evs| - 1])
  }

  predicate AllAccepted(evs: seq<Event>) {
    forall k | 0 <= k < |evs| :: evs[k].SetProxyDone? ==> evs[k].ok
  }

  // Where the newest toggle is: last in the queue, being applied, or applied
  // (unless some session refused it).
  predicate Follows(s: Routing, r: Request, accepted: bool) {
    if s.queue != [] then s.queue[|s.queue| - 1] == r
    else
      match s.phase
      case Idle => (s.applied.Some? ==> r == On(s.applied.value)) && (accepted ==> (r.Off? <==> s.applied.None?))
      case Restoring(_, _) => r == Off
      case _ => r == On(s.phase.proxy)
  }

  predicate NothingFailed(s: Routing) {
    (s.phase.OnExtras? || s.phase.Restoring?) ==> !s.phase.failed
  }

  lemma {:induction false} FollowsToggles(evs: seq<Event>)
    ensures var s := Run(Initial(), evs);
            && Follows(s, LastToggle(evs), AllAccepted(evs))
            && (AllAccepted(evs) ==> NothingFailed(s))
  {
    if evs != [] {
      var prefix, ev := evs[..|evs| - 1], evs[|evs| - 1];
      FollowsToggles(prefix);
      AppliedMeansEverywhere(prefix);
      assert AllAccepted(evs) ==> AllAccepted(prefix);
      FollowStep(Run(Initial(), prefix), ev, LastToggle(prefix), AllAccepted(prefix), AllAccepted(evs));
    }
  }

  lemma FollowStep(s: Routing, ev: Event, r: Request, was: bool, accepted: bool)
    requires Sound(s) && Follows(s, r, was) && (was ==> NothingFailed(s))
    requires accepted ==> was && (ev.SetProxyDone? ==> ev.ok)
    ensures var n := Step(s, ev);
            && Follows(n, if ev.Toggle? then ev.request else r, accepted)
            && (accepted ==> NothingFailed(n))
  {
    hide Sound;
    match ev
    case SetProxyDone(sid, ok, left) => FollowSettled(s, sid, ok, left, r, was, accepted);
    case Begin => BeginsSound(s);
    case _ =>
  }

  lemma BeginsSound(s: Routing)
    requires Sound(s)
    ensures s.phase.Restoring? ==> s.routed
    ensures s.applied.Some? ==> s.routed
  {
  }

  lemma FollowSettled(s: Routing, sid: SessionId, ok: bool, left: Route, r: Request, was: bool, accepted: bool)
    requires Sound(s) && Follows(s, r, was) && (was ==> NothingFailed(s))
    requires accepted ==> was && ok
    ensures var n := Step(s, SetProxyDone(sid, ok, left)); Follows(n, r, accepted) && (accepted ==> NothingFailed(n))
  {
    match s.phase
    case OnMain(_) =>
    case OnExtras(_, _, _) =>
    case Restoring(_, _) =>
    case _ =>
  }

  // Overlapping toggles are queued, so once all is quiet the routing in force
  // is the newest toggle's, never an older and slower one's; it is exactly that
  // unless a session refused.
  lemma LastToggleWins(evs: seq<Event>)
    ensures var s := Run(Initial(), evs);
            s.phase.Idle? && s.queue == [] ==>
              && (s.applied.Some? ==> LastToggle(evs) == On(s.applied.value))
              && (AllAccepted(evs) ==> (LastToggle(evs).Off? <==> s.applied.None?))
  {
    FollowsToggles(evs);
  }

  // ------------------------------------------------------- the module's variables

  class TorRouter {
    var applied: Option<Proxy>
    var routed: bool
    var originalDispatcher: Option<Dispatcher>
    var applyQueue: seq<Request>
    var suspended: Phase
    // the egress paths themselves
    var dispatcher: Dispatcher
    var pool: Option<Proxy>
    var sessions: map<SessionId, Route>

    ghost function View(): Routing
      reads this
    {
      Routing(applied, routed, originalDispatcher, dispatcher, pool, sessions, applyQueue, suspended)
    }

    constructor ()
      ensures View() == Initial()
    {
      applied, routed, originalDispatcher := None, false, None;
      applyQueue, suspended := [], Idle;
      dispatcher, pool, sessions := Boot, None, map[MAIN := Direct];
    }

    function CurrentProxyConfig(): (r: Route)
      reads this
      ensures r == View().Current()
    {
      if applied.Some? then Via(applied.value) else Direct
    }

    method ApplyTorRouting(request: Request)
      modifies this`applyQueue
      ensures View() == Step(old(View()), Toggle(request))
    {
      applyQueue := applyQueue + [request];
    }

    // applyNow up to its first await.
    method ApplyNow()
      modifies this
      ensures View() == Step(old(View()), Begin)
    {
      if !suspended.Idle? || applyQueue == [] { return; }
      var request := applyQueue[0];
      applyQueue := applyQueue[1..];
      match request
      case Off =>
        if applied.Some? || routed {
          if originalDispatcher.Some? {
            dispatcher := originalDispatcher.value;
          }
          pool := None;
          suspended := Restoring(sessions.Keys, false);
        }
      case On(proxy) =>
        if applied != Some(proxy) {
          suspended := Probing(proxy);
        }
    }

    // The probe answered: the pool, the dispatcher, and then the main session.
    method AfterProbe()
      modifies this
      ensures View() == Step(old(View()), ProbeDone)
    {
      if !suspended.Probing? { return; }
      var proxy := suspended.proxy;
      routed := true;
      pool := Some(proxy);
      if originalDispatcher.None? {
        originalDispatcher := Some(dispatcher);
      }
      dispatcher := Socks(proxy);
      suspended := OnMain(proxy);
    }

    method AfterMainProxy(ok: bool, left: Route)
      requires suspended.OnMain?
      modifies this
      ensures View() == Step(old(View()), SetProxyDone(MAIN, ok, left))
    {
      var proxy := suspended.proxy;
      if !ok {
        sessions := sessions[MAIN := left];
        applied := None;
        suspended := Idle;
        return;
      }
      var extras := sessions.Keys - {MAIN};
      sessions := sessions[MAIN := Via(proxy)];
      applied := Some(proxy);
      suspended := if extras == {} then Idle else OnExtras(proxy, extras, false);
    }

    method AfterExtraProxy(sid: SessionId, ok: bool, left: Route)
      requires suspended.OnExtras? && sid in suspended.todo
      modifies this
      ensures View() == Step(old(View()), SetProxyDone(sid, ok, left))
    {
      var todo, failed := suspended.todo - {sid}, suspended.failed || !ok;
      sessions := sessions[sid := if ok then CurrentProxyConfig() else left];
      if todo != {} {
        suspended := OnExtras(suspended.proxy, todo, failed);
      } else {
        if failed {
          applied := None;
        }
        suspended := Idle;
      }
    }

    method AfterDirect(sid: SessionId, ok: bool, left: Route)
      requires suspended.Restoring? && sid in suspended.todo
      modifies this
      ensures View() == Step(old(View()), SetProxyDone(sid, ok, left))
    {
      var todo, failed := suspended.todo - {sid}, suspended.failed || !ok;
      sessions := sessions[sid := if ok then Direct else left];
      if todo != {} {
        suspended := Restoring(todo, failed);
      } else {
        routed := failed;
        applied := None;
        suspended := Idle;
      }
    }

    // A new session starts on the routing in force.
    method CreateSession(sid: SessionId)
      modifies this`sessions
      ensures View() == Step(old(View()), Created(sid))
    {
      if sid !in sessions {
        sessions := sessions[sid := CurrentProxyConfig()];
      }
    }
  }
}
