// What each step of the Tor routing does to each egress path, and what follows
// for every run: which steps move the pool and the dispatcher, that toggles are
// begun in the order given, and that a refusal skips no session.
module TorEffects {
  import opened Wrappers
  import opened TorRouting

  // ----------------------------------------------------------------- single steps

  predicate BeginsOff(s: Routing, ev: Event) {
    ev.Begin? && s.phase.Idle? && s.queue != [] && s.queue[0].Off? && (s.applied.Some? || s.routed)
  }

  predicate EndsProbe(s: Routing, ev: Event) {
    ev.ProbeDone? && s.phase.Probing?
  }

  // The SDK's pool and the global dispatcher are moved by the end of a probe,
  // to its proxy, and by the begin of an off, back to what they were; a refused
  // session moves neither.
  lemma PoolAndDispatcher(s: Routing, ev: Event)
    ensures var n := Step(s, ev);
            if EndsProbe(s, ev) then n.pool == Some(s.phase.proxy) && n.dispatcher == Socks(s.phase.proxy)
            else if BeginsOff(s, ev)
            then n.pool == None && n.dispatcher == match s.originalDispatcher
                                                   case None => s.dispatcher
                                                   case Some(d) => d
            else n.pool == s.pool && n.dispatcher == s.dispatcher
  {
  }

  // The first probe remembers the dispatcher it replaces, and nothing else
  // touches that memory.
  lemma OriginalKept(s: Routing, ev: Event)
    ensures Step(s, ev).originalDispatcher
         == if EndsProbe(s, ev) && s.originalDispatcher.None? then Some(s.dispatcher) else s.originalDispatcher
  {
  }

  // The sessions whose setProxy an apply still waits for.
  function Awaited(s: Routing): set<SessionId> {
    match s.phase
    case OnMain(_) => {MAIN}
    case OnExtras(_, todo, _) => todo
    case Restoring(todo, _) => todo
    case _ => {}
  }

  // What it asks of them.
  function Target(s: Routing): Route {
    match s.phase
    case OnMain(p) => Via(p)
    case Restoring(_, _) => Direct
    case _ => if s.applied.Some? then Via(s.applied.value) else Direct
  }

  predicate Settles(s: Routing, ev: Event) {
    ev.SetProxyDone? && ev.sid in Awaited(s)
  }

  // A session's route: what was asked for if it was accepted, whatever it was
  // left at if it was refused, the routing in force if it is new; any other
  // session's is as it was.
  lemma SessionRoutes(s: Routing, ev: Event, sid: SessionId)
    requires MAIN in s.sessions
    ensures var n := Step(s, ev);
            if Settles(s, ev) && ev.sid == sid
            then sid in n.sessions && n.sessions[sid] == if ev.ok then Target(s) else ev.left
            else if ev.Created? && ev.sid == sid && sid !in s.sessions
            then sid in n.sessions
                 && n.sessions[sid] == if s.applied.Some? then Via(s.applied.value) else Direct
            else (sid in n.sessions <==> sid in s.sessions)
                 && (sid in s.sessions ==> n.sessions[sid] == s.sessions[sid])
  {
    if ev.SetProxyDone? {
      if s.phase.OnMain? {
      } else if s.phase.OnExtras? {
      } else if s.phase.Restoring? {
      }
    }
  }

  // Where an apply goes on to. The main session's refusal ends it; any other
  // session's is remembered, and every session left is still waited for.
  lemma AppliesGoOn(s: Routing, ev: Event)
    ensures var n, extras := Step(s, ev), s.sessions.Keys - {0};
            && (EndsProbe(s, ev) ==> n.phase == OnMain(s.phase.proxy))
            && (Settles(s, ev) ==>
                  var rest := Awaited(s) - {ev.sid};
                  match s.phase
                  case OnMain(p) => n.phase == if ev.ok && extras != {} then OnExtras(p, extras, false) else Idle
                  case OnExtras(p, _, bad) => n.phase == if rest == {} then Idle else OnExtras(p, rest, bad || !ev.ok)
                  case Restoring(_, bad) => n.phase == if rest == {} then Idle else Restoring(rest, bad || !ev.ok)
                  case _ => true)
            && (!EndsProbe(s, ev) && !Settles(s, ev) && !ev.Begin? ==> n.phase == s.phase)
  {
  }

  // `applied` follows the main session, and reads off once any session of an
  // apply was refused or an off has been through them all; `routed` is set by
  // the end of a probe and follows the refusals of an off.
  lemma AppliedAndRouted(s: Routing, ev: Event)
    ensures var n, last := Step(s, ev), Settles(s, ev) && Awaited(s) == {ev.sid};
            && (n.applied
                == if Settles(s, ev) && s.phase.OnMain? then (if ev.ok then Some(s.phase.proxy) else None)
                   else if last && (s.phase.Restoring? || s.phase.failed || !ev.ok) then None
                   else s.applied)
            && (n.routed
                <==> if last && s.phase.Restoring? then s.phase.failed || !ev.ok
                     else s.routed || EndsProbe(s, ev))
  {
    if Settles(s, ev) {
      LastOne(Awaited(s), ev.sid);
    }
  }

  lemma LastOne(todo: set<SessionId>, sid: SessionId)
    requires sid in todo
    ensures todo - {sid} == {} <==> todo == {sid}
  {
    if todo - {sid} == {} {
      assert forall x | x in todo :: x == sid by {
        assert forall x | x in todo && x != sid :: x in todo - {sid};
      }
    }
  }

  // A toggle waits for its turn; a turn comes only with no apply running, and
  // starts an apply unless the routing already is what the toggle asks for.
  lemma TurnsAreTaken(s: Routing, ev: Event)
    ensures var n := Step(s, ev);
            && (ev.Toggle? ==> n == s.(queue := s.queue + [ev.request]))
            && (ev.Begin? && s.phase.Idle? && s.queue != [] ==>
                  && n.queue == s.queue[1..] && n.sessions == s.sessions
                  && n.phase == match s.queue[0]
                                case On(p) => if s.applied == Some(p) then Idle else Probing(p)
                                case Off =>
                                  if s.applied.Some? || s.routed then Restoring(s.sessions.Keys, false) else Idle)
            && (ev.Begin? && !(s.phase.Idle? && s.queue != []) ==> n == s)
            && (!ev.Toggle? && !ev.Begin? ==> n.queue == s.queue)
  {
  }

  // --------------------------------------------------------------------- whole runs

  predicate LeavesEgress(s: Routing, evs: seq<Event>) {
    forall k | 0 <= k < |evs| :: !EndsProbe(Run(s, evs[..k]), evs[k]) && !BeginsOff(Run(s, evs[..k]), evs[k])
  }

  lemma LeavesEgressSplits(s: Routing, evs: seq<Event>)
    requires evs != [] && LeavesEgress(s, evs)
    ensures var prefix, ev := evs[..|evs| - 1], evs[|evs| - 1];
            && LeavesEgress(s, prefix)
            && !EndsProbe(Run(s, prefix), ev) && !BeginsOff(Run(s, prefix), ev)
            && Run(s, evs) == Step(Run(s, prefix), ev)
  {
    hide EndsProbe, BeginsOff, Step;
    var prefix := evs[..|evs| - 1];
    forall k | 0 <= k < |prefix|
      ensures !EndsProbe(Run(s, prefix[..k]), prefix[k]) && !BeginsOff(Run(s, prefix[..k]), prefix[k])
    {
      assert prefix[..k] == evs[..k] && prefix[k] == evs[k];
    }
  }

  // From a probe for `p` until the next off begins or the next probe ends, and
  // whatever is refused meanwhile, the SDK and global fetch stay on `p`: no
  // failed apply puts them back on the open network.
  lemma {:induction false} NoRefusalFailsOpen(s: Routing, p: Proxy, evs: seq<Event>)
    requires s.phase == Probing(p) && LeavesEgress(Step(s, ProbeDone), evs)
    ensures var n := Run(Step(s, ProbeDone), evs); n.pool == Some(p) && n.dispatcher == Socks(p)
  {
    hide *;
    PoolAndDispatcher(s, ProbeDone);
    ProbeEnds(s, p);
    var t := Step(s, ProbeDone);
    if evs == [] {
      EmptyRun(t);
    } else {
      var prefix, ev := evs[..|evs| - 1], evs[|evs| - 1];
      LeavesEgressSplits(t, evs);
      NoRefusalFailsOpen(s, p, prefix);
      PoolAndDispatcher(Run(t, prefix), ev);
    }
  }

  lemma ProbeEnds(s: Routing, p: Proxy)
    requires s.phase == Probing(p)
    ensures EndsProbe(s, ProbeDone)
  {
  }

  lemma EmptyRun(s: Routing)
    ensures Run(s, []) == s
  {
  }

  // Was `sid` settled by a setProxy within `evs`?
  predicate Tried(evs: seq<Event>, sid: SessionId) {
    exists k | 0 <= k < |evs| :: evs[k].SetProxyDone? && evs[k].sid == sid
  }

  // One refusal never skips the rest: of the sessions an apply waits for, each
  // is tried or still waited for as long as the apply runs, and once it has
  // ended all were tried.
  lemma {:induction false} EverySessionTried(s: Routing, evs: seq<Event>)
    requires s.phase.OnExtras? || s.phase.Restoring?
    requires forall k | 0 <= k < |evs| :: !Run(s, evs[..k]).phase.Idle?
    ensures forall sid | sid in Awaited(s) :: Tried(evs, sid) || sid in Awaited(Run(s, evs))
    ensures Run(s, evs).phase.Idle? ==> forall sid | sid in Awaited(s) :: Tried(evs, sid)
    ensures !Run(s, evs).phase.Idle? ==> Run(s, evs).phase.OnExtras? || Run(s, evs).phase.Restoring?
  {
    if evs != [] {
      var prefix, ev := evs[..|evs| - 1], evs[|evs| - 1];
      forall k | 0 <= k < |prefix|
        ensures !Run(s, prefix[..k]).phase.Idle?
      {
        assert prefix[..k] == evs[..k];
      }
      EverySessionTried(s, prefix);
      var t := Run(s, prefix);
      assert evs[..|prefix|] == prefix;
      StillWaits(t, ev);
      forall sid | sid in Awaited(s)
        ensures Tried(evs, sid) || sid in Awaited(Step(t, ev))
      {
        TriedGrows(evs, sid);
      }
      hide Step, Awaited;
    }
  }

  lemma TriedGrows(evs: seq<Event>, sid: SessionId)
    requires evs != []
    ensures var prefix, ev := evs[..|evs| - 1], evs[|evs| - 1];
            Tried(evs, sid) <==> Tried(prefix, sid) || (ev.SetProxyDone? && ev.sid == sid)
  {
    var prefix := evs[..|evs| - 1];
    if k :| 0 <= k < |prefix| && prefix[k].SetProxyDone? && prefix[k].sid == sid {
      assert evs[k] == prefix[k];
    }
    if k :| 0 <= k < |evs| && evs[k].SetProxyDone? && evs[k].sid == sid {
      assert k < |prefix| ==> prefix[k] == evs[k];
    }
  }

  lemma StillWaits(t: Routing, ev: Event)
    requires t.phase.OnExtras? || t.phase.Restoring?
    ensures var n := Step(t, ev);
            && (n.phase.Idle? || n.phase.OnExtras? || n.phase.Restoring?)
            && Awaited(n) == (if Settles(t, ev) then Awaited(t) - {ev.sid} else Awaited(t))
            && (n.phase.Idle? ==> Awaited(n) == {})
  {
  }

  function Toggles(evs: seq<Event>): seq<Request> {
    if evs == [] then []
    else Toggles(evs[..|evs| - 1]) + if evs[|evs| - 1].Toggle? then [evs[|evs| - 1].request] else []
  }

  // The toggles that have had their turn, in the order of the turns.
  function Taken(s: Routing, evs: seq<Event>): seq<Request> {
    if evs == [] then []
    else
      var t, ev := Run(s, evs[..|evs| - 1]), evs[|evs| - 1];
      Taken(s, evs[..|evs| - 1]) + if ev.Begin? && t.phase.Idle? && t.queue != [] then [t.queue[0]] else []
  }

  lemma NothingTaken(s: Routing)
    ensures Taken(s, []) + Run(s, []).queue == s.queue + Toggles([])
  {
  }

  lemma OneMore(s: Routing, evs: seq<Event>)
    requires evs != []
    ensures var prefix, ev := evs[..|evs| - 1], evs[|evs| - 1];
            var t := Run(s, prefix);
            && Run(s, evs) == Step(t, ev)
            && Toggles(evs) == (if ev.Toggle? then Toggles(prefix) + [ev.request] else Toggles(prefix))
            && Taken(s, evs)
               == (if ev.Begin? && t.phase.Idle? && t.queue != [] then Taken(s, prefix) + [t.queue[0]]
                   else Taken(s, prefix))
  {
    hide Step;
  }

  lemma Appended<T>(a: seq<T>, b: seq<T>, c: seq<T>, d: seq<T>, x: T)
    requires a + b == c + d
    ensures a + (b + [x]) == c + (d + [x])
  {
    assert a + (b + [x]) == a + b + [x];
  }

  lemma HeadMoved<T>(a: seq<T>, b: seq<T>)
    requires b != []
    ensures a + [b[0]] + b[1..] == a + b
  {
  }

  // Toggles take their turns in the order given, and none is lost.
  lemma {:induction false} InOrder(s: Routing, evs: seq<Event>)
    ensures Taken(s, evs) + Run(s, evs).queue == s.queue + Toggles(evs)
  {
    hide *;
    if evs == [] {
      NothingTaken(s);
    } else {
      var prefix, ev := evs[..|evs| - 1], evs[|evs| - 1];
      InOrder(s, prefix);
      TurnsAreTaken(Run(s, prefix), ev);
      OneMore(s, evs);
      if ev.Toggle? {
        Appended(Taken(s, prefix), Run(s, prefix).queue, s.queue, Toggles(prefix), ev.request);
      } else if ev.Begin? && Run(s, prefix).phase.Idle? && Run(s, prefix).queue != [] {
        HeadMoved(Taken(s, prefix), Run(s, prefix).queue);
      }
    }
  }
}
