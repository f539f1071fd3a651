// What each step of the Trezor relay does to each request and to each window,
// and that no caller is left waiting on a window that has closed.
module TrezorEffects {
  import opened Wrappers
  import opened Text
  import opened TrezorBridge

  // --------------------------------------------------------------------- requests

  // A reply is a plain record with a request's number and either a result and
  // no error, or no result and an error text of 1 to 2000 characters.
  lemma ReplyValidIff(m: Message)
    ensures IsValidBridgeReply(m)
            <==> && m.record && m.id.Some?
                 && (exists n: nat :: 1 <= n < 1_000_000_000_000_000 && m.id.value == Digits(n))
                 && ((m.ok.True? && m.error.None?)
                     || (m.ok.False? && m.result.None?
                         && m.error.Some? && m.error.value.Some? && 1 <= |m.error.value.value| <= 2000))
  {
    if m.id.Some? {
      ReplyIdsAreRequestNumbers(m.id.value);
    }
    hide IsReplyId, Digits;
  }

  // A valid reply from the current, open window's own document, to a request
  // that waits on that window.
  predicate Replies(s: Bridge, ev: Event, id: string) {
    && ev.Reply? && ev.fromDocument && s.current == Some(ev.w)
    && ev.w < |s.wins| && s.wins[ev.w].life.Open?
    && IsValidBridgeReply(ev.m) && ev.m.id == Some(id)
    && id in s.pending && s.pending[id] == ev.w
  }

  // The first `closed` of the window a request waits on.
  predicate Closes(s: Bridge, ev: Event, id: string) {
    && ev.ClosedEvent? && ev.w < |s.wins| && !s.wins[ev.w].life.Closed?
    && id in s.pending && s.pending[id] == ev.w
  }

  // The window a step posts a new request to.
  function PostsTo(s: Bridge, ev: Event): Option<Win> {
    match ev
    case SendInit(w, _) =>
      if w < |s.wins| && s.wins[w].opening.Loaded? && s.wins[w].life.Open? then Some(w) else None
    case PostCall(_) =>
      if s.current.Some? && s.current.value < |s.wins| && s.wins[s.current.value].life.Open? then s.current else None
    case _ => None
  }

  predicate Posts(s: Bridge, ev: Event, id: string, sends: bool) {
    PostsTo(s, ev).Some? && ev.sends == sends && id == Digits(s.nextId)
  }

  // A request's promise resolves exactly by a reply to it, the close of its
  // window, or a send that threw; a reply resolves it to its own result or its
  // own error text, and anything else to the refusal for a closed bridge.
  lemma AnswerEffect(s: Bridge, ev: Event, id: string)
    ensures var n := Step(s, ev);
            && (id in n.answers
                <==> id in s.answers || Replies(s, ev, id) || Closes(s, ev, id) || Posts(s, ev, id, false))
            && (Replies(s, ev, id) ==>
                  n.answers[id] == if ev.m.ok.True? then Result(ev.m.result) else Failure(ev.m.error.value.value))
            && (Closes(s, ev, id) || Posts(s, ev, id, false) ==> n.answers[id] == BridgeClosed)
            && (id in s.answers && !Replies(s, ev, id) && !Closes(s, ev, id) && !Posts(s, ev, id, false) ==>
                  n.answers[id] == s.answers[id])
  {
    hide Digits, IsReplyId;
  }

  // A request waits on the window it was sent to until then.
  lemma PendingEffect(s: Bridge, ev: Event, id: string)
    ensures var n := Step(s, ev);
            && (id in n.pending
                <==> Posts(s, ev, id, true) || (id in s.pending && !Replies(s, ev, id) && !Closes(s, ev, id)))
            && (Posts(s, ev, id, true) ==> n.pending[id] == PostsTo(s, ev).value)
            && (id in n.pending && !Posts(s, ev, id, true) ==> n.pending[id] == s.pending[id])
  {
    hide Digits, IsReplyId, EnvelopeOf;
  }

  // Requests are numbered one after the other, from 1.
  lemma NumberEffect(s: Bridge, ev: Event)
    ensures Initial().nextId == 1 && Initial().issued == []
    ensures var n := Step(s, ev);
            if PostsTo(s, ev).Some? then n.nextId == s.nextId + 1 && n.issued == s.issued + [PostsTo(s, ev).value]
            else n.nextId == s.nextId && n.issued == s.issued
  {
    hide Digits, IsReplyId, EnvelopeOf;
  }

  // ----------------------------------------------------------------------- windows

  predicate OpensAnother(s: Bridge, ev: Event) {
    ev.EnsureReady? && !(s.current.Some? && s.ready.Some?)
  }

  predicate ReportsClosed(s: Bridge, ev: Event, w: Win) {
    ev.ClosedEvent? && ev.w == w && w < |s.wins| && !s.wins[w].life.Closed?
  }

  predicate GivesUp(s: Bridge, ev: Event, w: Win) {
    ev.GiveUp? && ev.w == w && w < |s.wins| && s.wins[w].opening.Rejected?
  }

  // One bridge at a time is current and being made ready; both are forgotten
  // when it closes, and the readiness also when its opening has failed.
  lemma CurrentAndReady(s: Bridge, ev: Event)
    ensures var n := Step(s, ev);
            var gone := s.current.Some? && ReportsClosed(s, ev, s.current.value);
            && n.current == (if OpensAnother(s, ev) then Some(|s.wins|) else if gone then None else s.current)
            && n.ready == (if OpensAnother(s, ev) then Some(|s.wins|)
                           else if gone || (s.ready.Some? && GivesUp(s, ev, s.ready.value)) then None
                           else s.ready)
            && |n.wins| == |s.wins| + (if OpensAnother(s, ev) then 1 else 0)
            && (OpensAnother(s, ev) ==> n.wins[|s.wins|] == Window(Open, Loading))
  {
    hide Digits, IsReplyId, EnvelopeOf;
  }

  // How far a window's opening has come.
  function NextOpening(s: Bridge, ev: Event, w: Win): Opening
    requires w < |s.wins|
  {
    var o, isOpen := s.wins[w].opening, s.wins[w].life.Open?;
    match o
    case Loading =>
      if ev.DocumentReady? && ev.w == w && ev.fromDocument && s.current == Some(w) && isOpen then Loaded
      else if ReportsClosed(s, ev, w) then Rejected
      else o
    case Loaded =>
      if !(ev.SendInit? && ev.w == w) then o else if isOpen then AwaitingInit(Digits(s.nextId)) else Rejected
    case AwaitingInit(id) =>
      if !(ev.InitDone? && ev.w == w && id in s.answers) then o
      else if s.answers[id].Result? then Initialized else Rejected
    case Rejected => if GivesUp(s, ev, w) then GivenUp else o
    case _ => o
  }

  function NextLife(s: Bridge, ev: Event, w: Win): Life
    requires w < |s.wins|
  {
    if ReportsClosed(s, ev, w) then Closed
    else if ev.Destroy? && ev.w == w && s.wins[w].life.Open? then Destroyed
    else s.wins[w].life
  }

  lemma WindowEffect(s: Bridge, ev: Event, w: Win)
    requires w < |s.wins|
    ensures var n := Step(s, ev);
            w < |n.wins| && n.wins[w].life == NextLife(s, ev, w) && n.wins[w].opening == NextOpening(s, ev, w)
  {
    hide *;
    match ev
    case SendInit(_, _) => WindowSends(s, ev, w);
    case ClosedEvent(_) => WindowCloses(s, ev, w);
    case InitDone(_) => WindowContinues(s, ev, w);
    case GiveUp(_) => WindowContinues(s, ev, w);
    case _ => WindowOther(s, ev, w);
  }

  lemma WindowSends(s: Bridge, ev: Event, w: Win)
    requires w < |s.wins| && ev.SendInit?
    ensures var n := Step(s, ev);
            w < |n.wins| && n.wins[w].life == NextLife(s, ev, w) && n.wins[w].opening == NextOpening(s, ev, w)
  {
    hide Digits;
  }

  lemma WindowCloses(s: Bridge, ev: Event, w: Win)
    requires w < |s.wins| && ev.ClosedEvent?
    ensures var n := Step(s, ev);
            w < |n.wins| && n.wins[w].life == NextLife(s, ev, w) && n.wins[w].opening == NextOpening(s, ev, w)
  {
    hide Digits;
  }

  lemma WindowContinues(s: Bridge, ev: Event, w: Win)
    requires w < |s.wins| && (ev.InitDone? || ev.GiveUp?)
    ensures var n := Step(s, ev);
            w < |n.wins| && n.wins[w].life == NextLife(s, ev, w) && n.wins[w].opening == NextOpening(s, ev, w)
  {
    hide Digits;
  }

  lemma WindowOther(s: Bridge, ev: Event, w: Win)
    requires w < |s.wins|
    requires !ev.SendInit? && !ev.ClosedEvent? && !ev.InitDone? && !ev.GiveUp?
    ensures var n := Step(s, ev);
            w < |n.wins| && n.wins[w].life == NextLife(s, ev, w) && n.wins[w].opening == NextOpening(s, ev, w)
  {
    hide Digits, IsReplyId, EnvelopeOf, Bridge.Matches;
  }

  // ------------------------------------------------------------ nobody waits for ever

  // The opening of a closed window has come to an end, or only its own
  // continuations are left to run: its load has failed, and a request its
  // opening waits for is answered.
  predicate ClosedIsOver(s: Bridge, w: Win) {
    w < |s.wins| && s.wins[w].life.Closed? ==>
      && !s.wins[w].opening.Loading?
      && (s.wins[w].opening.AwaitingInit? ==> s.wins[w].opening.id in s.answers)
  }

  lemma NobodyWaitsOnClosed(evs: seq<Event>, w: Win)
    ensures ClosedIsOver(Run(Initial(), evs), w)
  {
    hide *;
    var s := Run(Initial(), evs);
    RunAccounted(evs);
    InitializedMeansAnswered(evs, w);
    LoadEnds(evs, w);
    AwaitedIsAnswered(s, w);
    OverIs(s, w);
  }

  predicate LoadOver(s: Bridge, w: Win) {
    w < |s.wins| && s.wins[w].life.Closed? ==> !s.wins[w].opening.Loading?
  }

  predicate AwaitOver(s: Bridge, w: Win) {
    w < |s.wins| && s.wins[w].life.Closed? && s.wins[w].opening.AwaitingInit? ==>
      s.wins[w].opening.id in s.answers
  }

  lemma OverIs(s: Bridge, w: Win)
    requires LoadOver(s, w) && AwaitOver(s, w)
    ensures ClosedIsOver(s, w)
  {
  }

  lemma {:induction false} LoadEnds(evs: seq<Event>, w: Win)
    ensures LoadOver(Run(Initial(), evs), w)
  {
    if evs == [] {
    } else {
      LoadEnds(evs[..|evs| - 1], w);
      LoadStep(Run(Initial(), evs[..|evs| - 1]), evs[|evs| - 1], w);
      hide Step;
    }
  }

  lemma LoadStep(s: Bridge, ev: Event, w: Win)
    requires LoadOver(s, w)
    ensures LoadOver(Step(s, ev), w)
  {
    CurrentAndReady(s, ev);
    if w < |s.wins| {
      WindowEffect(s, ev, w);
    }
    hide Step, Digits;
  }

  lemma AwaitedIsAnswered(s: Bridge, w: Win)
    requires Accounted(s) && LiveOnly(s) && InitHonest(s)
    ensures AwaitOver(s, w)
  {
    hide Digits, RequestId;
    if w < |s.wins| && s.wins[w].life.Closed? && s.wins[w].opening.AwaitingInit? {
      var id := s.wins[w].opening.id;
      assert SentInit(s, w, id);
      var k :| 0 <= k < |s.issued| && id == RequestId(k) && s.issued[k] == w;
    }
  }
}
