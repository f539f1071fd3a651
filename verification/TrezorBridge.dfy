// The Trezor Connect relay: packages/desktop/main/trezorBridgeWindow.js.
// Requests go out to a bridge window and come back as replies; a window may be
// destroyed at any point, a second one may open before the first reports
// closed, and the promise continuations run as steps of their own.
module TrezorBridge {
  import opened Wrappers
  import opened Text

  // ------------------------------------------------------------------ reply ids

  const ID_LIMIT := 1_000_000_000_000_000

  // REPLY_ID_PATTERN.
  predicate IsReplyId(s: string) {
    1 <= |s| <= 15 && All(s, IsDigit) && s[0] != '0'
  }

  lemma {:induction false} ValueDigits(s: string)
    requires |s| >= 1 && All(s, IsDigit) && s[0] != '0'
    ensures ValueOf(s) >= 1 && Digits(ValueOf(s)) == s
  {
    var front, last := s[..|s| - 1], (s[|s| - 1] - '0') as nat;
    if front == [] {
      assert ValueOf(s) == last;
    } else {
      ValueDigits(front);
      assert ValueOf(s) / 10 == ValueOf(front) && ValueOf(s) % 10 == last;
      assert s == front + [s[|s| - 1]];
    }
  }

  lemma {:induction false} Pow10Grows(a: nat, b: nat)
    requires a <= b
    ensures Pow10(a) <= Pow10(b)
  {
    if a < b {
      Pow10Grows(a, b - 1);
    }
  }

  lemma Pow10Of15()
    ensures Pow10(15) == ID_LIMIT
  {
    assert Pow10(5) == 100_000;
    assert Pow10(10) == 100_000 * Pow10(5);
    assert Pow10(15) == 100_000 * Pow10(10);
  }

  // The pattern accepts exactly the numbers of the first 10^15 - 1 requests,
  // each in the one spelling the relay writes.
  lemma ReplyIdsAreRequestNumbers(s: string)
    ensures IsReplyId(s) <==> exists n: nat :: 1 <= n < ID_LIMIT && s == Digits(n)
  {
    if IsReplyId(s) {
      ReplyIdNumbers(s);
    }
    if n: nat :| 1 <= n < ID_LIMIT && s == Digits(n) {
      NumberIsReplyId(n);
    }
    hide Digits, IsReplyId;
  }

  lemma ReplyIdNumbers(s: string)
    requires IsReplyId(s)
    ensures 1 <= ValueOf(s) < ID_LIMIT && s == Digits(ValueOf(s))
  {
    ValueDigits(s);
    DigitsValue(ValueOf(s));
    Pow10Grows(|s|, 15);
    Pow10Of15();
    hide Pow10, Digits, ValueOf;
  }

  lemma NumberIsReplyId(n: nat)
    requires 1 <= n < ID_LIMIT
    ensures IsReplyId(Digits(n))
  {
    DigitsValue(n);
    Pow10Of15();
    hide Pow10, Digits, ValueOf;
    if |Digits(n)| > 15 {
      Pow10Grows(15, |Digits(n)| - 1);
    }
  }

  lemma DigitsInjective(m: nat, n: nat)
    requires Digits(m) == Digits(n)
    ensures m == n
  {
    DigitsValue(m);
    DigitsValue(n);
  }

  // --------------------------------------------------------------------- replies

  datatype Flag = True | False | Other

  // A message on the reply channel. `record`: a plain object with no key
  // besides these four. `id` is None when it is not a string; `error` is
  // Some(None) when it is present and not a string.
  datatype Message = Message(record: bool, id: Option<string>, ok: Flag, result: Option<string>,
      error: Option<Option<string>>)

  const REPLY_ERROR_MAX_LENGTH := 2000

  predicate IsValidBridgeReply(m: Message) {
    && m.record && m.id.Some? && IsReplyId(m.id.value)
    && match m.ok
       case True => m.error.None?
       case False => m.result.None? && m.error.Some? && m.error.value.Some?
           && 0 < |m.error.value.value| <= REPLY_ERROR_MAX_LENGTH
       case Other => false
  }

  // The envelope a request's promise resolves to.
  datatype Envelope = Result(result: Option<string>) | Failure(error: string) | BridgeClosed

  function EnvelopeOf(m: Message): Envelope
    requires IsValidBridgeReply(m)
  {
    if m.ok.True? then Result(m.result) else Failure(m.error.value.value)
  }

  // ----------------------------------------------------------------- the protocol

  function AllClosed(ids: set<string>): map<string, Envelope> {
    map id | id in ids :: BridgeClosed
  }

  type Win = nat

  // Destroyed: isDestroyed() already holds, `closed` has not been delivered.
  datatype Life = Open | Destroyed | Closed

  // How far the promise made by ensureReady for this window has come. A
  // rejected one still has its catch handler to run.
  datatype Opening = Loading | Loaded | AwaitingInit(id: string) | Initialized | Rejected | GivenUp

  datatype Window = Window(life: Life, opening: Opening)

  datatype Bridge = Bridge(
    current: Option<Win>,
    ready: Option<Win>,
    pending: map<string, Win>,
    nextId: nat,
    wins: seq<Window>,
    // what each request's promise has resolved to
    answers: map<string, Envelope>,
    // the window each request was sent to, in order
    issued: seq<Win>
  ) {
    function WithOpening(w: Win, o: Opening): Bridge
      requires w < |wins|
    {
      this.(wins := wins[w := wins[w].(opening := o)])
    }

    predicate Accepts(w: Win) {
      w < |wins| && wins[w].life.Open?
    }

    // post, once the window is known to be there.
    function Posted(w: Win, sends: bool): Bridge {
      var id := Digits(nextId);
      var s := this.(nextId := nextId + 1, issued := issued + [w]);
      if sends then s.(pending := pending[id := w]) else s.(answers := answers[id := BridgeClosed])
    }

    predicate Matches(w: Win, fromDocument: bool, m: Message) {
      && current == Some(w) && Accepts(w) && fromDocument
      && IsValidBridgeReply(m)
      && m.id.value in pending && pending[m.id.value] == w
    }

    function Answered(m: Message): Bridge
      requires IsValidBridgeReply(m)
    {
      this.(pending := pending - {m.id.value}, answers := answers[m.id.value := EnvelopeOf(m)])
    }

    function SentTo(w: Win): set<string> {
      set id | id in pending && pending[id] == w
    }

    function WindowSettled(w: Win): Bridge {
      this.(pending := pending - SentTo(w), answers := answers + AllClosed(SentTo(w)))
    }

    function WindowClosed(w: Win): Bridge
      requires w < |wins|
    {
      var opening := if wins[w].opening.Loading? then Rejected else wins[w].opening;
      var s := this.(wins := wins[w := Window(Closed, opening)]);
      (if current == Some(w) then s.(current := None, ready := None) else s).WindowSettled(w)
    }

    function InitContinued(w: Win): Bridge
      requires w < |wins| && wins[w].opening.AwaitingInit?
    {
      var id := wins[w].opening.id;
      if id !in answers then this
      else WithOpening(w, if answers[id].Result? then Initialized else Rejected)
    }
  }

  // The id of the k-th request, counting from 0.
  function RequestId(k: nat): string {
    Digits(k + 1)
  }

  datatype Event =
    // a call arrives and asks for a ready bridge
    | EnsureReady
    // the window reports its document ready; `fromDocument`: from its own top
    // frame at the bridge document
    | DocumentReady(w: Win, fromDocument: bool)
    // the promise continuations of ensureReady
    | SendInit(w: Win, sends: bool)
    | InitDone(w: Win)
    | GiveUp(w: Win)
    // a call whose bridge is ready posts to the current window
    | PostCall(sends: bool)
    | Reply(w: Win, fromDocument: bool, m: Message)
    // closeWindow, the user, or a crash; and the event that follows
    | Destroy(w: Win)
    | ClosedEvent(w: Win)

  function Step(s: Bridge, ev: Event): Bridge {
    match ev
    case EnsureReady =>
      if s.current.Some? && s.ready.Some? then s
      else s.(wins := s.wins + [Window(Open, Loading)], current := Some(|s.wins|), ready := Some(|s.wins|))
    case DocumentReady(w, fromDocument) =>
      if s.current == Some(w) && s.Accepts(w) && fromDocument && s.wins[w].opening.Loading?
      then s.WithOpening(w, Loaded) else s
    case SendInit(w, sends) =>
      if !(w < |s.wins| && s.wins[w].opening.Loaded?) then s
      else if s.Accepts(w) then s.Posted(w, sends).WithOpening(w, AwaitingInit(Digits(s.nextId)))
      else s.WithOpening(w, Rejected)
    case InitDone(w) =>
      if w < |s.wins| && s.wins[w].opening.AwaitingInit? then s.InitContinued(w) else s
    case GiveUp(w) =>
      if w < |s.wins| && s.wins[w].opening.Rejected?
      then s.WithOpening(w, GivenUp).(ready := if s.ready == Some(w) then None else s.ready) else s
    case PostCall(sends) =>
      if s.current.Some? && s.Accepts(s.current.value) then s.Posted(s.current.value, sends) else s
    case Reply(w, fromDocument, m) =>
      if s.Matches(w, fromDocument, m) then s.Answered(m) else s
    case Destroy(w) =>
      if s.Accepts(w) then s.(wins := s.wins[w := s.wins[w].(life := Destroyed)]) else s
    case ClosedEvent(w) =>
      if w < |s.wins| && !s.wins[w].life.Closed? then s.WindowClosed(w) else s
  }

  function Initial(): Bridge {
    Bridge(None, None, map[], 1, [], map[], [])
  }

  function Run(s: Bridge, evs: seq<Event>): Bridge {
    if evs == [] then s else Step(Run(s, evs[..|evs| - 1]), evs[|evs| - 1])
  }

  // ----------------------------------------------------- every request, exactly once

  predicate IsRequest(s: Bridge, id: string) {
    exists k | 0 <= k < |s.issued| :: id == RequestId(k)
  }

  // The ids handed out so far are split between those waiting and those
  // answered; a waiting one waits on the window it was sent to.
  ghost predicate Accounted(s: Bridge) {
    && |s.issued| + 1 == s.nextId
    && (forall k | 0 <= k < |s.issued| ::
          if RequestId(k) in s.pending then RequestId(k) !in s.answers && s.pending[RequestId(k)] == s.issued[k]
          else RequestId(k) in s.answers)
    && (forall id | id in s.pending || id in s.answers :: IsRequest(s, id))
  }

  // Nothing waits on a window that has reported closed, and what is current or
  // ready has not.
  predicate LiveOnly(s: Bridge) {
    && (forall id | id in s.pending :: s.pending[id] < |s.wins| && !s.wins[s.pending[id]].life.Closed?)
    && (s.current.Some? ==> s.current.value < |s.wins| && !s.wins[s.current.value].life.Closed?)
    && (s.ready.Some? ==> s.ready == s.current)
  }

  lemma NextIdIsFresh(s: Bridge)
    requires Accounted(s)
    ensures Digits(s.nextId) !in s.pending && Digits(s.nextId) !in s.answers
    ensures forall k | 0 <= k < |s.issued| :: RequestId(k) != Digits(s.nextId)
  {
    forall k | 0 <= k < |s.issued|
      ensures RequestId(k) != Digits(s.nextId)
    {
      if RequestId(k) == Digits(s.nextId) {
        DigitsInjective(k + 1, s.nextId);
      }
    }
  }

  lemma PostAccounted(s: Bridge, w: Win, sends: bool)
    requires Accounted(s)
    ensures Accounted(s.Posted(w, sends))
  {
    NextIdIsFresh(s);
    assert Digits(s.nextId) == RequestId(|s.issued|);
    hide Digits, RequestId;
    var n := s.Posted(w, sends);
    assert n.issued[..|s.issued|] == s.issued;
    forall id | id in n.pending || id in n.answers
      ensures IsRequest(n, id)
    {
      if id in s.pending || id in s.answers {
        StaysRequest(s, n, id);
      } else {
        assert id == RequestId(|s.issued|);
      }
    }
  }

  lemma StaysRequest(s: Bridge, n: Bridge, id: string)
    requires IsRequest(s, id) && s.issued <= n.issued
    ensures IsRequest(n, id)
  {
    hide RequestId;
    var k :| 0 <= k < |s.issued| && id == RequestId(k);
    assert 0 <= k < |n.issued|;
  }

  lemma AnswerAccounted(s: Bridge, m: Message)
    requires Accounted(s) && IsValidBridgeReply(m) && m.id.value in s.pending
    ensures Accounted(s.Answered(m))
  {
    hide Digits, RequestId, IsReplyId, EnvelopeOf;
    var n := s.Answered(m);
    forall id | id in n.pending || id in n.answers
      ensures IsRequest(n, id)
    {
      StaysRequest(s, n, id);
    }
  }

  lemma SettleAccounted(s: Bridge, w: Win)
    requires Accounted(s)
    ensures Accounted(s.WindowSettled(w))
  {
    hide Digits, RequestId;
    var n := s.WindowSettled(w);
    forall id | id in n.pending || id in n.answers
      ensures IsRequest(n, id)
    {
      StaysRequest(s, n, id);
    }
  }

  lemma SameRequestsAccounted(s: Bridge, n: Bridge)
    requires Accounted(s)
    requires n.issued == s.issued && n.nextId == s.nextId && n.pending == s.pending && n.answers == s.answers
    ensures Accounted(n)
  {
    hide Digits, RequestId;
    assert forall id | IsRequest(s, id) :: IsRequest(n, id);
  }

  lemma AccountedStep(s: Bridge, ev: Event)
    requires Accounted(s)
    ensures Accounted(Step(s, ev))
  {
    hide Accounted, RequestId, Digits, IsValidBridgeReply;
    match ev
    case SendInit(w, sends) =>
      if w < |s.wins| && s.wins[w].opening.Loaded? && s.Accepts(w) {
        PostAccounted(s, w, sends);
        SameRequestsAccounted(s.Posted(w, sends), Step(s, ev));
      } else {
        SameRequestsAccounted(s, Step(s, ev));
      }
    case PostCall(sends) =>
      if s.current.Some? {
        PostAccounted(s, s.current.value, sends);
      }
    case Reply(w, fromDocument, m) =>
      if s.Matches(w, fromDocument, m) {
        AnswerAccounted(s, m);
      }
    case ClosedEvent(w) =>
      if w < |s.wins| && !s.wins[w].life.Closed? {
        SettleAccounted(s, w);
        SameRequestsAccounted(s.WindowSettled(w), Step(s, ev));
      }
    case _ =>
      SameRequestsAccounted(s, Step(s, ev));
  }

  lemma LiveOnlyStep(s: Bridge, ev: Event)
    requires LiveOnly(s)
    ensures LiveOnly(Step(s, ev))
  {
    hide *;
    match ev
    case SendInit(w, sends) => LiveSendInit(s, w, sends);
    case PostCall(sends) =>
      LiveCall(s, sends);
    case Reply(w, fromDocument, m) => LiveReply(s, w, fromDocument, m);
    case ClosedEvent(w) => LiveClose(s, w);
    case _ => LiveWindows(s, ev);
  }

  lemma LivePost(s: Bridge, w: Win, sends: bool)
    requires LiveOnly(s) && s.Accepts(w)
    ensures LiveOnly(s.Posted(w, sends))
  {
    hide Digits;
  }

  // Only the opening of a window, or the destruction of one, or a new one.
  lemma LiveWindows(s: Bridge, ev: Event)
    requires LiveOnly(s)
    requires ev.EnsureReady? || ev.DocumentReady? || ev.InitDone? || ev.GiveUp? || ev.Destroy?
    ensures LiveOnly(Step(s, ev))
  {
  }

  lemma LiveOpening(s: Bridge, w: Win, o: Opening)
    requires LiveOnly(s) && w < |s.wins|
    ensures LiveOnly(s.WithOpening(w, o))
  {
  }

  lemma LiveSendInit(s: Bridge, w: Win, sends: bool)
    requires LiveOnly(s)
    ensures LiveOnly(Step(s, SendInit(w, sends)))
  {
    hide LiveOnly, Digits;
    if w < |s.wins| && s.wins[w].opening.Loaded? {
      if s.Accepts(w) {
        LivePost(s, w, sends);
        LiveOpening(s.Posted(w, sends), w, AwaitingInit(Digits(s.nextId)));
      } else {
        LiveOpening(s, w, Rejected);
      }
    }
  }

  lemma LiveCall(s: Bridge, sends: bool)
    requires LiveOnly(s)
    ensures LiveOnly(Step(s, PostCall(sends)))
  {
    hide LiveOnly, Digits;
    if s.current.Some? && s.Accepts(s.current.value) {
      LivePost(s, s.current.value, sends);
    }
  }

  lemma LiveReply(s: Bridge, w: Win, fromDocument: bool, m: Message)
    requires LiveOnly(s)
    ensures LiveOnly(Step(s, Reply(w, fromDocument, m)))
  {
    hide IsValidBridgeReply, EnvelopeOf;
  }

  lemma LiveClose(s: Bridge, w: Win)
    requires LiveOnly(s)
    ensures LiveOnly(Step(s, ClosedEvent(w)))
  {
    if w < |s.wins| && !s.wins[w].life.Closed? {
      assert forall id | id in s.pending && id !in s.SentTo(w) :: s.pending[id] != w;
    }
  }

  // How a request may come to be settled in one step.
  predicate SettledBy(s: Bridge, ev: Event, id: string) {
    || (id in s.pending
        && ((ev.ClosedEvent? && ev.w == s.pending[id])
            || (ev.Reply? && ev.w == s.pending[id] && ev.m.id == Some(id) && s.Matches(ev.w, ev.fromDocument, ev.m))))
    // or it was never sent: the send itself threw
    || ((ev.PostCall? || ev.SendInit?) && !ev.sends && id == Digits(s.nextId))
  }

  predicate KeepsAnswers(s: Bridge, n: Bridge) {
    forall id | id in s.answers :: id in n.answers && n.answers[id] == s.answers[id]
  }

  predicate NewlySettled(s: Bridge, n: Bridge, ev: Event) {
    forall id | id in n.answers && id !in s.answers :: SettledBy(s, ev, id)
  }

  // In every run each issued request is either waiting on the window it was
  // sent to or settled, never both; a step settles only requests that were not
  // settled yet, and only by a valid reply from that window, that window's
  // close, or a send that threw; and an answer never changes.
  lemma SettledOnce(evs: seq<Event>, ev: Event)
    ensures var s, n := Run(Initial(), evs), Step(Run(Initial(), evs), ev);
            Accounted(s) && NewlySettled(s, n, ev) && KeepsAnswers(s, n)
  {
    hide *;
    RunAccounted(evs);
    OneStepSettles(Run(Initial(), evs), ev);
  }

  lemma {:induction false} RunAccounted(evs: seq<Event>)
    ensures Accounted(Run(Initial(), evs)) && LiveOnly(Run(Initial(), evs))
  {
    hide Step, Digits, RequestId;
    if evs != [] {
      hide Accounted, LiveOnly;
      RunAccounted(evs[..|evs| - 1]);
      AccountedStep(Run(Initial(), evs[..|evs| - 1]), evs[|evs| - 1]);
      LiveOnlyStep(Run(Initial(), evs[..|evs| - 1]), evs[|evs| - 1]);
    }
  }

  lemma PendingUnanswered(s: Bridge, id: string)
    requires Accounted(s) && id in s.pending
    ensures id !in s.answers
  {
    hide Digits, RequestId;
  }

  lemma OneStepSettles(s: Bridge, ev: Event)
    requires Accounted(s)
    ensures NewlySettled(s, Step(s, ev), ev) && KeepsAnswers(s, Step(s, ev))
  {
    hide *;
    match ev
    case ClosedEvent(w) => CloseSettles(s, w);
    case Reply(w, fromDocument, m) => ReplySettles(s, w, fromDocument, m);
    case SendInit(_, _) => PostSettles(s, ev);
    case PostCall(_) => PostSettles(s, ev);
    case _ => NothingSettles(s, ev);
  }

  lemma NothingSettles(s: Bridge, ev: Event)
    requires ev.EnsureReady? || ev.DocumentReady? || ev.InitDone? || ev.GiveUp? || ev.Destroy?
    ensures NewlySettled(s, Step(s, ev), ev) && KeepsAnswers(s, Step(s, ev))
  {
    hide SettledBy;
    assert Step(s, ev).answers == s.answers;
  }

  lemma PostSettles(s: Bridge, ev: Event)
    requires Accounted(s) && (ev.PostCall? || ev.SendInit?)
    ensures NewlySettled(s, Step(s, ev), ev) && KeepsAnswers(s, Step(s, ev))
  {
    NextIdIsFresh(s);
    var n := Step(s, ev);
    assert n.answers == s.answers || (!ev.sends && n.answers == s.answers[Digits(s.nextId) := BridgeClosed]) by {
      hide Digits, Accounted;
    }
    hide Step, Digits, Accounted;
  }

  lemma ReplySettles(s: Bridge, w: Win, fromDocument: bool, m: Message)
    requires Accounted(s)
    ensures var ev := Reply(w, fromDocument, m); NewlySettled(s, Step(s, ev), ev) && KeepsAnswers(s, Step(s, ev))
  {
    hide Accounted, IsReplyId, EnvelopeOf, Digits;
    if s.Matches(w, fromDocument, m) {
      PendingUnanswered(s, m.id.value);
    }
  }

  lemma CloseSettles(s: Bridge, w: Win)
    requires Accounted(s)
    ensures var ev := ClosedEvent(w); NewlySettled(s, Step(s, ev), ev) && KeepsAnswers(s, Step(s, ev))
  {
    var ev, n := ClosedEvent(w), Step(s, ClosedEvent(w));
    assert n.answers == s.answers || n.answers == s.answers + AllClosed(s.SentTo(w)) by {
      hide Accounted;
    }
    hide Step, Digits, Accounted;
    forall id | id in s.SentTo(w)
      ensures id !in s.answers
    {
      PendingUnanswered(s, id);
    }
  }

  // After a window's `closed` step nothing is pending on it, ever again.
  lemma NothingOutlivesItsWindow(evs: seq<Event>, w: Win, later: seq<Event>)
    requires w < |Run(Initial(), evs).wins|
    ensures var s := Run(Step(Run(Initial(), evs), ClosedEvent(w)), later);
            forall id | id in s.pending :: s.pending[id] != w
  {
    hide *;
    RunAccounted(evs);
    LiveOnlyStep(Run(Initial(), evs), ClosedEvent(w));
    ClosedNow(Run(Initial(), evs), w);
    ClosedStays(Step(Run(Initial(), evs), ClosedEvent(w)), w, later);
    NothingOnClosed(Run(Step(Run(Initial(), evs), ClosedEvent(w)), later), w);
  }

  lemma ClosedNow(s: Bridge, w: Win)
    requires w < |s.wins|
    ensures var n := Step(s, ClosedEvent(w)); w < |n.wins| && n.wins[w].life.Closed?
  {
  }

  lemma NothingOnClosed(s: Bridge, w: Win)
    requires LiveOnly(s) && w < |s.wins| && s.wins[w].life.Closed?
    ensures forall id | id in s.pending :: s.pending[id] != w
  {
  }

  lemma {:induction false} ClosedStays(s: Bridge, w: Win, evs: seq<Event>)
    requires LiveOnly(s) && w < |s.wins| && s.wins[w].life.Closed?
    ensures var n := Run(s, evs);
            LiveOnly(n) && w < |n.wins| && n.wins[w].life.Closed?
  {
    if evs != [] {
      ClosedStays(s, w, evs[..|evs| - 1]);
      LiveOnlyStep(Run(s, evs[..|evs| - 1]), evs[|evs| - 1]);
      ClosedStep(Run(s, evs[..|evs| - 1]), w, evs[|evs| - 1]);
      hide Step, LiveOnly;
    }
  }

  lemma ClosedStep(s: Bridge, w: Win, ev: Event)
    requires w < |s.wins| && s.wins[w].life.Closed?
    ensures var n := Step(s, ev);
            w < |n.wins| && n.wins[w].life.Closed?
  {
    hide Digits, IsReplyId;
  }

  // Whatever a window that is no longer current does (its document, its
  // replies, its failed opening, its destruction, its close), the current
  // window, its readiness and every request waiting on another window are as
  // they were.
  lemma StaleWindowIsHarmless(s: Bridge, ev: Event, w: Win)
    requires LiveOnly(s) && s.current != Some(w)
    requires ev.DocumentReady? || ev.InitDone? || ev.GiveUp? || ev.Reply? || ev.Destroy? || ev.ClosedEvent?
    requires ev.w == w
    ensures var n := Step(s, ev);
            && n.current == s.current && n.ready == s.ready
            && (forall id | id in s.pending && s.pending[id] != w :: id in n.pending && n.pending[id] == s.pending[id])
            && (forall id | id in n.pending :: id in s.pending)
            && |n.wins| == |s.wins| && (forall v: Win | v < |s.wins| && v != w :: n.wins[v] == s.wins[v])
  {
    hide Digits, RequestId, IsReplyId;
    if ev.Reply? {
      assert Step(s, ev) == s;
    }
  }

  // A window waits for the answer to a request that was sent to it.
  predicate InitHonest(s: Bridge) {
    forall w: Win | w < |s.wins| && s.wins[w].opening.AwaitingInit? :: SentInit(s, w, s.wins[w].opening.id)
  }

  predicate SentInit(s: Bridge, w: Win, id: string) {
    exists k | 0 <= k < |s.issued| :: id == RequestId(k) && s.issued[k] == w
  }

  lemma IssuesGrow(s: Bridge, ev: Event)
    ensures s.issued <= Step(s, ev).issued
  {
    hide Digits, IsValidBridgeReply, EnvelopeOf;
  }

  lemma StaysSent(s: Bridge, n: Bridge, w: Win, id: string)
    requires SentInit(s, w, id) && s.issued <= n.issued
    ensures SentInit(n, w, id)
  {
    hide RequestId;
    var k :| 0 <= k < |s.issued| && id == RequestId(k) && s.issued[k] == w;
    assert n.issued[k] == w;
  }

  // Where a window that waits after a step comes from.
  lemma AwaitingFrom(s: Bridge, ev: Event, w: Win)
    requires w < |Step(s, ev).wins| && Step(s, ev).wins[w].opening.AwaitingInit?
    ensures var n := Step(s, ev);
            || (w < |s.wins| && s.wins[w].opening == n.wins[w].opening)
            || (n.issued == s.issued + [w] && n.wins[w].opening.id == Digits(s.nextId))
  {
    hide Digits, IsValidBridgeReply, EnvelopeOf;
    match ev
    case SendInit(_, _) =>
    case ClosedEvent(_) =>
    case _ =>
  }

  // Where an initialised window comes from.
  lemma InitializedFrom(s: Bridge, ev: Event, w: Win)
    requires w < |Step(s, ev).wins| && Step(s, ev).wins[w].opening.Initialized?
    ensures w < |s.wins|
    ensures var o := s.wins[w].opening;
            o.Initialized? || (o.AwaitingInit? && o.id in s.answers && s.answers[o.id].Result?)
  {
    hide Digits, IsValidBridgeReply, EnvelopeOf;
    match ev
    case InitDone(_) =>
    case ClosedEvent(_) =>
    case _ =>
  }

  lemma InitHonestStep(s: Bridge, ev: Event)
    requires Accounted(s) && InitHonest(s)
    ensures InitHonest(Step(s, ev))
  {
    var n := Step(s, ev);
    assert Digits(s.nextId) == RequestId(|s.issued|) by {
      hide Digits;
    }
    hide Step, Digits, RequestId, Accounted;
    IssuesGrow(s, ev);
    forall w: Win | w < |n.wins| && n.wins[w].opening.AwaitingInit?
      ensures SentInit(n, w, n.wins[w].opening.id)
    {
      AwaitingFrom(s, ev, w);
      if w < |s.wins| && s.wins[w].opening == n.wins[w].opening {
        StaysSent(s, n, w, s.wins[w].opening.id);
      } else {
        assert n.issued[|s.issued|] == w;
      }
    }
  }

  // Some request sent to the window was answered with a result.
  predicate InitAnswered(s: Bridge, w: Win) {
    exists k | 0 <= k < |s.issued| ::
      s.issued[k] == w && RequestId(k) in s.answers && s.answers[RequestId(k)].Result?
  }

  lemma StaysAnswered(s: Bridge, n: Bridge, w: Win)
    requires InitAnswered(s, w) && s.issued <= n.issued && KeepsAnswers(s, n)
    ensures InitAnswered(n, w)
  {
    hide RequestId;
    var k :| 0 <= k < |s.issued| && s.issued[k] == w && RequestId(k) in s.answers && s.answers[RequestId(k)].Result?;
    assert n.issued[k] == w;
  }

  lemma SentAndAnswered(s: Bridge, w: Win, id: string)
    requires SentInit(s, w, id) && id in s.answers && s.answers[id].Result?
    ensures InitAnswered(s, w)
  {
    hide RequestId;
  }

  lemma InitializedStep(s: Bridge, ev: Event, w: Win)
    requires Accounted(s) && InitHonest(s)
    requires w < |s.wins| && s.wins[w].opening.Initialized? ==> InitAnswered(s, w)
    ensures var n := Step(s, ev); w < |n.wins| && n.wins[w].opening.Initialized? ==> InitAnswered(n, w)
  {
    var n := Step(s, ev);
    if w < |n.wins| && n.wins[w].opening.Initialized? {
      InitializedFrom(s, ev, w);
      assert s.wins[w].opening.AwaitingInit? ==> SentInit(s, w, s.wins[w].opening.id);
      hide *;
      if !s.wins[w].opening.Initialized? {
        SentAndAnswered(s, w, s.wins[w].opening.id);
      }
      IssuesGrow(s, ev);
      OneStepSettles(s, ev);
      StaysAnswered(s, n, w);
    }
  }

  // A window counts as initialised only after a request sent to it was answered
  // with a result, in every run.
  lemma {:induction false} InitializedMeansAnswered(evs: seq<Event>, w: Win)
    ensures InitHonest(Run(Initial(), evs))
    ensures var s := Run(Initial(), evs); w < |s.wins| && s.wins[w].opening.Initialized? ==> InitAnswered(s, w)
  {
    hide Step, InitAnswered, SentInit;
    if evs != [] {
      var prefix, ev := evs[..|evs| - 1], evs[|evs| - 1];
      InitializedMeansAnswered(prefix, w);
      RunAccounted(prefix);
      hide Accounted, LiveOnly, InitHonest;
      InitHonestStep(Run(Initial(), prefix), ev);
      InitializedStep(Run(Initial(), prefix), ev, w);
    }
  }

  // -------------------------------------------------------------- the controller

  lemma AlsoClosed(pending: map<string, Win>, answers: map<string, Envelope>, settled: set<string>, id: string)
    ensures pending - settled - {id} == pending - (settled + {id})
    ensures (answers + AllClosed(settled))[id := BridgeClosed] == answers + AllClosed(settled + {id})
  {
  }

  class TrezorRelay {
    var current: Option<Win>
    var ready: Option<Win>
    var pending: map<string, Win>
    var nextId: nat
    // the windows and the promises, which the closures hold
    var wins: seq<Window>
    var answers: map<string, Envelope>
    ghost var issued: seq<Win>

    ghost function View(): Bridge
      reads this
    {
      Bridge(current, ready, pending, nextId, wins, answers, issued)
    }

    constructor ()
      ensures View() == Initial()
    {
      current, ready, pending, nextId := None, None, map[], 1;
      wins, answers, issued := [], map[], [];
    }

    method Post(win: Option<Win>, sends: bool) returns (id: Option<string>)
      requires win.Some? ==> win.value < |wins|
      modifies this`pending, this`nextId, this`answers, this`issued
      ensures id.Some? <==> win.Some? && wins[win.value].life.Open?
      ensures id.Some? ==> id.value == Digits(old(nextId)) && View() == old(View()).Posted(win.value, sends)
      ensures id.None? ==> View() == old(View())
    {
      if win.None? || !wins[win.value].life.Open? { return None; }
      var text := Digits(nextId);
      nextId := nextId + 1;
      issued := issued + [win.value];
      if sends {
        pending := pending[text := win.value];
      } else {
        answers := answers[text := BridgeClosed];
      }
      return Some(text);
    }

    method Call(sends: bool) returns (id: Option<string>)
      requires LiveOnly(View())
      modifies this`pending, this`nextId, this`answers, this`issued
      ensures View() == Step(old(View()), PostCall(sends))
      ensures id == if old(current).Some? && old(View()).Accepts(old(current).value) then Some(Digits(old(nextId)))
                    else None
    {
      id := Post(current, sends);
    }

    method HandleReply(win: Win, fromDocument: bool, message: Message)
      modifies this`pending, this`answers
      ensures View() == Step(old(View()), Reply(win, fromDocument, message))
    {
      if current != Some(win) || win >= |wins| || !wins[win].life.Open? || !fromDocument { return; }
      if !IsValidBridgeReply(message) { return; }
      var id := message.id.value;
      if id !in pending || pending[id] != win { return; }
      pending := pending - {id};
      answers := answers[id := EnvelopeOf(message)];
    }

    method SettleWindow(win: Win)
      modifies this`pending, this`answers
      ensures View() == old(View()).WindowSettled(win)
    {
      ghost var sent, settled := View().SentTo(win), {};
      assert pending - settled == pending && answers + AllClosed(settled) == answers;
      var todo := pending.Keys;
      while todo != {}
        invariant todo <= pending.Keys && settled == sent - todo
        invariant pending == old(pending) - settled
        invariant answers == old(answers) + AllClosed(settled)
      {
        var id :| id in todo;
        todo := todo - {id};
        if pending[id] == win {
          AlsoClosed(old(pending), old(answers), settled, id);
          settled := settled + {id};
          pending := pending - {id};
          answers := answers[id := BridgeClosed];
        }
      }
      assert settled == sent;
    }

    method OnClosed(win: Win)
      requires win < |wins| && !wins[win].life.Closed?
      modifies this
      ensures View() == Step(old(View()), ClosedEvent(win))
    {
      wins := wins[win := Window(Closed, if wins[win].opening.Loading? then Rejected else wins[win].opening)];
      if current == Some(win) {
        current := None;
        ready := None;
      }
      SettleWindow(win);
    }

    method OpenWindow() returns (win: Win)
      modifies this`wins, this`current
      ensures win == |old(wins)| && wins == old(wins) + [Window(Open, Loading)] && current == Some(win)
    {
      win := |wins|;
      wins := wins + [Window(Open, Loading)];
      current := Some(win);
    }

    method EnsureReady()
      modifies this`wins, this`current, this`ready
      ensures View() == Step(old(View()), Event.EnsureReady)
    {
      if current.Some? && ready.Some? { return; }
      var win := OpenWindow();
      ready := Some(win);
    }

    method OnDocumentReady(win: Win, fromDocument: bool)
      requires win < |wins|
      modifies this`wins
      ensures View() == Step(old(View()), DocumentReady(win, fromDocument))
    {
      if current == Some(win) && wins[win].life.Open? && fromDocument && wins[win].opening.Loading? {
        wins := wins[win := wins[win].(opening := Loaded)];
      }
    }

    method AfterLoaded(win: Win, sends: bool)
      requires win < |wins| && wins[win].opening.Loaded?
      modifies this
      ensures View() == Step(old(View()), SendInit(win, sends))
    {
      var id := Post(Some(win), sends);
      wins := wins[win := wins[win].(opening := if id.Some? then AwaitingInit(id.value) else Rejected)];
    }

    method AfterInit(win: Win)
      requires win < |wins| && wins[win].opening.AwaitingInit? && wins[win].opening.id in answers
      modifies this`wins
      ensures View() == Step(old(View()), InitDone(win))
    {
      var ok := answers[wins[win].opening.id].Result?;
      wins := wins[win := wins[win].(opening := if ok then Initialized else Rejected)];
    }

    method AfterRejected(win: Win)
      requires win < |wins| && wins[win].opening.Rejected?
      modifies this`wins, this`ready
      ensures View() == Step(old(View()), GiveUp(win))
    {
      wins := wins[win := wins[win].(opening := GivenUp)];
      if ready == Some(win) {
        ready := None;
      }
    }
  }
}
