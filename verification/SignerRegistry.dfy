// The desktop signer-bridge registry, packages/desktop/main/signerBridgeListener.js:
// which renderer document answers for which hardware signer.
module SignerRegistry {

  type SenderId = nat
  type SignerId = string

  const SIGNER_ID_MAX_LENGTH := 256

  // A transport is the channel to one document of one renderer.
  datatype Transport = Transport(sender: SenderId, document: nat)

  // What a live renderer document holds.
  datatype Entry = Entry(document: nat, ownedIds: set<SignerId>)

  datatype Message = Register(signerIds: seq<SignerId>) | Unregister(signerIds: seq<SignerId>) | Response {
    predicate WellFormed() {
      Response? || forall k | 0 <= k < |signerIds| :: 0 < |signerIds[k]| <= SIGNER_ID_MAX_LENGTH
    }
  }

  datatype Limits = Limits(perMessage: nat, perSender: nat)

  // The map that takes every key to `v`.
  function Each<V>(keys: set<SignerId>, v: V): map<SignerId, V> {
    map sid | sid in keys :: v
  }

  lemma EachOne<V>(m: map<SignerId, V>, keys: set<SignerId>, v: V, sid: SignerId)
    ensures m + Each({}, v) == m && m + Each({sid}, v) == m[sid := v]
    ensures m + Each(keys, v) + Each({sid}, v) == m + Each(keys + {sid}, v)
  {
  }

  // The listener's two maps and the process-wide transport registry.
  datatype Registry = Registry(
    attached: bool,
    bySender: map<SenderId, Entry>,
    ownerBySignerId: map<SignerId, SenderId>,
    transports: map<SignerId, Transport>,
    nextDocument: nat
  ) {
    predicate OwnerHolds(sid: SignerId)
      requires sid in ownerBySignerId
    {
      ownerBySignerId[sid] in bySender && sid in bySender[ownerBySignerId[sid]].ownedIds
    }

    predicate HolderOwns(s: SenderId, sid: SignerId) {
      sid in ownerBySignerId && ownerBySignerId[sid] == s
    }

    // The owner map is exactly the inverse of what live entries hold.
    ghost predicate Inverse() {
      && (forall sid | sid in ownerBySignerId :: OwnerHolds(sid))
      && (forall s, sid | s in bySender && sid in bySender[s].ownedIds :: HolderOwns(s, sid))
    }

    // Every owned id, and no other, is routed to its owner's document.
    ghost predicate Routed() {
      && transports.Keys == ownerBySignerId.Keys
      && (forall sid | sid in transports ::
            ownerBySignerId[sid] in bySender
            && transports[sid] == Transport(ownerBySignerId[sid], bySender[ownerBySignerId[sid]].document))
    }

    ghost predicate WithinQuota(limits: Limits) {
      forall s | s in bySender :: |bySender[s].ownedIds| <= limits.perSender
    }

    ghost predicate OwnDocuments() {
      && (forall s | s in bySender :: bySender[s].document < nextDocument)
      && (forall s, t | s in bySender && t in bySender && s != t :: bySender[s].document != bySender[t].document)
    }

    ghost predicate Consistent(limits: Limits) {
      Inverse() && Routed() && WithinQuota(limits) && OwnDocuments() && (!attached ==> bySender == map[])
    }

    predicate HeldByOther(sender: SenderId, sid: SignerId) {
      sid in ownerBySignerId && ownerBySignerId[sid] != sender && ownerBySignerId[sid] in bySender
    }

    // The ids of a message that are the sender's to take.
    function Free(sender: SenderId, ids: seq<SignerId>): set<SignerId> {
      set sid | sid in ids && !HeldByOther(sender, sid)
    }

    predicate Admits(limits: Limits, sender: SenderId, ids: seq<SignerId>)
      requires sender in bySender
    {
      |ids| <= limits.perMessage && |bySender[sender].ownedIds + Free(sender, ids)| <= limits.perSender
    }

    function WithEntry(sender: SenderId): Registry {
      if sender in bySender then this
      else this.(bySender := bySender[sender := Entry(nextDocument, {})], nextDocument := nextDocument + 1)
    }

    // The registry once `sender` holds the ids `got` as well.
    function Took(sender: SenderId, got: set<SignerId>): Registry
      requires sender in bySender
    {
      var e := bySender[sender];
      this.(bySender := bySender[sender := e.(ownedIds := e.ownedIds + got)],
            ownerBySignerId := ownerBySignerId + Each(got, sender),
            transports := transports + Each(got, Transport(sender, e.document)))
    }

    function Registered(limits: Limits, sender: SenderId, ids: seq<SignerId>): Registry
      requires sender in bySender
    {
      if Admits(limits, sender, ids) then Took(sender, Free(sender, ids)) else this
    }

    // The registry once `sender` no longer holds the ids `gone`.
    function Dropped(sender: SenderId, gone: set<SignerId>): Registry
      requires sender in bySender
    {
      var e := bySender[sender];
      this.(bySender := bySender[sender := e.(ownedIds := e.ownedIds - gone)],
            ownerBySignerId := map sid | sid in ownerBySignerId && !(sid in gone && ownerBySignerId[sid] == sender) ::
                ownerBySignerId[sid],
            transports := transports - gone)
    }

    function Unregistered(sender: SenderId, ids: seq<SignerId>): Registry
      requires sender in bySender
    {
      Dropped(sender, set sid | sid in ids && sid in bySender[sender].ownedIds)
    }

    // The end of a document; one that ended before holds nothing any more.
    function TornDown(sender: SenderId, document: nat): Registry {
      if sender !in bySender || bySender[sender].document != document then this
      else
        var q := Dropped(sender, bySender[sender].ownedIds);
        q.(bySender := q.bySender - {sender})
    }
  }

  datatype Event =
    | Ipc(sender: SenderId, trusted: bool, msg: Message)
    | DocumentEnd(sender: SenderId, document: nat)
    | Detach

  // One event, as the listener handles it.
  function Step(r: Registry, limits: Limits, ev: Event): Registry {
    match ev
    case Ipc(sender, trusted, msg) =>
      if !r.attached || !trusted || !msg.WellFormed() then r
      else
        var q := r.WithEntry(sender);
        (match msg
         case Register(ids) => q.Registered(limits, sender, ids)
         case Unregister(ids) => q.Unregistered(sender, ids)
         case Response => q)
    case DocumentEnd(sender, document) => r.TornDown(sender, document)
    case Detach =>
      var owned := set s, sid | s in r.bySender && sid in r.bySender[s].ownedIds :: sid;
      r.(attached := false, bySender := map[], ownerBySignerId := map[], transports := r.transports - owned)
  }

  function Run(r: Registry, limits: Limits, evs: seq<Event>): Registry {
    if evs == [] then r else Step(Run(r, limits, evs[..|evs| - 1]), limits, evs[|evs| - 1])
  }

  const FRESH := Registry(true, map[], map[], map[], 0)

  // ---------------------------------------------------------------- properties

  lemma WithEntryConsistent(r: Registry, limits: Limits, sender: SenderId)
    requires r.Consistent(limits) && r.attached
    ensures r.WithEntry(sender).Consistent(limits)
  {
  }

  // What taking ids does to one id and to one sender.
  lemma TookAt(r: Registry, sender: SenderId, got: set<SignerId>, sid: SignerId)
    requires sender in r.bySender
    ensures var q := r.Took(sender, got);
            && (sid in q.ownerBySignerId <==> sid in got || sid in r.ownerBySignerId)
            && (sid in q.ownerBySignerId ==>
                  q.ownerBySignerId[sid] == if sid in got then sender else r.ownerBySignerId[sid])
            && (sid in q.transports <==> sid in got || sid in r.transports)
            && (sid in q.transports ==>
                  q.transports[sid] == if sid in got then Transport(sender, r.bySender[sender].document)
                      else r.transports[sid])
  {
  }

  lemma TookEntries(r: Registry, sender: SenderId, got: set<SignerId>, s: SenderId)
    requires sender in r.bySender
    ensures var q, e := r.Took(sender, got), r.bySender[sender];
            && (s in q.bySender <==> s in r.bySender)
            && (s in q.bySender ==>
                  q.bySender[s] == if s == sender then Entry(e.document, e.ownedIds + got) else r.bySender[s])
  {
  }

  lemma TookInverse(r: Registry, sender: SenderId, got: set<SignerId>)
    requires r.Inverse() && sender in r.bySender && forall sid | sid in got :: !r.HeldByOther(sender, sid)
    ensures r.Took(sender, got).Inverse()
  {
    var q := r.Took(sender, got);
    forall sid | sid in q.ownerBySignerId
      ensures q.OwnerHolds(sid)
    {
      TookOwner(r, sender, got, sid);
    }
    forall s, sid | s in q.bySender && sid in q.bySender[s].ownedIds
      ensures q.HolderOwns(s, sid)
    {
      TookHolder(r, sender, got, s, sid);
    }
    hide Registry.Took, Registry.OwnerHolds, Registry.HolderOwns;
  }

  lemma TookOwner(r: Registry, sender: SenderId, got: set<SignerId>, sid: SignerId)
    requires r.Inverse() && sender in r.bySender && sid in r.Took(sender, got).ownerBySignerId
    ensures var q := r.Took(sender, got);
            q.ownerBySignerId[sid] in q.bySender && sid in q.bySender[q.ownerBySignerId[sid]].ownedIds
  {
    TookAt(r, sender, got, sid);
    TookEntries(r, sender, got, r.Took(sender, got).ownerBySignerId[sid]);
    hide Registry.Took;
  }

  lemma TookHolder(r: Registry, sender: SenderId, got: set<SignerId>, s: SenderId, sid: SignerId)
    requires r.Inverse() && sender in r.bySender && forall x | x in got :: !r.HeldByOther(sender, x)
    requires s in r.Took(sender, got).bySender && sid in r.Took(sender, got).bySender[s].ownedIds
    ensures var q := r.Took(sender, got); sid in q.ownerBySignerId && q.ownerBySignerId[sid] == s
  {
    TookAt(r, sender, got, sid);
    TookEntries(r, sender, got, s);
    hide Registry.Took, Registry.HeldByOther;
    if s != sender {
      OwnedElsewhere(r, sender, s, sid);
    }
  }

  lemma OwnedElsewhere(r: Registry, sender: SenderId, s: SenderId, sid: SignerId)
    requires r.Inverse() && s in r.bySender && sid in r.bySender[s].ownedIds && s != sender
    ensures r.HeldByOther(sender, sid) && r.ownerBySignerId[sid] == s
  {
  }

  lemma TookRouted(r: Registry, sender: SenderId, got: set<SignerId>)
    requires r.Routed() && sender in r.bySender
    ensures r.Took(sender, got).Routed()
  {
    var q := r.Took(sender, got);
    hide Registry.Took;
    forall sid
      ensures sid in q.transports <==> sid in q.ownerBySignerId
    {
      TookAt(r, sender, got, sid);
    }
    assert q.transports.Keys == q.ownerBySignerId.Keys;
    forall sid | sid in q.transports
      ensures q.ownerBySignerId[sid] in q.bySender
      ensures q.transports[sid] == Transport(q.ownerBySignerId[sid], q.bySender[q.ownerBySignerId[sid]].document)
    {
      TookAt(r, sender, got, sid);
      TookEntries(r, sender, got, q.ownerBySignerId[sid]);
    }
  }

  lemma TookQuota(r: Registry, limits: Limits, sender: SenderId, got: set<SignerId>)
    requires r.WithinQuota(limits) && r.OwnDocuments() && (!r.attached ==> r.bySender == map[])
    requires sender in r.bySender && |r.bySender[sender].ownedIds + got| <= limits.perSender
    ensures var q := r.Took(sender, got);
            q.WithinQuota(limits) && q.OwnDocuments() && (!q.attached ==> q.bySender == map[])
  {
    var q := r.Took(sender, got);
    assert q.attached == r.attached && q.nextDocument == r.nextDocument;
    hide Registry.Took;
    forall s | s in q.bySender
      ensures s in r.bySender && q.bySender[s].document == r.bySender[s].document
      ensures |q.bySender[s].ownedIds| <= limits.perSender
    {
      TookEntries(r, sender, got, s);
    }
  }

  lemma RegisteredConsistent(r: Registry, limits: Limits, sender: SenderId, ids: seq<SignerId>)
    requires r.Consistent(limits) && sender in r.bySender
    ensures r.Registered(limits, sender, ids).Consistent(limits)
  {
    if r.Admits(limits, sender, ids) {
      var got := r.Free(sender, ids);
      hide Registry.Inverse, Registry.Routed, Registry.WithinQuota, Registry.OwnDocuments, Registry.Took;
      TookInverse(r, sender, got);
      TookRouted(r, sender, got);
      TookQuota(r, limits, sender, got);
    }
  }

  lemma DroppedInverse(r: Registry, sender: SenderId, gone: set<SignerId>)
    requires r.Inverse() && sender in r.bySender && gone <= r.bySender[sender].ownedIds
    ensures r.Dropped(sender, gone).Inverse()
  {
    var q := r.Dropped(sender, gone);
    forall s, sid | s in q.bySender && sid in q.bySender[s].ownedIds
      ensures sid in q.ownerBySignerId && q.ownerBySignerId[sid] == s
    {
      assert sid in r.bySender[s].ownedIds && r.ownerBySignerId[sid] == s;
    }
  }

  lemma DroppedRouted(r: Registry, sender: SenderId, gone: set<SignerId>)
    requires r.Inverse() && r.Routed() && sender in r.bySender && gone <= r.bySender[sender].ownedIds
    ensures r.Dropped(sender, gone).Routed()
  {
    assert forall sid | sid in gone :: r.ownerBySignerId[sid] == sender;
    assert r.Dropped(sender, gone).ownerBySignerId.Keys == r.ownerBySignerId.Keys - gone;
  }

  lemma DroppedConsistent(r: Registry, limits: Limits, sender: SenderId, gone: set<SignerId>)
    requires r.Consistent(limits) && sender in r.bySender && gone <= r.bySender[sender].ownedIds
    ensures r.Dropped(sender, gone).Consistent(limits)
  {
    DroppedInverse(r, sender, gone);
    DroppedRouted(r, sender, gone);
    DroppedQuota(r, limits, sender, gone);
    hide Registry.Inverse, Registry.Routed, Registry.WithinQuota, Registry.OwnDocuments;
  }

  lemma DroppedQuota(r: Registry, limits: Limits, sender: SenderId, gone: set<SignerId>)
    requires r.WithinQuota(limits) && r.OwnDocuments() && sender in r.bySender
    ensures r.Dropped(sender, gone).WithinQuota(limits) && r.Dropped(sender, gone).OwnDocuments()
  {
    var e := r.bySender[sender];
    Fewer(e.ownedIds - gone, e.ownedIds);
    assert r.Dropped(sender, gone).bySender == r.bySender[sender := Entry(e.document, e.ownedIds - gone)];
    hide Registry.Dropped;
  }

  lemma UnregisteredConsistent(r: Registry, limits: Limits, sender: SenderId, ids: seq<SignerId>)
    requires r.Consistent(limits) && sender in r.bySender
    ensures r.Unregistered(sender, ids).Consistent(limits)
  {
    DroppedConsistent(r, limits, sender, (set sid | sid in ids && sid in r.bySender[sender].ownedIds));
  }

  lemma Fewer<T>(a: set<T>, b: set<T>)
    requires a <= b
    ensures |a| <= |b|
  {
    assert b == a + (b - a);
  }

  lemma TornDownConsistent(r: Registry, limits: Limits, sender: SenderId, document: nat)
    requires r.Consistent(limits)
    ensures r.TornDown(sender, document).Consistent(limits)
  {
    if sender in r.bySender && r.bySender[sender].document == document {
      var owned := r.bySender[sender].ownedIds;
      DroppedConsistent(r, limits, sender, owned);
      assert r.Dropped(sender, owned).bySender[sender].ownedIds == {};
      hide Registry.Dropped, Registry.Consistent;
      LeftConsistent(r.Dropped(sender, owned), limits, sender);
    }
  }

  // A sender that holds nothing may leave.
  lemma LeftConsistent(r: Registry, limits: Limits, sender: SenderId)
    requires r.Consistent(limits) && sender in r.bySender && r.bySender[sender].ownedIds == {}
    ensures r.(bySender := r.bySender - {sender}).Consistent(limits)
  {
    hide Registry.HeldByOther;
  }

  lemma StepConsistent(r: Registry, limits: Limits, ev: Event)
    requires r.Consistent(limits)
    ensures Step(r, limits, ev).Consistent(limits)
  {
    match ev
    case Ipc(sender, trusted, msg) =>
      if r.attached && trusted && msg.WellFormed() {
        WithEntryConsistent(r, limits, sender);
        var q := r.WithEntry(sender);
        match msg
        case Register(ids) => RegisteredConsistent(q, limits, sender, ids);
        case Unregister(ids) => UnregisteredConsistent(q, limits, sender, ids);
        case Response =>
      }
    case DocumentEnd(sender, document) => TornDownConsistent(r, limits, sender, document);
    case Detach =>
      assert forall sid | sid in r.transports ::
          r.ownerBySignerId[sid] in r.bySender && sid in r.bySender[r.ownerBySignerId[sid]].ownedIds;
      assert Step(r, limits, ev).transports.Keys == {};
  }

  // Whatever happens, in whatever order, the registry is consistent.
  lemma {:induction false} RunConsistent(limits: Limits, evs: seq<Event>)
    ensures Run(FRESH, limits, evs).Consistent(limits)
  {
    if evs != [] {
      RunConsistent(limits, evs[..|evs| - 1]);
      StepConsistent(Run(FRESH, limits, evs[..|evs| - 1]), limits, evs[|evs| - 1]);
    }
  }

  // No id is held by two senders.
  lemma OwnedIdsDisjoint(r: Registry, limits: Limits, s: SenderId, t: SenderId)
    requires r.Consistent(limits) && s in r.bySender && t in r.bySender && s != t
    ensures r.bySender[s].ownedIds !! r.bySender[t].ownedIds
  {
    forall sid | sid in r.bySender[s].ownedIds
      ensures sid !in r.bySender[t].ownedIds
    {
      assert r.ownerBySignerId[sid] == s;
    }
  }

  // The id, its owner, its transport and its owner's entry are as they were.
  predicate LeavesAlone(r: Registry, q: Registry, sid: SignerId) {
    && sid in r.ownerBySignerId && sid in r.transports && r.ownerBySignerId[sid] in r.bySender
    && sid in q.ownerBySignerId && q.ownerBySignerId[sid] == r.ownerBySignerId[sid]
    && sid in q.transports && q.transports[sid] == r.transports[sid]
    && q.ownerBySignerId[sid] in q.bySender && q.bySender[q.ownerBySignerId[sid]] == r.bySender[r.ownerBySignerId[sid]]
  }

  // One sender's events leave every id another live sender holds, its owner
  // and its transport, exactly as they were.
  lemma NoInterference(r: Registry, limits: Limits, ev: Event, sid: SignerId)
    requires r.Consistent(limits) && !ev.Detach?
    requires sid in r.ownerBySignerId && r.ownerBySignerId[sid] != ev.sender
    ensures LeavesAlone(r, Step(r, limits, ev), sid)
  {
    HeldFrom(r, limits, ev.sender, sid);
    hide LeavesAlone, Registry.Consistent, Registry.TornDown, Registry.HeldByOther;
    match ev
    case DocumentEnd(sender, document) => EndLeaves(r, limits, sender, document, sid);
    case Ipc(sender, trusted, msg) =>
      if r.attached && trusted && msg.WellFormed() {
        EntryLeaves(r, limits, sender, sid);
        MessageLeaves(r, r.WithEntry(sender), limits, sender, msg, sid);
      }
  }

  lemma HeldFrom(r: Registry, limits: Limits, sender: SenderId, sid: SignerId)
    requires r.Consistent(limits) && sid in r.ownerBySignerId && r.ownerBySignerId[sid] != sender
    ensures r.HeldByOther(sender, sid) && LeavesAlone(r, r, sid)
  {
  }

  lemma EntryLeaves(r: Registry, limits: Limits, sender: SenderId, sid: SignerId)
    requires r.Consistent(limits) && r.attached && r.HeldByOther(sender, sid)
    ensures var q := r.WithEntry(sender);
            q.Consistent(limits) && sender in q.bySender && q.HeldByOther(sender, sid) && LeavesAlone(r, q, sid)
  {
    WithEntryConsistent(r, limits, sender);
    hide Registry.WithinQuota, Registry.OwnDocuments;
  }

  lemma EndLeaves(r: Registry, limits: Limits, sender: SenderId, document: nat, sid: SignerId)
    requires r.Consistent(limits) && r.HeldByOther(sender, sid)
    ensures LeavesAlone(r, r.TornDown(sender, document), sid)
  {
    if sender in r.bySender && r.bySender[sender].document == document {
      DroppedLeaves(r, r, sender, r.bySender[sender].ownedIds, sid);
      hide Registry.Dropped, Registry.Consistent;
    } else {
      HeldFrom(r, limits, sender, sid);
      hide Registry.Consistent;
    }
  }

  lemma MessageLeaves(r: Registry, q: Registry, limits: Limits, sender: SenderId, msg: Message, sid: SignerId)
    requires q.Consistent(limits) && sender in q.bySender && q.HeldByOther(sender, sid) && LeavesAlone(r, q, sid)
    ensures LeavesAlone(r, match msg
                           case Register(ids) => q.Registered(limits, sender, ids)
                           case Unregister(ids) => q.Unregistered(sender, ids)
                           case Response => q, sid)
  {
    hide LeavesAlone, Registry.Took, Registry.Dropped, Registry.Inverse, Registry.Routed;
    hide Registry.WithinQuota, Registry.OwnDocuments, Registry.HeldByOther;
    match msg
    case Register(ids) => TookLeaves(r, q, sender, q.Free(sender, ids), sid);
    case Unregister(ids) => DroppedLeaves(r, q, sender, (set x | x in ids && x in q.bySender[sender].ownedIds), sid);
    case Response =>
  }

  lemma TookLeaves(r: Registry, q: Registry, sender: SenderId, got: set<SignerId>, sid: SignerId)
    requires sender in q.bySender && q.HeldByOther(sender, sid) && sid !in got && LeavesAlone(r, q, sid)
    ensures LeavesAlone(r, q.Took(sender, got), sid)
  {
    TookAt(q, sender, got, sid);
    TookEntries(q, sender, got, q.ownerBySignerId[sid]);
    hide Registry.Took;
  }

  lemma DroppedLeaves(r: Registry, q: Registry, sender: SenderId, gone: set<SignerId>, sid: SignerId)
    requires q.Inverse() && q.Routed() && sender in q.bySender && q.HeldByOther(sender, sid)
    requires gone <= q.bySender[sender].ownedIds && (q == r || LeavesAlone(r, q, sid))
    ensures LeavesAlone(r, q.Dropped(sender, gone), sid)
  {
    assert sid !in q.bySender[sender].ownedIds;
  }

  // An admitted registration routes every id it names to the sender, except
  // the ids another live sender holds; a refused one routes nothing anew.
  lemma RegisterRoutes(r: Registry, limits: Limits, sender: SenderId, ids: seq<SignerId>, sid: SignerId)
    requires r.Consistent(limits) && sender in r.bySender && sid in ids
    ensures var q := r.Registered(limits, sender, ids);
            (sid in q.transports && q.transports[sid] == Transport(sender, r.bySender[sender].document)) <==>
              || sid in r.bySender[sender].ownedIds
              || (r.Admits(limits, sender, ids) && sid !in r.ownerBySignerId)
  {
    var e := r.bySender[sender];
    assert sid in e.ownedIds ==> r.transports[sid] == Transport(sender, e.document);
    assert sid in r.ownerBySignerId && r.ownerBySignerId[sid] != sender ==> r.HeldByOther(sender, sid);
  }

  // Ids already held cost nothing: naming only those, within the batch cap, is
  // always admitted and changes nothing.
  lemma ReRegisterIsFree(r: Registry, limits: Limits, sender: SenderId, ids: seq<SignerId>)
    requires r.Consistent(limits) && sender in r.bySender && |ids| <= limits.perMessage
    requires forall sid | sid in ids :: sid in r.bySender[sender].ownedIds
    ensures r.Admits(limits, sender, ids) && r.Registered(limits, sender, ids) == r
  {
    var got, owned := r.Free(sender, ids), r.bySender[sender].ownedIds;
    assert got <= owned && owned + got == owned;
    assert |owned| <= limits.perSender;
    TookOwned(r, sender, got);
    hide Registry.Took, Registry.Free, Registry.Consistent;
  }

  lemma EachSame<V>(m: map<SignerId, V>, keys: set<SignerId>, v: V)
    requires forall sid | sid in keys :: sid in m && m[sid] == v
    ensures m + Each(keys, v) == m
  {
  }

  lemma TookOwned(r: Registry, sender: SenderId, got: set<SignerId>)
    requires r.Inverse() && r.Routed() && sender in r.bySender && got <= r.bySender[sender].ownedIds
    ensures r.Took(sender, got) == r
  {
    var e := r.bySender[sender];
    assert forall sid | sid in got ::
        r.ownerBySignerId[sid] == sender && r.transports[sid] == Transport(sender, e.document);
    EachSame(r.ownerBySignerId, got, sender);
    EachSame(r.transports, got, Transport(sender, e.document));
    hide Each, Registry.Inverse, Registry.Routed;
    assert e.ownedIds + got == e.ownedIds;
    assert r.bySender[sender := e] == r.bySender;
  }

  predicate Mentions(r: Registry, document: nat) {
    || (exists sid :: sid in r.transports && r.transports[sid].document == document)
    || (exists s :: s in r.bySender && r.bySender[s].document == document)
  }

  // A document that has ended is never answered for again, however the run goes
  // on: no transport and no entry is ever that document's.
  lemma {:induction false} EndedStaysGone(r: Registry, limits: Limits, sender: SenderId, document: nat, evs: seq<Event>)
    requires r.Consistent(limits) && sender in r.bySender && r.bySender[sender].document == document
    ensures var q := Run(r.TornDown(sender, document), limits, evs);
            q.Consistent(limits) && document < q.nextDocument && !Mentions(q, document)
  {
    var start := r.TornDown(sender, document);
    if evs == [] {
      TornDownConsistent(r, limits, sender, document);
      DocumentsMentioned(start, limits, document);
    } else {
      var prefix, ev := evs[..|evs| - 1], evs[|evs| - 1];
      EndedStaysGone(r, limits, sender, document, prefix);
      var q := Run(start, limits, prefix);
      StepConsistent(q, limits, ev);
      StepDocuments(q, limits, ev);
      DocumentsMentioned(Step(q, limits, ev), limits, document);
    }
  }

  // Entries only come with a document not seen before.
  lemma StepDocuments(r: Registry, limits: Limits, ev: Event)
    requires r.Consistent(limits)
    ensures r.nextDocument <= Step(r, limits, ev).nextDocument
    ensures forall s | s in Step(r, limits, ev).bySender ::
              var d := Step(r, limits, ev).bySender[s].document;
              d == r.nextDocument || (s in r.bySender && r.bySender[s].document == d)
  {
    match ev
    case DocumentEnd(sender, document) =>
      EndIs(r, limits, sender, document);
    case Detach =>
    case Ipc(sender, trusted, msg) =>
      if r.attached && trusted && msg.WellFormed() {
        var q := r.WithEntry(sender);
        assert q.nextDocument >= r.nextDocument && sender in q.bySender;
        MessageDocuments(q, limits, sender, msg);
        hide Registry.Registered, Registry.Unregistered;
      }
  }

  // A message moves ids, never documents.
  lemma MessageDocuments(q: Registry, limits: Limits, sender: SenderId, msg: Message)
    requires sender in q.bySender
    ensures var p := match msg
                     case Register(ids) => q.Registered(limits, sender, ids)
                     case Unregister(ids) => q.Unregistered(sender, ids)
                     case Response => q;
            && p.nextDocument == q.nextDocument && p.bySender.Keys == q.bySender.Keys
            && forall s | s in p.bySender :: p.bySender[s].document == q.bySender[s].document
  {
    hide Registry.Admits, Registry.Free;
  }

  lemma DocumentsMentioned(r: Registry, limits: Limits, document: nat)
    requires r.Consistent(limits)
    ensures Mentions(r, document) <==> exists s :: s in r.bySender && r.bySender[s].document == document
  {
    assert forall sid | sid in r.transports :: r.ownerBySignerId[sid] in r.bySender;
  }

  // ---------------------------------------------------------------- the listener

  class Listener {
    const limits: Limits
    var attached: bool
    var bySender: map<SenderId, Entry>
    var ownerBySignerId: map<SignerId, SenderId>
    var transports: map<SignerId, Transport>
    var nextDocument: nat

    function View(): Registry
      reads this
    {
      Registry(attached, bySender, ownerBySignerId, transports, nextDocument)
    }

    constructor (limits: Limits)
      ensures this.limits == limits && View() == FRESH
    {
      this.limits := limits;
      attached, bySender, ownerBySignerId, transports, nextDocument := true, map[], map[], map[], 0;
    }

    // One message of the channel; anything but a well-formed one from a trusted
    // frame is dropped before it can create an entry.
    method OnIpc(sender: SenderId, trusted: bool, msg: Message)
      requires View().Consistent(limits) && attached
      modifies this
      ensures View() == Step(old(View()), limits, Ipc(sender, trusted, msg))
      ensures View().Consistent(limits)
    {
      StepConsistent(View(), limits, Ipc(sender, trusted, msg));
      if !trusted { return; }
      if !msg.WellFormed() { return; }
      if sender !in bySender { CreateEntryFor(sender); }
      match msg
      case Register(ids) => RegisterIds(sender, ids);
      case Unregister(ids) => UnregisterIds(sender, ids);
      case Response =>
    }

    method CreateEntryFor(sender: SenderId)
      requires sender !in bySender
      modifies this
      ensures View() == old(View()).WithEntry(sender)
    {
      bySender := bySender[sender := Entry(nextDocument, {})];
      nextDocument := nextDocument + 1;
    }

    method RegisterIds(sender: SenderId, ids: seq<SignerId>)
      requires sender in bySender
      modifies this
      ensures View() == old(View()).Registered(limits, sender, ids)
    {
      if |ids| > limits.perMessage { return; }
      var adds := CountAdds(sender, ids);
      QuotaCounts(bySender[sender].ownedIds, View().Free(sender, ids));
      if |bySender[sender].ownedIds| + |adds| > limits.perSender { return; }
      ghost var before := View();
      TookNone(before, sender);
      assert before.Free(sender, ids[..0]) == {};
      assert before.Admits(limits, sender, ids);
      hide Registry.Took, Registry.Free, Registry.Admits;
      for i := 0 to |ids|
        invariant sender in bySender
        invariant View() == before.Took(sender, before.Free(sender, ids[..i]))
      {
        var sid := ids[i];
        RegisterOne(before, sender, ids, i);
        if sid in ownerBySignerId && ownerBySignerId[sid] != sender && ownerBySignerId[sid] in bySender { continue; }
        SetTransport(sender, sid);
      }
      assert ids[..|ids|] == ids;
    }

    // The distinct ids a message would add to what the sender holds.
    method CountAdds(sender: SenderId, ids: seq<SignerId>) returns (adds: set<SignerId>)
      requires sender in bySender
      ensures adds == View().Free(sender, ids) - bySender[sender].ownedIds
    {
      adds := {};
      for i := 0 to |ids|
        invariant adds == View().Free(sender, ids[..i]) - bySender[sender].ownedIds
      {
        var sid := ids[i];
        FreeOne(View(), sender, ids, i);
        if sid in bySender[sender].ownedIds { continue; }
        if sid in ownerBySignerId && ownerBySignerId[sid] != sender && ownerBySignerId[sid] in bySender { continue; }
        adds := adds + {sid};
      }
      assert ids[..|ids|] == ids;
    }

    method SetTransport(sender: SenderId, sid: SignerId)
      requires sender in bySender
      modifies this
      ensures View() == old(View()).Took(sender, {sid})
    {
      EachOne(ownerBySignerId, {}, sender, sid);
      EachOne(transports, {}, Transport(sender, bySender[sender].document), sid);
      transports := transports[sid := Transport(sender, bySender[sender].document)];
      bySender := bySender[sender := bySender[sender].(ownedIds := bySender[sender].ownedIds + {sid})];
      ownerBySignerId := ownerBySignerId[sid := sender];
    }

    method UnregisterIds(sender: SenderId, ids: seq<SignerId>)
      requires sender in bySender
      modifies this
      ensures View() == old(View()).Unregistered(sender, ids)
    {
      ghost var before := View();
      ghost var gone := {};
      DroppedOne(before, sender, {}, "");
      for i := 0 to |ids|
        invariant sender in bySender
        invariant gone == set sid | sid in ids[..i] && sid in before.bySender[sender].ownedIds
        invariant View() == before.Dropped(sender, gone)
      {
        var sid := ids[i];
        assert ids[..i + 1] == ids[..i] + [sid];
        DroppedOne(before, sender, gone, sid);
        if sid !in bySender[sender].ownedIds { continue; }
        ClearTransport(sender, sid);
        gone := gone + {sid};
      }
      assert ids[..|ids|] == ids;
    }

    method ClearTransport(sender: SenderId, sid: SignerId)
      requires sender in bySender
      modifies this
      ensures View() == old(View()).Dropped(sender, {sid})
    {
      transports := transports - {sid};
      bySender := bySender[sender := bySender[sender].(ownedIds := bySender[sender].ownedIds - {sid})];
      if sid in ownerBySignerId && ownerBySignerId[sid] == sender { ownerBySignerId := ownerBySignerId - {sid}; }
    }

    lemma Fields()
      ensures View() == Registry(attached, bySender, ownerBySignerId, transports, nextDocument)
    {
    }

    // A document-end hook. The hook of a document that already ended, or that
    // a later document has replaced, does nothing.
    method TearDown(sender: SenderId, document: nat)
      requires View().Consistent(limits)
      modifies this
      ensures View() == Step(old(View()), limits, DocumentEnd(sender, document))
      ensures View().Consistent(limits)
    {
      hide *;
      ghost var before := View();
      Fields();
      StepConsistent(before, limits, DocumentEnd(sender, document));
      EndIs(before, limits, sender, document);
      if sender !in bySender || bySender[sender].document != document { return; }
      var left := bySender[sender].ownedIds;
      ghost var gone := {};
      DroppedOne(before, sender, {}, "");
      while left != {}
        invariant sender in bySender
        invariant left + gone == before.bySender[sender].ownedIds
        invariant View() == before.Dropped(sender, gone)
        decreases left
      {
        var sid :| sid in left;
        DroppedOne(before, sender, gone, sid);
        ClearTransport(sender, sid);
        DroppedKeepsSender(before, sender, gone + {sid});
        Fields();
        left := left - {sid};
        gone := gone + {sid};
      }
      Fields();
      bySender := bySender - {sender};
      Fields();
    }

    // Tear every entry down and stop listening.
    method Detach()
      requires View().Consistent(limits)
      modifies this
      ensures View() == Step(old(View()), limits, Event.Detach)
      ensures View().Consistent(limits) && transports == map[]
    {
      hide *;
      ghost var before := View();
      Fields();
      DetachedIs(before, limits);
      var senders: set<SenderId> := bySender.Keys;
      while senders != {}
        invariant View().Consistent(limits) && senders == bySender.Keys
        invariant nextDocument == before.nextDocument
        decreases senders
      {
        var sender :| sender in senders;
        ghost var r := View();
        Fields();
        EndIs(r, limits, sender, bySender[sender].document);
        TearDown(sender, bySender[sender].document);
        Fields();
        senders := senders - {sender};
      }
      Fields();
      NobodyHoldsNothing(View(), limits);
      attached, bySender, ownerBySignerId := false, map[], map[];
      Fields();
    }
  }

  // What the end of a document comes to.
  lemma EndIs(r: Registry, limits: Limits, sender: SenderId, document: nat)
    ensures var q := Step(r, limits, DocumentEnd(sender, document));
            if sender in r.bySender && r.bySender[sender].document == document then
              q.bySender.Keys == r.bySender.Keys - {sender} && q.nextDocument == r.nextDocument
              && var d := r.Dropped(sender, r.bySender[sender].ownedIds); q == d.(bySender := d.bySender - {sender})
            else q == r
  {
  }

  // And what detaching comes to.
  lemma DetachedIs(r: Registry, limits: Limits)
    requires r.Consistent(limits)
    ensures Step(r, limits, Detach) == Registry(false, map[], map[], map[], r.nextDocument)
    ensures Registry(false, map[], map[], map[], r.nextDocument).Consistent(limits)
  {
    var owned := set s, sid | s in r.bySender && sid in r.bySender[s].ownedIds :: sid;
    forall sid | sid in r.transports
      ensures sid in owned
    {
      assert r.OwnerHolds(sid);
    }
    assert (r.transports - owned).Keys == {};
  }

  lemma NobodyHoldsNothing(r: Registry, limits: Limits)
    requires r.Consistent(limits) && r.bySender.Keys == {}
    ensures r.transports == map[] && r.ownerBySignerId == map[]
  {
    assert forall sid | sid in r.ownerBySignerId :: r.OwnerHolds(sid);
    assert r.transports.Keys == {} && r.ownerBySignerId.Keys == {};
  }

  lemma DroppedKeepsSender(r: Registry, sender: SenderId, gone: set<SignerId>)
    requires sender in r.bySender
    ensures sender in r.Dropped(sender, gone).bySender
  {
  }

  lemma FreeOne(r: Registry, sender: SenderId, ids: seq<SignerId>, i: nat)
    requires i < |ids|
    ensures r.Free(sender, ids[..i + 1])
        == r.Free(sender, ids[..i]) + (if r.HeldByOther(sender, ids[i]) then {} else {ids[i]})
  {
    assert ids[..i + 1] == ids[..i] + [ids[i]];
  }

  // The ids a message adds are the ones it takes beyond those already held.
  lemma QuotaCounts<T>(owned: set<T>, take: set<T>)
    ensures |owned| + |take - owned| == |owned + take|
  {
    assert owned + take == owned + (take - owned);
  }

  lemma TookOne(r: Registry, sender: SenderId, got: set<SignerId>, sid: SignerId)
    requires sender in r.bySender
    ensures r.Took(sender, got).Took(sender, {sid}) == r.Took(sender, got + {sid})
  {
    var e := r.bySender[sender];
    assert e.ownedIds + got + {sid} == e.ownedIds + (got + {sid});
    EachOne(r.ownerBySignerId, got, sender, sid);
    EachOne(r.transports, got, Transport(sender, e.document), sid);
    hide Each;
    var q := r.Took(sender, got);
    assert q.bySender[sender].document == e.document;
    assert q.bySender[sender := Entry(e.document, e.ownedIds + (got + {sid}))]
        == r.bySender[sender := Entry(e.document, e.ownedIds + (got + {sid}))];
  }

  lemma TookHeld(r: Registry, sender: SenderId, got: set<SignerId>, sid: SignerId)
    requires sender in r.bySender
    ensures r.Took(sender, got).HeldByOther(sender, sid) <==> r.HeldByOther(sender, sid) && sid !in got
  {
  }

  // One id of a message: skipped when another live sender holds it, taken
  // otherwise.
  lemma RegisterOne(r: Registry, sender: SenderId, ids: seq<SignerId>, i: nat)
    requires sender in r.bySender && i < |ids|
    ensures var q, next := r.Took(sender, r.Free(sender, ids[..i])), r.Took(sender, r.Free(sender, ids[..i + 1]));
            && sender in q.bySender
            && next == if q.HeldByOther(sender, ids[i]) then q else q.Took(sender, {ids[i]})
  {
    var got, sid := r.Free(sender, ids[..i]), ids[i];
    FreeOne(r, sender, ids, i);
    TookOne(r, sender, got, sid);
    TookHeld(r, sender, got, sid);
    TookEntries(r, sender, got, sender);
    TookAgain(r, sender, got, sid);
    assert got + {} == got;
    hide Registry.Took, Registry.Free;
  }

  lemma TookAgain(r: Registry, sender: SenderId, got: set<SignerId>, sid: SignerId)
    ensures sid in got ==> got + {sid} == got
  {
  }

  lemma TookNone(r: Registry, sender: SenderId)
    requires sender in r.bySender
    ensures r.Took(sender, {}) == r
  {
    var e := r.bySender[sender];
    assert e.ownedIds + {} == e.ownedIds && r.bySender[sender := e] == r.bySender;
    EachOne(r.ownerBySignerId, {}, sender, "");
    EachOne(r.transports, {}, Transport(sender, e.document), "");
  }

  lemma DroppedOne(r: Registry, sender: SenderId, gone: set<SignerId>, sid: SignerId)
    requires sender in r.bySender
    ensures r.Dropped(sender, gone).Dropped(sender, {sid}) == r.Dropped(sender, gone + {sid})
    ensures r.Dropped(sender, {}) == r
  {
    var e := r.bySender[sender];
    assert e.ownedIds - gone - {sid} == e.ownedIds - (gone + {sid}) && e.ownedIds - {} == e.ownedIds;
    assert r.transports - gone - {sid} == r.transports - (gone + {sid}) && r.transports - {} == r.transports;
  }
}
