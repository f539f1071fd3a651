// What each event of the signer registry does, id by id and sender by sender,
// in terms of the three maps alone.
module SignerEffects {
  import opened SignerRegistry

  function OwnedBy(r: Registry, sender: SenderId): set<SignerId> {
    if sender in r.bySender then r.bySender[sender].ownedIds else {}
  }

  function DocumentOf(r: Registry, sender: SenderId): nat {
    if sender in r.bySender then r.bySender[sender].document else r.nextDocument
  }

  // A message is taken note of when the listener is attached, the sender
  // trusted, and every id has 1 to 256 characters; any other changes nothing.
  lemma IgnoredMessages(r: Registry, limits: Limits, sender: SenderId, trusted: bool, msg: Message)
    ensures msg.WellFormed()
            <==> msg.Response? || forall k | 0 <= k < |msg.signerIds| :: 1 <= |msg.signerIds[k]| <= 256
    ensures !r.attached || !trusted || !msg.WellFormed() ==> Step(r, limits, Ipc(sender, trusted, msg)) == r
  {
  }

  // The first message of a document makes its entry; the others are kept.
  lemma EntryMade(r: Registry, sender: SenderId, s: SenderId)
    ensures var q := r.WithEntry(sender);
            && sender in q.bySender && q.bySender[sender] == Entry(DocumentOf(r, sender), OwnedBy(r, sender))
            && (s != sender ==> (s in q.bySender <==> s in r.bySender))
            && (s != sender && s in r.bySender ==> q.bySender[s] == r.bySender[s])
            && q.ownerBySignerId == r.ownerBySignerId && q.transports == r.transports && q.attached == r.attached
            && q.nextDocument == if sender in r.bySender then r.nextDocument else r.nextDocument + 1
  {
  }

  lemma ResponseEffect(r: Registry, limits: Limits, sender: SenderId)
    requires r.attached
    ensures Step(r, limits, Ipc(sender, true, Response)) == r.WithEntry(sender)
  {
  }

  // The ids of a message that no other sender holds.
  function Takeable(r: Registry, sender: SenderId, ids: seq<SignerId>): set<SignerId> {
    set x | x in ids && !(x in r.ownerBySignerId && r.ownerBySignerId[x] != sender)
  }

  predicate Fits(r: Registry, limits: Limits, sender: SenderId, ids: seq<SignerId>) {
    && |ids| <= limits.perMessage
    && |OwnedBy(r, sender) + Takeable(r, sender, ids)| <= limits.perSender
  }

  lemma FreeIsTakeable(r: Registry, limits: Limits, sender: SenderId, ids: seq<SignerId>)
    requires r.Consistent(limits)
    ensures r.WithEntry(sender).Free(sender, ids) == Takeable(r, sender, ids)
    ensures r.WithEntry(sender).Admits(limits, sender, ids) <==> Fits(r, limits, sender, ids)
  {
    EntryMade(r, sender, sender);
    var q := r.WithEntry(sender);
    forall x | x in ids
      ensures q.HeldByOther(sender, x) <==> x in r.ownerBySignerId && r.ownerBySignerId[x] != sender
    {
      if x in r.ownerBySignerId && r.ownerBySignerId[x] != sender {
        assert r.OwnerHolds(x);
        EntryMade(r, sender, r.ownerBySignerId[x]);
      }
    }
    hide Registry.WithEntry, Registry.Consistent, Registry.HeldByOther;
  }

  // After a register, for every id: it is routed if it was, or if the message
  // fits and names it; the sender owns and answers for exactly what it owned
  // and, if the message fits, every named id no other sender holds.
  lemma RegisterEffect(r: Registry, limits: Limits, sender: SenderId, ids: seq<SignerId>, sid: SignerId)
    requires r.Consistent(limits) && r.attached && Register(ids).WellFormed()
    ensures var q := Step(r, limits, Ipc(sender, true, Register(ids)));
            var got := if Fits(r, limits, sender, ids) then Takeable(r, sender, ids) else {};
            && (sid in q.transports <==> sid in r.transports || (sid in ids && Fits(r, limits, sender, ids)))
            && (sid in got ==> q.transports[sid] == Transport(sender, DocumentOf(r, sender)))
            && (sid in q.transports && sid !in got ==> q.transports[sid] == r.transports[sid])
            && q.ownerBySignerId.Keys == q.transports.Keys
            && (sid in q.ownerBySignerId ==>
                  q.ownerBySignerId[sid] == if sid in got then sender else r.ownerBySignerId[sid])
            && sender in q.bySender
            && q.bySender[sender] == Entry(DocumentOf(r, sender), OwnedBy(r, sender) + got)
  {
    var q := r.WithEntry(sender);
    EntryMade(r, sender, sender);
    FreeIsTakeable(r, limits, sender, ids);
    StepConsistent(r, limits, Ipc(sender, true, Register(ids)));
    var got := Takeable(r, sender, ids);
    assert OwnedBy(r, sender) + {} == OwnedBy(r, sender);
    TookAt(q, sender, got, sid);
    TookEntries(q, sender, got, sender);
    HeldIsRouted(r, limits, sender, ids, sid);
    hide Registry.WithEntry, Registry.Took, Registry.Admits, Fits, Takeable, OwnedBy, DocumentOf, Registry.Free;
    hide Registry.Inverse, Registry.WithinQuota, Registry.OwnDocuments;
  }

  lemma HeldIsRouted(r: Registry, limits: Limits, sender: SenderId, ids: seq<SignerId>, sid: SignerId)
    requires r.Consistent(limits)
    ensures sid in ids <==> sid in Takeable(r, sender, ids) || (sid in ids && sid in r.transports)
    ensures sid in Takeable(r, sender, ids) ==> sid in ids
  {
  }

  // No message of one sender changes another sender's entry.
  lemma OthersKeepTheirs(r: Registry, limits: Limits, sender: SenderId, msg: Message, s: SenderId)
    requires r.attached && msg.WellFormed() && s != sender
    ensures var q := Step(r, limits, Ipc(sender, true, msg));
            && q.attached
            && (s in q.bySender <==> s in r.bySender)
            && (s in r.bySender ==> q.bySender[s] == r.bySender[s])
  {
  }

  // What dropping ids does to one id and to the sender.
  lemma DroppedAt(q: Registry, sender: SenderId, gone: set<SignerId>, sid: SignerId)
    requires sender in q.bySender
    ensures var n, e := q.Dropped(sender, gone), q.bySender[sender];
            && sender in n.bySender && n.bySender[sender] == Entry(e.document, e.ownedIds - gone)
            && (sid in n.transports <==> sid in q.transports && sid !in gone)
            && (sid in n.transports ==> n.transports[sid] == q.transports[sid])
            && (sid in n.ownerBySignerId ==>
                  sid in q.ownerBySignerId && n.ownerBySignerId[sid] == q.ownerBySignerId[sid])
  {
  }

  // After an unregister, for every id: it is routed exactly if it was and the
  // message did not name it as one of the sender's own; the sender keeps
  // exactly its other ids.
  lemma UnregisterEffect(r: Registry, limits: Limits, sender: SenderId, ids: seq<SignerId>, sid: SignerId)
    requires r.Consistent(limits) && r.attached && Unregister(ids).WellFormed()
    ensures var q := Step(r, limits, Ipc(sender, true, Unregister(ids)));
            && (sid in q.transports
                <==> sid in r.transports && !(sid in ids && sid in OwnedBy(r, sender)))
            && (sid in q.transports ==> q.transports[sid] == r.transports[sid])
            && q.ownerBySignerId.Keys == q.transports.Keys
            && (sid in q.ownerBySignerId ==> q.ownerBySignerId[sid] == r.ownerBySignerId[sid])
            && sender in q.bySender && q.bySender[sender].document == DocumentOf(r, sender)
            && (sid in q.bySender[sender].ownedIds <==> sid in OwnedBy(r, sender) && sid !in ids)
  {
    StepConsistent(r, limits, Ipc(sender, true, Unregister(ids)));
    var q := r.WithEntry(sender);
    var gone := set x | x in ids && x in OwnedBy(r, sender);
    EntryMade(r, sender, sender);
    DroppedAt(q, sender, gone, sid);
    hide Registry.WithEntry, Registry.Dropped, OwnedBy, DocumentOf;
    hide Registry.Inverse, Registry.WithinQuota, Registry.OwnDocuments;
    assert Step(r, limits, Ipc(sender, true, Unregister(ids))) == q.Dropped(sender, gone);
  }

  // A live document's end takes away exactly what it held; any other
  // document's end changes nothing.
  lemma EndEffect(r: Registry, limits: Limits, sender: SenderId, document: nat, sid: SignerId, s: SenderId)
    requires r.Consistent(limits)
    ensures var q, ends := Step(r, limits, DocumentEnd(sender, document)),
                sender in r.bySender && r.bySender[sender].document == document;
            && (!ends ==> q == r)
            && (sid in q.transports <==> sid in r.transports && !(ends && r.ownerBySignerId[sid] == sender))
            && (sid in q.transports ==> q.transports[sid] == r.transports[sid])
            && q.ownerBySignerId.Keys == q.transports.Keys
            && (sid in q.ownerBySignerId ==> q.ownerBySignerId[sid] == r.ownerBySignerId[sid])
            && (s in q.bySender <==> s in r.bySender && !(ends && s == sender))
            && (s in q.bySender ==> q.bySender[s] == r.bySender[s])
            && q.attached == r.attached && q.nextDocument == r.nextDocument
  {
    StepConsistent(r, limits, DocumentEnd(sender, document));
    hide Registry.WithinQuota, Registry.OwnDocuments;
  }

  lemma DetachEffect(r: Registry, limits: Limits)
    requires r.Consistent(limits)
    ensures var q := Step(r, limits, Detach);
            !q.attached && q.bySender == map[] && q.ownerBySignerId == map[] && q.transports == map[]
  {
    DetachedIs(r, limits);
  }
}
