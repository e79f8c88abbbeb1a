/** The persistent store agrees with the lists in memory after every protocol step. */
module StoreAgreement {
  import opened Bytes
  import opened Packets
  import opened MessageIds
  import opened SendOrder
  import opened Sessions

  ghost predicate DistinctIds(list: seq<Message>) {
    forall i, j :: 0 <= i < j < |list| ==> list[i].msgid != list[j].msgid
  }

  // Looking up records in lists without repeated ids

  lemma FindAt(list: seq<Message>, k: nat)
    requires DistinctIds(list) && k < |list|
    ensures IndexOf(list, list[k].msgid) == k && Find(list, list[k].msgid) == Some(list[k])
  {
    var f := IndexOf(list, list[k].msgid);
    assert f <= k;
  }

  lemma FindMembers(list: seq<Message>, id: nat)
    ensures Find(list, id).Some? <==> id in IdSet(list)
    ensures Find(list, id).Some? ==> Find(list, id).value in list && Find(list, id).value.msgid == id
  {
    if id in IdSet(list) {
      var m :| m in list && m.msgid == id;
      var k :| 0 <= k < |list| && list[k] == m;
      assert IndexOf(list, id) <= k;
    }
  }

  lemma FindIs(list: seq<Message>, id: nat, k: nat)
    requires DistinctIds(list) && k < |list| && list[k].msgid == id
    ensures Find(list, id) == Some(list[k])
  {
    FindAt(list, k);
  }

  lemma FindNone(list: seq<Message>, id: nat)
    requires forall i :: 0 <= i < |list| ==> list[i].msgid != id
    ensures Find(list, id) == None
  {
  }

  lemma FindAppended(list: seq<Message>, m: Message, id: nat)
    requires DistinctIds(list) && Find(list, m.msgid) == None
    ensures DistinctIds(list + [m])
    ensures Find(list + [m], id) == if id == m.msgid then Some(m) else Find(list, id)
  {
    var all := list + [m];
    var k := IndexOf(list, id);
    if id == m.msgid {
      FindIs(all, id, |list|);
    } else if k < |list| {
      FindIs(all, id, k);
    } else {
      FindNone(all, id);
    }
  }

  lemma DistinctWithout(list: seq<Message>, k: nat)
    requires DistinctIds(list) && k < |list|
    ensures DistinctIds(Without(list, k))
    ensures forall i :: 0 <= i < |list| - 1 ==> Without(list, k)[i].msgid != list[k].msgid
  {
    var rest := Without(list, k);
    forall i, j | 0 <= i < j < |rest| ensures rest[i].msgid != rest[j].msgid {
      var a, b := if i < k then i else i + 1, if j < k then j else j + 1;
      assert rest[i] == list[a] && rest[j] == list[b] && a < b;
    }
    forall i | 0 <= i < |rest| ensures rest[i].msgid != list[k].msgid {
      assert rest[i] == list[if i < k then i else i + 1];
    }
  }

  lemma FindWithout(list: seq<Message>, k: nat, id: nat)
    requires DistinctIds(list) && k < |list|
    ensures DistinctIds(Without(list, k))
    ensures Find(Without(list, k), id) == if id == list[k].msgid then None else Find(list, id)
  {
    var rest := Without(list, k);
    var f := IndexOf(list, id);
    DistinctWithout(list, k);
    hide DistinctIds;
    if id == list[k].msgid {
      FindNone(rest, id);
    } else if f < |list| {
      var g := if f < k then f else f - 1;
      assert rest[g] == list[f];
      FindIs(rest, id, g);
    } else {
      forall i | 0 <= i < |rest| ensures rest[i].msgid != id {
        assert rest[i] == list[if i < k then i else i + 1];
      }
      FindNone(rest, id);
    }
  }

  lemma FindReplaced(list: seq<Message>, k: nat, m: Message, id: nat)
    requires DistinctIds(list) && k < |list| && list[k].msgid == m.msgid
    ensures DistinctIds(list[k := m])
    ensures Find(list[k := m], id) == if id == m.msgid then Some(m) else Find(list, id)
  {
    var f := IndexOf(list, id);
    if id == m.msgid {
      FindIs(list[k := m], id, k);
    } else if f < |list| {
      FindIs(list[k := m], id, f);
    } else {
      FindNone(list[k := m], id);
    }
  }

  // Agreement

  /** The bytes decode to this record, whatever their DUP flag. */
  ghost predicate Decodes(bytes: seq<byte>, m: Message) {
    RestorePacket(bytes) == Some(PublishOf(m, false)) || RestorePacket(bytes) == Some(PublishOf(m, true))
  }

  ghost predicate ValidOutbound(m: Message) {
    m.msgid >= 1 && Fits(m.pub) &&
    ((m.qos == 1 && m.next == None) || (m.qos == 2 && (m.next == Some(PUBREC) || m.next == Some(PUBCOMP))))
  }

  ghost predicate OutboundAgrees(o: Option<Message>, store: Store, id: MsgId) {
    && (SentKey(id) in store <==> o.Some?)
    && (o.Some? ==> ValidOutbound(o.value) && Decodes(store[SentKey(id)], o.value))
    && (PubrelKey(id) in store <==> o.Some? && o.value.next == Some(PUBCOMP))
    && (PubrelKey(id) in store ==> RestorePacket(store[PubrelKey(id)]) == Some(PubrelOf(id, false)))
  }

  ghost predicate ValidInbound(m: Message) {
    m.qos == 2 && m.next == Some(PUBREL) && Fits(m.pub)
  }

  /** A message held for PUBREL is stored; a stored one that is not held was refused on arrival. */
  ghost predicate InboundAgrees(i: Option<Message>, store: Store, id: MsgId) {
    && (i.Some? ==> ValidInbound(i.value) && ReceivedKey(id) in store)
    && (ReceivedKey(id) in store ==>
          var p := RestorePacket(store[ReceivedKey(id)]);
          p.Some? && p.value.Publish? && p.value.qos == 2 && p.value.msgId == id && Fits(PubOf(p.value)))
  }

  ghost predicate ListsAgree(s: Session) {
    && DistinctIds(s.outbound) && DistinctIds(s.inbound)
    && s.msgID <= MAX_MSG_ID
    && (forall id: MsgId :: OutboundAgrees(Find(s.outbound, id), s.store, id))
    && (forall id: MsgId :: InboundAgrees(Find(s.inbound, id), s.store, id))
  }

  ghost predicate QueueAgrees(s: Session) {
    && Increasing(Seqnos(s.queue))
    && (forall e :: e in s.queue ==> e.seqno <= s.qentrySeqno && Fits(e.pub))
    && (forall n: nat :: QueueKey(n) in s.store <==> n in Seqnos(s.queue))
    && (forall e :: e in s.queue ==> QueueKey(e.seqno) in s.store && s.store[QueueKey(e.seqno)] == EntryBytes(e))
  }

  ghost predicate Agrees(s: Session) {
    ListsAgree(s) && QueueAgrees(s)
  }

  lemma OutboundDistinct(s: Session)
    requires Agrees(s)
    ensures DistinctIds(s.outbound)
  {
  }

  lemma StoredPublish(m: Message, dup: bool)
    requires Fits(m.pub) && m.qos > 0
    ensures RestorePacket(Wire(PublishOf(m, dup))) == Some(PublishOf(m, dup))
    ensures Decodes(Wire(PublishOf(m, dup)), m)
  {
    RestorePacketOfWire(PublishOf(m, dup));
  }

  lemma StoredPubrel(id: MsgId)
    ensures RestorePacket(Wire(PubrelOf(id, false))) == Some(PubrelOf(id, false))
  {
    RestorePacketOfWire(PubrelOf(id, false));
  }

  lemma EmptyAgrees(seqno: nat)
    ensures Agrees(EMPTY_SESSION.(qentrySeqno := seqno))
  {
  }

  ghost predicate SameOutside(a: Store, b: Store, keys: set<Key>) {
    forall k :: k !in keys ==> (k in a <==> k in b) && (k in a ==> a[k] == b[k])
  }

  /** A step that touches only the outbound record with this id and its two keys. */
  lemma OutboundStep(s: Session, s': Session, id: MsgId)
    requires Agrees(s)
    requires s' == s.(outbound := s'.outbound, store := s'.store, msgID := s'.msgID) && s'.msgID <= MAX_MSG_ID
    requires DistinctIds(s'.outbound)
    requires forall other: MsgId :: other != id ==> Find(s'.outbound, other) == Find(s.outbound, other)
    requires SameOutside(s.store, s'.store, {SentKey(id), PubrelKey(id)})
    requires OutboundAgrees(Find(s'.outbound, id), s'.store, id)
    ensures Agrees(s')
  {
    hide OutboundAgrees, InboundAgrees, Find, DistinctIds;
    forall other: MsgId ensures OutboundAgrees(Find(s'.outbound, other), s'.store, other) {
      if other != id {
        OutboundElsewhere(Find(s.outbound, other), s.store, s'.store, other, id);
      }
    }
    forall other: MsgId ensures InboundAgrees(Find(s'.inbound, other), s'.store, other) {
      InboundElsewhere(Find(s.inbound, other), s.store, s'.store, other, id);
    }
    QueueElsewhere(s, s', id);
  }

  lemma OutboundElsewhere(o: Option<Message>, a: Store, b: Store, other: MsgId, id: MsgId)
    requires OutboundAgrees(o, a, other) && other != id && SameOutside(a, b, {SentKey(id), PubrelKey(id)})
    ensures OutboundAgrees(o, b, other)
  {
    assert SentKey(other) !in {SentKey(id), PubrelKey(id)} && PubrelKey(other) !in {SentKey(id), PubrelKey(id)};
  }

  lemma InboundElsewhere(i: Option<Message>, a: Store, b: Store, other: MsgId, id: MsgId)
    requires InboundAgrees(i, a, other) && SameOutside(a, b, {SentKey(id), PubrelKey(id)})
    ensures InboundAgrees(i, b, other)
  {
    assert ReceivedKey(other) !in {SentKey(id), PubrelKey(id)};
  }

  lemma QueueElsewhere(s: Session, s': Session, id: MsgId)
    requires QueueAgrees(s) && s'.queue == s.queue && s'.qentrySeqno == s.qentrySeqno
    requires SameOutside(s.store, s'.store, {SentKey(id), PubrelKey(id)})
    ensures QueueAgrees(s')
  {
    hide EntryBytes, Fits;
    assert forall n: nat :: QueueKey(n) !in {SentKey(id), PubrelKey(id)};
  }

  lemma NewPublishAgrees(s: Session, pub: Publication, qos: Qos, retain: bool, clock: int, out: SendResult)
    requires Agrees(s) && 1 <= qos <= 2 && Fits(pub)
    ensures Agrees(NewPublish(s, pub, qos, retain, clock, out).s)
  {
    hide Wire, RestorePacket, QueueAgrees, InboundAgrees, AssignedId;
    var id := AssignedId(s.msgID, IdSet(s.outbound));
    AssignedIdIsFirstFree(s.msgID, IdSet(s.outbound));
    if id != 0 {
      var s' := NewPublish(s, pub, qos, retain, clock, out).s;
      var m := Message(id, qos, retain, FirstStage(qos), pub, clock);
      FindMembers(s.outbound, id);
      StoredPublish(m, false);
      forall other: MsgId ensures Find(s'.outbound, other) == if other == id then Some(m) else Find(s.outbound, other) {
        FindAppended(s.outbound, m, other);
      }
      FindAppended(s.outbound, m, id);
      assert OutboundAgrees(Find(s.outbound, id), s.store, id);
      OutboundStep(s, s', id);
    }
  }

  /** Dropping a record together with its keys. */
  lemma RetireAgrees(s: Session, k: nat, keys: set<Key>)
    requires Agrees(s) && k < |s.outbound|
    requires var id := s.outbound[k].msgid;
             keys == {SentKey(id), PubrelKey(id)} || (s.outbound[k].qos == 1 && keys == {SentKey(id)})
    ensures Agrees(s.(outbound := Without(s.outbound, k), store := s.store - keys))
  {
    var id := s.outbound[k].msgid;
    var s' := s.(outbound := Without(s.outbound, k), store := s.store - keys);
    FindAt(s.outbound, k);
    assert OutboundAgrees(Find(s.outbound, id), s.store, id);
    forall other: MsgId ensures Find(s'.outbound, other) == if other == id then None else Find(s.outbound, other) {
      FindWithout(s.outbound, k, other);
    }
    FindWithout(s.outbound, k, id);
    OutboundStep(s, s', id);
  }

  lemma PubackAgrees(s: Session, id: MsgId)
    requires Agrees(s)
    ensures Agrees(HandlePuback(s, id))
  {
    if HandlePuback(s, id) != s {
      RetireAgrees(s, IndexOf(s.outbound, id), {SentKey(id)});
    }
  }

  lemma PubcompAgrees(s: Session, id: MsgId)
    requires Agrees(s)
    ensures Agrees(HandlePubcomp(s, id))
  {
    if HandlePubcomp(s, id) != s {
      RetireAgrees(s, IndexOf(s.outbound, id), {SentKey(id), PubrelKey(id)});
    }
  }

  /** Rewriting one of the two keys of a record, and the record to match. */
  lemma RewriteAgrees(s: Session, k: nat, m: Message, p: Packet)
    requires Agrees(s) && k < |s.outbound| && ValidOutbound(m)
    requires m == s.outbound[k].(next := m.next, lastTouch := m.lastTouch)
    requires if p.Ack? then p == PubrelOf(m.msgid, false) && m.next == Some(PUBCOMP)
             else p == PublishOf(m, p.dup) && m.next == s.outbound[k].next
    ensures Agrees(s.(outbound := s.outbound[k := m],
                      store := s.store[(if p.Ack? then PubrelKey(m.msgid) else SentKey(m.msgid)) := Wire(p)]))
  {
    hide Wire, Find, QueueAgrees, InboundAgrees, OutboundAgrees, ValidOutbound;
    var key := if p.Ack? then PubrelKey(m.msgid) else SentKey(m.msgid);
    var s' := s.(outbound := s.outbound[k := m], store := s.store[key := Wire(p)]);
    FindAt(s.outbound, k);
    assert OutboundAgrees(Find(s.outbound, m.msgid), s.store, m.msgid);
    forall other: MsgId ensures Find(s'.outbound, other) == if other == m.msgid then Some(m) else Find(s.outbound, other) {
      FindReplaced(s.outbound, k, m, other);
    }
    FindReplaced(s.outbound, k, m, m.msgid);
    RewrittenAgrees(s.outbound[k], m, s.store, p);
    OutboundStep(s, s', m.msgid);
  }

  /** Storing a packet for a record together with its new stage. */
  lemma RewrittenAgrees(was: Message, m: Message, store: Store, p: Packet)
    requires OutboundAgrees(Some(was), store, m.msgid) && ValidOutbound(m)
    requires m == was.(next := m.next, lastTouch := m.lastTouch)
    requires if p.Ack? then p == PubrelOf(m.msgid, false) && m.next == Some(PUBCOMP)
             else p == PublishOf(m, p.dup) && m.next == was.next
    ensures var key := if p.Ack? then PubrelKey(m.msgid) else SentKey(m.msgid);
            OutboundAgrees(Some(m), store[key := Wire(p)], m.msgid)
  {
    hide Wire, RestorePacket;
    if p.Ack? {
      StoredPubrel(m.msgid);
    } else {
      StoredPublish(m, p.dup);
    }
  }

  lemma PubrecAgrees(s: Session, id: MsgId, clock: int, out: SendResult)
    requires Agrees(s)
    ensures Agrees(HandlePubrec(s, id, clock, out).s)
  {
    var s' := HandlePubrec(s, id, clock, out).s;
    var k := IndexOf(s.outbound, id);
    if s' != s {
      assert OutboundAgrees(Find(s.outbound, id), s.store, id);
      RewriteAgrees(s, k, s.outbound[k].(next := Some(PUBCOMP), lastTouch := clock), PubrelOf(id, false));
    }
  }

  lemma ResendAtAgrees(s: Session, k: nat, t: Policy, out: SendResult)
    requires Agrees(s) && k < |s.outbound| && Resend(s.outbound[k]).Some?
    ensures Agrees(ResendAt(s, k, Resend(s.outbound[k]).value, t, out))
  {
    var m := s.outbound[k];
    var p := Resend(m).value;
    FindAt(s.outbound, k);
    assert OutboundAgrees(Find(s.outbound, m.msgid), s.store, m.msgid);
    RewriteAgrees(s, k, ResendAt(s, k, p, t, out).outbound[k], p);
  }

  lemma {:induction false} RetryFromAgrees(s: Session, k: nat, t: Policy, outs: seq<SendResult>)
    requires Agrees(s) && k <= |s.outbound|
    ensures Agrees(RetryFrom(s, k, t, outs).s)
    decreases |s.outbound| - k
  {
    if k < |s.outbound| {
      if !Due(s.outbound[k], t) || Resend(s.outbound[k]) == None {
        RetryFromAgrees(s, k + 1, t, outs);
      } else {
        var out := OutcomeAt(outs, k);
        ResendAtAgrees(s, k, t, out);
        RetryFromAgrees(ResendAt(s, k, Resend(s.outbound[k]).value, t, out), k + 1, t, outs);
      }
    }
  }

  // Inbound steps

  /** A step that touches only the inbound record with this id and its key. */
  lemma InboundStep(s: Session, s': Session, id: MsgId)
    requires Agrees(s)
    requires s' == s.(inbound := s'.inbound, store := s'.store)
    requires DistinctIds(s'.inbound)
    requires forall other: MsgId :: other != id ==> Find(s'.inbound, other) == Find(s.inbound, other)
    requires SameOutside(s.store, s'.store, {ReceivedKey(id)})
    requires InboundAgrees(Find(s'.inbound, id), s'.store, id)
    ensures Agrees(s')
  {
    forall other: MsgId ensures OutboundAgrees(Find(s'.outbound, other), s'.store, other) {
      assert OutboundAgrees(Find(s.outbound, other), s.store, other);
      assert SentKey(other) !in {ReceivedKey(id)} && PubrelKey(other) !in {ReceivedKey(id)};
    }
    forall other: MsgId ensures InboundAgrees(Find(s'.inbound, other), s'.store, other) {
      if other != id {
        assert InboundAgrees(Find(s.inbound, other), s.store, other);
        assert ReceivedKey(other) !in {ReceivedKey(id)};
      }
    }
    forall n: nat ensures QueueKey(n) in s'.store <==> n in Seqnos(s'.queue) {
      assert QueueKey(n) !in {ReceivedKey(id)};
    }
    forall e | e in s'.queue ensures QueueKey(e.seqno) in s'.store && s'.store[QueueKey(e.seqno)] == EntryBytes(e) {
      assert QueueKey(e.seqno) !in {ReceivedKey(id)};
    }
  }

  lemma ProcessPublicationAgrees(s: Session, pub: Publication, qos: Qos, retain: bool, dup: bool, id: MsgId)
    requires Agrees(s) && Fits(pub)
    ensures Agrees(ProcessPublication(s, pub, qos, retain, dup, id))
  {
    var s' := ProcessPublication(s, pub, qos, retain, dup, id);
    var key := QueueKey(s'.qentrySeqno);
    forall other: MsgId
      ensures OutboundAgrees(Find(s'.outbound, other), s'.store, other)
      ensures InboundAgrees(Find(s'.inbound, other), s'.store, other)
    {
      assert OutboundAgrees(Find(s.outbound, other), s.store, other);
      assert InboundAgrees(Find(s.inbound, other), s.store, other);
    }
    assert Seqnos(s'.queue) == Seqnos(s.queue) + [s'.qentrySeqno];
    forall i | 0 <= i < |s.queue| ensures Seqnos(s.queue)[i] < s'.qentrySeqno {
      assert s.queue[i] in s.queue;
    }
  }

  lemma TakeFromQueueAgrees(s: Session)
    requires Agrees(s)
    ensures Agrees(TakeFromQueue(s))
  {
    if s.queue != [] {
      hide ListsAgree, QueueAgrees;
      ListsIgnoreQueueKey(s, TakeFromQueue(s));
      QueueWithoutFirst(s, TakeFromQueue(s));
    }
  }

  lemma ListsIgnoreQueueKey(s: Session, s': Session)
    requires ListsAgree(s) && s.queue != [] && s' == TakeFromQueue(s)
    ensures ListsAgree(s')
  {
    hide Find, DistinctIds, RestorePacket;
    forall other: MsgId ensures OutboundAgrees(Find(s'.outbound, other), s'.store, other) {
      assert OutboundAgrees(Find(s.outbound, other), s.store, other);
    }
    forall other: MsgId ensures InboundAgrees(Find(s'.inbound, other), s'.store, other) {
      assert InboundAgrees(Find(s.inbound, other), s.store, other);
    }
  }

  lemma QueueWithoutFirst(s: Session, s': Session)
    requires QueueAgrees(s) && s.queue != [] && s' == TakeFromQueue(s)
    ensures QueueAgrees(s')
  {
    hide EntryBytes, Fits;
    var first, rest := s.queue[0], s'.queue;
    assert s.queue == [first] + rest;
    SeqnosTail(s.queue);
    hide Seqnos;
    forall n: nat ensures QueueKey(n) in s'.store <==> n in Seqnos(rest) {
      assert QueueKey(n) in s.store <==> n in Seqnos(s.queue);
    }
    forall e | e in rest ensures QueueKey(e.seqno) in s'.store && s'.store[QueueKey(e.seqno)] == EntryBytes(e) {
      assert e in s.queue;
    }
  }

  lemma SeqnosTail(q: seq<QueueEntry>)
    requires q != [] && Increasing(Seqnos(q))
    ensures Increasing(Seqnos(q[1..]))
    ensures forall n :: n in Seqnos(q[1..]) <==> n in Seqnos(q) && n != q[0].seqno
    ensures forall e :: e in q[1..] ==> e.seqno != q[0].seqno
  {
    var rest := q[1..];
    assert Seqnos(q) == [q[0].seqno] + Seqnos(rest);
    forall i | 0 <= i < |rest| ensures rest[i].seqno > q[0].seqno {
      assert Seqnos(q)[0] < Seqnos(q)[i + 1];
    }
  }

  /** Persisting a QoS 2 PUBLISH as it is read, whether or not it is then accepted. */
  lemma PersistReceivedAgrees(s: Session, p: Packet)
    requires Agrees(s) && p.Publish? && p.qos == 2 && Fits(PubOf(p))
    ensures Agrees(s.(store := s.store[ReceivedKey(p.msgId) := Wire(p)]))
  {
    RestorePacketOfWire(p);
    assert InboundAgrees(Find(s.inbound, p.msgId), s.store, p.msgId);
    InboundStep(s, s.(store := s.store[ReceivedKey(p.msgId) := Wire(p)]), p.msgId);
  }

  lemma HoldAgrees(s: Session, m: Message)
    requires Agrees(s) && ValidInbound(m) && ReceivedKey(m.msgid) in s.store
    ensures Agrees(s.(inbound := Hold(s.inbound, m)))
  {
    var k := IndexOf(s.inbound, m.msgid);
    var inbound := Hold(s.inbound, m);
    forall other: MsgId ensures DistinctIds(inbound) && Find(inbound, other) == if other == m.msgid then Some(m) else Find(s.inbound, other) {
      if k < |s.inbound| {
        FindReplaced(s.inbound, k, m, other);
      } else {
        FindAppended(s.inbound, m, other);
      }
    }
    assert Find(inbound, m.msgid) == Some(m);
    assert InboundAgrees(Find(s.inbound, m.msgid), s.store, m.msgid);
    InboundStep(s, s.(inbound := inbound), m.msgid);
  }

  lemma ReceivePublishAgrees(s: Session, p: Packet, noPending: bool, out: SendResult)
    requires Agrees(s) && p.Publish? && Fits(PubOf(p))
    ensures Agrees(ReceivePublish(s, p, noPending, out).s)
  {
    if p.qos == 0 {
      ProcessPublicationAgrees(s, PubOf(p), 0, p.retain, p.dup, 0);
    } else if p.qos == 1 {
      ProcessPublicationAgrees(s, PubOf(p), 1, p.retain, p.dup, p.msgId);
    } else if p.qos == 2 {
      PersistReceivedAgrees(s, p);
      HoldAgrees(s.(store := s.store[ReceivedKey(p.msgId) := Wire(p)]),
                 Message(p.msgId, 2, p.retain, Some(PUBREL), PubOf(p), 0));
    }
  }

  /** Everything held for PUBREL fits, so that it can be handed over. */
  lemma InboundFits(s: Session)
    requires ListsAgree(s)
    ensures forall m :: m in s.inbound ==> ValidInbound(m)
  {
    forall m | m in s.inbound ensures ValidInbound(m) {
      var k :| 0 <= k < |s.inbound| && s.inbound[k] == m;
      FindAt(s.inbound, k);
      assert InboundAgrees(Find(s.inbound, m.msgid), s.store, m.msgid);
    }
  }

  lemma ReleaseAgrees(s: Session, k: nat)
    requires Agrees(s) && k < |s.inbound|
    ensures Agrees(s.(store := s.store - {ReceivedKey(s.inbound[k].msgid)}, inbound := Without(s.inbound, k)))
  {
    var id := s.inbound[k].msgid;
    var s' := s.(store := s.store - {ReceivedKey(id)}, inbound := Without(s.inbound, k));
    forall other: MsgId ensures Find(s'.inbound, other) == if other == id then None else Find(s.inbound, other) {
      FindWithout(s.inbound, k, other);
    }
    FindWithout(s.inbound, k, id);
    InboundStep(s, s', id);
  }

  lemma PubrelAgrees(s: Session, id: MsgId, dup: bool, noPending: bool, out: SendResult)
    requires Agrees(s)
    requires forall m :: m in s.inbound ==> Fits(m.pub)
    ensures Agrees(HandlePubrel(s, id, dup, noPending, out).s)
  {
    var s' := HandlePubrel(s, id, dup, noPending, out).s;
    if s' != s {
      var k := IndexOf(s.inbound, id);
      var m := s.inbound[k];
      ProcessPublicationAgrees(s, m.pub, m.qos, m.retain, false, m.msgid);
      ReleaseAgrees(ProcessPublication(s, m.pub, m.qos, m.retain, false, m.msgid), k);
    }
  }
}
