/** What each protocol step does to one client's session, record by record and key by key, whatever
    the session holds. */
module Handlers {
  import opened Bytes
  import opened Packets
  import opened MessageIds
  import opened Sessions
  import opened StoreAgreement
  import opened Restart
  import Records

  // Inbound messages

  /** One entry joined the end of the application's queue under the next number, and reads back from
      the store under the key of that number; nothing else in queue or store changed but these keys. */
  ghost predicate Queued(s: Session, s': Session, entry: QueueEntry, gone: set<Key>) {
    && s'.queue == s.queue + [entry] && entry.seqno == s.qentrySeqno + 1 == s'.qentrySeqno
    && EntryFor(s'.store, entry.seqno) == Some(entry)
    && s'.store.Keys == s.store.Keys + {QueueKey(entry.seqno)} - gone
    && forall k :: k in s'.store && k != QueueKey(entry.seqno) ==> s'.store[k] == s.store[k]
  }

  lemma EntryReadsBack(store: Store, e: QueueEntry)
    requires Fits(e.pub) && QueueKey(e.seqno) in store && store[QueueKey(e.seqno)] == EntryBytes(e)
    ensures EntryFor(store, e.seqno) == Some(e)
  {
    Records.TakeMessageBack(StoredEntry(e));
  }

  /** A message at QoS 0, with or without pending writes, and at QoS 1 without, reaches the application's
      queue as it came; nothing is answered at QoS 0, and a PUBACK of its id at QoS 1. */
  lemma DeliveredOnArrival(s: Session, p: Packet, noPending: bool, out: SendResult)
    requires p.Publish? && Fits(PubOf(p)) && (p.qos == 0 || (p.qos == 1 && noPending))
    ensures var e := ReceivePublish(s, p, noPending, out);
            && Queued(s, e.s, QueueEntry(s.qentrySeqno + 1, Publication(p.topic, p.payload), p.qos, p.retain, p.dup,
                                         if p.qos == 0 then 0 else p.msgId), {})
            && e.s.outbound == s.outbound && e.s.inbound == s.inbound && e.s.msgID == s.msgID
            && (p.qos == 0 ==> e.sent == [] && e.rc == COMPLETE)
            && (p.qos == 1 ==> e.rc == out && e.sent == if out == ERROR then [] else [Ack(PUBACK, false, p.msgId)])
  {
    hide EntryBytes, EntryFor, Wire, Hold;
    var e := ReceivePublish(s, p, noPending, out).s;
    EntryReadsBack(e.store, e.queue[|s.queue|]);
  }

  /** The number of the next entry is not in use, so that nothing stored is overwritten. */
  lemma NextKeyIsFree(s: Session, n: nat)
    requires Agrees(s) && n > s.qentrySeqno
    ensures QueueKey(n) !in s.store
  {
    assert forall i :: 0 <= i < |s.queue| ==> s.queue[i] in s.queue;
  }

  /** While a write is pending, messages at QoS 1 and 2 are refused: nothing changes and nothing is
      answered, but the copy made of a QoS 2 message as it was read stays in the store. */
  lemma RefusedOnArrival(s: Session, p: Packet, out: SendResult)
    requires p.Publish? && Fits(PubOf(p)) && 1 <= p.qos <= 2
    ensures var e := ReceivePublish(s, p, false, out);
            && e.rc == ERROR && e.sent == []
            && (p.qos == 1 ==> e.s == s)
            && (p.qos == 2 ==> e.s == s.(store := e.s.store) && e.s.store.Keys == s.store.Keys + {ReceivedKey(p.msgId)} &&
                               RestorePacket(e.s.store[ReceivedKey(p.msgId)]) == Some(p) &&
                               forall k :: k in s.store && k != ReceivedKey(p.msgId) ==> e.s.store[k] == s.store[k])
  {
    hide Wire;
    RestorePacketOfWire(p);
  }

  /** A message at QoS 2 is held, in the place of an earlier one with its id or behind all others, and
      stored as it came; the application does not get it yet, and a PUBREC of its id is sent. */
  lemma HeldOnArrival(s: Session, p: Packet, out: SendResult)
    requires p.Publish? && Fits(PubOf(p)) && p.qos == 2
    ensures var e := ReceivePublish(s, p, true, out);
            var m := Message(p.msgId, 2, p.retain, Some(PUBREL), Publication(p.topic, p.payload), 0);
            && e.rc == out && e.sent == (if out == ERROR then [] else [Ack(PUBREC, false, p.msgId)])
            && e.s == s.(inbound := e.s.inbound, store := e.s.store)
            && (forall k :: 0 <= k < |s.inbound| && s.inbound[k].msgid != p.msgId ==> e.s.inbound[k] == s.inbound[k])
            && (if exists k :: 0 <= k < |s.inbound| && s.inbound[k].msgid == p.msgId
                then |e.s.inbound| == |s.inbound| && exists k :: 0 <= k < |s.inbound| && s.inbound[k].msgid == p.msgId && e.s.inbound == s.inbound[k := m]
                else e.s.inbound == s.inbound + [m])
            && e.s.store.Keys == s.store.Keys + {ReceivedKey(p.msgId)}
            && RestorePacket(e.s.store[ReceivedKey(p.msgId)]) == Some(p)
            && forall k :: k in s.store && k != ReceivedKey(p.msgId) ==> e.s.store[k] == s.store[k]
  {
    hide Wire;
    RestorePacketOfWire(p);
    var k := IndexOf(s.inbound, p.msgId);
  }

  /** A PUBREL for a held message passes it on, not marked DUP and under its own id, and forgets it. */
  lemma ReleasedByPubrel(s: Session, id: MsgId, dup: bool, out: SendResult, k: nat)
    requires Agrees(s) && k < |s.inbound| && s.inbound[k].msgid == id
    requires forall m :: m in s.inbound ==> Fits(m.pub)
    ensures var e := HandlePubrel(s, id, dup, true, out);
            && Queued(s, e.s, QueueEntry(s.qentrySeqno + 1, s.inbound[k].pub, 2, s.inbound[k].retain, false, id), {ReceivedKey(id)})
            && e.s.inbound == s.inbound[..k] + s.inbound[k + 1..]
            && e.s.outbound == s.outbound && e.s.msgID == s.msgID
            && e.rc == out && e.sent == if out == ERROR then [] else [Ack(PUBCOMP, false, id)]
  {
    FindAt(s.inbound, k);
    assert InboundAgrees(Find(s.inbound, id), s.store, id);
    hide Agrees, Find, EntryBytes, EntryFor, Wire, InboundAgrees, IndexOf;
    var e := HandlePubrel(s, id, dup, true, out).s;
    var entry := QueueEntry(s.qentrySeqno + 1, s.inbound[k].pub, 2, s.inbound[k].retain, false, id);
    assert e.queue == s.queue + [entry];
    assert e.store == s.store[QueueKey(entry.seqno) := EntryBytes(entry)] - {ReceivedKey(id)};
    EntryReadsBack(e.store, entry);
  }

  /** Any other PUBREL changes nothing: refused while a write is pending, answered if it is marked DUP,
      and otherwise passed over. */
  lemma OtherPubrels(s: Session, id: MsgId, dup: bool, noPending: bool, out: SendResult)
    requires Agrees(s) && forall m :: m in s.inbound ==> Fits(m.pub)
    requires noPending ==> forall k :: 0 <= k < |s.inbound| ==> s.inbound[k].msgid != id
    ensures var e := HandlePubrel(s, id, dup, noPending, out);
            var known := exists k :: 0 <= k < |s.inbound| && s.inbound[k].msgid == id;
            && e.s == s
            && (known || (dup && !noPending) ==> e.rc == ERROR && e.sent == [])
            && (!known && !dup ==> e.rc == COMPLETE && e.sent == [])
            && (!known && dup && noPending ==> e.rc == out && e.sent == if out == ERROR then [] else [Ack(PUBCOMP, false, id)])
  {
    var k := IndexOf(s.inbound, id);
    if k < |s.inbound| {
      FindAt(s.inbound, k);
      assert InboundAgrees(Find(s.inbound, id), s.store, id);
    }
  }

  // The application

  /** The application takes the oldest message, and only its key leaves the store. */
  lemma TakesOldest(s: Session)
    requires Agrees(s)
    ensures s.queue == [] ==> TakeFromQueue(s) == s
    ensures s.queue != [] ==>
              var s', e := TakeFromQueue(s), s.queue[0];
              && s.queue == [e] + s'.queue && (forall x :: x in s'.queue ==> e.seqno < x.seqno)
              && s'.store.Keys == s.store.Keys - {QueueKey(e.seqno)} && QueueKey(e.seqno) in s.store
              && (forall k :: k in s'.store ==> s'.store[k] == s.store[k])
              && s' == s.(queue := s'.queue, store := s'.store)
  {
    if s.queue != [] {
      forall x | x in TakeFromQueue(s).queue ensures s.queue[0].seqno < x.seqno {
        var i :| 0 <= i < |s.queue| - 1 && s.queue[1..][i] == x;
        assert Seqnos(s.queue)[0] < Seqnos(s.queue)[i + 1];
      }
      assert s.queue[0] in s.queue;
    }
  }

  /** A session clean forgets everything but the number of the last queued message. */
  lemma CleanForgets(s: Session)
    ensures var s' := CleanSession(s);
            s'.outbound == [] && s'.inbound == [] && s'.queue == [] && s'.store == map[] && s'.msgID == 0 && s'.qentrySeqno == s.qentrySeqno
  {
  }

  // Outbound messages

  /** A publish call puts a record behind all others, in the first stage of its flow, stores the packet
      it sends, and sends it. */
  lemma PublishRecords(s: Session, pub: Publication, qos: Qos, retain: bool, clock: int, out: SendResult)
    requires Agrees(s) && 1 <= qos <= 2 && Fits(pub) && AssignedId(s.msgID, IdSet(s.outbound)) != 0
    ensures var e, id := NewPublish(s, pub, qos, retain, clock, out), AssignedId(s.msgID, IdSet(s.outbound));
            && 1 <= id <= 65535 && id !in IdSet(s.outbound)
            && e.s.outbound == s.outbound + [Message(id, qos, retain, if qos == 2 then Some(PUBREC) else None, pub, clock)]
            && e.s.msgID == id && e.s == s.(outbound := e.s.outbound, store := e.s.store, msgID := id)
            && SentKey(id) !in s.store && e.s.store.Keys == s.store.Keys + {SentKey(id)}
            && RestorePacket(e.s.store[SentKey(id)]) == Some(Publish(false, qos, retain, id, pub.topic, pub.payload))
            && (forall k :: k in s.store ==> e.s.store[k] == s.store[k])
            && e.rc == out && e.sent == if out == ERROR then [] else [Publish(false, qos, retain, id, pub.topic, pub.payload)]
  {
    hide Wire;
    AssignedIdIsFirstFree(s.msgID, IdSet(s.outbound));
    var id := AssignedId(s.msgID, IdSet(s.outbound));
    FindMembers(s.outbound, id);
    assert OutboundAgrees(Find(s.outbound, id), s.store, id);
    RestorePacketOfWire(Publish(false, qos, retain, id, pub.topic, pub.payload));
  }

  /** The record at position k is gone with the keys of its id; all others are as they were. */
  ghost predicate Retired(s: Session, s': Session, k: nat)
    requires k < |s.outbound|
  {
    var id := s.outbound[k].msgid;
    && s'.outbound == s.outbound[..k] + s.outbound[k + 1..]
    && Find(s'.outbound, id) == None && (forall other: nat :: other != id ==> Find(s'.outbound, other) == Find(s.outbound, other))
    && SentKey(id) !in s'.store && PubrelKey(id) !in s'.store
    && s'.store.Keys == s.store.Keys - {SentKey(id), PubrelKey(id)} && (forall key :: key in s'.store ==> s'.store[key] == s.store[key])
    && s' == s.(outbound := s'.outbound, store := s'.store)
  }

  /** A PUBACK completes the QoS 1 message with its id and changes nothing else. */
  lemma PubackCompletes(s: Session, id: MsgId, k: nat)
    requires Agrees(s) && k < |s.outbound| && s.outbound[k].msgid == id
    ensures if s.outbound[k].qos == 1 then Retired(s, HandlePuback(s, id), k) else HandlePuback(s, id) == s
  {
    FindAt(s.outbound, k);
    assert OutboundAgrees(Find(s.outbound, id), s.store, id);
    forall other: nat ensures Find(Without(s.outbound, k), other) == if other == id then None else Find(s.outbound, other) {
      FindWithout(s.outbound, k, other);
    }
  }

  /** A PUBCOMP completes the QoS 2 message with its id that waits for it, and changes nothing else. */
  lemma PubcompCompletes(s: Session, id: MsgId, k: nat)
    requires Agrees(s) && k < |s.outbound| && s.outbound[k].msgid == id
    ensures if s.outbound[k].qos == 2 && s.outbound[k].next == Some(PUBCOMP) then Retired(s, HandlePubcomp(s, id), k)
            else HandlePubcomp(s, id) == s
  {
    FindAt(s.outbound, k);
    forall other: nat ensures Find(Without(s.outbound, k), other) == if other == id then None else Find(s.outbound, other) {
      FindWithout(s.outbound, k, other);
    }
  }

  /** A PUBREC moves the QoS 2 message with its id that waits for it to the second stage, stores a
      PUBREL and sends it, and changes nothing else. */
  lemma PubrecAdvances(s: Session, id: MsgId, k: nat, clock: int, out: SendResult)
    requires Agrees(s) && k < |s.outbound| && s.outbound[k].msgid == id
    ensures var e, m := HandlePubrec(s, id, clock, out), s.outbound[k];
            if m.qos == 2 && m.next == Some(PUBREC) then
              && e.s == s.(outbound := s.outbound[k := m.(next := Some(PUBCOMP), lastTouch := clock)], store := e.s.store)
              && e.s.store.Keys == s.store.Keys + {PubrelKey(id)}
              && RestorePacket(e.s.store[PubrelKey(id)]) == Some(Ack(PUBREL, false, id))
              && (forall key :: key in s.store && key != PubrelKey(id) ==> e.s.store[key] == s.store[key])
              && e.rc == out && e.sent == (if out == ERROR then [] else [Ack(PUBREL, false, id)])
            else e == Effect(s, [], COMPLETE)
  {
    hide Wire;
    FindAt(s.outbound, k);
    StoredPubrel(id);
  }

  /** An answer to no message in flight changes nothing. */
  lemma UnknownAnswers(s: Session, id: MsgId, clock: int, out: SendResult)
    requires forall k :: 0 <= k < |s.outbound| ==> s.outbound[k].msgid != id
    ensures HandlePuback(s, id) == s && HandlePubcomp(s, id) == s && HandlePubrec(s, id, clock, out) == Effect(s, [], COMPLETE)
  {
  }

  // Resending

  /** A record is resent on a reconnect, or when more than the retry interval, but at least ten seconds,
      has passed since it was last sent. */
  lemma DueWhen(m: Message, t: Policy)
    ensures Due(m, t) <==> t.regardless || (t.now - m.lastTouch > 10 && t.now - m.lastTouch > t.retryInterval)
  {
  }

  /** What a record is resent as, in its stage. */
  lemma ResentAs(m: Message)
    requires ValidOutbound(m)
    ensures Resend(m) == Some(if m.next == Some(PUBCOMP) then Ack(PUBREL, false, m.msgid)
                              else Publish(true, m.qos, m.retain, m.msgid, m.pub.topic, m.pub.payload))
  {
  }

  /** A resend restarts the time of its record unless it failed; a PUBREL that is taken only in part
      counts as failed, a PUBLISH does not. */
  lemma ResendTouches(s: Session, k: nat, t: Policy, out: SendResult)
    requires k < |s.outbound| && ValidOutbound(s.outbound[k])
    ensures var m := s.outbound[k];
            var p := Resend(m).value;
            var s' := ResendAt(s, k, p, t, out);
            && s'.outbound == s.outbound[k := m.(lastTouch := s'.outbound[k].lastTouch)]
            && s'.outbound[k].lastTouch == if out == COMPLETE || (out == INTERRUPTED && m.next != Some(PUBCOMP)) then t.clock else m.lastTouch
  {
  }

  lemma NothingDoneUnready(s: Session, t: Policy, outs: seq<SendResult>)
    requires !t.ready || (!t.regardless && t.retryInterval <= 0)
    ensures Retries(s, t, outs) == Pass(s, [], false)
  {
  }

  /** A reconnect's pass fails exactly at a send that fails or a PUBREL that is taken only in part,
      all sends before it being complete. */
  lemma {:induction false} PassFailsIff(s: Session, k: nat, t: Policy, outs: seq<SendResult>)
    requires k <= |s.outbound| && t.regardless && forall m :: m in s.outbound ==> ValidOutbound(m)
    ensures RetryFrom(s, k, t, outs).failed <==>
            exists j :: k <= j < |s.outbound| && (forall i :: k <= i < j ==> OutcomeAt(outs, i) == COMPLETE) &&
                        (OutcomeAt(outs, j) == ERROR || (OutcomeAt(outs, j) == INTERRUPTED && s.outbound[j].next == Some(PUBCOMP)))
    decreases |s.outbound| - k
  {
    hide Wire, ValidOutbound;
    if k < |s.outbound| {
      var m := s.outbound[k];
      assert m in s.outbound;
      ResentAs(m);
      var s1 := ResendAt(s, k, Resend(m).value, t, OutcomeAt(outs, k));
      if OutcomeAt(outs, k) == COMPLETE {
        StillValid(s, s1, k);
        PassFailsIff(s1, k + 1, t, outs);
      }
    }
  }

  lemma StillValid(s: Session, s1: Session, k: nat)
    requires k < |s.outbound| && |s1.outbound| == |s.outbound| && forall m :: m in s.outbound ==> ValidOutbound(m)
    requires s1.outbound == s.outbound[k := s.outbound[k].(lastTouch := s1.outbound[k].lastTouch)]
    ensures forall m :: m in s1.outbound ==> ValidOutbound(m)
  {
    forall m | m in s1.outbound ensures ValidOutbound(m) {
      var i :| 0 <= i < |s1.outbound| && s1.outbound[i] == m;
      assert s.outbound[i] in s.outbound;
    }
  }

  /** A new connection makes every record as one never sent. */
  lemma ReconnectedRecords(s: Session)
    ensures var r := Reconnected(s);
            && r == s.(outbound := r.outbound) && |r.outbound| == |s.outbound|
            && forall k :: 0 <= k < |s.outbound| ==> r.outbound[k] == s.outbound[k].(lastTouch := 0)
  {
  }
}
