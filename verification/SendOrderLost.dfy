/** Runs in which the order of messages is lost: by restarts of the sender, and by a new message
    that overtakes one whose resend was put off. */
module SendOrderLost {
  import opened Bytes
  import opened Packets
  import opened MessageIds
  import opened SendOrder
  import opened Sessions
  import opened StoreAgreement
  import opened Restart
  import opened Delivery
  import opened ExactlyOnce
  import opened OnTheWire

  const PUB := Publication([], [])

  /** A QoS 1 record with this id. */
  function Record(id: MsgId): Message {
    Message(id, 1, false, None, PUB, 0)
  }

  /** A restart between two acknowledged messages starts the ids again below the one in flight; the
      next restart then takes the newer message for the older one. */
  function DisorderRun(): seq<Event> {
    [PublishCall(PUB, 1, false, 0, COMPLETE),
     PublishCall(PUB, 1, false, 0, COMPLETE),
     ReceiverReads(true, COMPLETE),
     SenderReads(0, COMPLETE),
     RestartSender([SentKey(2)], [SentKey(2)], 0),
     PublishCall(PUB, 1, false, 0, COMPLETE),
     RestartSender([SentKey(1), SentKey(2)], [SentKey(1), SentKey(2)], 0)]
  }

  /** Publishing when the next id is free. */
  lemma PublishNext(s: System, id: MsgId, retryInterval: int)
    requires s.sender.msgID == id - 1 < MAX_MSG_ID && |s.sender.outbound| < PUBLISH_LIMIT
    requires forall m :: m in s.sender.outbound ==> m.msgid != id
    ensures var s' := Next(s, PublishCall(PUB, 1, false, 0, COMPLETE), retryInterval);
            && s'.sender.outbound == s.sender.outbound + [Record(id)] && s'.sender.msgID == id
            && s'.sender.store.Keys == s.sender.store.Keys + {SentKey(id)}
            && s'.toReceiver == s.toReceiver + [Frame(PublishOf(Record(id), false), |s.published|)]
            && s'.flight == s.flight[id := |s.published|] && |s'.published| == |s.published| + 1
            && s'.toSender == s.toSender && s'.receiver == s.receiver && s'.handed == s.handed
  {
    hide Wire;
    assert CyclicId(s.sender.msgID, 1) == id;
    assert AssignedId(s.sender.msgID, IdSet(s.sender.outbound)) == id;
  }

  lemma ReadRecord(s: System, id: MsgId, dup: bool, serial: nat, retryInterval: int)
    requires s.toReceiver != [] && s.toReceiver[0] == Frame(PublishOf(Record(id), dup), serial)
    ensures var s' := Next(s, ReceiverReads(true, COMPLETE), retryInterval);
            && s'.sender == s.sender && s'.flight == s.flight && s'.published == s.published
            && s'.toReceiver == s.toReceiver[1..] && s'.toSender == s.toSender + [Ack(PUBACK, false, id)]
            && s'.handed == s.handed + [Handover(serial, Published(PUB, 1, false))]
  {
    hide EntryBytes;
  }

  lemma AckFirst(s: System, a: MsgId, b: MsgId, retryInterval: int)
    requires s.sender.outbound == [Record(a), Record(b)] && a != b && s.toSender == [Ack(PUBACK, false, a)]
    ensures var s' := Next(s, SenderReads(0, COMPLETE), retryInterval);
            && s'.sender.outbound == [Record(b)] && s'.sender.store.Keys == s.sender.store.Keys - {SentKey(a)}
            && s'.flight == s.flight - {a} && s'.published == s.published
  {
    assert Without(s.sender.outbound, 0) == [Record(b)];
  }

  lemma RestartWith(s: System, keys: seq<Key>, retryInterval: int)
    requires Inv(s) && Lists(keys, s.sender.store)
    ensures var s' := Next(s, RestartSender(keys, keys, 0), retryInterval);
            && s'.sender.store == s.sender.store && s'.sender.msgID == 0 && Agrees(s'.sender)
            && Ids(s'.sender.outbound) == RestoredOrder(Ids(s.sender.outbound))
            && (forall id: MsgId :: Find(s'.sender.outbound, id) ==
                  if Find(s.sender.outbound, id).Some? then Some(Untouched(Find(s.sender.outbound, id).value)) else None)
            && s'.flight == s.flight && s'.published == s.published && s'.toReceiver == [] && s'.toSender == []
  {
    hide Restored, Find, Agrees, RestoredOrder;
    SenderAgrees(s);
    RestartKeepsSession(s.sender, keys, keys, 0);
  }

  /** The restored list when it is known which ids it holds. */
  lemma RestoredRecords(before: seq<Message>, after: seq<Message>, ids: seq<MsgId>)
    requires DistinctIds(after) && |after| == |ids| && forall i :: 0 <= i < |ids| ==> after[i].msgid == ids[i]
    requires forall i :: 0 <= i < |ids| ==> Find(before, ids[i]) == Some(Record(ids[i]))
    requires forall id: MsgId :: Find(after, id) ==
               if Find(before, id).Some? then Some(Untouched(Find(before, id).value)) else None
    ensures forall i :: 0 <= i < |ids| ==> after[i] == Record(ids[i])
  {
    forall i | 0 <= i < |ids| ensures after[i] == Record(ids[i]) {
      FindIs(after, ids[i], i);
    }
  }

  /** The window 2, 1 has a gap of 65534 in it and a free arc of 1. */
  lemma NotRecoverable()
    ensures ValidIds([2, 1]) && CyclicWindow([2, 1]) && !Recoverable([2, 1]) && RestoredOrder([2, 1]) == [1, 2]
  {
    var ids: seq<nat> := [2, 1];
    assert Offset(2, 2) == 0 && Offset(2, 1) == 65534;
    assert InnerGap(ids, 1) == 65534 && FreeArc(ids) == 1;
    hide Offset, InnerGap, FreeArc, RestoredOrder;
    RestoredOrderIsSendOrder(ids);
    RestoredOrderIsRotation(ids);
    hide CyclicWindow, Rotate;
    TwoIds(RestoredOrder(ids));
  }

  lemma TwoIds(r: seq<nat>)
    requires |r| == 2 && ValidIds(r) && r != [2, 1] && forall x :: x in r <==> x in [2, 1]
    ensures r == [1, 2]
  {
    assert r[0] in r && r[1] in r;
    assert r[0] != r[1];
    assert r == [r[0], r[1]];
  }

  /** Two messages under way. */
  lemma TwoUnderWay(retryInterval: int) returns (s: System)
    ensures Run(INIT, DisorderRun()[0..], retryInterval) == Run(s, DisorderRun()[2..], retryInterval)
    ensures Inv(s) && s.sender.outbound == [Record(1), Record(2)] && s.sender.store.Keys == {SentKey(1), SentKey(2)}
    ensures s.flight == map[1 := 0, 2 := 1] && |s.published| == 2 && s.toSender == []
    ensures |s.toReceiver| == 2 && s.toReceiver[0] == Frame(PublishOf(Record(1), false), 0)
  {
    hide Next, Inv, Run;
    var r, es := retryInterval, DisorderRun();
    InitInv();
    PublishNext(INIT, 1, r);
    var s1 := Next(INIT, es[0], r);
    PublishNext(s1, 2, r);
    s := Next(s1, es[1], r);
    NextKeepsInv(INIT, es[0], r);
    NextKeepsInv(s1, es[1], r);
    RunStep(INIT, es, 0, r);
    RunStep(s1, es, 1, r);
  }

  /** Call 0 is acknowledged, call 1 in flight under id 2. */
  lemma FirstAcknowledged(retryInterval: int) returns (s: System)
    ensures Run(INIT, DisorderRun()[0..], retryInterval) == Run(s, DisorderRun()[4..], retryInterval)
    ensures Inv(s) && s.sender.outbound == [Record(2)] && s.sender.store.Keys == {SentKey(2)}
    ensures s.flight == map[2 := 1] && |s.published| == 2
  {
    hide Next, Inv, Run;
    var r, es := retryInterval, DisorderRun();
    var s2 := TwoUnderWay(r);
    ReadRecord(s2, 1, false, 0, r);
    var s3 := Next(s2, es[2], r);
    AckFirst(s3, 1, 2, r);
    s := Next(s3, es[3], r);
    NextKeepsInv(s2, es[2], r);
    NextKeepsInv(s3, es[3], r);
    RunStep(s2, es, 2, r);
    RunStep(s3, es, 3, r);
  }

  /** After the first restart the id counter is back at 0. */
  lemma FirstRestart(retryInterval: int) returns (s: System)
    ensures Run(INIT, DisorderRun()[0..], retryInterval) == Run(s, DisorderRun()[5..], retryInterval)
    ensures Inv(s) && s.sender.outbound == [Record(2)] && s.sender.msgID == 0 && s.sender.store.Keys == {SentKey(2)}
    ensures s.flight == map[2 := 1] && |s.published| == 2
  {
    hide Next, Inv, Run;
    var s4 := FirstAcknowledged(retryInterval);
    NextKeepsInv(s4, DisorderRun()[4], retryInterval);
    s := RestartOne(s4, retryInterval);
    RunStep(s4, DisorderRun(), 4, retryInterval);
  }

  lemma RestartOne(s: System, retryInterval: int) returns (s': System)
    requires Inv(s) && s.sender.outbound == [Record(2)] && s.sender.store.Keys == {SentKey(2)}
    ensures s' == Next(s, RestartSender([SentKey(2)], [SentKey(2)], 0), retryInterval)
    ensures s'.sender.outbound == [Record(2)] && s'.sender.msgID == 0 && s'.sender.store == s.sender.store
    ensures s'.flight == s.flight && s'.published == s.published
  {
    hide Inv, Next;
    var keys := [SentKey(2)];
    s' := Next(s, RestartSender(keys, keys, 0), retryInterval);
    SenderAgrees(s);
    OneIdComesBack(s.sender);
    RestartWith(s, keys, retryInterval);
    OutboundDistinct(s'.sender);
    assert Ids(s'.sender.outbound)[0] == 2;
    FindIs(s.sender.outbound, 2, 0);
    RestoredRecords(s.sender.outbound, s'.sender.outbound, [2]);
  }

  lemma RestartTwo(s: System, retryInterval: int) returns (s': System)
    requires Inv(s) && s.sender.outbound == [Record(2), Record(1)] && s.sender.store.Keys == {SentKey(1), SentKey(2)}
    ensures s' == Next(s, RestartSender([SentKey(1), SentKey(2)], [SentKey(1), SentKey(2)], 0), retryInterval)
    ensures s'.sender.outbound == [Record(1), Record(2)] && s'.flight == s.flight && s'.published == s.published
  {
    hide Inv, Next;
    var keys := [SentKey(1), SentKey(2)];
    s' := Next(s, RestartSender(keys, keys, 0), retryInterval);
    SenderAgrees(s);
    NotRecoverable();
    assert Ids(s.sender.outbound) == [2, 1];
    RestartWith(s, keys, retryInterval);
    OutboundDistinct(s'.sender);
    assert Ids(s'.sender.outbound)[0] == 1 && Ids(s'.sender.outbound)[1] == 2;
    FindIs(s.sender.outbound, 2, 0);
    FindIs(s.sender.outbound, 1, 1);
    RestoredRecords(s.sender.outbound, s'.sender.outbound, [1, 2]);
  }

  /** Order is kept up to the second restart and lost there: a reconnect then sends the newer message
      before the older one. */
  lemma RestartsCanLoseOrder(retryInterval: int)
    ensures var s := Run(INIT, DisorderRun(), retryInterval);
            var s' := Next(s, Reconnect(0, true, []), retryInterval);
            && s.sender.outbound == [Record(1), Record(2)] && s.flight == map[2 := 1, 1 := 2]
            && !InSendOrder(s) && !RestartsInWindow(INIT, DisorderRun(), retryInterval)
            && s'.log == s.log + [Frame(PublishOf(Record(1), true), 2), Frame(PublishOf(Record(2), true), 1)]
  {
    hide Next, Inv, Run, RestartsInWindow;
    var r, es := retryInterval, DisorderRun();
    var s5 := FirstRestart(r);
    PublishNext(s5, 1, r);
    var s6 := Next(s5, es[5], r);
    NextKeepsInv(s5, es[5], r);
    var s := RestartTwo(s6, r);
    RunStep(s5, es, 5, r);
    RunStep(s6, es, 6, r);
    RunEnds(s, es, r);
    assert es[0..] == es;
    assert SerialAt(s.flight, s.sender.outbound[0].msgid) > SerialAt(s.flight, s.sender.outbound[1].msgid);
    InitInv();
    RunKeepsOrder(INIT, es, r);
    ResendBoth(s, r);
  }

  lemma ResendBoth(s: System, retryInterval: int)
    requires s.sender.outbound == [Record(1), Record(2)] && s.flight == map[2 := 1, 1 := 2]
    ensures Next(s, Reconnect(0, true, []), retryInterval).log ==
            s.log + [Frame(PublishOf(Record(1), true), 2), Frame(PublishOf(Record(2), true), 1)]
  {
    hide Wire;
    var t := Policy(0, 0, retryInterval, true, true);
    var a := Reconnected(s.sender);
    assert a.outbound == [Record(1), Record(2)];
    var p, q := PublishOf(Record(1), true), PublishOf(Record(2), true);
    var b := ResendAt(a, 0, p, t, COMPLETE);
    assert b.outbound == [Record(1), Record(2)];
    var c := ResendAt(b, 1, q, t, COMPLETE);
    assert RetryFrom(c, 2, t, []) == Pass(c, [], false);
    assert RetryFrom(b, 1, t, []) == Pass(c, [q] + [], false);
    assert RetryFrom(a, 0, t, []) == Pass(c, [p] + ([q] + []), false);
    assert [p] + ([q] + []) == [p, q];
  }

  // Overtaking

  /** The resending pass of a reconnect stops at a packet that is taken only in part; the messages
      behind it wait for the next reconnect, but a new one does not. */
  function OvertakingRun(): seq<Event> {
    [PublishCall(PUB, 1, false, 0, COMPLETE),
     PublishCall(PUB, 1, false, 0, COMPLETE),
     Reconnect(0, true, [INTERRUPTED]),
     PublishCall(PUB, 1, false, 0, COMPLETE),
     ReceiverReads(true, COMPLETE),
     ReceiverReads(true, COMPLETE)]
  }

  lemma ResendFirstOnly(s: System, retryInterval: int)
    requires s.sender.outbound == [Record(1), Record(2)] && s.flight == map[1 := 0, 2 := 1]
    ensures var s' := Next(s, Reconnect(0, true, [INTERRUPTED]), retryInterval);
            && s'.sender.outbound == [Record(1), Record(2)] && s'.sender.msgID == s.sender.msgID
            && s'.toReceiver == [Frame(PublishOf(Record(1), true), 0)] && s'.flight == s.flight
            && s'.published == s.published && s'.handed == s.handed
  {
    hide Wire;
    var t := Policy(0, 0, retryInterval, true, true);
    var a := Reconnected(s.sender);
    assert a.outbound == [Record(1), Record(2)];
    var p := PublishOf(Record(1), true);
    var b := ResendAt(a, 0, p, t, INTERRUPTED);
    assert b.outbound == [Record(1), Record(2)];
    assert RetryFrom(a, 0, t, [INTERRUPTED]) == Pass(b, [p], false);
  }

  /** Before the new message: the first one is under way again, the second is not. */
  lemma FirstResent(retryInterval: int) returns (s: System)
    ensures Run(INIT, OvertakingRun()[0..], retryInterval) == Run(s, OvertakingRun()[3..], retryInterval)
    ensures s.sender.outbound == [Record(1), Record(2)] && s.sender.msgID == 2 && s.flight == map[1 := 0, 2 := 1]
    ensures s.toReceiver == [Frame(PublishOf(Record(1), true), 0)] && |s.published| == 2 && s.handed == []
  {
    hide Next, Run;
    var r, es := retryInterval, OvertakingRun();
    PublishNext(INIT, 1, r);
    var s1 := Next(INIT, es[0], r);
    PublishNext(s1, 2, r);
    var s2 := Next(s1, es[1], r);
    ResendFirstOnly(s2, r);
    s := Next(s2, es[2], r);
    RunStep(INIT, es, 0, r);
    RunStep(s1, es, 1, r);
    RunStep(s2, es, 2, r);
  }

  /** The outbound list is in send order throughout, and yet call 2 is handed over before call 1,
      which is still in flight. */
  lemma NewMessageOvertakes(retryInterval: int)
    ensures var s := Run(INIT, OvertakingRun(), retryInterval);
            && AlwaysInSendOrder(INIT, OvertakingRun(), retryInterval)
            && s.sender.outbound == [Record(1), Record(2), Record(3)] && s.flight == map[1 := 0, 2 := 1, 3 := 2]
            && s.toReceiver == []
            && s.handed == [Handover(0, Published(PUB, 1, false)), Handover(2, Published(PUB, 1, false))]
  {
    hide Next, Run, RestartsInWindow, AlwaysInSendOrder;
    var r, es := retryInterval, OvertakingRun();
    var s3 := FirstResent(r);
    PublishNext(s3, 3, r);
    var s4 := Next(s3, es[3], r);
    ReadRecord(s4, 1, true, 0, r);
    var s5 := Next(s4, es[4], r);
    ReadRecord(s5, 3, false, 2, r);
    var s6 := Next(s5, es[5], r);
    RunStep(s3, es, 3, r);
    RunStep(s4, es, 4, r);
    RunStep(s5, es, 5, r);
    RunEnds(s6, es, r);
    assert es[0..] == es;
    NoRestarts(INIT, es, r);
    SendOrderKept(es, r);
  }

  lemma {:induction false} NoRestarts(s: System, events: seq<Event>, retryInterval: int)
    requires forall e :: e in events ==> !e.RestartSender?
    ensures RestartsInWindow(s, events, retryInterval)
    decreases |events|
  {
    hide Next;
    if events != [] {
      NoRestarts(Next(s, events[0], retryInterval), events[1..], retryInterval);
    }
  }
}
