/** The order and kind of packets the sender transmits, sections 4.4 and 4.6 of MQTT 3.1.1. */
module OnTheWire {
  import opened Bytes
  import opened Packets
  import opened MessageIds
  import opened SendOrder
  import opened Sessions
  import opened StoreAgreement
  import opened Restart
  import opened Delivery
  import opened ExactlyOnce

  // One resending pass

  /** What a complete resend of a list would transmit. */
  function AllResends(list: seq<Message>): seq<Packet> {
    if list == [] then []
    else (if Resend(list[0]).Some? then [Resend(list[0]).value] else []) + AllResends(list[1..])
  }

  predicate SameRecords(a: seq<Message>, b: seq<Message>) {
    |a| == |b| && forall i :: 0 <= i < |a| ==> a[i] == b[i].(lastTouch := a[i].lastTouch)
  }

  /** On reconnect the packets resent are those of a prefix of the outbound list, in its order; only
      a send that does not complete cuts the pass short.  The records themselves do not change. */
  lemma {:induction false} ResendsAreAPrefix(s: Session, k: nat, t: Policy, outs: seq<SendResult>)
    requires k <= |s.outbound| && t.regardless
    ensures var pass := RetryFrom(s, k, t, outs);
            && pass.sent <= AllResends(s.outbound[k..])
            && SameRecords(pass.s.outbound, s.outbound)
            && ((forall i :: k <= i < |s.outbound| ==> OutcomeAt(outs, i) == COMPLETE) ==>
                  pass.sent == AllResends(s.outbound[k..]) && !pass.failed)
    decreases |s.outbound| - k
  {
    if k < |s.outbound| {
      assert s.outbound[k..][1..] == s.outbound[k + 1..];
      if Resend(s.outbound[k]) == None {
        ResendsAreAPrefix(s, k + 1, t, outs);
      } else {
        var p := Resend(s.outbound[k]).value;
        var s1 := ResendAt(s, k, p, t, OutcomeAt(outs, k));
        ResendsAreAPrefix(s1, k + 1, t, outs);
        assert s1.outbound[k + 1..] == s.outbound[k + 1..];
        assert AllResends(s.outbound[k..]) == [p] + AllResends(s.outbound[k + 1..]);
        hide Wire, Resend, AllResends;
      }
    }
  }

  lemma {:induction false} AllResendsSize(list: seq<Message>)
    requires forall m :: m in list ==> Resend(m).Some?
    ensures |AllResends(list)| == |list|
  {
    if list != [] {
      AllResendsSize(list[1..]);
    }
  }

  /** The pass of a reconnect transmits for every record exactly when all sends but the last complete
      and the last does not fail. */
  lemma {:induction false} ResendsAllIff(s: Session, k: nat, t: Policy, outs: seq<SendResult>)
    requires k < |s.outbound| && t.regardless && forall m :: m in s.outbound ==> Resend(m).Some?
    ensures RetryFrom(s, k, t, outs).sent == AllResends(s.outbound[k..]) <==>
            (forall i :: k <= i < |s.outbound| - 1 ==> OutcomeAt(outs, i) == COMPLETE) && OutcomeAt(outs, |s.outbound| - 1) != ERROR
    decreases |s.outbound| - k
  {
    hide Resend, Wire;
    var m := s.outbound[k];
    var p, out := Resend(m).value, OutcomeAt(outs, k);
    var s1 := ResendAt(s, k, p, t, out);
    assert s.outbound[k..][1..] == s.outbound[k + 1..] == s1.outbound[k + 1..];
    forall x | x in s.outbound[k..] ensures Resend(x).Some? {
      assert x in s.outbound;
    }
    AllResendsSize(s.outbound[k..]);
    assert AllResends(s.outbound[k..]) == [p] + AllResends(s.outbound[k + 1..]);
    if k + 1 == |s.outbound| {
      assert RetryFrom(s1, k + 1, t, outs).sent == [];
      assert AllResends(s.outbound[k + 1..]) == [];
    } else if out == COMPLETE {
      StillResends(s, s1, k);
      ResendsAllIff(s1, k + 1, t, outs);
      var rest := RetryFrom(s1, k + 1, t, outs).sent;
      assert ([p] + rest)[1..] == rest && ([p] + AllResends(s.outbound[k + 1..]))[1..] == AllResends(s.outbound[k + 1..]);
    }
  }

  lemma StillResends(s: Session, s1: Session, k: nat)
    requires k < |s.outbound| && forall m :: m in s.outbound ==> Resend(m).Some?
    requires |s1.outbound| == |s.outbound|
    requires s1.outbound == s.outbound[k := s.outbound[k].(lastTouch := s1.outbound[k].lastTouch)]
    ensures forall m :: m in s1.outbound ==> Resend(m).Some?
  {
    forall m | m in s1.outbound ensures Resend(m).Some? {
      var i :| 0 <= i < |s1.outbound| && s1.outbound[i] == m;
      assert s.outbound[i] in s.outbound;
    }
  }

  // Send order over runs

  /** The outbound list is in the order of the publish calls. */
  ghost predicate InSendOrder(s: System) {
    forall i, j :: 0 <= i < j < |s.sender.outbound| ==>
      SerialAt(s.flight, s.sender.outbound[i].msgid) < SerialAt(s.flight, s.sender.outbound[j].msgid)
  }

  lemma SameRecordsKeepOrder(s: System, s': System)
    requires InSendOrder(s) && s'.flight == s.flight
    requires SameIds(s'.sender.outbound, s.sender.outbound)
    ensures InSendOrder(s')
  {
  }

  lemma {:induction false} RetryKeepsRecords(s: Session, k: nat, t: Policy, outs: seq<SendResult>)
    requires k <= |s.outbound|
    ensures SameRecords(RetryFrom(s, k, t, outs).s.outbound, s.outbound)
    decreases |s.outbound| - k
  {
    hide Resend, Due, Wire;
    if k < |s.outbound| {
      RetryKeepsRecords(s, k + 1, t, outs);
      if Resend(s.outbound[k]).Some? {
        RetryKeepsRecords(ResendAt(s, k, Resend(s.outbound[k]).value, t, OutcomeAt(outs, k)), k + 1, t, outs);
      }
    }
  }

  lemma DroppedKeepsOrder(s: System, k: nat, store: Store)
    requires DistinctIds(s.sender.outbound) && InSendOrder(s) && s.toSender != [] && k < |s.sender.outbound|
    ensures InSendOrder(Dropped(s, k, store))
  {
    var s' := Dropped(s, k, store);
    forall i, j | 0 <= i < j < |s'.sender.outbound|
      ensures SerialAt(s'.flight, s'.sender.outbound[i].msgid) < SerialAt(s'.flight, s'.sender.outbound[j].msgid)
    {
      var a := if i < k then i else i + 1;
      var b := if j < k then j else j + 1;
      assert s'.sender.outbound[i] == s.sender.outbound[a] && s'.sender.outbound[j] == s.sender.outbound[b];
    }
  }

  lemma SenderReadsKeepsOrder(s: System, clock: int, out: SendResult)
    requires Inv(s) && InSendOrder(s) && s.toSender != []
    ensures InSendOrder(OnSenderReads(s, clock, out))
  {
    hide Agrees, TalkInv, FlightInv, FrameInv, HeldInv, HandInv, RetireInv, InSendOrder;
    var p := s.toSender[0];
    var k := IndexOf(s.sender.outbound, p.msgId);
    var s' := OnSenderReads(s, clock, out);
    if p.Ack? && (p.kind == PUBACK || p.kind == PUBCOMP) && |s'.sender.outbound| != |s.sender.outbound| {
      OutboundDistinct(s.sender);
      DroppedKeepsOrder(s, k, s'.sender.store);
    } else {
      SameRecordsKeepOrder(s, s') by {
        SenderReadsKeepsRecords(s, clock, out);
      }
    }
  }

  lemma SenderReadsKeepsRecords(s: System, clock: int, out: SendResult)
    requires s.toSender != []
    ensures var s' := OnSenderReads(s, clock, out);
            |s'.sender.outbound| == |s.sender.outbound| ==> s'.flight == s.flight && SameIds(s'.sender.outbound, s.sender.outbound)
  {
    hide Wire, FramesFor;
    var p := s.toSender[0];
    if p.Ack? && p.kind == PUBREC {
      var e := HandlePubrec(s.sender, p.msgId, clock, out);
      assert SameIds(e.s.outbound, s.sender.outbound);
    }
  }

  predicate SameIds(a: seq<Message>, b: seq<Message>) {
    |a| == |b| && forall i :: 0 <= i < |a| ==> a[i].msgid == b[i].msgid
  }

  lemma OrderAppended(s: System, s': System, m: Message, t: nat)
    requires InSendOrder(s) && s'.sender.outbound == s.sender.outbound + [m] && s'.flight == s.flight[m.msgid := t]
    requires forall i :: 0 <= i < |s.sender.outbound| ==>
               s.sender.outbound[i].msgid != m.msgid && SerialAt(s.flight, s.sender.outbound[i].msgid) < t
    ensures InSendOrder(s')
  {
  }

  lemma PublishKeepsOrder(s: System, pub: Publication, qos: Qos, retain: bool, clock: int, out: SendResult)
    requires Inv(s) && InSendOrder(s) && 1 <= qos <= 2 && s.sender.msgID <= MAX_MSG_ID
    ensures InSendOrder(OnPublish(s, pub, qos, retain, clock, out))
  {
    hide Agrees, TalkInv, FlightInv, FrameInv, HeldInv, HandInv, RetireInv, InSendOrder;
    var x := AssignedId(s.sender.msgID, IdSet(s.sender.outbound));
    AssignedIdIsFirstFree(s.sender.msgID, IdSet(s.sender.outbound));
    if x != 0 {
      forall i | 0 <= i < |s.sender.outbound|
        ensures s.sender.outbound[i].msgid != x && SerialAt(s.flight, s.sender.outbound[i].msgid) < |s.published|
      {
        assert s.sender.outbound[i].msgid in IdSet(s.sender.outbound);
        RecordOfFind(s, i);
      }
      OrderAppended(s, OnPublish(s, pub, qos, retain, clock, out), Message(x, qos, retain, FirstStage(qos), pub, clock), |s.published|);
    }
  }

  /** The sender's process is restarted. */
  ghost predicate Restarts(s: System, e: Event) {
    e.RestartSender? && Lists(e.keys, s.sender.store) && Lists(e.queueKeys, s.sender.store)
  }

  /** Every step keeps the outbound list in send order, except that a restart does so exactly when
      the ids in flight form a recoverable window. */
  lemma NextKeepsOrder(s: System, e: Event, retryInterval: int)
    requires Inv(s) && InSendOrder(s)
    ensures InSendOrder(Next(s, e, retryInterval)) <==> (Restarts(s, e) ==> Recoverable(Ids(s.sender.outbound)))
  {
    hide Inv, OnPublish, OnReceiverReads, OnSenderReads, CanHandle, RetryFrom, Restored, Recoverable, Lists;
    match e
    case PublishCall(pub, qos, retain, clock, out) =>
      if 1 <= qos <= 2 && Fits(pub) && |s.sender.outbound| < PUBLISH_LIMIT && s.sender.msgID <= MAX_MSG_ID {
        PublishKeepsOrder(s, pub, qos, retain, clock, out);
      }
    case SenderReads(clock, out) =>
      if s.toSender != [] {
        SenderReadsKeepsOrder(s, clock, out);
      }
    case ReceiverReads(noPending, out) =>
      ReceiverLeavesSender(s, noPending, out);
    case RetryTimer(now, clock, ready, outs) =>
      RetryKeepsRecords(s.sender, 0, Policy(now, clock, retryInterval, false, ready), outs);
    case Reconnect(clock, ready, outs) =>
      SameRecordsKeepOrder(s, Reopened(s));
      RetryKeepsRecords(Reopened(s).sender, 0, Policy(0, clock, retryInterval, true, ready), outs);
    case RestartSender(keys, queueKeys, clock) =>
      if Restarts(s, e) {
        RestartKeepsOrder(s, keys, queueKeys, clock);
      }
    case Cut =>
    case RestartReceiver(_, _, _) =>
    case ApplicationTakes =>
  }

  lemma RestartKeepsOrder(s: System, keys: seq<Key>, queueKeys: seq<Key>, clock: int)
    requires Inv(s) && InSendOrder(s) && Lists(keys, s.sender.store) && Lists(queueKeys, s.sender.store)
    ensures InSendOrder(Disconnected(s).(sender := Restored(s.sender.store, keys, queueKeys, clock)))
            <==> Recoverable(Ids(s.sender.outbound))
  {
    hide Inv, Restored, Recoverable, Lists, RestoredOrder;
    var r := Restored(s.sender.store, keys, queueKeys, clock);
    SenderAgrees(s);
    RestartKeepsSession(s.sender, keys, queueKeys, clock);
    RestoredIds(s.sender);
    OutboundIdsValid(s.sender);
    RestoredOrderIsSendOrder(Ids(s.sender.outbound));
    if InSendOrder(Disconnected(s).(sender := r)) {
      AllInFlight(s);
      SameOrderSameIds(s.flight, s.sender.outbound, r.outbound);
    } else if Recoverable(Ids(s.sender.outbound)) {
      SameIdsAt(s.sender.outbound, r.outbound);
      SameRecordsKeepOrder(s, Disconnected(s).(sender := r));
      assert false;
    }
  }

  lemma RestoredIds(s: Session)
    requires Agrees(s)
    ensures forall x :: x in RestoredOrder(Ids(s.outbound)) <==> x in Ids(s.outbound)
  {
    OutboundIdsValid(s);
    SortIdsSorts(Ids(s.outbound));
    RotateMembers(SortIds(Ids(s.outbound)), WrapAt(SortIds(Ids(s.outbound))));
  }

  lemma AllInFlight(s: System)
    requires Inv(s)
    ensures forall x :: x in Ids(s.sender.outbound) ==> x in s.flight
    ensures forall a: nat, b: nat :: a in s.flight && b in s.flight && s.flight[a] == s.flight[b] ==> a == b
  {
    forall x | x in Ids(s.sender.outbound) ensures x in s.flight {
      var k :| 0 <= k < |s.sender.outbound| && s.sender.outbound[k].msgid == x;
      RecordOfFind(s, k);
    }
  }

  lemma SameIdsAt(a: seq<Message>, b: seq<Message>)
    requires Ids(a) == Ids(b)
    ensures SameIds(b, a)
  {
    forall i | 0 <= i < |a| ensures a[i].msgid == b[i].msgid {
      assert Ids(a)[i] == Ids(b)[i];
    }
  }

  function Serials(flight: map<nat, nat>, list: seq<Message>): (r: seq<nat>)
    ensures |r| == |list| && forall i :: 0 <= i < |list| ==> r[i] == SerialAt(flight, list[i].msgid)
  {
    seq(|list|, i requires 0 <= i < |list| => SerialAt(flight, list[i].msgid))
  }

  /** Two lists of the same ids, both in the order of their calls, are in the same order. */
  lemma SameOrderSameIds(flight: map<nat, nat>, a: seq<Message>, b: seq<Message>)
    requires forall x :: x in Ids(a) <==> x in Ids(b)
    requires forall x :: x in Ids(a) ==> x in flight
    requires forall x: nat, y: nat :: x in flight && y in flight && flight[x] == flight[y] ==> x == y
    requires Increasing(Serials(flight, a)) && Increasing(Serials(flight, b))
    ensures Ids(a) == Ids(b)
  {
    SerialsAmong(flight, a, b);
    SerialsAmong(flight, b, a);
    IncreasingUnique(Serials(flight, a), Serials(flight, b));
    forall i | 0 <= i < |a| ensures Ids(a)[i] == Ids(b)[i] {
      assert Ids(a)[i] in Ids(a) && Ids(b)[i] in Ids(b);
      assert Serials(flight, a)[i] == Serials(flight, b)[i];
    }
  }

  lemma SerialsAmong(flight: map<nat, nat>, a: seq<Message>, b: seq<Message>)
    requires forall x :: x in Ids(a) ==> x in Ids(b)
    ensures forall t :: t in Serials(flight, a) ==> t in Serials(flight, b)
  {
    forall t | t in Serials(flight, a) ensures t in Serials(flight, b) {
      var i :| 0 <= i < |a| && Serials(flight, a)[i] == t;
      assert Ids(a)[i] in Ids(a);
      var j :| 0 <= j < |b| && Ids(b)[j] == Ids(a)[i];
      assert Serials(flight, b)[j] == t;
    }
  }

  lemma SenderAgrees(s: System)
    requires Inv(s)
    ensures Agrees(s.sender)
  {
  }

  lemma ReceiverLeavesSender(s: System, noPending: bool, out: SendResult)
    ensures CanHandle(s) ==>
              var s' := OnReceiverReads(s, noPending, out);
              s'.sender == s.sender && s'.flight == s.flight && s'.log == s.log && s'.published == s.published
  {
  }

  /** The sender's process is restarted only with a recoverable window of ids in flight. */
  ghost predicate RestartsInWindow(s: System, events: seq<Event>, retryInterval: int)
    decreases |events|
  {
    events != [] ==>
      && (Restarts(s, events[0]) ==> Recoverable(Ids(s.sender.outbound)))
      && RestartsInWindow(Next(s, events[0], retryInterval), events[1..], retryInterval)
  }

  ghost predicate AlwaysInSendOrder(s: System, events: seq<Event>, retryInterval: int)
    decreases |events|
  {
    InSendOrder(s) && (events != [] ==> AlwaysInSendOrder(Next(s, events[0], retryInterval), events[1..], retryInterval))
  }

  lemma {:induction false} RunKeepsOrder(s: System, events: seq<Event>, retryInterval: int)
    requires Inv(s) && InSendOrder(s)
    ensures AlwaysInSendOrder(s, events, retryInterval) <==> RestartsInWindow(s, events, retryInterval)
    ensures AlwaysInSendOrder(s, events, retryInterval) ==> InSendOrder(Run(s, events, retryInterval))
    decreases |events|
  {
    hide Inv, InSendOrder, Next, Restarts, Recoverable;
    if events != [] {
      NextKeepsInv(s, events[0], retryInterval);
      NextKeepsOrder(s, events[0], retryInterval);
      if InSendOrder(Next(s, events[0], retryInterval)) {
        RunKeepsOrder(Next(s, events[0], retryInterval), events[1..], retryInterval);
      } else {
        NotInOrderNow(Next(s, events[0], retryInterval), events[1..], retryInterval);
      }
    }
  }

  lemma NotInOrderNow(s: System, events: seq<Event>, retryInterval: int)
    requires !InSendOrder(s)
    ensures !AlwaysInSendOrder(s, events, retryInterval)
  {
  }

  /** The list that a reconnect resends from is in original send order throughout a run exactly when
      each restart of the sender in it finds a recoverable window of ids in flight. */
  lemma SendOrderKept(events: seq<Event>, retryInterval: int)
    ensures AlwaysInSendOrder(INIT, events, retryInterval) <==> RestartsInWindow(INIT, events, retryInterval)
  {
    InitInv();
    RunKeepsOrder(INIT, events, retryInterval);
  }

  /** The id of a record at position k or behind it. */
  ghost predicate FromPosition(list: seq<Message>, k: nat, id: nat) {
    exists j :: k <= j < |list| && list[j].msgid == id
  }

  /** Packets for records from position k on, in the order of the publish calls. */
  ghost predicate SentInOrder(flight: map<nat, nat>, list: seq<Message>, k: nat, sent: seq<Packet>) {
    && (forall a :: 0 <= a < |sent| ==> FromPosition(list, k, sent[a].msgId))
    && forall a, b :: 0 <= a < b < |sent| ==> SerialAt(flight, sent[a].msgId) < SerialAt(flight, sent[b].msgId)
  }

  lemma {:induction false} PassInSendOrder(s: System, k: nat, t: Policy, outs: seq<SendResult>)
    requires InSendOrder(s) && k <= |s.sender.outbound|
    ensures SentInOrder(s.flight, s.sender.outbound, k, RetryFrom(s.sender, k, t, outs).sent)
    decreases |s.sender.outbound| - k
  {
    hide InSendOrder, SentInOrder, Due, Wire;
    var sent := RetryFrom(s.sender, k, t, outs).sent;
    if k == |s.sender.outbound| {
      NoneSent(s.flight, s.sender.outbound, k);
    } else {
      var m := s.sender.outbound[k];
      if !Due(m, t) || Resend(m) == None {
        PassInSendOrder(s, k + 1, t, outs);
        SentFromEarlier(s.flight, s.sender.outbound, k, sent);
      } else {
        var p, out := Resend(m).value, OutcomeAt(outs, k);
        assert p.msgId == m.msgid;
        NoneSent(s.flight, s.sender.outbound, k + 1);
        if out == COMPLETE {
          var s1 := s.(sender := ResendAt(s.sender, k, p, t, out));
          SameRecordsKeepOrder(s, s1);
          PassInSendOrder(s1, k + 1, t, outs);
          SentForSameIds(s.flight, s1.sender.outbound, s.sender.outbound, k + 1, RetryFrom(s1.sender, k + 1, t, outs).sent);
          FirstThenRest(s, k, p, RetryFrom(s1.sender, k + 1, t, outs).sent);
        } else if out != ERROR {
          FirstThenRest(s, k, p, []);
          assert sent == [p] + [];
        } else {
          NoneSent(s.flight, s.sender.outbound, k);
        }
      }
    }
  }

  lemma NoneSent(flight: map<nat, nat>, list: seq<Message>, k: nat)
    ensures SentInOrder(flight, list, k, [])
  {
  }

  lemma SentFromEarlier(flight: map<nat, nat>, list: seq<Message>, k: nat, sent: seq<Packet>)
    requires SentInOrder(flight, list, k + 1, sent)
    ensures SentInOrder(flight, list, k, sent)
  {
  }

  lemma SentForSameIds(flight: map<nat, nat>, a: seq<Message>, b: seq<Message>, k: nat, sent: seq<Packet>)
    requires SentInOrder(flight, a, k, sent) && SameIds(a, b)
    ensures SentInOrder(flight, b, k, sent)
  {
    forall i | 0 <= i < |sent| ensures FromPosition(b, k, sent[i].msgId) {
      assert FromPosition(a, k, sent[i].msgId);
      var j :| k <= j < |a| && a[j].msgid == sent[i].msgId;
      assert b[j].msgid == sent[i].msgId;
    }
  }

  lemma FirstThenRest(s: System, k: nat, p: Packet, rest: seq<Packet>)
    requires InSendOrder(s) && k < |s.sender.outbound| && p.msgId == s.sender.outbound[k].msgid
    requires SentInOrder(s.flight, s.sender.outbound, k + 1, rest)
    ensures SentInOrder(s.flight, s.sender.outbound, k, [p] + rest)
  {
    forall a | 0 <= a < |rest|
      ensures FromPosition(s.sender.outbound, k, rest[a].msgId)
      ensures SerialAt(s.flight, p.msgId) < SerialAt(s.flight, rest[a].msgId)
    {
      assert FromPosition(s.sender.outbound, k + 1, rest[a].msgId);
      var j :| k + 1 <= j < |s.sender.outbound| && s.sender.outbound[j].msgid == rest[a].msgId;
    }
  }

  /** Whatever is resent in such a run, on a reconnect or by the retry timer, goes out in the order of
      the publish calls. */
  lemma ResendsInSendOrder(events: seq<Event>, e: Event, retryInterval: int)
    requires RestartsInWindow(INIT, events, retryInterval) && (e.Reconnect? || e.RetryTimer?)
    ensures var s := Run(INIT, events, retryInterval);
            var s' := Next(s, e, retryInterval);
            && s.log <= s'.log
            && forall j, k :: |s.log| <= j < k < |s'.log| ==> s'.log[j].serial < s'.log[k].serial
  {
    hide Run;
    InitInv();
    RunKeepsOrder(INIT, events, retryInterval);
    var s := Run(INIT, events, retryInterval);
    hide RestartsInWindow, AlwaysInSendOrder, Inv, Retries;
    if e.Reconnect? {
      SameRecordsKeepOrder(s, Reopened(s));
      PassSerials(Reopened(s), Policy(0, e.clock, retryInterval, true, e.ready), e.outs);
    } else {
      PassSerials(s, Policy(e.now, e.clock, retryInterval, false, e.ready), e.outs);
    }
  }

  lemma PassSerials(s: System, t: Policy, outs: seq<SendResult>)
    requires InSendOrder(s)
    ensures var s' := OnRetries(s, t, outs);
            s.log <= s'.log && forall j, k :: |s.log| <= j < k < |s'.log| ==> s'.log[j].serial < s'.log[k].serial
  {
    hide InSendOrder, RetryFrom;
    PassInSendOrder(s, 0, t, outs);
    var sent := Retries(s.sender, t, outs).sent;
    var s1 := s.(sender := Retries(s.sender, t, outs).s);
    var fs := FramesFor(s1, sent);
    assert OnRetries(s, t, outs).log == s.log + fs;
    forall j, k | 0 <= j < k < |fs| ensures fs[j].serial < fs[k].serial {
      assert fs[j] == FrameFor(s1, sent[j]) && fs[k] == FrameFor(s1, sent[k]);
      assert SerialAt(s.flight, sent[j].msgId) < SerialAt(s.flight, sent[k].msgId);
    }
  }

  // No PUBLISH after its PUBREL

  /** No PUBLISH comes after a PUBREL of the same call. */
  ghost predicate ReleasedLast(log: seq<Frame>) {
    forall j, k :: 0 <= j < k < |log| && log[j].packet.Ack? && log[k].packet.Publish? ==> log[j].serial != log[k].serial
  }

  /** Every PUBLISH of a call but the first is marked DUP. */
  ghost predicate RepeatsMarked(log: seq<Frame>) {
    forall j, k :: 0 <= j < k < |log| && log[j].packet.Publish? && log[k].packet.Publish? && log[j].serial == log[k].serial ==>
      log[k].packet.dup
  }

  /** Every PUBLISH carries what its call asked for. */
  ghost predicate CarriesOwn(published: seq<Published>, log: seq<Frame>) {
    forall k :: 0 <= k < |log| && log[k].packet.Publish? ==>
      Carries(published, log[k].serial, PubOf(log[k].packet), log[k].packet.qos, log[k].packet.retain)
  }

  ghost predicate Released(log: seq<Frame>, t: nat) {
    exists k :: 0 <= k < |log| && log[k].packet.Ack? && log[k].serial == t
  }

  ghost predicate LogInv(s: System) {
    && (forall k :: 0 <= k < |s.log| ==> s.log[k].serial < |s.published|)
    && ReleasedLast(s.log) && RepeatsMarked(s.log) && CarriesOwn(s.published, s.log)
    && (forall id: nat :: id in s.flight && Released(s.log, s.flight[id]) ==>
          Find(s.sender.outbound, id).Some? && Find(s.sender.outbound, id).value.next == Some(PUBCOMP))
  }

  lemma LogSnoc(log: seq<Frame>, f: Frame)
    requires ReleasedLast(log) && (f.packet.Publish? ==> !Released(log, f.serial))
    ensures ReleasedLast(log + [f])
    ensures forall t: nat :: Released(log + [f], t) ==> Released(log, t) || (f.packet.Ack? && f.serial == t)
  {
    forall t: nat | Released(log + [f], t) ensures Released(log, t) || (f.packet.Ack? && f.serial == t) {
      var k :| 0 <= k < |log + [f]| && (log + [f])[k].packet.Ack? && (log + [f])[k].serial == t;
      if k < |log| { assert log[k].packet.Ack?; }
    }
    forall j, k | 0 <= j < k < |log + [f]| && (log + [f])[j].packet.Ack? && (log + [f])[k].packet.Publish?
      ensures (log + [f])[j].serial != (log + [f])[k].serial
    {
      if k == |log| { assert log[j].packet.Ack? && (f.packet.Publish? ==> log[j].serial != f.serial); }
    }
  }

  lemma PublishSnoc(published: seq<Published>, log: seq<Frame>, published': seq<Published>, f: Frame)
    requires RepeatsMarked(log) && CarriesOwn(published, log) && published <= published'
    requires f.packet.Publish? ==>
               && Carries(published', f.serial, PubOf(f.packet), f.packet.qos, f.packet.retain)
               && (f.packet.dup || forall k :: 0 <= k < |log| ==> log[k].serial != f.serial)
    ensures RepeatsMarked(log + [f]) && CarriesOwn(published', log + [f])
  {
  }

  /** One more packet for the record with id x, whose stage becomes or stays `next`. */
  lemma LogGrows(s: System, s': System, x: nat, fs: seq<Frame>)
    requires LogInv(s) && |fs| <= 1 && s'.log == s.log + fs
    requires s'.published == s.published && s'.flight == s.flight && x in s.flight && s.flight[x] < |s.published|
    requires forall other: nat :: other in s.flight && other != x ==> s.flight[other] != s.flight[x]
    requires forall id: nat :: id != x ==> Find(s'.sender.outbound, id) == Find(s.sender.outbound, id)
    requires Find(s.sender.outbound, x).Some? && Find(s'.sender.outbound, x).Some?
    requires Find(s.sender.outbound, x).value.next == Some(PUBCOMP) ==> Find(s'.sender.outbound, x).value.next == Some(PUBCOMP)
    requires fs != [] ==>
               && fs[0].serial == s.flight[x]
               && if fs[0].packet.Publish? then
                    && Find(s.sender.outbound, x).value.next != Some(PUBCOMP) && fs[0].packet.dup
                    && Carries(s.published, fs[0].serial, PubOf(fs[0].packet), fs[0].packet.qos, fs[0].packet.retain)
                  else Find(s'.sender.outbound, x).value.next == Some(PUBCOMP)
    ensures LogInv(s')
  {
    if fs == [] {
      assert s'.log == s.log;
    } else {
      hide ReleasedLast, RepeatsMarked, CarriesOwn;
      assert fs == [fs[0]];
      LogSnoc(s.log, fs[0]);
      PublishSnoc(s.published, s.log, s'.published, fs[0]);
    }
  }

  lemma LogResend(s: System, k: nat, t: Policy, out: SendResult)
    requires Inv(s) && LogInv(s) && k < |s.sender.outbound| && Resend(s.sender.outbound[k]).Some?
    ensures var p := Resend(s.sender.outbound[k]).value;
            LogInv(Send(s.(sender := ResendAt(s.sender, k, p, t, out)), Offered(p, out)))
  {
    hide Agrees, TalkInv, FlightInv, FrameInv, HeldInv, HandInv, RetireInv, LogInv;
    var m := s.sender.outbound[k];
    var p := Resend(m).value;
    var a := ResendAt(s.sender, k, p, t, out);
    RecordOfFind(s, k);
    PubrecFinds(s, k, a.outbound[k]);
    FramesForOne(s.(sender := a), Offered(p, out));
    FlightQos(s, m.msgid);
    LogGrows(s, Send(s.(sender := a), Offered(p, out)), m.msgid, FramesFor(s.(sender := a), Offered(p, out)));
  }

  lemma {:induction false} LogRetries(s: System, k: nat, t: Policy, outs: seq<SendResult>)
    requires Inv(s) && LogInv(s) && k <= |s.sender.outbound|
    ensures var pass := RetryFrom(s.sender, k, t, outs);
            LogInv(Send(s.(sender := pass.s), pass.sent))
    decreases |s.sender.outbound| - k
  {
    hide Inv, LogInv;
    if k == |s.sender.outbound| {
      SendNothing(s);
    } else if !Due(s.sender.outbound[k], t) || Resend(s.sender.outbound[k]) == None {
      LogRetries(s, k + 1, t, outs);
    } else {
      var p := Resend(s.sender.outbound[k]).value;
      var out := OutcomeAt(outs, k);
      var a := ResendAt(s.sender, k, p, t, out);
      ResendKeepsInv(s, k, t, out);
      LogResend(s, k, t, out);
      if out == COMPLETE {
        LogRetries(Send(s.(sender := a), [p]), k + 1, t, outs);
        var rest := RetryFrom(a, k + 1, t, outs);
        SendTwice(s, a, [p], rest.s, rest.sent);
      }
    }
  }

  lemma LogSenderReads(s: System, clock: int, out: SendResult)
    requires Inv(s) && LogInv(s) && s.toSender != []
    ensures LogInv(OnSenderReads(s, clock, out))
  {
    hide Agrees, TalkInv, FlightInv, FrameInv, HeldInv, HandInv, RetireInv, LogInv;
    var p := s.toSender[0];
    var k := IndexOf(s.sender.outbound, p.msgId);
    var s' := OnSenderReads(s, clock, out);
    if s'.sender == s.sender {
      LogSame(s, s');
    } else if p.kind == PUBREC {
      RecordOfFind(s, k);
      var e := HandlePubrec(s.sender, p.msgId, clock, out);
      PubrecFinds(s, k, e.s.outbound[k]);
      var s1 := s.(toSender := s.toSender[1..], sender := e.s);
      FramesForOne(s1, e.sent);
      FlightQos(s, p.msgId);
      LogGrows(s, s', p.msgId, FramesFor(s1, e.sent));
    } else {
      RecordOfFind(s, k);
      WithoutFinds(s, k);
      LogDropped(s, s', p.msgId);
    }
  }

  lemma LogSame(s: System, s': System)
    requires LogInv(s)
    requires s'.sender == s.sender && s'.flight == s.flight && s'.published == s.published
    requires s'.log == s.log || s'.log == s.log + []
    ensures LogInv(s')
  {
    assert s.log + [] == s.log;
  }

  lemma LogDropped(s: System, s': System, x: nat)
    requires LogInv(s) && s'.log == s.log && s'.published == s.published && s'.flight == s.flight - {x}
    requires forall id: nat :: id != x ==> Find(s'.sender.outbound, id) == Find(s.sender.outbound, id)
    ensures LogInv(s')
  {
  }

  lemma LogFresh(s: System, s': System, x: nat, fs: seq<Frame>)
    requires LogInv(s) && s'.log == s.log + fs && |s'.published| == |s.published| + 1 && s.published <= s'.published
    requires s'.flight == s.flight[x := |s.published|]
    requires forall id: nat :: id != x ==> Find(s'.sender.outbound, id) == Find(s.sender.outbound, id)
    requires fs == [] || (|fs| == 1 && fs[0].packet.Publish? && fs[0].serial == |s.published| &&
                          Carries(s'.published, fs[0].serial, PubOf(fs[0].packet), fs[0].packet.qos, fs[0].packet.retain))
    ensures LogInv(s')
  {
    assert !Released(s.log, |s.published|);
    if fs == [] {
      assert s'.log == s.log;
    } else {
      assert fs == [fs[0]];
      LogSnoc(s.log, fs[0]);
      PublishSnoc(s.published, s.log, s'.published, fs[0]);
    }
  }

  lemma LogPublish(s: System, pub: Publication, qos: Qos, retain: bool, clock: int, out: SendResult)
    requires Inv(s) && LogInv(s) && 1 <= qos <= 2 && Fits(pub) && s.sender.msgID <= MAX_MSG_ID
    ensures LogInv(OnPublish(s, pub, qos, retain, clock, out))
  {
    hide Agrees, TalkInv, FlightInv, FrameInv, HeldInv, HandInv, RetireInv, LogInv;
    var x := AssignedId(s.sender.msgID, IdSet(s.sender.outbound));
    AssignedIdIsFirstFree(s.sender.msgID, IdSet(s.sender.outbound));
    if x != 0 {
      var m := Message(x, qos, retain, FirstStage(qos), pub, clock);
      var e := NewPublish(s.sender, pub, qos, retain, clock, out);
      var s1 := s.(sender := e.s, published := s.published + [Published(pub, qos, retain)], flight := s.flight[x := |s.published|]);
      PublishFinds(s.sender, m);
      FramesForOne(s1, e.sent);
      NotInFlight(s, x);
      LogFresh(s, OnPublish(s, pub, qos, retain, clock, out), x, FramesFor(s1, e.sent));
    }
  }

  lemma LogRestart(s: System, r: Session)
    requires LogInv(s)
    requires forall id: nat :: Find(r.outbound, id) ==
               if Find(s.sender.outbound, id).Some? then Some(Untouched(Find(s.sender.outbound, id).value)) else None
    ensures LogInv(s.(sender := r))
  {
  }

  lemma LogNext(s: System, e: Event, retryInterval: int)
    requires Inv(s) && LogInv(s)
    ensures LogInv(Next(s, e, retryInterval))
  {
    hide Inv, OnPublish, OnReceiverReads, OnSenderReads, CanHandle, RetryFrom, LogInv;
    var s' := Next(s, e, retryInterval);
    match e
    case PublishCall(pub, qos, retain, clock, out) =>
      if 1 <= qos <= 2 && Fits(pub) && |s.sender.outbound| < PUBLISH_LIMIT && s.sender.msgID <= MAX_MSG_ID {
        LogPublish(s, pub, qos, retain, clock, out);
      }
    case SenderReads(clock, out) =>
      if s.toSender != [] {
        LogSenderReads(s, clock, out);
      }
    case ReceiverReads(noPending, out) =>
      ReceiverLeavesSender(s, noPending, out);
      LogSame(s, s');
    case RetryTimer(now, clock, ready, outs) =>
      LogRetries(s, 0, Policy(now, clock, retryInterval, false, ready), outs);
      SendNothing(s);
    case Reconnect(clock, ready, outs) =>
      SenderAgrees(s);
      ReconnectedFinds(s.sender);
      ReopenedKeepsInv(s);
      LogSame(s, Disconnected(s));
      LogRestart(Disconnected(s), Reconnected(s.sender));
      SendNothing(Reopened(s));
      LogRetries(Reopened(s), 0, Policy(0, clock, retryInterval, true, ready), outs);
    case RestartSender(keys, queueKeys, clock) =>
      if Lists(keys, s.sender.store) && Lists(queueKeys, s.sender.store) {
        SenderAgrees(s);
        RestartKeepsSession(s.sender, keys, queueKeys, clock);
        FindsBeyondIds(s.sender, s'.sender);
        LogSame(s, Disconnected(s));
        LogRestart(Disconnected(s), s'.sender);
      }
    case Cut => LogSame(s, s');
    case RestartReceiver(_, _, _) => LogSame(s, s');
    case ApplicationTakes => LogSame(s, s');
  }

  lemma {:induction false} LogRun(s: System, events: seq<Event>, retryInterval: int)
    requires Inv(s) && LogInv(s)
    ensures LogInv(Run(s, events, retryInterval))
    decreases |events|
  {
    hide Inv, LogInv, Next;
    if events != [] {
      NextKeepsInv(s, events[0], retryInterval);
      LogNext(s, events[0], retryInterval);
      LogRun(Next(s, events[0], retryInterval), events[1..], retryInterval);
    }
  }

  lemma NothingSent()
    ensures LogInv(INIT)
  {
  }

  /** Over every run, every PUBLISH that is sent carries the topic, payload, QoS and retain flag of its
      own call, and all of them but the first of a call are marked DUP. */
  lemma RepeatsAreMarked(events: seq<Event>, retryInterval: int)
    ensures var s := Run(INIT, events, retryInterval);
            && (forall k :: 0 <= k < |s.log| && s.log[k].packet.Publish? ==>
                  var p := s.log[k].packet;
                  s.log[k].serial < |s.published| && s.published[s.log[k].serial] == Published(PubOf(p), p.qos, p.retain))
            && RepeatsMarked(s.log)
  {
    hide Run, Inv;
    InitInv();
    NothingSent();
    LogRun(INIT, events, retryInterval);
    assert LogInv(Run(INIT, events, retryInterval));
  }

  /** Over every run, whatever is cut, retried or restarted: once a PUBREL has been sent for a
      message, no PUBLISH is ever sent for it again. */
  lemma NeverPublishedAgain(events: seq<Event>, retryInterval: int)
    ensures var log := Run(INIT, events, retryInterval).log;
            forall j, k :: 0 <= j < k < |log| && log[j].packet.Ack? && log[j].serial == log[k].serial ==> log[k].packet.Ack?
  {
    hide Run, Inv, Carries;
    InitInv();
    NothingSent();
    LogRun(INIT, events, retryInterval);
    assert LogInv(Run(INIT, events, retryInterval));
  }
}
