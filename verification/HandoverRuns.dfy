/** Hand-overs over whole runs: messages of one QoS are first handed over in the order of their publish
    calls, if no message is published while an earlier one is still to be resent. */
module HandoverRuns {
  import opened Bytes
  import opened Packets
  import opened MessageIds
  import opened SendOrder
  import opened Sessions
  import opened StoreAgreement
  import opened Restart
  import opened Delivery
  import opened ExactlyOnce
  import opened AtLeastOnce
  import opened OnTheWire
  import opened HandoverOrder

  /** Steps of ends that have not closed their session; and the sender's process is restarted only with
      a recoverable window of ids in flight. */
  ghost predicate WithinConnection(s: System, c: Connection, e: Event) {
    && (e.PublishCall? ==> c.sending)
    && (e.SenderReads? && s.toSender != [] ==> c.sending)
    && (e.ReceiverReads? && s.toReceiver != [] ==> c.receiving)
    && (Restarts(s, e) ==> Recoverable(Ids(s.sender.outbound)))
  }

  /** Also, no message is published while an earlier one of the same QoS is still to be resent. */
  ghost predicate Allowed(s: System, c: Connection, e: Event) {
    WithinConnection(s, c, e) && (e.PublishCall? && c.receiving ==> c.whole || CaughtUp(s, e.qos))
  }

  ghost predicate Orderly(s: System, c: Connection, events: seq<Event>, retryInterval: int)
    decreases |events|
  {
    events != [] ==>
      && Allowed(s, c, events[0])
      && Orderly(Next(s, events[0], retryInterval), After(c, s, events[0], retryInterval), events[1..], retryInterval)
  }

  ghost function ConnectionAfter(s: System, c: Connection, events: seq<Event>, retryInterval: int): Connection
    decreases |events|
  {
    if events == [] then c
    else ConnectionAfter(Next(s, events[0], retryInterval), After(c, s, events[0], retryInterval), events[1..], retryInterval)
  }

  lemma PublishKeepsAll(s: System, c: Connection, pub: Publication, qos: Qos, retain: bool, clock: int, out: SendResult, c': Connection)
    requires OrderInv(s, c) && 1 <= qos <= 2 && Fits(pub) && s.sender.msgID <= MAX_MSG_ID
    requires c.sending && (c.receiving ==> c.whole || CaughtUp(s, qos))
    requires c' == if out == ERROR then c.(sending := false) else c
    ensures var s' := OnPublish(s, pub, qos, retain, clock, out);
            PairInv(s', c') && WholeInv(s', c') && InOrder(s')
  {
    hide Inv, ExchangeInv, InOrder, PairInv, OnPublish, PublishEffect, CaughtUp, AllHanded, InSendOrder;
    var s' := OnPublish(s, pub, qos, retain, clock, out);
    if AssignedId(s.sender.msgID, IdSet(s.sender.outbound)) == 0 {
      NoIdNoPublish(s, pub, qos, retain, clock, out);
      SendingEnds(s, c, c');
    } else {
      var m, fs := PublishesEffect(s, pub, qos, retain, clock, out);
      if c.receiving && c.whole { WholeIsCaughtUp(s, qos); }
      PublishKeepsPairs(s, s', c, c', m, fs);
      if c'.sending && c'.receiving && c'.whole {
        forall id: nat ensures OnItsWay(s', id) {
          PublishKeepsWhole(s, s', m, fs, id);
        }
      }
      PublishedMore(s, s', m, fs);
      PublishKeepsInOrder(s, s');
    }
  }

  lemma PublishedMore(s: System, s': System, m: Message, fs: seq<Frame>)
    requires PublishEffect(s, s', m, fs)
    ensures s'.handed == s.handed && s.published <= s'.published
  {
  }

  lemma NoIdNoPublish(s: System, pub: Publication, qos: Qos, retain: bool, clock: int, out: SendResult)
    requires qos > 0 && s.sender.msgID <= MAX_MSG_ID && AssignedId(s.sender.msgID, IdSet(s.sender.outbound)) == 0
    ensures OnPublish(s, pub, qos, retain, clock, out) == s
  {
  }

  lemma WholeIsCaughtUp(s: System, qos: Qos)
    requires forall id: nat :: OnItsWay(s, id)
    ensures CaughtUp(s, qos)
  {
  }

  /** Closing an end keeps what the other relies on. */
  lemma SendingEnds(s: System, c: Connection, c': Connection)
    requires PairInv(s, c) && WholeInv(s, c) && (c' == c || c' == c.(sending := false))
    ensures PairInv(s, c') && WholeInv(s, c')
  {
    hide PairInv;
    forall x: nat, y: nat ensures PairOf(s, c', x, y) {
      PairAt(s, c, x, y);
    }
    PairAll(s, c');
  }

  lemma ReconnectKeepsAll(s: System, c: Connection, clock: int, ready: bool, outs: seq<SendResult>, retryInterval: int)
    requires OrderInv(s, c) && retryInterval <= 0
    requires BaseInv(Next(s, Reconnect(clock, ready, outs), retryInterval))
    ensures var e := Reconnect(clock, ready, outs);
            var s', c' := Next(s, e, retryInterval), After(c, s, e, retryInterval);
            PairInv(s', c') && WholeInv(s', c')
  {
    hide Inv, ExchangeInv, AllHanded, InSendOrder, InOrder, PairInv, OnRetries, Retries;
    var t := Policy(0, clock, retryInterval, true, ready);
    var s' := OnRetries(Reopened(s), t, outs);
    var c' := After(c, s, Reconnect(clock, ready, outs), retryInterval);
    var n := |Retries(Reconnected(s.sender), t, outs).sent|;
    ReconnectResends(s, t, outs);
    RetriesKeepHistory(Reopened(s), t, outs);
    forall id: nat ensures SameButTime(Find(s.sender.outbound, id), Find(s'.sender.outbound, id)) {
      SameRecordsFind(s.sender.outbound, Reconnected(s.sender).outbound, id);
      SameRecordsFind(Reconnected(s.sender).outbound, s'.sender.outbound, id);
    }
    ClosedPairs(s, s', c);
    ResentPairs(s', c', n);
    if c'.whole {
      forall id: nat ensures OnItsWay(s', id) {
        var k := IndexOf(s'.sender.outbound, id);
        if k < |s'.sender.outbound| { ResentOnItsWay(s', n, k); }
      }
    }
  }

  lemma RetriesKeepHistory(s: System, t: Policy, outs: seq<SendResult>)
    ensures var s' := OnRetries(s, t, outs);
            s'.handed == s.handed && s'.flight == s.flight && s'.published == s.published && s'.retired == s.retired
  {
  }

  lemma RestartKeepsAll(s: System, c: Connection, keys: seq<Key>, queueKeys: seq<Key>, clock: int)
    requires OrderInv(s, c) && Lists(keys, s.sender.store) && Lists(queueKeys, s.sender.store)
    ensures PairInv(Disconnected(s).(sender := Restored(s.sender.store, keys, queueKeys, clock)), CLOSED)
  {
    hide Inv, ExchangeInv, AllHanded, InSendOrder, InOrder, PairInv, Restored, Lists, Agrees, Find;
    SenderAgrees(s);
    RestartKeepsSession(s.sender, keys, queueKeys, clock);
    var r := Restored(s.sender.store, keys, queueKeys, clock);
    FindsBeyondIds(s.sender, r);
    ClosedPairs(s, Disconnected(s).(sender := r), c);
  }

  lemma SameInOrder(s: System, s': System)
    requires InOrder(s) && s'.handed == s.handed && s'.published == s.published
    ensures InOrder(s')
  {
  }

  lemma SameTime(o: Option<Message>)
    ensures SameButTime(o, o)
  {
  }

  lemma NothingUnderWay(s: System, c: Connection, s': System)
    requires PairInv(s, c) && s' == Disconnected(s).(receiver := s'.receiver)
    ensures PairInv(s', CLOSED)
  {
    hide PairInv, SameButTime;
    forall id: nat ensures SameButTime(Find(s.sender.outbound, id), Find(s'.sender.outbound, id)) {
      SameTime(Find(s.sender.outbound, id));
    }
    ClosedPairs(s, s', c);
  }

  lemma StepKeepsPairs(s: System, c: Connection, e: Event, retryInterval: int)
    requires OrderInv(s, c) && Allowed(s, c, e) && retryInterval <= 0
    requires Inv(Next(s, e, retryInterval)) && ExchangeInv(Next(s, e, retryInterval)) && AllHanded(Next(s, e, retryInterval))
    requires InSendOrder(Next(s, e, retryInterval))
    ensures var s', c' := Next(s, e, retryInterval), After(c, s, e, retryInterval);
            PairInv(s', c') && WholeInv(s', c') && InOrder(s')
  {
    hide Inv, ExchangeInv, AllHanded, InSendOrder, InOrder, PairInv, OnPublish, OnReceiverReads, OnSenderReads, CanHandle, RetryFrom,
      Restored, Recoverable, CaughtUp, Reopened, OnItsWay, Lists;
    var s', c' := Next(s, e, retryInterval), After(c, s, e, retryInterval);
    match e
    case PublishCall(pub, qos, retain, clock, out) =>
      if 1 <= qos <= 2 && Fits(pub) && |s.sender.outbound| < PUBLISH_LIMIT && s.sender.msgID <= MAX_MSG_ID {
        PublishKeepsAll(s, c, pub, qos, retain, clock, out, c');
      } else {
        SendingEnds(s, c, c');
      }
    case SenderReads(clock, out) =>
      if s.toSender != [] {
        SenderKeepsOrder(s, c, clock, out, c');
      }
    case ReceiverReads(noPending, out) =>
      if s.toReceiver != [] {
        HeadCanBeHandled(s);
        ReceiverKeepsOrder(s, c, noPending, out, c');
      } else {
        NoHead(s);
      }
    case RetryTimer(now, clock, ready, outs) =>
      SendNothing(s);
    case Reconnect(clock, ready, outs) =>
      RetriesKeepHistory(Reopened(s), Policy(0, clock, retryInterval, true, ready), outs);
      ReopenedHistory(s);
      SameInOrder(s, s');
      ReconnectKeepsAll(s, c, clock, ready, outs, retryInterval);
    case RestartSender(keys, queueKeys, clock) =>
      if Lists(keys, s.sender.store) && Lists(queueKeys, s.sender.store) {
        RestartKeepsAll(s, c, keys, queueKeys, clock);
        SameInOrder(s, s');
      }
    case RestartReceiver(keys, queueKeys, clock) =>
      if Lists(keys, s.receiver.store) && Lists(queueKeys, s.receiver.store) {
        NothingUnderWay(s, c, s');
        SameInOrder(s, s');
      }
    case Cut =>
      NothingUnderWay(s, c, s');
      SameInOrder(s, s');
    case ApplicationTakes =>
      TakingChangesNothing(s, c, s');
  }

  lemma NoHead(s: System)
    requires s.toReceiver == []
    ensures !CanHandle(s)
  {
  }

  lemma ReopenedHistory(s: System)
    ensures Reopened(s).handed == s.handed && Reopened(s).published == s.published
  {
  }

  lemma TakingChangesNothing(s: System, c: Connection, s': System)
    requires PairInv(s, c) && WholeInv(s, c) && InOrder(s) && s' == s.(receiver := s'.receiver, taken := s'.taken)
    ensures PairInv(s', c) && WholeInv(s', c) && InOrder(s')
  {
    hide PairInv;
    forall x: nat, y: nat ensures PairOf(s', c, x, y) {
      PairAt(s, c, x, y);
    }
    PairAll(s', c);
    forall id: nat ensures OnItsWay(s, id) ==> OnItsWay(s', id) {
    }
  }

  lemma NextKeepsOrderInv(s: System, c: Connection, e: Event, retryInterval: int)
    requires OrderInv(s, c) && Allowed(s, c, e) && retryInterval <= 0
    ensures OrderInv(Next(s, e, retryInterval), After(c, s, e, retryInterval))
  {
    hide Inv, ExchangeInv, AllHanded, InSendOrder, InOrder, PairInv, WholeInv, Next, After;
    NextKeepsInv(s, e, retryInterval);
    NextExchange(s, e, retryInterval);
    NextKeepsOrder(s, e, retryInterval);
    StepKeepsPairs(s, c, e, retryInterval);
  }

  const OPEN := Connection(true, true, true)

  lemma OrderFromStart()
    ensures OrderInv(INIT, OPEN)
  {
    InitInv();
    EmptyLinkExchange(INIT);
  }

  lemma {:induction false} RunKeepsOrderInv(s: System, c: Connection, events: seq<Event>, retryInterval: int)
    requires OrderInv(s, c) && Orderly(s, c, events, retryInterval) && retryInterval <= 0
    ensures OrderInv(Run(s, events, retryInterval), ConnectionAfter(s, c, events, retryInterval))
    decreases |events|
  {
    hide OrderInv, Allowed, Next, After;
    if events != [] {
      NextKeepsOrderInv(s, c, events[0], retryInterval);
      RunKeepsOrderInv(Next(s, events[0], retryInterval), After(c, s, events[0], retryInterval), events[1..], retryInterval);
    }
  }

  /** Over every run in which no message is published while an earlier one of its QoS is still to be
      resent: when a message is handed over, all messages of the same QoS published before it already
      were; and at QoS 2 the hand-overs are in the order of the publish calls. */
  lemma HandedOverInOrder(events: seq<Event>, retryInterval: int)
    requires retryInterval <= 0 && Orderly(INIT, OPEN, events, retryInterval)
    ensures var s := Run(INIT, events, retryInterval);
            && InOrder(s)
            && forall j, k :: 0 <= j < k < |s.handed| && s.handed[j].msg.qos == 2 && s.handed[k].msg.qos == 2 ==>
                 s.handed[j].serial < s.handed[k].serial
  {
    hide Run, Orderly, InOrder, PairInv, ExchangeInv;
    OrderFromStart();
    RunKeepsOrderInv(INIT, OPEN, events, retryInterval);
    OnceInOrder(Run(INIT, events, retryInterval));
  }

  lemma OnceInOrder(s: System)
    requires Inv(s) && InOrder(s)
    ensures forall j, k :: 0 <= j < k < |s.handed| && s.handed[j].msg.qos == 2 && s.handed[k].msg.qos == 2 ==>
              s.handed[j].serial < s.handed[k].serial
  {
    hide Agrees, TalkInv, FlightInv, FrameInv, HeldInv, RetireInv;
    forall j, k | 0 <= j < k < |s.handed| && s.handed[j].msg.qos == 2 && s.handed[k].msg.qos == 2
      ensures s.handed[j].serial < s.handed[k].serial
    {
      assert s.published[s.handed[k].serial].qos == 2;
      NotHandedBefore(s, j, k);
    }
  }

  lemma NotHandedBefore(s: System, j: nat, k: nat)
    requires HandInv(s) && j < k < |s.handed| && s.handed[k].msg.qos == 2
    ensures !HandedOver(s.handed[..j], s.handed[k].serial)
  {
    assert forall i :: 0 <= i < j ==> s.handed[..j][i] == s.handed[i];
    assert forall i :: 0 <= i < j && s.handed[i].serial == s.handed[k].serial ==> s.handed[i].msg == s.handed[k].msg;
  }

  // Whole resending passes

  ghost predicate WholePasses(events: seq<Event>) {
    forall e :: e in events && e.Reconnect? ==> e.ready && forall i :: 0 <= i < |e.outs| ==> e.outs[i] == COMPLETE
  }

  ghost predicate WithinConnections(s: System, c: Connection, events: seq<Event>, retryInterval: int)
    decreases |events|
  {
    events != [] ==>
      && WithinConnection(s, c, events[0])
      && WithinConnections(Next(s, events[0], retryInterval), After(c, s, events[0], retryInterval), events[1..], retryInterval)
  }

  lemma WholeAfter(s: System, c: Connection, e: Event, retryInterval: int)
    requires Inv(s) && WholePasses([e]) && (c.sending ==> c.whole)
    ensures var c' := After(c, s, e, retryInterval); c'.sending ==> c'.whole
  {
    hide Inv, RetryFrom, Lists;
    if e.Reconnect? {
      assert e in [e];
      var t := Policy(0, e.clock, retryInterval, true, e.ready);
      var a := Reconnected(s.sender);
      ReopenedKeepsInv(s);
      AllResendable(Reopened(s));
      ResendsAreAPrefix(a, 0, t, e.outs);
      assert a.outbound[0..] == a.outbound;
      AllResendsSize(a.outbound);
    }
  }

  lemma {:induction false} WholePassesAreOrderly(s: System, c: Connection, events: seq<Event>, retryInterval: int)
    requires Inv(s) && (c.sending ==> c.whole) && WholePasses(events) && WithinConnections(s, c, events, retryInterval)
    ensures Orderly(s, c, events, retryInterval)
    decreases |events|
  {
    hide Inv, Next, After, CaughtUp, WithinConnection;
    if events != [] {
      NextKeepsInv(s, events[0], retryInterval);
      assert WholePasses([events[0]]) && WholePasses(events[1..]);
      WholeAfter(s, c, events[0], retryInterval);
      WholeIsAllowed(s, c, events[0]);
      WholePassesAreOrderly(Next(s, events[0], retryInterval), After(c, s, events[0], retryInterval), events[1..], retryInterval);
    }
  }

  lemma WholeIsAllowed(s: System, c: Connection, e: Event)
    requires WithinConnection(s, c, e) && (c.sending ==> c.whole)
    ensures Allowed(s, c, e)
  {
  }

  /** If every reconnect resends everything, messages of each QoS are handed over in order. */
  lemma WholePassesKeepOrder(events: seq<Event>, retryInterval: int)
    requires retryInterval <= 0 && WholePasses(events) && WithinConnections(INIT, OPEN, events, retryInterval)
    ensures InOrder(Run(INIT, events, retryInterval))
  {
    InitInv();
    WholePassesAreOrderly(INIT, OPEN, events, retryInterval);
    HandedOverInOrder(events, retryInterval);
  }

  /** After a reconnect nothing of a QoS is still to be resent exactly when every record of it that the
      pass left behind had been handed over before. */
  lemma PassCatchesUpIff(s: System, clock: int, ready: bool, outs: seq<SendResult>, qos: Qos, retryInterval: int)
    requires Inv(s)
    ensures var s' := Next(s, Reconnect(clock, ready, outs), retryInterval);
            var n := |Retries(Reconnected(s.sender), Policy(0, clock, retryInterval, true, ready), outs).sent|;
            CaughtUp(s', qos) <==>
            forall k :: n <= k < |s'.sender.outbound| && s'.sender.outbound[k].qos == qos ==> HandedId(s', s'.sender.outbound[k].msgid)
  {
    hide Inv, Retries, OnItsWay, Resent;
    var t := Policy(0, clock, retryInterval, true, ready);
    var s' := Next(s, Reconnect(clock, ready, outs), retryInterval);
    var n := |Retries(Reconnected(s.sender), t, outs).sent|;
    NextKeepsInv(s, Reconnect(clock, ready, outs), retryInterval);
    ReconnectResends(s, t, outs);
    var list := s'.sender.outbound;
    forall k | 0 <= k < |list| ensures Find(list, list[k].msgid) == Some(list[k]) {
      RecordOfFind(s', k);
    }
    forall k | 0 <= k < |list| ensures OnItsWay(s', list[k].msgid) <==> k < n || HandedId(s', list[k].msgid) {
      ResentOnItsWay(s', n, k);
    }
    forall id: nat | Find(list, id).Some? ensures exists k :: 0 <= k < |list| && list[k].msgid == id && list[k] == Find(list, id).value {
      assert list[IndexOf(list, id)].msgid == id;
    }
  }
}
