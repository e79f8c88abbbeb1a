/** From the receiver's queue to the application: nothing is lost, repeated or reordered there. */
module Application {
  import opened Packets
  import opened Sessions
  import opened Restart
  import opened Delivery
  import opened ExactlyOnce

  /** What the application sees of a queue entry. */
  function Shown(e: QueueEntry): Published {
    Published(e.pub, e.qos, e.retained)
  }

  /** The messages taken and those waiting are together the messages handed over, in order. */
  ghost predicate TakenThenWaiting(s: System) {
    var all := s.taken + s.receiver.queue;
    |all| == |s.handed| && forall i :: 0 <= i < |all| ==> Shown(all[i]) == s.handed[i].msg && (all[i].qos == 2 ==> !all[i].dup)
  }

  lemma NothingMoved(s: System, s': System)
    requires TakenThenWaiting(s) && s'.taken == s.taken && s'.receiver.queue == s.receiver.queue && s'.handed == s.handed
    ensures TakenThenWaiting(s')
  {
  }

  /** A hand-over is the entry that joins the queue. */
  lemma HandoverIsQueued(s: System, noPending: bool, out: SendResult)
    requires CanHandle(s)
    ensures var s' := OnReceiverReads(s, noPending, out);
            && s'.taken == s.taken
            && ((s'.receiver.queue == s.receiver.queue && s'.handed == s.handed) ||
                (|s'.receiver.queue| == |s.receiver.queue| + 1 && |s'.handed| == |s.handed| + 1 &&
                 s'.receiver.queue[..|s.receiver.queue|] == s.receiver.queue && s'.handed[..|s.handed|] == s.handed &&
                 Shown(s'.receiver.queue[|s.receiver.queue|]) == s'.handed[|s.handed|].msg &&
                 (s'.receiver.queue[|s.receiver.queue|].qos == 2 ==> !s'.receiver.queue[|s.receiver.queue|].dup)))
  {
    hide EntryBytes, Wire, Hold, IndexOf, Without;
    var s' := OnReceiverReads(s, noPending, out);
    assert s.handed + [] == s.handed;
  }

  lemma ReadKeepsOrder(s: System, noPending: bool, out: SendResult)
    requires CanHandle(s) && TakenThenWaiting(s)
    ensures TakenThenWaiting(OnReceiverReads(s, noPending, out))
  {
    hide OnReceiverReads, CanHandle;
    HandoverIsQueued(s, noPending, out);
    var s' := OnReceiverReads(s, noPending, out);
    if s'.handed == s.handed {
      NothingMoved(s, s');
    } else {
      var e := s'.receiver.queue[|s.receiver.queue|];
      assert s'.taken + s'.receiver.queue == (s.taken + s.receiver.queue) + [e];
    }
  }

  lemma TakeKeepsOrder(s: System)
    requires TakenThenWaiting(s) && s.receiver.queue != []
    ensures TakenThenWaiting(s.(receiver := TakeFromQueue(s.receiver), taken := s.taken + [s.receiver.queue[0]]))
  {
    var q := s.receiver.queue;
    assert s.taken + q == (s.taken + [q[0]]) + q[1..];
  }

  lemma NextKeepsTaken(s: System, e: Event, retryInterval: int)
    requires Inv(s) && TakenThenWaiting(s)
    ensures TakenThenWaiting(Next(s, e, retryInterval))
  {
    hide Inv, TakenThenWaiting, OnReceiverReads, OnPublish, OnSenderReads, CanHandle, RetryFrom, Restored, TakeFromQueue, Lists;
    var s' := Next(s, e, retryInterval);
    match e
    case ReceiverReads(noPending, out) =>
      if CanHandle(s) {
        ReadKeepsOrder(s, noPending, out);
      }
    case PublishCall(pub, qos, retain, clock, out) =>
      if 1 <= qos <= 2 && Fits(pub) && |s.sender.outbound| < PUBLISH_LIMIT && s.sender.msgID <= MAX_MSG_ID {
        PublishLeavesReceiver(s, pub, qos, retain, clock, out);
        NothingMoved(s, s');
      }
    case SenderReads(clock, out) =>
      if s.toSender != [] {
        SenderLeavesReceiver(s, clock, out);
        NothingMoved(s, s');
      }
    case RestartReceiver(keys, queueKeys, clock) =>
      if Lists(keys, s.receiver.store) && Lists(queueKeys, s.receiver.store) {
        InvAgrees(s);
        RestartKeepsSession(s.receiver, keys, queueKeys, clock);
        NothingMoved(s, s');
      }
    case ApplicationTakes =>
      if s.receiver.queue != [] {
        TakeKeepsOrder(s);
      }
    case RestartSender(_, _, _) => NothingMoved(s, s');
    case Cut => NothingMoved(s, s');
    case RetryTimer(_, _, _, _) => NothingMoved(s, s');
    case Reconnect(_, _, _) => NothingMoved(s, s');
  }

  lemma PublishLeavesReceiver(s: System, pub: Publication, qos: Qos, retain: bool, clock: int, out: SendResult)
    requires qos > 0 && s.sender.msgID <= MAX_MSG_ID
    ensures var s' := OnPublish(s, pub, qos, retain, clock, out);
            s'.receiver == s.receiver && s'.taken == s.taken && s'.handed == s.handed
  {
  }

  lemma SenderLeavesReceiver(s: System, clock: int, out: SendResult)
    requires s.toSender != []
    ensures var s' := OnSenderReads(s, clock, out);
            s'.receiver == s.receiver && s'.taken == s.taken && s'.handed == s.handed
  {
    hide Wire;
  }

  lemma {:induction false} RunKeepsTaken(s: System, events: seq<Event>, retryInterval: int)
    requires Inv(s) && TakenThenWaiting(s)
    ensures TakenThenWaiting(Run(s, events, retryInterval))
    decreases |events|
  {
    hide Inv, TakenThenWaiting, Next;
    if events != [] {
      NextKeepsInv(s, events[0], retryInterval);
      NextKeepsTaken(s, events[0], retryInterval);
      RunKeepsTaken(Next(s, events[0], retryInterval), events[1..], retryInterval);
    }
  }

  /** Over every run, restarts included: what the application has taken, followed by what waits for it,
      is what was handed over, in order and each once, with the data of its publish call. */
  lemma TakenInOrder(events: seq<Event>, retryInterval: int)
    ensures var s := Run(INIT, events, retryInterval);
            && |s.taken| + |s.receiver.queue| == |s.handed|
            && (forall i :: 0 <= i < |s.taken| ==>
                  s.handed[i].serial < |s.published| && Shown(s.taken[i]) == s.handed[i].msg == s.published[s.handed[i].serial])
            && (forall i :: 0 <= i < |s.receiver.queue| ==> Shown(s.receiver.queue[i]) == s.handed[|s.taken| + i].msg)
            && (forall e :: e in s.taken && e.qos == 2 ==> !e.dup)
  {
    hide Inv, Run;
    InitInv();
    RunKeepsInv(INIT, events, retryInterval);
    RunKeepsTaken(INIT, events, retryInterval);
    var s := Run(INIT, events, retryInterval);
    HandedIsPublished(s);
    var all := s.taken + s.receiver.queue;
    forall i | 0 <= i < |s.receiver.queue| ensures Shown(s.receiver.queue[i]) == s.handed[|s.taken| + i].msg {
      assert all[|s.taken| + i] == s.receiver.queue[i];
    }
    forall i | 0 <= i < |s.taken| ensures Shown(s.taken[i]) == s.handed[i].msg && (s.taken[i].qos == 2 ==> !s.taken[i].dup) {
      assert all[i] == s.taken[i];
    }
  }

  lemma HandedIsPublished(s: System)
    requires Inv(s)
    ensures forall k :: 0 <= k < |s.handed| ==> s.handed[k].serial < |s.published| && s.handed[k].msg == s.published[s.handed[k].serial]
  {
  }
}
