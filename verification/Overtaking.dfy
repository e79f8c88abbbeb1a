/** The other half of the order of hand-overs: a message that is published while an earlier one of its
    QoS is still to be resent can overtake it. */
module Overtaking {
  import opened Packets
  import opened MessageIds
  import opened Sessions
  import opened StoreAgreement
  import opened Delivery
  import opened ExactlyOnce
  import opened AtLeastOnce
  import opened OnTheWire
  import opened HandoverOrder
  import opened HandoverRuns

  /** Nothing but reads that succeed. */
  ghost predicate ReadsOnly(events: seq<Event>) {
    forall e :: e in events ==> e == ReceiverReads(true, COMPLETE) || e == SenderReads(0, COMPLETE)
  }

  lemma {:induction false} ReadsAreOrderly(s: System, c: Connection, events: seq<Event>, retryInterval: int)
    requires ReadsOnly(events) && c.sending && c.receiving
    ensures Orderly(s, c, events, retryInterval)
    decreases |events|
  {
    hide Next;
    if events != [] {
      assert events[0] in events;
      assert forall e :: e in events[1..] ==> e in events;
      ReadsAreOrderly(Next(s, events[0], retryInterval), c, events[1..], retryInterval);
    }
  }

  /** Call t is in flight under this id, or has been handed over. */
  ghost predicate Current(s: System, id: nat, t: nat) {
    Find(s.sender.outbound, id).Some? && SerialOf(s, id) == t
  }

  /** The call under id x is still to be resent, that under z on its way. */
  ghost predicate Racing(s: System, x: nat, tx: nat, z: nat, tz: nat) {
    && Inv(s) && ExchangeInv(s) && AllHanded(s) && tx < |s.published|
    && Current(s, x, tx) && !OnItsWay(s, x) && !HandedOver(s.handed, tx)
    && (HandedOver(s.handed, tz) || (Current(s, z, tz) && OnItsWay(s, z)))
  }

  lemma NotAheadRead(x: nat, m: Message, h: bool, down: seq<Frame>, up: seq<Packet>, ps: seq<Packet>)
    requires down != [] && |ps| <= 1 && ReadBy(x, m, h, h, down[0], ps, true)
    requires !Ahead(x, m, h, down, |down|, up, |up|)
    ensures !Ahead(x, m, h, down[1..], |down[1..]|, up + ps, |up + ps|)
  {
    BeforeTail(down, |down| - 1, QOS1, x);
    BeforeTail(down, |down| - 1, QOS2, x);
    BeforeTail(down, |down| - 1, RELEASE, x);
    RecMore(up, ps, 0, x);
  }

  lemma NotAheadAck(x: nat, m: Message, m': Message, h: bool, down: seq<Frame>, up: seq<Packet>, fs: seq<Frame>)
    requires up != [] && |fs| <= 1 && AckBy(x, m, m', up[0], fs, down, true)
    requires !Ahead(x, m, h, down, |down|, up, |up|)
    ensures !Ahead(x, m', h, down + fs, |down + fs|, up[1..], |up[1..]|)
  {
    RecTail(up, |up| - 1, x);
    BeforeMore(down, fs, 0, QOS1, x);
    BeforeMore(down, fs, 0, QOS2, x);
    BeforeMore(down, fs, 0, RELEASE, x);
  }

  /** A read does not drop what has not been handed over. */
  lemma StaysCurrent(s: System, s': System, id: nat, t: nat)
    requires Inv(s) && Inv(s') && AllHanded(s') && Current(s, id, t) && s'.published == s.published
    requires forall x: nat :: x in s'.flight ==> x in s.flight && s'.flight[x] == s.flight[x]
    ensures Current(s', id, t) || HandedOver(s'.handed, t)
  {
    hide Agrees, TalkInv, FrameInv, HeldInv, HandInv;
    FlightQos(s, id);
    if t !in s'.retired {
      var other: nat :| other in s'.flight && s'.flight[other] == t;
      NotInFlight(s', other);
      assert other == id;
    }
  }

  lemma RaceAtReceiver(s: System, x: nat, tx: nat, z: nat, tz: nat, retryInterval: int)
    requires Racing(s, x, tx, z, tz) && s.toReceiver != [] && retryInterval <= 0
    ensures var s' := Next(s, ReceiverReads(true, COMPLETE), retryInterval);
            && Racing(s', x, tx, z, tz) && s'.toReceiver == s.toReceiver[1..] && s'.sender == s.sender && s'.published == s.published
            && (HandedOver(s.handed, tz) ==> HandedOver(s'.handed, tz))
  {
    hide Inv, ExchangeInv, AllHanded, OnReceiverReads, ReadBy, Ahead, CanHandle;
    HeadCanBeHandled(s);
    var e := ReceiverReads(true, COMPLETE);
    var s' := OnReceiverReads(s, true, COMPLETE);
    var ps := ReadsEffect(s, true, COMPLETE);
    assert s' == Next(s, e, retryInterval);
    NextKeepsInv(s, e, retryInterval);
    NextExchange(s, e, retryInterval);
    NotHandedAtReceiver(s, s', ps, x);
    var m := Find(s.sender.outbound, x).value;
    NotAheadRead(x, m, HandedId(s, x), s.toReceiver, s.toSender, ps);
    if !HandedOver(s.handed, tz) {
      OnItsWayRead(s, s', ps, z);
    } else {
      StillHanded(s, s', tz);
    }
  }

  lemma StillHanded(s: System, s': System, t: nat)
    requires HandedOver(s.handed, t) && s.toReceiver != [] && HandsOver(s, s')
    ensures HandedOver(s'.handed, t)
  {
    if s'.handed != s.handed {
      MoreHanded(s.handed, s'.handed[|s.handed|], t);
    }
  }

  /** Reading a frame of another record hands over another call. */
  lemma NotHandedAtReceiver(s: System, s': System, ps: seq<Packet>, x: nat)
    requires Inv(s) && Find(s.sender.outbound, x).Some? && !OnItsWay(s, x) && s.toReceiver != [] && ReadEffect(s, s', ps, true)
    ensures !HandedId(s', x) && !HandedId(s, x)
  {
    hide Agrees, TalkInv, FlightInv, FrameInv, HeldInv, HandInv, RetireInv, ReadByAll;
    var f := s.toReceiver[0];
    if s'.handed != s.handed {
      var w := f.packet.msgId;
      FlightQos(s, w);
      FlightQos(s, x);
      HeadIsOnItsWay(s, w);
      MoreHanded(s.handed, s'.handed[|s.handed|], SerialOf(s, x));
    }
  }

  lemma HeadIsOnItsWay(s: System, w: nat)
    requires s.toReceiver != [] && Find(s.sender.outbound, w).Some?
    requires var m := Find(s.sender.outbound, w).value;
             (IsPub1(s.toReceiver[0], w) && m.qos == 1) || (IsRel(s.toReceiver[0], w) && AtComp(m))
    ensures OnItsWay(s, w)
  {
    assert Is(s.toReceiver[0], QOS1, w) || Is(s.toReceiver[0], RELEASE, w);
  }

  lemma RaceAtSender(s: System, x: nat, tx: nat, z: nat, tz: nat, retryInterval: int) returns (fs: seq<Frame>)
    requires Racing(s, x, tx, z, tz) && s.toSender != [] && retryInterval <= 0
    ensures var s' := Next(s, SenderReads(0, COMPLETE), retryInterval);
            && Racing(s', x, tx, z, tz) && s'.toSender == s.toSender[1..] && s'.published == s.published
            && s'.toReceiver == s.toReceiver + fs && (forall f :: f in fs ==> f.packet.Ack?)
  {
    hide Inv, ExchangeInv, AllHanded, OnSenderReads, AckBy, Ahead;
    var e := SenderReads(0, COMPLETE);
    var s' := OnSenderReads(s, 0, COMPLETE);
    fs := AcksEffect(s, 0, COMPLETE);
    assert s' == Next(s, e, retryInterval);
    NextKeepsInv(s, e, retryInterval);
    NextExchange(s, e, retryInterval);
    FlightAfterAck(s, s', fs);
    StaysCurrent(s, s', x, tx);
    var m, m' := Find(s.sender.outbound, x).value, Find(s'.sender.outbound, x).value;
    NotAheadAck(x, m, m', HandedId(s, x), s.toReceiver, s.toSender, fs);
    OnlyReleases(x, m, m', s.toSender[0], fs, s.toReceiver);
    if !HandedOver(s.handed, tz) {
      StaysCurrent(s, s', z, tz);
      OnItsWayAck(s, s', fs, z);
    }
  }

  lemma OnlyReleases(x: nat, m: Message, m': Message, p: Packet, fs: seq<Frame>, down: seq<Frame>)
    requires AckBy(x, m, m', p, fs, down, true) && |fs| <= 1
    ensures forall f :: f in fs ==> f.packet.Ack?
  {
  }

  lemma FlightAfterAck(s: System, s': System, fs: seq<Frame>)
    requires Inv(s) && Inv(s') && s.toSender != [] && AckEffect(s, s', fs, true)
    ensures forall x: nat :: x in s'.flight ==> x in s.flight && s'.flight[x] == s.flight[x]
  {
    hide AckBy, Agrees, TalkInv, FrameInv, HeldInv, HandInv, RetireInv;
    forall x: nat | x in s'.flight ensures x in s.flight && s'.flight[x] == s.flight[x] {
      NotInFlight(s', x);
      NotInFlight(s, x);
    }
  }

  /** The receiver reads all that is on the link. */
  lemma {:induction false} DrainDown(s: System, x: nat, tx: nat, z: nat, tz: nat, retryInterval: int) returns (more: seq<Event>, s': System)
    requires Racing(s, x, tx, z, tz) && retryInterval <= 0
    ensures ReadsOnly(more) && s' == Run(s, more, retryInterval) && Racing(s', x, tx, z, tz)
    ensures s'.toReceiver == [] && s'.sender == s.sender && s'.published == s.published
    ensures HandedOver(s.handed, tz) ==> HandedOver(s'.handed, tz)
    decreases |s.toReceiver|
  {
    hide Racing, Next;
    if s.toReceiver == [] {
      more, s' := [], s;
    } else {
      var e := ReceiverReads(true, COMPLETE);
      RaceAtReceiver(s, x, tx, z, tz, retryInterval);
      var rest: seq<Event>;
      rest, s' := DrainDown(Next(s, e, retryInterval), x, tx, z, tz, retryInterval);
      more := [e] + rest;
      assert more[1..] == rest;
    }
  }

  /** The sender reads all answers; only PUBRELs enter the link. */
  lemma {:induction false} DrainUp(s: System, x: nat, tx: nat, z: nat, tz: nat, retryInterval: int) returns (more: seq<Event>, s': System)
    requires Racing(s, x, tx, z, tz) && retryInterval <= 0 && forall f :: f in s.toReceiver ==> f.packet.Ack?
    ensures ReadsOnly(more) && s' == Run(s, more, retryInterval) && Racing(s', x, tx, z, tz)
    ensures s'.toSender == [] && s'.published == s.published && forall f :: f in s'.toReceiver ==> f.packet.Ack?
    decreases |s.toSender|
  {
    hide Racing, Next;
    if s.toSender == [] {
      more, s' := [], s;
    } else {
      var e := SenderReads(0, COMPLETE);
      var fs := RaceAtSender(s, x, tx, z, tz, retryInterval);
      var rest: seq<Event>;
      rest, s' := DrainUp(Next(s, e, retryInterval), x, tx, z, tz, retryInterval);
      more := [e] + rest;
      assert more[1..] == rest;
    }
  }

  /** When all answers are read, what is on its way is at most waiting for its PUBREL to be read. */
  lemma AnswersRead(s: System, x: nat, tx: nat, z: nat, tz: nat)
    requires Racing(s, x, tx, z, tz) && s.toSender == [] && forall f :: f in s.toReceiver ==> f.packet.Ack?
    ensures HandedOver(s.handed, tz) || AtComp(Find(s.sender.outbound, z).value)
  {
    hide Inv, ExchangeInv, AllHanded;
    forall i | 0 <= i < |s.toReceiver| ensures s.toReceiver[i].packet.Ack? {
      assert s.toReceiver[i] in s.toReceiver;
    }
  }

  lemma LinkRead(s: System, x: nat, tx: nat, z: nat, tz: nat)
    requires Racing(s, x, tx, z, tz) && s.toReceiver == []
    requires HandedOver(s.handed, tz) || AtComp(Find(s.sender.outbound, z).value)
    ensures HandedOver(s.handed, tz)
  {
    hide Inv, ExchangeInv, AllHanded;
  }

  /** What is on its way can be handed over before what is still to be resent. */
  lemma RaceIsLost(s: System, x: nat, tx: nat, z: nat, tz: nat, retryInterval: int) returns (more: seq<Event>)
    requires Racing(s, x, tx, z, tz) && retryInterval <= 0
    ensures ReadsOnly(more)
    ensures var s' := Run(s, more, retryInterval);
            HandedOver(s'.handed, tz) && !HandedOver(s'.handed, tx) && s'.published == s.published && Inv(s')
  {
    hide Racing, Run;
    var a, s1 := DrainDown(s, x, tx, z, tz, retryInterval);
    var b, s2 := DrainUp(s1, x, tx, z, tz, retryInterval);
    AnswersRead(s2, x, tx, z, tz);
    var d, s3 := DrainDown(s2, x, tx, z, tz, retryInterval);
    RunConcat(s, a, b, retryInterval);
    RunConcat(s, a + b, d, retryInterval);
    more := a + b + d;
    LinkRead(s3, x, tx, z, tz);
    RaceEnds(s3, x, tx, z, tz);
  }

  lemma RaceEnds(s: System, x: nat, tx: nat, z: nat, tz: nat)
    requires Racing(s, x, tx, z, tz)
    ensures Inv(s) && !HandedOver(s.handed, tx)
  {
  }

  predicate CanPublish(s: System, pub: Publication, qos: Qos) {
    1 <= qos <= 2 && Fits(pub) && |s.sender.outbound| < PUBLISH_LIMIT && s.sender.msgID <= MAX_MSG_ID
  }

  /** A message that is published while an earlier one of its QoS is still to be resent can be handed
      over before it. */
  lemma PublishOvertakes(s: System, pub: Publication, qos: Qos, retain: bool, clock: int, x: nat, retryInterval: int) returns (more: seq<Event>)
    requires Inv(s) && ExchangeInv(s) && AllHanded(s) && retryInterval <= 0 && CanPublish(s, pub, qos)
    requires Find(s.sender.outbound, x).Some? && Find(s.sender.outbound, x).value.qos == qos && !OnItsWay(s, x)
    ensures ReadsOnly(more)
    ensures var s' := Run(Next(s, PublishCall(pub, qos, retain, clock, COMPLETE), retryInterval), more, retryInterval);
            && HandedOver(s'.handed, |s.published|) && !HandedOver(s'.handed, SerialOf(s, x))
            && SerialOf(s, x) < |s.published| && !InOrder(s')
  {
    hide Inv, ExchangeInv, AllHanded, OnPublish, PublishEffect, InOrder, Racing, Run, OnItsWay;
    var e := PublishCall(pub, qos, retain, clock, COMPLETE);
    var s1 := Next(s, e, retryInterval);
    assert s1 == OnPublish(s, pub, qos, retain, clock, COMPLETE);
    IdSetSize(s.sender.outbound);
    AssignedIdExists(s.sender.msgID, IdSet(s.sender.outbound));
    var m, fs := PublishesEffect(s, pub, qos, retain, clock, COMPLETE);
    NextKeepsInv(s, e, retryInterval);
    NextExchange(s, e, retryInterval);
    RaceBegins(s, s1, m, fs, x);
    var t := SerialOf(s, x);
    more := RaceIsLost(s1, x, t, m.msgid, |s.published|, retryInterval);
    PublishedQos(s, s1, m, fs, x);
    OutOfOrder(Run(s1, more, retryInterval), t, |s.published|);
  }

  lemma PublishedQos(s: System, s': System, m: Message, fs: seq<Frame>, x: nat)
    requires Inv(s) && PublishEffect(s, s', m, fs) && Find(s.sender.outbound, x).Some? && Find(s.sender.outbound, x).value.qos == m.qos
    ensures var t := SerialOf(s, x);
            && t < |s.published| == |s'.published| - 1
            && s'.published[t].qos == s'.published[|s.published|].qos == m.qos
  {
    hide Agrees, TalkInv, FrameInv, HeldInv, HandInv, RetireInv;
    FlightQos(s, x);
  }

  lemma RaceBegins(s: System, s': System, m: Message, fs: seq<Frame>, x: nat)
    requires Inv(s) && Inv(s') && ExchangeInv(s') && AllHanded(s') && PublishEffect(s, s', m, fs) && fs == [Frame(PublishOf(m, false), |s.published|)]
    requires Find(s.sender.outbound, x).Some? && !OnItsWay(s, x)
    ensures Racing(s', x, SerialOf(s, x), m.msgid, |s.published|)
  {
    hide Inv, ExchangeInv, AllHanded;
    assert SerialOf(s', x) == SerialOf(s, x) && SerialOf(s', m.msgid) == |s.published|;
    BeforeMore(s.toReceiver, fs, 0, QOS1, x);
    BeforeMore(s.toReceiver, fs, 0, QOS2, x);
    BeforeMore(s.toReceiver, fs, 0, RELEASE, x);
    BeforeMore(s.toReceiver, fs, 0, QOS1, m.msgid);
    BeforeMore(s.toReceiver, fs, 0, QOS2, m.msgid);
  }

  lemma OutOfOrder(s: System, u: nat, t: nat)
    requires Inv(s) && u < t < |s.published| && s.published[u].qos == s.published[t].qos
    requires HandedOver(s.handed, t) && !HandedOver(s.handed, u)
    ensures !InOrder(s)
  {
    hide Agrees, TalkInv, FlightInv, FrameInv, HeldInv, RetireInv;
    var k :| 0 <= k < |s.handed| && s.handed[k].serial == t;
    assert s.handed[k].msg == s.published[t];
    assert !HandedOver(s.handed[..k], u) by {
      assert forall i :: 0 <= i < k ==> s.handed[..k][i] == s.handed[i];
    }
  }

  /** After any run that keeps to these rules, with the connection open at both ends: publishing one
      more message is safe, whatever happens next within the rules, exactly when no earlier message of
      its QoS is still to be resent. */
  lemma PublishInOrderIff(events: seq<Event>, pub: Publication, qos: Qos, retain: bool, clock: int, retryInterval: int)
    requires retryInterval <= 0 && Orderly(INIT, OPEN, events, retryInterval)
    requires var c := ConnectionAfter(INIT, OPEN, events, retryInterval); c.sending && c.receiving
    requires CanPublish(Run(INIT, events, retryInterval), pub, qos)
    ensures var s := Run(INIT, events, retryInterval);
            var c := ConnectionAfter(INIT, OPEN, events, retryInterval);
            var s1 := Next(s, PublishCall(pub, qos, retain, clock, COMPLETE), retryInterval);
            (forall more: seq<Event> :: Orderly(s1, c, more, retryInterval) ==> InOrder(Run(s1, more, retryInterval))) <==> CaughtUp(s, qos)
  {
    var s := Run(INIT, events, retryInterval);
    var c := ConnectionAfter(INIT, OPEN, events, retryInterval);
    var e := PublishCall(pub, qos, retain, clock, COMPLETE);
    hide Run, ConnectionAfter, Orderly, Inv, ExchangeInv, AllHanded, InSendOrder, InOrder, PairInv, WholeInv, Next, OnItsWay;
    OrderFromStart();
    RunKeepsOrderInv(INIT, OPEN, events, retryInterval);
    var s1 := Next(s, e, retryInterval);
    if CaughtUp(s, qos) {
      NextKeepsOrderInv(s, c, e, retryInterval);
      forall more: seq<Event> | Orderly(s1, c, more, retryInterval) ensures InOrder(Run(s1, more, retryInterval)) {
        RunKeepsOrderInv(s1, c, more, retryInterval);
      }
    } else {
      var x: nat :| Find(s.sender.outbound, x).Some? && Find(s.sender.outbound, x).value.qos == qos && !OnItsWay(s, x);
      var more := PublishOvertakes(s, pub, qos, retain, clock, x, retryInterval);
      ReadsAreOrderly(s1, c, more, retryInterval);
    }
  }
}
