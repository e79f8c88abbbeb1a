/** At-least-once delivery at QoS 1, section 4.3.2 of MQTT 3.1.1: it holds on every run exactly when
    resending on a live connection is turned off. */
module AtLeastOnce {
  import opened Bytes
  import opened Packets
  import opened MessageIds
  import opened SendOrder
  import opened Sessions
  import opened StoreAgreement
  import opened Restart
  import opened Delivery
  import opened ExactlyOnce

  predicate IsPub1(f: Frame, id: nat) {
    f.packet.Publish? && f.packet.qos == 1 && f.packet.msgId == id
  }

  predicate IsAck1(p: Packet, id: nat) {
    p.Ack? && p.kind == PUBACK && p.msgId == id
  }

  /** For each id at most one PUBLISH or PUBACK is under way, for the record in flight, and a PUBACK
      under way means that its message was handed over. */
  ghost predicate Exchange(id: nat, o: Option<Message>, t: nat, down: seq<Frame>, up: seq<Packet>, handed: bool) {
    && (forall k :: 0 <= k < |down| && IsPub1(down[k], id) ==> o.Some? && o.value.qos == 1 && down[k].serial == t)
    && (forall k :: 0 <= k < |up| && IsAck1(up[k], id) ==> o.Some? && o.value.qos == 1 && handed)
    && (forall j, k :: 0 <= j < k < |down| ==> !(IsPub1(down[j], id) && IsPub1(down[k], id)))
    && (forall j, k :: 0 <= j < k < |up| ==> !(IsAck1(up[j], id) && IsAck1(up[k], id)))
    && (forall j, k :: 0 <= j < |down| && 0 <= k < |up| ==> !(IsPub1(down[j], id) && IsAck1(up[k], id)))
  }

  ghost predicate Exchanges(s: System, id: nat) {
    Exchange(id, Find(s.sender.outbound, id), SerialAt(s.flight, id), s.toReceiver, s.toSender,
             HandedOver(s.handed, SerialAt(s.flight, id)))
  }

  ghost predicate ExchangeInv(s: System) {
    forall id: nat :: Exchanges(s, id)
  }

  ghost predicate AllHanded(s: System) {
    forall t :: t in s.retired ==> HandedOver(s.handed, t)
  }

  lemma ExchangeOf(s: System, id: nat)
    requires ExchangeInv(s)
    ensures Exchanges(s, id)
  {
  }

  lemma ExchangeAll(s: System)
    requires forall id: nat :: Exchanges(s, id)
    ensures ExchangeInv(s)
  {
  }

  lemma HandedMonotone(a: seq<Handover>, b: seq<Handover>, t: nat)
    requires HandedOver(a, t)
    ensures HandedOver(a + b, t)
  {
    var k :| 0 <= k < |a| && a[k].serial == t;
    assert (a + b)[k].serial == t;
  }

  // Sending

  lemma ExchangeMoreDown(id: nat, o: Option<Message>, t: nat, down: seq<Frame>, up: seq<Packet>, handed: bool,
                         o': Option<Message>, t': nat, handed': bool, fs: seq<Frame>)
    requires Exchange(id, o, t, down, up, handed) && |fs| <= 1
    requires (fs != [] && IsPub1(fs[0], id)) || !(o' == o && t' == t && handed' == handed) ==>
               && (forall k :: 0 <= k < |down| ==> !IsPub1(down[k], id))
               && (forall k :: 0 <= k < |up| ==> !IsAck1(up[k], id))
    requires fs != [] && IsPub1(fs[0], id) ==> o'.Some? && o'.value.qos == 1 && fs[0].serial == t'
    ensures Exchange(id, o', t', down + fs, up, handed')
  {
  }

  lemma PublishExchange(s: System, pub: Publication, qos: Qos, retain: bool, clock: int, out: SendResult)
    requires Inv(s) && ExchangeInv(s) && 1 <= qos <= 2 && Fits(pub) && s.sender.msgID <= MAX_MSG_ID
    ensures ExchangeInv(OnPublish(s, pub, qos, retain, clock, out))
  {
    hide Agrees, TalkInv, FlightInv, FrameInv, HeldInv, HandInv, RetireInv, ExchangeInv;
    var x := AssignedId(s.sender.msgID, IdSet(s.sender.outbound));
    AssignedIdIsFirstFree(s.sender.msgID, IdSet(s.sender.outbound));
    if x != 0 {
      var m := Message(x, qos, retain, FirstStage(qos), pub, clock);
      var e := NewPublish(s.sender, pub, qos, retain, clock, out);
      var s1 := s.(sender := e.s, published := s.published + [Published(pub, qos, retain)], flight := s.flight[x := |s.published|]);
      var s' := OnPublish(s, pub, qos, retain, clock, out);
      PublishFinds(s.sender, m);
      FramesForOne(s1, e.sent);
      var fs := FramesFor(s1, e.sent);
      forall id: nat ensures Exchanges(s', id) {
        ExchangeOf(s, id);
        ExchangeMoreDown(id, Find(s.sender.outbound, id), SerialAt(s.flight, id), s.toReceiver, s.toSender,
                         HandedOver(s.handed, SerialAt(s.flight, id)), Find(s'.sender.outbound, id), SerialAt(s'.flight, id),
                         HandedOver(s'.handed, SerialAt(s'.flight, id)), fs);
      }
      ExchangeAll(s');
    }
  }

  // Reconnecting: each record is resent at most once on the new connection

  ghost predicate Unsent(s: System, k: nat) {
    forall i, j :: 0 <= i < |s.toReceiver| && k <= j < |s.sender.outbound| ==>
      !IsPub1(s.toReceiver[i], s.sender.outbound[j].msgid)
  }

  lemma ResendExchange(s: System, k: nat, t: Policy, out: SendResult)
    requires Inv(s) && ExchangeInv(s) && s.toSender == [] && Unsent(s, k)
    requires k < |s.sender.outbound| && Resend(s.sender.outbound[k]).Some?
    ensures var p := Resend(s.sender.outbound[k]).value;
            var s' := Send(s.(sender := ResendAt(s.sender, k, p, t, out)), Offered(p, out));
            ExchangeInv(s') && s'.toSender == [] && Unsent(s', k + 1)
  {
    hide Agrees, TalkInv, FlightInv, FrameInv, HeldInv, HandInv, RetireInv, ExchangeInv;
    var m := s.sender.outbound[k];
    var p := Resend(m).value;
    var a := ResendAt(s.sender, k, p, t, out);
    var s' := Send(s.(sender := a), Offered(p, out));
    RecordOfFind(s, k);
    PubrecFinds(s, k, a.outbound[k]);
    FramesForOne(s.(sender := a), Offered(p, out));
    var fs := FramesFor(s.(sender := a), Offered(p, out));
    forall id: nat ensures Exchanges(s', id) {
      ExchangeOf(s, id);
      ExchangeMoreDown(id, Find(s.sender.outbound, id), SerialAt(s.flight, id), s.toReceiver, s.toSender,
                       HandedOver(s.handed, SerialAt(s.flight, id)), Find(s'.sender.outbound, id), SerialAt(s.flight, id),
                       HandedOver(s.handed, SerialAt(s.flight, id)), fs);
    }
    ExchangeAll(s');
    OutboundDistinct(s.sender);
  }

  lemma {:induction false} RetriesExchange(s: System, k: nat, t: Policy, outs: seq<SendResult>)
    requires Inv(s) && ExchangeInv(s) && s.toSender == [] && k <= |s.sender.outbound| && Unsent(s, k)
    ensures var pass := RetryFrom(s.sender, k, t, outs);
            ExchangeInv(Send(s.(sender := pass.s), pass.sent))
    decreases |s.sender.outbound| - k
  {
    hide Inv, ExchangeInv;
    if k == |s.sender.outbound| {
      SendNothing(s);
    } else if !Due(s.sender.outbound[k], t) || Resend(s.sender.outbound[k]) == None {
      RetriesExchange(s, k + 1, t, outs);
    } else {
      var p := Resend(s.sender.outbound[k]).value;
      var out := OutcomeAt(outs, k);
      var a := ResendAt(s.sender, k, p, t, out);
      ResendKeepsInv(s, k, t, out);
      ResendExchange(s, k, t, out);
      if out == COMPLETE {
        RetriesExchange(Send(s.(sender := a), [p]), k + 1, t, outs);
        var rest := RetryFrom(a, k + 1, t, outs);
        SendTwice(s, a, [p], rest.s, rest.sent);
      }
    }
  }

  lemma EmptyLinkExchange(s: System)
    requires s.toReceiver == [] && s.toSender == []
    ensures ExchangeInv(s)
  {
  }

  // Reading

  /** A PUBACK completes the record it answers and leaves nothing of the exchange under way. */
  lemma AckExchange(id: nat, o: Option<Message>, t: nat, down: seq<Frame>, up: seq<Packet>, handed: bool, t': nat, handed': bool)
    requires Exchange(id, o, t, down, up, handed) && up != []
    requires IsAck1(up[0], id) || (o.Some? && o.value.qos != 1)
    ensures Exchange(id, None, t', down, up[1..], handed')
    ensures IsAck1(up[0], id) ==> handed
  {
  }

  lemma ExchangeUpTail(id: nat, o: Option<Message>, t: nat, down: seq<Frame>, up: seq<Packet>, handed: bool,
                       o': Option<Message>, fs: seq<Frame>)
    requires Exchange(id, o, t, down, up, handed) && up != [] && |fs| <= 1 && (fs != [] ==> fs[0].packet.Ack?)
    requires o' == o || (o.Some? && o'.Some? && o'.value.qos == o.value.qos)
    ensures Exchange(id, o', t, down + fs, up[1..], handed)
  {
    assert forall k :: 0 <= k < |down + fs| && IsPub1((down + fs)[k], id) ==> k < |down|;
  }

  lemma DroppedExchange(s: System, k: nat, store: Store)
    requires Inv(s) && ExchangeInv(s) && Completes(s, k)
    requires s.sender.outbound[k].qos == 1 ==> IsAck1(s.toSender[0], s.sender.outbound[k].msgid)
    ensures ExchangeInv(Dropped(s, k, store))
    ensures HandedOver(s.handed, SerialAt(s.flight, s.sender.outbound[k].msgid))
  {
    hide Agrees, TalkInv, FlightInv, FrameInv, HeldInv, HandInv, RetireInv, ExchangeInv;
    var s' := Dropped(s, k, store);
    var m := s.sender.outbound[k];
    RecordOfFind(s, k);
    WithoutFinds(s, k);
    DroppedTalks(s, k, store);
    forall id: nat ensures Exchanges(s', id) {
      ExchangeOf(s, id);
      var o, t := Find(s.sender.outbound, id), SerialAt(s.flight, id);
      if id == m.msgid {
        AckExchange(id, o, t, s.toReceiver, s.toSender, HandedOver(s.handed, t), 0, HandedOver(s.handed, 0));
      } else {
        assert s.toReceiver + [] == s.toReceiver;
        ExchangeUpTail(id, o, t, s.toReceiver, s.toSender, HandedOver(s.handed, t), o, []);
      }
    }
    ExchangeAll(s');
    ExchangeOf(s, m.msgid);
  }

  lemma SenderReadsExchange(s: System, clock: int, out: SendResult)
    requires Inv(s) && ExchangeInv(s) && s.toSender != []
    ensures ExchangeInv(OnSenderReads(s, clock, out))
    ensures AllHanded(s) ==> AllHanded(OnSenderReads(s, clock, out))
  {
    hide Agrees, TalkInv, FlightInv, FrameInv, HeldInv, HandInv, RetireInv, ExchangeInv;
    var p := s.toSender[0];
    var k := IndexOf(s.sender.outbound, p.msgId);
    var s' := OnSenderReads(s, clock, out);
    if |s'.sender.outbound| != |s.sender.outbound| {
      DroppedExchange(s, k, s'.sender.store);
    } else {
      SenderReadsInPlace(s, clock, out);
    }
  }

  lemma SenderReadsInPlace(s: System, clock: int, out: SendResult)
    requires Inv(s) && ExchangeInv(s) && s.toSender != []
    requires |OnSenderReads(s, clock, out).sender.outbound| == |s.sender.outbound|
    ensures ExchangeInv(OnSenderReads(s, clock, out)) && OnSenderReads(s, clock, out).retired == s.retired
  {
    var fs := InPlaceStep(s, clock, out);
    var s' := OnSenderReads(s, clock, out);
    hide Inv, ExchangeInv, OnSenderReads, HandedOver, Find;
    forall id: nat ensures Exchanges(s', id) {
      ExchangeOf(s, id);
      ExchangeUpTail(id, Find(s.sender.outbound, id), SerialAt(s.flight, id), s.toReceiver, s.toSender,
                     HandedOver(s.handed, SerialAt(s.flight, id)), Find(s'.sender.outbound, id), fs);
    }
    ExchangeAll(s');
  }

  /** An acknowledgement that completes nothing: records keep their place and their QoS, and at most
      a PUBREL goes out. */
  lemma InPlaceStep(s: System, clock: int, out: SendResult) returns (fs: seq<Frame>)
    requires Inv(s) && s.toSender != []
    requires |OnSenderReads(s, clock, out).sender.outbound| == |s.sender.outbound|
    ensures var s' := OnSenderReads(s, clock, out);
            && s' == s.(sender := s'.sender, toReceiver := s.toReceiver + fs, toSender := s.toSender[1..], log := s'.log)
            && |fs| <= 1 && (fs != [] ==> fs[0].packet.Ack?)
            && forall id: nat ::
                 var o, o' := Find(s.sender.outbound, id), Find(s'.sender.outbound, id);
                 o' == o || (o.Some? && o'.Some? && o'.value.qos == o.value.qos)
  {
    hide Agrees, TalkInv, FlightInv, FrameInv, HeldInv, HandInv, RetireInv, Wire, Find;
    var p := s.toSender[0];
    var k := IndexOf(s.sender.outbound, p.msgId);
    var s' := OnSenderReads(s, clock, out);
    fs := [];
    assert s.toReceiver + [] == s.toReceiver;
    if p.Ack? && p.kind == PUBREC {
      var e := HandlePubrec(s.sender, p.msgId, clock, out);
      var s1 := s.(toSender := s.toSender[1..], sender := e.s);
      FramesForOne(s1, e.sent);
      fs := FramesFor(s1, e.sent);
      if e.s != s.sender {
        RecordOfFind(s, k);
        PubrecFinds(s, k, e.s.outbound[k]);
      }
    }
  }

  /** Reading a frame: a PUBLISH at QoS 1 is answered only if it is handed over. */
  lemma ReadExchange(id: nat, o: Option<Message>, t: nat, down: seq<Frame>, up: seq<Packet>, handed: bool,
                     handed': bool, ps: seq<Packet>)
    requires Exchange(id, o, t, down, up, handed) && down != [] && (handed ==> handed') && |ps| <= 1
    requires ps != [] && IsAck1(ps[0], id) ==> IsPub1(down[0], id) && handed'
    ensures Exchange(id, o, t, down[1..], up + ps, handed')
  {
    assert forall k :: 0 <= k < |up + ps| && IsAck1((up + ps)[k], id) && !(ps != [] && IsAck1(ps[0], id)) ==> k < |up|;
  }

  lemma ReceiverReadsExchange(s: System, noPending: bool, out: SendResult)
    requires Inv(s) && ExchangeInv(s) && CanHandle(s)
    ensures ExchangeInv(OnReceiverReads(s, noPending, out))
    ensures AllHanded(s) ==> AllHanded(OnReceiverReads(s, noPending, out))
  {
    hide Agrees, TalkInv, FlightInv, FrameInv, HeldInv, HandInv, RetireInv, ExchangeInv;
    var f := s.toReceiver[0];
    var s' := OnReceiverReads(s, noPending, out);
    ReceiverAnswers(s, noPending, out);
    var ps, given := s'.toSender[|s.toSender|..], s'.handed[|s.handed|..];
    forall t: nat ensures HandedOver(s.handed, t) ==> HandedOver(s'.handed, t) {
      if HandedOver(s.handed, t) {
        HandedMonotone(s.handed, given, t);
      }
    }
    forall id: nat ensures Exchanges(s', id) {
      ExchangeOf(s, id);
      var o, t := Find(s.sender.outbound, id), SerialAt(s.flight, id);
      ReadExchange(id, o, t, s.toReceiver, s.toSender, HandedOver(s.handed, t), HandedOver(s'.handed, t), ps);
    }
    ExchangeAll(s');
  }

  lemma ReceiverAnswers(s: System, noPending: bool, out: SendResult)
    requires CanHandle(s)
    ensures var f := s.toReceiver[0];
            var s' := OnReceiverReads(s, noPending, out);
            && s' == s.(toReceiver := s.toReceiver[1..], toSender := s'.toSender, receiver := s'.receiver, handed := s'.handed, held := s'.held)
            && s.toSender <= s'.toSender && |s'.toSender| <= |s.toSender| + 1 && s.handed <= s'.handed
            && (|s'.toSender| > |s.toSender| && s'.toSender[|s.toSender|].Ack? && s'.toSender[|s.toSender|].kind == PUBACK ==>
                  IsPub1(f, s'.toSender[|s.toSender|].msgId) && HandedOver(s'.handed, f.serial))
  {
    var f := s.toReceiver[0];
    var s' := OnReceiverReads(s, noPending, out);
    if f.packet.Publish? && f.packet.qos == 1 && noPending {
      assert s'.handed[|s.handed|].serial == f.serial;
    }
  }

  // Runs

  lemma NextExchange(s: System, e: Event, retryInterval: int)
    requires Inv(s) && ExchangeInv(s) && AllHanded(s) && retryInterval <= 0
    ensures ExchangeInv(Next(s, e, retryInterval)) && AllHanded(Next(s, e, retryInterval))
  {
    hide Inv, OnPublish, OnReceiverReads, OnSenderReads, CanHandle, RetryFrom, ExchangeInv;
    var s' := Next(s, e, retryInterval);
    match e
    case PublishCall(pub, qos, retain, clock, out) =>
      if 1 <= qos <= 2 && Fits(pub) && |s.sender.outbound| < PUBLISH_LIMIT && s.sender.msgID <= MAX_MSG_ID {
        PublishExchange(s, pub, qos, retain, clock, out);
        PublishHistoryOnly(s, pub, qos, retain, clock, out);
      }
    case SenderReads(clock, out) =>
      if s.toSender != [] {
        SenderReadsExchange(s, clock, out);
      }
    case ReceiverReads(noPending, out) =>
      if CanHandle(s) {
        ReceiverReadsExchange(s, noPending, out);
      }
    case RetryTimer(now, clock, ready, outs) =>
      SendNothing(s);
    case Reconnect(clock, ready, outs) =>
      ReopenedKeepsInv(s);
      EmptyLinkExchange(Reopened(s));
      SendNothing(Reopened(s));
      RetriesExchange(Reopened(s), 0, Policy(0, clock, retryInterval, true, ready), outs);
    case RestartSender(keys, queueKeys, clock) =>
      if Lists(keys, s.sender.store) && Lists(queueKeys, s.sender.store) { EmptyLinkExchange(s'); }
    case RestartReceiver(keys, queueKeys, clock) =>
      if Lists(keys, s.receiver.store) && Lists(queueKeys, s.receiver.store) { EmptyLinkExchange(s'); }
    case Cut => EmptyLinkExchange(s');
    case ApplicationTakes =>
      forall id: nat ensures Exchanges(s', id) {
        ExchangeOf(s, id);
      }
      ExchangeAll(s');
  }

  lemma PublishHistoryOnly(s: System, pub: Publication, qos: Qos, retain: bool, clock: int, out: SendResult)
    requires qos > 0 && s.sender.msgID <= MAX_MSG_ID
    ensures var s' := OnPublish(s, pub, qos, retain, clock, out);
            s'.handed == s.handed && s'.retired == s.retired
  {
  }

  lemma {:induction false} RunExchange(s: System, events: seq<Event>, retryInterval: int)
    requires Inv(s) && ExchangeInv(s) && AllHanded(s) && retryInterval <= 0
    ensures AllHanded(Run(s, events, retryInterval))
    decreases |events|
  {
    hide Inv, ExchangeInv, Next;
    if events != [] {
      NextKeepsInv(s, events[0], retryInterval);
      NextExchange(s, events[0], retryInterval);
      RunExchange(Next(s, events[0], retryInterval), events[1..], retryInterval);
    }
  }

  /** With resending only on reconnect, every message the sender has finished with, at QoS 1 or 2,
      was handed over. */
  lemma FinishedMeansHandedOver(events: seq<Event>, retryInterval: int)
    requires retryInterval <= 0
    ensures AllHanded(Run(INIT, events, retryInterval))
  {
    InitInv();
    EmptyLinkExchange(INIT);
    RunExchange(INIT, events, retryInterval);
  }

  // Messages lost for good

  /** Call t is neither under way nor kept by either side, and has not been handed over. */
  ghost predicate Lost(s: System, t: nat) {
    && t < |s.published| && !HandedOver(s.handed, t)
    && (forall id :: id in s.flight ==> s.flight[id] != t)
    && (forall id :: id in s.held ==> s.held[id] != t)
    && (forall k :: 0 <= k < |s.toReceiver| ==> s.toReceiver[k].serial != t)
  }

  /** Packets sent for records in flight are none of call t's. */
  lemma SendKeepsLost(s: System, a: Session, ps: seq<Packet>, t: nat)
    requires Lost(s, t) && forall i :: 0 <= i < |ps| ==> ps[i].msgId in s.flight
    ensures Lost(Send(s.(sender := a), ps), t)
  {
    var s' := Send(s.(sender := a), ps);
    forall k | 0 <= k < |s'.toReceiver| ensures s'.toReceiver[k].serial != t {
      if k >= |s.toReceiver| {
        assert s'.toReceiver[k] == FrameFor(s.(sender := a), ps[k - |s.toReceiver|]);
      }
    }
  }

  lemma PublishKeepsLost(s: System, pub: Publication, qos: Qos, retain: bool, clock: int, out: SendResult, t: nat)
    requires Lost(s, t) && qos > 0 && s.sender.msgID <= MAX_MSG_ID
    ensures Lost(OnPublish(s, pub, qos, retain, clock, out), t)
  {
    hide Wire;
    var id := AssignedId(s.sender.msgID, IdSet(s.sender.outbound));
    if id != 0 {
      var e := NewPublish(s.sender, pub, qos, retain, clock, out);
      var s1 := s.(published := s.published + [Published(pub, qos, retain)], flight := s.flight[id := |s.published|]);
      assert Lost(s1, t);
      SendKeepsLost(s1, e.s, e.sent, t);
    }
  }

  lemma {:induction false} PassSendsRecords(s: Session, k: nat, t: Policy, outs: seq<SendResult>)
    requires k <= |s.outbound|
    ensures forall p :: p in RetryFrom(s, k, t, outs).sent ==> p.msgId in IdSet(s.outbound)
    decreases |s.outbound| - k
  {
    hide Due, Wire;
    if k < |s.outbound| {
      PassSendsRecords(s, k + 1, t, outs);
      var m := s.outbound[k];
      if Resend(m).Some? {
        var a := ResendAt(s, k, Resend(m).value, t, OutcomeAt(outs, k));
        PassSendsRecords(a, k + 1, t, outs);
        SameIdSet(s.outbound, a.outbound);
        assert m in s.outbound;
      }
    }
  }

  lemma SameIdSet(a: seq<Message>, b: seq<Message>)
    requires |a| == |b| && forall i :: 0 <= i < |a| ==> a[i].msgid == b[i].msgid
    ensures forall id :: id in IdSet(b) ==> id in IdSet(a)
  {
    forall id | id in IdSet(b) ensures id in IdSet(a) {
      var m :| m in b && m.msgid == id;
      var i :| 0 <= i < |b| && b[i] == m;
      assert a[i] in a;
    }
  }

  lemma RetriesKeepLost(s: System, t: nat, p: Policy, outs: seq<SendResult>)
    requires Inv(s) && Lost(s, t)
    ensures Lost(OnRetries(s, p, outs), t)
  {
    hide Inv, Lost, RetryFrom;
    var pass := Retries(s.sender, p, outs);
    PassSendsRecords(s.sender, 0, p, outs);
    forall i | 0 <= i < |pass.sent| ensures pass.sent[i].msgId in s.flight {
      assert pass.sent[i] in RetryFrom(s.sender, 0, p, outs).sent;
      IdInFlight(s, pass.sent[i].msgId);
    }
    SendKeepsLost(s, pass.s, pass.sent, t);
  }

  lemma IdInFlight(s: System, id: nat)
    requires Inv(s) && id in IdSet(s.sender.outbound)
    ensures id in s.flight
  {
    FindMembers(s.sender.outbound, id);
  }

  lemma SenderReadsKeepsLost(s: System, clock: int, out: SendResult, t: nat)
    requires Inv(s) && Lost(s, t) && s.toSender != []
    ensures Lost(OnSenderReads(s, clock, out), t)
  {
    hide Agrees, TalkInv, FrameInv, HeldInv, HandInv, RetireInv, Wire;
    var p := s.toSender[0];
    var s1 := s.(toSender := s.toSender[1..]);
    assert Lost(s1, t);
    if p.Ack? && p.kind == PUBREC {
      var e := HandlePubrec(s.sender, p.msgId, clock, out);
      if e.sent != [] {
        assert Find(s.sender.outbound, p.msgId).Some?;
      }
      SendKeepsLost(s1, e.s, e.sent, t);
    }
  }

  /** Only what is under way or held can be handed over. */
  lemma ReceiverReadsKeepsLost(s: System, noPending: bool, out: SendResult, t: nat)
    requires Inv(s) && Lost(s, t) && CanHandle(s)
    ensures Lost(OnReceiverReads(s, noPending, out), t)
  {
    hide Agrees, TalkInv, FlightInv, FrameInv, HandInv, RetireInv, Wire;
    var f := s.toReceiver[0];
    var s' := OnReceiverReads(s, noPending, out);
    if f.packet.Publish? {
      OneHandover(s.receiver, ReceivePublish(s.receiver, f.packet, noPending, out).s, f.serial, s.handed, t);
    } else {
      var id := f.packet.msgId;
      var after := HandlePubrel(s.receiver, id, f.packet.dup, noPending, out).s;
      if after.queue != s.receiver.queue {
        assert Find(s.receiver.inbound, id).Some?;
        HeldOf(s, id);
      }
      OneHandover(s.receiver, after, SerialAt(s.held, id), s.handed, t);
    }
  }

  lemma OneHandover(before: Session, after: Session, serial: nat, handed: seq<Handover>, t: nat)
    requires !HandedOver(handed, t) && (after.queue != before.queue ==> serial != t)
    ensures !HandedOver(handed + NewHandovers(before, after, serial), t)
  {
    var given := NewHandovers(before, after, serial);
    if given == [] {
      assert handed + given == handed;
    } else {
      assert given == [given[0]];
      MoreHanded(handed, given[0], t);
    }
  }

  lemma NextKeepsLost(s: System, e: Event, retryInterval: int, t: nat)
    requires Inv(s) && Lost(s, t)
    ensures Lost(Next(s, e, retryInterval), t)
  {
    hide Inv, OnPublish, OnReceiverReads, OnSenderReads, OnRetries, CanHandle, Lists, Restored;
    match e
    case PublishCall(pub, qos, retain, clock, out) =>
      if 1 <= qos <= 2 && Fits(pub) && |s.sender.outbound| < PUBLISH_LIMIT && s.sender.msgID <= MAX_MSG_ID {
        PublishKeepsLost(s, pub, qos, retain, clock, out, t);
      }
    case SenderReads(clock, out) =>
      if s.toSender != [] {
        SenderReadsKeepsLost(s, clock, out, t);
      }
    case ReceiverReads(noPending, out) =>
      if CanHandle(s) {
        ReceiverReadsKeepsLost(s, noPending, out, t);
      }
    case RetryTimer(now, clock, ready, outs) =>
      RetriesKeepLost(s, t, Policy(now, clock, retryInterval, false, ready), outs);
    case Reconnect(clock, ready, outs) =>
      ReopenedKeepsInv(s);
      RetriesKeepLost(Reopened(s), t, Policy(0, clock, retryInterval, true, ready), outs);
    case Cut =>
    case RestartSender(_, _, _) =>
    case RestartReceiver(_, _, _) =>
    case ApplicationTakes =>
  }

  /** What is lost is never handed over, whatever happens next. */
  lemma {:induction false} LostForGood(s: System, more: seq<Event>, retryInterval: int, t: nat)
    requires Inv(s) && Lost(s, t)
    ensures !HandedOver(Run(s, more, retryInterval).handed, t)
    decreases |more|
  {
    hide Inv, Lost, Next;
    if more == [] {
      LostIsNotHanded(s, t);
    } else {
      NextKeepsInv(s, more[0], retryInterval);
      NextKeepsLost(s, more[0], retryInterval, t);
      LostForGood(Next(s, more[0], retryInterval), more[1..], retryInterval, t);
    }
  }

  lemma LostIsNotHanded(s: System, t: nat)
    requires Lost(s, t)
    ensures !HandedOver(s.handed, t)
  {
  }

  // Resending on a live connection

  const ONE := Publication([], [1])
  const TWO := Publication([], [2])

  /** One QoS 1 record in flight under id 1. */
  function Lone(pub: Publication): Message {
    Message(1, 1, false, None, pub, 0)
  }

  function LoneFrame(pub: Publication, dup: bool, serial: nat): Frame {
    Frame(PublishOf(Lone(pub), dup), serial)
  }

  /** The counter of message ids starts again at 0 in a new process. */
  lemma LoneRestart(s: System, pub: Publication, retryInterval: int)
    requires Inv(s) && s.sender.outbound == [Lone(pub)] && s.sender.store.Keys == {SentKey(1)}
    ensures var s' := Next(s, RestartSender([SentKey(1)], [SentKey(1)], 0), retryInterval);
            && s' == Disconnected(s).(sender := s'.sender) && s'.sender.outbound == [Lone(pub)] && s'.sender.msgID == 0
  {
    assert Lists([SentKey(1)], s.sender.store);
    LoneRestored(s.sender, pub);
  }

  lemma LoneRestored(s: Session, pub: Publication)
    requires Agrees(s) && s.outbound == [Lone(pub)] && Lists([SentKey(1)], s.store)
    ensures Restored(s.store, [SentKey(1)], [SentKey(1)], 0).outbound == [Lone(pub)]
  {
    hide Restored, Agrees, RestoredOrder, Find;
    var keys := [SentKey(1)];
    var r := Restored(s.store, keys, keys, 0);
    RestartKeepsSession(s, keys, keys, 0);
    OneIdComesBack(s);
    assert Ids(r.outbound)[0] == 1;
    OutboundDistinct(r);
    FindIs(r.outbound, 1, 0);
    FindIs(s.outbound, 1, 0);
  }

  lemma LonePublish(s: System, pub: Publication, retryInterval: int)
    requires Fits(pub) && s.sender.outbound == [] && s.sender.msgID == 0
    ensures var s' := Next(s, PublishCall(pub, 1, false, 0, COMPLETE), retryInterval);
            && s'.sender.outbound == [Lone(pub)] && s'.sender.store == s.sender.store[SentKey(1) := Wire(PublishOf(Lone(pub), false))]
            && s'.toReceiver == s.toReceiver + [LoneFrame(pub, false, |s.published|)] && s'.flight == s.flight[1 := |s.published|]
            && s' == s.(sender := s'.sender, toReceiver := s'.toReceiver, flight := s'.flight, log := s'.log,
                        published := s.published + [Published(pub, 1, false)])
  {
    assert IdSet([]) == {};
    assert CyclicId(0, 1) == 1;
    assert AssignedId(0, {}) == 1;
    var e := NewPublish(s.sender, pub, 1, false, 0, COMPLETE);
    assert e.s.outbound == [] + [Lone(pub)] == [Lone(pub)];
  }

  lemma LoneResend(s: System, pub: Publication, t: Policy)
    requires s.sender.outbound == [Lone(pub)] && 1 in s.flight && t.clock == 0
    requires t.ready && (t.regardless || (t.retryInterval > 0 && t.now > t.retryInterval + 10))
    ensures var s' := OnRetries(s, t, []);
            && s'.sender.outbound == [Lone(pub)] && s'.sender.msgID == s.sender.msgID
            && s'.toReceiver == s.toReceiver + [LoneFrame(pub, true, s.flight[1])]
            && s' == s.(sender := s'.sender, toReceiver := s'.toReceiver, log := s'.log)
  {
    var p := PublishOf(Lone(pub), true);
    var a := ResendAt(s.sender, 0, p, t, COMPLETE);
    assert a.outbound == [Lone(pub)];
    assert RetryFrom(a, 1, t, []) == Pass(a, [], false);
    assert RetryFrom(s.sender, 0, t, []) == Pass(a, [p] + [], false);
    assert [p] + [] == [p];
    FramesForOne(s.(sender := a), [p]);
  }

  lemma LoneRead(s: System, pub: Publication, dup: bool, serial: nat, retryInterval: int)
    requires Fits(pub) && s.toReceiver != [] && s.toReceiver[0] == LoneFrame(pub, dup, serial)
    ensures var s' := Next(s, ReceiverReads(true, COMPLETE), retryInterval);
            && s' == s.(toReceiver := s.toReceiver[1..], toSender := s.toSender + [Ack(PUBACK, false, 1)],
                        receiver := s'.receiver, handed := s.handed + [Handover(serial, Published(pub, 1, false))])
  {
  }

  lemma LoneAck(s: System, pub: Publication, retryInterval: int)
    requires s.sender.outbound == [Lone(pub)] && 1 in s.flight && s.toSender == [Ack(PUBACK, false, 1)]
    ensures var s' := Next(s, SenderReads(0, COMPLETE), retryInterval);
            && s'.sender.outbound == [] && s'.sender.msgID == s.sender.msgID
            && s' == s.(sender := s'.sender, toSender := [], retired := s.retired + [s.flight[1]], flight := s.flight - {1})
  {
    assert Without([Lone(pub)], 0) == [];
  }

  function LosingRun(retryInterval: int): seq<Event> {
    [PublishCall(ONE, 1, false, 0, COMPLETE),
     RestartSender([SentKey(1)], [SentKey(1)], 0),
     Reconnect(0, true, []),
     RetryTimer(retryInterval + 11, 0, true, []),
     ReceiverReads(true, COMPLETE),
     SenderReads(0, COMPLETE),
     PublishCall(TWO, 1, false, 0, COMPLETE),
     ReceiverReads(true, COMPLETE),
     SenderReads(0, COMPLETE),
     Cut]
  }

  /** A message resent while its PUBACK is under way leaves a second PUBACK behind.  After a restart
      the same id is given to the next message, which that PUBACK then completes unseen; when the
      connection is cut, that message is lost, whatever happens next. */
  lemma LiveRetryLosesMessage(retryInterval: int, more: seq<Event>)
    requires retryInterval > 0
    ensures var s := Run(INIT, LosingRun(retryInterval), retryInterval);
            && s.retired == [0, 1] && s.published == [Published(ONE, 1, false), Published(TWO, 1, false)]
            && !HandedOver(s.handed, 1) && !HandedOver(Run(s, more, retryInterval).handed, 1)
  {
    hide Run, Inv, Next;
    var s := LostAtLast(retryInterval);
    InitInv();
    RunKeepsInv(INIT, LosingRun(retryInterval), retryInterval);
    LostIsNotHanded(s, 1);
    LostForGood(s, more, retryInterval, 1);
  }

  lemma LostAtLast(retryInterval: int) returns (s: System)
    requires retryInterval > 0
    ensures s == Run(INIT, LosingRun(retryInterval), retryInterval)
    ensures s.retired == [0, 1] && s.published == [Published(ONE, 1, false), Published(TWO, 1, false)] && Lost(s, 1)
  {
    hide Next, Run;
    var es := LosingRun(retryInterval);
    var s4 := BothUnderWay(retryInterval);
    var s5 := Next(s4, es[4], retryInterval);
    var s6 := Next(s5, es[5], retryInterval);
    var s7 := Next(s6, es[6], retryInterval);
    var s8 := Next(s7, es[7], retryInterval);
    var s9 := Next(s8, es[8], retryInterval);
    LoneRead(s4, ONE, true, 0, retryInterval);
    LoneAck(s5, ONE, retryInterval);
    LonePublish(s6, TWO, retryInterval);
    LoneRead(s7, ONE, true, 0, retryInterval);
    LoneAck(s8, TWO, retryInterval);
    RunFive(s4, es, 4, retryInterval);
    RunStep(s9, es, 9, retryInterval);
    s := Next(s9, es[9], retryInterval);
    CutIs(s9, retryInterval);
    RunEnds(s, es, retryInterval);
    assert es[0..] == es;
  }

  lemma CutIs(s: System, r: int)
    ensures Next(s, Cut, r) == Disconnected(s)
  {
  }

  lemma RunFive(s: System, es: seq<Event>, i: nat, r: int)
    requires i + 5 <= |es|
    ensures Run(s, es[i..], r) == Run(Next(Next(Next(Next(Next(s, es[i], r), es[i + 1], r), es[i + 2], r), es[i + 3], r), es[i + 4], r), es[i + 5..], r)
  {
    hide Next, Run;
    var a := Next(s, es[i], r);
    var b := Next(a, es[i + 1], r);
    var c := Next(b, es[i + 2], r);
    var d := Next(c, es[i + 3], r);
    RunStep(s, es, i, r);
    RunStep(a, es, i + 1, r);
    RunStep(b, es, i + 2, r);
    RunStep(c, es, i + 3, r);
    RunStep(d, es, i + 4, r);
  }

  /** After a restart the message is in flight, and the id counter is back at 0. */
  lemma PublishedAndRestarted(retryInterval: int) returns (s2: System)
    ensures Run(INIT, LosingRun(retryInterval)[0..], retryInterval) == Run(s2, LosingRun(retryInterval)[2..], retryInterval)
    ensures s2.sender.outbound == [Lone(ONE)] && s2.sender.msgID == 0 && s2.flight == map[1 := 0]
    ensures s2.handed == [] && s2.retired == [] && s2.held == map[] && s2.published == [Published(ONE, 1, false)]
  {
    hide Next, Inv, Run;
    var r := retryInterval;
    var es := LosingRun(r);
    InitInv();
    LonePublish(INIT, ONE, r);
    var s1 := Next(INIT, es[0], r);
    NextKeepsInv(INIT, es[0], r);
    assert s1.sender.store.Keys == {SentKey(1)};
    LoneRestart(s1, ONE, r);
    s2 := Next(s1, es[1], r);
    RunStep(INIT, es, 0, r);
    RunStep(s1, es, 1, r);
  }

  /** The message and its repetition are both under way. */
  lemma BothUnderWay(retryInterval: int) returns (s4: System)
    requires retryInterval > 0
    ensures Run(INIT, LosingRun(retryInterval)[0..], retryInterval) == Run(s4, LosingRun(retryInterval)[4..], retryInterval)
    ensures s4.sender.outbound == [Lone(ONE)] && s4.sender.msgID == 0 && s4.flight == map[1 := 0]
    ensures s4.toReceiver == [LoneFrame(ONE, true, 0), LoneFrame(ONE, true, 0)] && s4.toSender == []
    ensures s4.handed == [] && s4.retired == [] && s4.held == map[] && s4.published == [Published(ONE, 1, false)]
  {
    hide Next, OnRetries, Run;
    var r := retryInterval;
    var es := LosingRun(r);
    var s2 := PublishedAndRestarted(r);
    ReconnectIs(s2, ONE, r);
    LoneResend(Disconnected(s2), ONE, Policy(0, 0, r, true, true));
    var s3 := Next(s2, es[2], r);
    RetryTimerIs(s3, r);
    LoneResend(s3, ONE, Policy(r + 11, 0, r, false, true));
    s4 := Next(s3, es[3], r);
    RunStep(s2, es, 2, r);
    RunStep(s3, es, 3, r);
  }

  lemma ReconnectIs(s: System, pub: Publication, r: int)
    requires s.sender.outbound == [Lone(pub)]
    ensures Next(s, Reconnect(0, true, []), r) == OnRetries(Disconnected(s), Policy(0, 0, r, true, true), [])
  {
    assert Reconnected(s.sender).outbound == [Lone(pub)];
  }

  lemma RetryTimerIs(s: System, r: int)
    ensures Next(s, RetryTimer(r + 11, 0, true, []), r) == OnRetries(s, Policy(r + 11, 0, r, false, true), [])
  {
  }

  /** Some run loses a message: the sender is done with it and it is never handed over. */
  ghost predicate CanLose(retryInterval: int) {
    exists events: seq<Event>, t: nat ::
      var s := Run(INIT, events, retryInterval);
      t in s.retired && forall more: seq<Event> :: !HandedOver(Run(s, more, retryInterval).handed, t)
  }

  /** Every finished message was handed over, on every run, exactly when the retry interval turns
      resending on a live connection off; otherwise a message can be lost for good. */
  lemma AtLeastOnceIffNoLiveRetry(retryInterval: int)
    ensures (forall events: seq<Event> :: AllHanded(Run(INIT, events, retryInterval))) <==> retryInterval <= 0
    ensures CanLose(retryInterval) <==> retryInterval > 0
  {
    hide Run;
    if retryInterval <= 0 {
      forall events: seq<Event> ensures AllHanded(Run(INIT, events, retryInterval)) {
        FinishedMeansHandedOver(events, retryInterval);
      }
      forall events: seq<Event>, t: nat | t in Run(INIT, events, retryInterval).retired
        ensures HandedOver(Run(Run(INIT, events, retryInterval), [], retryInterval).handed, t)
      {
        RunEnds(Run(INIT, events, retryInterval), [], retryInterval);
      }
    } else {
      var s := Run(INIT, LosingRun(retryInterval), retryInterval);
      forall more: seq<Event>
        ensures s.retired == [0, 1] && !HandedOver(s.handed, 1) && !HandedOver(Run(s, more, retryInterval).handed, 1)
      {
        LiveRetryLosesMessage(retryInterval, more);
      }
      LiveRetryLosesMessage(retryInterval, []);
      assert 1 in s.retired;
      assert !AllHanded(s);
    }
  }
}
