/** How a message gets done with: an expected answer completes it, a published message can always be
    completed, and after a reconnect a message can be completed exactly if it does not wait for a PUBCOMP
    that was lost. */
module Completion {
  import opened Bytes
  import opened Packets
  import opened MessageIds
  import opened Sessions
  import opened StoreAgreement
  import opened Restart
  import opened Delivery
  import opened ExactlyOnce
  import opened AtLeastOnce
  import opened OnTheWire
  import opened HandoverOrder
  import opened HandoverRuns
  import opened Overtaking
  import Handlers

  // One answer

  /** The answer that ends the flow of a record with this id. */
  predicate Ends(p: Packet, id: nat, m: Message) {
    (IsAck1(p, id) && m.qos == 1) || (IsComp(p, id) && AtComp(m))
  }

  /** An expected PUBACK or PUBCOMP completes its message: the call is finished, its record and keys are
      gone, and every other id keeps its record, its keys and its call. */
  lemma AnswerCompletes(s: System, x: nat, clock: int, out: SendResult)
    requires Inv(s) && Find(s.sender.outbound, x).Some? && s.toSender != [] && Ends(s.toSender[0], x, Find(s.sender.outbound, x).value)
    ensures var s' := OnSenderReads(s, clock, out);
            && x in s.flight && s'.retired == s.retired + [s.flight[x]] && s'.flight == s.flight - {x}
            && Find(s'.sender.outbound, x) == None
            && (forall other: nat :: other != x ==> Find(s'.sender.outbound, other) == Find(s.sender.outbound, other))
            && x <= MAX_MSG_ID && SentKey(x) !in s'.sender.store && PubrelKey(x) !in s'.sender.store
            && s'.sender.store.Keys == s.sender.store.Keys - {SentKey(x), PubrelKey(x)}
            && (forall k :: k in s'.sender.store ==> s'.sender.store[k] == s.sender.store[k])
            && s' == s.(sender := s'.sender, toSender := s.toSender[1..], retired := s'.retired, flight := s'.flight)
  {
    hide TalkInv, FlightInv, FrameInv, HeldInv, HandInv, RetireInv, Agrees;
    var k := IndexOf(s.sender.outbound, x);
    RecordOfFind(s, k);
    InvAgrees(s);
    if Find(s.sender.outbound, x).value.qos == 1 {
      Handlers.PubackCompletes(s.sender, x, k);
    } else {
      Handlers.PubcompCompletes(s.sender, x, k);
    }
  }

  /** Any other answer leaves the record in flight. */
  lemma OthersStay(s: System, x: nat, clock: int, out: SendResult)
    requires Inv(s) && Find(s.sender.outbound, x).Some? && s.toSender != [] && !Ends(s.toSender[0], x, Find(s.sender.outbound, x).value)
    ensures Find(OnSenderReads(s, clock, out).sender.outbound, x).Some? && s.retired <= OnSenderReads(s, clock, out).retired
  {
    hide Inv, Agrees, HandlePuback, HandlePubcomp, HandlePubrec, Find, Ends;
    InvAgrees(s);
    if s.toSender[0].Ack? {
      RecordStays(s.sender, s.toSender[0], x, clock, out);
    }
  }

  lemma RecordStays(s: Session, p: Packet, x: nat, clock: int, out: SendResult)
    requires Agrees(s) && p.Ack? && Find(s.outbound, x).Some? && !Ends(p, x, Find(s.outbound, x).value)
    ensures p.kind == PUBACK ==> Find(HandlePuback(s, p.msgId).outbound, x).Some?
    ensures p.kind == PUBCOMP ==> Find(HandlePubcomp(s, p.msgId).outbound, x).Some?
    ensures p.kind == PUBREC ==> Find(HandlePubrec(s, p.msgId, clock, out).s.outbound, x).Some?
  {
    var k := IndexOf(s.outbound, p.msgId);
    if k < |s.outbound| {
      FindWithout(s.outbound, k, x);
      FindReplaced(s.outbound, k, s.outbound[k].(next := Some(PUBCOMP), lastTouch := clock), x);
    }
    hide Agrees, Wire, Without;
  }

  // A flow that is under way

  ghost predicate AnswerOnItsWay(up: seq<Packet>, id: nat, kind: AckKind) {
    exists i :: 0 <= i < |up| && up[i].Ack? && up[i].kind == kind && up[i].msgId == id
  }

  /** The next packet of the record's flow is on the link, in one direction or the other. */
  ghost predicate Flows(x: nat, m: Message, handed: bool, down: seq<Frame>, up: seq<Packet>) {
    || (m.qos == 1 && (Before(down, |down|, QOS1, x) || AnswerOnItsWay(up, x, PUBACK)))
    || (AtRec(m) && (Before(down, |down|, QOS2, x) || AnswerOnItsWay(up, x, PUBREC)))
    || (AtComp(m) && ((!handed && Before(down, |down|, RELEASE, x)) || AnswerOnItsWay(up, x, PUBCOMP)))
  }

  ghost predicate Flowing(s: System, x: nat) {
    Find(s.sender.outbound, x).Some? && Flows(x, Find(s.sender.outbound, x).value, HandedId(s, x), s.toReceiver, s.toSender)
  }

  lemma AnswerMore(up: seq<Packet>, ps: seq<Packet>, id: nat, kind: AckKind)
    requires |ps| <= 1
    ensures AnswerOnItsWay(up + ps, id, kind) <==>
            AnswerOnItsWay(up, id, kind) || (ps != [] && ps[0].Ack? && ps[0].kind == kind && ps[0].msgId == id)
  {
    var all := up + ps;
    if AnswerOnItsWay(up, id, kind) {
      var i :| 0 <= i < |up| && up[i].Ack? && up[i].kind == kind && up[i].msgId == id;
      assert all[i] == up[i];
    }
    if AnswerOnItsWay(all, id, kind) {
      var i :| 0 <= i < |all| && all[i].Ack? && all[i].kind == kind && all[i].msgId == id;
      assert i < |up| ==> all[i] == up[i];
      assert i >= |up| ==> all[i] == ps[0];
    }
    if ps != [] {
      assert all[|up|] == ps[0];
    }
  }

  lemma AnswerTail(up: seq<Packet>, id: nat, kind: AckKind)
    requires up != []
    ensures AnswerOnItsWay(up, id, kind) <==>
            (up[0].Ack? && up[0].kind == kind && up[0].msgId == id) || AnswerOnItsWay(up[1..], id, kind)
  {
    AnswerMore([up[0]], [], id, kind);
    if AnswerOnItsWay(up, id, kind) {
      var i :| 0 <= i < |up| && up[i].Ack? && up[i].kind == kind && up[i].msgId == id;
      assert i > 0 ==> up[1..][i - 1] == up[i];
    }
    if AnswerOnItsWay(up[1..], id, kind) {
      var i :| 0 <= i < |up[1..]| && up[1..][i].Ack? && up[1..][i].kind == kind && up[1..][i].msgId == id;
      assert up[i + 1] == up[1..][i];
    }
  }

  // Successful reads

  /** What an accepted frame is answered with. */
  lemma Answered(s: System)
    requires Inv(s) && CanHandle(s)
    ensures var f := s.toReceiver[0];
            var id := f.packet.msgId;
            var ps := OnReceiverReads(s, true, COMPLETE).toSender[|s.toSender|..];
            && (IsPub1(f, id) ==> ps == [Ack(PUBACK, false, id)])
            && (IsPub(f, id) ==> ps == [Ack(PUBREC, false, id)])
            && (IsRel(f, id) && Find(s.receiver.inbound, id).Some? ==> ps == [Ack(PUBCOMP, false, id)])
  {
    hide TalkInv, FlightInv, FrameInv, HeldInv, HandInv, RetireInv, Agrees, Wire, EntryBytes;
    var f := s.toReceiver[0];
    var id := f.packet.msgId;
    InvAgrees(s);
    if IsRel(f, id) && Find(s.receiver.inbound, id).Some? {
      Handlers.ReleasedByPubrel(s.receiver, id, f.packet.dup, COMPLETE, IndexOf(s.receiver.inbound, id));
    } else if IsPub1(f, id) {
      Handlers.DeliveredOnArrival(s.receiver, f.packet, true, COMPLETE);
    } else if IsPub(f, id) {
      Handlers.HeldOnArrival(s.receiver, f.packet, COMPLETE);
    }
  }

  /** Before its hand-over a released message is still held. */
  lemma StillHeld(s: System, x: nat)
    requires Inv(s) && Find(s.sender.outbound, x).Some? && AtComp(Find(s.sender.outbound, x).value) && !HandedId(s, x)
    ensures Find(s.receiver.inbound, x).Some?
  {
    hide Agrees, FlightInv, FrameInv, HeldInv, HandInv, RetireInv;
    TalksOf(s, x);
  }

  ghost predicate UnderWay(s: System, x: nat, t: nat) {
    Inv(s) && ExchangeInv(s) && (t in s.retired || (Current(s, x, t) && Flowing(s, x)))
  }

  lemma ReceiverKeepsFlow(s: System, x: nat)
    requires Inv(s) && ExchangeInv(s) && CanHandle(s) && Flowing(s, x)
    ensures Flowing(OnReceiverReads(s, true, COMPLETE), x)
  {
    hide Agrees, TalkInv, FlightInv, FrameInv, HeldInv, HandInv, RetireInv, ExchangeInv, OnReceiverReads, ReadByAll;
    var s' := OnReceiverReads(s, true, COMPLETE);
    var f := s.toReceiver[0];
    var ps := ReadsEffect(s, true, COMPLETE);
    var m := Find(s.sender.outbound, x).value;
    Answered(s);
    assert s'.toSender[|s.toSender|..] == ps;
    BeforeTail(s.toReceiver, |s'.toReceiver|, QOS1, x);
    BeforeTail(s.toReceiver, |s'.toReceiver|, QOS2, x);
    BeforeTail(s.toReceiver, |s'.toReceiver|, RELEASE, x);
    AnswerMore(s.toSender, ps, x, PUBACK);
    AnswerMore(s.toSender, ps, x, PUBREC);
    AnswerMore(s.toSender, ps, x, PUBCOMP);
    if AtComp(m) && !HandedId(s, x) {
      StillHeld(s, x);
      if s'.handed != s.handed && f.packet.msgId != x {
        FlightQos(s, f.packet.msgId);
        FlightQos(s, x);
        MoreHanded(s.handed, s'.handed[|s.handed|], SerialOf(s, x));
      }
    }
  }

  lemma SenderKeepsFlow(s: System, x: nat)
    requires Inv(s) && s.toSender != [] && Flowing(s, x)
    ensures var s' := OnSenderReads(s, 0, COMPLETE);
            SerialOf(s, x) in s'.retired || (Flowing(s', x) && SerialOf(s', x) == SerialOf(s, x))
  {
    hide Agrees, TalkInv, FlightInv, FrameInv, HeldInv, HandInv, RetireInv, OnSenderReads;
    var s' := OnSenderReads(s, 0, COMPLETE);
    var p := s.toSender[0];
    var m := Find(s.sender.outbound, x).value;
    if Ends(p, x, m) {
      AnswerCompletes(s, x, 0, COMPLETE);
      assert s'.retired[|s.retired|] == s.flight[x];
    } else {
      OthersStay(s, x, 0, COMPLETE);
      var fs := AcksEffect(s, 0, COMPLETE);
      AnswerTail(s.toSender, x, PUBACK);
      AnswerTail(s.toSender, x, PUBREC);
      AnswerTail(s.toSender, x, PUBCOMP);
      BeforeMore(s.toReceiver, fs, 0, QOS1, x);
      BeforeMore(s.toReceiver, fs, 0, QOS2, x);
      BeforeMore(s.toReceiver, fs, 0, RELEASE, x);
      if AtRec(m) {
        RecNotHanded(s, x);
      }
    }
  }

  lemma ReceiverStep(s: System, x: nat, t: nat, retryInterval: int)
    requires UnderWay(s, x, t) && s.toReceiver != []
    ensures var s' := Next(s, ReceiverReads(true, COMPLETE), retryInterval);
            && UnderWay(s', x, t) && s'.toReceiver == s.toReceiver[1..] && s'.sender == s.sender && s'.retired == s.retired
            && (HandedOver(s.handed, t) ==> HandedOver(s'.handed, t))
  {
    hide Inv, ExchangeInv, OnReceiverReads, CanHandle, Flowing, ReadByAll;
    HeadCanBeHandled(s);
    NextKeepsInv(s, ReceiverReads(true, COMPLETE), retryInterval);
    ReceiverReadsExchange(s, true, COMPLETE);
    var ps := ReadsEffect(s, true, COMPLETE);
    if HandedOver(s.handed, t) {
      StillHanded(s, OnReceiverReads(s, true, COMPLETE), t);
    }
    if t !in s.retired {
      ReceiverKeepsFlow(s, x);
    }
  }

  lemma SenderStep(s: System, x: nat, t: nat, retryInterval: int) returns (fs: seq<Frame>)
    requires UnderWay(s, x, t) && s.toSender != []
    ensures var s' := Next(s, SenderReads(0, COMPLETE), retryInterval);
            && UnderWay(s', x, t) && s'.toSender == s.toSender[1..] && s'.handed == s.handed && s'.published == s.published && s.retired <= s'.retired
            && s'.toReceiver == s.toReceiver + fs && forall f :: f in fs ==> f.packet.Ack?
  {
    hide Inv, ExchangeInv, OnSenderReads, Flowing, AckBy;
    NextKeepsInv(s, SenderReads(0, COMPLETE), retryInterval);
    SenderReadsExchange(s, 0, COMPLETE);
    fs := AcksEffect(s, 0, COMPLETE);
    AcksAddPubrels(s, fs);
    RetiredGrows(s);
    if t !in s.retired {
      SenderKeepsFlow(s, x);
      if t !in OnSenderReads(s, 0, COMPLETE).retired {
        FlowingIsCurrent(OnSenderReads(s, 0, COMPLETE), x);
      }
    } else {
      var i :| 0 <= i < |s.retired| && s.retired[i] == t;
      assert OnSenderReads(s, 0, COMPLETE).retired[i] == t;
    }
  }

  lemma FlowingIsCurrent(s: System, x: nat)
    requires Flowing(s, x)
    ensures Find(s.sender.outbound, x).Some?
  {
  }

  lemma RetiredGrows(s: System)
    requires s.toSender != []
    ensures s.retired <= OnSenderReads(s, 0, COMPLETE).retired
  {
    hide Wire;
  }

  lemma AcksAddPubrels(s: System, fs: seq<Frame>)
    requires s.toSender != [] && OnSenderReads(s, 0, COMPLETE).toReceiver == s.toReceiver + fs
    ensures forall f :: f in fs ==> f.packet.Ack?
  {
    hide HandlePuback, HandlePubcomp, HandlePubrec;
    var down := s.toReceiver;
    var all := OnSenderReads(s, 0, COMPLETE).toReceiver;
    PubrecSendsPubrel(s.sender, s.toSender[0].msgId, 0, COMPLETE);
    assert forall i :: 0 <= i < |fs| ==> fs[i] == all[|down| + i];
  }

  lemma PubrecSendsPubrel(s: Session, id: MsgId, clock: int, out: SendResult)
    ensures forall i :: 0 <= i < |HandlePubrec(s, id, clock, out).sent| ==> HandlePubrec(s, id, clock, out).sent[i].Ack?
  {
    hide Wire;
  }

  /** The receiver reads all that is on the link. */
  lemma {:induction false} ReadDown(s: System, x: nat, t: nat, retryInterval: int) returns (more: seq<Event>, s': System)
    requires UnderWay(s, x, t)
    ensures ReadsOnly(more) && s' == Run(s, more, retryInterval) && UnderWay(s', x, t)
    ensures s'.toReceiver == [] && s'.sender == s.sender && s'.retired == s.retired && (HandedOver(s.handed, t) ==> HandedOver(s'.handed, t))
    decreases |s.toReceiver|
  {
    hide UnderWay, Next;
    if s.toReceiver == [] {
      more, s' := [], s;
    } else {
      ReceiverStep(s, x, t, retryInterval);
      var rest: seq<Event>;
      rest, s' := ReadDown(Next(s, ReceiverReads(true, COMPLETE), retryInterval), x, t, retryInterval);
      more := [ReceiverReads(true, COMPLETE)] + rest;
      assert more[1..] == rest;
    }
  }

  /** The sender reads all answers; only PUBRELs enter the link. */
  lemma {:induction false} ReadUp(s: System, x: nat, t: nat, retryInterval: int) returns (more: seq<Event>, s': System)
    requires UnderWay(s, x, t) && forall f :: f in s.toReceiver ==> f.packet.Ack?
    ensures ReadsOnly(more) && s' == Run(s, more, retryInterval) && UnderWay(s', x, t)
    ensures s'.toSender == [] && s'.handed == s.handed && s'.published == s.published && (forall f :: f in s'.toReceiver ==> f.packet.Ack?) && s.retired <= s'.retired
    decreases |s.toSender|
  {
    hide UnderWay, Next;
    if s.toSender == [] {
      more, s' := [], s;
    } else {
      var fs := SenderStep(s, x, t, retryInterval);
      var rest: seq<Event>;
      rest, s' := ReadUp(Next(s, SenderReads(0, COMPLETE), retryInterval), x, t, retryInterval);
      more := [SenderReads(0, COMPLETE)] + rest;
      assert more[1..] == rest;
    }
  }

  predicate AwaitsRec(s: System, x: nat) {
    Find(s.sender.outbound, x).Some? && AtRec(Find(s.sender.outbound, x).value)
  }

  predicate AwaitsComp(s: System, x: nat) {
    Find(s.sender.outbound, x).Some? && AtComp(Find(s.sender.outbound, x).value)
  }

  lemma ReadsConcat(a: seq<Event>, b: seq<Event>)
    requires ReadsOnly(a) && ReadsOnly(b)
    ensures ReadsOnly(a + b)
  {
  }

  /** Reading everything once completes a message, or moves it from its first stage to its second. */
  lemma OneRound(s: System, x: nat, t: nat, retryInterval: int) returns (more: seq<Event>, s': System)
    requires UnderWay(s, x, t)
    ensures ReadsOnly(more) && s' == Run(s, more, retryInterval) && UnderWay(s', x, t)
    ensures t in s'.retired || (AwaitsRec(s, x) && AwaitsComp(s', x))
  {
    hide UnderWay, Run, ReadsOnly, AtRec, AtComp, Find;
    var a, s1 := ReadDown(s, x, t, retryInterval);
    var b, s2 := ReadUp(s1, x, t, retryInterval);
    RunConcat(s, a, b, retryInterval);
    ReadsConcat(a, b);
    more, s' := a + b, s2;
    AllRead(s1, s2, x, t);
  }

  lemma AllRead(s1: System, s2: System, x: nat, t: nat)
    requires UnderWay(s1, x, t) && UnderWay(s2, x, t) && s1.toReceiver == [] && s2.toSender == []
    requires s2.handed == s1.handed && s2.published == s1.published && (forall f :: f in s2.toReceiver ==> f.packet.Ack?) && s1.retired <= s2.retired
    ensures t in s2.retired || (AwaitsRec(s1, x) && AwaitsComp(s2, x))
  {
    hide Inv, ExchangeInv, Agrees;
    if t in s1.retired {
      var i :| 0 <= i < |s1.retired| && s1.retired[i] == t;
      assert s2.retired[i] == t;
    } else if t !in s2.retired {
      forall i | 0 <= i < |s2.toReceiver| ensures s2.toReceiver[i].packet.Ack? {
        assert s2.toReceiver[i] in s2.toReceiver;
      }
      NoDeadEnd(s1, s2, x, t);
    }
  }

  /** What waits for its PUBREL to be read was not handed over before, so it was in its first stage. */
  lemma NoDeadEnd(s1: System, s2: System, x: nat, t: nat)
    requires Inv(s1) && Inv(s2) && Current(s1, x, t) && Current(s2, x, t) && Flowing(s1, x) && Flowing(s2, x)
    requires s1.toReceiver == [] && s2.toSender == [] && s2.handed == s1.handed && s2.published == s1.published
    requires forall i :: 0 <= i < |s2.toReceiver| ==> s2.toReceiver[i].packet.Ack?
    requires ExchangeInv(s1)
    ensures AwaitsRec(s1, x) && AwaitsComp(s2, x)
  {
    hide Agrees, FlightInv, FrameInv, HeldInv, HandInv, RetireInv, TalkInv, ExchangeInv;
    TalksOf(s1, x);
    TalksOf(s2, x);
    ExchangeOf(s1, x);
    var m1, m2 := Find(s1.sender.outbound, x).value, Find(s2.sender.outbound, x).value;
    FlightQos(s1, x);
    FlightQos(s2, x);
    RecordValid(s1, x);
    RecordValid(s2, x);
  }

  // Messages that can be completed

  /** A message under way can be completed by reads alone. */
  lemma CanComplete(s: System, x: nat, t: nat, retryInterval: int) returns (more: seq<Event>)
    requires UnderWay(s, x, t)
    ensures ReadsOnly(more) && t in Run(s, more, retryInterval).retired
  {
    hide UnderWay, Run;
    var a, s1 := OneRound(s, x, t, retryInterval);
    if t in s1.retired {
      more := a;
    } else {
      var b, s2 := OneRound(s1, x, t, retryInterval);
      RunConcat(s, a, b, retryInterval);
      more := a + b;
    }
  }

  /** From every state in which no repetition is under way, so from every one with an empty link: a message
      that is published at QoS 1 or 2 and sent can be completed by reads alone. */
  lemma PublishCompletes(s: System, pub: Publication, qos: Qos, retain: bool, clock: int, retryInterval: int) returns (more: seq<Event>)
    requires Inv(s) && (ExchangeInv(s) || (s.toReceiver == [] && s.toSender == [])) && CanPublish(s, pub, qos)
    ensures ReadsOnly(more)
    ensures |s.published| in Run(Next(s, PublishCall(pub, qos, retain, clock, COMPLETE), retryInterval), more, retryInterval).retired
  {
    hide Inv, ExchangeInv, OnPublish, Run, PublishEffect;
    if s.toReceiver == [] && s.toSender == [] {
      EmptyLinkExchange(s);
    }
    var e := PublishCall(pub, qos, retain, clock, COMPLETE);
    var s1 := Next(s, e, retryInterval);
    assert s1 == OnPublish(s, pub, qos, retain, clock, COMPLETE);
    IdSetSize(s.sender.outbound);
    AssignedIdExists(s.sender.msgID, IdSet(s.sender.outbound));
    var m, fs := PublishesEffect(s, pub, qos, retain, clock, COMPLETE);
    NextKeepsInv(s, e, retryInterval);
    PublishExchange(s, pub, qos, retain, clock, COMPLETE);
    NewFlow(s, s1, m, fs);
    more := CanComplete(s1, m.msgid, |s.published|, retryInterval);
  }

  /** A publish call is taken exactly while fewer than 65534 messages are in flight. */
  lemma CallIsTakenIff(s: System, pub: Publication, qos: Qos, retain: bool, clock: int, out: SendResult, retryInterval: int)
    requires Inv(s) && 1 <= qos <= 2 && Fits(pub)
    ensures var s' := Next(s, PublishCall(pub, qos, retain, clock, out), retryInterval);
            if |s.sender.outbound| < 65534
            then |s'.sender.outbound| == |s.sender.outbound| + 1 && s'.published == s.published + [Published(pub, qos, retain)]
            else s' == s
  {
    hide Agrees, TalkInv, FlightInv, FrameInv, HeldInv, HandInv, RetireInv, Wire;
    if |s.sender.outbound| < 65534 {
      InvAgrees(s);
      CounterInRange(s.sender);
      IdSetSize(s.sender.outbound);
      AssignedIdExists(s.sender.msgID, IdSet(s.sender.outbound));
    }
  }

  lemma NewFlow(s: System, s': System, m: Message, fs: seq<Frame>)
    requires Inv(s') && ExchangeInv(s') && PublishEffect(s, s', m, fs) && fs == [Frame(PublishOf(m, false), |s.published|)]
    ensures UnderWay(s', m.msgid, |s.published|)
  {
    hide Inv, ExchangeInv;
    BeforeMore(s.toReceiver, fs, 0, QOS1, m.msgid);
    BeforeMore(s.toReceiver, fs, 0, QOS2, m.msgid);
  }

  // A lost PUBCOMP

  /** The message has been handed over and its PUBCOMP is lost: no PUBREL under way is marked DUP, and
      none that is not will be answered. */
  ghost predicate Stalled(s: System, x: nat, t: nat) {
    && Current(s, x, t) && AtComp(Find(s.sender.outbound, x).value) && HandedOver(s.handed, t)
    && !AnswerOnItsWay(s.toSender, x, PUBCOMP)
    && forall k :: 0 <= k < |s.toReceiver| && IsRel(s.toReceiver[k], x) ==> !s.toReceiver[k].packet.dup
  }

  lemma {:induction false} PubrelsUnmarked(s: Session, k: nat, t: Policy, outs: seq<SendResult>)
    requires k <= |s.outbound|
    ensures forall p :: p in RetryFrom(s, k, t, outs).sent && p.Ack? ==> !p.dup
    decreases |s.outbound| - k
  {
    hide Due, Wire;
    if k < |s.outbound| {
      PubrelsUnmarked(s, k + 1, t, outs);
      var m := s.outbound[k];
      if Resend(m).Some? {
        PubrelsUnmarked(ResendAt(s, k, Resend(m).value, t, OutcomeAt(outs, k)), k + 1, t, outs);
      }
    }
  }

  lemma RetriesKeepStalled(s: System, x: nat, t: nat, p: Policy, outs: seq<SendResult>)
    requires Stalled(s, x, t)
    ensures Stalled(OnRetries(s, p, outs), x, t)
  {
    hide RetryFrom, Resend;
    var pass := Retries(s.sender, p, outs);
    PubrelsUnmarked(s.sender, 0, p, outs);
    RetryKeepsRecords(s.sender, 0, p, outs);
    var s' := OnRetries(s, p, outs);
    if pass.s != s.sender {
      SameRecordsFind(s.sender.outbound, pass.s.outbound, x);
    }
    forall k | 0 <= k < |s'.toReceiver| && IsRel(s'.toReceiver[k], x) ensures !s'.toReceiver[k].packet.dup {
      if k >= |s.toReceiver| {
        assert s'.toReceiver[k].packet == pass.sent[k - |s.toReceiver|];
        assert pass.sent[k - |s.toReceiver|] in pass.sent;
      }
    }
  }

  lemma ReceiverKeepsStalled(s: System, x: nat, t: nat, noPending: bool, out: SendResult)
    requires Inv(s) && Stalled(s, x, t) && CanHandle(s)
    ensures Stalled(OnReceiverReads(s, noPending, out), x, t)
  {
    hide Agrees, FlightInv, FrameInv, HeldInv, HandInv, RetireInv, TalkInv, EntryBytes, Wire, Hold, Without;
    var s' := OnReceiverReads(s, noPending, out);
    var f := s.toReceiver[0];
    ReceiverAnswers(s, noPending, out);
    HandedMonotone(s.handed, s'.handed[|s.handed|..], t);
    assert s'.handed == s.handed + s'.handed[|s.handed|..];
    var ps := s'.toSender[|s.toSender|..];
    assert s'.toSender == s.toSender + ps;
    AnswerMore(s.toSender, ps, x, PUBCOMP);
    TalksOf(s, x);
    NotHeldAgain(s, x, t);
  }

  lemma NotHeldAgain(s: System, x: nat, t: nat)
    requires Talks(s, x) && Stalled(s, x, t)
    ensures Find(s.receiver.inbound, x).None?
  {
  }

  lemma SenderKeepsStalled(s: System, x: nat, t: nat, clock: int, out: SendResult)
    requires Inv(s) && Stalled(s, x, t) && s.toSender != []
    ensures Stalled(OnSenderReads(s, clock, out), x, t)
  {
    hide Inv, OnSenderReads;
    AnswerTail(s.toSender, x, PUBCOMP);
    OthersStay(s, x, clock, out);
    var fs := AcksEffect(s, clock, out);
  }

  lemma PublishKeepsStalled(s: System, x: nat, t: nat, pub: Publication, qos: Qos, retain: bool, clock: int, out: SendResult)
    requires Inv(s) && Stalled(s, x, t) && 1 <= qos <= 2 && Fits(pub) && s.sender.msgID <= MAX_MSG_ID
    ensures Stalled(OnPublish(s, pub, qos, retain, clock, out), x, t)
  {
    hide Agrees, FlightInv, FrameInv, HeldInv, HandInv, RetireInv, TalkInv, Wire, Find;
    var id := AssignedId(s.sender.msgID, IdSet(s.sender.outbound));
    AssignedIdIsFirstFree(s.sender.msgID, IdSet(s.sender.outbound));
    if id != 0 {
      var m := Message(id, qos, retain, FirstStage(qos), pub, clock);
      PublishFinds(s.sender, m);
    }
  }

  lemma NextKeepsStalled(s: System, x: nat, t: nat, e: Event, retryInterval: int)
    requires Inv(s) && Stalled(s, x, t)
    ensures Stalled(Next(s, e, retryInterval), x, t)
  {
    hide Inv, OnPublish, OnReceiverReads, OnSenderReads, OnRetries, CanHandle, Lists, Restored, Find;
    match e
    case PublishCall(pub, qos, retain, clock, out) =>
      if 1 <= qos <= 2 && Fits(pub) && |s.sender.outbound| < PUBLISH_LIMIT && s.sender.msgID <= MAX_MSG_ID {
        PublishKeepsStalled(s, x, t, pub, qos, retain, clock, out);
      }
    case SenderReads(clock, out) =>
      if s.toSender != [] {
        SenderKeepsStalled(s, x, t, clock, out);
      }
    case ReceiverReads(noPending, out) =>
      if CanHandle(s) {
        ReceiverKeepsStalled(s, x, t, noPending, out);
      }
    case RetryTimer(now, clock, ready, outs) =>
      RetriesKeepStalled(s, x, t, Policy(now, clock, retryInterval, false, ready), outs);
    case Reconnect(clock, ready, outs) =>
      InvAgrees(s);
      ReconnectedFinds(s.sender);
      RetriesKeepStalled(Reopened(s), x, t, Policy(0, clock, retryInterval, true, ready), outs);
    case RestartSender(keys, queueKeys, clock) =>
      if Lists(keys, s.sender.store) && Lists(queueKeys, s.sender.store) {
        InvAgrees(s);
        RestartKeepsSession(s.sender, keys, queueKeys, clock);
        FindsBeyondIds(s.sender, Restored(s.sender.store, keys, queueKeys, clock));
      }
    case RestartReceiver(_, _, _) =>
    case Cut =>
    case ApplicationTakes =>
  }

  lemma {:induction false} StalledForGood(s: System, x: nat, t: nat, more: seq<Event>, retryInterval: int)
    requires Inv(s) && Stalled(s, x, t)
    ensures t !in Run(s, more, retryInterval).retired
    decreases |more|
  {
    hide Inv, Stalled, Next;
    if more == [] {
      StalledIsInFlight(s, x, t);
    } else {
      NextKeepsInv(s, more[0], retryInterval);
      NextKeepsStalled(s, x, t, more[0], retryInterval);
      StalledForGood(Next(s, more[0], retryInterval), x, t, more[1..], retryInterval);
    }
  }

  lemma StalledIsInFlight(s: System, x: nat, t: nat)
    requires Inv(s) && Stalled(s, x, t)
    ensures t !in s.retired
  {
    hide Agrees, FrameInv, HeldInv, HandInv, RetireInv, TalkInv;
    NotInFlight(s, x);
  }

  /** After a connection begins and everything is resent, a message in flight can still be completed, by
      reads alone, exactly if it does not wait for the PUBCOMP of a message that was handed over; such a
      message is never completed, whatever happens next. */
  lemma ResumedCompletesIff(s: System, x: nat, clock: int, retryInterval: int)
    requires Inv(s) && Find(s.sender.outbound, x).Some?
    ensures var s' := Next(s, Reconnect(clock, true, []), retryInterval);
            var t := SerialOf(s, x);
            && ((exists more: seq<Event> :: t in Run(s', more, retryInterval).retired) <==>
                !(AtComp(Find(s.sender.outbound, x).value) && HandedId(s, x)))
            && ((exists more: seq<Event> :: ReadsOnly(more) && t in Run(s', more, retryInterval).retired) <==>
                !(AtComp(Find(s.sender.outbound, x).value) && HandedId(s, x)))
  {
    hide Inv, ExchangeInv, Run, Next, Stalled, UnderWay;
    var s' := Next(s, Reconnect(clock, true, []), retryInterval);
    var t := SerialOf(s, x);
    NextKeepsInv(s, Reconnect(clock, true, []), retryInterval);
    if AtComp(Find(s.sender.outbound, x).value) && HandedId(s, x) {
      ResumedStalls(s, x, clock, retryInterval);
      forall more: seq<Event> ensures t !in Run(s', more, retryInterval).retired {
        StalledForGood(s', x, t, more, retryInterval);
      }
    } else {
      ResumedFlows(s, x, clock, retryInterval);
      var more := CanComplete(s', x, t, retryInterval);
    }
  }

  lemma ResumedStalls(s: System, x: nat, clock: int, retryInterval: int)
    requires Inv(s) && Find(s.sender.outbound, x).Some? && AtComp(Find(s.sender.outbound, x).value) && HandedId(s, x)
    ensures Stalled(Next(s, Reconnect(clock, true, []), retryInterval), x, SerialOf(s, x))
  {
    hide Inv, OnRetries, Find;
    InvAgrees(s);
    ReconnectedFinds(s.sender);
    RetriesKeepStalled(Reopened(s), x, SerialOf(s, x), Policy(0, clock, retryInterval, true, true), []);
  }

  lemma ResumedFlows(s: System, x: nat, clock: int, retryInterval: int)
    requires Inv(s) && Find(s.sender.outbound, x).Some? && !(AtComp(Find(s.sender.outbound, x).value) && HandedId(s, x))
    ensures UnderWay(Next(s, Reconnect(clock, true, []), retryInterval), x, SerialOf(s, x))
  {
    hide Inv, ExchangeInv, Retries, OnRetries, Resend;
    var t := Policy(0, clock, retryInterval, true, true);
    var s' := OnRetries(Reopened(s), t, []);
    NextKeepsInv(s, Reconnect(clock, true, []), retryInterval);
    ResumedExchange(s, t);
    ReconnectResends(s, t, []);
    AllSent(s, t);
    RetriesKeepHistory(Reopened(s), t, []);
    SameRecordsFind(s.sender.outbound, Reconnected(s.sender).outbound, x);
    SameRecordsFind(Reconnected(s.sender).outbound, s'.sender.outbound, x);
    var k := IndexOf(s'.sender.outbound, x);
    RecordOfFind(s', k);
    ResentIs(s'.sender.outbound[k], s'.toReceiver[k]);
    assert forall kind :: Is(s'.toReceiver[k], kind, x) ==> Before(s'.toReceiver, |s'.toReceiver|, kind, x);
  }

  lemma ResumedExchange(s: System, t: Policy)
    requires Inv(s) && t.regardless && t.ready
    ensures ExchangeInv(OnRetries(Reopened(s), t, []))
  {
    hide Inv, ExchangeInv, RetryFrom;
    ReopenedKeepsInv(s);
    EmptyLinkExchange(Reopened(s));
    RetriesExchange(Reopened(s), 0, t, []);
  }

  lemma AllSent(s: System, t: Policy)
    requires Inv(s) && t.regardless && t.ready
    ensures |Retries(Reconnected(s.sender), t, []).sent| == |s.sender.outbound|
  {
    hide Inv, RetryFrom;
    var a := Reconnected(s.sender);
    ReopenedKeepsInv(s);
    AllResendable(Reopened(s));
    ResendsAreAPrefix(a, 0, t, []);
    assert a.outbound[0..] == a.outbound;
    AllResendsSize(a.outbound);
  }
}
