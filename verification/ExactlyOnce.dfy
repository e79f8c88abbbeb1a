/** Exactly-once delivery at QoS 2, section 4.3.3 of MQTT 3.1.1, over every run of the linked clients. */
module ExactlyOnce {
  import opened Bytes
  import opened Packets
  import opened MessageIds
  import opened SendOrder
  import opened Sessions
  import opened StoreAgreement
  import opened Restart
  import opened Delivery

  // One QoS 2 conversation: what may be under way for one message id

  predicate IsPub(f: Frame, id: nat) {
    f.packet.Publish? && f.packet.qos == 2 && f.packet.msgId == id
  }

  predicate IsRel(f: Frame, id: nat) {
    f.packet.Ack? && f.packet.kind == PUBREL && f.packet.msgId == id
  }

  predicate IsRec(p: Packet, id: nat) {
    p.Ack? && p.kind == PUBREC && p.msgId == id
  }

  predicate IsComp(p: Packet, id: nat) {
    p.Ack? && p.kind == PUBCOMP && p.msgId == id
  }

  /** The sender has no QoS 2 record: only releases and completions of earlier messages may linger. */
  ghost predicate Idle(id: nat, i: Option<Message>, held: Option<nat>, down: seq<Frame>, up: seq<Packet>) {
    && i == None && held == None
    && (forall k :: 0 <= k < |down| ==> !IsPub(down[k], id))
    && (forall k :: 0 <= k < |up| ==> !IsRec(up[k], id))
  }

  /** Waiting for PUBREC on call t, which has not been handed over.  What lingers of earlier messages
      comes first in both directions. */
  ghost predicate AwaitsRec(id: nat, t: nat, i: Option<Message>, held: Option<nat>, down: seq<Frame>, up: seq<Packet>, handed: bool) {
    && !handed
    && (held.Some? ==> held.value == t)
    && (i.Some? ==> held.Some?)
    && (forall k :: 0 <= k < |down| && IsPub(down[k], id) ==> down[k].serial == t)
    && (forall j, k :: 0 <= j < k < |down| && IsPub(down[j], id) ==> !IsRel(down[k], id))
    && (forall j, k :: 0 <= j < k < |up| && IsRec(up[j], id) ==> !IsComp(up[k], id))
    && (forall k :: 0 <= k < |up| && IsRec(up[k], id) ==> i.Some?)
    && (forall k :: 0 <= k < |down| && IsRel(down[k], id) ==> i.None?)
  }

  /** Waiting for PUBCOMP on call t: the receiver either still holds it, or has handed it over and
      then nothing under way can make it start again. */
  ghost predicate AwaitsComp(id: nat, t: nat, i: Option<Message>, held: Option<nat>, down: seq<Frame>, up: seq<Packet>, handed: bool) {
    && (forall k :: 0 <= k < |down| && IsPub(down[k], id) ==> down[k].serial == t)
    && (forall j, k :: 0 <= j < k < |down| && IsRel(down[j], id) ==> !IsPub(down[k], id))
    && (forall j, k :: 0 <= j < k < |up| && IsComp(up[j], id) ==> !IsRec(up[k], id))
    && if handed then i == None && held == None && (forall k :: 0 <= k < |down| ==> !IsPub(down[k], id))
       else i.Some? && held == Some(t) && (forall k :: 0 <= k < |up| ==> !IsComp(up[k], id))
  }

  ghost predicate Conversation(id: nat, o: Option<Message>, t: nat, i: Option<Message>, held: Option<nat>,
                               down: seq<Frame>, up: seq<Packet>, handed: bool)
  {
    match o
    case None => Idle(id, i, held, down, up)
    case Some(m) =>
      if m.qos != 2 then Idle(id, i, held, down, up)
      else if m.next == Some(PUBREC) then AwaitsRec(id, t, i, held, down, up, handed)
      else AwaitsComp(id, t, i, held, down, up, handed)
  }

  lemma DownTail(id: nat, o: Option<Message>, t: nat, i: Option<Message>, held: Option<nat>,
                 down: seq<Frame>, up: seq<Packet>, handed: bool)
    requires Conversation(id, o, t, i, held, down, up, handed) && down != []
    ensures Conversation(id, o, t, i, held, down[1..], up, handed)
  {
  }

  lemma UpTail(id: nat, o: Option<Message>, t: nat, i: Option<Message>, held: Option<nat>,
               down: seq<Frame>, up: seq<Packet>, handed: bool)
    requires Conversation(id, o, t, i, held, down, up, handed) && up != []
    ensures Conversation(id, o, t, i, held, down, up[1..], handed)
  {
  }

  lemma DownOther(id: nat, o: Option<Message>, t: nat, i: Option<Message>, held: Option<nat>,
                  down: seq<Frame>, up: seq<Packet>, handed: bool, f: Frame)
    requires Conversation(id, o, t, i, held, down, up, handed) && !IsPub(f, id) && !IsRel(f, id)
    ensures Conversation(id, o, t, i, held, down + [f], up, handed)
  {
  }

  lemma UpOther(id: nat, o: Option<Message>, t: nat, i: Option<Message>, held: Option<nat>,
                down: seq<Frame>, up: seq<Packet>, handed: bool, p: Packet)
    requires Conversation(id, o, t, i, held, down, up, handed) && !IsRec(p, id) && !IsComp(p, id)
    ensures Conversation(id, o, t, i, held, down, up + [p], handed)
  {
  }

  lemma LinkEmpty(id: nat, o: Option<Message>, t: nat, i: Option<Message>, held: Option<nat>,
                  down: seq<Frame>, up: seq<Packet>, handed: bool)
    requires Conversation(id, o, t, i, held, down, up, handed)
    ensures Conversation(id, o, t, i, held, [], [], handed)
  {
  }

  // The invariant

  function HeldAt(held: map<nat, nat>, id: nat): Option<nat> {
    if id in held then Some(held[id]) else None
  }

  ghost predicate HandedOver(handed: seq<Handover>, t: nat) {
    exists k :: 0 <= k < |handed| && handed[k].serial == t
  }

  ghost predicate Talks(s: System, id: nat) {
    Conversation(id, Find(s.sender.outbound, id), SerialAt(s.flight, id), Find(s.receiver.inbound, id), HeldAt(s.held, id),
                 s.toReceiver, s.toSender, HandedOver(s.handed, SerialAt(s.flight, id)))
  }

  ghost predicate TalkInv(s: System) {
    forall id: nat :: Talks(s, id)
  }

  ghost predicate Carries(published: seq<Published>, t: nat, pub: Publication, qos: Qos, retain: bool) {
    t < |published| && published[t] == Published(pub, qos, retain)
  }

  /** Every record in flight belongs to a publish call of its own and carries what was asked for. */
  ghost predicate FlightInv(s: System) {
    && (forall id: nat :: id in s.flight <==> Find(s.sender.outbound, id).Some?)
    && (forall id: nat :: id in s.flight ==>
          var m := Find(s.sender.outbound, id).value;
          Carries(s.published, s.flight[id], m.pub, m.qos, m.retain) && s.flight[id] !in s.retired)
    && (forall a: nat, b: nat :: a in s.flight && b in s.flight && s.flight[a] == s.flight[b] ==> a == b)
  }

  ghost predicate FrameOk(published: seq<Published>, f: Frame) {
    if f.packet.Publish? then Carries(published, f.serial, PubOf(f.packet), f.packet.qos, f.packet.retain) &&
                               Fits(PubOf(f.packet)) && 1 <= f.packet.qos <= 2
    else f.packet.kind == PUBREL
  }

  ghost predicate FrameInv(s: System) {
    forall k :: 0 <= k < |s.toReceiver| ==> FrameOk(s.published, s.toReceiver[k])
  }

  ghost predicate HeldOk(published: seq<Published>, held: map<nat, nat>, receiver: Session, id: MsgId) {
    && (id in held <==> ReceivedKey(id) in receiver.store)
    && (id in held ==>
          var p := StoredPublication(receiver.store, ReceivedKey(id));
          p.Some? && Carries(published, held[id], PubOf(p.value), 2, p.value.retain))
    && (Find(receiver.inbound, id).Some? ==>
          var m := Find(receiver.inbound, id).value;
          id in held && Carries(published, held[id], m.pub, 2, m.retain))
  }

  ghost predicate HeldInv(s: System) {
    && (forall id: MsgId :: HeldOk(s.published, s.held, s.receiver, id))
    && (forall n: nat :: n in s.held ==> n <= MAX_MSG_ID)
  }

  /** What was handed over is what was published, and nothing published at QoS 2 was handed over twice. */
  ghost predicate HandInv(s: System) {
    && (forall k :: 0 <= k < |s.handed| ==>
          s.handed[k].serial < |s.published| && s.handed[k].msg == s.published[s.handed[k].serial])
    && (forall j, k :: 0 <= j < k < |s.handed| && s.handed[j].serial == s.handed[k].serial ==> s.handed[j].msg.qos == 1)
  }

  /** Completed calls are accounted for, and every call is either completed or still in flight. */
  ghost predicate RetireInv(s: System) {
    && (forall k :: 0 <= k < |s.retired| ==> s.retired[k] < |s.published|)
    && (forall k :: 0 <= k < |s.retired| && s.published[s.retired[k]].qos == 2 ==> HandedOver(s.handed, s.retired[k]))
    && (forall j, k :: 0 <= j < k < |s.retired| ==> s.retired[j] != s.retired[k])
    && (forall t: nat :: t < |s.published| ==> t in s.retired || exists id: nat :: id in s.flight && s.flight[id] == t)
  }

  ghost predicate Inv(s: System) {
    && Agrees(s.sender) && Agrees(s.receiver)
    && TalkInv(s) && FlightInv(s) && FrameInv(s) && HeldInv(s) && HandInv(s) && RetireInv(s)
  }

  lemma InitInv()
    ensures Inv(INIT)
  {
    EmptyAgrees(0);
  }

  // Sending one packet for a record in flight

  lemma FramesForOne(s: System, ps: seq<Packet>)
    requires |ps| <= 1
    ensures FramesFor(s, ps) == if ps == [] then [] else [FrameFor(s, ps[0])]
  {
  }

  lemma TalkOther(s: System, s': System, id: nat, fs: seq<Frame>)
    requires Talks(s, id) && |fs| <= 1 && (fs != [] ==> fs[0].packet.msgId != id || (fs[0].packet.Publish? && fs[0].packet.qos == 1))
    requires s' == s.(sender := s'.sender, toReceiver := s.toReceiver + fs, published := s'.published, flight := s'.flight, log := s'.log)
    requires Find(s'.sender.outbound, id) == Find(s.sender.outbound, id) && SerialAt(s'.flight, id) == SerialAt(s.flight, id)
    ensures Talks(s', id)
  {
    if fs == [] {
      assert s'.toReceiver == s.toReceiver;
    } else {
      assert fs == [fs[0]];
      DownOther(id, Find(s.sender.outbound, id), SerialAt(s.flight, id), Find(s.receiver.inbound, id), HeldAt(s.held, id),
                s.toReceiver, s.toSender, HandedOver(s.handed, SerialAt(s.flight, id)), fs[0]);
    }
  }

  lemma FlightKept(s: System, s': System, x: nat)
    requires FlightInv(s) && s'.flight == s.flight && s'.published == s.published && s'.retired == s.retired
    requires forall id: nat :: id != x ==> Find(s'.sender.outbound, id) == Find(s.sender.outbound, id)
    requires var o, o' := Find(s.sender.outbound, x), Find(s'.sender.outbound, x);
             (o == o' == None) ||
             (o.Some? && o'.Some? && o'.value == o.value.(next := o'.value.next, lastTouch := o'.value.lastTouch))
    ensures FlightInv(s')
  {
  }

  lemma FlightSame(s: System, s': System)
    requires FlightInv(s) && s'.flight == s.flight && s'.published == s.published && s'.retired == s.retired
    requires s'.sender.outbound == s.sender.outbound
    ensures FlightInv(s')
  {
  }

  /** Nothing changed at the receiver. */
  lemma HeldKept(s: System, s': System)
    requires HeldInv(s) && s'.receiver.store == s.receiver.store && s'.receiver.inbound == s.receiver.inbound
    requires s'.held == s.held && s.published <= s'.published
    ensures HeldInv(s')
  {
    forall id: MsgId ensures HeldOk(s'.published, s'.held, s'.receiver, id) {
      assert HeldOk(s.published, s.held, s.receiver, id);
    }
  }

  lemma FramesExtended(s: System, s': System, fs: seq<Frame>)
    requires FrameInv(s) && s'.toReceiver == s.toReceiver + fs && s.published <= s'.published
    requires forall k :: 0 <= k < |fs| ==> FrameOk(s'.published, fs[k])
    ensures FrameInv(s')
  {
    forall k | 0 <= k < |s'.toReceiver| ensures FrameOk(s'.published, s'.toReceiver[k]) {
      assert k < |s.toReceiver| ==> FrameOk(s.published, s.toReceiver[k]);
    }
  }

  lemma TalkUpdate(s: System, s': System, x: nat, fs: seq<Frame>)
    requires TalkInv(s) && |fs| <= 1
    requires s' == s.(sender := s'.sender, toReceiver := s.toReceiver + fs, log := s'.log)
    requires forall id: nat :: id != x ==> Find(s'.sender.outbound, id) == Find(s.sender.outbound, id)
    requires fs != [] ==> fs[0].packet.msgId == x
    requires Talks(s', x)
    ensures TalkInv(s')
  {
    forall id: nat ensures Talks(s', id) {
      if id != x {
        assert Talks(s, id);
        TalkOther(s, s', id, fs);
      }
    }
  }

  lemma HistoryKept(s: System, s': System)
    requires HandInv(s) && RetireInv(s)
    requires s'.handed == s.handed && s'.retired == s.retired && s'.flight == s.flight && s'.published == s.published
    ensures HandInv(s') && RetireInv(s')
  {
  }

  /** A step that rewrites the sender's record with one id and may send one packet for it. */
  lemma SenderUpdate(s: System, s': System, x: nat, fs: seq<Frame>)
    requires Inv(s) && |fs| <= 1
    requires s' == s.(sender := s'.sender, toReceiver := s.toReceiver + fs, log := s'.log)
    requires Agrees(s'.sender)
    requires forall id: nat :: id != x ==> Find(s'.sender.outbound, id) == Find(s.sender.outbound, id)
    requires var o, o' := Find(s.sender.outbound, x), Find(s'.sender.outbound, x);
             o.Some? && o'.Some? && o'.value == o.value.(next := o'.value.next, lastTouch := o'.value.lastTouch)
    requires fs != [] ==> fs[0].packet.msgId == x && FrameOk(s.published, fs[0])
    requires Talks(s', x)
    ensures Inv(s')
  {
    hide Agrees, TalkInv, FlightInv, FrameInv, HeldInv, HandInv, RetireInv;
    TalkUpdate(s, s', x, fs);
    FlightKept(s, s', x);
    HeldKept(s, s');
    HistoryKept(s, s');
    FramesExtended(s, s', fs);
  }

  lemma RecordOfFind(s: System, k: nat)
    requires Inv(s) && k < |s.sender.outbound|
    ensures var m := s.sender.outbound[k];
            && Find(s.sender.outbound, m.msgid) == Some(m) && ValidOutbound(m)
            && m.msgid in s.flight && Carries(s.published, s.flight[m.msgid], m.pub, m.qos, m.retain)
  {
    var m := s.sender.outbound[k];
    FindAt(s.sender.outbound, k);
    assert OutboundAgrees(Find(s.sender.outbound, m.msgid), s.sender.store, m.msgid);
  }

  /** Sending a packet for a record that stays in its stage. */
  lemma ResendTalks(id: nat, o: Option<Message>, t: nat, i: Option<Message>, held: Option<nat>,
                    down: seq<Frame>, up: seq<Packet>, handed: bool, clock: int, f: Frame)
    requires Conversation(id, o, t, i, held, down, up, handed) && o.Some? && ValidOutbound(o.value) && o.value.msgid == id
    requires Resend(o.value) == Some(f.packet) && f.serial == t
    ensures Conversation(id, Some(o.value.(lastTouch := clock)), t, i, held, down + [f], up, handed)
  {
  }

  /** Transmitting (or failing to transmit) a resend. */
  lemma ResendKeepsInv(s: System, k: nat, t: Policy, out: SendResult)
    requires Inv(s) && k < |s.sender.outbound| && Resend(s.sender.outbound[k]).Some?
    ensures var p := Resend(s.sender.outbound[k]).value;
            Inv(Send(s.(sender := ResendAt(s.sender, k, p, t, out)), Offered(p, out)))
  {
    hide QueueAgrees, OutboundAgrees, InboundAgrees, TalkInv, FlightInv, FrameInv, HeldInv, HandInv, RetireInv, Wire;
    var m := s.sender.outbound[k];
    var id := m.msgid;
    var p := Resend(m).value;
    var a := ResendAt(s.sender, k, p, t, out);
    ResendAtAgrees(s.sender, k, t, out);
    RecordOfFind(s, k);
    forall other: nat ensures Find(a.outbound, other) == if other == id then Some(a.outbound[k]) else Find(s.sender.outbound, other) {
      FindReplaced(s.sender.outbound, k, a.outbound[k], other);
    }
    var s1 := s.(sender := a);
    var s2 := Send(s1, Offered(p, out));
    FramesForOne(s1, Offered(p, out));
    var fs := FramesFor(s1, Offered(p, out));
    TalksOf(s, id);
    if out == ERROR {
      assert s2.toReceiver == s.toReceiver;
    } else {
      ResendTalks(id, Some(m), s.flight[id], Find(s.receiver.inbound, id), HeldAt(s.held, id), s.toReceiver, s.toSender,
                  HandedOver(s.handed, s.flight[id]), a.outbound[k].lastTouch, fs[0]);
    }
    assert Talks(s2, id);
    SenderUpdate(s, s2, id, fs);
  }

  lemma SendNothing(s: System)
    ensures Send(s.(sender := s.sender), []) == s
  {
    assert FramesFor(s, []) == [];
  }

  lemma SendTwice(s: System, a: Session, ps: seq<Packet>, b: Session, qs: seq<Packet>)
    ensures Send(Send(s.(sender := a), ps).(sender := b), qs) == Send(s.(sender := b), ps + qs)
  {
    var f, g := FramesFor(s, ps), FramesFor(s, qs);
    assert FramesFor(s.(sender := b), ps + qs) == f + g;
    assert FramesFor(s.(sender := a), ps) == f;
    assert FramesFor(Send(s.(sender := a), ps).(sender := b), qs) == g;
    assert s.toReceiver + (f + g) == s.toReceiver + f + g;
    assert s.log + (f + g) == s.log + f + g;
  }

  lemma {:induction false} RetryFromKeepsInv(s: System, k: nat, t: Policy, outs: seq<SendResult>)
    requires Inv(s) && k <= |s.sender.outbound|
    ensures var pass := RetryFrom(s.sender, k, t, outs);
            Inv(Send(s.(sender := pass.s), pass.sent))
    decreases |s.sender.outbound| - k
  {
    hide Inv;
    var pass := RetryFrom(s.sender, k, t, outs);
    if k == |s.sender.outbound| {
      SendNothing(s);
    } else if !Due(s.sender.outbound[k], t) || Resend(s.sender.outbound[k]) == None {
      RetryFromKeepsInv(s, k + 1, t, outs);
    } else {
      var p := Resend(s.sender.outbound[k]).value;
      var out := OutcomeAt(outs, k);
      ResendKeepsInv(s, k, t, out);
      var a := ResendAt(s.sender, k, p, t, out);
      if out == COMPLETE {
        var s1 := Send(s.(sender := a), [p]);
        RetryFromKeepsInv(s1, k + 1, t, outs);
        var rest := RetryFrom(a, k + 1, t, outs);
        SendTwice(s, a, [p], rest.s, rest.sent);
      }
    }
  }

  // Acknowledgements read by the sender

  lemma DropUpKeepsInv(s: System)
    requires Inv(s) && s.toSender != []
    ensures Inv(s.(toSender := s.toSender[1..]))
  {
    hide Agrees, TalkInv, FlightInv, FrameInv, HeldInv, HandInv, RetireInv;
    var s' := s.(toSender := s.toSender[1..]);
    DropUpTalks(s);
    HeldKept(s, s');
    HistoryKept(s, s');
    FlightSame(s, s');
    FramesExtended(s, s', []);
  }

  lemma DropUpTalks(s: System)
    requires TalkInv(s) && s.toSender != []
    ensures TalkInv(s.(toSender := s.toSender[1..]))
  {
    var s' := s.(toSender := s.toSender[1..]);
    forall id: nat ensures Talks(s', id) {
      assert Talks(s, id);
      UpTail(id, Find(s.sender.outbound, id), SerialAt(s.flight, id), Find(s.receiver.inbound, id), HeldAt(s.held, id),
             s.toReceiver, s.toSender, HandedOver(s.handed, SerialAt(s.flight, id)));
    }
  }

  /** PUBREC accepted: the receiver holds the message, and nothing older is under way any more. */
  lemma RecTalks(id: nat, m: Message, t: nat, i: Option<Message>, held: Option<nat>,
                 down: seq<Frame>, up: seq<Packet>, handed: bool, clock: int, fs: seq<Frame>)
    requires Conversation(id, Some(m), t, i, held, down, up, handed) && m.qos == 2 && m.next == Some(PUBREC)
    requires up != [] && IsRec(up[0], id) && |fs| <= 1 && (fs != [] ==> IsRel(fs[0], id))
    ensures Conversation(id, Some(m.(next := Some(PUBCOMP), lastTouch := clock)), t, i, held, down + fs, up[1..], handed)
  {
    assert forall k :: 0 < k < |up| ==> !IsComp(up[k], id);
  }

  lemma PubrecKeepsInv(s: System, clock: int, out: SendResult)
    requires Inv(s) && s.toSender != [] && s.toSender[0].Ack? && s.toSender[0].kind == PUBREC
    ensures Inv(OnSenderReads(s, clock, out))
  {
    hide Agrees, TalkInv, FlightInv, FrameInv, HeldInv, HandInv, RetireInv;
    var id := s.toSender[0].msgId;
    var s0 := s.(toSender := s.toSender[1..]);
    var e := HandlePubrec(s.sender, id, clock, out);
    var s' := OnSenderReads(s, clock, out);
    DropUpKeepsInv(s);
    FramesForOne(s0.(sender := e.s), e.sent);
    var k := IndexOf(s.sender.outbound, id);
    if k < |s.sender.outbound| && s.sender.outbound[k].qos == 2 && s.sender.outbound[k].next == Some(PUBREC) {
      var m := s.sender.outbound[k];
      PubrecAgrees(s.sender, id, clock, out);
      RecordOfFind(s, k);
      PubrecFinds(s, k, e.s.outbound[k]);
      var fs := FramesFor(s0.(sender := e.s), e.sent);
      TalksOf(s, id);
      RecTalks(id, m, s.flight[id], Find(s.receiver.inbound, id), HeldAt(s.held, id), s.toReceiver, s.toSender,
               HandedOver(s.handed, s.flight[id]), clock, fs);
      SenderUpdate(s0, s', id, fs);
    } else {
      SendNothing(s0);
    }
  }

  lemma TalksOf(s: System, id: nat)
    requires TalkInv(s)
    ensures Talks(s, id)
  {
  }

  lemma PubrecFinds(s: System, k: nat, m: Message)
    requires Agrees(s.sender) && k < |s.sender.outbound| && s.sender.outbound[k].msgid == m.msgid
    ensures forall other: nat ::
              Find(s.sender.outbound[k := m], other) == if other == m.msgid then Some(m) else Find(s.sender.outbound, other)
  {
    forall other: nat
      ensures Find(s.sender.outbound[k := m], other) == if other == m.msgid then Some(m) else Find(s.sender.outbound, other)
    {
      FindReplaced(s.sender.outbound, k, m, other);
    }
  }

  // Retiring a record

  /** The flow of a QoS 2 record is complete only after its message was handed over. */
  lemma CompTalks(id: nat, m: Message, t: nat, i: Option<Message>, held: Option<nat>,
                  down: seq<Frame>, up: seq<Packet>, handed: bool, t': nat, handed': bool)
    requires Conversation(id, Some(m), t, i, held, down, up, handed) && up != []
    requires m.qos == 2 ==> m.next == Some(PUBCOMP) && IsComp(up[0], id)
    ensures m.qos == 2 ==> handed
    ensures Conversation(id, None, t', i, held, down, up[1..], handed')
  {
    if m.qos == 2 {
      assert forall k :: 0 < k < |up| ==> !IsRec(up[k], id);
    }
  }

  ghost predicate Completes(s: System, k: nat) {
    s.toSender != [] && k < |s.sender.outbound| &&
    var m := s.sender.outbound[k];
    m.qos == 1 || (m.qos == 2 && m.next == Some(PUBCOMP) && IsComp(s.toSender[0], m.msgid))
  }

  /** The state after the record at position k is dropped on reading an acknowledgement. */
  function Dropped(s: System, k: nat, store: Store): System
    requires s.toSender != [] && k < |s.sender.outbound|
  {
    var id := s.sender.outbound[k].msgid;
    s.(toSender := s.toSender[1..], sender := s.sender.(outbound := Without(s.sender.outbound, k), store := store),
       retired := s.retired + [SerialAt(s.flight, id)], flight := s.flight - {id})
  }

  lemma WithoutFinds(s: System, k: nat)
    requires Agrees(s.sender) && k < |s.sender.outbound|
    ensures forall other: nat ::
              Find(Without(s.sender.outbound, k), other) ==
              if other == s.sender.outbound[k].msgid then None else Find(s.sender.outbound, other)
  {
    forall other: nat
      ensures Find(Without(s.sender.outbound, k), other) ==
              if other == s.sender.outbound[k].msgid then None else Find(s.sender.outbound, other)
    {
      FindWithout(s.sender.outbound, k, other);
    }
  }

  lemma DroppedTalks(s: System, k: nat, store: Store)
    requires Inv(s) && Completes(s, k)
    ensures TalkInv(Dropped(s, k, store))
    ensures s.sender.outbound[k].qos == 2 ==> HandedOver(s.handed, s.flight[s.sender.outbound[k].msgid])
  {
    hide Agrees, FlightInv, FrameInv, HeldInv, HandInv, RetireInv;
    var s' := Dropped(s, k, store);
    var m := s.sender.outbound[k];
    RecordOfFind(s, k);
    WithoutFinds(s, k);
    TalksOf(s, m.msgid);
    CompTalks(m.msgid, m, s.flight[m.msgid], Find(s.receiver.inbound, m.msgid), HeldAt(s.held, m.msgid), s.toReceiver, s.toSender,
              HandedOver(s.handed, s.flight[m.msgid]), 0, HandedOver(s.handed, 0));
    forall id: nat ensures Talks(s', id) {
      if id != m.msgid {
        TalksOf(s, id);
        UpTail(id, Find(s.sender.outbound, id), SerialAt(s.flight, id), Find(s.receiver.inbound, id), HeldAt(s.held, id),
               s.toReceiver, s.toSender, HandedOver(s.handed, SerialAt(s.flight, id)));
      }
    }
  }

  lemma DroppedFlight(s: System, k: nat, store: Store)
    requires Agrees(s.sender) && FlightInv(s) && s.toSender != [] && k < |s.sender.outbound|
    ensures FlightInv(Dropped(s, k, store))
  {
    hide Agrees;
    WithoutFinds(s, k);
    RecordFound(s, k);
  }

  lemma RecordFound(s: System, k: nat)
    requires Agrees(s.sender) && k < |s.sender.outbound|
    ensures Find(s.sender.outbound, s.sender.outbound[k].msgid) == Some(s.sender.outbound[k])
  {
    FindAt(s.sender.outbound, k);
  }

  lemma DroppedHistory(s: System, k: nat, store: Store)
    requires Inv(s) && Completes(s, k)
    requires s.sender.outbound[k].qos == 2 ==> HandedOver(s.handed, s.flight[s.sender.outbound[k].msgid])
    ensures HandInv(Dropped(s, k, store)) && RetireInv(Dropped(s, k, store))
  {
    hide Agrees, TalkInv, FrameInv, HeldInv;
    RecordOfFind(s, k);
    var s' := Dropped(s, k, store);
    var id := s.sender.outbound[k].msgid;
    forall t: nat | t < |s'.published| ensures t in s'.retired || exists id: nat :: id in s'.flight && s'.flight[id] == t {
      if t != s.flight[id] && t !in s.retired {
        var other: nat :| other in s.flight && s.flight[other] == t;
        assert other in s'.flight && s'.flight[other] == t;
      } else if t == s.flight[id] {
        assert s'.retired[|s.retired|] == t;
      }
    }
  }

  lemma DroppedKeepsInv(s: System, k: nat, store: Store)
    requires Inv(s) && Completes(s, k) && Agrees(Dropped(s, k, store).sender)
    ensures Inv(Dropped(s, k, store))
  {
    hide Agrees, TalkInv, FlightInv, FrameInv, HeldInv, HandInv, RetireInv;
    DroppedTalks(s, k, store);
    DroppedFlight(s, k, store);
    DroppedHistory(s, k, store);
    HeldKept(s, Dropped(s, k, store));
    FramesExtended(s, Dropped(s, k, store), []);
  }

  lemma PubackKeepsInv(s: System, clock: int, out: SendResult)
    requires Inv(s) && s.toSender != [] && s.toSender[0].Ack? && s.toSender[0].kind == PUBACK
    ensures Inv(OnSenderReads(s, clock, out))
  {
    hide Agrees, TalkInv, FlightInv, FrameInv, HeldInv, HandInv, RetireInv;
    var id := s.toSender[0].msgId;
    var k := IndexOf(s.sender.outbound, id);
    DropUpKeepsInv(s);
    if k < |s.sender.outbound| && s.sender.outbound[k].qos == 1 {
      PubackAgrees(s.sender, id);
      DroppedKeepsInv(s, k, HandlePuback(s.sender, id).store);
    }
  }

  lemma PubcompKeepsInv(s: System, clock: int, out: SendResult)
    requires Inv(s) && s.toSender != [] && s.toSender[0].Ack? && s.toSender[0].kind == PUBCOMP
    ensures Inv(OnSenderReads(s, clock, out))
  {
    hide Agrees, TalkInv, FlightInv, FrameInv, HeldInv, HandInv, RetireInv;
    var id := s.toSender[0].msgId;
    var k := IndexOf(s.sender.outbound, id);
    DropUpKeepsInv(s);
    if k < |s.sender.outbound| && s.sender.outbound[k].qos == 2 && s.sender.outbound[k].next == Some(PUBCOMP) {
      PubcompAgrees(s.sender, id);
      DroppedKeepsInv(s, k, HandlePubcomp(s.sender, id).store);
    }
  }

  lemma SenderReadsKeepsInv(s: System, clock: int, out: SendResult)
    requires Inv(s) && s.toSender != []
    ensures Inv(OnSenderReads(s, clock, out))
  {
    hide Inv;
    var p := s.toSender[0];
    if p.Ack? && p.kind == PUBACK {
      PubackKeepsInv(s, clock, out);
    } else if p.Ack? && p.kind == PUBREC {
      PubrecKeepsInv(s, clock, out);
    } else if p.Ack? && p.kind == PUBCOMP {
      PubcompKeepsInv(s, clock, out);
    } else {
      DropUpKeepsInv(s);
    }
  }

  // Publishing

  lemma PublishFinds(a: Session, m: Message)
    requires Agrees(a) && m.msgid !in IdSet(a.outbound)
    ensures Find(a.outbound, m.msgid) == None
    ensures forall id: nat :: Find(a.outbound + [m], id) == if id == m.msgid then Some(m) else Find(a.outbound, id)
  {
    FindMembers(a.outbound, m.msgid);
    forall id: nat ensures Find(a.outbound + [m], id) == if id == m.msgid then Some(m) else Find(a.outbound, id) {
      FindAppended(a.outbound, m, id);
    }
  }

  /** A message id whose last conversation is over can start a new one. */
  lemma PublishTalks(id: nat, m: Message, t: nat, t0: nat, i: Option<Message>, held: Option<nat>,
                     down: seq<Frame>, up: seq<Packet>, handed0: bool, fs: seq<Frame>)
    requires Conversation(id, None, t0, i, held, down, up, handed0)
    requires m.qos == 1 || (m.qos == 2 && m.next == Some(PUBREC))
    requires |fs| <= 1 && (fs != [] ==> fs[0].packet == PublishOf(m, false) && fs[0].serial == t && m.msgid == id)
    ensures Conversation(id, Some(m), t, i, held, down + fs, up, false)
  {
  }

  lemma PublishFlight(s: System, s': System, m: Message)
    requires FlightInv(s) && RetireInv(s) && Find(s.sender.outbound, m.msgid) == None
    requires forall id: nat :: Find(s'.sender.outbound, id) == if id == m.msgid then Some(m) else Find(s.sender.outbound, id)
    requires s'.published == s.published + [Published(m.pub, m.qos, m.retain)] && s'.flight == s.flight[m.msgid := |s.published|]
    requires s'.retired == s.retired
    ensures FlightInv(s')
  {
  }

  lemma PublishHistory(s: System, s': System, x: nat, p: Published)
    requires HandInv(s) && RetireInv(s) && x !in s.flight
    requires s'.published == s.published + [p] && s'.flight == s.flight[x := |s.published|]
    requires s'.retired == s.retired && s'.handed == s.handed
    ensures HandInv(s') && RetireInv(s')
  {
    forall t: nat | t < |s'.published| ensures t in s'.retired || exists id: nat :: id in s'.flight && s'.flight[id] == t {
      if t < |s.published| && t !in s.retired {
        var id: nat :| id in s.flight && s.flight[id] == t;
        assert id in s'.flight && s'.flight[id] == t;
      } else if t == |s.published| {
        assert s'.flight[x] == t;
      }
    }
  }

  lemma NotInFlight(s: System, x: nat)
    requires FlightInv(s)
    ensures x in s.flight <==> Find(s.sender.outbound, x).Some?
  {
  }

  lemma PublishKeepsInv(s: System, pub: Publication, qos: Qos, retain: bool, clock: int, out: SendResult)
    requires Inv(s) && 1 <= qos <= 2 && Fits(pub) && s.sender.msgID <= MAX_MSG_ID
    ensures Inv(OnPublish(s, pub, qos, retain, clock, out))
  {
    hide Agrees, TalkInv, FlightInv, FrameInv, HeldInv, HandInv, RetireInv, Wire;
    var x := AssignedId(s.sender.msgID, IdSet(s.sender.outbound));
    AssignedIdIsFirstFree(s.sender.msgID, IdSet(s.sender.outbound));
    if x != 0 {
      var m := Message(x, qos, retain, FirstStage(qos), pub, clock);
      var e := NewPublish(s.sender, pub, qos, retain, clock, out);
      var s1 := s.(sender := e.s, published := s.published + [Published(pub, qos, retain)], flight := s.flight[x := |s.published|]);
      var s' := OnPublish(s, pub, qos, retain, clock, out);
      NewPublishAgrees(s.sender, pub, qos, retain, clock, out);
      PublishFinds(s.sender, m);
      PublishFlight(s, s', m);
      NotInFlight(s, x);
      PublishHistory(s, s', x, Published(pub, qos, retain));
      HeldKept(s, s');
      FramesForOne(s1, e.sent);
      FramesExtended(s, s', FramesFor(s1, e.sent));
      PublishKeepsTalks(s, m, out);
    }
  }

  lemma PublishKeepsTalks(s: System, m: Message, out: SendResult)
    requires Inv(s) && 1 <= m.qos <= 2 && Fits(m.pub) && s.sender.msgID <= MAX_MSG_ID
    requires m.msgid == AssignedId(s.sender.msgID, IdSet(s.sender.outbound)) != 0 && m.next == FirstStage(m.qos)
    ensures TalkInv(OnPublish(s, m.pub, m.qos, m.retain, m.lastTouch, out))
  {
    hide Agrees, TalkInv, FlightInv, FrameInv, HeldInv, HandInv, RetireInv, Wire, Conversation;
    var x := m.msgid;
    AssignedIdIsFirstFree(s.sender.msgID, IdSet(s.sender.outbound));
    var e := NewPublish(s.sender, m.pub, m.qos, m.retain, m.lastTouch, out);
    var s1 := s.(sender := e.s, published := s.published + [Published(m.pub, m.qos, m.retain)], flight := s.flight[x := |s.published|]);
    var s' := OnPublish(s, m.pub, m.qos, m.retain, m.lastTouch, out);
    PublishFinds(s.sender, m);
    FramesForOne(s1, e.sent);
    var fs := FramesFor(s1, e.sent);
    NotYetHanded(s);
    NotInFlight(s, x);
    TalksOf(s, x);
    PublishTalks(x, m, |s.published|, SerialAt(s.flight, x), Find(s.receiver.inbound, x), HeldAt(s.held, x), s.toReceiver,
                 s.toSender, HandedOver(s.handed, SerialAt(s.flight, x)), fs);
    forall id: nat ensures Talks(s', id) {
      if id != x {
        TalksOf(s, id);
        TalkOther(s, s', id, fs);
      }
    }
    TalkAll(s');
  }

  lemma TalkAll(s: System)
    requires forall id: nat :: Talks(s, id)
    ensures TalkInv(s)
  {
  }

  lemma NotYetHanded(s: System)
    requires HandInv(s)
    ensures !HandedOver(s.handed, |s.published|)
  {
  }

  // Frames read by the receiver

  lemma TalkAtReceiver(s: System, s': System, id: nat, ps: seq<Packet>)
    requires Talks(s, id) && s.toReceiver != []
    requires s' == s.(receiver := s'.receiver, toReceiver := s.toReceiver[1..], toSender := s.toSender + ps,
                      handed := s'.handed, held := s'.held)
    requires |ps| <= 1 && (ps != [] ==> !IsRec(ps[0], id) && !IsComp(ps[0], id))
    requires Find(s'.receiver.inbound, id) == Find(s.receiver.inbound, id) && HeldAt(s'.held, id) == HeldAt(s.held, id)
    requires var o := Find(s.sender.outbound, id); var t := SerialAt(s.flight, id);
             o.Some? && o.value.qos == 2 ==> (HandedOver(s'.handed, t) <==> HandedOver(s.handed, t))
    ensures Talks(s', id)
  {
    var o, t, i, held := Find(s.sender.outbound, id), SerialAt(s.flight, id), Find(s.receiver.inbound, id), HeldAt(s.held, id);
    var handed := HandedOver(s.handed, t);
    DownTail(id, o, t, i, held, s.toReceiver, s.toSender, handed);
    if ps == [] {
      assert s'.toSender == s.toSender;
    } else {
      assert ps == [ps[0]];
      UpOther(id, o, t, i, held, s.toReceiver[1..], s.toSender, handed, ps[0]);
    }
  }

  lemma FramesTail(s: System, s': System)
    requires FrameInv(s) && s.toReceiver != [] && s'.toReceiver == s.toReceiver[1..] && s'.published == s.published
    ensures FrameInv(s')
  {
  }

  lemma HeadFrame(s: System)
    requires FrameInv(s) && s.toReceiver != []
    ensures FrameOk(s.published, s.toReceiver[0])
  {
  }

  lemma MoreHanded(handed: seq<Handover>, h: Handover, t: nat)
    ensures HandedOver(handed + [h], t) <==> h.serial == t || HandedOver(handed, t)
  {
    if HandedOver(handed, t) {
      var k :| 0 <= k < |handed| && handed[k].serial == t;
      assert (handed + [h])[k].serial == t;
    }
    assert (handed + [h])[|handed|] == h;
  }

  /** Handing over one more message. */
  lemma HandedKeepsHistory(s: System, s': System, h: Handover)
    requires HandInv(s) && RetireInv(s)
    requires s'.handed == s.handed + [h]
    requires s'.retired == s.retired && s'.flight == s.flight && s'.published == s.published
    requires h.serial < |s.published| && h.msg == s.published[h.serial] && (h.msg.qos == 1 || !HandedOver(s.handed, h.serial))
    ensures HandInv(s') && RetireInv(s')
  {
    forall k | 0 <= k < |s.retired| && s.published[s.retired[k]].qos == 2 ensures HandedOver(s'.handed, s.retired[k]) {
      MoreHanded(s.handed, h, s.retired[k]);
    }
    assert !HandedOver(s.handed, h.serial) ==> forall j :: 0 <= j < |s.handed| ==> s.handed[j].serial != h.serial;
    forall j, k | 0 <= j < k < |s'.handed| && s'.handed[j].serial == s'.handed[k].serial ensures s'.handed[j].msg.qos == 1 {
    }
  }

  /** The receiver's record and stored key for one id. */
  lemma HeldAtOne(s: System, s': System, x: MsgId)
    requires HeldInv(s) && s'.published == s.published
    requires forall id: MsgId :: id != x ==>
               && (ReceivedKey(id) in s'.receiver.store <==> ReceivedKey(id) in s.receiver.store)
               && (ReceivedKey(id) in s.receiver.store ==> s'.receiver.store[ReceivedKey(id)] == s.receiver.store[ReceivedKey(id)])
               && Find(s'.receiver.inbound, id) == Find(s.receiver.inbound, id)
    requires forall n: nat :: n != x ==> HeldAt(s'.held, n) == HeldAt(s.held, n)
    requires HeldOk(s'.published, s'.held, s'.receiver, x)
    ensures HeldInv(s')
  {
    forall id: MsgId ensures HeldOk(s'.published, s'.held, s'.receiver, id) {
      if id != x {
        assert HeldOk(s.published, s.held, s.receiver, id);
        assert HeldAt(s'.held, id) == HeldAt(s.held, id);
      }
    }
    forall n: nat | n in s'.held ensures n <= MAX_MSG_ID {
      if n != x {
        assert HeldAt(s'.held, n) == HeldAt(s.held, n);
      }
    }
  }

  lemma HeldOf(s: System, x: MsgId)
    requires HeldInv(s)
    ensures HeldOk(s.published, s.held, s.receiver, x)
  {
  }

  /** A QoS 2 flight never shares its call with a QoS 1 frame. */
  lemma FlightQos(s: System, id: nat)
    requires FlightInv(s) && Find(s.sender.outbound, id).Some?
    ensures id in s.flight && s.flight[id] < |s.published| && s.published[s.flight[id]].qos == Find(s.sender.outbound, id).value.qos
    ensures forall other: nat :: other in s.flight && other != id ==> s.flight[other] != s.flight[id]
  {
  }

  lemma ReadQos1KeepsInv(s: System, noPending: bool, out: SendResult)
    requires Inv(s) && CanHandle(s) && s.toReceiver[0].packet.Publish? && s.toReceiver[0].packet.qos == 1
    ensures Inv(OnReceiverReads(s, noPending, out))
  {
    hide Agrees, TalkInv, FlightInv, FrameInv, HeldInv, HandInv, RetireInv;
    var f := s.toReceiver[0];
    var p := f.packet;
    var e := ReceivePublish(s.receiver, p, noPending, out);
    var s' := OnReceiverReads(s, noPending, out);
    ReceivePublishAgrees(s.receiver, p, noPending, out);
    HeadFrame(s);
    FramesTail(s, s');
    FlightSame(s, s');
    HeldOf(s, 0);
    HeldAtOne(s, s', 0);
    if noPending {
      var h := Handover(f.serial, Published(PubOf(p), 1, p.retain));
      assert s'.handed == s.handed + [h];
      HandedKeepsHistory(s, s', h);
      forall id: nat ensures Talks(s', id) {
        TalksOf(s, id);
        MoreHanded(s.handed, h, SerialAt(s.flight, id));
        if Find(s.sender.outbound, id).Some? {
          FlightQos(s, id);
        }
        TalkAtReceiver(s, s', id, e.sent);
      }
    } else {
      assert s'.handed == s.handed;
      HistoryKept(s, s');
      forall id: nat ensures Talks(s', id) {
        TalksOf(s, id);
        TalkAtReceiver(s, s', id, e.sent);
      }
    }
    TalkAll(s');
  }

  /** A PUBLISH of call u reaches the receiver, which holds it or refuses it. */
  lemma PubTalks(id: nat, o: Option<Message>, t: nat, i: Option<Message>, held: Option<nat>,
                 down: seq<Frame>, up: seq<Packet>, handed: bool, i': Option<Message>, ps: seq<Packet>)
    requires Conversation(id, o, t, i, held, down, up, handed)
    requires down != [] && IsPub(down[0], id)
    requires (i'.Some? && |ps| <= 1 && (ps != [] ==> IsRec(ps[0], id))) || (i' == i && ps == [])
    ensures Conversation(id, o, t, i', Some(down[0].serial), down[1..], up + ps, handed)
    ensures held.Some? ==> held.value == down[0].serial
  {
    assert o.Some? && o.value.qos == 2;
    assert forall k :: 0 < k < |down| && o.value.next == Some(PUBREC) ==> !IsRel(down[k], id);
  }

  lemma HoldFinds(b: Session, m: Message)
    requires Agrees(b)
    ensures forall id: nat :: Find(Hold(b.inbound, m), id) == if id == m.msgid then Some(m) else Find(b.inbound, id)
  {
    var k := IndexOf(b.inbound, m.msgid);
    forall id: nat ensures Find(Hold(b.inbound, m), id) == if id == m.msgid then Some(m) else Find(b.inbound, id) {
      if k < |b.inbound| {
        FindReplaced(b.inbound, k, m, id);
      } else {
        FindAppended(b.inbound, m, id);
      }
    }
  }

  lemma StoredAsRead(store: Store, p: Packet)
    requires p.Publish? && p.qos == 2 && Fits(PubOf(p))
    ensures StoredPublication(store[ReceivedKey(p.msgId) := Wire(p)], ReceivedKey(p.msgId)) == Some(p)
  {
    RestorePacketOfWire(p);
  }

  /** What reading a QoS 2 PUBLISH does to the receiver's list and store. */
  lemma ReadQos2Finds(b: Session, p: Packet, noPending: bool, out: SendResult)
    requires Agrees(b) && p.Publish? && p.qos == 2 && Fits(PubOf(p))
    ensures var e := ReceivePublish(b, p, noPending, out);
            && e.s.store == b.store[ReceivedKey(p.msgId) := Wire(p)] && e.s.queue == b.queue
            && StoredPublication(e.s.store, ReceivedKey(p.msgId)) == Some(p)
            && (forall id: nat :: id != p.msgId ==> Find(e.s.inbound, id) == Find(b.inbound, id))
            && if noPending
               then Find(e.s.inbound, p.msgId) == Some(Message(p.msgId, 2, p.retain, Some(PUBREL), PubOf(p), 0)) &&
                    e.sent == Offered(Ack(PUBREC, false, p.msgId), out)
               else e.s.inbound == b.inbound && e.sent == []
  {
    StoredAsRead(b.store, p);
    HoldFinds(b, Message(p.msgId, 2, p.retain, Some(PUBREL), PubOf(p), 0));
  }

  lemma ReadQos2Talks(s: System, noPending: bool, out: SendResult)
    requires Agrees(s.receiver) && TalkInv(s)
    requires CanHandle(s) && s.toReceiver[0].packet.Publish? && s.toReceiver[0].packet.qos == 2
    ensures TalkInv(OnReceiverReads(s, noPending, out))
    ensures s.toReceiver[0].packet.msgId in s.held ==> s.held[s.toReceiver[0].packet.msgId] == s.toReceiver[0].serial
  {
    hide Agrees, TalkInv, Conversation, Find, Hold, Wire, StoredPublication;
    var p := s.toReceiver[0].packet;
    var x := p.msgId;
    var e := ReceivePublish(s.receiver, p, noPending, out);
    var s' := OnReceiverReads(s, noPending, out);
    assert s'.handed == s.handed;
    ReadQos2Finds(s.receiver, p, noPending, out);
    TalksOf(s, x);
    PubTalks(x, Find(s.sender.outbound, x), SerialAt(s.flight, x), Find(s.receiver.inbound, x), HeldAt(s.held, x), s.toReceiver,
             s.toSender, HandedOver(s.handed, SerialAt(s.flight, x)), Find(s'.receiver.inbound, x), e.sent);
    forall id: nat ensures Talks(s', id) {
      if id != x {
        TalksOf(s, id);
        TalkAtReceiver(s, s', id, e.sent);
      }
    }
    TalkAll(s');
  }

  lemma ReadQos2Held(s: System, noPending: bool, out: SendResult)
    requires Agrees(s.receiver) && HeldInv(s)
    requires CanHandle(s) && s.toReceiver[0].packet.Publish? && s.toReceiver[0].packet.qos == 2
    requires FrameOk(s.published, s.toReceiver[0])
    requires s.toReceiver[0].packet.msgId in s.held ==> s.held[s.toReceiver[0].packet.msgId] == s.toReceiver[0].serial
    ensures HeldInv(OnReceiverReads(s, noPending, out))
  {
    hide Agrees, HeldInv;
    var p := s.toReceiver[0].packet;
    ReadQos2Finds(s.receiver, p, noPending, out);
    HeldOf(s, p.msgId);
    HeldAtOne(s, OnReceiverReads(s, noPending, out), p.msgId);
  }

  lemma ReadQos2KeepsInv(s: System, noPending: bool, out: SendResult)
    requires Inv(s) && CanHandle(s) && s.toReceiver[0].packet.Publish? && s.toReceiver[0].packet.qos == 2
    ensures Inv(OnReceiverReads(s, noPending, out))
  {
    hide Agrees, TalkInv, FlightInv, FrameInv, HeldInv, HandInv, RetireInv;
    var s' := OnReceiverReads(s, noPending, out);
    ReceivePublishAgrees(s.receiver, s.toReceiver[0].packet, noPending, out);
    HeadFrame(s);
    FramesTail(s, s');
    FlightSame(s, s');
    assert s'.handed == s.handed;
    HistoryKept(s, s');
    ReadQos2Talks(s, noPending, out);
    ReadQos2Held(s, noPending, out);
  }

  // PUBREL

  /** A PUBREL for a message that is not held can only be a leftover, or a repeat after delivery. */
  lemma StaleRelTalks(id: nat, o: Option<Message>, t: nat, i: Option<Message>, held: Option<nat>,
                      down: seq<Frame>, up: seq<Packet>, handed: bool, ps: seq<Packet>)
    requires Conversation(id, o, t, i, held, down, up, handed)
    requires down != [] && IsRel(down[0], id)
    requires |ps| <= 1 && (ps != [] ==> i.None? && IsComp(ps[0], id))
    ensures Conversation(id, o, t, i, held, down[1..], up + ps, handed)
  {
  }

  /** A PUBREL for a message that is held releases exactly the call in flight, for the first time. */
  lemma ReleaseTalks(id: nat, o: Option<Message>, t: nat, i: Option<Message>, held: Option<nat>,
                     down: seq<Frame>, up: seq<Packet>, handed: bool, ps: seq<Packet>)
    requires Conversation(id, o, t, i, held, down, up, handed)
    requires down != [] && IsRel(down[0], id) && i.Some?
    requires |ps| <= 1 && (ps != [] ==> IsComp(ps[0], id))
    ensures !handed && held == Some(t) && o.Some? && o.value.qos == 2
    ensures Conversation(id, o, t, None, None, down[1..], up + ps, true)
  {
    assert forall k :: 0 < k < |down| ==> !IsPub(down[k], id);
  }

  lemma InboundValid(b: Session, id: MsgId)
    requires Agrees(b)
    ensures Find(b.inbound, id).Some? ==> ValidInbound(Find(b.inbound, id).value)
  {
    assert InboundAgrees(Find(b.inbound, id), b.store, id);
  }

  lemma ReleaseFinds(b: Session, k: nat)
    requires Agrees(b) && k < |b.inbound|
    ensures forall id: nat :: Find(Without(b.inbound, k), id) == if id == b.inbound[k].msgid then None else Find(b.inbound, id)
  {
    forall id: nat ensures Find(Without(b.inbound, k), id) == if id == b.inbound[k].msgid then None else Find(b.inbound, id) {
      FindWithout(b.inbound, k, id);
    }
  }

  lemma IgnoredRelKeepsInv(s: System, noPending: bool, out: SendResult)
    requires Inv(s) && CanHandle(s) && s.toReceiver[0].packet.Ack?
    requires Find(s.receiver.inbound, s.toReceiver[0].packet.msgId).None? || !noPending
    ensures Inv(OnReceiverReads(s, noPending, out))
  {
    hide Agrees, TalkInv, FlightInv, FrameInv, HeldInv, HandInv, RetireInv;
    var p := s.toReceiver[0].packet;
    var x := p.msgId;
    var e := HandlePubrel(s.receiver, x, p.dup, noPending, out);
    var s' := OnReceiverReads(s, noPending, out);
    InboundValid(s.receiver, x);
    assert e.s == s.receiver && s'.handed == s.handed;
    FramesTail(s, s');
    FlightSame(s, s');
    HistoryKept(s, s');
    HeldKept(s, s');
    TalksOf(s, x);
    StaleRelTalks(x, Find(s.sender.outbound, x), SerialAt(s.flight, x), Find(s.receiver.inbound, x), HeldAt(s.held, x),
                  s.toReceiver, s.toSender, HandedOver(s.handed, SerialAt(s.flight, x)), e.sent);
    forall id: nat ensures Talks(s', id) {
      if id != x {
        TalksOf(s, id);
        TalkAtReceiver(s, s', id, e.sent);
      }
    }
    TalkAll(s');
  }

  /** The state after the message held under id x was handed over. */
  lemma ReleaseResult(s: System, out: SendResult)
    requires Agrees(s.receiver) && CanHandle(s) && s.toReceiver[0].packet.Ack?
    requires Find(s.receiver.inbound, s.toReceiver[0].packet.msgId).Some?
    ensures var x := s.toReceiver[0].packet.msgId;
            var m := Find(s.receiver.inbound, x).value;
            var s' := OnReceiverReads(s, true, out);
            && s' == s.(toReceiver := s.toReceiver[1..], toSender := s.toSender + Offered(Ack(PUBCOMP, false, x), out),
                        receiver := s'.receiver, held := s.held - {x},
                        handed := s.handed + [Handover(SerialAt(s.held, x), Published(m.pub, 2, m.retain))])
            && Agrees(s'.receiver)
            && ReceivedKey(x) !in s'.receiver.store
            && (forall id: MsgId :: id != x ==>
                  && (ReceivedKey(id) in s'.receiver.store <==> ReceivedKey(id) in s.receiver.store)
                  && (ReceivedKey(id) in s.receiver.store ==> s'.receiver.store[ReceivedKey(id)] == s.receiver.store[ReceivedKey(id)]))
            && (forall id: nat :: Find(s'.receiver.inbound, id) == if id == x then None else Find(s.receiver.inbound, id))
  {
    hide Agrees;
    var p := s.toReceiver[0].packet;
    InboundValid(s.receiver, p.msgId);
    PubrelAgrees(s.receiver, p.msgId, p.dup, true, out);
    ReleaseFinds(s.receiver, IndexOf(s.receiver.inbound, p.msgId));
  }

  lemma ReleaseKeepsInv(s: System, out: SendResult)
    requires Inv(s) && CanHandle(s) && s.toReceiver[0].packet.Ack?
    requires Find(s.receiver.inbound, s.toReceiver[0].packet.msgId).Some?
    ensures Inv(OnReceiverReads(s, true, out))
  {
    hide Agrees, TalkInv, FlightInv, FrameInv, HeldInv, HandInv, RetireInv, OnReceiverReads;
    var x := s.toReceiver[0].packet.msgId;
    var m := Find(s.receiver.inbound, x).value;
    var s' := OnReceiverReads(s, true, out);
    var ps := Offered(Ack(PUBCOMP, false, x), out);
    ReleaseResult(s, out);
    FramesTail(s, s');
    FlightSame(s, s');
    HeldOf(s, x);
    TalksOf(s, x);
    ReleaseTalks(x, Find(s.sender.outbound, x), SerialAt(s.flight, x), Find(s.receiver.inbound, x), HeldAt(s.held, x),
                 s.toReceiver, s.toSender, HandedOver(s.handed, SerialAt(s.flight, x)), ps);
    var h := Handover(s.held[x], Published(m.pub, 2, m.retain));
    HandedKeepsHistory(s, s', h);
    HeldAtOne(s, s', x);
    FlightQos(s, x);
    forall id: nat ensures Talks(s', id) {
      MoreHanded(s.handed, h, SerialAt(s.flight, id));
      if id != x {
        TalksOf(s, id);
        NotInFlight(s, id);
        TalkAtReceiver(s, s', id, ps);
      }
    }
    TalkAll(s');
  }

  lemma ReceiverReadsKeepsInv(s: System, noPending: bool, out: SendResult)
    requires Inv(s) && CanHandle(s)
    ensures Inv(OnReceiverReads(s, noPending, out))
  {
    hide Agrees, TalkInv, FlightInv, FrameInv, HeldInv, HandInv, RetireInv, OnReceiverReads;
    var p := s.toReceiver[0].packet;
    HeadFrame(s);
    if p.Publish? && p.qos == 1 {
      ReadQos1KeepsInv(s, noPending, out);
    } else if p.Publish? {
      ReadQos2KeepsInv(s, noPending, out);
    } else if Find(s.receiver.inbound, p.msgId).Some? && noPending {
      ReleaseKeepsInv(s, out);
    } else {
      IgnoredRelKeepsInv(s, noPending, out);
    }
  }

  // Broken connections and restarts

  lemma DisconnectedKeepsInv(s: System)
    requires Inv(s)
    ensures Inv(Disconnected(s))
  {
    hide Agrees, FlightInv, HeldInv, HandInv, RetireInv;
    var s' := Disconnected(s);
    FlightSame(s, s');
    HeldKept(s, s');
    HistoryKept(s, s');
    forall id: nat ensures Talks(s', id) {
      TalksOf(s, id);
      LinkEmpty(id, Find(s.sender.outbound, id), SerialAt(s.flight, id), Find(s.receiver.inbound, id), HeldAt(s.held, id),
                s.toReceiver, s.toSender, HandedOver(s.handed, SerialAt(s.flight, id)));
    }
  }

  lemma OnRetriesKeepsInv(s: System, t: Policy, outs: seq<SendResult>)
    requires Inv(s)
    ensures Inv(OnRetries(s, t, outs))
  {
    hide Inv;
    RetryFromKeepsInv(s, 0, t, outs);
    SendNothing(s);
  }

  lemma TakesKeepsInv(s: System, taken: seq<QueueEntry>)
    requires Inv(s)
    ensures Inv(s.(receiver := TakeFromQueue(s.receiver), taken := taken))
  {
    hide Agrees, TalkInv, FlightInv, FrameInv, HeldInv, HandInv, RetireInv;
    var s' := s.(receiver := TakeFromQueue(s.receiver), taken := taken);
    TakeFromQueueAgrees(s.receiver);
    FlightSame(s, s');
    HistoryKept(s, s');
    FramesExtended(s, s', []);
    HeldOf(s, 0);
    HeldAtOne(s, s', 0);
    forall id: nat ensures Talks(s', id) {
      TalksOf(s, id);
    }
    TalkAll(s');
  }

  /** The same records in the same stages, whatever the times they were last sent. */
  lemma SenderAgainKeepsInv(s: System, r: Session)
    requires Inv(s) && Agrees(r)
    requires forall id: nat :: Find(r.outbound, id) ==
               if Find(s.sender.outbound, id).Some? then Some(Untouched(Find(s.sender.outbound, id).value)) else None
    ensures Inv(s.(sender := r))
  {
    hide Agrees, TalkInv, FlightInv, FrameInv, HeldInv, HandInv, RetireInv, Find;
    var s' := s.(sender := r);
    RestartFlight(s, r);
    HeldKept(s, s');
    HistoryKept(s, s');
    FramesExtended(s, s', []);
    SenderRestartTalks(s, r);
  }

  lemma RestartSenderKeepsInv(s: System, keys: seq<Key>, queueKeys: seq<Key>, clock: int)
    requires Inv(s) && Lists(keys, s.sender.store) && Lists(queueKeys, s.sender.store)
    ensures Inv(Disconnected(s).(sender := Restored(s.sender.store, keys, queueKeys, clock)))
  {
    hide Inv, Agrees, Restored, Find, Lists;
    var r := Restored(s.sender.store, keys, queueKeys, clock);
    InvAgrees(s);
    DisconnectedKeepsInv(s);
    RestartKeepsSession(s.sender, keys, queueKeys, clock);
    FindsBeyondIds(s.sender, r);
    SenderAgainKeepsInv(Disconnected(s), r);
  }

  lemma ReconnectedFinds(s: Session)
    requires Agrees(s)
    ensures Agrees(Reconnected(s))
    ensures forall id: nat :: Find(Reconnected(s).outbound, id) ==
              if Find(s.outbound, id).Some? then Some(Untouched(Find(s.outbound, id).value)) else None
  {
    var r := Reconnected(s);
    forall id: nat ensures Find(r.outbound, id) == if Find(s.outbound, id).Some? then Some(Untouched(Find(s.outbound, id).value)) else None {
      var k := IndexOf(s.outbound, id);
      if k < |s.outbound| {
        FindIs(r.outbound, id, k);
      } else {
        FindNone(r.outbound, id);
      }
    }
    forall id: MsgId ensures OutboundAgrees(Find(r.outbound, id), r.store, id) {
      assert OutboundAgrees(Find(s.outbound, id), s.store, id);
    }
  }

  lemma ReopenedKeepsInv(s: System)
    requires Inv(s)
    ensures Inv(Reopened(s))
  {
    hide Inv, Agrees, Find;
    InvAgrees(s);
    DisconnectedKeepsInv(s);
    ReconnectedFinds(s.sender);
    SenderAgainKeepsInv(Disconnected(s), Reconnected(s.sender));
  }

  lemma SenderRestartTalks(s: System, r: Session)
    requires TalkInv(s)
    requires forall id: nat :: Find(r.outbound, id) ==
               if Find(s.sender.outbound, id).Some? then Some(Untouched(Find(s.sender.outbound, id).value)) else None
    ensures TalkInv(s.(sender := r))
  {
    hide TalkInv, Find;
    forall id: nat ensures Talks(s.(sender := r), id) {
      TalksOf(s, id);
    }
    TalkAll(s.(sender := r));
  }

  /** Records have ids of two bytes, so looking up anything else finds nothing. */
  lemma FindsBeyondIds(a: Session, r: Session)
    requires forall id: MsgId :: Find(r.outbound, id) ==
               if Find(a.outbound, id).Some? then Some(Untouched(Find(a.outbound, id).value)) else None
    ensures forall id: nat :: Find(r.outbound, id) ==
              if Find(a.outbound, id).Some? then Some(Untouched(Find(a.outbound, id).value)) else None
  {
    forall id: nat ensures Find(r.outbound, id) ==
              if Find(a.outbound, id).Some? then Some(Untouched(Find(a.outbound, id).value)) else None
    {
      if id > MAX_MSG_ID {
        FindNone(a.outbound, id);
        FindNone(r.outbound, id);
      }
    }
  }

  lemma RestartFlight(s: System, r: Session)
    requires FlightInv(s)
    requires forall id: nat :: Find(r.outbound, id) ==
               if Find(s.sender.outbound, id).Some? then Some(Untouched(Find(s.sender.outbound, id).value)) else None
    ensures FlightInv(s.(sender := r))
  {
  }

  /** With the link empty, a refused message may turn up as held. */
  lemma RestartTalks(id: nat, o: Option<Message>, t: nat, i: Option<Message>, held: Option<nat>, handed: bool, i': Option<Message>)
    requires Conversation(id, o, t, i, held, [], [], handed)
    requires i'.Some? <==> held.Some?
    ensures Conversation(id, o, t, i', held, [], [], handed)
  {
  }

  lemma RestartHeld(s: System, r: Session, clock: int)
    requires HeldInv(s) && r.store == s.receiver.store
    requires forall id: MsgId :: Find(r.inbound, id) == InboundFor(s.receiver.store, id, clock)
    ensures HeldInv(s.(receiver := r))
    ensures forall id: nat :: Find(r.inbound, id).Some? <==> HeldAt(s.held, id).Some?
  {
    var s' := s.(receiver := r);
    forall id: MsgId ensures HeldOk(s'.published, s'.held, s'.receiver, id) && (Find(r.inbound, id).Some? <==> id in s.held) {
      assert HeldOk(s.published, s.held, s.receiver, id);
    }
    forall id: nat ensures Find(r.inbound, id).Some? <==> HeldAt(s.held, id).Some? {
      if id > MAX_MSG_ID {
        FindNone(r.inbound, id);
      }
    }
  }

  lemma RestartReceiverKeepsInv(s: System, keys: seq<Key>, queueKeys: seq<Key>, clock: int)
    requires Inv(s) && Lists(keys, s.receiver.store) && Lists(queueKeys, s.receiver.store)
    ensures Inv(Disconnected(s).(receiver := Restored(s.receiver.store, keys, queueKeys, clock)))
  {
    hide Agrees, TalkInv, FlightInv, FrameInv, HeldInv, HandInv, RetireInv;
    var s0 := Disconnected(s);
    var r := Restored(s.receiver.store, keys, queueKeys, clock);
    var s' := s0.(receiver := r);
    DisconnectedKeepsInv(s);
    RestartKeepsSession(s.receiver, keys, queueKeys, clock);
    RestartHeld(s0, r, clock);
    FlightSame(s0, s');
    HistoryKept(s0, s');
    FramesExtended(s0, s', []);
    forall id: nat ensures Talks(s', id) {
      TalksOf(s0, id);
      RestartTalks(id, Find(s.sender.outbound, id), SerialAt(s.flight, id), Find(s.receiver.inbound, id), HeldAt(s.held, id),
                   HandedOver(s.handed, SerialAt(s.flight, id)), Find(r.inbound, id));
    }
    TalkAll(s');
  }

  // Runs

  lemma NextKeepsInv(s: System, e: Event, retryInterval: int)
    requires Inv(s)
    ensures Inv(Next(s, e, retryInterval))
  {
    hide Inv, OnPublish, OnReceiverReads, OnSenderReads, OnRetries, Disconnected, Reopened, TakeFromQueue, CanHandle;
    match e
    case PublishCall(pub, qos, retain, clock, out) =>
      if 1 <= qos <= 2 && Fits(pub) && |s.sender.outbound| < PUBLISH_LIMIT && s.sender.msgID <= MAX_MSG_ID {
        PublishKeepsInv(s, pub, qos, retain, clock, out);
      }
    case ReceiverReads(noPending, out) =>
      if CanHandle(s) {
        ReceiverReadsKeepsInv(s, noPending, out);
      }
    case SenderReads(clock, out) =>
      if s.toSender != [] {
        SenderReadsKeepsInv(s, clock, out);
      }
    case RetryTimer(now, clock, ready, outs) =>
      OnRetriesKeepsInv(s, Policy(now, clock, retryInterval, false, ready), outs);
    case Cut =>
      DisconnectedKeepsInv(s);
    case Reconnect(clock, ready, outs) =>
      ReopenedKeepsInv(s);
      OnRetriesKeepsInv(Reopened(s), Policy(0, clock, retryInterval, true, ready), outs);
    case RestartSender(keys, queueKeys, clock) =>
      if Lists(keys, s.sender.store) && Lists(queueKeys, s.sender.store) {
        RestartSenderKeepsInv(s, keys, queueKeys, clock);
      }
    case RestartReceiver(keys, queueKeys, clock) =>
      if Lists(keys, s.receiver.store) && Lists(queueKeys, s.receiver.store) {
        RestartReceiverKeepsInv(s, keys, queueKeys, clock);
      }
    case ApplicationTakes =>
      if s.receiver.queue != [] {
        TakesKeepsInv(s, s.taken + [s.receiver.queue[0]]);
      }
  }

  lemma {:induction false} RunKeepsInv(s: System, events: seq<Event>, retryInterval: int)
    requires Inv(s)
    ensures Inv(Run(s, events, retryInterval))
    decreases |events|
  {
    hide Inv;
    if events != [] {
      NextKeepsInv(s, events[0], retryInterval);
      RunKeepsInv(Next(s, events[0], retryInterval), events[1..], retryInterval);
    }
  }

  /** Over every run, with any cuts, resends and restarts of either side: what the application gets
      is what was published; no QoS 2 message reaches it twice; and every QoS 2 message the sender
      has finished with reached it exactly once. */
  lemma ExactlyOnce(events: seq<Event>, retryInterval: int)
    ensures var s := Run(INIT, events, retryInterval);
            && (forall k :: 0 <= k < |s.handed| ==>
                  s.handed[k].serial < |s.published| && s.handed[k].msg == s.published[s.handed[k].serial])
            && (forall j, k :: 0 <= j < k < |s.handed| && s.handed[j].msg.qos == 2 ==> s.handed[j].serial != s.handed[k].serial)
            && (forall t :: t in s.retired ==> t < |s.published|)
            && (forall t :: t in s.retired && s.published[t].qos == 2 ==>
                  exists k :: 0 <= k < |s.handed| && s.handed[k] == Handover(t, s.published[t]) &&
                              forall j :: 0 <= j < |s.handed| && s.handed[j].serial == t ==> j == k)
  {
    InitInv();
    RunKeepsInv(INIT, events, retryInterval);
    var s := Run(INIT, events, retryInterval);
    assert HandInv(s) && RetireInv(s);
    forall t | t in s.retired && s.published[t].qos == 2
      ensures exists k :: 0 <= k < |s.handed| && s.handed[k] == Handover(t, s.published[t]) &&
                          forall j :: 0 <= j < |s.handed| && s.handed[j].serial == t ==> j == k
    {
      assert HandedOver(s.handed, t);
      var k :| 0 <= k < |s.handed| && s.handed[k].serial == t;
      assert s.handed[k] == Handover(t, s.published[t]);
    }
  }

  /** No publish call is forgotten: its record is still in flight, with its own topic and payload,
      or it was completed, and never both. */
  lemma NothingForgotten(events: seq<Event>, retryInterval: int, t: nat)
    requires t < |Run(INIT, events, retryInterval).published|
    ensures var s := Run(INIT, events, retryInterval);
            (t in s.retired) !=
            exists id: nat :: id in s.flight && s.flight[id] == t && Find(s.sender.outbound, id).Some? &&
                              Find(s.sender.outbound, id).value.pub == s.published[t].pub
  {
    InitInv();
    RunKeepsInv(INIT, events, retryInterval);
    var s := Run(INIT, events, retryInterval);
    assert FlightInv(s) && RetireInv(s);
  }

  /** In every run the receiver can handle whatever comes next on the link, and the sender's id
      counter stays in range: neither side is ever stuck. */
  lemma NeverStuck(events: seq<Event>, retryInterval: int)
    ensures var s := Run(INIT, events, retryInterval);
            (s.toReceiver != [] ==> CanHandle(s)) && s.sender.msgID <= MAX_MSG_ID
  {
    hide Inv, CanHandle;
    InitInv();
    RunKeepsInv(INIT, events, retryInterval);
    var s := Run(INIT, events, retryInterval);
    InvAgrees(s);
    CounterInRange(s.sender);
    if s.toReceiver != [] {
      HeadCanBeHandled(s);
    }
  }

  lemma CounterInRange(s: Session)
    requires Agrees(s)
    ensures s.msgID <= MAX_MSG_ID
  {
  }

  lemma HeadCanBeHandled(s: System)
    requires Inv(s) && s.toReceiver != []
    ensures CanHandle(s)
  {
    HeadFrame(s);
    InboundFits(s.receiver);
  }

  /** A sender restarted from its store has the same records in the same states. */
  ghost predicate SenderComesBack(s: System, keys: seq<Key>, queueKeys: seq<Key>, clock: int) {
    var r := Restored(s.sender.store, keys, queueKeys, clock);
    |r.outbound| == |s.sender.outbound| && forall m :: m in s.sender.outbound ==> Untouched(m) in r.outbound
  }

  /** A receiver restarted from its store has the same queue and holds every message it held; a
      message it refused comes back as one it holds, with the data of its own publish call. */
  ghost predicate ReceiverComesBack(s: System, keys: seq<Key>, queueKeys: seq<Key>, clock: int) {
    var r := Restored(s.receiver.store, keys, queueKeys, clock);
    && r.queue == s.receiver.queue
    && (forall m :: m in s.receiver.inbound ==> m.(lastTouch := clock) in r.inbound)
    && (forall m :: m in r.inbound ==> m.msgid in s.held && Carries(s.published, s.held[m.msgid], m.pub, m.qos, m.retain))
  }

  /** Between any two steps of any run both stores agree with the lists in memory, so that either
      side restarted there goes on from where it was. */
  lemma StoresAgree(events: seq<Event>, retryInterval: int)
    ensures var s := Run(INIT, events, retryInterval);
            && Agrees(s.sender) && Agrees(s.receiver)
            && (forall keys, queueKeys, clock :: Lists(keys, s.sender.store) && Lists(queueKeys, s.sender.store) ==>
                  SenderComesBack(s, keys, queueKeys, clock))
            && (forall keys, queueKeys, clock :: Lists(keys, s.receiver.store) && Lists(queueKeys, s.receiver.store) ==>
                  ReceiverComesBack(s, keys, queueKeys, clock))
  {
    hide Inv, Agrees, Lists, SenderComesBack, ReceiverComesBack;
    InitInv();
    RunKeepsInv(INIT, events, retryInterval);
    var s := Run(INIT, events, retryInterval);
    InvAgrees(s);
    forall keys, queueKeys, clock | Lists(keys, s.sender.store) && Lists(queueKeys, s.sender.store)
      ensures SenderComesBack(s, keys, queueKeys, clock)
    {
      SameRecordsAfterRestart(s, keys, queueKeys, clock);
    }
    forall keys, queueKeys, clock | Lists(keys, s.receiver.store) && Lists(queueKeys, s.receiver.store)
      ensures ReceiverComesBack(s, keys, queueKeys, clock)
    {
      HeldAfterRestart(s, keys, queueKeys, clock);
    }
  }

  lemma HeldAfterRestart(s: System, keys: seq<Key>, queueKeys: seq<Key>, clock: int)
    requires Inv(s) && Lists(keys, s.receiver.store) && Lists(queueKeys, s.receiver.store)
    ensures ReceiverComesBack(s, keys, queueKeys, clock)
  {
    hide Inv, Restored, Lists, Agrees, Find, InboundFor;
    InvAgrees(s);
    RestartKeepsSession(s.receiver, keys, queueKeys, clock);
    var r := Restored(s.receiver.store, keys, queueKeys, clock);
    forall m | m in s.receiver.inbound ensures m.(lastTouch := clock) in r.inbound {
      HeldIsStored(s, m, clock);
      FindMembers(r.inbound, m.msgid);
    }
    forall m | m in r.inbound ensures m.msgid in s.held && Carries(s.published, s.held[m.msgid], m.pub, m.qos, m.retain) {
      InboundFound(r, m);
      StoredIsHeld(s, m, clock);
    }
  }

  lemma InboundFound(r: Session, m: Message)
    requires Agrees(r) && m in r.inbound
    ensures Find(r.inbound, m.msgid) == Some(m)
  {
    var k :| 0 <= k < |r.inbound| && r.inbound[k] == m;
    FindAt(r.inbound, k);
  }

  /** What is held is what is stored for it, up to the time of the restart. */
  lemma HeldIsStored(s: System, m: Message, clock: int)
    requires Inv(s) && m in s.receiver.inbound
    ensures InboundFor(s.receiver.store, m.msgid, clock) == Some(m.(lastTouch := clock))
  {
    hide TalkInv, FlightInv, FrameInv, HandInv, RetireInv;
    InboundFound(s.receiver, m);
    assert InboundAgrees(Find(s.receiver.inbound, m.msgid), s.receiver.store, m.msgid);
    HeldOf(s, m.msgid);
  }

  lemma StoredIsHeld(s: System, m: Message, clock: int)
    requires Inv(s) && InboundFor(s.receiver.store, m.msgid, clock) == Some(m)
    ensures m.msgid in s.held && Carries(s.published, s.held[m.msgid], m.pub, m.qos, m.retain)
  {
    hide TalkInv, FlightInv, FrameInv, HandInv, RetireInv;
    assert InboundAgrees(Find(s.receiver.inbound, m.msgid), s.receiver.store, m.msgid);
    HeldOf(s, m.msgid);
  }

  lemma InvAgrees(s: System)
    requires Inv(s)
    ensures Agrees(s.sender) && Agrees(s.receiver)
  {
  }

  lemma SameRecordsAfterRestart(s: System, keys: seq<Key>, queueKeys: seq<Key>, clock: int)
    requires Inv(s) && Lists(keys, s.sender.store) && Lists(queueKeys, s.sender.store)
    ensures SenderComesBack(s, keys, queueKeys, clock)
  {
    hide Inv, Restored, Agrees;
    InvAgrees(s);
    RestartKeepsSession(s.sender, keys, queueKeys, clock);
    var r := Restored(s.sender.store, keys, queueKeys, clock);
    OutboundIdsValid(s.sender);
    SortIdsSorts(Ids(s.sender.outbound));
    assert |RestoredOrder(Ids(s.sender.outbound))| == |s.sender.outbound|;
    OutboundDistinct(s.sender);
    forall m | m in s.sender.outbound ensures Untouched(m) in r.outbound {
      var k :| 0 <= k < |s.sender.outbound| && s.sender.outbound[k] == m;
      FindAt(s.sender.outbound, k);
      FindMembers(r.outbound, m.msgid);
    }
  }
}
