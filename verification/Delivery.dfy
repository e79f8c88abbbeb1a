/** Two clients joined by a link: the outbound half of one session against the inbound half of the
    other, as a transition system over arbitrary runs. */
module Delivery {
  import opened Packets
  import opened MessageIds
  import opened Sessions

  /** A packet on its way to the receiver, with the number of the publish call it belongs to.  The
      number is bookkeeping for the theorems: no handler looks at it. */
  datatype Frame = Frame(packet: Packet, serial: nat)

  datatype Published = Published(pub: Publication, qos: Qos, retain: bool)

  /** A message passed to the receiving application's queue. */
  datatype Handover = Handover(serial: nat, msg: Published)

  datatype System = System(
    sender: Session,
    receiver: Session,
    toReceiver: seq<Frame>,       // the two directions of the connection, oldest first
    toSender: seq<Packet>,
    published: seq<Published>,    // history: what each publish call asked for
    flight: map<nat, nat>,        // history: the call each id in flight belongs to
    held: map<nat, nat>,          // history: the call each id stored by the receiver belongs to
    handed: seq<Handover>,        // history: what reached the receiving application
    retired: seq<nat>,            // history: calls whose record the sender has dropped as complete
    log: seq<Frame>,              // history: everything the sender gave to its socket
    taken: seq<QueueEntry>)       // history: what the receiving application was given from its queue

  /** What can happen.  A send may fail, and then nothing is transmitted; a partial write counts as
      sent, because it is either completed or lost with the connection. */
  datatype Event =
    | PublishCall(pub: Publication, qos: Qos, retain: bool, clock: int, out: SendResult)
    | ReceiverReads(noPending: bool, out: SendResult)
    | SenderReads(clock: int, out: SendResult)
    | RetryTimer(now: int, clock: int, ready: bool, outs: seq<SendResult>)
    | Cut
    | Reconnect(clock: int, ready: bool, outs: seq<SendResult>)
    | RestartSender(keys: seq<Key>, queueKeys: seq<Key>, clock: int)
    | RestartReceiver(keys: seq<Key>, queueKeys: seq<Key>, clock: int)
    | ApplicationTakes

  const INIT := System(EMPTY_SESSION, EMPTY_SESSION, [], [], [], map[], map[], [], [], [], [])

  function SerialAt(m: map<nat, nat>, id: nat): nat {
    if id in m then m[id] else 0
  }

  function FrameFor(s: System, p: Packet): Frame {
    Frame(p, SerialAt(s.flight, p.msgId))
  }

  function FramesFor(s: System, ps: seq<Packet>): (fs: seq<Frame>)
    ensures |fs| == |ps| && forall i :: 0 <= i < |ps| ==> fs[i] == FrameFor(s, ps[i])
  {
    seq(|ps|, i requires 0 <= i < |ps| => FrameFor(s, ps[i]))
  }

  /** The sender's packets enter the link. */
  function Send(s: System, ps: seq<Packet>): System {
    s.(toReceiver := s.toReceiver + FramesFor(s, ps), log := s.log + FramesFor(s, ps))
  }

  function OnPublish(s: System, pub: Publication, qos: Qos, retain: bool, clock: int, out: SendResult): System
    requires qos > 0 && s.sender.msgID <= MAX_MSG_ID
  {
    var id := AssignedId(s.sender.msgID, IdSet(s.sender.outbound));
    if id == 0 then s
    else
      var e := NewPublish(s.sender, pub, qos, retain, clock, out);
      Send(s.(sender := e.s, published := s.published + [Published(pub, qos, retain)],
              flight := s.flight[id := |s.published|]),
           e.sent)
  }

  /** The sender drops the record with this id, its flow being complete. */
  function Retire(s: System, after: Session, id: MsgId): System {
    if |after.outbound| == |s.sender.outbound| then s
    else s.(sender := after, retired := s.retired + [SerialAt(s.flight, id)], flight := s.flight - {id})
  }

  function OnSenderReads(s: System, clock: int, out: SendResult): System
    requires s.toSender != []
  {
    var p := s.toSender[0];
    var s0 := s.(toSender := s.toSender[1..]);
    if p.Publish? then s0
    else
      match p.kind
      case PUBACK => Retire(s0, HandlePuback(s.sender, p.msgId), p.msgId)
      case PUBCOMP => Retire(s0, HandlePubcomp(s.sender, p.msgId), p.msgId)
      case PUBREC =>
        var e := HandlePubrec(s.sender, p.msgId, clock, out);
        Send(s0.(sender := e.s), e.sent)
      case PUBREL => s0
  }

  function NewHandovers(before: Session, after: Session, serial: nat): seq<Handover> {
    if |after.queue| <= |before.queue| then []
    else
      var e := after.queue[|after.queue| - 1];
      [Handover(serial, Published(e.pub, e.qos, e.retained))]
  }

  predicate CanHandle(s: System) {
    s.toReceiver != [] &&
    var p := s.toReceiver[0].packet;
    (p.Publish? && Fits(PubOf(p))) || (p.Ack? && p.kind == PUBREL && forall m :: m in s.receiver.inbound ==> Fits(m.pub))
  }

  function OnReceiverReads(s: System, noPending: bool, out: SendResult): System
    requires CanHandle(s)
  {
    var f := s.toReceiver[0];
    var id := f.packet.msgId;
    var s0 := s.(toReceiver := s.toReceiver[1..]);
    if f.packet.Publish? then
      var e := ReceivePublish(s.receiver, f.packet, noPending, out);
      s0.(receiver := e.s, toSender := s.toSender + e.sent,
          handed := s.handed + NewHandovers(s.receiver, e.s, f.serial),
          held := if f.packet.qos == 2 then s.held[id := f.serial] else s.held)
    else
      var e := HandlePubrel(s.receiver, id, f.packet.dup, noPending, out);
      var given := NewHandovers(s.receiver, e.s, SerialAt(s.held, id));
      s0.(receiver := e.s, toSender := s.toSender + e.sent, handed := s.handed + given,
          held := if given == [] then s.held else s.held - {id})
  }

  function Disconnected(s: System): System {
    s.(toReceiver := [], toSender := [])
  }

  function Reopened(s: System): System {
    Disconnected(s).(sender := Reconnected(s.sender))
  }

  function OnRetries(s: System, t: Policy, outs: seq<SendResult>): System {
    var pass := Retries(s.sender, t, outs);
    Send(s.(sender := pass.s), pass.sent)
  }

  /** One step.  An event that is not enabled changes nothing. */
  ghost function Next(s: System, e: Event, retryInterval: int): System {
    match e
    case PublishCall(pub, qos, retain, clock, out) =>
      if 1 <= qos <= 2 && Fits(pub) && |s.sender.outbound| < PUBLISH_LIMIT && s.sender.msgID <= MAX_MSG_ID
      then OnPublish(s, pub, qos, retain, clock, out) else s
    case ReceiverReads(noPending, out) => if CanHandle(s) then OnReceiverReads(s, noPending, out) else s
    case SenderReads(clock, out) => if s.toSender != [] then OnSenderReads(s, clock, out) else s
    case RetryTimer(now, clock, ready, outs) => OnRetries(s, Policy(now, clock, retryInterval, false, ready), outs)
    case Cut => Disconnected(s)
    case Reconnect(clock, ready, outs) => OnRetries(Reopened(s), Policy(0, clock, retryInterval, true, ready), outs)
    case RestartSender(keys, queueKeys, clock) =>
      if Lists(keys, s.sender.store) && Lists(queueKeys, s.sender.store)
      then Disconnected(s).(sender := Restored(s.sender.store, keys, queueKeys, clock)) else s
    case RestartReceiver(keys, queueKeys, clock) =>
      if Lists(keys, s.receiver.store) && Lists(queueKeys, s.receiver.store)
      then Disconnected(s).(receiver := Restored(s.receiver.store, keys, queueKeys, clock)) else s
    case ApplicationTakes =>
      if s.receiver.queue == [] then s
      else s.(receiver := TakeFromQueue(s.receiver), taken := s.taken + [s.receiver.queue[0]])
  }

  ghost function Run(s: System, events: seq<Event>, retryInterval: int): System
    decreases |events|
  {
    if events == [] then s else Run(Next(s, events[0], retryInterval), events[1..], retryInterval)
  }

  lemma RunStep(s: System, events: seq<Event>, i: nat, retryInterval: int)
    requires i < |events|
    ensures Run(s, events[i..], retryInterval) == Run(Next(s, events[i], retryInterval), events[i + 1..], retryInterval)
  {
    assert events[i..][1..] == events[i + 1..];
  }

  lemma RunEnds(s: System, events: seq<Event>, retryInterval: int)
    ensures Run(s, events[|events|..], retryInterval) == s
  {
  }

  lemma {:induction false} RunConcat(s: System, a: seq<Event>, b: seq<Event>, retryInterval: int)
    ensures Run(s, a + b, retryInterval) == Run(Run(s, a, retryInterval), b, retryInterval)
    decreases |a|
  {
    hide Next;
    if a == [] {
      assert a + b == b;
    } else {
      assert (a + b)[1..] == a[1..] + b;
      RunConcat(Next(s, a[0], retryInterval), a[1..], b, retryInterval);
    }
  }
}
