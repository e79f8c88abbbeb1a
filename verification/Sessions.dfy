/** One client's session as a value: the in-flight lists, the queue for the application and the
    persistent store, and what each protocol handler does to them. */
module Sessions {
  import opened Bytes
  import opened Packets
  import opened Records
  import opened MessageIds
  import opened SendOrder

  datatype Publication = Publication(topic: CString, payload: seq<byte>)

  /** A record of a message in flight; `next` is the acknowledgement awaited by the QoS 2 flow. */
  datatype Message =
    Message(msgid: MsgId, qos: Qos, retain: bool, next: Option<AckKind>, pub: Publication, lastTouch: int)

  /** The keys "s-", "sc-", "r-", "q-" and "c-", each followed by a number. */
  datatype Key =
    | SentKey(id: MsgId)
    | PubrelKey(id: MsgId)
    | ReceivedKey(id: MsgId)
    | QueueKey(seqno: nat)
    | CommandKey(seqno: nat)

  type Store = map<Key, seq<byte>>

  /** A message handed over to the application's queue. */
  datatype QueueEntry =
    QueueEntry(seqno: nat, pub: Publication, qos: Qos, retained: bool, dup: bool, msgid: MsgId)

  datatype Session = Session(
    outbound: seq<Message>,
    inbound: seq<Message>,
    msgID: nat,
    store: Store,
    queue: seq<QueueEntry>,
    qentrySeqno: nat)

  const EMPTY_SESSION := Session([], [], 0, map[], [], 0)

  /** What became of a packet given to the socket. */
  datatype SendResult = COMPLETE | INTERRUPTED | ERROR

  /** A handler's result: the new session, the packets that went to the socket, and its return code. */
  datatype Effect = Effect(s: Session, sent: seq<Packet>, rc: SendResult)

  function Offered(p: Packet, out: SendResult): seq<Packet> {
    if out == ERROR then [] else [p]
  }

  // Finding records by message id

  function IndexOf(list: seq<Message>, id: nat): (k: nat)
    ensures k <= |list|
    ensures k < |list| ==> list[k].msgid == id
    ensures forall i :: 0 <= i < k ==> list[i].msgid != id
  {
    if list == [] || list[0].msgid == id then 0 else 1 + IndexOf(list[1..], id)
  }

  function Find(list: seq<Message>, id: nat): Option<Message> {
    var k := IndexOf(list, id);
    if k < |list| then Some(list[k]) else None
  }

  function Without(list: seq<Message>, k: nat): seq<Message>
    requires k < |list|
  {
    list[..k] + list[k + 1..]
  }

  function Ids(list: seq<Message>): (ids: seq<nat>)
    ensures |ids| == |list| && forall i :: 0 <= i < |list| ==> ids[i] == list[i].msgid
  {
    seq(|list|, i requires 0 <= i < |list| => list[i].msgid)
  }

  function IdSet(list: seq<Message>): set<nat> {
    set m | m in list :: m.msgid
  }

  lemma {:induction false} IdSetSize(list: seq<Message>)
    ensures |IdSet(list)| <= |list|
  {
    if list != [] {
      var n := |list| - 1;
      IdSetSize(list[..n]);
      assert list == list[..n] + [list[n]];
      assert IdSet(list) == IdSet(list[..n]) + {list[n].msgid};
    }
  }

  // Records and what is stored for them

  function PublishOf(m: Message, dup: bool): Packet {
    Publish(dup, m.qos, m.retain, m.msgid, m.pub.topic, m.pub.payload)
  }

  function PubrelOf(id: MsgId, dup: bool): Packet {
    Ack(PUBREL, dup, id)
  }

  function FirstStage(qos: Qos): Option<AckKind> {
    if qos == 2 then Some(PUBREC) else None
  }

  function StoredEntry(e: QueueEntry): StoredMessage
    requires |e.pub.topic| <= INT_MAX
  {
    StoredMessage(e.pub.payload, e.qos, if e.retained then 1 else 0, if e.dup then 1 else 0, e.msgid,
                  e.pub.topic, |e.pub.topic|)
  }

  /** Sizes that the C structures can hold: a topic length fits two bytes and a payload length an int. */
  predicate Fits(p: Publication) {
    |p.topic| <= 65535 && |p.payload| <= INT_MAX
  }

  function EntryBytes(e: QueueEntry): seq<byte>
    requires Fits(e.pub)
  {
    MessageBytes(StoredEntry(e))
  }

  // Sending a new message

  const PUBLISH_LIMIT := MAX_MSG_ID - 1

  function StartPublish(s: Session, pub: Publication, qos: Qos, retain: bool, id: MsgId, clock: int, out: SendResult): Effect
    requires qos > 0
  {
    var m := Message(id, qos, retain, FirstStage(qos), pub, clock);
    var p := PublishOf(m, false);
    Effect(s.(outbound := s.outbound + [m], store := s.store[SentKey(id) := Wire(p)]), Offered(p, out), out)
  }

  /** A publish call at QoS 1 or 2 that the flow control lets through. */
  function NewPublish(s: Session, pub: Publication, qos: Qos, retain: bool, clock: int, out: SendResult): Effect
    requires qos > 0 && s.msgID <= MAX_MSG_ID
  {
    AssignedIdIsFirstFree(s.msgID, IdSet(s.outbound));
    var id := AssignedId(s.msgID, IdSet(s.outbound));
    if id == 0 then Effect(s, [], ERROR) else StartPublish(s.(msgID := id), pub, qos, retain, id, clock, out)
  }

  // Acknowledgements of outbound messages

  function HandlePuback(s: Session, id: MsgId): Session {
    var k := IndexOf(s.outbound, id);
    if k == |s.outbound| || s.outbound[k].qos != 1 then s
    else s.(outbound := Without(s.outbound, k), store := s.store - {SentKey(id)})
  }

  function HandlePubrec(s: Session, id: MsgId, clock: int, out: SendResult): Effect {
    var k := IndexOf(s.outbound, id);
    if k == |s.outbound| || s.outbound[k].qos != 2 || s.outbound[k].next != Some(PUBREC) then Effect(s, [], COMPLETE)
    else
      var p := PubrelOf(id, false);
      var m := s.outbound[k].(next := Some(PUBCOMP), lastTouch := clock);
      Effect(s.(outbound := s.outbound[k := m], store := s.store[PubrelKey(id) := Wire(p)]), Offered(p, out), out)
  }

  function HandlePubcomp(s: Session, id: MsgId): Session {
    var k := IndexOf(s.outbound, id);
    if k == |s.outbound| || s.outbound[k].qos != 2 || s.outbound[k].next != Some(PUBCOMP) then s
    else s.(outbound := Without(s.outbound, k), store := s.store - {SentKey(id), PubrelKey(id)})
  }

  // Inbound messages

  /** Appends a message to the application's queue and persists it there. */
  function ProcessPublication(s: Session, pub: Publication, qos: Qos, retain: bool, dup: bool, id: MsgId): Session
    requires Fits(pub)
  {
    var e := QueueEntry(s.qentrySeqno + 1, pub, qos, retain, qos != 2 && dup, id);
    s.(queue := s.queue + [e], qentrySeqno := s.qentrySeqno + 1, store := s.store[QueueKey(e.seqno) := EntryBytes(e)])
  }

  /** A record with the same id is replaced where it stands. */
  function Hold(list: seq<Message>, m: Message): seq<Message> {
    var k := IndexOf(list, m.msgid);
    if k < |list| then list[k := m] else list + [m]
  }

  function PubOf(p: Packet): Publication
    requires p.Publish?
  {
    Publication(p.topic, p.payload)
  }

  /** A PUBLISH as it arrives: QoS 2 packets are persisted as they are read, before they are handled. */
  function ReceivePublish(s: Session, p: Packet, noPending: bool, out: SendResult): Effect
    requires p.Publish? && Fits(PubOf(p))
  {
    var s0 := if p.qos == 2 then s.(store := s.store[ReceivedKey(p.msgId) := Wire(p)]) else s;
    if p.qos == 0 then Effect(ProcessPublication(s0, PubOf(p), 0, p.retain, p.dup, 0), [], COMPLETE)
    else if !noPending then Effect(s0, [], ERROR)
    else if p.qos == 1 then
      Effect(ProcessPublication(s0, PubOf(p), 1, p.retain, p.dup, p.msgId), Offered(Ack(PUBACK, false, p.msgId), out), out)
    else if p.qos == 2 then
      var m := Message(p.msgId, 2, p.retain, Some(PUBREL), PubOf(p), 0);
      Effect(s0.(inbound := Hold(s0.inbound, m)), Offered(Ack(PUBREC, false, p.msgId), out), out)
    else Effect(s0, [], COMPLETE)
  }

  function HandlePubrel(s: Session, id: MsgId, dup: bool, noPending: bool, out: SendResult): Effect
    requires forall m :: m in s.inbound ==> Fits(m.pub)
  {
    var k := IndexOf(s.inbound, id);
    var p := Ack(PUBCOMP, false, id);
    if k == |s.inbound| then
      if !dup then Effect(s, [], COMPLETE)
      else if !noPending then Effect(s, [], ERROR)
      else Effect(s, Offered(p, out), out)
    else
      var m := s.inbound[k];
      if m.qos != 2 || m.next != Some(PUBREL) then Effect(s, [], COMPLETE)
      else if !noPending then Effect(s, [], ERROR)
      else
        var s1 := ProcessPublication(s, m.pub, m.qos, m.retain, false, m.msgid);
        Effect(s1.(store := s1.store - {ReceivedKey(id)}, inbound := Without(s.inbound, k)), Offered(p, out), out)
  }

  /** The application takes the first waiting message. */
  function TakeFromQueue(s: Session): Session {
    if s.queue == [] then s
    else s.(queue := s.queue[1..], store := s.store - {QueueKey(s.queue[0].seqno)})
  }

  function CleanSession(s: Session): Session {
    EMPTY_SESSION.(qentrySeqno := s.qentrySeqno)
  }

  // Resending

  /** What a record is resent as: a PUBLISH marked DUP, or the PUBREL once PUBREC has been accepted. */
  function Resend(m: Message): Option<Packet> {
    if m.qos == 1 || (m.qos == 2 && m.next == Some(PUBREC)) then Some(PublishOf(m, true))
    else if m.qos != 0 && m.next == Some(PUBCOMP) then Some(PubrelOf(m.msgid, false))
    else None
  }

  function ResendKey(m: Message): Key {
    if m.next == Some(PUBCOMP) && m.qos != 1 then PubrelKey(m.msgid) else SentKey(m.msgid)
  }

  /** When a pass resends: `ready` means connected, without an earlier error and with no write pending. */
  datatype Policy = Policy(now: int, clock: int, retryInterval: int, regardless: bool, ready: bool)

  function MinInterval(retryInterval: int): int {
    if retryInterval > 10 then retryInterval else 10
  }

  predicate Due(m: Message, t: Policy) {
    t.regardless || t.now - m.lastTouch > MinInterval(t.retryInterval)
  }

  /** Result of a resending pass; failed means that the session was closed because of a send error. */
  datatype Pass = Pass(s: Session, sent: seq<Packet>, failed: bool)

  function OutcomeAt(outs: seq<SendResult>, k: nat): SendResult {
    if k < |outs| then outs[k] else COMPLETE
  }

  /** A PUBLISH that could only be written in part still counts as sent; a PUBREL does not. */
  predicate SendFailed(p: Packet, out: SendResult) {
    out == ERROR || (out == INTERRUPTED && p.Ack?)
  }

  /** Resends the record at position k. */
  function ResendAt(s: Session, k: nat, p: Packet, t: Policy, out: SendResult): Session
    requires k < |s.outbound|
  {
    var m := s.outbound[k];
    var touched := if SendFailed(p, out) then m else m.(lastTouch := t.clock);
    s.(outbound := s.outbound[k := touched], store := s.store[ResendKey(m) := Wire(p)])
  }

  function RetryFrom(s: Session, k: nat, t: Policy, outs: seq<SendResult>): Pass
    requires k <= |s.outbound|
    decreases |s.outbound| - k
  {
    if k == |s.outbound| then Pass(s, [], false)
    else if !Due(s.outbound[k], t) || Resend(s.outbound[k]) == None then RetryFrom(s, k + 1, t, outs)
    else
      var p := Resend(s.outbound[k]).value;
      var out := OutcomeAt(outs, k);
      var s1 := ResendAt(s, k, p, t, out);
      if out != COMPLETE then Pass(s1, Offered(p, out), SendFailed(p, out))
      else
        var rest := RetryFrom(s1, k + 1, t, outs);
        Pass(rest.s, [p] + rest.sent, rest.failed)
  }

  /** Nothing is resent while the client is not ready; and unless it is for a reconnect, resending is
      turned off by a retry interval that is not positive. */
  function Retries(s: Session, t: Policy, outs: seq<SendResult>): Pass {
    if !t.ready || (!t.regardless && t.retryInterval <= 0) then Pass(s, [], false) else RetryFrom(s, 0, t, outs)
  }

  /** As a new connection begins: every record is due at once. */
  function Untouched(m: Message): Message {
    m.(lastTouch := 0)
  }

  function Reconnected(s: Session): (r: Session)
    ensures |r.outbound| == |s.outbound| && forall i :: 0 <= i < |s.outbound| ==> r.outbound[i] == Untouched(s.outbound[i])
  {
    s.(outbound := seq(|s.outbound|, i requires 0 <= i < |s.outbound| => Untouched(s.outbound[i])))
  }

  // Restart

  datatype Rebuild = Rebuild(store: Store, outbound: seq<Message>, inbound: seq<Message>)

  function InsertInOrder(list: seq<Message>, m: Message): seq<Message> {
    var k := InsertAt(Ids(list), m.msgid);
    list[..k] + [m] + list[k..]
  }

  /** What the restart makes of one key; records of the wrong kind count as bad ones. */
  function RestoreKey(r: Rebuild, key: Key, clock: int): Rebuild {
    if key.QueueKey? || key.CommandKey? || key !in r.store then r
    else
      match RestorePacket(r.store[key])
      case None => r.(store := r.store - {key})
      case Some(Publish(_, qos, retain, id, topic, payload)) =>
        var pub := Publication(topic, payload);
        if key.ReceivedKey? then
          r.(inbound := r.inbound + [Message(id, qos, retain, Some(PUBREL), pub, clock)])
        else if key.SentKey? then
          var next := if PubrelKey(id) in r.store then Some(PUBCOMP) else FirstStage(qos);
          r.(outbound := InsertInOrder(r.outbound, Message(id, qos, retain, next, pub, 0)))
        else r.(store := r.store - {key})
      case Some(Ack(_, _, id)) =>
        if key.PubrelKey? && SentKey(id) in r.store then r else r.(store := r.store - {key})
  }

  function RestoreKeys(r: Rebuild, keys: seq<Key>, clock: int): Rebuild
    decreases |keys|
  {
    if keys == [] then r else RestoreKeys(RestoreKey(r, keys[0], clock), keys[1..], clock)
  }

  function EntryOf(seqno: nat, m: StoredMessage): QueueEntry {
    QueueEntry(seqno, Publication(m.topicName, m.payload), if 0 <= m.qos <= 3 then m.qos else 0, m.retained != 0,
               m.dup != 0, if 0 <= m.msgid <= MAX_MSG_ID then m.msgid else 0)
  }

  function Seqnos(q: seq<QueueEntry>): (r: seq<nat>)
    ensures |r| == |q| && forall i :: 0 <= i < |q| ==> r[i] == q[i].seqno
  {
    seq(|q|, i requires 0 <= i < |q| => q[i].seqno)
  }

  function InsertInSeqOrder(q: seq<QueueEntry>, e: QueueEntry): seq<QueueEntry> {
    var k := InsertAt(Seqnos(q), e.seqno);
    q[..k] + [e] + q[k..]
  }

  function RestoreQueue(q: seq<QueueEntry>, top: nat, store: Store, keys: seq<Key>): (seq<QueueEntry>, nat)
    decreases |keys|
  {
    if keys == [] then (q, top)
    else if keys[0].QueueKey? && keys[0] in store && TakeMessage(store[keys[0]]).Some? then
      var e := EntryOf(keys[0].seqno, TakeMessage(store[keys[0]]).value.0);
      RestoreQueue(InsertInSeqOrder(q, e), if e.seqno > top then e.seqno else top, store, keys[1..])
    else RestoreQueue(q, top, store, keys[1..])
  }

  /** A new process opens the store.  The two passes over it may list the keys in different orders. */
  function Restored(store: Store, keys: seq<Key>, queueKeys: seq<Key>, clock: int): Session {
    var r := RestoreKeys(Rebuild(store, [], []), keys, clock);
    var (queue, top) := RestoreQueue([], 0, r.store, queueKeys);
    Session(Rotate(r.outbound, WrapAt(Ids(r.outbound))), r.inbound, 0, r.store, queue, top)
  }

  /** A listing of the keys in some order. */
  ghost predicate Lists(keys: seq<Key>, store: Store) {
    && (forall i, j :: 0 <= i < j < |keys| ==> keys[i] != keys[j])
    && (forall k :: k in keys <==> k in store)
  }
}
