/** The order in which messages reach the receiving application, section 4.6 of MQTT 3.1.1: for any two
    records of one QoS, what is under way for the later one has the earlier one's flow ahead of it. */
module HandoverOrder {
  import opened Bytes
  import opened Packets
  import opened MessageIds
  import opened Sessions
  import opened StoreAgreement
  import opened Delivery
  import opened ExactlyOnce
  import opened AtLeastOnce
  import opened OnTheWire

  // What each end still does with the connection

  /** Whether the sender writes and reads, whether the receiver reads, and whether the sender has
      transmitted every record since it connected. */
  datatype Connection = Connection(sending: bool, receiving: bool, whole: bool)

  const CLOSED := Connection(false, false, false)

  /** An end closes its session when a send fails or a packet is refused; a connection that breaks,
      and a restart, end it for both. */
  ghost function After(c: Connection, s: System, e: Event, retryInterval: int): Connection {
    match e
    case PublishCall(_, _, _, _, out) => if out == ERROR then c.(sending := false) else c
    case SenderReads(_, out) => if s.toSender != [] && out == ERROR then c.(sending := false) else c
    case ReceiverReads(noPending, out) => if s.toReceiver == [] || (noPending && out != ERROR) then c else c.(receiving := false)
    case Reconnect(clock, ready, outs) =>
      var pass := Retries(Reconnected(s.sender), Policy(0, clock, retryInterval, true, ready), outs);
      Connection(ready && !pass.failed, true, |pass.sent| == |s.sender.outbound|)
    case Cut => CLOSED
    case RestartSender(keys, queueKeys, _) => if Lists(keys, s.sender.store) && Lists(queueKeys, s.sender.store) then CLOSED else c
    case RestartReceiver(keys, queueKeys, _) =>
      if Lists(keys, s.receiver.store) && Lists(queueKeys, s.receiver.store) then CLOSED else c
    case RetryTimer(_, _, _, _) => c
    case ApplicationTakes => c
  }

  // A record and what is under way for it

  datatype Kind = QOS1 | QOS2 | RELEASE

  predicate Is(f: Frame, kind: Kind, id: nat) {
    match kind
    case QOS1 => IsPub1(f, id)
    case QOS2 => IsPub(f, id)
    case RELEASE => IsRel(f, id)
  }

  ghost predicate Before(down: seq<Frame>, k: nat, kind: Kind, id: nat) {
    exists i :: 0 <= i < k && i < |down| && Is(down[i], kind, id)
  }

  ghost predicate RecBefore(up: seq<Packet>, k: nat, id: nat) {
    exists i :: 0 <= i < k && i < |up| && IsRec(up[i], id)
  }

  predicate AtRec(m: Message) {
    m.qos == 2 && m.next == Some(PUBREC)
  }

  predicate AtComp(m: Message) {
    m.qos == 2 && m.next == Some(PUBCOMP)
  }

  /** The message was handed over, or the packet its flow waits for is under way, a PUBLISH among the
      first kd frames or a PUBREC among the first ku answers. */
  ghost predicate Ahead(x: nat, m: Message, handed: bool, down: seq<Frame>, kd: nat, up: seq<Packet>, ku: nat) {
    || handed
    || (m.qos == 1 && Before(down, kd, QOS1, x))
    || (AtComp(m) && Before(down, |down|, RELEASE, x))
    || (AtRec(m) && (RecBefore(up, ku, x) || Before(down, kd, QOS2, x)))
  }

  /** Two records of the same QoS, the one with id x published first: whatever is under way for y, the
      flow of x is ahead of it, as far as an end of the connection still matters. */
  ghost predicate Pair(x: nat, y: nat, mx: Message, my: Message, hx: bool, hy: bool, down: seq<Frame>, up: seq<Packet>, c: Connection) {
    && (AtComp(my) ==> hx || AtComp(mx))
    && (c.sending ==>
          forall k :: 0 <= k < |up| && IsRec(up[k], y) && AtRec(my) ==> hx || AtComp(mx) || (AtRec(mx) && RecBefore(up, k, x)))
    && (c.receiving ==>
          && (forall k :: 0 <= k < |down| && IsRel(down[k], y) && AtComp(my) && !hy ==> hx || (AtComp(mx) && Before(down, k, RELEASE, x)))
          && (forall k :: 0 <= k < |down| && IsPub1(down[k], y) && my.qos == 1 ==> hx || Before(down, k, QOS1, x)))
    && (c.sending && c.receiving ==>
          && (forall k :: 0 <= k < |down| && IsPub(down[k], y) && AtRec(my) ==> Ahead(x, mx, hx, down, k, up, |up|))
          && (forall k :: 0 <= k < |up| && IsRec(up[k], y) && AtRec(my) ==> Ahead(x, mx, hx, down, 0, up, k)))
  }

  // Lists of packets that lose their first or gain a last element

  lemma BeforeTail(down: seq<Frame>, k: nat, kind: Kind, id: nat)
    requires down != []
    ensures Before(down, k + 1, kind, id) <==> Is(down[0], kind, id) || Before(down[1..], k, kind, id)
  {
    if Before(down, k + 1, kind, id) {
      var i :| 0 <= i < k + 1 && i < |down| && Is(down[i], kind, id);
      assert i > 0 ==> down[1..][i - 1] == down[i];
    }
    if Before(down[1..], k, kind, id) {
      var i :| 0 <= i < k && i < |down[1..]| && Is(down[1..][i], kind, id);
      assert down[i + 1] == down[1..][i];
    }
    assert Is(down[0], kind, id) ==> Before(down, k + 1, kind, id);
  }

  lemma RecTail(up: seq<Packet>, k: nat, id: nat)
    requires up != []
    ensures RecBefore(up, k + 1, id) <==> IsRec(up[0], id) || RecBefore(up[1..], k, id)
  {
    if RecBefore(up, k + 1, id) {
      var i :| 0 <= i < k + 1 && i < |up| && IsRec(up[i], id);
      assert i > 0 ==> up[1..][i - 1] == up[i];
    }
    if RecBefore(up[1..], k, id) {
      var i :| 0 <= i < k && i < |up[1..]| && IsRec(up[1..][i], id);
      assert up[i + 1] == up[1..][i];
    }
    assert IsRec(up[0], id) ==> RecBefore(up, k + 1, id);
  }

  lemma BeforeMore(down: seq<Frame>, fs: seq<Frame>, k: nat, kind: Kind, id: nat)
    ensures k <= |down| ==> (Before(down + fs, k, kind, id) <==> Before(down, k, kind, id))
    ensures |fs| <= 1 ==>
              (Before(down + fs, |down + fs|, kind, id) <==> Before(down, |down|, kind, id) || (fs != [] && Is(fs[0], kind, id)))
  {
    var all := down + fs;
    forall n: nat | Before(down, n, kind, id) ensures Before(all, n, kind, id) && Before(all, |all|, kind, id) {
      var i :| 0 <= i < n && i < |down| && Is(down[i], kind, id);
      assert all[i] == down[i];
    }
    if k <= |down| && Before(all, k, kind, id) {
      var i :| 0 <= i < k && i < |all| && Is(all[i], kind, id);
      assert all[i] == down[i];
    }
    if Before(all, |all|, kind, id) {
      var i :| 0 <= i < |all| && Is(all[i], kind, id);
      assert i < |down| ==> all[i] == down[i];
      assert i >= |down| ==> all[i] == fs[i - |down|];
    }
    if |fs| == 1 && Is(fs[0], kind, id) {
      assert all[|down|] == fs[0];
    }
  }

  lemma RecMore(up: seq<Packet>, ps: seq<Packet>, k: nat, id: nat)
    ensures k <= |up| ==> (RecBefore(up + ps, k, id) <==> RecBefore(up, k, id))
    ensures |ps| <= 1 ==> (RecBefore(up + ps, |up + ps|, id) <==> RecBefore(up, |up|, id) || (ps != [] && IsRec(ps[0], id)))
  {
    var all := up + ps;
    forall n: nat | RecBefore(up, n, id) ensures RecBefore(all, n, id) && RecBefore(all, |all|, id) {
      var i :| 0 <= i < n && i < |up| && IsRec(up[i], id);
      assert all[i] == up[i];
    }
    if k <= |up| && RecBefore(all, k, id) {
      var i :| 0 <= i < k && i < |all| && IsRec(all[i], id);
      assert all[i] == up[i];
    }
    if RecBefore(all, |all|, id) {
      var i :| 0 <= i < |all| && IsRec(all[i], id);
      assert i < |up| ==> all[i] == up[i];
      assert i >= |up| ==> all[i] == ps[i - |up|];
    }
    if |ps| == 1 && IsRec(ps[0], id) {
      assert all[|up|] == ps[0];
    }
  }

  // The receiver reads a frame

  /** What reading the first frame means for the record with id x. */
  ghost predicate ReadBy(x: nat, m: Message, h: bool, h': bool, f: Frame, ps: seq<Packet>, accepted: bool) {
    && (h ==> h')
    && (accepted ==>
          && (IsPub1(f, x) && m.qos == 1 ==> h')
          && (IsRel(f, x) && AtComp(m) ==> h')
          && (IsPub(f, x) ==> ps != [] && IsRec(ps[0], x)))
    && (ps != [] && IsRec(ps[0], x) ==> IsPub(f, x))
  }

  lemma AheadRead(x: nat, m: Message, h: bool, h': bool, down: seq<Frame>, kd: nat, up: seq<Packet>, ku: nat, ps: seq<Packet>)
    requires down != [] && |ps| <= 1 && ReadBy(x, m, h, h', down[0], ps, true) && ku <= |up|
    requires Ahead(x, m, h, down, kd + 1, up, ku)
    ensures Ahead(x, m, h', down[1..], kd, up + ps, |up + ps|)
    ensures !(IsPub(down[0], x) && AtRec(m)) ==> Ahead(x, m, h', down[1..], kd, up + ps, ku)
  {
    BeforeTail(down, kd, QOS1, x);
    BeforeTail(down, kd, QOS2, x);
    BeforeTail(down, |down[1..]|, RELEASE, x);
    RecMore(up, ps, ku, x);
    if RecBefore(up, ku, x) {
      var i :| 0 <= i < ku && i < |up| && IsRec(up[i], x);
      assert RecBefore(up, |up|, x);
    }
  }

  lemma PairRead(x: nat, y: nat, mx: Message, my: Message, hx: bool, hy: bool, hx': bool, hy': bool,
                 down: seq<Frame>, up: seq<Packet>, ps: seq<Packet>, c: Connection, c': Connection)
    requires mx.qos == my.qos && Pair(x, y, mx, my, hx, hy, down, up, c) && c.receiving && down != [] && |ps| <= 1
    requires c' == c || (c' == c.(receiving := false) && ps == [])
    requires ReadBy(x, mx, hx, hx', down[0], ps, c'.receiving) && ReadBy(y, my, hy, hy', down[0], ps, c'.receiving)
    ensures Pair(x, y, mx, my, hx', hy', down[1..], up + ps, c')
  {
    var down', up' := down[1..], up + ps;
    if c'.sending {
      forall k | 0 <= k < |up'| && IsRec(up'[k], y) && AtRec(my)
        ensures hx' || AtComp(mx) || (AtRec(mx) && RecBefore(up', k, x))
        ensures c'.receiving ==> Ahead(x, mx, hx', down', 0, up', k)
      {
        RecMore(up, ps, if k < |up| then k else |up|, x);
        if k < |up| {
          assert up'[k] == up[k];
          if c'.receiving {
            ReleasedAhead(x, mx, hx, hx', down, up, ps, k);
          }
        } else {
          assert up'[k] == ps[0] && IsPub(down[0], y);
          ReleasedAhead(x, mx, hx, hx', down, up, ps, |up|);
        }
      }
    }
    if c'.receiving {
      forall k | 0 <= k < |down'|
        ensures IsRel(down'[k], y) && AtComp(my) && !hy' ==> hx' || (AtComp(mx) && Before(down', k, RELEASE, x))
        ensures IsPub1(down'[k], y) && my.qos == 1 ==> hx' || Before(down', k, QOS1, x)
        ensures c'.sending && IsPub(down'[k], y) && AtRec(my) ==> Ahead(x, mx, hx', down', k, up', |up'|)
      {
        assert down'[k] == down[k + 1];
        BeforeTail(down, k, RELEASE, x);
        BeforeTail(down, k, QOS1, x);
        if c'.sending && IsPub(down'[k], y) && AtRec(my) {
          AheadRead(x, mx, hx, hx', down, k, up, |up|, ps);
        }
      }
    }
  }

  /** Nothing before the frame that was read: only later stages count. */
  lemma ReleasedAhead(x: nat, m: Message, h: bool, h': bool, down: seq<Frame>, up: seq<Packet>, ps: seq<Packet>, k: nat)
    requires down != [] && |ps| <= 1 && k <= |up| && ReadBy(x, m, h, h', down[0], ps, true)
    requires Ahead(x, m, h, down, 0, up, k)
    ensures Ahead(x, m, h', down[1..], 0, up + ps, k)
  {
    BeforeTail(down, |down[1..]|, RELEASE, x);
    RecMore(up, ps, k, x);
  }

  // The sender reads an answer

  /** What reading the first answer means for the record with id x. */
  ghost predicate AckBy(x: nat, m: Message, m': Message, p: Packet, fs: seq<Frame>, down: seq<Frame>, sent: bool) {
    && m'.qos == m.qos
    && (IsRec(p, x) && AtRec(m) ==> AtComp(m') && forall k :: 0 <= k < |down| ==> !IsRel(down[k], x))
    && (IsRec(p, x) && AtRec(m) && sent ==> fs != [] && IsRel(fs[0], x))
    && (!(IsRec(p, x) && AtRec(m)) ==> m' == m && (fs != [] ==> !IsRel(fs[0], x)))
    && (fs != [] ==> fs[0].packet.Ack?)
  }

  lemma AheadAck(x: nat, m: Message, m': Message, h: bool, down: seq<Frame>, kd: nat, up: seq<Packet>, ku: nat, fs: seq<Frame>)
    requires up != [] && |fs| <= 1 && kd <= |down| && AckBy(x, m, m', up[0], fs, down, true)
    requires Ahead(x, m, h, down, kd, up, ku + 1)
    ensures Ahead(x, m', h, down + fs, kd, up[1..], ku)
  {
    RecTail(up, ku, x);
    BeforeMore(down, fs, kd, QOS1, x);
    BeforeMore(down, fs, kd, QOS2, x);
    BeforeMore(down, fs, kd, RELEASE, x);
  }

  lemma PairAck(x: nat, y: nat, mx: Message, my: Message, mx': Message, my': Message, hx: bool, hy: bool,
                down: seq<Frame>, up: seq<Packet>, fs: seq<Frame>, c: Connection, c': Connection)
    requires x != y && mx.qos == my.qos && Pair(x, y, mx, my, hx, hy, down, up, c) && c.sending && up != [] && |fs| <= 1
    requires c' == c || (c' == c.(sending := false) && fs == [])
    requires AckBy(x, mx, mx', up[0], fs, down, c'.sending) && AckBy(y, my, my', up[0], fs, down, c'.sending)
    requires AtRec(mx) ==> !hx
    ensures Pair(x, y, mx', my', hx, hy, down + fs, up[1..], c')
  {
    var down', up' := down + fs, up[1..];
    if c'.sending {
      forall k | 0 <= k < |up'| && IsRec(up'[k], y) && AtRec(my')
        ensures hx || AtComp(mx') || (AtRec(mx') && RecBefore(up', k, x))
        ensures c'.receiving ==> Ahead(x, mx', hx, down', 0, up', k)
      {
        assert up'[k] == up[k + 1];
        RecTail(up, k, x);
        if c'.receiving {
          AheadAck(x, mx, mx', hx, down, 0, up, k, fs);
        }
      }
    }
    if c'.receiving {
      forall k | 0 <= k < |down'| ensures IsRel(down'[k], y) && AtComp(my') && !hy ==> hx || (AtComp(mx') && Before(down', k, RELEASE, x)) {
        BeforeMore(down, fs, if k < |down| then k else |down|, RELEASE, x);
        if k < |down| {
          assert down'[k] == down[k];
        } else {
          assert down'[k] == fs[0];
        }
      }
      forall k | 0 <= k < |down'|
        ensures IsPub1(down'[k], y) && my'.qos == 1 ==> hx || Before(down', k, QOS1, x)
        ensures c'.sending && IsPub(down'[k], y) && AtRec(my') ==> Ahead(x, mx', hx, down', k, up', |up'|)
      {
        if k < |down| {
          assert down'[k] == down[k];
          BeforeMore(down, fs, k, QOS1, x);
          if c'.sending && IsPub(down'[k], y) && AtRec(my') {
            AheadAck(x, mx, mx', hx, down, k, up, |up'|, fs);
          }
        } else {
          assert down'[k] == fs[0];
        }
      }
    }
  }

  // The sender publishes

  lemma PairOther(x: nat, y: nat, mx: Message, my: Message, hx: bool, hy: bool, down: seq<Frame>, up: seq<Packet>, fs: seq<Frame>,
                  c: Connection, c': Connection)
    requires Pair(x, y, mx, my, hx, hy, down, up, c) && |fs| <= 1 && (fs != [] ==> fs[0].packet.msgId != x && fs[0].packet.msgId != y)
    requires c' == c || c' == c.(sending := false)
    ensures Pair(x, y, mx, my, hx, hy, down + fs, up, c')
  {
    var down' := down + fs;
    forall k | 0 <= k < |down'| ensures k == |down| ==> down'[k] == fs[0] {
      if k < |down| { assert down'[k] == down[k]; }
    }
    forall k: nat, kind: Kind | k <= |down| ensures Before(down', k, kind, x) == Before(down, k, kind, x) {
      BeforeMore(down, fs, k, kind, x);
    }
    BeforeMore(down, fs, 0, RELEASE, x);
  }

  /** A new record comes last, if everything before it is ahead. */
  lemma PairNew(x: nat, z: nat, mx: Message, m: Message, hx: bool, down: seq<Frame>, up: seq<Packet>, fs: seq<Frame>, c: Connection)
    requires x != z && mx.qos == m.qos && (m.qos == 1 || AtRec(m)) && |fs| <= 1 && (fs != [] ==> fs[0].packet.Publish? && fs[0].packet.msgId == z)
    requires forall k :: 0 <= k < |down| ==> !IsPub(down[k], z) && !IsPub1(down[k], z)
    requires forall k :: 0 <= k < |up| ==> !IsRec(up[k], z)
    requires c.receiving && fs != [] ==> Ahead(x, mx, hx, down, |down|, up, |up|)
    ensures Pair(x, z, mx, m, hx, false, down + fs, up, c)
  {
    var down' := down + fs;
    forall k | 0 <= k < |down'| ensures IsPub(down'[k], z) || IsPub1(down'[k], z) ==> k == |down| {
      assert k < |down| ==> down'[k] == down[k];
    }
    BeforeMore(down, fs, |down|, QOS1, x);
    BeforeMore(down, fs, |down|, QOS2, x);
    BeforeMore(down, fs, |down|, RELEASE, x);
  }

  // A connection begins

  /** The frames of a resending pass stand in the order of the records. */
  lemma PairResent(list: seq<Message>, i: nat, j: nat, hx: bool, hy: bool, down: seq<Frame>, c: Connection)
    requires i < j < |list| && DistinctIds(list) && list[i].qos == list[j].qos && ValidOutbound(list[i]) && ValidOutbound(list[j]) && |down| <= |list|
    requires forall k :: 0 <= k < |down| ==> Resend(list[k]) == Some(down[k].packet)
    requires AtComp(list[j]) ==> hx || AtComp(list[i])
    ensures Pair(list[i].msgid, list[j].msgid, list[i], list[j], hx, hy, down, [], c)
  {
    forall k | 0 <= k < |down| ensures down[k].packet.msgId == list[j].msgid ==> k == j {
      assert down[k].packet.msgId == list[k].msgid;
    }
    if j < |down| {
      ResentIs(list[i], down[i]);
      assert forall kind :: Is(down[i], kind, list[i].msgid) ==> Before(down, j, kind, list[i].msgid);
    }
  }

  lemma ResentIs(m: Message, f: Frame)
    requires ValidOutbound(m) && Resend(m) == Some(f.packet)
    ensures m.qos == 1 ==> Is(f, QOS1, m.msgid)
    ensures AtRec(m) ==> Is(f, QOS2, m.msgid)
    ensures AtComp(m) ==> Is(f, RELEASE, m.msgid)
  {
  }

  // The invariant

  function SerialOf(s: System, id: nat): nat {
    SerialAt(s.flight, id)
  }

  ghost predicate HandedId(s: System, id: nat) {
    HandedOver(s.handed, SerialOf(s, id))
  }

  ghost predicate PairOf(s: System, c: Connection, x: nat, y: nat) {
    var ox, oy := Find(s.sender.outbound, x), Find(s.sender.outbound, y);
    ox.Some? && oy.Some? && ox.value.qos == oy.value.qos && SerialOf(s, x) < SerialOf(s, y) ==>
      Pair(x, y, ox.value, oy.value, HandedId(s, x), HandedId(s, y), s.toReceiver, s.toSender, c)
  }

  ghost predicate PairInv(s: System, c: Connection) {
    forall x: nat, y: nat :: PairOf(s, c, x, y)
  }

  /** The record with this id has been handed over or is on its way. */
  ghost predicate OnItsWay(s: System, id: nat) {
    var o := Find(s.sender.outbound, id);
    o.Some? ==> Ahead(id, o.value, HandedId(s, id), s.toReceiver, |s.toReceiver|, s.toSender, |s.toSender|)
  }

  /** No record of this QoS is still to be resent. */
  ghost predicate CaughtUp(s: System, qos: Qos) {
    forall id: nat :: Find(s.sender.outbound, id).Some? && Find(s.sender.outbound, id).value.qos == qos ==> OnItsWay(s, id)
  }

  ghost predicate WholeInv(s: System, c: Connection) {
    c.sending && c.receiving && c.whole ==> forall id: nat :: OnItsWay(s, id)
  }

  /** Whenever a message is handed over, all messages of the same QoS published before it already were. */
  ghost predicate InOrder(s: System) {
    forall k, u: nat :: 0 <= k < |s.handed| && u < s.handed[k].serial && u < |s.published| && s.published[u].qos == s.handed[k].msg.qos ==>
      HandedOver(s.handed[..k], u)
  }

  ghost predicate BaseInv(s: System) {
    Inv(s) && ExchangeInv(s) && AllHanded(s) && InSendOrder(s) && InOrder(s)
  }

  ghost predicate OrderInv(s: System, c: Connection) {
    BaseInv(s) && PairInv(s, c) && WholeInv(s, c)
  }

  // Reading at the receiver

  /** Reading the first frame, for every record in flight. */
  ghost predicate ReadByAll(s: System, s': System, ps: seq<Packet>, accepted: bool)
    requires s.toReceiver != []
  {
    forall x: nat :: Find(s.sender.outbound, x).Some? ==>
      ReadBy(x, Find(s.sender.outbound, x).value, HandedId(s, x), HandedOver(s'.handed, SerialOf(s, x)), s.toReceiver[0], ps, accepted)
  }

  /** A hand-over is that of the record the frame belongs to. */
  ghost predicate HandsOver(s: System, s': System)
    requires s.toReceiver != []
  {
    var f := s.toReceiver[0];
    var o := Find(s.sender.outbound, f.packet.msgId);
    s'.handed != s.handed ==>
      && o.Some? && SerialOf(s, f.packet.msgId) < |s.published|
      && s'.handed == s.handed + [Handover(SerialOf(s, f.packet.msgId), s.published[SerialOf(s, f.packet.msgId)])]
      && ((IsPub1(f, f.packet.msgId) && o.value.qos == 1) ||
          (IsRel(f, f.packet.msgId) && AtComp(o.value) && !HandedId(s, f.packet.msgId)))
  }

  ghost predicate ReadEffect(s: System, s': System, ps: seq<Packet>, accepted: bool)
    requires s.toReceiver != []
  {
    && s'.sender == s.sender && s'.flight == s.flight && s'.published == s.published && s'.retired == s.retired
    && s'.toReceiver == s.toReceiver[1..] && s'.toSender == s.toSender + ps && |ps| <= 1 && (!accepted ==> ps == [])
    && ReadByAll(s, s', ps, accepted) && HandsOver(s, s')
  }

  lemma ReadQos1Effect(s: System, noPending: bool, out: SendResult) returns (ps: seq<Packet>)
    requires Inv(s) && ExchangeInv(s) && CanHandle(s) && s.toReceiver[0].packet.Publish? && s.toReceiver[0].packet.qos == 1
    ensures ReadEffect(s, OnReceiverReads(s, noPending, out), ps, noPending && out != ERROR)
  {
    hide Agrees, TalkInv, FlightInv, HeldInv, HandInv, RetireInv, ExchangeInv, EntryBytes, Wire;
    var f := s.toReceiver[0];
    var w := f.packet.msgId;
    var s' := OnReceiverReads(s, noPending, out);
    HeadFrame(s);
    ExchangeOf(s, w);
    assert IsPub1(f, w);
    ps := if noPending then Offered(Ack(PUBACK, false, w), out) else [];
    if noPending {
      assert s'.handed == s.handed + [Handover(f.serial, s.published[f.serial])];
      forall t: nat ensures HandedOver(s'.handed, t) <==> t == f.serial || HandedOver(s.handed, t) {
        MoreHanded(s.handed, Handover(f.serial, s.published[f.serial]), t);
      }
      assert SerialOf(s, w) == f.serial;
      assert HandsOver(s, s');
    } else {
      assert s'.handed == s.handed;
    }
    assert s'.toSender == s.toSender + ps;
    assert ReadByAll(s, s', ps, noPending && out != ERROR);
  }

  lemma ReadQos2Effect(s: System, noPending: bool, out: SendResult) returns (ps: seq<Packet>)
    requires Inv(s) && CanHandle(s) && s.toReceiver[0].packet.Publish? && s.toReceiver[0].packet.qos == 2
    ensures ReadEffect(s, OnReceiverReads(s, noPending, out), ps, noPending && out != ERROR)
  {
    hide Agrees, TalkInv, FlightInv, FrameInv, HeldInv, HandInv, RetireInv, Wire, ReadBy;
    var f := s.toReceiver[0];
    ReadQos2Finds(s.receiver, f.packet, noPending, out);
    ps := ReceivePublish(s.receiver, f.packet, noPending, out).sent;
    var s' := OnReceiverReads(s, noPending, out);
    assert s'.handed == s.handed && s'.toSender == s.toSender + ps;
    forall x: nat | Find(s.sender.outbound, x).Some?
      ensures ReadBy(x, Find(s.sender.outbound, x).value, HandedId(s, x), HandedOver(s'.handed, SerialOf(s, x)), f, ps, noPending && out != ERROR)
    {
      PubrecFor(x, Find(s.sender.outbound, x).value, HandedId(s, x), f, ps, noPending && out != ERROR);
    }
  }

  lemma PubrecFor(x: nat, m: Message, h: bool, f: Frame, ps: seq<Packet>, accepted: bool)
    requires f.packet.Publish? && f.packet.qos == 2
    requires (accepted ==> ps != []) && (ps != [] ==> ps[0] == Ack(PUBREC, false, f.packet.msgId))
    ensures ReadBy(x, m, h, h, f, ps, accepted)
  {
  }

  lemma ReleaseEffect(s: System, out: SendResult) returns (ps: seq<Packet>)
    requires Inv(s) && CanHandle(s) && s.toReceiver[0].packet.Ack?
    requires Find(s.receiver.inbound, s.toReceiver[0].packet.msgId).Some?
    ensures ReadEffect(s, OnReceiverReads(s, true, out), ps, out != ERROR)
  {
    hide Agrees, TalkInv, FlightInv, FrameInv, HeldInv, HandInv, RetireInv, OnReceiverReads;
    var w := s.toReceiver[0].packet.msgId;
    var s' := OnReceiverReads(s, true, out);
    ps := Offered(Ack(PUBCOMP, false, w), out);
    ReleaseResult(s, out);
    HeldOf(s, w);
    TalksOf(s, w);
    ReleaseTalks(w, Find(s.sender.outbound, w), SerialOf(s, w), Find(s.receiver.inbound, w), HeldAt(s.held, w),
                 s.toReceiver, s.toSender, HandedId(s, w), []);
    FlightQos(s, w);
    RelMeansComp(w, Find(s.sender.outbound, w), SerialOf(s, w), Find(s.receiver.inbound, w), HeldAt(s.held, w),
                 s.toReceiver, s.toSender, HandedId(s, w));
    RecordValid(s, w);
    var h := s'.handed[|s.handed|];
    forall t: nat ensures HandedOver(s'.handed, t) <==> t == h.serial || HandedOver(s.handed, t) {
      MoreHanded(s.handed, h, t);
    }
  }

  ghost predicate ValidAt(s: System, id: nat) {
    Find(s.sender.outbound, id).Some? ==> ValidOutbound(Find(s.sender.outbound, id).value)
  }

  lemma RecordValid(s: System, id: nat)
    requires Inv(s)
    ensures ValidAt(s, id)
  {
    if Find(s.sender.outbound, id).Some? {
      assert OutboundAgrees(Find(s.sender.outbound, id), s.sender.store, id);
    }
  }

  lemma RelMeansComp(id: nat, o: Option<Message>, t: nat, i: Option<Message>, held: Option<nat>,
                     down: seq<Frame>, up: seq<Packet>, handed: bool)
    requires Conversation(id, o, t, i, held, down, up, handed) && down != [] && IsRel(down[0], id) && i.Some?
    ensures o.Some? && o.value.qos == 2 && o.value.next != Some(PUBREC) && held == Some(t)
  {
  }

  /** A PUBREL for nothing that is held, or one that is refused. */
  lemma IgnoredEffect(s: System, noPending: bool, out: SendResult) returns (ps: seq<Packet>)
    requires Inv(s) && CanHandle(s) && s.toReceiver[0].packet.Ack?
    requires Find(s.receiver.inbound, s.toReceiver[0].packet.msgId).None? || !noPending
    ensures ReadEffect(s, OnReceiverReads(s, noPending, out), ps, noPending && out != ERROR)
  {
    hide Agrees, TalkInv, FlightInv, FrameInv, HeldInv, HandInv, RetireInv, Conversation;
    var p := s.toReceiver[0].packet;
    var w := p.msgId;
    var e := HandlePubrel(s.receiver, w, p.dup, noPending, out);
    var s' := OnReceiverReads(s, noPending, out);
    InboundValid(s.receiver, w);
    assert e.s == s.receiver && s'.handed == s.handed;
    ps := e.sent;
    TalksOf(s, w);
    if Find(s.sender.outbound, w).Some? && Find(s.receiver.inbound, w).None? {
      CompHanded(w, Find(s.sender.outbound, w), SerialOf(s, w), HeldAt(s.held, w), s.toReceiver, s.toSender, HandedId(s, w));
    }
    assert s'.toSender == s.toSender + ps;
  }

  lemma CompHanded(id: nat, o: Option<Message>, t: nat, held: Option<nat>, down: seq<Frame>, up: seq<Packet>, handed: bool)
    requires Conversation(id, o, t, None, held, down, up, handed) && o.Some?
    ensures AtComp(o.value) ==> handed
  {
  }

  lemma ReadsEffect(s: System, noPending: bool, out: SendResult) returns (ps: seq<Packet>)
    requires Inv(s) && ExchangeInv(s) && CanHandle(s)
    ensures ReadEffect(s, OnReceiverReads(s, noPending, out), ps, noPending && out != ERROR)
  {
    hide Agrees, TalkInv, FlightInv, HeldInv, HandInv, RetireInv, ExchangeInv, OnReceiverReads, ReadEffect;
    var p := s.toReceiver[0].packet;
    HeadFrame(s);
    if p.Publish? && p.qos == 1 {
      ps := ReadQos1Effect(s, noPending, out);
    } else if p.Publish? {
      ps := ReadQos2Effect(s, noPending, out);
    } else if Find(s.receiver.inbound, p.msgId).Some? && noPending {
      ps := ReleaseEffect(s, out);
    } else {
      ps := IgnoredEffect(s, noPending, out);
    }
  }

  /** What is handed over next comes after all of its kind that were published before it. */
  lemma HandoverInOrder(s: System, s': System, c: Connection, u: nat)
    requires Inv(s) && AllHanded(s) && PairInv(s, c) && c.receiving && s.toReceiver != [] && HandsOver(s, s') && s'.handed != s.handed
    requires var t := SerialOf(s, s.toReceiver[0].packet.msgId); u < t && s.published[u].qos == s.published[t].qos
    ensures HandedOver(s.handed, u)
  {
    hide Agrees, TalkInv, FrameInv, HeldInv, HandInv, PairInv;
    var w := s.toReceiver[0].packet.msgId;
    if u !in s.retired {
      var id: nat :| id in s.flight && s.flight[id] == u;
      NotInFlight(s, id);
      FlightQos(s, id);
      FlightQos(s, w);
      PairAt(s, c, id, w);
      assert !Before(s.toReceiver, 0, RELEASE, id) && !Before(s.toReceiver, 0, QOS1, id);
    }
  }

  lemma PairAt(s: System, c: Connection, x: nat, y: nat)
    requires PairInv(s, c)
    ensures PairOf(s, c, x, y)
  {
  }

  lemma InOrderExtended(s: System, s': System)
    requires InOrder(s) && s'.published == s.published && (s'.handed == s.handed || exists h :: s'.handed == s.handed + [h])
    requires s'.handed != s.handed ==>
               var h := s'.handed[|s.handed|];
               forall u: nat :: u < h.serial && u < |s.published| && s.published[u].qos == h.msg.qos ==> HandedOver(s.handed, u)
    ensures InOrder(s')
  {
    if s'.handed != s.handed {
      var n := |s.handed|;
      assert s'.handed[..n] == s.handed;
      forall k, u: nat | 0 <= k < |s'.handed| && u < s'.handed[k].serial && u < |s.published| && s.published[u].qos == s'.handed[k].msg.qos
        ensures HandedOver(s'.handed[..k], u)
      {
        assert k < n ==> s'.handed[..k] == s.handed[..k] && s'.handed[k] == s.handed[k];
      }
    }
  }

  lemma ReceiverKeepsOrder(s: System, c: Connection, noPending: bool, out: SendResult, c': Connection)
    requires OrderInv(s, c) && c.receiving && CanHandle(s)
    requires c' == if noPending && out != ERROR then c else c.(receiving := false)
    ensures var s' := OnReceiverReads(s, noPending, out);
            PairInv(s', c') && WholeInv(s', c') && InOrder(s')
  {
    hide Inv, ExchangeInv, AllHanded, InSendOrder, InOrder, PairInv, OnReceiverReads, CanHandle, Pair, Ahead, ReadBy;
    var s' := OnReceiverReads(s, noPending, out);
    HeadThere(s);
    var ps := ReadsEffect(s, noPending, out);
    forall x: nat, y: nat ensures PairOf(s', c', x, y) {
      PairAt(s, c, x, y);
      PairStep(s, s', c, c', ps, x, y);
    }
    PairAll(s', c');
    if c'.sending && c'.receiving && c'.whole {
      forall id: nat ensures OnItsWay(s', id) {
        OnItsWayRead(s, s', ps, id);
      }
    }
    HandoverKeepsOrder(s, s', c);
  }

  lemma HeadThere(s: System)
    requires CanHandle(s)
    ensures s.toReceiver != []
  {
  }

  lemma PairAll(s: System, c: Connection)
    requires forall x: nat, y: nat :: PairOf(s, c, x, y)
    ensures PairInv(s, c)
  {
  }

  lemma PairStep(s: System, s': System, c: Connection, c': Connection, ps: seq<Packet>, x: nat, y: nat)
    requires PairOf(s, c, x, y) && c.receiving && s.toReceiver != []
    requires c' == c || (c' == c.(receiving := false) && ps == [])
    requires ReadEffect(s, s', ps, c'.receiving)
    ensures PairOf(s', c', x, y)
  {
    hide Pair, ReadBy, HandsOver;
    var ox, oy := Find(s.sender.outbound, x), Find(s.sender.outbound, y);
    if ox.Some? && oy.Some? && ox.value.qos == oy.value.qos && SerialOf(s, x) < SerialOf(s, y) {
      PairRead(x, y, ox.value, oy.value, HandedId(s, x), HandedId(s, y), HandedId(s', x), HandedId(s', y),
               s.toReceiver, s.toSender, ps, c, c');
    }
  }

  lemma OnItsWayRead(s: System, s': System, ps: seq<Packet>, id: nat)
    requires OnItsWay(s, id) && s.toReceiver != [] && ReadEffect(s, s', ps, true)
    ensures OnItsWay(s', id)
  {
    hide Ahead, ReadBy, HandsOver;
    var o := Find(s.sender.outbound, id);
    if o.Some? {
      AheadRead(id, o.value, HandedId(s, id), HandedId(s', id), s.toReceiver, |s.toReceiver| - 1, s.toSender, |s.toSender|, ps);
    }
  }

  lemma HandoverKeepsOrder(s: System, s': System, c: Connection)
    requires Inv(s) && AllHanded(s) && InOrder(s) && PairInv(s, c) && c.receiving && s.toReceiver != []
    requires HandsOver(s, s') && s'.published == s.published
    ensures InOrder(s')
  {
    hide Inv, InOrder, PairInv, AllHanded;
    if s'.handed != s.handed {
      var t := SerialOf(s, s.toReceiver[0].packet.msgId);
      forall u: nat | u < t && u < |s.published| && s.published[u].qos == s.published[t].qos ensures HandedOver(s.handed, u) {
        HandoverInOrder(s, s', c, u);
      }
    }
    InOrderExtended(s, s');
  }

  // Reading at the sender

  /** Reading the first answer, for every record that stays in flight. */
  ghost predicate AckEffect(s: System, s': System, fs: seq<Frame>, sent: bool)
    requires s.toSender != []
  {
    && s'.handed == s.handed && s'.published == s.published
    && s'.toReceiver == s.toReceiver + fs && s'.toSender == s.toSender[1..] && |fs| <= 1 && (!sent ==> fs == [])
    && forall x: nat :: Find(s'.sender.outbound, x).Some? ==>
         && Find(s.sender.outbound, x).Some? && SerialOf(s', x) == SerialOf(s, x)
         && AckBy(x, Find(s.sender.outbound, x).value, Find(s'.sender.outbound, x).value, s.toSender[0], fs, s.toReceiver, sent)
  }

  lemma AcksEffect(s: System, clock: int, out: SendResult) returns (fs: seq<Frame>)
    requires Inv(s) && s.toSender != []
    ensures AckEffect(s, OnSenderReads(s, clock, out), fs, out != ERROR)
  {
    hide Inv, AckEffect;
    var p := s.toSender[0];
    if p.Ack? && p.kind == PUBREC {
      fs := PubrecEffect(s, clock, out);
    } else {
      fs := [];
      NoPubrecEffect(s, clock, out);
    }
  }

  lemma AckIgnored(x: nat, m: Message, p: Packet, down: seq<Frame>, sent: bool)
    requires !IsRec(p, x)
    ensures AckBy(x, m, m, p, [], down, sent)
  {
  }

  lemma NoPubrecEffect(s: System, clock: int, out: SendResult)
    requires Inv(s) && s.toSender != [] && !(s.toSender[0].Ack? && s.toSender[0].kind == PUBREC)
    ensures AckEffect(s, OnSenderReads(s, clock, out), [], out != ERROR)
  {
    hide Agrees, TalkInv, FlightInv, FrameInv, HeldInv, HandInv, RetireInv, AckBy, Find;
    var p := s.toSender[0];
    var k := IndexOf(s.sender.outbound, p.msgId);
    var s' := OnSenderReads(s, clock, out);
    assert s.toReceiver + [] == s.toReceiver;
    if |s'.sender.outbound| != |s.sender.outbound| {
      assert s'.sender.outbound == Without(s.sender.outbound, k);
      WithoutFinds(s, k);
      RecordOfFind(s, k);
    } else {
      assert s'.sender.outbound == s.sender.outbound && s'.flight == s.flight;
    }
    forall x: nat | Find(s'.sender.outbound, x).Some?
      ensures Find(s.sender.outbound, x) == Find(s'.sender.outbound, x) && SerialOf(s', x) == SerialOf(s, x)
      ensures AckBy(x, Find(s.sender.outbound, x).value, Find(s'.sender.outbound, x).value, p, [], s.toReceiver, out != ERROR)
    {
      AckIgnored(x, Find(s.sender.outbound, x).value, p, s.toReceiver, out != ERROR);
    }
  }

  lemma PubrecEffect(s: System, clock: int, out: SendResult) returns (fs: seq<Frame>)
    requires Inv(s) && s.toSender != [] && s.toSender[0].Ack? && s.toSender[0].kind == PUBREC
    ensures AckEffect(s, OnSenderReads(s, clock, out), fs, out != ERROR)
  {
    hide Agrees, TalkInv, FlightInv, FrameInv, HeldInv, HandInv, RetireInv, Wire, Conversation, AckBy;
    var p := s.toSender[0];
    var w := p.msgId;
    var k := IndexOf(s.sender.outbound, w);
    var e := HandlePubrec(s.sender, w, clock, out);
    var s1 := s.(toSender := s.toSender[1..], sender := e.s);
    var s' := OnSenderReads(s, clock, out);
    FramesForOne(s1, e.sent);
    fs := FramesFor(s1, e.sent);
    assert s.toReceiver + [] == s.toReceiver;
    if e.s != s.sender {
      RecordOfFind(s, k);
      PubrecFinds(s, k, e.s.outbound[k]);
    }
    TalksOf(s, w);
    NoRelYet(w, Find(s.sender.outbound, w), SerialOf(s, w), Find(s.receiver.inbound, w), HeldAt(s.held, w),
             s.toReceiver, s.toSender, HandedId(s, w));
    forall x: nat | Find(s'.sender.outbound, x).Some?
      ensures Find(s.sender.outbound, x).Some? && SerialOf(s', x) == SerialOf(s, x)
      ensures AckBy(x, Find(s.sender.outbound, x).value, Find(s'.sender.outbound, x).value, p, fs, s.toReceiver, out != ERROR)
    {
      PubrelFor(x, Find(s.sender.outbound, x).value, Find(s'.sender.outbound, x).value, p, fs, s.toReceiver, out != ERROR);
    }
  }

  lemma PubrelFor(x: nat, m: Message, m': Message, p: Packet, fs: seq<Frame>, down: seq<Frame>, sent: bool)
    requires p.Ack? && p.kind == PUBREC
    requires p.msgId == x && AtRec(m) ==> m' == m.(next := Some(PUBCOMP), lastTouch := m'.lastTouch) && (sent ==> fs != []) &&
                                          forall k :: 0 <= k < |down| ==> !IsRel(down[k], x)
    requires !(p.msgId == x && AtRec(m)) ==> m' == m && (p.msgId == x ==> fs == [])
    requires fs != [] ==> fs[0].packet == PubrelOf(p.msgId, false)
    ensures AckBy(x, m, m', p, fs, down, sent)
  {
  }

  lemma NoRelYet(id: nat, o: Option<Message>, t: nat, i: Option<Message>, held: Option<nat>,
                 down: seq<Frame>, up: seq<Packet>, handed: bool)
    requires Conversation(id, o, t, i, held, down, up, handed) && up != [] && IsRec(up[0], id)
    ensures o.Some? && AtRec(o.value) ==> forall k :: 0 <= k < |down| ==> !IsRel(down[k], id)
  {
  }

  lemma RecNotHanded(s: System, id: nat)
    requires Inv(s) && Find(s.sender.outbound, id).Some? && AtRec(Find(s.sender.outbound, id).value)
    ensures !HandedId(s, id)
  {
    hide Agrees, FlightInv, FrameInv, HeldInv, HandInv, RetireInv;
    TalksOf(s, id);
  }

  lemma SenderKeepsOrder(s: System, c: Connection, clock: int, out: SendResult, c': Connection)
    requires OrderInv(s, c) && c.sending && s.toSender != []
    requires c' == if out == ERROR then c.(sending := false) else c
    ensures var s' := OnSenderReads(s, clock, out);
            PairInv(s', c') && WholeInv(s', c') && InOrder(s')
  {
    hide Inv, ExchangeInv, AllHanded, InSendOrder, InOrder, PairInv, OnSenderReads, Pair, Ahead, AckBy;
    var s' := OnSenderReads(s, clock, out);
    var fs := AcksEffect(s, clock, out);
    forall x: nat, y: nat ensures PairOf(s', c', x, y) {
      PairAt(s, c, x, y);
      AckStep(s, s', c, c', fs, x, y);
    }
    PairAll(s', c');
    if c'.sending && c'.receiving && c'.whole {
      forall id: nat ensures OnItsWay(s', id) {
        OnItsWayAck(s, s', fs, id);
      }
    }
    InOrderExtended(s, s');
  }

  lemma AckStep(s: System, s': System, c: Connection, c': Connection, fs: seq<Frame>, x: nat, y: nat)
    requires Inv(s) && PairOf(s, c, x, y) && c.sending && s.toSender != []
    requires c' == c || (c' == c.(sending := false) && fs == [])
    requires AckEffect(s, s', fs, c'.sending)
    ensures PairOf(s', c', x, y)
  {
    hide Inv, Pair, AckBy;
    var ox, oy := Find(s.sender.outbound, x), Find(s.sender.outbound, y);
    var ox', oy' := Find(s'.sender.outbound, x), Find(s'.sender.outbound, y);
    if ox'.Some? && oy'.Some? && ox'.value.qos == oy'.value.qos && SerialOf(s', x) < SerialOf(s', y) {
      SameQos(x, ox.value, ox'.value, s.toSender[0], fs, s.toReceiver, c'.sending);
      SameQos(y, oy.value, oy'.value, s.toSender[0], fs, s.toReceiver, c'.sending);
      if AtRec(ox.value) { RecNotHanded(s, x); }
      PairAck(x, y, ox.value, oy.value, ox'.value, oy'.value, HandedId(s, x), HandedId(s, y), s.toReceiver, s.toSender, fs, c, c');
    }
  }

  lemma SameQos(x: nat, m: Message, m': Message, p: Packet, fs: seq<Frame>, down: seq<Frame>, sent: bool)
    requires AckBy(x, m, m', p, fs, down, sent)
    ensures m'.qos == m.qos
  {
  }

  lemma OnItsWayAck(s: System, s': System, fs: seq<Frame>, id: nat)
    requires OnItsWay(s, id) && s.toSender != [] && AckEffect(s, s', fs, true)
    ensures OnItsWay(s', id)
  {
    hide Ahead, AckBy;
    var o, o' := Find(s.sender.outbound, id), Find(s'.sender.outbound, id);
    if o'.Some? {
      AheadAck(id, o.value, o'.value, HandedId(s, id), s.toReceiver, |s.toReceiver|, s.toSender, |s.toSender| - 1, fs);
      AheadLater(id, o'.value, HandedId(s, id), s.toReceiver + fs, |s.toReceiver|, s'.toSender, |s'.toSender|);
    }
  }

  lemma AheadLater(x: nat, m: Message, h: bool, down: seq<Frame>, k: nat, up: seq<Packet>, ku: nat)
    requires k <= |down| && Ahead(x, m, h, down, k, up, ku)
    ensures Ahead(x, m, h, down, |down|, up, ku)
  {
    forall kind | Before(down, k, kind, x) ensures Before(down, |down|, kind, x) {
      var i :| 0 <= i < k && i < |down| && Is(down[i], kind, x);
    }
  }

  // Publishing

  ghost predicate PublishEffect(s: System, s': System, m: Message, fs: seq<Frame>) {
    && s'.handed == s.handed && s'.published == s.published + [Published(m.pub, m.qos, m.retain)]
    && s'.toReceiver == s.toReceiver + fs && s'.toSender == s.toSender
    && |fs| <= 1 && (fs != [] ==> fs[0].packet == PublishOf(m, false))
    && (m.qos == 1 || AtRec(m)) && Find(s.sender.outbound, m.msgid).None?
    && s'.flight == s.flight[m.msgid := |s.published|]
    && (forall id: nat :: Find(s'.sender.outbound, id) == if id == m.msgid then Some(m) else Find(s.sender.outbound, id))
    && (forall id: nat :: Find(s.sender.outbound, id).Some? ==> SerialOf(s, id) < |s.published|)
    && (forall k :: 0 <= k < |s.toReceiver| ==> !IsPub(s.toReceiver[k], m.msgid) && !IsPub1(s.toReceiver[k], m.msgid))
    && (forall k :: 0 <= k < |s.toSender| ==> !IsRec(s.toSender[k], m.msgid))
    && !HandedOver(s.handed, |s.published|)
  }

  lemma PublishesEffect(s: System, pub: Publication, qos: Qos, retain: bool, clock: int, out: SendResult) returns (m: Message, fs: seq<Frame>)
    requires Inv(s) && ExchangeInv(s) && 1 <= qos <= 2 && Fits(pub) && s.sender.msgID <= MAX_MSG_ID
    requires AssignedId(s.sender.msgID, IdSet(s.sender.outbound)) != 0
    ensures PublishEffect(s, OnPublish(s, pub, qos, retain, clock, out), m, fs) && m.qos == qos && (out == ERROR ==> fs == [])
    ensures out != ERROR ==> fs == [Frame(PublishOf(m, false), |s.published|)]
  {
    hide Agrees, TalkInv, FlightInv, FrameInv, HeldInv, HandInv, RetireInv, ExchangeInv, Wire;
    var x := AssignedId(s.sender.msgID, IdSet(s.sender.outbound));
    AssignedIdIsFirstFree(s.sender.msgID, IdSet(s.sender.outbound));
    m := Message(x, qos, retain, FirstStage(qos), pub, clock);
    var e := NewPublish(s.sender, pub, qos, retain, clock, out);
    var s1 := s.(sender := e.s, published := s.published + [Published(pub, qos, retain)], flight := s.flight[x := |s.published|]);
    PublishFinds(s.sender, m);
    FramesForOne(s1, e.sent);
    fs := FramesFor(s1, e.sent);
    NotYetHanded(s);
    TalksOf(s, x);
    ExchangeOf(s, x);
    forall id: nat | Find(s.sender.outbound, id).Some? ensures SerialOf(s, id) < |s.published| {
      FlightQos(s, id);
    }
  }

  lemma PublishKeepsPairs(s: System, s': System, c: Connection, c': Connection, m: Message, fs: seq<Frame>)
    requires PairInv(s, c) && PublishEffect(s, s', m, fs)
    requires c' == c || (c' == c.(sending := false) && fs == [])
    requires c.receiving && fs != [] ==> CaughtUp(s, m.qos)
    ensures PairInv(s', c')
  {
    hide PairInv, Pair, CaughtUp, Ahead, Is;
    forall x: nat, y: nat ensures PairOf(s', c', x, y) {
      PairAt(s, c, x, y);
      var ox, oy := Find(s'.sender.outbound, x), Find(s'.sender.outbound, y);
      if ox.Some? && oy.Some? && ox.value.qos == oy.value.qos && SerialOf(s', x) < SerialOf(s', y) {
        if y == m.msgid {
          if c.receiving && fs != [] { CaughtAt(s, x); }
          PairNew(x, y, ox.value, m, HandedId(s, x), s.toReceiver, s.toSender, fs, c');
        } else {
          PairOther(x, y, ox.value, oy.value, HandedId(s, x), HandedId(s, y), s.toReceiver, s.toSender, fs, c, c');
        }
      }
    }
    PairAll(s', c');
  }

  lemma CaughtAt(s: System, id: nat)
    requires Find(s.sender.outbound, id).Some? && CaughtUp(s, Find(s.sender.outbound, id).value.qos)
    ensures Ahead(id, Find(s.sender.outbound, id).value, HandedId(s, id), s.toReceiver, |s.toReceiver|, s.toSender, |s.toSender|)
  {
  }

  lemma PublishKeepsWhole(s: System, s': System, m: Message, fs: seq<Frame>, id: nat)
    requires PublishEffect(s, s', m, fs) && OnItsWay(s, id) && fs != []
    ensures OnItsWay(s', id)
  {
    hide PairInv;
    var f := fs[0];
    forall kind, x: nat ensures Before(s'.toReceiver, |s'.toReceiver|, kind, x) <==> Before(s.toReceiver, |s.toReceiver|, kind, x) || Is(f, kind, x) {
      BeforeMore(s.toReceiver, fs, 0, kind, x);
    }
  }

  lemma PublishKeepsInOrder(s: System, s': System)
    requires Inv(s) && InOrder(s) && s'.handed == s.handed && s.published <= s'.published
    ensures InOrder(s')
  {
    assert HandInv(s);
    forall k, u: nat | 0 <= k < |s'.handed| && u < s'.handed[k].serial && u < |s'.published| && s'.published[u].qos == s'.handed[k].msg.qos
      ensures HandedOver(s'.handed[..k], u)
    {
      assert s'.published[u] == s.published[u];
    }
  }

  // Connections that end and begin

  predicate SameButTime(o: Option<Message>, o': Option<Message>) {
    (o.None? && o'.None?) || (o.Some? && o'.Some? && o'.value == o.value.(lastTouch := o'.value.lastTouch))
  }

  lemma SameRecordsFind(a: seq<Message>, b: seq<Message>, id: nat)
    requires SameRecords(b, a)
    ensures SameButTime(Find(a, id), Find(b, id))
  {
    var k := IndexOf(a, id);
    if k < |a| {
      FirstAt(b, id, k);
    } else {
      FindNone(b, id);
    }
  }

  lemma FirstAt(list: seq<Message>, id: nat, k: nat)
    requires k < |list| && list[k].msgid == id && forall i :: 0 <= i < k ==> list[i].msgid != id
    ensures IndexOf(list, id) == k
  {
    var f := IndexOf(list, id);
    assert f <= k;
  }

  /** The same records in the same stages; an ended connection carries nothing. */
  lemma ClosedPairs(s: System, s': System, c: Connection)
    requires PairInv(s, c) && s'.handed == s.handed && s'.flight == s.flight
    requires forall id: nat :: SameButTime(Find(s.sender.outbound, id), Find(s'.sender.outbound, id))
    ensures PairInv(s', CLOSED)
  {
    hide PairInv, Find;
    forall x: nat, y: nat ensures PairOf(s', CLOSED, x, y) {
      PairAt(s, c, x, y);
    }
    PairAll(s', CLOSED);
  }

  /** The frames of the pass with which a connection begins. */
  ghost predicate Resent(s: System, n: nat) {
    && s.toSender == [] && |s.toReceiver| == n <= |s.sender.outbound|
    && forall k :: 0 <= k < n ==> Resend(s.sender.outbound[k]) == Some(s.toReceiver[k].packet)
  }

  lemma {:induction false} AllResendsAt(list: seq<Message>, k: nat)
    requires k < |list| && forall m :: m in list ==> Resend(m).Some?
    ensures |AllResends(list)| == |list| && AllResends(list)[k] == Resend(list[k]).value
  {
    AllResendsSize(list);
    assert list == [list[0]] + list[1..];
    if k > 0 {
      assert list[0] in list;
      AllResendsAt(list[1..], k - 1);
    }
  }

  lemma PassResends(s: Session, t: Policy, outs: seq<SendResult>)
    requires t.regardless && forall m :: m in s.outbound ==> Resend(m).Some?
    ensures var pass := Retries(s, t, outs);
            && SameRecords(pass.s.outbound, s.outbound) && |pass.sent| <= |s.outbound|
            && forall k :: 0 <= k < |pass.sent| ==> Resend(s.outbound[k]) == Some(pass.sent[k])
  {
    hide Resend;
    if t.ready {
      ResendsAreAPrefix(s, 0, t, outs);
      assert s.outbound[0..] == s.outbound;
      AllResendsSize(s.outbound);
      forall k | 0 <= k < |RetryFrom(s, 0, t, outs).sent| ensures Resend(s.outbound[k]) == Some(RetryFrom(s, 0, t, outs).sent[k]) {
        AllResendsAt(s.outbound, k);
        assert s.outbound[k] in s.outbound;
      }
    }
  }

  lemma AllResendable(s: System)
    requires Inv(s)
    ensures forall m :: m in s.sender.outbound ==> Resend(m).Some?
  {
    forall m | m in s.sender.outbound ensures Resend(m).Some? {
      var k :| 0 <= k < |s.sender.outbound| && s.sender.outbound[k] == m;
      RecordOfFind(s, k);
    }
  }

  lemma ReconnectResends(s: System, t: Policy, outs: seq<SendResult>)
    requires Inv(s) && t.regardless
    ensures var s' := OnRetries(Reopened(s), t, outs);
            Resent(s', |Retries(Reconnected(s.sender), t, outs).sent|) && SameRecords(s'.sender.outbound, Reconnected(s.sender).outbound)
    ensures |OnRetries(Reopened(s), t, outs).sender.outbound| == |s.sender.outbound|
  {
    hide Inv, Retries, Resend, Reconnected, AllResends, SameRecords;
    var a := Reconnected(s.sender);
    ReopenedKeepsInv(s);
    AllResendable(Reopened(s));
    PassResends(a, t, outs);
    SameLength(Retries(a, t, outs).s.outbound, a.outbound);
    SendOnEmptyLink(Reopened(s), Retries(a, t, outs).s, Retries(a, t, outs).sent);
    StillResent(a.outbound, Retries(a, t, outs).s.outbound, Retries(a, t, outs).sent);
  }

  lemma SameLength(a: seq<Message>, b: seq<Message>)
    requires SameRecords(a, b)
    ensures |a| == |b|
  {
  }

  lemma SendOnEmptyLink(s: System, a: Session, ps: seq<Packet>)
    requires s.toReceiver == []
    ensures var s' := Send(s.(sender := a), ps);
            |s'.toReceiver| == |ps| && s'.toSender == s.toSender && forall k :: 0 <= k < |ps| ==> s'.toReceiver[k].packet == ps[k]
  {
    assert [] + FramesFor(s.(sender := a), ps) == FramesFor(s.(sender := a), ps);
  }

  lemma StillResent(a: seq<Message>, b: seq<Message>, sent: seq<Packet>)
    requires SameRecords(b, a) && |sent| <= |a| && forall k :: 0 <= k < |sent| ==> Resend(a[k]) == Some(sent[k])
    ensures forall k :: 0 <= k < |sent| ==> Resend(b[k]) == Some(sent[k])
  {
  }

  lemma ResentPairs(s: System, c: Connection, n: nat)
    requires Inv(s) && InSendOrder(s) && Resent(s, n) && PairInv(s, CLOSED)
    ensures PairInv(s, c)
  {
    hide Inv, PairInv, Pair, InSendOrder, Resend;
    var list := s.sender.outbound;
    forall x: nat, y: nat ensures PairOf(s, c, x, y) {
      var ox, oy := Find(list, x), Find(list, y);
      if ox.Some? && oy.Some? && ox.value.qos == oy.value.qos && SerialOf(s, x) < SerialOf(s, y) {
        var i, j := IndexOf(list, x), IndexOf(list, y);
        PositionsInOrder(s, i, j);
        RecordOfFind(s, i);
        RecordOfFind(s, j);
        SenderAgrees(s);
        OutboundDistinct(s.sender);
        PairAt(s, CLOSED, x, y);
        StageOrder(x, y, ox.value, oy.value, HandedId(s, x), HandedId(s, y), s.toReceiver, s.toSender);
        PairResent(list, i, j, HandedId(s, x), HandedId(s, y), s.toReceiver, c);
      }
    }
    PairAll(s, c);
  }

  lemma PositionsInOrder(s: System, i: nat, j: nat)
    requires InSendOrder(s) && i < |s.sender.outbound| && j < |s.sender.outbound|
    requires SerialOf(s, s.sender.outbound[i].msgid) < SerialOf(s, s.sender.outbound[j].msgid)
    ensures i < j
  {
  }

  lemma StageOrder(x: nat, y: nat, mx: Message, my: Message, hx: bool, hy: bool, down: seq<Frame>, up: seq<Packet>)
    requires Pair(x, y, mx, my, hx, hy, down, up, CLOSED)
    ensures AtComp(my) ==> hx || AtComp(mx)
  {
  }

  /** What a pass has transmitted is on its way, and of what it left behind only what was handed over. */
  lemma ResentOnItsWay(s: System, n: nat, k: nat)
    requires Inv(s) && Resent(s, n) && k < |s.sender.outbound|
    ensures OnItsWay(s, s.sender.outbound[k].msgid) <==> k < n || HandedId(s, s.sender.outbound[k].msgid)
  {
    hide TalkInv, FlightInv, FrameInv, HeldInv, HandInv, RetireInv;
    var list := s.sender.outbound;
    RecordOfFind(s, k);
    if k < n {
      ResentIs(list[k], s.toReceiver[k]);
      assert forall kind :: Is(s.toReceiver[k], kind, list[k].msgid) ==> Before(s.toReceiver, n, kind, list[k].msgid);
    } else {
      OutboundDistinct(s.sender);
      forall i | 0 <= i < n ensures s.toReceiver[i].packet.msgId != list[k].msgid {
        assert s.toReceiver[i].packet.msgId == list[i].msgid;
      }
    }
  }
}
