/** The client record, updated in place by the protocol code.  Message data is kept once, in
    reference-counted publications; every operation is proved to do to the session exactly what its
    specification in Sessions says, and to keep every publication referenced exactly once. */
module ClientRecord {
  import opened Bytes
  import opened Packets
  import opened Records
  import opened MessageIds
  import opened SendOrder
  import opened Sessions
  import PersistedList

  /** Message data, allocated once and shared by reference. */
  class Publications {
    const topic: CString
    const payload: seq<byte>
    var refcount: int

    constructor (topic: CString, payload: seq<byte>)
      ensures this.topic == topic && this.payload == payload && refcount == 1
    {
      this.topic := topic;
      this.payload := payload;
      refcount := 1;
    }
  }

  /** The data of a QoS 0 message whose packet a socket has not taken in full. */
  datatype PendingCopy = PendingCopy(socket: int, publish: Publications)

  datatype Messages =
    Messages(msgid: MsgId, qos: Qos, retain: bool, next: Option<AckKind>, publish: Publications, lastTouch: int)

  function PubAt(p: Publications): Publication {
    Publication(p.topic, p.payload)
  }

  function AbsMessage(m: Messages): Message {
    Message(m.msgid, m.qos, m.retain, m.next, PubAt(m.publish), m.lastTouch)
  }

  function AbsList(list: seq<Messages>): (r: seq<Message>)
    ensures |r| == |list| && forall i :: 0 <= i < |list| ==> r[i] == AbsMessage(list[i])
  {
    seq(|list|, i requires 0 <= i < |list| => AbsMessage(list[i]))
  }

  ghost function Refs(list: seq<Messages>): (r: seq<Publications>)
    ensures |r| == |list| && forall i :: 0 <= i < |list| ==> r[i] == list[i].publish
  {
    seq(|list|, i requires 0 <= i < |list| => list[i].publish)
  }

  ghost function CopyRefs(list: seq<PendingCopy>): (r: seq<Publications>)
    ensures |r| == |list| && forall i :: 0 <= i < |list| ==> r[i] == list[i].publish
  {
    seq(|list|, i requires 0 <= i < |list| => list[i].publish)
  }

  /** The copies that are still needed. */
  function Unfinished(list: seq<PendingCopy>, noPending: int -> bool): seq<PendingCopy> {
    if list == [] then []
    else (if noPending(list[0].socket) then [] else [list[0]]) + Unfinished(list[1..], noPending)
  }

  lemma RemoveOne<T>(s: seq<T>, k: nat)
    requires k < |s|
    ensures multiset(s[..k] + s[k + 1..]) == multiset(s) - multiset{s[k]}
  {
    assert s == s[..k] + ([s[k]] + s[k + 1..]);
  }

  lemma AbsWithout(list: seq<Messages>, k: nat)
    requires k < |list|
    ensures AbsList(list[..k] + list[k + 1..]) == Without(AbsList(list), k)
  {
  }

  lemma AbsAppend(list: seq<Messages>, m: Messages)
    ensures AbsList(list + [m]) == AbsList(list) + [AbsMessage(m)]
  {
  }

  lemma AbsReplaced(list: seq<Messages>, k: nat, m: Messages)
    requires k < |list|
    ensures AbsList(list[k := m]) == AbsList(list)[k := AbsMessage(m)]
  {
  }

  // Ownership of publications

  /** Stored publications are in one-to-one correspondence with the references to them. */
  ghost predicate Balanced(pubs: seq<Publications>, outbound: seq<Messages>, inbound: seq<Messages>, pending: seq<PendingCopy>) {
    multiset(pubs) == multiset(Refs(outbound)) + multiset(Refs(inbound)) + multiset(CopyRefs(pending))
  }

  ghost predicate Unshared(pubs: seq<Publications>)
    reads pubs
  {
    forall p :: p in pubs ==> multiset(pubs)[p] == 1 && p.refcount == 1
  }

  lemma UnsharedAppend(pubs: seq<Publications>, p: Publications)
    requires Unshared(pubs) && p !in pubs && p.refcount == 1
    ensures Unshared(pubs + [p])
  {
    assert p !in multiset(pubs);
    forall q | q in pubs + [p] ensures multiset(pubs + [p])[q] == 1 && q.refcount == 1 {
      assert q == p || q in pubs;
    }
  }

  lemma UnsharedWithout(pubs: seq<Publications>, rest: seq<Publications>, p: Publications)
    requires Unshared(pubs) && p in pubs && multiset(rest) == multiset(pubs) - multiset{p}
    ensures Unshared(rest) && p !in rest && forall q :: q in rest ==> q in pubs
  {
    forall q | q in rest ensures q in pubs && q != p && multiset(rest)[q] == 1 && q.refcount == 1 {
      assert q in multiset(rest);
      assert q in multiset(pubs);
    }
  }

  lemma Referenced(pubs: seq<Publications>, outbound: seq<Messages>, inbound: seq<Messages>, pending: seq<PendingCopy>)
    requires Balanced(pubs, outbound, inbound, pending)
    ensures forall k :: 0 <= k < |outbound| ==> outbound[k].publish in pubs
    ensures forall k :: 0 <= k < |inbound| ==> inbound[k].publish in pubs
    ensures forall k :: 0 <= k < |pending| ==> pending[k].publish in pubs
  {
    forall p | p in Refs(outbound) || p in Refs(inbound) || p in CopyRefs(pending) ensures p in pubs {
      assert p in multiset(pubs);
    }
    assert forall k :: 0 <= k < |outbound| ==> Refs(outbound)[k] == outbound[k].publish;
    assert forall k :: 0 <= k < |inbound| ==> Refs(inbound)[k] == inbound[k].publish;
    assert forall k :: 0 <= k < |pending| ==> CopyRefs(pending)[k] == pending[k].publish;
  }

  lemma BalancedSplice(pubs: seq<Publications>, outbound: seq<Messages>, inbound: seq<Messages>, pending: seq<PendingCopy>, k: nat, m: Messages)
    requires Balanced(pubs, outbound, inbound, pending) && k <= |outbound|
    ensures Balanced(pubs + [m.publish], outbound[..k] + [m] + outbound[k..], inbound, pending)
  {
    var refs := Refs(outbound);
    assert Refs(outbound[..k] + [m] + outbound[k..]) == refs[..k] + [m.publish] + refs[k..];
    assert refs == refs[..k] + refs[k..];
  }

  lemma BalancedHold(pubs: seq<Publications>, outbound: seq<Messages>, inbound: seq<Messages>, pending: seq<PendingCopy>, m: Messages)
    requires Balanced(pubs, outbound, inbound, pending)
    ensures Balanced(pubs + [m.publish], outbound, inbound + [m], pending)
  {
    assert Refs(inbound + [m]) == Refs(inbound) + [m.publish];
  }

  lemma BalancedReplace(pubs: seq<Publications>, rest: seq<Publications>, outbound: seq<Messages>, inbound: seq<Messages>,
                        pending: seq<PendingCopy>, k: nat, m: Messages)
    requires Balanced(pubs, outbound, inbound, pending) && k < |inbound|
    requires multiset(rest) == multiset(pubs + [m.publish]) - multiset{inbound[k].publish}
    ensures Balanced(rest, outbound, inbound[k := m], pending)
  {
    var refs := Refs(inbound);
    assert Refs(inbound[k := m]) == refs[k := m.publish];
    assert inbound[k].publish == refs[k] && refs[k] in multiset(refs);
  }

  lemma BalancedRetire(pubs: seq<Publications>, rest: seq<Publications>, outbound: seq<Messages>, inbound: seq<Messages>,
                       pending: seq<PendingCopy>, k: nat)
    requires Balanced(pubs, outbound, inbound, pending) && k < |outbound|
    requires multiset(rest) == multiset(pubs) - multiset{outbound[k].publish}
    ensures Balanced(rest, outbound[..k] + outbound[k + 1..], inbound, pending)
  {
    var refs := Refs(outbound);
    RemoveOne(refs, k);
    assert Refs(outbound[..k] + outbound[k + 1..]) == refs[..k] + refs[k + 1..];
    assert refs[k] in multiset(refs);
  }

  lemma BalancedRelease(pubs: seq<Publications>, rest: seq<Publications>, outbound: seq<Messages>, inbound: seq<Messages>,
                        pending: seq<PendingCopy>, k: nat)
    requires Balanced(pubs, outbound, inbound, pending) && k < |inbound|
    requires multiset(rest) == multiset(pubs) - multiset{inbound[k].publish}
    ensures Balanced(rest, outbound, inbound[..k] + inbound[k + 1..], pending)
  {
    var refs := Refs(inbound);
    RemoveOne(refs, k);
    assert Refs(inbound[..k] + inbound[k + 1..]) == refs[..k] + refs[k + 1..];
    assert refs[k] in multiset(refs);
  }

  lemma BalancedPending(pubs: seq<Publications>, outbound: seq<Messages>, inbound: seq<Messages>, pending: seq<PendingCopy>, c: PendingCopy)
    requires Balanced(pubs, outbound, inbound, pending)
    ensures Balanced(pubs + [c.publish], outbound, inbound, pending + [c])
  {
    assert CopyRefs(pending + [c]) == CopyRefs(pending) + [c.publish];
  }

  lemma BalancedWritten(pubs: seq<Publications>, rest: seq<Publications>, outbound: seq<Messages>, inbound: seq<Messages>,
                        pending: seq<PendingCopy>, k: nat)
    requires Balanced(pubs, outbound, inbound, pending) && k < |pending|
    requires multiset(rest) == multiset(pubs) - multiset{pending[k].publish}
    ensures Balanced(rest, outbound, inbound, pending[..k] + pending[k + 1..])
  {
    var refs := CopyRefs(pending);
    RemoveOne(refs, k);
    assert CopyRefs(pending[..k] + pending[k + 1..]) == refs[..k] + refs[k + 1..];
    assert refs[k] in multiset(refs);
  }

  lemma BalancedUpdate(pubs: seq<Publications>, outbound: seq<Messages>, inbound: seq<Messages>, pending: seq<PendingCopy>, k: nat, m: Messages)
    requires Balanced(pubs, outbound, inbound, pending) && k < |outbound| && m.publish == outbound[k].publish
    ensures Balanced(pubs, outbound[k := m], inbound, pending)
  {
    assert Refs(outbound[k := m]) == Refs(outbound);
  }

  class Client {
    var outboundMsgs: seq<Messages>
    var inboundMsgs: seq<Messages>
    var msgID: nat
    var store: Store
    var messageQueue: seq<QueueEntry>
    var qentrySeqno: nat
    var publications: seq<Publications>
    var socket: int
    var pendingWrites: seq<PendingCopy>

    function Abs(): Session
      reads this
    {
      Session(AbsList(outboundMsgs), AbsList(inboundMsgs), msgID, store, messageQueue, qentrySeqno)
    }

    /** Every stored publication has exactly one reference to it, and no reference is left without its data. */
    ghost predicate Owned()
      reads this, publications
    {
      Balanced(publications, outboundMsgs, inboundMsgs, pendingWrites) && Unshared(publications)
    }

    constructor ()
      ensures Abs() == EMPTY_SESSION && Owned() && publications == []
    {
      outboundMsgs, inboundMsgs, messageQueue, publications, pendingWrites := [], [], [], [], [];
      msgID, qentrySeqno, socket := 0, 0, 0;
      store := map[];
    }

    /** Linear search by message id; k is the list length if there is none. */
    static method FindMessage(list: seq<Messages>, id: nat) returns (k: nat)
      ensures k == IndexOf(AbsList(list), id)
    {
      k := 0;
      while k < |list| && list[k].msgid != id
        invariant 0 <= k <= |list|
        invariant forall i :: 0 <= i < k ==> list[i].msgid != id
      {
        k := k + 1;
      }
      ghost var f := IndexOf(AbsList(list), id);
      assert f < |list| ==> AbsList(list)[f].msgid == list[f].msgid;
    }

    /** The next id in cyclic order that is not in flight, or 0.  From counter 0 the search ends only
        if there is a free id. */
    method AssignMsgId() returns (msgid: nat)
      requires msgID <= MAX_MSG_ID
      requires msgID == 0 ==> !AllOthersUsed(0, IdSet(Abs().outbound))
      modifies this`msgID
      ensures msgid == AssignedId(old(msgID), IdSet(old(Abs().outbound)))
      ensures msgID == if msgid == 0 then old(msgID) else msgid
    {
      hide CyclicId, IdSet, IndexOf;
      ghost var used := IdSet(Abs().outbound);
      var start_msgid := msgID;
      ghost var bound: nat := MAX_MSG_ID;
      if start_msgid == 0 {
        ghost var free :| 1 <= free <= MAX_MSG_ID && free !in used;
        bound := CyclicIdReachesAll(0, free);
      }
      msgid := NextId(start_msgid);
      CyclicIdSteps(start_msgid, 1);
      ghost var k := 1;
      var found := FindMessage(outboundMsgs, msgid);
      UsedIds(outboundMsgs, msgid);
      while found < |outboundMsgs|
        invariant msgID == start_msgid
        invariant 1 <= k <= bound && k <= ProbeLimit(start_msgid) && msgid == CyclicId(start_msgid, k)
        invariant found < |outboundMsgs| <==> msgid in used
        invariant AssignedId(start_msgid, used) == ProbeFrom(start_msgid, used, k)
        decreases MAX_MSG_ID - k
      {
        CyclicIdSteps(start_msgid, k);
        msgid := NextId(msgid);
        k := k + 1;
        if msgid == start_msgid {
          RoundTrip(start_msgid, k);
          msgid := 0;
          break;
        }
        if k > ProbeLimit(start_msgid) {
          AfterLastProbe(start_msgid, k);
          assert false;
        }
        found := FindMessage(outboundMsgs, msgid);
        UsedIds(outboundMsgs, msgid);
      }
      if msgid != 0 {
        msgID := msgid;
      }
    }

    // Publications

    /** Stores message data; the caller takes the one reference. */
    method StorePublication(topic: CString, payload: seq<byte>) returns (p: Publications)
      modifies this`publications
      ensures fresh(p) && p.refcount == 1 && p.topic == topic && p.payload == payload
      ensures publications == old(publications) + [p]
    {
      p := new Publications(topic, payload);
      publications := publications + [p];
    }

    /** Gives up a reference; the last one drops the data. */
    method RemovePublication(p: Publications)
      requires p in publications
      modifies this`publications, p
      ensures p.refcount == old(p.refcount) - 1
      ensures multiset(publications) == old(multiset(publications)) - (if p.refcount == 0 then multiset{p} else multiset{})
    {
      p.refcount := p.refcount - 1;
      if p.refcount == 0 {
        DropPublication(p);
      }
    }

    /** Gives up the only reference there is. */
    method Discard(p: Publications)
      requires p in publications && Unshared(publications)
      modifies this`publications, p
      ensures multiset(publications) == old(multiset(publications)) - multiset{p}
      ensures Unshared(publications) && forall q :: q in publications ==> q in old(publications)
    {
      ghost var before := publications;
      assert multiset(publications)[p] == 1;
      RemovePublication(p);
      forall q | q in publications ensures q in before && multiset(publications)[q] == 1 && q.refcount == 1 {
        assert q in multiset(publications);
        assert q != p && q in multiset(before);
      }
    }

    /** Unlinks stored data without giving up the reference count. */
    method DropPublication(p: Publications)
      requires p in publications
      modifies this`publications
      ensures multiset(publications) == old(multiset(publications)) - multiset{p}
    {
      var k := 0;
      while publications[k] != p
        invariant 0 <= k < |publications| && p in publications[k..]
        invariant publications == old(publications)
        decreases |publications| - k
      {
        assert publications[k..] == [publications[k]] + publications[k + 1..];
        k := k + 1;
      }
      RemoveOne(publications, k);
      publications := publications[..k] + publications[k + 1..];
    }

    // Outbound flows

    /** Stores a message for retries at the end of the outbound list. */
    method AddOutbound(pub: Publication, qos: Qos, retain: bool, id: MsgId, clock: int)
      requires Owned()
      modifies this`outboundMsgs, this`publications
      ensures Owned() && forall p :: p in publications ==> p in old(publications) || fresh(p)
      ensures AbsList(outboundMsgs) == AbsList(old(outboundMsgs)) + [Message(id, qos, retain, FirstStage(qos), pub, clock)]
    {
      hide Balanced, Unshared;
      ghost var before := publications;
      var p := StorePublication(pub.topic, pub.payload);
      UnsharedAppend(before, p);
      var m := Messages(id, qos, retain, FirstStage(qos), p, clock);
      BalancedSplice(before, outboundMsgs, inboundMsgs, pendingWrites, |outboundMsgs|, m);
      AbsAppend(outboundMsgs, m);
      assert outboundMsgs[..|outboundMsgs|] + [m] + outboundMsgs[|outboundMsgs|..] == outboundMsgs + [m];
      outboundMsgs := outboundMsgs + [m];
    }

    /** Keeps a copy of a QoS 0 message until its packet is written in full. */
    method StoreQoS0(pub: Publication)
      requires Owned()
      modifies this`pendingWrites, this`publications
      ensures Owned() && forall p :: p in publications ==> p in old(publications) || fresh(p)
      ensures |pendingWrites| == |old(pendingWrites)| + 1 && old(pendingWrites) <= pendingWrites
      ensures pendingWrites[|old(pendingWrites)|].socket == socket && PubAt(pendingWrites[|old(pendingWrites)|].publish) == pub
    {
      hide Balanced, Unshared;
      ghost var before := publications;
      var p := StorePublication(pub.topic, pub.payload);
      UnsharedAppend(before, p);
      BalancedPending(before, outboundMsgs, inboundMsgs, pendingWrites, PendingCopy(socket, p));
      pendingWrites := pendingWrites + [PendingCopy(socket, p)];
    }

    method StartPublish(pub: Publication, qos: Qos, retain: bool, id: MsgId, clock: int, out: SendResult)
        returns (sent: seq<Packet>)
      requires Owned()
      modifies this
      ensures Owned() && forall p :: p in publications ==> p in old(publications) || fresh(p)
      ensures qos > 0 ==> Effect(Abs(), sent, out) == Sessions.StartPublish(old(Abs()), pub, qos, retain, id, clock, out)
      ensures socket == old(socket) && (qos > 0 ==> pendingWrites == old(pendingWrites))
      ensures qos == 0 ==>
                && Abs() == old(Abs()) && sent == Offered(Publish(false, 0, retain, 0, pub.topic, pub.payload), out)
                && old(pendingWrites) <= pendingWrites
                && |pendingWrites| == |old(pendingWrites)| + (if out == INTERRUPTED then 1 else 0)
                && (out == INTERRUPTED ==> var c := pendingWrites[|old(pendingWrites)|]; c.socket == socket && PubAt(c.publish) == pub)
    {
      hide Wire, Balanced, Unshared;
      if qos > 0 {
        AddOutbound(pub, qos, retain, id, clock);
        var packet := Publish(false, qos, retain, id, pub.topic, pub.payload);
        store := store[SentKey(id) := Wire(packet)];
        sent := Offered(packet, out);
      } else {
        sent := Offered(Publish(false, 0, retain, 0, pub.topic, pub.payload), out);
        if out == INTERRUPTED {
          StoreQoS0(pub);
        }
      }
    }

    /** A publish call at QoS 1 or 2.  With fewer messages in flight than the limit of the callers'
        flow control, an id is always found. */
    method PublishMessage(pub: Publication, qos: Qos, retain: bool, clock: int, out: SendResult)
        returns (sent: seq<Packet>, msgid: nat)
      requires Owned() && 1 <= qos <= 2 && msgID <= MAX_MSG_ID && |outboundMsgs| < PUBLISH_LIMIT
      modifies this
      ensures Owned() && pendingWrites == old(pendingWrites)
      ensures 1 <= msgid <= MAX_MSG_ID && Effect(Abs(), sent, out) == NewPublish(old(Abs()), pub, qos, retain, clock, out)
      ensures msgid !in IdSet(old(Abs().outbound)) && msgID == msgid
    {
      ghost var used := IdSet(Abs().outbound);
      IdSetSize(Abs().outbound);
      AssignedIdExists(msgID, used);
      AssignedIdIsFirstFree(msgID, used);
      if msgID == 0 {
        AssignedIdIsFirstFree(0, used);
      }
      msgid := AssignMsgId();
      sent := StartPublish(pub, qos, retain, msgid, clock, out);
    }

    /** Drops the record at position k of the outbound list and its publication. */
    method RemoveOutbound(k: nat)
      requires Owned() && k < |outboundMsgs|
      modifies this`outboundMsgs, this`publications, publications
      ensures Owned() && forall p :: p in publications ==> p in old(publications)
      ensures AbsList(outboundMsgs) == Without(old(AbsList(outboundMsgs)), k)
    {
      hide Balanced, Unshared;
      ghost var before := publications;
      Referenced(publications, outboundMsgs, inboundMsgs, pendingWrites);
      Discard(outboundMsgs[k].publish);
      BalancedRetire(before, publications, outboundMsgs, inboundMsgs, pendingWrites, k);
      AbsWithout(outboundMsgs, k);
      outboundMsgs := outboundMsgs[..k] + outboundMsgs[k + 1..];
    }

    method HandlePubacks(id: MsgId)
      requires Owned()
      modifies this, publications
      ensures Owned() && forall p :: p in publications ==> p in old(publications)
      ensures Abs() == HandlePuback(old(Abs()), id) && pendingWrites == old(pendingWrites)
    {
      hide Balanced, Unshared, IndexOf, AbsList;
      var k := FindMessage(outboundMsgs, id);
      if k < |outboundMsgs| && outboundMsgs[k].qos == 1 {
        store := store - {SentKey(id)};
        RemoveOutbound(k);
      }
    }

    method HandlePubrecs(id: MsgId, clock: int, out: SendResult) returns (sent: seq<Packet>, rc: SendResult)
      requires Owned()
      modifies this
      ensures Owned() && publications == old(publications) && pendingWrites == old(pendingWrites)
      ensures Effect(Abs(), sent, rc) == HandlePubrec(old(Abs()), id, clock, out)
    {
      hide Wire;
      sent, rc := [], COMPLETE;
      var k := FindMessage(outboundMsgs, id);
      if k < |outboundMsgs| && outboundMsgs[k].qos == 2 && outboundMsgs[k].next == Some(PUBREC) {
        store := store[PubrelKey(id) := Wire(PubrelOf(id, false))];
        sent, rc := Offered(PubrelOf(id, false), out), out;
        SetOutbound(k, outboundMsgs[k].(next := Some(PUBCOMP), lastTouch := clock));
      }
    }

    /** Updates a record in place. */
    method SetOutbound(k: nat, m: Messages)
      requires Owned() && k < |outboundMsgs| && m.publish == outboundMsgs[k].publish
      modifies this`outboundMsgs
      ensures Owned()
      ensures AbsList(outboundMsgs) == old(AbsList(outboundMsgs))[k := AbsMessage(m)]
    {
      hide Balanced, Unshared;
      BalancedUpdate(publications, outboundMsgs, inboundMsgs, pendingWrites, k, m);
      AbsReplaced(outboundMsgs, k, m);
      outboundMsgs := outboundMsgs[k := m];
    }

    method HandlePubcomps(id: MsgId)
      requires Owned()
      modifies this, publications
      ensures Owned() && forall p :: p in publications ==> p in old(publications)
      ensures Abs() == HandlePubcomp(old(Abs()), id) && pendingWrites == old(pendingWrites)
    {
      hide Balanced, Unshared, IndexOf, AbsList;
      var k := FindMessage(outboundMsgs, id);
      if k < |outboundMsgs| && outboundMsgs[k].qos == 2 && outboundMsgs[k].next == Some(PUBCOMP) {
        store := store - {SentKey(id)};
        store := store - {PubrelKey(id)};
        assert store == old(store) - {SentKey(id), PubrelKey(id)};
        RemoveOutbound(k);
      }
    }

    // Inbound flows

    /** Passes a message to the application's queue, which is persisted too. */
    method ProcessPublication(pub: Publication, qos: Qos, retain: bool, dup: bool, id: MsgId)
      requires Fits(pub)
      modifies this`messageQueue, this`qentrySeqno, this`store
      ensures Abs() == Sessions.ProcessPublication(old(Abs()), pub, qos, retain, dup, id)
    {
      hide EntryBytes;
      qentrySeqno := qentrySeqno + 1;
      var qe := QueueEntry(qentrySeqno, pub, qos, retain, qos != 2 && dup, id);
      messageQueue := messageQueue + [qe];
      store := store[QueueKey(qe.seqno) := EntryBytes(qe)];
    }

    /** Holds a QoS 2 message for its PUBREL; an earlier one with the same id is discarded. */
    method HoldMessage(p: Packet)
      requires Owned() && p.Publish?
      modifies this`inboundMsgs, this`publications, publications
      ensures Owned() && forall q :: q in publications ==> q in old(publications) || fresh(q)
      ensures AbsList(inboundMsgs) == Hold(old(AbsList(inboundMsgs)), Message(p.msgId, 2, p.retain, Some(PUBREL), PubOf(p), 0))
    {
      hide Balanced, Unshared, AbsList, Refs, IndexOf;
      ghost var before := publications;
      var publish := StorePublication(p.topic, p.payload);
      UnsharedAppend(before, publish);
      var m := Messages(p.msgId, 2, p.retain, Some(PUBREL), publish, 0);
      var k := FindMessage(inboundMsgs, p.msgId);
      if k < |inboundMsgs| {
        Referenced(before, outboundMsgs, inboundMsgs, pendingWrites);
        AbsReplaced(inboundMsgs, k, m);
        Discard(inboundMsgs[k].publish);
        BalancedReplace(before, publications, outboundMsgs, inboundMsgs, pendingWrites, k, m);
        inboundMsgs := inboundMsgs[k := m];
      } else {
        BalancedHold(before, outboundMsgs, inboundMsgs, pendingWrites, m);
        AbsAppend(inboundMsgs, m);
        inboundMsgs := inboundMsgs + [m];
      }
    }

    method HandlePublishes(p: Packet, noPending: bool, out: SendResult) returns (sent: seq<Packet>, rc: SendResult)
      requires Owned() && p.Publish? && Fits(PubOf(p))
      modifies this, publications
      ensures Owned() && pendingWrites == old(pendingWrites)
      ensures forall q :: q in publications ==> q in old(publications) || fresh(q)
      ensures Effect(Abs(), sent, rc) == ReceivePublish(old(Abs()), p, noPending, out)
    {
      hide Wire, EntryBytes, Hold, Balanced, Unshared;
      sent, rc := [], COMPLETE;
      if p.qos == 2 {
        store := store[ReceivedKey(p.msgId) := Wire(p)];
      }
      if p.qos == 0 {
        ProcessPublication(PubOf(p), 0, p.retain, p.dup, 0);
      } else if !noPending {
        rc := ERROR;
      } else if p.qos == 1 {
        sent, rc := Offered(Ack(PUBACK, false, p.msgId), out), out;
        ProcessPublication(PubOf(p), 1, p.retain, p.dup, p.msgId);
      } else if p.qos == 2 {
        HoldMessage(p);
        sent, rc := Offered(Ack(PUBREC, false, p.msgId), out), out;
      }
    }

    /** Drops the inbound record at position k; its data now belongs to the queue entry. */
    method ReleaseInbound(k: nat)
      requires Owned() && k < |inboundMsgs|
      modifies this`inboundMsgs, this`publications
      ensures Owned() && forall p :: p in publications ==> p in old(publications)
      ensures AbsList(inboundMsgs) == Without(old(AbsList(inboundMsgs)), k)
    {
      hide Balanced, Unshared;
      ghost var before := publications;
      var p := inboundMsgs[k].publish;
      Referenced(before, outboundMsgs, inboundMsgs, pendingWrites);
      DropPublication(p);
      UnsharedWithout(before, publications, p);
      BalancedRelease(before, publications, outboundMsgs, inboundMsgs, pendingWrites, k);
      AbsWithout(inboundMsgs, k);
      inboundMsgs := inboundMsgs[..k] + inboundMsgs[k + 1..];
    }

    method HandlePubrels(id: MsgId, dup: bool, noPending: bool, out: SendResult) returns (sent: seq<Packet>, rc: SendResult)
      requires Owned() && forall m :: m in Abs().inbound ==> Fits(m.pub)
      modifies this
      ensures Owned() && pendingWrites == old(pendingWrites)
      ensures forall p :: p in publications ==> p in old(publications)
      ensures Effect(Abs(), sent, rc) == HandlePubrel(old(Abs()), id, dup, noPending, out)
    {
      hide Wire, EntryBytes, Balanced, Unshared, Without, IndexOf;
      sent, rc := [], COMPLETE;
      var k := FindMessage(inboundMsgs, id);
      if k == |inboundMsgs| {
        if dup {
          if !noPending {
            rc := ERROR;
          } else {
            sent, rc := Offered(Ack(PUBCOMP, false, id), out), out;
          }
        }
      } else {
        var m := inboundMsgs[k];
        assert AbsMessage(m) in Abs().inbound;
        if m.qos == 2 && m.next == Some(PUBREL) {
          if !noPending {
            rc := ERROR;
          } else {
            sent, rc := Offered(Ack(PUBCOMP, false, id), out), out;
            ProcessPublication(PubAt(m.publish), m.qos, m.retain, false, m.msgid);
            store := store - {ReceivedKey(id)};
            ReleaseInbound(k);
          }
        }
      }
    }

    /** Gives the first message in the queue to the application, and drops it if the application accepts it. */
    method DeliverMessage(accepted: bool) returns (qe: Option<QueueEntry>)
      modifies this`messageQueue, this`store
      ensures qe == if old(messageQueue) == [] then None else Some(old(messageQueue)[0])
      ensures Abs() == if accepted then TakeFromQueue(old(Abs())) else old(Abs())
    {
      if |messageQueue| == 0 {
        return None;
      }
      qe := Some(messageQueue[0]);
      if accepted {
        store := store - {QueueKey(messageQueue[0].seqno)};
        messageQueue := messageQueue[1..];
      }
    }

    // Resending

    /** Persists and transmits the resend p of the record at position k. */
    method ResendOne(k: nat, p: Packet, t: Policy, out: SendResult)
      requires Owned() && k < |outboundMsgs|
      modifies this`outboundMsgs, this`store
      ensures Owned() && Abs() == ResendAt(old(Abs()), k, p, t, out)
    {
      hide Wire;
      var m := outboundMsgs[k];
      store := store[ResendKey(AbsMessage(m)) := Wire(p)];
      SetOutbound(k, if SendFailed(p, out) then m else m.(lastTouch := t.clock));
    }

    /** One turn of the resending loop: what is left to do afterwards, unless it stops here. */
    method RetryAt(k: nat, t: Policy, outs: seq<SendResult>) returns (sent: seq<Packet>, stop: bool, failed: bool)
      requires Owned() && k < |outboundMsgs|
      modifies this`outboundMsgs, this`store
      ensures Owned() && |outboundMsgs| == |old(outboundMsgs)|
      ensures RetryFrom(old(Abs()), k, t, outs) == Sent(sent, Left(stop, failed, Abs(), k + 1, t, outs))
      ensures !stop ==> !failed
    {
      hide Resend, Due, ResendAt, RetryFrom;
      RetryPasses(Abs(), k, t, outs);
      sent, stop, failed := [], false, false;
      var m := outboundMsgs[k];
      var packet := Resend(AbsMessage(m));
      if Due(AbsMessage(m), t) && packet.Some? {
        var out := OutcomeAt(outs, k);
        ResendOne(k, packet.value, t, out);
        sent := Offered(packet.value, out);
        if out != COMPLETE {
          stop, failed := true, SendFailed(packet.value, out);
          SentNothing(Pass(Abs(), sent, failed));
        }
      } else {
        ghost var rest := RetryFrom(Abs(), k + 1, t, outs);
        assert [] + rest.sent == rest.sent;
      }
    }

    /** Resends what is due, in list order, until a send does not complete. */
    method RetryAll(t: Policy, outs: seq<SendResult>) returns (sent: seq<Packet>, failed: bool)
      requires Owned()
      modifies this`outboundMsgs, this`store
      ensures Owned()
      ensures Pass(Abs(), sent, failed) == RetryFrom(old(Abs()), 0, t, outs)
    {
      hide *;
      sent, failed := [], false;
      ghost var whole := RetryFrom(Abs(), 0, t, outs);
      var k := 0;
      var stop := false;
      SentNothing(whole);
      LeftNow(false, failed, Abs(), k, t, outs);
      AbsLength();
      while !stop && k < |outboundMsgs|
        invariant Owned() && 0 <= k <= |outboundMsgs| == |Abs().outbound|
        invariant whole == Sent(sent, Left(stop, failed, Abs(), k, t, outs))
        invariant !stop ==> !failed
        decreases |outboundMsgs| - k
      {
        var now: seq<Packet>;
        ghost var already := sent;
        LeftNow(stop, failed, Abs(), k, t, outs);
        now, stop, failed := RetryAt(k, t, outs);
        AbsLength();
        SentSoFar(already, now, Left(stop, failed, Abs(), k + 1, t, outs));
        sent := sent + now;
        k := k + 1;
      }
      LeftNow(stop, failed, Abs(), k, t, outs);
      RetryEnds(Abs(), t, outs);
      SentNothing(Pass(Abs(), sent, failed));
    }

    // Cleaning and restarting

    /** Drops the publications of a whole list, which the caller then forgets. */
    method EmptyMessageList(ghost refs: multiset<Publications>, list: seq<Messages>, ghost frame: set<Publications>)
      requires multiset(publications) == refs + multiset(Refs(list))
      requires Unshared(publications) && forall p :: p in publications ==> p in frame
      modifies this`publications, frame
      ensures multiset(publications) == refs
      ensures unchanged(this`outboundMsgs, this`inboundMsgs, this`msgID, this`store, this`messageQueue, this`qentrySeqno, this`socket, this`pendingWrites)
      ensures Unshared(publications) && forall p :: p in publications ==> p in old(publications)
    {
      var i := 0;
      assert list[0..] == list;
      while i < |list|
        invariant 0 <= i <= |list|
        invariant multiset(publications) == refs + multiset(Refs(list[i..]))
        invariant unchanged(this`outboundMsgs, this`inboundMsgs, this`msgID, this`store, this`messageQueue, this`qentrySeqno, this`socket, this`pendingWrites)
        invariant Unshared(publications) && forall p :: p in publications ==> p in old(publications)
      {
        RefsTail(list, i);
        assert list[i].publish in multiset(publications);
        Discard(list[i].publish);
        i := i + 1;
      }
      assert Refs(list[|list|..]) == [];
    }

    method EmptyInbound(ghost frame: set<Publications>)
      requires Owned() && forall p :: p in publications ==> p in frame
      modifies this`inboundMsgs, this`publications, frame
      ensures Owned() && inboundMsgs == [] && forall p :: p in publications ==> p in frame
      ensures unchanged(this`outboundMsgs, this`msgID, this`store, this`messageQueue, this`qentrySeqno, this`socket, this`pendingWrites)
    {
      EmptyMessageList(multiset(Refs(outboundMsgs)) + multiset(CopyRefs(pendingWrites)), inboundMsgs, frame);
      inboundMsgs := [];
      NoRefs();
    }

    method EmptyOutbound(ghost frame: set<Publications>)
      requires Owned() && forall p :: p in publications ==> p in frame
      modifies this`outboundMsgs, this`publications, frame
      ensures Owned() && outboundMsgs == []
      ensures unchanged(this`inboundMsgs, this`msgID, this`store, this`messageQueue, this`qentrySeqno, this`socket, this`pendingWrites)
    {
      EmptyMessageList(multiset(Refs(inboundMsgs)) + multiset(CopyRefs(pendingWrites)), outboundMsgs, frame);
      outboundMsgs := [];
      NoRefs();
    }

    method EmptyLists(ghost frame: set<Publications>)
      requires Owned() && forall p :: p in publications ==> p in frame
      modifies this`inboundMsgs, this`outboundMsgs, this`publications, frame
      ensures Owned() && AbsList(inboundMsgs) == [] && AbsList(outboundMsgs) == []
      ensures unchanged(this`msgID, this`store, this`messageQueue, this`qentrySeqno, this`socket, this`pendingWrites)
    {
      hide Owned;
      EmptyInbound(frame);
      EmptyOutbound(frame);
      NoRefs();
    }

    /** Forgets the session and clears the store. */
    method CleanSession()
      requires Owned()
      modifies this, publications
      ensures Owned()
      ensures Abs() == Sessions.CleanSession(old(Abs())) && pendingWrites == old(pendingWrites)
    {
      ghost var frame := set p | p in publications;
      store := map[];
      messageQueue := [];
      msgID := 0;
      EmptyLists(frame);
    }

    lemma NoRefs()
      ensures Refs([]) == [] && AbsList([]) == []
    {
    }

    function View(): Rebuild
      reads this
    {
      Rebuild(store, AbsList(outboundMsgs), AbsList(inboundMsgs))
    }

    /** Position in front of the first record with a larger id. */
    static method PlaceFor(list: seq<Messages>, id: nat) returns (k: nat)
      ensures k == InsertAt(Ids(AbsList(list)), id)
    {
      k := 0;
      while k < |list| && list[k].msgid <= id
        invariant 0 <= k <= |list|
        invariant forall i :: 0 <= i < k ==> list[i].msgid <= id
      {
        k := k + 1;
      }
      PersistedList.InsertAtUnique(Ids(AbsList(list)), id, k);
    }

    /** Inserts a restored message into the outbound list, in order of message ids. */
    method RestoreOutbound(m: Message)
      requires Owned()
      modifies this`outboundMsgs, this`publications
      ensures Owned() && AbsList(outboundMsgs) == InsertInOrder(old(AbsList(outboundMsgs)), m)
    {
      hide Balanced, Unshared;
      ghost var before := publications;
      var p := StorePublication(m.pub.topic, m.pub.payload);
      UnsharedAppend(before, p);
      var k := PlaceFor(outboundMsgs, m.msgid);
      var record := Messages(m.msgid, m.qos, m.retain, m.next, p, m.lastTouch);
      BalancedSplice(before, outboundMsgs, inboundMsgs, pendingWrites, k, record);
      SplicedRecords(outboundMsgs, k, record);
      outboundMsgs := outboundMsgs[..k] + [record] + outboundMsgs[k..];
    }

    method RestoreInbound(m: Message)
      requires Owned()
      modifies this`inboundMsgs, this`publications
      ensures Owned() && AbsList(inboundMsgs) == old(AbsList(inboundMsgs)) + [m]
    {
      hide Balanced, Unshared;
      ghost var before := publications;
      var p := StorePublication(m.pub.topic, m.pub.payload);
      UnsharedAppend(before, p);
      var record := Messages(m.msgid, m.qos, m.retain, m.next, p, m.lastTouch);
      BalancedHold(before, outboundMsgs, inboundMsgs, pendingWrites, record);
      AbsAppend(inboundMsgs, record);
      inboundMsgs := inboundMsgs + [record];
    }

    /** Visits one key of the store. */
    method RestoreOne(key: Key, clock: int)
      requires Owned()
      modifies this`outboundMsgs, this`inboundMsgs, this`store, this`publications
      ensures Owned() && View() == RestoreKey(old(View()), key, clock)
    {
      if key.QueueKey? || key.CommandKey? || key !in store {
        return;
      }
      var packet := ParseStored(store[key]);
      hide RestorePacket, InsertInOrder;
      match packet
      case None =>
        store := store - {key};
      case Some(Publish(_, qos, retain, id, topic, payload)) =>
        if key.ReceivedKey? {
          RestoreInbound(Message(id, qos, retain, Some(PUBREL), Publication(topic, payload), clock));
        } else if key.SentKey? {
          var next := if PubrelKey(id) in store then Some(PUBCOMP) else FirstStage(qos);
          RestoreOutbound(Message(id, qos, retain, next, Publication(topic, payload), 0));
        } else {
          store := store - {key};
        }
      case Some(Ack(_, _, id)) =>
        if !(key.PubrelKey? && SentKey(id) in store) {
          store := store - {key};
        }
    }

    /** Cuts the outbound list in front of its largest gap between message ids. */
    method WrapMsgID()
      requires Owned()
      modifies this`outboundMsgs
      ensures Owned()
      ensures AbsList(outboundMsgs) == Rotate(old(AbsList(outboundMsgs)), WrapAt(Ids(old(AbsList(outboundMsgs)))))
    {
      hide Balanced, Unshared, Rotate;
      ghost var ids := Ids(AbsList(outboundMsgs));
      var wrapel := 0;
      if |outboundMsgs| > 0 {
        var firstMsgID: int, lastMsgID: int := outboundMsgs[0].msgid, outboundMsgs[|outboundMsgs| - 1].msgid;
        var gap := MAX_MSG_ID - lastMsgID + firstMsgID;
        var current := 1;
        while current < |outboundMsgs|
          invariant 1 <= current <= |outboundMsgs| && wrapel < current
          invariant outboundMsgs == old(outboundMsgs)
          invariant WrapAt(ids) == WrapScan(ids, current, wrapel) && gap == GapBefore(ids, wrapel)
        {
          var curMsgID: int, curPrevMsgID: int := outboundMsgs[current].msgid, outboundMsgs[current - 1].msgid;
          var curgap := curMsgID - curPrevMsgID;
          if curgap > gap {
            gap := curgap;
            wrapel := current;
          }
          current := current + 1;
        }
      }
      BalancedTurned(publications, outboundMsgs, inboundMsgs, pendingWrites, wrapel);
      outboundMsgs := outboundMsgs[wrapel..] + outboundMsgs[..wrapel];
    }

    method Restore(keys: seq<Key>, clock: int)
      requires Owned() && outboundMsgs == [] && inboundMsgs == []
      modifies this`outboundMsgs, this`inboundMsgs, this`store, this`publications
      ensures Owned()
      ensures var r := RestoreKeys(Rebuild(old(store), [], []), keys, clock);
              View() == Rebuild(r.store, Rotate(r.outbound, WrapAt(Ids(r.outbound))), r.inbound)
    {
      hide RestoreKey;
      NoRefs();
      var i := 0;
      assert keys[0..] == keys;
      while i < |keys|
        invariant 0 <= i <= |keys| && Owned()
        invariant RestoreKeys(Rebuild(old(store), [], []), keys, clock) == RestoreKeys(View(), keys[i..], clock)
      {
        assert keys[i..][1..] == keys[i + 1..];
        RestoreOne(keys[i], clock);
        i := i + 1;
      }
      assert keys[|keys|..] == [];
      WrapMsgID();
    }

    /** Reads the application's queue back from the store, in order of arrival. */
    method RestoreMessageQueue(keys: seq<Key>)
      requires messageQueue == [] && qentrySeqno == 0
      modifies this`messageQueue, this`qentrySeqno
      ensures (messageQueue, qentrySeqno) == RestoreQueue([], 0, store, keys)
    {
      var i := 0;
      assert keys[0..] == keys;
      while i < |keys|
        invariant 0 <= i <= |keys|
        invariant RestoreQueue([], 0, store, keys) == RestoreQueue(messageQueue, qentrySeqno, store, keys[i..])
      {
        hide TakeMessage, EntryOf, InsertInSeqOrder;
        assert keys[i..][1..] == keys[i + 1..];
        if keys[i].QueueKey? && keys[i] in store {
          var m := TakeMessage(store[keys[i]]);
          if m.Some? {
            var qe := EntryOf(keys[i].seqno, m.value.0);
            SeqnoOfEntry(keys[i].seqno, m.value.0);
            var k := SeqPlaceFor(messageQueue, qe.seqno);
            SplicedQueue(messageQueue, k, qe);
            messageQueue := messageQueue[..k] + [qe] + messageQueue[k..];
            qentrySeqno := if qe.seqno > qentrySeqno then qe.seqno else qentrySeqno;
          }
        }
        i := i + 1;
      }
      assert keys[|keys|..] == [];
    }

    static method SeqPlaceFor(q: seq<QueueEntry>, seqno: nat) returns (k: nat)
      ensures k == InsertAt(Seqnos(q), seqno)
    {
      k := 0;
      while k < |q| && q[k].seqno <= seqno
        invariant 0 <= k <= |q|
        invariant forall i :: 0 <= i < k ==> q[i].seqno <= seqno
      {
        k := k + 1;
      }
      PersistedList.InsertAtUnique(Seqnos(q), seqno, k);
    }

    /** What a new process does with the store it finds. */
    method Start(keys: seq<Key>, queueKeys: seq<Key>, clock: int)
      requires Owned() && Abs() == EMPTY_SESSION.(store := store)
      modifies this
      ensures Owned() && Abs() == Restored(old(store), keys, queueKeys, clock)
    {
      hide RestoreKeys, RestoreQueue;
      Restore(keys, clock);
      RestoreMessageQueue(queueKeys);
    }

    /** Frees the copies of QoS 0 messages whose sockets have nothing pending any more. */
    method CheckPendingWrites(noPending: int -> bool)
      requires Owned()
      modifies this`publications, this`pendingWrites, publications
      ensures Owned()
      ensures pendingWrites == Unfinished(old(pendingWrites), noPending)
    {
      var le := 0;
      assert pendingWrites[..0] + Unfinished(pendingWrites[0..], noPending) == Unfinished(pendingWrites, noPending);
      while le < |pendingWrites|
        invariant Owned() && forall p :: p in publications ==> p in old(publications)
        invariant 0 <= le <= |pendingWrites|
        invariant pendingWrites[..le] + Unfinished(pendingWrites[le..], noPending) == Unfinished(old(pendingWrites), noPending)
        decreases |pendingWrites| - le
      {
        StillNeeded(pendingWrites, le, noPending);
        if noPending(pendingWrites[le].socket) {
          ghost var before := pendingWrites;
          Referenced(publications, outboundMsgs, inboundMsgs, pendingWrites);
          FinishPendingWrite(le);
          assert pendingWrites[..le] == before[..le] && pendingWrites[le..] == before[le + 1..];
        } else {
          le := le + 1;
        }
      }
      assert pendingWrites[..le] + Unfinished(pendingWrites[le..], noPending) == pendingWrites;
    }

    method FinishPendingWrite(k: nat)
      requires Owned() && k < |pendingWrites|
      modifies this`publications, this`pendingWrites, pendingWrites[k].publish
      ensures Owned() && pendingWrites == old(pendingWrites)[..k] + old(pendingWrites)[k + 1..]
      ensures forall p :: p in publications ==> p in old(publications)
    {
      hide Balanced, Unshared;
      ghost var before := publications;
      Referenced(before, outboundMsgs, inboundMsgs, pendingWrites);
      Discard(pendingWrites[k].publish);
      BalancedWritten(before, publications, outboundMsgs, inboundMsgs, pendingWrites, k);
      pendingWrites := pendingWrites[..k] + pendingWrites[k + 1..];
    }

    lemma AbsLength()
      ensures |Abs().outbound| == |outboundMsgs|
    {
    }

    /** On a new connection: the records are marked as never sent and then all resent in order. */
    method Reconnect(clock: int, retryInterval: int, ready: bool, outs: seq<SendResult>) returns (sent: seq<Packet>, failed: bool)
      requires Owned()
      modifies this`outboundMsgs, this`store
      ensures Owned()
      ensures Pass(Abs(), sent, failed) == Sessions.Retries(Reconnected(old(Abs())), Policy(0, clock, retryInterval, true, ready), outs)
    {
      ghost var before := AbsList(outboundMsgs);
      hide Owned, Sessions.Retries;
      var k := 0;
      while k < |outboundMsgs|
        modifies this`outboundMsgs
        invariant 0 <= k <= |outboundMsgs| == |before| && Owned()
        invariant forall i :: 0 <= i < k ==> AbsList(outboundMsgs)[i] == Untouched(before[i])
        invariant forall i :: k <= i < |before| ==> AbsList(outboundMsgs)[i] == before[i]
      {
        SetOutbound(k, outboundMsgs[k].(lastTouch := 0));
        k := k + 1;
      }
      assert AbsList(outboundMsgs) == Reconnected(old(Abs())).outbound;
      assert Abs() == Reconnected(old(Abs()));
      sent, failed := Retries(Policy(0, clock, retryInterval, true, ready), outs);
    }

    method Retries(t: Policy, outs: seq<SendResult>) returns (sent: seq<Packet>, failed: bool)
      requires Owned()
      modifies this`outboundMsgs, this`store
      ensures Owned()
      ensures Pass(Abs(), sent, failed) == Sessions.Retries(old(Abs()), t, outs)
    {
      sent, failed := [], false;
      if t.ready && (t.regardless || t.retryInterval > 0) {
        sent, failed := RetryAll(t, outs);
      }
    }
  }

  lemma StillNeeded(list: seq<PendingCopy>, k: nat, noPending: int -> bool)
    requires k < |list|
    ensures list[..k] + Unfinished(list[k..], noPending) ==
            if noPending(list[k].socket) then list[..k] + Unfinished(list[k + 1..], noPending)
            else list[..k + 1] + Unfinished(list[k + 1..], noPending)
  {
    assert list[k..][1..] == list[k + 1..];
    assert list[..k + 1] == list[..k] + [list[k]];
  }

  lemma SplicedRecords(list: seq<Messages>, k: nat, m: Messages)
    requires k == InsertAt(Ids(AbsList(list)), m.msgid)
    ensures AbsList(list[..k] + [m] + list[k..]) == InsertInOrder(AbsList(list), AbsMessage(m))
  {
  }

  lemma BalancedTurned(pubs: seq<Publications>, outbound: seq<Messages>, inbound: seq<Messages>, pending: seq<PendingCopy>, w: nat)
    requires Balanced(pubs, outbound, inbound, pending) && w <= |outbound|
    ensures Balanced(pubs, outbound[w..] + outbound[..w], inbound, pending)
    ensures AbsList(outbound[w..] + outbound[..w]) == Rotate(AbsList(outbound), w)
  {
    TurnedRefs(outbound, w);
    assert AbsList(outbound[w..] + outbound[..w]) == Rotate(AbsList(outbound), w) by { hide Balanced, Refs; }
  }

  lemma TurnedRefs(list: seq<Messages>, w: nat)
    requires w <= |list|
    ensures multiset(Refs(list[w..] + list[..w])) == multiset(Refs(list))
  {
    var refs := Refs(list);
    assert Refs(list[w..] + list[..w]) == refs[w..] + refs[..w];
    assert refs == refs[..w] + refs[w..];
  }

  lemma SeqnoOfEntry(seqno: nat, m: StoredMessage)
    ensures EntryOf(seqno, m).seqno == seqno
  {
  }

  lemma SplicedQueue(q: seq<QueueEntry>, k: nat, e: QueueEntry)
    requires k == InsertAt(Seqnos(q), e.seqno)
    ensures q[..k] + [e] + q[k..] == InsertInSeqOrder(q, e)
  {
  }

  lemma RefsTail(list: seq<Messages>, i: nat)
    requires i < |list|
    ensures multiset(Refs(list[i..])) == multiset{list[i].publish} + multiset(Refs(list[i + 1..]))
  {
    assert Refs(list[i..]) == [list[i].publish] + Refs(list[i + 1..]);
  }

  lemma LeftNow(stop: bool, failed: bool, s: Session, k: nat, t: Policy, outs: seq<SendResult>)
    requires k <= |s.outbound|
    ensures Left(stop, failed, s, k, t, outs) == if stop then Pass(s, [], failed) else RetryFrom(s, k, t, outs)
  {
  }

  /** A pass that began by sending these packets. */
  ghost function Sent(first: seq<Packet>, rest: Pass): Pass {
    Pass(rest.s, first + rest.sent, rest.failed)
  }

  /** What remains of a pass that has reached position k. */
  ghost function Left(stop: bool, failed: bool, s: Session, k: nat, t: Policy, outs: seq<SendResult>): Pass
    requires k <= |s.outbound|
  {
    if stop then Pass(s, [], failed) else RetryFrom(s, k, t, outs)
  }

  lemma SentNothing(p: Pass)
    ensures Sent([], p) == p && Sent(p.sent, Pass(p.s, [], p.failed)) == p
  {
    assert [] + p.sent == p.sent == p.sent + [];
  }

  lemma SentSoFar(a: seq<Packet>, b: seq<Packet>, p: Pass)
    ensures Sent(a, Sent(b, p)) == Sent(a + b, p)
  {
    assert a + (b + p.sent) == a + b + p.sent;
  }

  lemma RetryEnds(s: Session, t: Policy, outs: seq<SendResult>)
    ensures RetryFrom(s, |s.outbound|, t, outs) == Pass(s, [], false)
  {
  }

  lemma RetryPasses(s: Session, k: nat, t: Policy, outs: seq<SendResult>)
    requires k < |s.outbound|
    ensures var m := s.outbound[k];
            RetryFrom(s, k, t, outs) ==
            if !Due(m, t) || Resend(m).None? then RetryFrom(s, k + 1, t, outs)
            else
              var p, out := Resend(m).value, OutcomeAt(outs, k);
              var s1 := ResendAt(s, k, p, t, out);
              if out != COMPLETE then Pass(s1, Offered(p, out), SendFailed(p, out))
              else
                var rest := RetryFrom(s1, k + 1, t, outs);
                Pass(rest.s, [p] + rest.sent, rest.failed)
  {
  }

  lemma UsedIds(list: seq<Messages>, id: nat)
    ensures IndexOf(AbsList(list), id) < |list| <==> id in IdSet(AbsList(list))
  {
    if id in IdSet(AbsList(list)) {
      var m :| m in AbsList(list) && m.msgid == id;
    }
  }

  lemma RoundTrip(start: nat, k: nat)
    requires start <= MAX_MSG_ID && 1 <= k <= ProbeLimit(start) + 1 && CyclicId(start, k) == start
    ensures start != 0 && k == MAX_MSG_ID
  {
  }

  lemma AfterLastProbe(start: nat, k: nat)
    requires start != 0 && start <= MAX_MSG_ID && k == ProbeLimit(start) + 1
    ensures CyclicId(start, k) == start
  {
  }
}
