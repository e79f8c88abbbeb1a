/** Rebuilding the session from the store when a new process starts. */
module Restart {
  import opened Bytes
  import opened Packets
  import opened Records
  import opened SendOrder
  import opened Sessions
  import opened StoreAgreement

  /** The PUBLISH stored under a key, if there is a readable one. */
  function StoredPublication(store: Store, key: Key): Option<Packet> {
    if key !in store then None
    else
      var p := RestorePacket(store[key]);
      if p.Some? && p.value.Publish? then p else None
  }

  /** The outbound record a store stands for under this id. */
  function OutboundFor(store: Store, id: MsgId): Option<Message> {
    var p :- StoredPublication(store, SentKey(id));
    Some(Message(id, p.qos, p.retain, if PubrelKey(id) in store then Some(PUBCOMP) else FirstStage(p.qos), PubOf(p), 0))
  }

  function InboundFor(store: Store, id: MsgId, clock: int): Option<Message> {
    var p :- StoredPublication(store, ReceivedKey(id));
    Some(Message(id, p.qos, p.retain, Some(PUBREL), PubOf(p), clock))
  }

  /** Readable records carry the id of their key, and a PUBREL next to a readable PUBLISH is readable. */
  ghost predicate Sound(store: Store) {
    forall id: MsgId ::
      && (StoredPublication(store, SentKey(id)).Some? ==> StoredPublication(store, SentKey(id)).value.msgId == id)
      && (StoredPublication(store, ReceivedKey(id)).Some? ==> StoredPublication(store, ReceivedKey(id)).value.msgId == id)
      && (StoredPublication(store, SentKey(id)).Some? && PubrelKey(id) in store ==>
            RestorePacket(store[PubrelKey(id)]) == Some(Ack(PUBREL, false, id)))
  }

  /** Keys that a restart never removes. */
  ghost predicate Kept(store: Store, k: Key) {
    match k
    case SentKey(_) => StoredPublication(store, k).Some?
    case ReceivedKey(_) => StoredPublication(store, k).Some?
    case PubrelKey(id) => StoredPublication(store, SentKey(id)).Some?
    case QueueKey(_) => true
    case CommandKey(_) => true
  }

  ghost predicate OutboundProgress(store: Store, done: set<Key>, outbound: seq<Message>) {
    && Increasing(Ids(outbound))
    && (forall id: MsgId :: Find(outbound, id) == if SentKey(id) in done then OutboundFor(store, id) else None)
  }

  ghost predicate InboundProgress(store: Store, done: set<Key>, inbound: seq<Message>, clock: int) {
    && DistinctIds(inbound)
    && (forall id: MsgId :: Find(inbound, id) == if ReceivedKey(id) in done then InboundFor(store, id, clock) else None)
  }

  ghost predicate StoreProgress(store: Store, done: set<Key>, left: Store) {
    && (forall k :: k in left ==> k in store && left[k] == store[k])
    && (forall k :: k in store && (k !in done || Kept(store, k)) ==> k in left)
  }

  /** The state of a rebuild after some of the keys have been visited, in any order. */
  ghost predicate Progress(store: Store, done: set<Key>, r: Rebuild, clock: int) {
    OutboundProgress(store, done, r.outbound) && InboundProgress(store, done, r.inbound, clock) &&
    StoreProgress(store, done, r.store)
  }

  lemma IncreasingDistinct(list: seq<Message>)
    requires Increasing(Ids(list))
    ensures DistinctIds(list)
  {
    forall i, j | 0 <= i < j < |list| ensures list[i].msgid != list[j].msgid {
      assert Ids(list)[i] < Ids(list)[j];
    }
  }

  lemma InsertInOrderFind(list: seq<Message>, m: Message)
    requires Increasing(Ids(list)) && Find(list, m.msgid) == None
    ensures var all := InsertInOrder(list, m);
            Increasing(Ids(all)) && forall id :: Find(all, id) == if id == m.msgid then Some(m) else Find(list, id)
  {
    InsertedIds(list, m);
    InsertKeepsIncreasing(Ids(list), m.msgid);
    IncreasingDistinct(InsertInOrder(list, m));
    forall id ensures Find(InsertInOrder(list, m), id) == if id == m.msgid then Some(m) else Find(list, id) {
      InsertedFind(list, m, id);
    }
  }

  lemma InsertedIds(list: seq<Message>, m: Message)
    ensures Ids(InsertInOrder(list, m)) == Insert(Ids(list), m.msgid)
  {
  }

  lemma InsertedFind(list: seq<Message>, m: Message, id: nat)
    requires Find(list, m.msgid) == None && DistinctIds(InsertInOrder(list, m))
    ensures Find(InsertInOrder(list, m), id) == if id == m.msgid then Some(m) else Find(list, id)
  {
    hide DistinctIds, InsertAt, Find;
    var k := InsertAt(Ids(list), m.msgid);
    SplicedFind(list, k, m, id);
  }

  lemma SplicedFind(list: seq<Message>, k: nat, m: Message, id: nat)
    requires k <= |list| && Find(list, m.msgid) == None && DistinctIds(list[..k] + [m] + list[k..])
    ensures Find(list[..k] + [m] + list[k..], id) == if id == m.msgid then Some(m) else Find(list, id)
  {
    var all := list[..k] + [m] + list[k..];
    var f := IndexOf(list, id);
    hide DistinctIds;
    if id == m.msgid {
      FindIs(all, id, k);
    } else if f < |list| {
      var g := if f < k then f else f + 1;
      assert all[g] == list[f];
      FindIs(all, id, g);
    } else {
      forall i | 0 <= i < |all| ensures all[i].msgid != id {
        assert i != k ==> all[i] == list[if i < k then i else i - 1];
      }
      FindNone(all, id);
    }
  }

  lemma SentKeyProgress(store: Store, done: set<Key>, r: Rebuild, key: Key, clock: int)
    requires Sound(store) && Progress(store, done, r, clock) && key in store && key !in done && key.SentKey?
    ensures OutboundProgress(store, done + {key}, RestoreKey(r, key, clock).outbound)
  {
    RestoredSent(store, done, r, key, clock);
    hide RestoreKey, StoredPublication, OutboundFor, InsertInOrder, Increasing, Find;
    if OutboundFor(store, key.id).Some? {
      var m := OutboundFor(store, key.id).value;
      assert SentKey(m.msgid) == key;
      InsertInOrderFind(r.outbound, m);
    }
  }

  lemma RestoredSent(store: Store, done: set<Key>, r: Rebuild, key: Key, clock: int)
    requires Sound(store) && StoreProgress(store, done, r.store) && key in store && key !in done && key.SentKey?
    ensures var m := OutboundFor(store, key.id);
            && RestoreKey(r, key, clock).outbound == (if m.Some? then InsertInOrder(r.outbound, m.value) else r.outbound)
            && (m.Some? ==> m.value.msgid == key.id)
  {
    hide InsertInOrder;
    if StoredPublication(store, key).Some? {
      assert PubrelKey(key.id) in store ==> Kept(store, PubrelKey(key.id));
    }
  }

  lemma ReceivedKeyProgress(store: Store, done: set<Key>, r: Rebuild, key: Key, clock: int)
    requires Sound(store) && Progress(store, done, r, clock) && key in store && key !in done && key.ReceivedKey?
    ensures InboundProgress(store, done + {key}, RestoreKey(r, key, clock).inbound, clock)
  {
    if StoredPublication(store, key).Some? {
      var m := InboundFor(store, key.id, clock).value;
      var inbound := r.inbound + [m];
      forall id: MsgId ensures DistinctIds(inbound) && Find(inbound, id) == if id == key.id then Some(m) else Find(r.inbound, id) {
        FindAppended(r.inbound, m, id);
      }
      FindAppended(r.inbound, m, key.id);
      assert RestoreKey(r, key, clock).inbound == inbound;
    }
  }

  lemma AnyKeyProgress(store: Store, done: set<Key>, r: Rebuild, key: Key, clock: int)
    requires Sound(store) && Progress(store, done, r, clock) && key in store && key !in done
    ensures StoreProgress(store, done + {key}, RestoreKey(r, key, clock).store)
  {
    if key.PubrelKey? && Kept(store, key) {
      assert Kept(store, SentKey(key.id));
      assert SentKey(key.id) in r.store;
    }
  }

  lemma RestoreKeyProgress(store: Store, done: set<Key>, r: Rebuild, key: Key, clock: int)
    requires Sound(store) && Progress(store, done, r, clock) && key in store && key !in done
    ensures Progress(store, done + {key}, RestoreKey(r, key, clock), clock)
  {
    AnyKeyProgress(store, done, r, key, clock);
    OtherListsUnchanged(r, key, clock);
    hide RestoreKey, StoreProgress, Sound;
    if key.SentKey? {
      SentKeyProgress(store, done, r, key, clock);
    } else {
      OutboundIgnores(store, done, r.outbound, key);
    }
    if key.ReceivedKey? {
      ReceivedKeyProgress(store, done, r, key, clock);
    } else {
      InboundIgnores(store, done, r.inbound, key, clock);
    }
  }

  lemma OtherListsUnchanged(r: Rebuild, key: Key, clock: int)
    ensures !key.SentKey? ==> RestoreKey(r, key, clock).outbound == r.outbound
    ensures !key.ReceivedKey? ==> RestoreKey(r, key, clock).inbound == r.inbound
  {
  }

  lemma OutboundIgnores(store: Store, done: set<Key>, outbound: seq<Message>, key: Key)
    requires OutboundProgress(store, done, outbound) && !key.SentKey?
    ensures OutboundProgress(store, done + {key}, outbound)
  {
    hide OutboundFor, Find;
  }

  lemma InboundIgnores(store: Store, done: set<Key>, inbound: seq<Message>, key: Key, clock: int)
    requires InboundProgress(store, done, inbound, clock) && !key.ReceivedKey?
    ensures InboundProgress(store, done + {key}, inbound, clock)
  {
    hide InboundFor, Find;
  }

  function SetOf(keys: seq<Key>): set<Key> {
    set k | k in keys
  }

  lemma SetOfCons(done: set<Key>, keys: seq<Key>)
    requires keys != []
    ensures done + SetOf(keys) == done + {keys[0]} + SetOf(keys[1..])
  {
    assert keys == [keys[0]] + keys[1..];
  }

  lemma {:induction false} RestoreKeysProgress(store: Store, done: set<Key>, r: Rebuild, keys: seq<Key>, clock: int)
    requires Sound(store) && Progress(store, done, r, clock)
    requires forall i, j :: 0 <= i < j < |keys| ==> keys[i] != keys[j]
    requires forall k :: k in keys ==> k in store && k !in done
    ensures Progress(store, done + SetOf(keys), RestoreKeys(r, keys, clock), clock)
    decreases |keys|
  {
    if keys == [] {
      assert done + SetOf(keys) == done;
    } else {
      RestoreKeyProgress(store, done, r, keys[0], clock);
      RestoreKeysProgress(store, done + {keys[0]}, RestoreKey(r, keys[0], clock), keys[1..], clock);
      SetOfCons(done, keys);
    }
  }

  /** The rebuilt lists hold exactly the records the store stands for. */
  lemma RebuildHasAll(store: Store, keys: seq<Key>, clock: int)
    requires Sound(store) && Lists(keys, store)
    ensures Progress(store, store.Keys, RestoreKeys(Rebuild(store, [], []), keys, clock), clock)
  {
    RestoreKeysProgress(store, {}, Rebuild(store, [], []), keys, clock);
    assert {} + SetOf(keys) == store.Keys;
  }

  // The application's queue

  function EntryFor(store: Store, n: nat): Option<QueueEntry> {
    if QueueKey(n) !in store then None
    else
      var (m, rest) :- TakeMessage(store[QueueKey(n)]);
      Some(EntryOf(n, m))
  }

  ghost predicate QueueProgress(store: Store, done: set<Key>, q: seq<QueueEntry>, top: nat) {
    && Increasing(Seqnos(q))
    && (forall n: nat :: n in Seqnos(q) <==> QueueKey(n) in done && EntryFor(store, n).Some?)
    && (forall e :: e in q ==> EntryFor(store, e.seqno) == Some(e))
    && (forall e :: e in q ==> e.seqno <= top)
    && (top == 0 || top in Seqnos(q))
  }

  lemma QueueKeyProgress(store: Store, done: set<Key>, q: seq<QueueEntry>, top: nat, e: QueueEntry)
    requires QueueProgress(store, done, q, top)
    requires EntryFor(store, e.seqno) == Some(e) && QueueKey(e.seqno) !in done
    ensures QueueProgress(store, done + {QueueKey(e.seqno)}, InsertInSeqOrder(q, e), if e.seqno > top then e.seqno else top)
  {
    hide EntryFor, Increasing, Seqnos, Insert, InsertInSeqOrder;
    SeqnosOfInsert(q, e);
    InsertKeepsIncreasing(Seqnos(q), e.seqno);
  }

  lemma SeqnosOfInsert(q: seq<QueueEntry>, e: QueueEntry)
    ensures Seqnos(InsertInSeqOrder(q, e)) == Insert(Seqnos(q), e.seqno)
    ensures forall x :: x in InsertInSeqOrder(q, e) <==> x == e || x in q
  {
    SpliceMembers(q, InsertAt(Seqnos(q), e.seqno), e);
  }

  lemma {:induction false} RestoreQueueProgress(store: Store, done: set<Key>, q: seq<QueueEntry>, top: nat, keys: seq<Key>)
    requires QueueProgress(store, done, q, top)
    requires forall i, j :: 0 <= i < j < |keys| ==> keys[i] != keys[j]
    requires forall k :: k in keys ==> k !in done
    ensures var (q', top') := RestoreQueue(q, top, store, keys);
            QueueProgress(store, done + SetOf(keys), q', top')
    decreases |keys|
  {
    if keys == [] {
      assert done + SetOf(keys) == done;
    } else {
      hide RestoreQueue, QueueProgress;
      SetOfCons(done, keys);
      var q1, top1 := VisitEntry(store, done, q, top, keys);
      RestoreQueueProgress(store, done + {keys[0]}, q1, top1, keys[1..]);
    }
  }

  /** One turn of the loop over the keys. */
  lemma VisitEntry(store: Store, done: set<Key>, q: seq<QueueEntry>, top: nat, keys: seq<Key>) returns (q1: seq<QueueEntry>, top1: nat)
    requires QueueProgress(store, done, q, top) && keys != [] && keys[0] !in done
    ensures QueueProgress(store, done + {keys[0]}, q1, top1)
    ensures RestoreQueue(q, top, store, keys) == RestoreQueue(q1, top1, store, keys[1..])
  {
    hide QueueProgress, InsertInSeqOrder, EntryOf, TakeMessage;
    var key := keys[0];
    q1, top1 := q, top;
    if key.QueueKey? && EntryFor(store, key.seqno).Some? {
      var e := EntryFor(store, key.seqno).value;
      SeqnoOfEntry(store, key.seqno);
      QueueKeyProgress(store, done, q, top, e);
      q1, top1 := InsertInSeqOrder(q, e), if e.seqno > top then e.seqno else top;
    } else {
      NoEntryProgress(store, done, q, top, key);
    }
  }

  lemma SeqnoOfEntry(store: Store, n: nat)
    ensures EntryFor(store, n).Some? ==> EntryFor(store, n).value.seqno == n
  {
  }

  lemma NoEntryProgress(store: Store, done: set<Key>, q: seq<QueueEntry>, top: nat, key: Key)
    requires QueueProgress(store, done, q, top) && !(key.QueueKey? && EntryFor(store, key.seqno).Some?)
    ensures QueueProgress(store, done + {key}, q, top)
  {
    hide EntryFor, Increasing, Seqnos;
  }

  lemma QueueRebuilt(store: Store, keys: seq<Key>)
    requires Lists(keys, store)
    ensures var (q, top) := RestoreQueue([], 0, store, keys);
            QueueProgress(store, store.Keys, q, top)
  {
    RestoreQueueProgress(store, {}, [], 0, keys);
    assert {} + SetOf(keys) == store.Keys;
  }

  lemma SameEntriesSameQueue(store: Store, a: seq<QueueEntry>, b: seq<QueueEntry>)
    requires Increasing(Seqnos(a)) && Increasing(Seqnos(b))
    requires forall n :: n in Seqnos(a) <==> n in Seqnos(b)
    requires forall e :: e in a || e in b ==> EntryFor(store, e.seqno) == Some(e)
    ensures a == b
  {
    IncreasingUnique(Seqnos(a), Seqnos(b));
    forall i | 0 <= i < |a| ensures a[i] == b[i] {
      assert Seqnos(a)[i] == Seqnos(b)[i];
      assert a[i] in a && b[i] in b;
    }
  }

  // A store in agreement

  lemma AgreementIsSound(s: Session)
    requires ListsAgree(s)
    ensures Sound(s.store)
    ensures forall id: MsgId :: OutboundFor(s.store, id) == if Find(s.outbound, id).Some? then Some(Untouched(Find(s.outbound, id).value)) else None
    ensures forall k :: k in s.store ==> Kept(s.store, k)
  {
    forall id: MsgId
      ensures OutboundFor(s.store, id) == if Find(s.outbound, id).Some? then Some(Untouched(Find(s.outbound, id).value)) else None
      ensures StoredPublication(s.store, SentKey(id)).Some? ==> StoredPublication(s.store, SentKey(id)).value.msgId == id
      ensures StoredPublication(s.store, ReceivedKey(id)).Some? ==> StoredPublication(s.store, ReceivedKey(id)).value.msgId == id
      ensures StoredPublication(s.store, SentKey(id)).Some? && PubrelKey(id) in s.store ==>
                RestorePacket(s.store[PubrelKey(id)]) == Some(Ack(PUBREL, false, id))
      ensures SentKey(id) in s.store ==> Kept(s.store, SentKey(id))
      ensures PubrelKey(id) in s.store ==> Kept(s.store, PubrelKey(id))
      ensures ReceivedKey(id) in s.store ==> Kept(s.store, ReceivedKey(id))
    {
      assert OutboundAgrees(Find(s.outbound, id), s.store, id);
      assert InboundAgrees(Find(s.inbound, id), s.store, id);
    }
    forall k | k in s.store ensures Kept(s.store, k) {
      match k
      case SentKey(id) => assert Kept(s.store, SentKey(id));
      case PubrelKey(id) => assert Kept(s.store, PubrelKey(id));
      case ReceivedKey(id) => assert Kept(s.store, ReceivedKey(id));
      case QueueKey(_) =>
      case CommandKey(_) =>
    }
  }

  lemma EntryForAgrees(s: Session, e: QueueEntry)
    requires QueueAgrees(s) && e in s.queue
    ensures EntryFor(s.store, e.seqno) == Some(e)
  {
    TakeMessageBack(StoredEntry(e));
  }

  lemma RotatedFind(list: seq<Message>, w: nat, id: nat)
    requires DistinctIds(list) && w <= |list|
    ensures DistinctIds(Rotate(list, w)) && Find(Rotate(list, w), id) == Find(list, id)
    ensures Ids(Rotate(list, w)) == Rotate(Ids(list), w)
  {
    var r := Rotate(list, w);
    RotatedDistinct(list, w);
    hide DistinctIds, Ids;
    var f := IndexOf(list, id);
    if f < |list| {
      FindIs(r, id, if f >= w then f - w else f + |list| - w);
    } else {
      FindNone(r, id);
    }
  }

  lemma RotatedDistinct(list: seq<Message>, w: nat)
    requires DistinctIds(list) && w <= |list|
    ensures DistinctIds(Rotate(list, w))
    ensures Ids(Rotate(list, w)) == Rotate(Ids(list), w)
  {
  }

  lemma IdsOfFinds(a: seq<Message>, b: seq<Message>)
    requires DistinctIds(a) && DistinctIds(b)
    requires forall id: MsgId :: Find(a, id).Some? <==> Find(b, id).Some?
    ensures forall x :: x in Ids(a) <==> x in Ids(b)
  {
    forall x ensures x in Ids(a) <==> x in Ids(b) {
      if x in Ids(a) {
        var i :| 0 <= i < |a| && a[i].msgid == x;
        FindAt(a, i);
        assert Find(b, a[i].msgid).Some?;
      }
      if x in Ids(b) {
        var i :| 0 <= i < |b| && b[i].msgid == x;
        FindAt(b, i);
        assert Find(a, b[i].msgid).Some?;
      }
    }
  }

  lemma OutboundIdsValid(s: Session)
    requires ListsAgree(s)
    ensures ValidIds(Ids(s.outbound))
  {
    forall i | 0 <= i < |s.outbound| ensures s.outbound[i].msgid >= 1 {
      FindAt(s.outbound, i);
      assert OutboundAgrees(Find(s.outbound, s.outbound[i].msgid), s.store, s.outbound[i].msgid);
    }
  }

  /** Restarting between any two steps gives back the same outbound records in the same states and
      the same queue, the inbound records that are stored, and a session that again agrees. */
  lemma RestartKeepsSession(s: Session, keys: seq<Key>, queueKeys: seq<Key>, clock: int)
    requires Agrees(s) && Lists(keys, s.store) && Lists(queueKeys, s.store)
    ensures var r := Restored(s.store, keys, queueKeys, clock);
            && r.store == s.store && r.msgID == 0
            && (forall id: MsgId :: Find(r.outbound, id) ==
                  if Find(s.outbound, id).Some? then Some(Untouched(Find(s.outbound, id).value)) else None)
            && (forall id: MsgId :: Find(r.inbound, id) == InboundFor(s.store, id, clock))
            && Ids(r.outbound) == RestoredOrder(Ids(s.outbound))
            && r.queue == s.queue
            && r.qentrySeqno <= s.qentrySeqno
            && Agrees(r)
  {
    AgreementIsSound(s);
    RebuildHasAll(s.store, keys, clock);
    var b := RestoreKeys(Rebuild(s.store, [], []), keys, clock);
    assert b.store == s.store;
    IncreasingDistinct(b.outbound);
    var w := WrapAt(Ids(b.outbound));
    var r := Restored(s.store, keys, queueKeys, clock);
    forall id: MsgId ensures Find(r.outbound, id) == OutboundFor(s.store, id) {
      RotatedFind(b.outbound, w, id);
    }
    RotatedFind(b.outbound, w, 0);
    IdsOfFinds(b.outbound, s.outbound);
    OutboundIdsValid(s);
    SortIdsSorts(Ids(s.outbound));
    IncreasingUnique(Ids(b.outbound), SortIds(Ids(s.outbound)));
    QueueRestored(s, queueKeys);
    RestartAgrees(s, r, clock);
  }

  lemma QueueRestored(s: Session, queueKeys: seq<Key>)
    requires QueueAgrees(s) && Lists(queueKeys, s.store)
    ensures var (q, top) := RestoreQueue([], 0, s.store, queueKeys);
            q == s.queue && top <= s.qentrySeqno && forall e :: e in q ==> e.seqno <= top
  {
    QueueRebuilt(s.store, queueKeys);
    var (q, top) := RestoreQueue([], 0, s.store, queueKeys);
    forall e | e in s.queue ensures EntryFor(s.store, e.seqno) == Some(e) {
      EntryForAgrees(s, e);
    }
    forall n: nat ensures n in Seqnos(q) <==> n in Seqnos(s.queue) {
      if n in Seqnos(s.queue) {
        var i :| 0 <= i < |s.queue| && s.queue[i].seqno == n;
        assert s.queue[i] in s.queue;
      }
    }
    SameEntriesSameQueue(s.store, q, s.queue);
  }

  lemma RestartAgrees(s: Session, r: Session, clock: int)
    requires Agrees(s) && r.store == s.store && r.msgID == 0 && r.queue == s.queue
    requires DistinctIds(r.outbound) && DistinctIds(r.inbound)
    requires forall id: MsgId :: Find(r.outbound, id) == OutboundFor(s.store, id)
    requires forall id: MsgId :: Find(r.inbound, id) == InboundFor(s.store, id, clock)
    requires forall e :: e in r.queue ==> e.seqno <= r.qentrySeqno
    ensures Agrees(r)
  {
    AgreementIsSound(s);
    forall id: MsgId
      ensures OutboundAgrees(Find(r.outbound, id), r.store, id)
      ensures InboundAgrees(Find(r.inbound, id), r.store, id)
    {
      assert OutboundAgrees(Find(s.outbound, id), s.store, id);
      assert InboundAgrees(Find(s.inbound, id), s.store, id);
    }
  }

  /** The send order survives a restart exactly when the ids in flight form a recoverable window. */
  lemma RestartKeepsSendOrder(s: Session, keys: seq<Key>, queueKeys: seq<Key>, clock: int)
    requires Agrees(s) && Lists(keys, s.store) && Lists(queueKeys, s.store)
    ensures var r := Restored(s.store, keys, queueKeys, clock);
            (|r.outbound| == |s.outbound| && forall i :: 0 <= i < |s.outbound| ==> r.outbound[i] == Untouched(s.outbound[i]))
            <==> Recoverable(Ids(s.outbound))
  {
    RestartKeepsSession(s, keys, queueKeys, clock);
    OutboundIdsValid(s);
    RestoredOrderIsSendOrder(Ids(s.outbound));
    var r := Restored(s.store, keys, queueKeys, clock);
    if Recoverable(Ids(s.outbound)) {
      assert Ids(r.outbound) == Ids(s.outbound);
      forall i | 0 <= i < |s.outbound| ensures r.outbound[i] == Untouched(s.outbound[i]) {
        assert Ids(r.outbound)[i] == Ids(s.outbound)[i];
        FindAt(r.outbound, i);
        FindAt(s.outbound, i);
      }
    } else if |r.outbound| == |s.outbound| && Ids(r.outbound) != Ids(s.outbound) {
      var i :| 0 <= i < |s.outbound| && r.outbound[i].msgid != s.outbound[i].msgid;
      assert r.outbound[i] != Untouched(s.outbound[i]);
    }
  }

  lemma OneIdComesBack(s: Session)
    requires Agrees(s) && |s.outbound| == 1
    ensures RestoredOrder(Ids(s.outbound)) == Ids(s.outbound)
  {
    OutboundIdsValid(s);
    RestoredOrderIsSendOrder(Ids(s.outbound));
  }
}
