/** The order in which a store lists its keys, and what a restart makes of it. */
module KeyOrder {
  import opened Bytes
  import opened RemainingLength
  import opened Packets
  import opened SendOrder
  import opened Sessions
  import opened StoreAgreement
  import opened Restart

  /** The record that the PUBLISH under a key stands for, whatever id it carries itself. */
  function RecordAt(store: Store, k: MsgId): Option<Message> {
    var p :- StoredPublication(store, SentKey(k));
    Some(Message(p.msgId, p.qos, p.retain, if PubrelKey(p.msgId) in store then Some(PUBCOMP) else FirstStage(p.qos), PubOf(p), 0))
  }

  /** A stored PUBREL that a restart keeps, in whatever order the keys are visited: it names a PUBLISH
      that can be read. */
  predicate Stays(store: Store, id: MsgId)
    requires PubrelKey(id) in store
  {
    var p := RestorePacket(store[PubrelKey(id)]);
    p.Some? && p.value.Ack? && StoredPublication(store, SentKey(p.value.msgId)).Some?
  }

  /** Every PUBREL that some record looks for stays, and records with the same id are the same. */
  ghost predicate Unambiguous(store: Store) {
    && (forall k: MsgId :: RecordAt(store, k).Some? && PubrelKey(RecordAt(store, k).value.msgid) in store ==>
                             Stays(store, RecordAt(store, k).value.msgid))
    && (forall j: MsgId, k: MsgId ::
          RecordAt(store, j).Some? && RecordAt(store, k).Some? && RecordAt(store, j).value.msgid == RecordAt(store, k).value.msgid ==>
            RecordAt(store, j) == RecordAt(store, k))
  }

  // Ordered lists

  ghost predicate Ordered<T(!new)>(s: seq<T>, key: T -> nat) {
    forall i, j :: 0 <= i < j < |s| ==> key(s[i]) <= key(s[j])
  }

  /** An ordered list is determined by its elements, if elements with the same key are equal. */
  lemma {:induction false} OrderedUnique<T(!new)>(a: seq<T>, b: seq<T>, key: T -> nat)
    requires Ordered(a, key) && Ordered(b, key) && multiset(a) == multiset(b)
    requires forall x, y :: x in a && y in a && key(x) == key(y) ==> x == y
    ensures a == b
  {
    if a == [] {
      assert |multiset(b)| == 0;
    } else {
      SameHead(a, b, key);
      hide Ordered;
      OrderedTail(a, key);
      OrderedTail(b, key);
      OrderedUnique(a[1..], b[1..], key);
    }
  }

  lemma OrderedTail<T(!new)>(s: seq<T>, key: T -> nat)
    requires Ordered(s, key) && s != []
    ensures s == [s[0]] + s[1..] && Ordered(s[1..], key) && multiset(s[1..]) == multiset(s) - multiset{s[0]}
    ensures forall x :: x in s[1..] ==> x in s
  {
    assert s == [s[0]] + s[1..];
  }

  lemma SameHead<T(!new)>(a: seq<T>, b: seq<T>, key: T -> nat)
    requires Ordered(a, key) && Ordered(b, key) && multiset(a) == multiset(b) && a != []
    requires forall x, y :: x in a && y in a && key(x) == key(y) ==> x == y
    ensures b != [] && a[0] == b[0]
  {
    assert a[0] in multiset(b);
    assert b[0] in multiset(a);
    var i :| 0 <= i < |a| && a[i] == b[0];
    var j :| 0 <= j < |b| && b[j] == a[0];
    assert key(a[0]) <= key(a[i]) && key(b[0]) <= key(b[j]);
  }

  function IdOf(m: Message): nat {
    m.msgid
  }

  lemma SpliceOrdered<T(!new)>(s: seq<T>, k: nat, x: T, key: T -> nat)
    requires Ordered(s, key) && k <= |s|
    requires forall i :: 0 <= i < k ==> key(s[i]) <= key(x)
    requires forall i :: k <= i < |s| ==> key(x) < key(s[i])
    ensures Ordered(s[..k] + [x] + s[k..], key)
  {
    var all := s[..k] + [x] + s[k..];
    forall i, j | 0 <= i < j < |all| ensures key(all[i]) <= key(all[j]) {
      assert i < k ==> all[i] == s[i];
      assert i > k ==> all[i] == s[i - 1];
      assert j < k ==> all[j] == s[j];
      assert j > k ==> all[j] == s[j - 1];
    }
  }

  lemma LargerBehind(list: seq<Message>, id: nat)
    requires Ordered(list, IdOf)
    ensures var k := InsertAt(Ids(list), id);
            && (forall i :: 0 <= i < k ==> list[i].msgid <= id)
            && forall i :: k <= i < |list| ==> id < list[i].msgid
  {
    var k := InsertAt(Ids(list), id);
    forall i | 0 <= i < |list| ensures i < k ==> list[i].msgid <= id
      ensures i >= k ==> id < list[i].msgid
    {
      assert Ids(list)[i] == list[i].msgid;
      assert i > k ==> IdOf(list[k]) <= IdOf(list[i]);
    }
  }

  lemma InsertKeepsOrdered(list: seq<Message>, m: Message)
    requires Ordered(list, IdOf)
    ensures Ordered(InsertInOrder(list, m), IdOf)
    ensures multiset(InsertInOrder(list, m)) == multiset(list) + multiset{m}
    ensures forall id: nat :: Find(list, id).Some? ==> Find(InsertInOrder(list, m), id) == Find(list, id)
  {
    hide Ordered;
    var k := InsertAt(Ids(list), m.msgid);
    LargerBehind(list, m.msgid);
    SpliceOrdered(list, k, m, IdOf);
    assert list == list[..k] + list[k..];
    forall id: nat | Find(list, id).Some? ensures Find(InsertInOrder(list, m), id) == Find(list, id) {
      FoundBefore(list, k, m, id);
    }
  }

  /** Among records with the same id, the one inserted first is found. */
  lemma FoundBefore(list: seq<Message>, k: nat, m: Message, id: nat)
    requires k <= |list| && Find(list, id).Some?
    requires forall i :: k <= i < |list| ==> m.msgid < list[i].msgid
    ensures Find(list[..k] + [m] + list[k..], id) == Find(list, id)
  {
    var all := list[..k] + [m] + list[k..];
    var f := IndexOf(list, id);
    var g := if f < k then f else f + 1;
    assert all[g] == list[f];
    FirstIndex(all, id, g);
  }

  lemma FirstIndex(list: seq<Message>, id: nat, k: nat)
    requires k < |list| && list[k].msgid == id && forall i :: 0 <= i < k ==> list[i].msgid != id
    ensures IndexOf(list, id) == k
  {
    var f := IndexOf(list, id);
    assert f <= k;
  }

  // What stays in the store while its keys are visited

  /** Records that a restart keeps, whatever the order. */
  ghost predicate Survives(store: Store, k: Key)
    requires k in store
  {
    match k
    case SentKey(_) => StoredPublication(store, k).Some?
    case PubrelKey(id) => Stays(store, id)
    case ReceivedKey(_) => StoredPublication(store, k).Some?
    case QueueKey(_) => true
    case CommandKey(_) => true
  }

  ghost predicate Left(store: Store, left: Store) {
    && (forall k :: k in left ==> k in store && left[k] == store[k])
    && (forall k :: k in store && Survives(store, k) ==> k in left)
  }

  lemma VisitLeaves(store: Store, r: Rebuild, key: Key, clock: int)
    requires Left(store, r.store) && key in r.store
    ensures Left(store, RestoreKey(r, key, clock).store)
    ensures forall k :: k != key && k in r.store ==> k in RestoreKey(r, key, clock).store
  {
    var r' := RestoreKey(r, key, clock);
    if Survives(store, key) {
      if key.PubrelKey? {
        var target := SentKey(RestorePacket(store[key]).value.msgId);
        assert Survives(store, target);
      }
      assert r'.store == r.store;
    }
  }

  // Unambiguous stores: the list is the same whatever the order

  /** The records to be made from these keys. */
  function BagOf(store: Store, keys: seq<Key>): multiset<Message> {
    if keys == [] then multiset{}
    else BagAt(store, keys[0]) + BagOf(store, keys[1..])
  }

  function BagAt(store: Store, key: Key): multiset<Message> {
    if key.SentKey? && RecordAt(store, key.id).Some? then multiset{RecordAt(store, key.id).value} else multiset{}
  }

  lemma BagOfCons(store: Store, k: Key, keys: seq<Key>)
    ensures BagOf(store, [k] + keys) == BagAt(store, k) + BagOf(store, keys)
  {
    assert ([k] + keys)[1..] == keys;
  }

  lemma {:induction false} BagWithout(store: Store, keys: seq<Key>, i: nat)
    requires i < |keys|
    ensures BagOf(store, keys) == BagAt(store, keys[i]) + BagOf(store, keys[..i] + keys[i + 1..])
  {
    hide BagOf, BagAt;
    var rest := keys[..i] + keys[i + 1..];
    assert keys == [keys[0]] + keys[1..];
    BagOfCons(store, keys[0], keys[1..]);
    if i == 0 {
      assert rest == keys[1..];
    } else {
      BagWithout(store, keys[1..], i - 1);
      assert rest == [keys[0]] + (keys[1..][..i - 1] + keys[1..][i..]);
      BagOfCons(store, keys[0], keys[1..][..i - 1] + keys[1..][i..]);
    }
  }

  lemma {:induction false} BagIgnoresOrder(store: Store, a: seq<Key>, b: seq<Key>)
    requires multiset(a) == multiset(b)
    ensures BagOf(store, a) == BagOf(store, b)
  {
    if a == [] {
      assert |multiset(b)| == 0;
    } else {
      hide BagOf, BagAt;
      var i, rest := TakeOut(a, b);
      BagIgnoresOrder(store, a[1..], rest);
      BagWithout(store, b, i);
      assert a == [a[0]] + a[1..];
      BagOfCons(store, a[0], a[1..]);
    }
  }

  lemma TakeOut(a: seq<Key>, b: seq<Key>) returns (i: nat, rest: seq<Key>)
    requires a != [] && multiset(a) == multiset(b)
    ensures i < |b| && b[i] == a[0] && rest == b[..i] + b[i + 1..] && multiset(a[1..]) == multiset(rest)
  {
    assert a == [a[0]] + a[1..];
    assert a[0] in multiset(b);
    i :| 0 <= i < |b| && b[i] == a[0];
    rest := b[..i] + b[i + 1..];
    assert b == b[..i] + ([b[i]] + b[i + 1..]);
    assert multiset(a[1..]) == multiset(a) - multiset{a[0]};
    assert multiset(rest) == multiset(b) - multiset{b[i]};
  }

  /** A listing as a multiset depends only on the store. */
  lemma ListingBag(store: Store, keys: seq<Key>)
    requires Lists(keys, store)
    ensures multiset(keys) == multiset(store.Keys)
  {
    forall k ensures multiset(keys)[k] == multiset(store.Keys)[k] {
      CountDistinct(keys, k);
      assert k in keys <==> k in multiset(keys);
    }
  }

  lemma {:induction false} CountDistinct(keys: seq<Key>, k: Key)
    requires forall i, j :: 0 <= i < j < |keys| ==> keys[i] != keys[j]
    ensures multiset(keys)[k] == if k in keys then 1 else 0
  {
    if keys != [] {
      assert keys == [keys[0]] + keys[1..];
      CountDistinct(keys[1..], k);
    }
  }

  lemma VisitAdds(store: Store, r: Rebuild, key: Key, clock: int)
    requires Unambiguous(store) && Left(store, r.store) && key in r.store && Ordered(r.outbound, IdOf)
    ensures var r' := RestoreKey(r, key, clock);
            Ordered(r'.outbound, IdOf) && multiset(r'.outbound) == multiset(r.outbound) + BagAt(store, key)
  {
    if key.SentKey? && RecordAt(store, key.id).Some? {
      var m := RecordAt(store, key.id).value;
      assert PubrelKey(m.msgid) in store ==> Survives(store, PubrelKey(m.msgid));
      InsertKeepsOrdered(r.outbound, m);
      assert RestoreKey(r, key, clock).outbound == InsertInOrder(r.outbound, m);
    } else {
      assert RestoreKey(r, key, clock).outbound == r.outbound;
    }
  }

  lemma {:induction false} VisitAll(store: Store, r: Rebuild, keys: seq<Key>, clock: int)
    requires Unambiguous(store) && Left(store, r.store) && Ordered(r.outbound, IdOf)
    requires forall i, j :: 0 <= i < j < |keys| ==> keys[i] != keys[j]
    requires forall k :: k in keys ==> k in r.store
    ensures var r' := RestoreKeys(r, keys, clock);
            Ordered(r'.outbound, IdOf) && multiset(r'.outbound) == multiset(r.outbound) + BagOf(store, keys)
    decreases |keys|
  {
    if keys != [] {
      hide Unambiguous, Left, Ordered, RestoreKey, BagAt;
      VisitLeaves(store, r, keys[0], clock);
      VisitAdds(store, r, keys[0], clock);
      VisitAll(store, RestoreKey(r, keys[0], clock), keys[1..], clock);
    }
  }

  lemma {:induction false} BagMembers(store: Store, keys: seq<Key>, m: Message)
    requires m in BagOf(store, keys)
    ensures exists k: MsgId :: RecordAt(store, k) == Some(m)
  {
    if m in BagAt(store, keys[0]) {
      assert RecordAt(store, keys[0].id) == Some(m);
    } else {
      BagMembers(store, keys[1..], m);
    }
  }

  lemma SameOutbound(store: Store, keys1: seq<Key>, keys2: seq<Key>, clock: int)
    requires Unambiguous(store) && Lists(keys1, store) && Lists(keys2, store)
    ensures RestoreKeys(Rebuild(store, [], []), keys1, clock).outbound == RestoreKeys(Rebuild(store, [], []), keys2, clock).outbound
  {
    var a := VisitListing(store, keys1, clock);
    var b := VisitListing(store, keys2, clock);
    hide Unambiguous, RestoreKeys, RecordAt, BagOf, Ordered, Lists;
    ListingBag(store, keys1);
    ListingBag(store, keys2);
    BagIgnoresOrder(store, keys1, keys2);
    SameIdSameRecord(store, keys1, a);
    OrderedUnique(a, b, IdOf);
  }

  lemma SameIdSameRecord(store: Store, keys: seq<Key>, list: seq<Message>)
    requires Unambiguous(store) && multiset(list) == BagOf(store, keys)
    ensures forall x, y :: x in list && y in list && IdOf(x) == IdOf(y) ==> x == y
  {
    hide RecordAt, BagOf;
    forall x, y | x in list && y in list && IdOf(x) == IdOf(y) ensures x == y {
      assert x in multiset(list) && y in multiset(list);
      BagMembers(store, keys, x);
      BagMembers(store, keys, y);
    }
  }

  lemma VisitListing(store: Store, keys: seq<Key>, clock: int) returns (list: seq<Message>)
    requires Unambiguous(store) && Lists(keys, store)
    ensures list == RestoreKeys(Rebuild(store, [], []), keys, clock).outbound
    ensures Ordered(list, IdOf) && multiset(list) == BagOf(store, keys)
  {
    hide Unambiguous, RestoreKeys, BagOf;
    list := RestoreKeys(Rebuild(store, [], []), keys, clock).outbound;
    VisitAll(store, Rebuild(store, [], []), keys, clock);
  }

  // Ambiguous stores: two orders that give different lists

  lemma {:induction false} ListingOf(keys: set<Key>) returns (s: seq<Key>)
    ensures (forall i, j :: 0 <= i < j < |s| ==> s[i] != s[j]) && forall k :: k in s <==> k in keys
    decreases keys
  {
    if keys == {} {
      s := [];
    } else {
      var k :| k in keys;
      var rest := ListingOf(keys - {k});
      s := [k] + rest;
    }
  }

  /** A listing that begins with these keys. */
  lemma ListingFrom(store: Store, front: seq<Key>) returns (keys: seq<Key>)
    requires forall i, j :: 0 <= i < j < |front| ==> front[i] != front[j]
    requires forall k :: k in front ==> k in store
    ensures Lists(front + keys, store)
  {
    keys := ListingOf(set k | k in store && k !in front);
    var all := front + keys;
    forall i, j | 0 <= i < j < |all| ensures all[i] != all[j] {
      assert i < |front| ==> all[i] in front;
      assert j >= |front| ==> all[j] in keys;
    }
  }

  lemma {:induction false} VisitsConcat(r: Rebuild, a: seq<Key>, b: seq<Key>, clock: int)
    ensures RestoreKeys(r, a + b, clock) == RestoreKeys(RestoreKeys(r, a, clock), b, clock)
    decreases |a|
  {
    if a == [] {
      assert a + b == b;
    } else {
      assert (a + b)[1..] == a[1..] + b;
      VisitsConcat(RestoreKey(r, a[0], clock), a[1..], b, clock);
    }
  }

  /** Records once made remain, and the first one made for an id is the one found. */
  lemma {:induction false} FirstStays(r: Rebuild, keys: seq<Key>, clock: int)
    requires Ordered(r.outbound, IdOf)
    ensures var r' := RestoreKeys(r, keys, clock);
            Ordered(r'.outbound, IdOf) && forall id: nat :: Find(r.outbound, id).Some? ==> Find(r'.outbound, id) == Find(r.outbound, id)
    decreases |keys|
  {
    if keys != [] {
      hide Ordered, Find;
      VisitInserts(r, keys[0], clock);
      FirstStays(RestoreKey(r, keys[0], clock), keys[1..], clock);
    }
  }

  lemma VisitInserts(r: Rebuild, key: Key, clock: int)
    requires Ordered(r.outbound, IdOf)
    ensures var r' := RestoreKey(r, key, clock);
            Ordered(r'.outbound, IdOf) && forall id: nat :: Find(r.outbound, id).Some? ==> Find(r'.outbound, id) == Find(r.outbound, id)
  {
    hide InsertInOrder, Find;
    var r' := RestoreKey(r, key, clock);
    if r'.outbound != r.outbound {
      var p := RestorePacket(r.store[key]).value;
      InsertKeepsOrdered(r.outbound, Message(p.msgId, p.qos, p.retain,
                                             if PubrelKey(p.msgId) in r.store then Some(PUBCOMP) else FirstStage(p.qos), PubOf(p), 0));
    }
  }

  ghost predicate NoneReleased(r: Rebuild, id: MsgId) {
    PubrelKey(id) !in r.store && forall m :: m in r.outbound ==> !(m.msgid == id && m.next == Some(PUBCOMP))
  }

  /** With its PUBREL gone, an id is restored to the first stage only. */
  lemma {:induction false} NeverReleased(r: Rebuild, keys: seq<Key>, id: MsgId, clock: int)
    requires NoneReleased(r, id)
    ensures NoneReleased(RestoreKeys(r, keys, clock), id)
    decreases |keys|
  {
    if keys != [] {
      hide NoneReleased;
      VisitUnreleased(r, keys[0], id, clock);
      NeverReleased(RestoreKey(r, keys[0], clock), keys[1..], id, clock);
    }
  }

  lemma VisitUnreleased(r: Rebuild, key: Key, id: MsgId, clock: int)
    requires NoneReleased(r, id)
    ensures NoneReleased(RestoreKey(r, key, clock), id)
  {
    hide InsertInOrder;
    var r' := RestoreKey(r, key, clock);
    if r'.outbound != r.outbound {
      var p := RestorePacket(r.store[key]).value;
      var m := Message(p.msgId, p.qos, p.retain, if PubrelKey(p.msgId) in r.store then Some(PUBCOMP) else FirstStage(p.qos), PubOf(p), 0);
      InsertMembers(r.outbound, m);
    }
  }

  lemma InsertMembers(list: seq<Message>, m: Message)
    ensures forall x :: x in InsertInOrder(list, m) <==> x == m || x in list
  {
    SpliceMembers(list, InsertAt(Ids(list), m.msgid), m);
  }

  /** The outbound list after a restart whose listing begins with these keys. */
  function OutboundAfter(store: Store, front: seq<Key>, rest: seq<Key>, clock: int): seq<Message> {
    RestoreKeys(RestoreKeys(Rebuild(store, [], []), front, clock), rest, clock).outbound
  }

  ghost predicate OneOutcome(store: Store, clock: int) {
    forall keys1, keys2 :: Lists(keys1, store) && Lists(keys2, store) ==>
      Restored(store, keys1, [], clock).outbound == Restored(store, keys2, [], clock).outbound
  }

  lemma OneOutcomeFrom(store: Store, front1: seq<Key>, rest1: seq<Key>, front2: seq<Key>, rest2: seq<Key>, clock: int)
    requires OneOutcome(store, clock) && Lists(front1 + rest1, store) && Lists(front2 + rest2, store)
    ensures var a, b := OutboundAfter(store, front1, rest1, clock), OutboundAfter(store, front2, rest2, clock);
            Rotate(a, WrapAt(Ids(a))) == Rotate(b, WrapAt(Ids(b)))
  {
    hide RestoreKeys, Rotate, WrapAt, Lists, RestoreQueue;
    VisitsConcat(Rebuild(store, [], []), front1, rest1, clock);
    VisitsConcat(Rebuild(store, [], []), front2, rest2, clock);
    assert Restored(store, front1 + rest1, [], clock).outbound == Restored(store, front2 + rest2, [], clock).outbound;
  }

  /** Ordered lists that are cut into the same list were the same. */
  lemma SameBeforeCut(a: seq<Message>, b: seq<Message>)
    requires Ordered(a, IdOf) && Ordered(b, IdOf) && Rotate(a, WrapAt(Ids(a))) == Rotate(b, WrapAt(Ids(b)))
    ensures a == b
  {
    var wa, wb := WrapAt(Ids(a)), WrapAt(Ids(b));
    IdsOfCut(a, wa);
    IdsOfCut(b, wb);
    CutBag(Ids(a), wa);
    CutBag(Ids(b), wb);
    OrderedIds(a);
    OrderedIds(b);
    OrderedUnique(Ids(a), Ids(b), (n: nat) => n);
    assert |a| == |b|;
    CutOnce(a, b, wa);
  }

  lemma CutOnce<T>(a: seq<T>, b: seq<T>, w: nat)
    requires |a| == |b| && w <= |a| && Rotate(a, w) == Rotate(b, w)
    ensures a == b
  {
    RotateBack(a, w);
    RotateBack(b, w);
  }

  lemma OrderedIds(list: seq<Message>)
    requires Ordered(list, IdOf)
    ensures Ordered(Ids(list), (n: nat) => n)
  {
    forall i, j | 0 <= i < j < |list| ensures Ids(list)[i] <= Ids(list)[j] {
      assert IdOf(list[i]) <= IdOf(list[j]);
    }
  }

  lemma IdsOfCut(list: seq<Message>, w: nat)
    requires w <= |list|
    ensures Ids(Rotate(list, w)) == Rotate(Ids(list), w)
  {
  }

  lemma CutBag<T>(s: seq<T>, w: nat)
    requires w <= |s|
    ensures multiset(Rotate(s, w)) == multiset(s)
  {
    assert s == s[..w] + s[w..];
  }

  lemma VisitFirst(store: Store, k: MsgId, clock: int)
    requires RecordAt(store, k).Some?
    ensures RestoreKeys(Rebuild(store, [], []), [SentKey(k)], clock) == Rebuild(store, [RecordAt(store, k).value], [])
  {
    var r := Rebuild(store, [], []);
    assert [SentKey(k)][1..] == [];
    assert RestoreKey(r, SentKey(k), clock).outbound == [] + [RecordAt(store, k).value] + [];
  }

  /** Of two different records with one id, the one visited first comes first. */
  lemma DifferentRecords(store: Store, j: MsgId, k: MsgId, clock: int)
    requires RecordAt(store, j).Some? && RecordAt(store, k).Some? && RecordAt(store, j) != RecordAt(store, k)
    requires RecordAt(store, j).value.msgid == RecordAt(store, k).value.msgid
    ensures !OneOutcome(store, clock)
  {
    var id := RecordAt(store, j).value.msgid;
    var rest1 := ListingFrom(store, [SentKey(j)]);
    var rest2 := ListingFrom(store, [SentKey(k)]);
    FoundAfter(store, j, rest1, clock);
    FoundAfter(store, k, rest2, clock);
    if OneOutcome(store, clock) {
      OneOutcomeFrom(store, [SentKey(j)], rest1, [SentKey(k)], rest2, clock);
      SameBeforeCut(OutboundAfter(store, [SentKey(j)], rest1, clock), OutboundAfter(store, [SentKey(k)], rest2, clock));
    }
  }

  lemma FoundAfter(store: Store, k: MsgId, rest: seq<Key>, clock: int)
    requires RecordAt(store, k).Some?
    ensures var m := RecordAt(store, k).value;
            Find(OutboundAfter(store, [SentKey(k)], rest, clock), m.msgid) == Some(m)
    ensures Ordered(OutboundAfter(store, [SentKey(k)], rest, clock), IdOf)
  {
    VisitFirst(store, k, clock);
    var r := Rebuild(store, [RecordAt(store, k).value], []);
    FirstStays(r, rest, clock);
    assert Find(r.outbound, RecordAt(store, k).value.msgid).Some?;
  }

  /** Keys that make a restart drop a PUBREL which does not stay. */
  function Droppers(store: Store, id: MsgId): (front: seq<Key>)
    requires PubrelKey(id) in store
    ensures forall k :: k in front ==> k in store
    ensures forall i, j :: 0 <= i < j < |front| ==> front[i] != front[j]
  {
    var p := RestorePacket(store[PubrelKey(id)]);
    if p.Some? && p.value.Ack? && SentKey(p.value.msgId) in store then [SentKey(p.value.msgId), PubrelKey(id)]
    else [PubrelKey(id)]
  }

  lemma DropPubrel(store: Store, id: MsgId, clock: int)
    requires PubrelKey(id) in store && !Stays(store, id)
    ensures NoneReleased(RestoreKeys(Rebuild(store, [], []), Droppers(store, id), clock), id)
  {
    var r := Rebuild(store, [], []);
    var front := Droppers(store, id);
    var r1 := RestoreKey(r, front[0], clock);
    assert RestoreKeys(r, front, clock) == RestoreKeys(r1, front[1..], clock);
    if |front| == 2 {
      assert r1 == Rebuild(store - {front[0]}, [], []);
      assert front[1..][0] == PubrelKey(id) && front[1..][1..] == [];
      assert RestoreKeys(r1, front[1..], clock) == RestoreKey(r1, PubrelKey(id), clock);
    }
  }

  /** A PUBREL that does not stay is seen by the record it belongs to or not, depending on which of
      the two is visited first. */
  lemma VanishingPubrel(store: Store, k: MsgId, clock: int)
    requires RecordAt(store, k).Some? && PubrelKey(RecordAt(store, k).value.msgid) in store
    requires !Stays(store, RecordAt(store, k).value.msgid)
    ensures !OneOutcome(store, clock)
  {
    var m := RecordAt(store, k).value;
    var id := m.msgid;
    var rest1 := ListingFrom(store, [SentKey(k)]);
    var rest2 := ListingFrom(store, Droppers(store, id));
    FoundAfter(store, k, rest1, clock);
    DropPubrel(store, id, clock);
    NeverReleased(RestoreKeys(Rebuild(store, [], []), Droppers(store, id), clock), rest2, id, clock);
    if OneOutcome(store, clock) {
      OneOutcomeFrom(store, [SentKey(k)], rest1, Droppers(store, id), rest2, clock);
      var a, b := OutboundAfter(store, [SentKey(k)], rest1, clock), OutboundAfter(store, Droppers(store, id), rest2, clock);
      RotateMembers(a, WrapAt(Ids(a)));
      RotateMembers(b, WrapAt(Ids(b)));
      FindMembers(a, id);
    }
  }

  /** The outbound list after a restart is the same for every order of the keys exactly when the
      store is unambiguous. */
  lemma OutboundIgnoresKeyOrder(store: Store, clock: int)
    ensures OneOutcome(store, clock) <==> Unambiguous(store)
  {
    if Unambiguous(store) {
      forall keys1, keys2 | Lists(keys1, store) && Lists(keys2, store)
        ensures Restored(store, keys1, [], clock).outbound == Restored(store, keys2, [], clock).outbound
      {
        SameOutbound(store, keys1, keys2, clock);
      }
    } else if k: MsgId :| RecordAt(store, k).Some? && PubrelKey(RecordAt(store, k).value.msgid) in store &&
                          !Stays(store, RecordAt(store, k).value.msgid) {
      VanishingPubrel(store, k, clock);
    } else {
      var j: MsgId, k: MsgId :| RecordAt(store, j).Some? && RecordAt(store, k).Some? &&
                                RecordAt(store, j).value.msgid == RecordAt(store, k).value.msgid && RecordAt(store, j) != RecordAt(store, k);
      DifferentRecords(store, j, k, clock);
    }
  }

  /** A stored PUBREL cut short by one byte: whether the message counts as released depends on which of
      the two keys is listed first. */
  lemma TruncatedPubrel(m: Message, clock: int)
    requires m.qos == 2 && m.msgid == 1 && Fits(m.pub)
    ensures Wire(PubrelOf(1, false)) == [98, 2, 0, 1]
    ensures !OneOutcome(map[SentKey(1) := Wire(PublishOf(m, false)), PubrelKey(1) := [98, 2, 0]], clock)
  {
    hide OneOutcome, Wire;
    var store: Store := map[SentKey(1) := Wire(PublishOf(m, false)), PubrelKey(1) := [98, 2, 0]];
    StoredPublish(m, false);
    CutShort();
    VanishingPubrel(store, 1, clock);
  }

  lemma CutShort()
    ensures Wire(PubrelOf(1, false)) == [98, 2, 0, 1] && RestorePacket([98, 2, 0]).None?
  {
    BodyLayout(PubrelOf(1, false));
    assert EncodeLength(2) == [2];
    assert FirstStop([98, 2, 0][1..]) == 0;
    assert [98, 2, 0][1..2] == [2] && ValueOf([2]) == 2 by { assert [2][1..] == []; }
  }

  /** Two files of which one was copied over another's name: two messages with one id, in the order of
      their keys. */
  lemma CopiedRecord(a: Message, b: Message, clock: int)
    requires a.qos == b.qos == 1 && a.msgid == b.msgid && a.pub != b.pub && Fits(a.pub) && Fits(b.pub)
    ensures !OneOutcome(map[SentKey(1) := Wire(PublishOf(a, false)), SentKey(2) := Wire(PublishOf(b, false))], clock)
  {
    hide OneOutcome, Wire;
    var store: Store := map[SentKey(1) := Wire(PublishOf(a, false)), SentKey(2) := Wire(PublishOf(b, false))];
    StoredPublish(a, false);
    StoredPublish(b, false);
    DifferentRecords(store, 1, 2, clock);
  }

  /** The store of a client that agrees with its lists is unambiguous. */
  lemma AgreementIsUnambiguous(s: Session)
    requires Agrees(s)
    ensures Unambiguous(s.store)
  {
    AgreementIsSound(s);
    forall k: MsgId | RecordAt(s.store, k).Some?
      ensures RecordAt(s.store, k).value.msgid == k && (PubrelKey(k) in s.store ==> Stays(s.store, k))
    {
      assert StoredPublication(s.store, SentKey(k)).value.msgId == k;
    }
  }

  // The application's queue

  lemma {:induction false} QueueKeysStay(r: Rebuild, keys: seq<Key>, clock: int)
    ensures var r' := RestoreKeys(r, keys, clock);
            forall k: Key :: k.QueueKey? ==> (k in r'.store <==> k in r.store) && (k in r.store ==> r'.store[k] == r.store[k])
    decreases |keys|
  {
    if keys != [] {
      QueueKeysStay(RestoreKey(r, keys[0], clock), keys[1..], clock);
    }
  }

  /** The queue after a restart never depends on the order of the keys: it is in order of arrival
      and holds every readable entry, and the counter ends at the latest of them. */
  lemma QueueIgnoresKeyOrder(store: Store, keys1: seq<Key>, keys2: seq<Key>, queueKeys1: seq<Key>, queueKeys2: seq<Key>, clock: int)
    requires Lists(queueKeys1, RestoreKeys(Rebuild(store, [], []), keys1, clock).store)
    requires Lists(queueKeys2, RestoreKeys(Rebuild(store, [], []), keys2, clock).store)
    ensures var r1, r2 := Restored(store, keys1, queueKeys1, clock), Restored(store, keys2, queueKeys2, clock);
            && r1.queue == r2.queue && r1.qentrySeqno == r2.qentrySeqno
            && Increasing(Seqnos(r1.queue))
            && (forall n: nat :: n in Seqnos(r1.queue) <==> EntryFor(store, n).Some?)
            && (forall e :: e in r1.queue ==> EntryFor(store, e.seqno) == Some(e))
            && (forall n: nat :: EntryFor(store, n).Some? ==> n <= r1.qentrySeqno)
  {
    var r := Rebuild(store, [], []);
    var b1, b2 := RestoreKeys(r, keys1, clock), RestoreKeys(r, keys2, clock);
    QueueKeysStay(r, keys1, clock);
    QueueKeysStay(r, keys2, clock);
    QueueRebuilt(b1.store, queueKeys1);
    QueueRebuilt(b2.store, queueKeys2);
    hide RestoreKeys, RestoreQueue;
    EntriesStay(store, b1.store);
    EntriesStay(store, b2.store);
    var (q1, top1) := RestoreQueue([], 0, b1.store, queueKeys1);
    var (q2, top2) := RestoreQueue([], 0, b2.store, queueKeys2);
    OnlyEntries(store, b1.store, q1, top1);
    OnlyEntries(store, b2.store, q2, top2);
    SameEntriesSameQueue(store, q1, q2);
    QueueTopUnique(q1, top1, top2);
  }

  lemma EntriesStay(store: Store, rebuilt: Store)
    requires forall k: Key :: k.QueueKey? ==> (k in rebuilt <==> k in store) && (k in store ==> rebuilt[k] == store[k])
    ensures forall n: nat :: EntryFor(rebuilt, n) == EntryFor(store, n)
  {
  }

  lemma OnlyEntries(store: Store, rebuilt: Store, q: seq<QueueEntry>, top: nat)
    requires QueueProgress(rebuilt, rebuilt.Keys, q, top)
    requires forall n: nat :: EntryFor(rebuilt, n) == EntryFor(store, n)
    ensures Increasing(Seqnos(q))
    ensures forall n: nat :: n in Seqnos(q) <==> EntryFor(store, n).Some?
    ensures forall e :: e in q ==> EntryFor(store, e.seqno) == Some(e) && e.seqno <= top
    ensures top == 0 || top in Seqnos(q)
    ensures forall n: nat :: EntryFor(store, n).Some? ==> n <= top
  {
    forall n: nat ensures n in Seqnos(q) <==> EntryFor(store, n).Some? {
      assert EntryFor(rebuilt, n).Some? ==> QueueKey(n) in rebuilt.Keys;
    }
    forall n: nat | EntryFor(store, n).Some? ensures n <= top {
      var i :| 0 <= i < |q| && q[i].seqno == n;
      assert q[i] in q;
    }
  }

  lemma QueueTopUnique(q: seq<QueueEntry>, a: nat, b: nat)
    requires forall e :: e in q ==> e.seqno <= a && e.seqno <= b
    requires (a == 0 || a in Seqnos(q)) && (b == 0 || b in Seqnos(q))
    ensures a == b
  {
    if a in Seqnos(q) {
      var i :| 0 <= i < |q| && q[i].seqno == a;
      assert q[i] in q;
    }
    if b in Seqnos(q) {
      var i :| 0 <= i < |q| && q[i].seqno == b;
      assert q[i] in q;
    }
  }
}
