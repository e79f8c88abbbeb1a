/** The flat records in which queued messages and queued commands are kept in the persistent store. */
module Records {
  import opened Bytes

  // The parser takes one field at a time from the front of a buffer and never checks its length;
  // None stands for reading past the end.

  function TakeInt(s: seq<byte>): Option<(int32, seq<byte>)> {
    if |s| < 4 then None else Some((IntAt(s), s[4..]))
  }

  function TakeString(s: seq<byte>): Option<(CString, seq<byte>)> {
    var t := BeforeNul(s);
    if |t| == |s| then None else Some((t, s[|t| + 1..]))
  }

  function TakeBytes(s: seq<byte>, n: int): Option<(seq<byte>, seq<byte>)> {
    if 0 <= n <= |s| then Some((s[..n], s[n..])) else None
  }

  lemma TakeIntBack(n: int32, rest: seq<byte>)
    ensures TakeInt(IntBytes(n) + rest) == Some((n, rest))
  {
    IntAtOfIntBytes(n, rest);
    assert (IntBytes(n) + rest)[4..] == rest;
  }

  lemma TakeStringBack(t: CString, rest: seq<byte>)
    ensures TakeString(t + ([0] + rest)) == Some((t, rest))
  {
    BeforeNulStops(t, rest);
    var s := t + ([0] + rest);
    assert s == t + [0] + rest;
    assert s[|t| + 1..] == rest;
  }

  lemma TakeBytesBack(b: seq<byte>, rest: seq<byte>)
    ensures TakeBytes(b + rest, |b|) == Some((b, rest))
  {
    assert (b + rest)[..|b|] == b && (b + rest)[|b|..] == rest;
  }

  // Queued commands of the asynchronous client

  const PUBLISH_TYPE: int32 := 3
  const SUBSCRIBE_TYPE: int32 := 8
  const UNSUBSCRIBE_TYPE: int32 := 10

  datatype StoredCommand =
    | Subscribe(token: int32, topics: seq<CString>, qoss: seq<int32>)
    | Unsubscribe(token: int32, topics: seq<CString>)
    | PublishCommand(token: int32, destination: CString, payload: seq<byte>, qos: int32, retained: int32)

  /** What the client structure can hold: one qos for each topic, and counts that are C ints. */
  predicate Holds(c: StoredCommand) {
    match c
    case Subscribe(_, topics, qoss) => |topics| == |qoss| <= INT_MAX
    case Unsubscribe(_, topics) => |topics| <= INT_MAX
    case PublishCommand(_, _, payload, _, _) => |payload| <= INT_MAX
  }

  function SubscriptionBytes(topics: seq<CString>, qoss: seq<int32>): seq<byte>
    requires |topics| == |qoss|
  {
    if topics == [] then []
    else topics[0] + ([0] + (IntBytes(qoss[0]) + SubscriptionBytes(topics[1..], qoss[1..])))
  }

  function TopicBytes(topics: seq<CString>): seq<byte> {
    if topics == [] then [] else topics[0] + ([0] + TopicBytes(topics[1..]))
  }

  function CommandBytes(c: StoredCommand): seq<byte>
    requires Holds(c)
  {
    match c
    case Subscribe(token, topics, qoss) =>
      IntBytes(SUBSCRIBE_TYPE) + (IntBytes(token) + (IntBytes(|topics|) + SubscriptionBytes(topics, qoss)))
    case Unsubscribe(token, topics) =>
      IntBytes(UNSUBSCRIBE_TYPE) + (IntBytes(token) + (IntBytes(|topics|) + TopicBytes(topics)))
    case PublishCommand(token, destination, payload, qos, retained) =>
      IntBytes(PUBLISH_TYPE) + (IntBytes(token) + (destination + ([0] + (IntBytes(|payload|) + (payload +
      (IntBytes(qos) + IntBytes(retained)))))))
  }

  function TakeSubscriptions(s: seq<byte>, n: int): Option<(seq<CString>, seq<int32>, seq<byte>)>
    decreases n
  {
    if n <= 0 then Some(([], [], s))
    else
      var (t, s1) :- TakeString(s);
      var (q, s2) :- TakeInt(s1);
      var (ts, qs, rest) :- TakeSubscriptions(s2, n - 1);
      Some(([t] + ts, [q] + qs, rest))
  }

  function TakeTopics(s: seq<byte>, n: int): Option<(seq<CString>, seq<byte>)>
    decreases n
  {
    if n <= 0 then Some(([], s))
    else
      var (t, s1) :- TakeString(s);
      var (ts, rest) :- TakeTopics(s1, n - 1);
      Some(([t] + ts, rest))
  }

  /** The command at the front of a buffer and the bytes the parser did not touch. */
  function TakeCommand(s: seq<byte>): Option<(StoredCommand, seq<byte>)> {
    var (kind, s1) :- TakeInt(s);
    var (token, s2) :- TakeInt(s1);
    if kind == SUBSCRIBE_TYPE then
      var (count, s3) :- TakeInt(s2);
      var (topics, qoss, rest) :- TakeSubscriptions(s3, count);
      Some((Subscribe(token, topics, qoss), rest))
    else if kind == UNSUBSCRIBE_TYPE then
      var (count, s3) :- TakeInt(s2);
      var (topics, rest) :- TakeTopics(s3, count);
      Some((Unsubscribe(token, topics), rest))
    else if kind == PUBLISH_TYPE then
      var (destination, s3) :- TakeString(s2);
      var (length, s4) :- TakeInt(s3);
      var (payload, s5) :- TakeBytes(s4, length);
      var (qos, s6) :- TakeInt(s5);
      var (retained, rest) :- TakeInt(s6);
      Some((PublishCommand(token, destination, payload, qos, retained), rest))
    else None
  }

  lemma {:induction false} TakeSubscriptionsBack(topics: seq<CString>, qoss: seq<int32>, rest: seq<byte>)
    requires |topics| == |qoss|
    ensures TakeSubscriptions(SubscriptionBytes(topics, qoss) + rest, |topics|) == Some((topics, qoss, rest))
  {
    if topics == [] {
      assert SubscriptionBytes(topics, qoss) + rest == rest;
    } else {
      var more := SubscriptionBytes(topics[1..], qoss[1..]) + rest;
      assert SubscriptionBytes(topics, qoss) + rest == topics[0] + ([0] + (IntBytes(qoss[0]) + more));
      TakeStringBack(topics[0], IntBytes(qoss[0]) + more);
      TakeIntBack(qoss[0], more);
      TakeSubscriptionsBack(topics[1..], qoss[1..], rest);
      assert [topics[0]] + topics[1..] == topics && [qoss[0]] + qoss[1..] == qoss;
    }
  }

  lemma {:induction false} TakeTopicsBack(topics: seq<CString>, rest: seq<byte>)
    ensures TakeTopics(TopicBytes(topics) + rest, |topics|) == Some((topics, rest))
  {
    if topics == [] {
      assert TopicBytes(topics) + rest == rest;
    } else {
      var more := TopicBytes(topics[1..]) + rest;
      assert TopicBytes(topics) + rest == topics[0] + ([0] + more);
      TakeStringBack(topics[0], more);
      TakeTopicsBack(topics[1..], rest);
      assert [topics[0]] + topics[1..] == topics;
    }
  }

  lemma PublishCommandBack(c: StoredCommand, rest: seq<byte>)
    requires Holds(c) && c.PublishCommand?
    ensures TakeCommand(CommandBytes(c) + rest) == Some((c, rest))
  {
    var s6 := IntBytes(c.retained) + rest;
    var s5 := IntBytes(c.qos) + s6;
    var s4 := c.payload + s5;
    var s3 := IntBytes(|c.payload|) + s4;
    var s2 := c.destination + ([0] + s3);
    var s1 := IntBytes(c.token) + s2;
    assert CommandBytes(c) + rest == IntBytes(PUBLISH_TYPE) + s1;
    TakeIntBack(PUBLISH_TYPE, s1);
    TakeIntBack(c.token, s2);
    TakeStringBack(c.destination, s3);
    TakeIntBack(|c.payload|, s4);
    TakeBytesBack(c.payload, s5);
    TakeIntBack(c.qos, s6);
    TakeIntBack(c.retained, rest);
  }

  lemma SubscribeBack(c: StoredCommand, rest: seq<byte>)
    requires Holds(c) && c.Subscribe?
    ensures TakeCommand(CommandBytes(c) + rest) == Some((c, rest))
  {
    var s3 := SubscriptionBytes(c.topics, c.qoss) + rest;
    var s2 := IntBytes(|c.topics|) + s3;
    assert CommandBytes(c) + rest == IntBytes(SUBSCRIBE_TYPE) + (IntBytes(c.token) + s2);
    TakeIntBack(SUBSCRIBE_TYPE, IntBytes(c.token) + s2);
    TakeIntBack(c.token, s2);
    TakeIntBack(|c.topics|, s3);
    TakeSubscriptionsBack(c.topics, c.qoss, rest);
  }

  lemma UnsubscribeBack(c: StoredCommand, rest: seq<byte>)
    requires Holds(c) && c.Unsubscribe?
    ensures TakeCommand(CommandBytes(c) + rest) == Some((c, rest))
  {
    var s3 := TopicBytes(c.topics) + rest;
    var s2 := IntBytes(|c.topics|) + s3;
    assert CommandBytes(c) + rest == IntBytes(UNSUBSCRIBE_TYPE) + (IntBytes(c.token) + s2);
    TakeIntBack(UNSUBSCRIBE_TYPE, IntBytes(c.token) + s2);
    TakeIntBack(c.token, s2);
    TakeIntBack(|c.topics|, s3);
    TakeTopicsBack(c.topics, rest);
  }

  /** Restoring undoes persisting and consumes exactly the bytes that were written. */
  lemma TakeCommandBack(c: StoredCommand, rest: seq<byte>)
    requires Holds(c)
    ensures TakeCommand(CommandBytes(c) + rest) == Some((c, rest))
  {
    if c.Subscribe? {
      SubscribeBack(c, rest);
    } else if c.Unsubscribe? {
      UnsubscribeBack(c, rest);
    } else {
      PublishCommandBack(c, rest);
    }
  }

  lemma FlattenTwoMore(bufs: seq<seq<byte>>, a: seq<byte>, b: seq<byte>)
    ensures Flatten(bufs + [a, b]) == Flatten(bufs) + (a + b)
  {
    FlattenAppend(bufs, [a, b]);
    FlattenCons(a, [b]);
    FlattenCons(b, []);
    assert [a, b] == [a] + [b] && [b] == [b] + [];
  }

  lemma FlattenOneMore(bufs: seq<seq<byte>>, a: seq<byte>)
    ensures Flatten(bufs + [a]) == Flatten(bufs) + a
  {
    FlattenAppend(bufs, [a]);
    FlattenCons(a, []);
    assert [a] == [a] + [];
  }

  /** The fields every command record starts with. */
  method PersistHead(kind: int32, token: int32) returns (bufs: seq<seq<byte>>)
    ensures |bufs| == 2 && Flatten(bufs) == IntBytes(kind) + IntBytes(token)
  {
    FlattenTwoMore([], IntBytes(kind), IntBytes(token));
    bufs := [IntBytes(kind), IntBytes(token)];
    assert bufs == [] + bufs;
  }

  lemma SubscriptionBytesStep(topics: seq<CString>, qoss: seq<int32>, i: nat)
    requires i < |topics| == |qoss|
    ensures SubscriptionBytes(topics[i..], qoss[i..]) ==
            topics[i] + [0] + IntBytes(qoss[i]) + SubscriptionBytes(topics[i + 1..], qoss[i + 1..])
  {
    assert topics[i..][1..] == topics[i + 1..] && qoss[i..][1..] == qoss[i + 1..];
  }

  lemma SubscriptionBytesEnds(topics: seq<CString>, qoss: seq<int32>)
    requires |topics| == |qoss|
    ensures topics[0..] == topics && qoss[0..] == qoss && SubscriptionBytes(topics[|topics|..], qoss[|topics|..]) == []
  {
  }

  method PersistSubscribe(c: StoredCommand) returns (bufs: seq<seq<byte>>)
    requires Holds(c) && c.Subscribe?
    ensures |bufs| == 3 + 2 * |c.topics| && Flatten(bufs) == CommandBytes(c)
  {
    hide SubscriptionBytes, Flatten, IntBytes;
    SubscriptionBytesEnds(c.topics, c.qoss);
    bufs := PersistHead(SUBSCRIBE_TYPE, c.token);
    FlattenOneMore(bufs, IntBytes(|c.topics|));
    bufs := bufs + [IntBytes(|c.topics|)];
    ghost var head := Flatten(bufs);
    var i := 0;
    while i < |c.topics|
      invariant 0 <= i <= |c.topics| && |bufs| == 3 + 2 * i
      invariant Flatten(bufs) + SubscriptionBytes(c.topics[i..], c.qoss[i..]) == head + SubscriptionBytes(c.topics, c.qoss)
    {
      FlattenTwoMore(bufs, c.topics[i] + [0], IntBytes(c.qoss[i]));
      SubscriptionBytesStep(c.topics, c.qoss, i);
      ghost var rest := SubscriptionBytes(c.topics[i + 1..], c.qoss[i + 1..]);
      assert Flatten(bufs) + (c.topics[i] + [0] + IntBytes(c.qoss[i]) + rest) ==
             Flatten(bufs) + (c.topics[i] + [0] + IntBytes(c.qoss[i])) + rest;
      bufs := bufs + [c.topics[i] + [0], IntBytes(c.qoss[i])];
      i := i + 1;
    }
    assert CommandBytes(c) == head + SubscriptionBytes(c.topics, c.qoss);
  }

  method PersistUnsubscribe(c: StoredCommand) returns (bufs: seq<seq<byte>>)
    requires Holds(c) && c.Unsubscribe?
    ensures |bufs| == 3 + |c.topics| && Flatten(bufs) == CommandBytes(c)
  {
    bufs := PersistHead(UNSUBSCRIBE_TYPE, c.token);
    FlattenOneMore(bufs, IntBytes(|c.topics|));
    bufs := bufs + [IntBytes(|c.topics|)];
    ghost var head := Flatten(bufs);
    var i := 0;
    while i < |c.topics|
      invariant 0 <= i <= |c.topics| && |bufs| == 3 + i
      invariant Flatten(bufs) + TopicBytes(c.topics[i..]) == head + TopicBytes(c.topics)
    {
      FlattenOneMore(bufs, c.topics[i] + [0]);
      bufs := bufs + [c.topics[i] + [0]];
      assert c.topics[i..][1..] == c.topics[i + 1..];
      i := i + 1;
    }
    assert CommandBytes(c) == head + TopicBytes(c.topics);
  }

  method PersistPublish(c: StoredCommand) returns (bufs: seq<seq<byte>>)
    requires Holds(c) && c.PublishCommand?
    ensures |bufs| == 7 && Flatten(bufs) == CommandBytes(c)
  {
    bufs := PersistHead(PUBLISH_TYPE, c.token);
    FlattenTwoMore(bufs, c.destination + [0], IntBytes(|c.payload|));
    bufs := bufs + [c.destination + [0], IntBytes(|c.payload|)];
    FlattenOneMore(bufs, c.payload);
    bufs := bufs + [c.payload];
    FlattenTwoMore(bufs, IntBytes(c.qos), IntBytes(c.retained));
    bufs := bufs + [IntBytes(c.qos), IntBytes(c.retained)];
  }

  function AfterTopics(topics: seq<CString>, r: Option<(seq<CString>, seq<byte>)>): Option<(seq<CString>, seq<byte>)> {
    if r.None? then None else Some((topics + r.value.0, r.value.1))
  }

  /** The topics of an UNSUBSCRIBE, read with an advancing pointer. */
  method RestoreTopics(buffer: seq<byte>, count: int32) returns (r: Option<(seq<CString>, seq<byte>)>)
    ensures r == TakeTopics(buffer, count)
  {
    var ptr := buffer;
    var topics: seq<CString> := [];
    var i := 0;
    assert TakeTopics(ptr, count).Some? ==> [] + TakeTopics(ptr, count).value.0 == TakeTopics(ptr, count).value.0;
    while i < count
      invariant 0 <= i && (i <= count || i == 0)
      invariant TakeTopics(buffer, count) == AfterTopics(topics, TakeTopics(ptr, count - i))
    {
      var t := TakeString(ptr);
      if t.None? {
        return None;
      }
      ghost var rest := TakeTopics(t.value.1, count - i - 1);
      assert rest.Some? ==> topics + ([t.value.0] + rest.value.0) == topics + [t.value.0] + rest.value.0;
      topics := topics + [t.value.0];
      ptr := t.value.1;
      i := i + 1;
    }
    assert topics + [] == topics;
    r := Some((topics, ptr));
  }

  function AfterSubscriptions(topics: seq<CString>, qoss: seq<int32>, r: Option<(seq<CString>, seq<int32>, seq<byte>)>)
    : Option<(seq<CString>, seq<int32>, seq<byte>)>
  {
    if r.None? then None else Some((topics + r.value.0, qoss + r.value.1, r.value.2))
  }

  lemma SubscriptionTaken(topics: seq<CString>, qoss: seq<int32>, t: CString, q: int32, r: Option<(seq<CString>, seq<int32>, seq<byte>)>)
    ensures AfterSubscriptions(topics, qoss, AfterSubscriptions([t], [q], r)) == AfterSubscriptions(topics + [t], qoss + [q], r)
  {
    if r.Some? {
      assert topics + ([t] + r.value.0) == topics + [t] + r.value.0;
      assert qoss + ([q] + r.value.1) == qoss + [q] + r.value.1;
    }
  }

  /** One turn of the loop. */
  lemma SubscriptionsStep(s: seq<byte>, n: int)
    requires n > 0
    ensures TakeSubscriptions(s, n) ==
            if TakeString(s).None? || TakeInt(TakeString(s).value.1).None? then None
            else
              var t := TakeString(s).value;
              var q := TakeInt(t.1).value;
              AfterSubscriptions([t.0], [q.0], TakeSubscriptions(q.1, n - 1))
  {
  }

  /** The topics and QoS values of a SUBSCRIBE, read with an advancing pointer. */
  method RestoreSubscriptions(buffer: seq<byte>, count: int32) returns (r: Option<(seq<CString>, seq<int32>, seq<byte>)>)
    ensures r == TakeSubscriptions(buffer, count)
  {
    var ptr := buffer;
    var topics: seq<CString> := [];
    var qoss: seq<int32> := [];
    var i := 0;
    ghost var all := TakeSubscriptions(ptr, count);
    assert all.Some? ==> [] + all.value.0 == all.value.0 && [] + all.value.1 == all.value.1;
    hide TakeString, TakeInt;
    while i < count
      invariant 0 <= i && (i <= count || i == 0)
      invariant all == AfterSubscriptions(topics, qoss, TakeSubscriptions(ptr, count - i))
    {
      SubscriptionsStep(ptr, count - i);
      var t := TakeString(ptr);
      if t.None? {
        return None;
      }
      var q := TakeInt(t.value.1);
      if q.None? {
        return None;
      }
      SubscriptionTaken(topics, qoss, t.value.0, q.value.0, TakeSubscriptions(q.value.1, count - i - 1));
      topics := topics + [t.value.0];
      qoss := qoss + [q.value.0];
      ptr := q.value.1;
      i := i + 1;
    }
    assert topics + [] == topics && qoss + [] == qoss;
    r := Some((topics, qoss, ptr));
  }

  // Messages waiting for the application

  datatype StoredMessage =
    StoredMessage(payload: seq<byte>, qos: int32, retained: int32, dup: int32, msgid: int32, topicName: CString, topicLen: int32)

  function MessageBytes(m: StoredMessage): seq<byte>
    requires |m.payload| <= INT_MAX
  {
    IntBytes(|m.payload|) + (m.payload + (IntBytes(m.qos) + (IntBytes(m.retained) + (IntBytes(m.dup) +
    (IntBytes(m.msgid) + (m.topicName + ([0] + IntBytes(m.topicLen))))))))
  }

  function TakeMessage(s: seq<byte>): Option<(StoredMessage, seq<byte>)> {
    var (length, s1) :- TakeInt(s);
    var (payload, s2) :- TakeBytes(s1, length);
    var (qos, s3) :- TakeInt(s2);
    var (retained, s4) :- TakeInt(s3);
    var (dup, s5) :- TakeInt(s4);
    var (msgid, s6) :- TakeInt(s5);
    var (topicName, s7) :- TakeString(s6);
    var (topicLen, rest) :- TakeInt(s7);
    Some((StoredMessage(payload, qos, retained, dup, msgid, topicName, topicLen), rest))
  }

  /** A queued message comes back from the store as it was, whatever bytes its payload has. */
  lemma TakeMessageBack(m: StoredMessage)
    requires |m.payload| <= INT_MAX
    ensures TakeMessage(MessageBytes(m)) == Some((m, []))
  {
    var s7 := IntBytes(m.topicLen) + [];
    assert s7 == IntBytes(m.topicLen);
    var s6 := m.topicName + ([0] + s7);
    var s5 := IntBytes(m.msgid) + s6;
    var s4 := IntBytes(m.dup) + s5;
    var s3 := IntBytes(m.retained) + s4;
    var s2 := IntBytes(m.qos) + s3;
    var s1 := m.payload + s2;
    TakeIntBack(|m.payload|, s1);
    TakeBytesBack(m.payload, s2);
    TakeIntBack(m.qos, s3);
    TakeIntBack(m.retained, s4);
    TakeIntBack(m.dup, s5);
    TakeIntBack(m.msgid, s6);
    TakeStringBack(m.topicName, s7);
    TakeIntBack(m.topicLen, []);
  }

  // Where the fields stand

  /** Four bytes, lowest first, that hold a C int. */
  predicate IntStands(s: seq<byte>, at: nat, n: int32) {
    && at + 4 <= |s|
    && (s[at] as int) + 256 * (s[at + 1] as int) + 0x1_0000 * (s[at + 2] as int) + 0x100_0000 * (s[at + 3] as int) ==
       if n < 0 then n + 0x1_0000_0000 else n
  }

  lemma IntStandsIn(s: seq<byte>, at: nat, n: int32, rest: seq<byte>)
    requires at <= |s| && s[at..] == IntBytes(n) + rest
    ensures IntStands(s, at, n) && s[at + 4..] == rest
  {
    var u := if n < 0 then n + 0x1_0000_0000 else n;
    var t := IntBytes(n) + rest;
    assert s[at] == t[0] && s[at + 1] == t[1] && s[at + 2] == t[2] && s[at + 3] == t[3];
    assert u == u % 256 + 256 * (u / 256);
    assert u / 256 == u / 256 % 256 + 256 * (u / 0x1_0000);
    assert u / 0x1_0000 == u / 0x1_0000 % 256 + 256 * (u / 0x100_0000);
    assert s[at + 4..] == s[at..][4..] == t[4..] == rest;
  }

  lemma BytesStandIn(s: seq<byte>, at: nat, b: seq<byte>, rest: seq<byte>)
    requires at <= |s| && s[at..] == b + rest
    ensures at + |b| <= |s| && s[at..at + |b|] == b && s[at + |b|..] == rest
  {
    assert s[at..at + |b|] == s[at..][..|b|] && s[at + |b|..] == s[at..][|b|..];
  }

  /** The record of a queued message, field by field. */
  lemma MessageLayout(m: StoredMessage)
    requires |m.payload| <= INT_MAX
    ensures var s, n, t := MessageBytes(m), |m.payload|, |m.topicName|;
            && |s| == 25 + n + t && IntStands(s, 0, n) && s[4..4 + n] == m.payload
            && IntStands(s, 4 + n, m.qos) && IntStands(s, 8 + n, m.retained) && IntStands(s, 12 + n, m.dup) && IntStands(s, 16 + n, m.msgid)
            && s[20 + n..20 + n + t] == m.topicName && s[20 + n + t] == 0 && IntStands(s, 21 + n + t, m.topicLen)
  {
    var s, n := MessageBytes(m), |m.payload|;
    var s6 := m.topicName + ([0] + IntBytes(m.topicLen));
    var s2 := IntBytes(m.qos) + (IntBytes(m.retained) + (IntBytes(m.dup) + (IntBytes(m.msgid) + s6)));
    PayloadStands(s, m.payload, s2);
    hide MessageBytes, IntBytes, IntStands;
    FourIntsStand(s, 4 + n, m.qos, m.retained, m.dup, m.msgid, s6);
    StringAndInt(s, 20 + n, m.topicName, m.topicLen);
  }

  lemma PayloadStands(s: seq<byte>, payload: seq<byte>, rest: seq<byte>)
    requires |payload| <= INT_MAX && s == IntBytes(|payload|) + (payload + rest)
    ensures IntStands(s, 0, |payload|) && |s| >= 4 + |payload| && s[4..4 + |payload|] == payload && s[4 + |payload|..] == rest
  {
    assert s[0..] == s;
    hide IntBytes, IntStands;
    IntStandsIn(s, 0, |payload|, payload + rest);
    BytesStandIn(s, 4, payload, rest);
  }

  lemma FourIntsStand(s: seq<byte>, at: nat, a: int32, b: int32, c: int32, d: int32, rest: seq<byte>)
    requires at <= |s| && s[at..] == IntBytes(a) + (IntBytes(b) + (IntBytes(c) + (IntBytes(d) + rest)))
    ensures IntStands(s, at, a) && IntStands(s, at + 4, b) && IntStands(s, at + 8, c) && IntStands(s, at + 12, d)
    ensures |s| >= at + 16 && s[at + 16..] == rest
  {
    hide IntBytes, IntStands;
    IntStandsIn(s, at, a, IntBytes(b) + (IntBytes(c) + (IntBytes(d) + rest)));
    IntStandsIn(s, at + 4, b, IntBytes(c) + (IntBytes(d) + rest));
    IntStandsIn(s, at + 8, c, IntBytes(d) + rest);
    IntStandsIn(s, at + 12, d, rest);
  }

  lemma StringAndInt(s: seq<byte>, at: nat, t: CString, n: int32)
    requires at <= |s| && s[at..] == t + ([0] + IntBytes(n))
    ensures |s| == at + |t| + 5 && s[at..at + |t|] == t && s[at + |t|] == 0 && IntStands(s, at + |t| + 1, n)
  {
    hide IntBytes, IntStands;
    BytesStandIn(s, at, t, [0] + IntBytes(n));
    BytesStandIn(s, at + |t|, [0], IntBytes(n));
    assert IntBytes(n) == IntBytes(n) + [];
    IntStandsIn(s, at + |t| + 1, n, []);
  }

  /** All command records start with the type of their packet and the token, and those with topics go on
      with their number. */
  lemma CommandLayout(c: StoredCommand)
    requires Holds(c)
    ensures var s := CommandBytes(c);
            && IntStands(s, 0, match c case Subscribe(_, _, _) => 8 case Unsubscribe(_, _) => 10 case PublishCommand(_, _, _, _, _) => 3)
            && IntStands(s, 4, c.token)
            && (c.Subscribe? || c.Unsubscribe? ==> IntStands(s, 8, |c.topics|))
  {
    var s := CommandBytes(c);
    hide IntBytes, IntStands;
    match c
    case Subscribe(token, topics, qoss) =>
      HeadStands(s, 8, token, IntBytes(|topics|) + SubscriptionBytes(topics, qoss));
      IntStandsIn(s, 8, |topics|, SubscriptionBytes(topics, qoss));
    case Unsubscribe(token, topics) =>
      HeadStands(s, 10, token, IntBytes(|topics|) + TopicBytes(topics));
      IntStandsIn(s, 8, |topics|, TopicBytes(topics));
    case PublishCommand(token, destination, payload, qos, retained) =>
      HeadStands(s, 3, token, AfterToken(c));
  }

  lemma HeadStands(s: seq<byte>, kind: int32, token: int32, rest: seq<byte>)
    requires s == IntBytes(kind) + (IntBytes(token) + rest)
    ensures IntStands(s, 0, kind) && IntStands(s, 4, token) && |s| >= 8 && s[8..] == rest
  {
    assert s[0..] == s;
    hide IntBytes, IntStands;
    IntStandsIn(s, 0, kind, IntBytes(token) + rest);
    IntStandsIn(s, 4, token, rest);
  }

  function AfterToken(c: StoredCommand): seq<byte>
    requires Holds(c) && c.PublishCommand?
  {
    c.destination + ([0] + (IntBytes(|c.payload|) + (c.payload + (IntBytes(c.qos) + IntBytes(c.retained)))))
  }

  /** The rest of the record of a queued publish command. */
  lemma PublishCommandLayout(c: StoredCommand)
    requires Holds(c) && c.PublishCommand?
    ensures var s, d, n := CommandBytes(c), |c.destination|, |c.payload|;
            && |s| == 21 + d + n && s[8..8 + d] == c.destination && s[8 + d] == 0
            && IntStands(s, 9 + d, n) && s[13 + d..13 + d + n] == c.payload
            && IntStands(s, 13 + d + n, c.qos) && IntStands(s, 17 + d + n, c.retained)
  {
    var s, d, n := CommandBytes(c), |c.destination|, |c.payload|;
    var s5 := IntBytes(c.qos) + IntBytes(c.retained);
    var s3 := IntBytes(n) + (c.payload + s5);
    HeadStands(s, 3, c.token, AfterToken(c));
    assert s[8..] == c.destination + ([0] + s3);
    hide CommandBytes, IntBytes, IntStands, AfterToken;
    BytesStandIn(s, 8, c.destination, [0] + s3);
    BytesStandIn(s, 8 + d, [0], s3);
    IntStandsIn(s, 9 + d, n, c.payload + s5);
    BytesStandIn(s, 13 + d, c.payload, s5);
    IntStandsIn(s, 13 + d + n, c.qos, IntBytes(c.retained));
    assert IntBytes(c.retained) == IntBytes(c.retained) + [];
    IntStandsIn(s, 17 + d + n, c.retained, []);
  }
}
