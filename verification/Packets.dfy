/** The MQTT packets of the QoS 1 and QoS 2 flows and their bytes, sections 2.2 and 3.3 to 3.7 of MQTT 3.1.1. */
module Packets {
  import opened Bytes
  import opened RemainingLength

  datatype AckKind = PUBACK | PUBREC | PUBREL | PUBCOMP

  type Qos = q: int | 0 <= q <= 3

  const MAX_MSG_ID := 65535

  type MsgId = i: int | 0 <= i <= 65535

  datatype Packet =
    | Publish(dup: bool, qos: Qos, retain: bool, msgId: MsgId, topic: CString, payload: seq<byte>)
    | Ack(kind: AckKind, dup: bool, msgId: MsgId)

  const PUBLISH_CODE := 3

  function AckCode(kind: AckKind): (c: byte)
    ensures 4 <= c <= 7
  {
    match kind
    case PUBACK => 4
    case PUBREC => 5
    case PUBREL => 6
    case PUBCOMP => 7
  }

  function AckOfCode(c: byte): AckKind {
    if c == 4 then PUBACK else if c == 5 then PUBREC else if c == 6 then PUBREL else PUBCOMP
  }

  // The four bit fields of the first byte: type, DUP, QoS and RETAIN.

  function FlagBits(code: byte, dup: bool, qos: Qos, retain: bool): byte
    requires code < 16
  {
    var flags: int := (if dup then 8 else 0) + 2 * qos + (if retain then 1 else 0);
    16 * (code as int) + flags
  }

  function TypeOf(b: byte): byte { b / 16 }

  function DupOf(b: byte): bool { b / 8 % 2 == 1 }

  function QosOf(b: byte): Qos { b / 2 % 4 }

  function RetainOf(b: byte): bool { b % 2 == 1 }

  lemma FlagBitsSeparate(code: byte, dup: bool, qos: Qos, retain: bool)
    requires code < 16
    ensures var b := FlagBits(code, dup, qos, retain);
            TypeOf(b) == code && DupOf(b) == dup && QosOf(b) == qos && RetainOf(b) == retain
  {
    var b := FlagBits(code, dup, qos, retain);
    var d := if dup then 1 else 0;
    var r := if retain then 1 else 0;
    assert b / 2 == 8 * code + 4 * d + qos;
    assert b / 8 == 2 * code + d;
  }

  function HeaderByte(p: Packet): byte {
    match p
    case Publish(dup, qos, retain, _, _, _) => FlagBits(PUBLISH_CODE, dup, qos, retain)
    case Ack(kind, dup, _) => FlagBits(AckCode(kind), dup, if kind == PUBREL then 1 else 0, false)
  }

  /** The buffers handed to the socket after the fixed header. */
  function Parts(p: Packet): seq<seq<byte>> {
    match p
    case Publish(_, qos, _, msgId, topic, payload) =>
      if qos > 0 then [WriteInt(|topic|), topic, WriteInt(msgId), payload] else [WriteInt(|topic|), topic, payload]
    case Ack(_, _, msgId) => [WriteInt(msgId)]
  }

  function Body(p: Packet): seq<byte> {
    Flatten(Parts(p))
  }

  function FixedHeader(p: Packet): seq<byte> {
    [HeaderByte(p)] + EncodeLength(|Body(p)|)
  }

  /** All the buffers of one packet, in the order they go to the socket. */
  function Buffers(p: Packet): seq<seq<byte>> {
    [FixedHeader(p)] + Parts(p)
  }

  function Wire(p: Packet): (w: seq<byte>)
    ensures |w| >= 2
  {
    FixedHeader(p) + Body(p)
  }

  lemma BuffersAreWire(p: Packet)
    ensures Flatten(Buffers(p)) == Wire(p)
  {
    assert Buffers(p)[1..] == Parts(p);
  }

  lemma BodyLayout(p: Packet)
    ensures p.Ack? ==> Body(p) == WriteInt(p.msgId)
    ensures p.Publish? && p.qos > 0 ==> Body(p) == WriteInt(|p.topic|) + (p.topic + (WriteInt(p.msgId) + p.payload))
    ensures p.Publish? && p.qos == 0 ==> Body(p) == WriteInt(|p.topic|) + (p.topic + p.payload)
  {
    match p
    case Publish(_, qos, _, msgId, topic, payload) =>
      FlattenCons(payload, []);
      FlattenCons(WriteInt(msgId), [payload]);
      var tail := if qos > 0 then [WriteInt(msgId), payload] else [payload];
      FlattenCons(topic, tail);
      FlattenCons(WriteInt(|topic|), [topic] + tail);
      assert Parts(p) == [WriteInt(|topic|)] + ([topic] + tail);
      if qos > 0 {
        assert tail == [WriteInt(msgId)] + [payload];
        assert [payload] == [payload] + [];
      } else {
        assert tail == [payload] + [];
      }
    case Ack(_, _, msgId) =>
      FlattenCons(WriteInt(msgId), []);
      assert Parts(p) == [WriteInt(msgId)] + [];
  }

  // Parsing

  function ParsePublish(header: byte, body: seq<byte>): Option<Packet> {
    if |body| <= 1 then None
    else
      var len := ReadInt(body);
      if 2 + len > |body| then None
      else
        var topic := BeforeNul(body[2..2 + len]);
        var rest := body[2 + len..];
        if QosOf(header) == 0 then Some(Publish(DupOf(header), 0, RetainOf(header), 0, topic, rest))
        else if |rest| < 2 then None
        else Some(Publish(DupOf(header), QosOf(header), RetainOf(header), ReadInt(rest), topic, rest[2..]))
  }

  /** The entry of the packet table for this type, applied to the rest of the packet. */
  function BuildPacket(header: byte, body: seq<byte>): Option<Packet> {
    var code := TypeOf(header);
    if code == PUBLISH_CODE then ParsePublish(header, body)
    else if 4 <= code <= 7 && |body| >= 2 then Some(Ack(AckOfCode(code), DupOf(header), ReadInt(body)))
    else None
  }

  /** A stored record back to a packet; None is a bad record. */
  function RestorePacket(buffer: seq<byte>): Option<Packet> {
    if |buffer| < 2 then None
    else
      var k := FirstStop(buffer[1..]);
      if k == |buffer| - 1 then None
      else
        var field := buffer[1..k + 2];
        if 1 + |field| + ValueOf(field) != |buffer| then None
        else BuildPacket(buffer[0], buffer[k + 2..])
  }

  /** What writeInt can express: a two-byte topic length, and no message id at QoS 0. */
  predicate Expressible(p: Packet) {
    p.Publish? ==> |p.topic| <= 65535 && (p.qos == 0 ==> p.msgId == 0)
  }

  lemma Slices(a: seq<byte>, b: seq<byte>, c: seq<byte>)
    ensures var s := a + (b + c);
            s[|a|..|a| + |b|] == b && s[|a| + |b|..] == c
  {
  }

  lemma ParsePublishOfBody(p: Packet)
    requires p.Publish? && Expressible(p)
    ensures ParsePublish(HeaderByte(p), Body(p)) == Some(p)
  {
    hide Body, Parts, BeforeNul, ReadInt, Flatten;
    BodyLayout(p);
    FlagBitsSeparate(PUBLISH_CODE, p.dup, p.qos, p.retain);
    hide HeaderByte, FlagBits, DupOf, QosOf, RetainOf, TypeOf;
    var tail := if p.qos > 0 then WriteInt(p.msgId) + p.payload else p.payload;
    var body := Body(p);
    assert body == WriteInt(|p.topic|) + (p.topic + tail);
    ReadIntOfWriteInt(|p.topic|, p.topic + tail);
    Slices(WriteInt(|p.topic|), p.topic, tail);
    assert body[2..2 + |p.topic|] == p.topic && body[2 + |p.topic|..] == tail;
    BeforeNulOfCString(p.topic);
    if p.qos > 0 {
      ReadIntOfWriteInt(p.msgId, p.payload);
      assert tail[2..] == p.payload;
    }
  }

  lemma BuildPacketOfBody(p: Packet)
    requires Expressible(p)
    ensures BuildPacket(HeaderByte(p), Body(p)) == Some(p)
  {
    BodyLayout(p);
    if p.Publish? {
      FlagBitsSeparate(PUBLISH_CODE, p.dup, p.qos, p.retain);
      ParsePublishOfBody(p);
    } else {
      FlagBitsSeparate(AckCode(p.kind), p.dup, if p.kind == PUBREL then 1 else 0, false);
      ReadIntOfWriteInt(p.msgId, []);
      assert WriteInt(p.msgId) + [] == WriteInt(p.msgId);
    }
  }

  lemma WireFields(p: Packet, rest: seq<byte>)
    ensures var s := Wire(p) + rest;
            var k := FirstStop(s[1..]);
            s[0] == HeaderByte(p) && k + 2 == |FixedHeader(p)| && s[1..k + 2] == EncodeLength(|Body(p)|)
  {
    var field := EncodeLength(|Body(p)|);
    var s := Wire(p) + rest;
    assert s[1..] == field + (Body(p) + rest);
    FirstStopOfEncoding(|Body(p)|, Body(p) + rest);
    assert s[1..1 + |field|] == field;
  }

  lemma RestorePacketParses(p: Packet)
    ensures RestorePacket(Wire(p)) == BuildPacket(HeaderByte(p), Body(p))
  {
    assert Wire(p) + [] == Wire(p);
    WireFields(p, []);
    EncodeLengthShape(|Body(p)|);
    assert Wire(p)[|FixedHeader(p)|..] == Body(p);
  }

  /** A packet written to the store comes back unchanged exactly when writeInt could express it,
      whatever its length. */
  lemma RestorePacketOfWire(p: Packet)
    ensures RestorePacket(Wire(p)) == Some(p) <==> Expressible(p)
  {
    RestorePacketParses(p);
    if Expressible(p) {
      BuildPacketOfBody(p);
    } else {
      FlagBitsSeparate(PUBLISH_CODE, p.dup, p.qos, p.retain);
      var r := ParsePublish(HeaderByte(p), Body(p));
      assert r.Some? ==> |r.value.topic| <= 65535;
    }
  }

  // Reading packets back from a byte stream

  datatype Read =
    | Got(packet: Option<Packet>, used: nat)
    | Incomplete
    | Malformed

  /** One call of the packet factory on what the socket holds. */
  function ReadPacket(stream: seq<byte>): (r: Read)
    ensures r.Got? ==> 2 <= r.used <= |stream|
  {
    if stream == [] then Incomplete
    else
      match Decode(stream[1..])
      case BadData => Malformed
      case Interrupted => Incomplete
      case Value(length, used) =>
        if 1 + used + length > |stream| then Incomplete
        else Got(BuildPacket(stream[0], stream[1 + used..1 + used + length]), 1 + used + length)
  }

  /** The packets at the front of a stream and the bytes left over. */
  function ReadAll(stream: seq<byte>): (seq<Packet>, seq<byte>)
    decreases |stream|
  {
    var r := ReadPacket(stream);
    if r.Got? && r.packet.Some? then
      var (packets, rest) := ReadAll(stream[r.used..]);
      ([r.packet.value] + packets, rest)
    else ([], stream)
  }

  /** The bytes of several packets sent one after the other. */
  function Stream(packets: seq<Packet>): seq<byte> {
    if packets == [] then [] else Wire(packets[0]) + Stream(packets[1..])
  }

  lemma {:induction false} StreamSnoc(packets: seq<Packet>, p: Packet)
    ensures Stream(packets + [p]) == Stream(packets) + Wire(p)
  {
    if packets == [] {
      assert packets + [p] == [p];
      assert [p][1..] == [];
      assert Stream([]) == [];
    } else {
      assert (packets + [p])[1..] == packets[1..] + [p];
      StreamSnoc(packets[1..], p);
    }
  }

  /** Within the limits of the standard, so that a receiver can read it. */
  predicate Transmittable(p: Packet) {
    Expressible(p) && |Body(p)| <= MAX_REMAINING_LENGTH
  }

  lemma ReadPacketOfWire(p: Packet, rest: seq<byte>)
    requires Transmittable(p)
    ensures ReadPacket(Wire(p) + rest) == Got(Some(p), |Wire(p)|)
  {
    var s := Wire(p) + rest;
    var field := EncodeLength(|Body(p)|);
    WireFields(p, rest);
    assert s[1..] == field + (Body(p) + rest);
    DecodeOfEncode(|Body(p)|, Body(p) + rest);
    assert s[1 + |field|..1 + |field| + |Body(p)|] == Body(p);
    BuildPacketOfBody(p);
  }

  lemma ReadPacketOfPart(p: Packet, k: nat)
    requires Transmittable(p) && k < |Wire(p)|
    ensures ReadPacket(Wire(p)[..k]) == Incomplete
  {
    if k > 0 {
      hide Body, HeaderByte, Decode, BuildPacket, EncodeLength, FirstStop;
      var field, body := EncodeLength(|Body(p)|), Body(p);
      var part := Wire(p)[..k];
      FourBytes(|body|);
      EncodeLengthShape(|body|);
      assert Wire(p) == [HeaderByte(p)] + (field + body);
      CutAfterHead(HeaderByte(p), field, body, k);
      if k < 1 + |field| {
        DecodeOfPart(field, k - 1);
      } else {
        DecodeOfEncode(|body|, body[..k - 1 - |field|]);
      }
    }
  }

  lemma CutAfterHead(head: byte, field: seq<byte>, body: seq<byte>, k: nat)
    requires 1 <= k <= 1 + |field| + |body|
    ensures var tail := ([head] + (field + body))[..k][1..];
            if k < 1 + |field| then tail == field[..k - 1] else tail == field + body[..k - 1 - |field|]
  {
  }

  lemma DecodeOfPart(field: seq<byte>, k: nat)
    requires Terminated(field) && k < |field| <= MAX_LENGTH_BYTES
    ensures Decode(field[..k]) == Interrupted
  {
    var part := field[..k];
    forall i | 0 <= i < k ensures part[i] >= 128 { assert part[i] == field[i]; }
    assert FirstStop(part) == k;
  }

  /** Whole packets followed by the beginning of another read back as exactly those packets. */
  lemma {:induction false} ReadAllOfStream(packets: seq<Packet>, p: Packet, k: nat)
    requires forall q :: q in packets ==> Transmittable(q)
    requires Transmittable(p) && k < |Wire(p)|
    ensures ReadAll(Stream(packets) + Wire(p)[..k]) == (packets, Wire(p)[..k])
  {
    var part := Wire(p)[..k];
    if packets == [] {
      ReadPacketOfPart(p, k);
      assert Stream(packets) + part == part;
    } else {
      var q := packets[0];
      var rest := Stream(packets[1..]) + part;
      assert Stream(packets) + part == Wire(q) + rest;
      ReadPacketOfWire(q, rest);
      assert (Wire(q) + rest)[|Wire(q)|..] == rest;
      ReadAllOfStream(packets[1..], p, k);
      assert packets == [q] + packets[1..];
    }
  }

  // The same, moving cursors through buffers

  /** Decodes a stored record with an advancing pointer. */
  method ParseStored(buffer: seq<byte>) returns (pack: Option<Packet>)
    ensures pack == RestorePacket(buffer)
  {
    if |buffer| < 2 {
      return None;
    }
    hide BuildPacket, RestorePacket, ValueOf, FirstStop;
    RestoredFields(buffer);
    var field := ParseLength(buffer);
    if field.None? {
      return None;
    }
    var (ptr, remaining) := field.value;
    if 1 + ptr + remaining != |buffer| {
      return None;
    }
    pack := BuildPacket(buffer[0], buffer[ptr + 1..]);
  }

  /** The length field behind the first byte: the position of its last byte and its value. */
  method ParseLength(buffer: seq<byte>) returns (field: Option<(nat, nat)>)
    requires |buffer| >= 2
    ensures var k := FirstStop(buffer[1..]);
            field == if k == |buffer| - 1 then None else Some((k + 1, ValueOf(buffer[1..k + 2])))
  {
    hide Pow128, ValueOf, FirstStop;
    var ptr := 0;
    var remaining: nat := 0;
    var multiplier: nat := 1;
    var c: byte := 128;
    FieldStarts(buffer);
    while c >= 128
      invariant 0 <= ptr < |buffer|
      invariant multiplier == Pow128(ptr)
      invariant remaining == ValueOf(buffer[1..1 + ptr])
      invariant ptr == 0 ==> c == 128
      invariant ptr > 0 ==> c == buffer[ptr]
      invariant forall i :: 1 <= i < ptr ==> buffer[i] >= 128
      decreases |buffer| - ptr
    {
      if ptr + 1 == |buffer| {
        FieldStops(buffer, ptr);
        return None;
      }
      ptr := ptr + 1;
      c := buffer[ptr];
      FieldGrows(buffer, ptr);
      remaining := remaining + c % 128 * multiplier;
      multiplier := multiplier * 128;
    }
    FieldStops(buffer, ptr - 1);
    field := Some((ptr, remaining));
  }

  lemma RestoredFields(buffer: seq<byte>)
    ensures RestorePacket(buffer) ==
            if |buffer| < 2 || FirstStop(buffer[1..]) == |buffer| - 1 then None
            else var k := FirstStop(buffer[1..]);
                 if k + 2 + ValueOf(buffer[1..k + 2]) != |buffer| then None else BuildPacket(buffer[0], buffer[k + 2..])
  {
    if |buffer| >= 2 {
      var k := FirstStop(buffer[1..]);
      assert k < |buffer| - 1 ==> |buffer[1..k + 2]| == k + 1;
    }
  }

  lemma FieldStarts(buffer: seq<byte>)
    requires |buffer| >= 1
    ensures ValueOf(buffer[1..1]) == 0 && Pow128(0) == 1
  {
  }

  lemma FieldGrows(buffer: seq<byte>, ptr: nat)
    requires 1 <= ptr < |buffer|
    ensures ValueOf(buffer[1..1 + ptr]) == ValueOf(buffer[1..ptr]) + buffer[ptr] % 128 * Pow128(ptr - 1)
    ensures Pow128(ptr) == Pow128(ptr - 1) * 128
  {
    ValueOfSnoc(buffer[1..ptr], buffer[ptr]);
    assert buffer[1..1 + ptr] == buffer[1..ptr] + [buffer[ptr]];
  }

  /** The length field stops behind its first k bytes, or not at all. */
  lemma FieldStops(buffer: seq<byte>, k: nat)
    requires k + 1 <= |buffer|
    requires forall i :: 1 <= i <= k ==> buffer[i] >= 128
    requires k + 1 < |buffer| ==> buffer[k + 1] < 128
    ensures FirstStop(buffer[1..]) == k
  {
    forall i | 0 <= i < k ensures buffer[1..][i] >= 128 { assert buffer[1..][i] == buffer[i + 1]; }
    if k + 1 < |buffer| { FirstStopUnique(buffer[1..], k); }
  }
}
