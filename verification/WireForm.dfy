/** The bytes of each packet in the numbers of MQTT 3.1.1, sections 2.2 and 3.3 to 3.7, independently of
    how this client reads them. */
module WireForm {
  import opened Bytes
  import opened RemainingLength
  import opened Packets

  function Bit(b: bool): nat {
    if b then 1 else 0
  }

  /** Type and flags: 3 for PUBLISH with DUP, QoS and RETAIN; 4, 5, 6 and 7 for the answers, of which
      PUBREL alone carries a 2. */
  lemma FirstByte(p: Packet)
    ensures p.Publish? ==> Wire(p)[0] as nat == 48 + 8 * Bit(p.dup) + 2 * p.qos + Bit(p.retain)
    ensures p.Ack? ==>
              Wire(p)[0] as nat == (match p.kind case PUBACK => 64 case PUBREC => 80 case PUBREL => 98 case PUBCOMP => 112) + 8 * Bit(p.dup)
  {
  }

  /** The length field holds seven bits a byte, lowest first, and goes on as long as its top bit is set. */
  lemma {:induction false} LengthDigits(n: nat, i: nat)
    requires i < |EncodeLength(n)|
    ensures EncodeLength(n)[i] as nat % 128 == n / Pow128(i) % 128
    ensures EncodeLength(n)[i] >= 128 <==> i + 1 < |EncodeLength(n)|
  {
    if i > 0 {
      LengthDigits(n / 128, i - 1);
      NestedQuotient(n, Pow128(i - 1));
    }
  }

  lemma NestedQuotient(n: nat, k: nat)
    requires k > 0
    ensures n / (128 * k) == n / 128 / k
  {
    var q, r := n / 128 / k, n / 128 % k;
    assert n / 128 == q * k + r;
    var low := n % 128;
    assert n == 128 * (q * k + r) + low;
    assert n == (128 * k) * q + (128 * r + low) by {
      assert 128 * (q * k + r) == (128 * k) * q + 128 * r;
    }
    assert 0 <= 128 * r + low < 128 * k;
    QuotientIs(n, 128 * k, q, 128 * r + low);
  }

  lemma QuotientIs(n: nat, d: nat, q: nat, r: nat)
    requires d > 0 && r < d && n == d * q + r
    ensures n / d == q
  {
    assert n == d * (n / d) + n % d;
    if n / d > q {
      OneMore(d, n / d, q);
    } else if n / d < q {
      OneMore(d, q, n / d);
    }
  }

  lemma {:induction false} OneMore(d: nat, a: nat, b: nat)
    requires a > b
    ensures d * a >= d * b + d
  {
    assert d * a == d * (a - 1) + d;
    if a - 1 > b {
      OneMore(d, a - 1, b);
    }
  }

  /** The length of the example in section 2.2.3. */
  lemma LengthExample()
    ensures EncodeLength(64) == [64] && EncodeLength(321) == [193, 2]
  {
  }

  /** Everything behind the length field. */
  function AfterLength(p: Packet): seq<byte> {
    Wire(p)[1 + |EncodeLength(|Body(p)|)|..]
  }

  lemma AfterLengthIsBody(p: Packet)
    ensures AfterLength(p) == Body(p) && Wire(p)[1..1 + |EncodeLength(|Body(p)|)|] == EncodeLength(|AfterLength(p)|)
  {
    assert Wire(p) == [HeaderByte(p)] + (EncodeLength(|Body(p)|) + Body(p));
  }

  /** Topic length, high byte first, topic, the id above QoS 0 only, high byte first, and payload. */
  lemma PublishBytes(p: Packet)
    requires p.Publish?
    ensures var b, n := AfterLength(p), |p.topic|;
            && Wire(p)[1..1 + |EncodeLength(|b|)|] == EncodeLength(|b|)
            && |b| == 2 + n + (if p.qos > 0 then 2 else 0) + |p.payload|
            && b[0] as nat == n / 256 % 256 && b[1] as nat == n % 256 && b[2..2 + n] == p.topic
            && (if p.qos > 0
                then b[2 + n] as nat == p.msgId / 256 && b[3 + n] as nat == p.msgId % 256 && b[4 + n..] == p.payload
                else b[2 + n..] == p.payload)
  {
    AfterLengthIsBody(p);
    BodyLayout(p);
    hide Wire, EncodeLength, Body, AfterLength;
    if p.qos > 0 {
      Slices(WriteInt(|p.topic|), p.topic, WriteInt(p.msgId) + p.payload);
      assert AfterLength(p)[2 + |p.topic|..] == WriteInt(p.msgId) + p.payload;
    } else {
      Slices(WriteInt(|p.topic|), p.topic, p.payload);
    }
  }

  /** An answer is four bytes: type, length 2 and the id, high byte first. */
  lemma AckBytes(p: Packet)
    requires p.Ack?
    ensures |Wire(p)| == 4 && Wire(p)[1] == 2 && Wire(p)[2] as nat == p.msgId / 256 && Wire(p)[3] as nat == p.msgId % 256
  {
    BodyLayout(p);
    assert EncodeLength(2) == [2];
  }
}
