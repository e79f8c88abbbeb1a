/** The variable-length "remaining length" field, section 2.2.3 of MQTT 3.1.1. */
module RemainingLength {
  import opened Bytes

  const MAX_LENGTH_BYTES := 4

  /** The largest value four bytes can carry. */
  const MAX_REMAINING_LENGTH := 268435455

  datatype Decoded =
    | Value(value: nat, used: nat)
    | Interrupted
    | BadData

  /** The bytes for n, least significant group of seven bits first. */
  function EncodeLength(n: nat): (w: seq<byte>)
    ensures |w| >= 1
  {
    if n < 128 then [n] else [n % 128 + 128] + EncodeLength(n / 128)
  }

  /** What a run of length bytes stands for. */
  function ValueOf(w: seq<byte>): nat {
    if w == [] then 0 else w[0] % 128 + 128 * ValueOf(w[1..])
  }

  /** A complete field: only its last byte has the top bit clear. */
  predicate Terminated(w: seq<byte>) {
    |w| > 0 && w[|w| - 1] < 128 && forall i :: 0 <= i < |w| - 1 ==> w[i] >= 128
  }

  /** Index of the first byte whose top bit is clear, or |s|. */
  function FirstStop(s: seq<byte>): (k: nat)
    ensures k <= |s|
    ensures k < |s| ==> s[k] < 128
    ensures forall i :: 0 <= i < k ==> s[i] >= 128
  {
    if s == [] || s[0] < 128 then 0 else 1 + FirstStop(s[1..])
  }

  lemma FirstStopUnique(s: seq<byte>, k: nat)
    requires k < |s| && s[k] < 128
    requires forall i :: 0 <= i < k ==> s[i] >= 128
    ensures FirstStop(s) == k
  {
    var f := FirstStop(s);
    assert f <= k;
  }

  /** Outcome of reading a length from a stream that may end early. */
  function Decode(s: seq<byte>): Decoded {
    var k := FirstStop(s);
    if k >= MAX_LENGTH_BYTES then BadData
    else if k == |s| then Interrupted
    else Value(ValueOf(s[..k + 1]), k + 1)
  }

  function Pow128(k: nat): (p: nat)
    ensures p >= 1
  {
    if k == 0 then 1 else 128 * Pow128(k - 1)
  }

  lemma {:induction false} EncodeLengthShape(n: nat)
    ensures Terminated(EncodeLength(n))
    ensures ValueOf(EncodeLength(n)) == n
  {
    if n >= 128 {
      EncodeLengthShape(n / 128);
      assert EncodeLength(n)[1..] == EncodeLength(n / 128);
      var w := EncodeLength(n);
      forall i | 0 <= i < |w| - 1 ensures w[i] >= 128 {
        if i > 0 { assert w[i] == EncodeLength(n / 128)[i - 1]; }
      }
    }
  }

  /** k bytes are enough for exactly the values below 128^k. */
  lemma {:induction false} EncodeLengthSize(n: nat, k: nat)
    requires k >= 1
    ensures |EncodeLength(n)| <= k <==> n < Pow128(k)
  {
    if k == 1 {
      assert Pow128(1) == 128 * Pow128(0) == 128;
    } else if n >= 128 {
      EncodeLengthSize(n / 128, k - 1);
      assert n / 128 < Pow128(k - 1) <==> n < 128 * Pow128(k - 1);
    } else {
      assert Pow128(k) == 128 * Pow128(k - 1) >= 128;
    }
  }

  /** No complete field for the same value is shorter, and at that size there is no other. */
  lemma {:induction false} EncodeLengthMinimal(w: seq<byte>)
    requires Terminated(w)
    ensures |EncodeLength(ValueOf(w))| <= |w|
    ensures |EncodeLength(ValueOf(w))| == |w| ==> w == EncodeLength(ValueOf(w))
  {
    if |w| == 1 {
      assert w[1..] == [];
      assert ValueOf(w) == w[0] < 128;
    } else {
      assert Terminated(w[1..]) by {
        forall i | 0 <= i < |w[1..]| - 1 ensures w[1..][i] >= 128 { assert w[1..][i] == w[i + 1]; }
      }
      EncodeLengthMinimal(w[1..]);
      var v := ValueOf(w[1..]);
      assert ValueOf(w) == (w[0] - 128) + 128 * v;
      assert ValueOf(w) / 128 == v && ValueOf(w) % 128 == w[0] - 128;
      if ValueOf(w) < 128 {
        assert v == 0;
      } else {
        assert EncodeLength(ValueOf(w)) == [w[0]] + EncodeLength(v);
        assert w == [w[0]] + w[1..];
      }
    }
  }

  lemma FirstStopOfEncoding(n: nat, rest: seq<byte>)
    ensures FirstStop(EncodeLength(n) + rest) == |EncodeLength(n)| - 1
  {
    EncodeLengthShape(n);
    var w := EncodeLength(n);
    var s := w + rest;
    assert s[|w| - 1] == w[|w| - 1];
    forall i | 0 <= i < |w| - 1 ensures s[i] >= 128 { assert s[i] == w[i]; }
    FirstStopUnique(s, |w| - 1);
  }

  lemma FourBytes(n: nat)
    ensures |EncodeLength(n)| <= MAX_LENGTH_BYTES <==> n <= MAX_REMAINING_LENGTH
  {
    EncodeLengthSize(n, 4);
    assert Pow128(4) == 128 * Pow128(3) == 128 * (128 * Pow128(2)) == 16384 * (128 * Pow128(1));
    assert Pow128(1) == 128 * Pow128(0) == 128;
  }

  /** Decoding undoes encoding for the lengths the standard allows and for no other:
      a longer field is rejected without looking at a fifth byte. */
  lemma DecodeOfEncode(n: nat, rest: seq<byte>)
    ensures n <= MAX_REMAINING_LENGTH ==>
              Decode(EncodeLength(n) + rest) == Value(n, |EncodeLength(n)|) && |EncodeLength(n)| <= MAX_LENGTH_BYTES
    ensures n > MAX_REMAINING_LENGTH ==> Decode(EncodeLength(n) + rest) == BadData
  {
    FirstStopOfEncoding(n, rest);
    EncodeLengthShape(n);
    FourBytes(n);
    var w := EncodeLength(n);
    assert (w + rest)[..|w|] == w;
  }

  /** Every length a stream decodes to is within the standard's range and uses 1 to 4 bytes. */
  lemma DecodeInRange(s: seq<byte>)
    ensures Decode(s).Value? ==>
              Decode(s).value <= MAX_REMAINING_LENGTH && 1 <= Decode(s).used <= MAX_LENGTH_BYTES && Decode(s).used <= |s|
  {
    var k := FirstStop(s);
    if k < MAX_LENGTH_BYTES && k < |s| {
      var w := s[..k + 1];
      assert Terminated(w);
      EncodeLengthMinimal(w);
      FourBytes(ValueOf(w));
    }
  }

  /** One turn of the encoding loop. */
  lemma EncodeLengthStep(n: nat)
    ensures EncodeLength(n) == if n / 128 > 0 then [n % 128 + 128] + EncodeLength(n / 128) else [n % 128]
  {
  }

  /** Writes the encoding of length at buf[at..]. */
  method Encode(buf: array<byte>, at: nat, length: nat) returns (rc: nat)
    requires at + |EncodeLength(length)| <= buf.Length
    modifies buf
    ensures rc == |EncodeLength(length)|
    ensures buf[..] == old(buf[..at]) + EncodeLength(length) + old(buf[at + rc..])
  {
    hide EncodeLength;
    var n := length;
    var more := true;
    rc := 0;
    while more
      invariant more || n == 0
      invariant 0 <= rc && at + rc + (if more then |EncodeLength(n)| else 0) <= buf.Length
      invariant EncodeLength(length) == buf[at..at + rc] + (if more then EncodeLength(n) else [])
      invariant buf[..at] == old(buf[..at])
      invariant forall i :: at + rc <= i < buf.Length ==> buf[i] == old(buf[i])
      decreases more, n
    {
      ghost var written := buf[at..at + rc];
      ghost var before := n;
      EncodeLengthStep(n);
      var d := n % 128;
      n := n / 128;
      if n > 0 {
        d := d + 128;
      }
      buf[at + rc] := d;
      rc := rc + 1;
      more := n > 0;
      assert buf[at..at + rc] == written + [d];
      Regroup(written, [d], if more then EncodeLength(n) else []);
    }
    assert buf[at + rc..] == old(buf[at + rc..]);
    assert buf[..] == buf[..at] + buf[at..at + rc] + buf[at + rc..];
  }

  lemma {:induction false} ValueOfSnoc(w: seq<byte>, b: byte)
    ensures ValueOf(w + [b]) == ValueOf(w) + Pow128(|w|) * (b % 128)
  {
    if w == [] {
      assert w + [b] == [b];
      assert [b][1..] == [];
    } else {
      assert (w + [b])[1..] == w[1..] + [b];
      ValueOfSnoc(w[1..], b);
      assert 128 * (Pow128(|w| - 1) * (b % 128)) == Pow128(|w|) * (b % 128);
    }
  }

  /** Reads the field byte by byte; `multiplier` is a C int and stays one. */
  method DecodeStream(stream: seq<byte>) returns (r: Decoded)
    ensures r == Decode(stream)
  {
    var multiplier: int32 := 1;
    var value: nat := 0;
    var len := 0;
    var c: byte := 128;
    while c >= 128
      invariant 0 <= len <= MAX_LENGTH_BYTES && len <= |stream|
      invariant multiplier == Pow128(len)
      invariant value == ValueOf(stream[..len])
      invariant len == 0 ==> c == 128
      invariant len > 0 ==> c == stream[len - 1]
      invariant forall i :: 0 <= i < len - 1 ==> stream[i] >= 128
      decreases MAX_LENGTH_BYTES - len + (if c >= 128 then 1 else 0)
    {
      if len + 1 > MAX_LENGTH_BYTES {
        assert forall i :: 0 <= i < 4 ==> stream[i] >= 128;
        return BadData;
      }
      if len == |stream| {
        return Interrupted;
      }
      c := stream[len];
      ValueOfSnoc(stream[..len], c);
      assert stream[..len + 1] == stream[..len] + [c];
      assert Pow128(0) == 1 && Pow128(1) == 128 && Pow128(2) == 16384 && Pow128(3) == 2097152;
      value := value + c % 128 * multiplier;
      assert Pow128(len + 1) == 128 * Pow128(len);
      multiplier := multiplier * 128;
      len := len + 1;
    }
    FirstStopUnique(stream, len - 1);
    r := Value(value, len);
  }
}
