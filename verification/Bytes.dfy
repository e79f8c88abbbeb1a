/** Bytes, C strings and the fixed-size integers that packets and stored records are made of. */
module Bytes {

  datatype Option<+T> = None | Some(value: T) {
    predicate IsFailure() {
      None?
    }

    function PropagateFailure<U>(): Option<U>
      requires None?
    {
      None
    }

    function Extract(): T
      requires Some?
    {
      value
    }
  }

  type byte = b: int | 0 <= b < 0x100

  /** A C string without its terminator, so without any NUL. */
  type CString = s: seq<byte> | 0 !in s witness []

  type int32 = i: int | -0x8000_0000 <= i < 0x8000_0000

  const INT_MAX: int := 0x7fff_ffff

  lemma Regroup<T>(a: seq<T>, b: seq<T>, c: seq<T>)
    ensures a + b + c == a + (b + c)
  {
  }

  /** A list of buffers read one after the other, as writev does. */
  function Flatten(buffers: seq<seq<byte>>): seq<byte> {
    if buffers == [] then [] else buffers[0] + Flatten(buffers[1..])
  }

  lemma {:induction false} FlattenAppend(front: seq<seq<byte>>, back: seq<seq<byte>>)
    ensures Flatten(front + back) == Flatten(front) + Flatten(back)
  {
    if front == [] {
      assert front + back == back;
    } else {
      assert (front + back)[1..] == front[1..] + back;
      FlattenAppend(front[1..], back);
    }
  }

  lemma FlattenCons(b: seq<byte>, rest: seq<seq<byte>>)
    ensures Flatten([b] + rest) == b + Flatten(rest)
  {
    assert ([b] + rest)[1..] == rest;
  }

  /** What a C library sees of a byte buffer: everything before the first NUL. */
  function BeforeNul(s: seq<byte>): (r: CString)
    ensures |r| <= |s|
  {
    if s == [] || s[0] == 0 then [] else [s[0]] + BeforeNul(s[1..])
  }

  lemma {:induction false} BeforeNulStops(s: CString, rest: seq<byte>)
    ensures BeforeNul(s + [0] + rest) == s
  {
    if s == [] {
      assert s + [0] + rest == [0] + rest;
    } else {
      var t: CString := s[1..];
      assert (s + [0] + rest)[1..] == t + [0] + rest;
      BeforeNulStops(t, rest);
    }
  }

  lemma {:induction false} BeforeNulOfCString(s: CString)
    ensures BeforeNul(s) == s
  {
    if s != [] {
      var t: CString := s[1..];
      BeforeNulOfCString(t);
    }
  }

  /** Two bytes, most significant first, as writeInt stores an int cast to char twice. */
  function WriteInt(n: nat): (w: seq<byte>) {
    [n / 256 % 256, n % 256]
  }

  function ReadInt(s: seq<byte>): nat
    requires |s| >= 2
  {
    var high: int := s[0];
    256 * high + s[1]
  }

  lemma ReadIntOfWriteInt(n: nat, rest: seq<byte>)
    ensures ReadInt(WriteInt(n) + rest) == n % 65536
  {
    hide ReadInt;
    var s := WriteInt(n) + rest;
    assert s[0] == n / 256 % 256 && s[1] == n % 256;
    TwoBytes(n);
    ReadIntIs(s);
  }

  lemma ReadIntIs(s: seq<byte>)
    requires |s| >= 2
    ensures ReadInt(s) == 256 * (s[0] as int) + s[1] as int
  {
  }

  lemma TwoBytes(n: nat)
    ensures 256 * (n / 256 % 256) + n % 256 == n % 65536
  {
    var high, low := n / 65536, n % 65536;
    assert n / 256 == 256 * high + low / 256;
    assert n / 256 % 256 == low / 256;
  }

  /** The four bytes of a C int in memory on a little-endian host. */
  function IntBytes(n: int32): (w: seq<byte>)
    ensures |w| == 4
  {
    var u := if n < 0 then n + 0x1_0000_0000 else n;
    [u % 256, u / 256 % 256, u / 0x1_0000 % 256, u / 0x100_0000]
  }

  function IntAt(s: seq<byte>): int32
    requires |s| >= 4
  {
    var b0: int, b1: int, b2: int, b3: int := s[0], s[1], s[2], s[3];
    var u := b0 + 256 * b1 + 0x1_0000 * b2 + 0x100_0000 * b3;
    if u < 0x8000_0000 then u else u - 0x1_0000_0000
  }

  lemma IntAtOfIntBytes(n: int32, rest: seq<byte>)
    ensures IntAt(IntBytes(n) + rest) == n
  {
    var u := if n < 0 then n + 0x1_0000_0000 else n;
    var s := IntBytes(n) + rest;
    assert s[0] == u % 256 && s[1] == u / 256 % 256;
    assert s[2] == u / 0x1_0000 % 256 && s[3] == u / 0x100_0000;
    assert u == u % 256 + 256 * (u / 256);
    assert u / 256 == u / 256 % 256 + 256 * (u / 0x1_0000);
    assert u / 0x1_0000 == u / 0x1_0000 % 256 + 256 * (u / 0x100_0000);
  }
}
