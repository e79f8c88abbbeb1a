/** Writing packets to sockets when the operating system may take only part of them. */
module SocketWrite {
  import opened Bytes
  import opened Packets

  /** What one system call may do with the bytes it is offered. */
  datatype OsResult = Accepts(limit: nat) | WouldBlock | Fails

  datatype Result = COMPLETE | INTERRUPTED | SOCKET_ERROR

  /** A packet that could not be written at once, and how many of its bytes have gone out. */
  datatype PendingWrite = PendingWrite(iovecs: seq<seq<byte>>, total: nat, bytes: nat)

  // What a continuation offers

  /** The buffers offered when `bytes` have gone out and `cum` bytes precede these buffers. */
  function Offer(iovecs: seq<seq<byte>>, bytes: nat, cum: nat): seq<seq<byte>> {
    if iovecs == [] then []
    else if bytes <= cum then [iovecs[0]] + Offer(iovecs[1..], bytes, cum + |iovecs[0]|)
    else if bytes < cum + |iovecs[0]| then [iovecs[0][bytes - cum..]]
    else Offer(iovecs[1..], bytes, cum + |iovecs[0]|)
  }

  lemma {:induction false} OfferAll(iovecs: seq<seq<byte>>, bytes: nat, cum: nat)
    requires bytes <= cum
    ensures Offer(iovecs, bytes, cum) == iovecs
  {
    if iovecs != [] {
      OfferAll(iovecs[1..], bytes, cum + |iovecs[0]|);
      assert iovecs == [iovecs[0]] + iovecs[1..];
    }
  }

  /** End of the buffer that byte number `bytes` lies in. */
  function BufferEnd(iovecs: seq<seq<byte>>, bytes: nat): nat
    requires bytes < |Flatten(iovecs)|
  {
    if bytes < |iovecs[0]| then |iovecs[0]| else |iovecs[0]| + BufferEnd(iovecs[1..], bytes - |iovecs[0]|)
  }

  /** Whether byte number `bytes` is the first of its buffer. */
  predicate AtBoundary(iovecs: seq<seq<byte>>, bytes: nat)
    requires bytes < |Flatten(iovecs)|
  {
    bytes == 0 || (bytes >= |iovecs[0]| && AtBoundary(iovecs[1..], bytes - |iovecs[0]|))
  }

  lemma FlattenOne(b: seq<byte>)
    ensures Flatten([b]) == b
  {
    FlattenCons(b, []);
    assert [b] + [] == [b];
  }

  lemma BehindFirst(b: seq<byte>, rest: seq<byte>, bytes: nat, end: nat)
    requires |b| <= bytes && bytes - |b| <= end <= |rest|
    ensures (b + rest)[bytes..] == rest[bytes - |b|..]
    ensures (b + rest)[bytes..|b| + end] == rest[bytes - |b|..end]
  {
  }

  /** A continuation offers the rest of the buffer that was cut, or everything if none was. */
  lemma {:induction false} OfferIsUnsent(iovecs: seq<seq<byte>>, bytes: nat, cum: nat)
    requires bytes < |Flatten(iovecs)|
    ensures var all := Flatten(iovecs);
            && bytes < BufferEnd(iovecs, bytes) <= |all|
            && Flatten(Offer(iovecs, cum + bytes, cum)) ==
               if AtBoundary(iovecs, bytes) then all[bytes..] else all[bytes..BufferEnd(iovecs, bytes)]
  {
    var all := Flatten(iovecs);
    var b := iovecs[0];
    assert all == b + Flatten(iovecs[1..]);
    if bytes == 0 {
      hide Offer;
      OfferAll(iovecs, cum, cum);
      if |b| == 0 { OfferIsUnsent(iovecs[1..], 0, cum); }
      assert all[0..] == all;
    } else if bytes < |b| {
      OfferCut(iovecs, bytes, cum);
      hide Offer, Flatten;
    } else {
      OfferIsUnsent(iovecs[1..], bytes - |b|, cum + |b|);
      OfferPast(iovecs, bytes, cum);
      hide Flatten, Offer, BufferEnd, AtBoundary;
      BehindFirst(b, Flatten(iovecs[1..]), bytes, BufferEnd(iovecs[1..], bytes - |b|));
    }
  }

  /** The first buffer has gone out. */
  lemma OfferPast(iovecs: seq<seq<byte>>, bytes: nat, cum: nat)
    requires 0 < bytes < |Flatten(iovecs)| && |iovecs[0]| <= bytes
    ensures var b, rest := iovecs[0], iovecs[1..];
            && Offer(iovecs, cum + bytes, cum) == Offer(rest, cum + bytes, cum + |b|)
            && bytes - |b| < |Flatten(rest)|
            && BufferEnd(iovecs, bytes) == |b| + BufferEnd(rest, bytes - |b|)
            && (AtBoundary(iovecs, bytes) <==> AtBoundary(rest, bytes - |b|))
  {
    assert Flatten(iovecs) == iovecs[0] + Flatten(iovecs[1..]);
  }

  /** The first buffer was cut. */
  lemma OfferCut(iovecs: seq<seq<byte>>, bytes: nat, cum: nat)
    requires bytes < |Flatten(iovecs)| && 0 < bytes < |iovecs[0]|
    ensures Flatten(Offer(iovecs, cum + bytes, cum)) == Flatten(iovecs)[bytes..|iovecs[0]|]
  {
    var b := iovecs[0];
    assert Flatten(iovecs) == b + Flatten(iovecs[1..]);
    FlattenOne(b[bytes..]);
    assert (b + Flatten(iovecs[1..]))[bytes..|b|] == b[bytes..];
  }

  /** The bytes of an interrupted packet that have gone out. */
  function WrittenPart(pending: Option<PendingWrite>): seq<byte> {
    match pending
    case None => []
    case Some(pw) =>
      var all := Flatten(pw.iovecs);
      if pw.bytes <= |all| then all[..pw.bytes] else all
  }

  lemma MoreWritten(front: seq<byte>, all: seq<byte>, b: nat, offered: seq<byte>, n: nat)
    requires b <= |all| && offered <= all[b..] && n <= |offered|
    ensures front + all[..b] + offered[..n] == front + all[..b + n]
  {
    assert all[..b] + offered[..n] == all[..b + n];
  }

  lemma OfferedPart(pw: PendingWrite)
    requires pw.bytes < |Flatten(pw.iovecs)|
    ensures var offered := Flatten(Offer(pw.iovecs, pw.bytes, 0));
            offered != [] && offered <= Flatten(pw.iovecs)[pw.bytes..]
  {
    OfferIsUnsent(pw.iovecs, pw.bytes, 0);
    var all, end := Flatten(pw.iovecs), BufferEnd(pw.iovecs, pw.bytes);
    assert all[pw.bytes..end] <= all[pw.bytes..];
  }

  /** One connected socket: its record in the list of pending writes, and what has become of the data. */
  class Socket {
    var pending: Option<PendingWrite>
    ghost var wire: seq<byte>              // every byte the system calls have taken
    ghost var finished: seq<seq<byte>>     // the packets sent completely
    ghost var broken: bool                 // whether a write has failed

    /** Until a write fails, the bytes sent are whole packets and then the part of at most one
        pending packet that its record says has gone out. */
    ghost predicate Valid()
      reads this
    {
      && (pending.Some? ==> var pw := pending.value; pw.total == |Flatten(pw.iovecs)| && pw.bytes < pw.total)
      && (!broken ==> wire == Flatten(finished) + WrittenPart(pending))
    }

    constructor ()
      ensures Valid() && pending == None && wire == [] && finished == [] && !broken
    {
      pending := None;
      wire, finished, broken := [], [], false;
    }

    function NoPendingWrites(): bool
      reads this
    {
      pending.None?
    }

    /** One system call: some prefix of the buffers goes out, or nothing does. */
    method Writev(iovecs: seq<seq<byte>>, os: OsResult) returns (rc: Result, bytes: nat)
      modifies this`wire, this`broken
      ensures rc == if os.Fails? then SOCKET_ERROR else if os.WouldBlock? then INTERRUPTED else COMPLETE
      ensures bytes == if !os.Accepts? then 0 else if os.limit < |Flatten(iovecs)| then os.limit else |Flatten(iovecs)|
      ensures wire == old(wire) + Flatten(iovecs)[..bytes]
      ensures broken == (old(broken) || os.Fails?)
    {
      bytes := 0;
      match os {
        case Fails =>
          rc := SOCKET_ERROR;
          broken := true;
        case WouldBlock =>
          rc := INTERRUPTED;
        case Accepts(limit) =>
          rc := COMPLETE;
          bytes := if limit < |Flatten(iovecs)| then limit else |Flatten(iovecs)|;
      }
      wire := wire + Flatten(iovecs)[..bytes];
    }

    /** Sends one packet, given as buffers.  If it is not taken as a whole, the rest becomes the
        pending write; while there is one, nothing else is sent. */
    method Putdatas(buffers: seq<seq<byte>>, os: OsResult) returns (rc: Result)
      requires Valid() && 1 <= |buffers| <= 5
      modifies this
      ensures Valid()
      ensures !old(NoPendingWrites()) ==> rc == SOCKET_ERROR && unchanged(this)
      ensures old(NoPendingWrites()) ==>
                && (rc == SOCKET_ERROR <==> os.Fails?) && broken == (old(broken) || os.Fails?)
                && (rc == COMPLETE ==> NoPendingWrites() && finished == old(finished) + [Flatten(buffers)])
                && (rc == INTERRUPTED ==> pending.Some? && pending.value.iovecs == buffers && finished == old(finished))
                && (rc == SOCKET_ERROR ==> NoPendingWrites() && finished == old(finished))
    {
      if !NoPendingWrites() {
        return SOCKET_ERROR;
      }
      var total := 0;
      var i := 0;
      assert buffers[0..] == buffers;
      while i < |buffers|
        invariant 0 <= i <= |buffers| && total + |Flatten(buffers[i..])| == |Flatten(buffers)|
        invariant unchanged(this)
      {
        assert buffers[i..][1..] == buffers[i + 1..];
        total := total + |buffers[i]|;
        i := i + 1;
      }
      var bytes: nat;
      rc, bytes := Writev(buffers, os);
      if rc != SOCKET_ERROR {
        if bytes == total {
          rc := COMPLETE;
          Complete(buffers);
        } else {
          pending := Some(PendingWrite(buffers, total, bytes));
          rc := INTERRUPTED;
        }
      }
    }

    /** History: one more packet has been sent completely. */
    ghost method Complete(buffers: seq<seq<byte>>)
      modifies this`finished
      ensures finished == old(finished) + [Flatten(buffers)]
      ensures Flatten(finished) == Flatten(old(finished)) + Flatten(buffers)
    {
      FlattenAppend(finished, [Flatten(buffers)]);
      FlattenCons(Flatten(buffers), []);
      assert [Flatten(buffers)] + [] == [Flatten(buffers)];
      finished := finished + [Flatten(buffers)];
    }

    /** Collects what is left of a pending packet, up to the end of a buffer that was cut. */
    static method Collect(pw: PendingWrite) returns (iovecs1: seq<seq<byte>>)
      ensures iovecs1 == Offer(pw.iovecs, pw.bytes, 0)
    {
      iovecs1 := [];
      var curbuflen: nat := 0;
      var i := 0;
      assert pw.iovecs[0..] == pw.iovecs;
      while i < |pw.iovecs|
        invariant 0 <= i <= |pw.iovecs|
        invariant iovecs1 + Offer(pw.iovecs[i..], pw.bytes, curbuflen) == Offer(pw.iovecs, pw.bytes, 0)
      {
        assert pw.iovecs[i..][1..] == pw.iovecs[i + 1..];
        if pw.bytes <= curbuflen {
          iovecs1 := iovecs1 + [pw.iovecs[i]];
        } else if pw.bytes < curbuflen + |pw.iovecs[i]| {
          var offset := pw.bytes - curbuflen;
          iovecs1 := iovecs1 + [pw.iovecs[i][offset..]];
          return;
        }
        curbuflen := curbuflen + |pw.iovecs[i]|;
        i := i + 1;
      }
    }

    /** One more attempt to finish a pending packet: 1 complete, 0 not yet, -1 failed.  What is
        offered is a non-empty prefix of the bytes still to go, and 1 is returned exactly when the
        last of them has gone out. */
    method ContinueWrite(os: OsResult) returns (rc: int, ghost offered: seq<byte>)
      requires Valid() && pending.Some?
      modifies this
      ensures Valid() && broken == (old(broken) || os.Fails?)
      ensures offered != [] && offered <= Flatten(old(pending).value.iovecs)[old(pending).value.bytes..]
      ensures old(wire) <= wire && wire[|old(wire)|..] <= offered
      ensures rc == -1 <==> os.Fails?
      ensures rc == 1 <==> !os.Fails? && old(pending).value.bytes + (|wire| - |old(wire)|) == old(pending).value.total
      ensures rc == 1 ==> pending == None && finished == old(finished) + [Flatten(old(pending).value.iovecs)]
      ensures rc == 0 ==> finished == old(finished) &&
                          pending == Some(old(pending).value.(bytes := old(pending).value.bytes + (|wire| - |old(wire)|)))
      ensures rc == -1 ==> pending == None && finished == old(finished)
      ensures rc == 0 || rc == 1 || rc == -1
    {
      var pw := pending.value;
      var iovecs1 := Collect(pw);
      OfferedPart(pw);
      offered := Flatten(iovecs1);
      ghost var all := Flatten(pw.iovecs);
      var rc1, bytes := Writev(iovecs1, os);
      if rc1 == SOCKET_ERROR {
        rc := -1;
        pending := None;
      } else {
        MoreWritten(Flatten(finished), all, pw.bytes, offered, bytes);
        if pw.bytes + bytes == pw.total {
          rc := 1;
          assert all[..pw.total] == all;
          Complete(pw.iovecs);
          pending := None;
        } else {
          rc := 0;
          pending := Some(pw.(bytes := pw.bytes + bytes));
        }
      }
    }
  }

  /** The receiving end reads exactly the packets that were finished, and a beginning of the pending
      one, however the writes were split. */
  lemma WireReadsBack(packets: seq<Packet>, pending: Packet, bytes: nat, wire: seq<byte>)
    requires (forall p :: p in packets ==> Transmittable(p)) && Transmittable(pending) && bytes < |Wire(pending)|
    requires wire == Flatten(seq(|packets|, i requires 0 <= i < |packets| => Flatten(Buffers(packets[i])))) + Flatten(Buffers(pending))[..bytes]
    ensures ReadAll(wire) == (packets, Wire(pending)[..bytes])
  {
    BuffersAreWire(pending);
    FinishedStream(packets);
    ReadAllOfStream(packets, pending, bytes);
  }

  lemma {:induction false} FinishedStream(packets: seq<Packet>)
    ensures Flatten(seq(|packets|, i requires 0 <= i < |packets| => Flatten(Buffers(packets[i])))) == Stream(packets)
  {
    var all := seq(|packets|, i requires 0 <= i < |packets| => Flatten(Buffers(packets[i])));
    if packets != [] {
      var rest := packets[1..];
      FinishedStream(rest);
      BuffersAreWire(packets[0]);
      assert all[1..] == seq(|rest|, i requires 0 <= i < |rest| => Flatten(Buffers(rest[i])));
    }
  }
}
