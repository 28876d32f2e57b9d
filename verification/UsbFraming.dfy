// USB bulk framing between the console and the host: transfers are cut into packets, and a transfer
// ends at the first packet shorter than the endpoint's maximum packet size, which is an empty one
// when the data is aligned to that size.

module UsbFraming {
  import opened Bytes

  type Packet = seq<byte>

  // usbDsEndpoint_PostBufferAsync: the packets of one transfer. The endpoint's ZLT setting asks for
  // an empty packet after data that fills its last packet.
  function Packets(data: seq<byte>, P: nat, zlt: bool): (q: seq<Packet>)
    requires P > 0
    decreases |data|
  {
    if |data| < P then [data]
    else if |data| == P then [data] + (if zlt then [[]] else [])
    else [data[..P]] + Packets(data[P..], P, zlt)
  }

  // What a bulk read of `size` bytes makes of the packets that arrive.
  datatype ReadResult = Read(data: seq<byte>, rest: seq<Packet>) | Overflow | Timeout

  // A read ends when its buffer is full or a short packet arrives; a packet that does not fit is an
  // overflow, and a read that is still open when the device has nothing more to send times out.
  function BulkRead(q: seq<Packet>, size: nat, P: nat): (r: ReadResult)
    ensures r.Read? ==> |r.rest| <= |q| && (size > 0 ==> |r.rest| < |q|) && |r.data| <= size
    decreases |q|
  {
    if size == 0 then Read([], q)
    else if q == [] then Timeout
    else if |q[0]| > size then Overflow
    else if |q[0]| < P then Read(q[0], q[1..])
    else
      match BulkRead(q[1..], size - |q[0]|, P)
      case Read(data, rest) => Read(q[0] + data, rest)
      case other => other
  }

  // A successful read takes whole packets off the front of the queue.
  lemma {:induction false} ReadTakesPackets(q: seq<Packet>, size: nat, P: nat)
    requires BulkRead(q, size, P).Read?
    ensures var r := BulkRead(q, size, P);
            && |r.rest| <= |q| && r.rest == q[|q| - |r.rest|..]
            && r.data == Concat(q[..|q| - |r.rest|]) && |r.data| <= size
            && (size > 0 ==> |r.rest| < |q|)
    decreases |q|
  {
    var r := BulkRead(q, size, P);
    if size == 0 {
      assert q[..0] == [];
    } else if |q[0]| < P {
      assert q[..1] == [q[0]] && q[..1][1..] == [];
      assert Concat([q[0]]) == q[0] + [];
    } else {
      ReadTakesPackets(q[1..], size - |q[0]|, P);
      var n := |q| - |r.rest|;
      assert q[..n][1..] == q[1..][..n - 1];
      assert q[..n] == [q[0]] + q[1..][..n - 1];
    }
  }

  // -------------------------------------------------------------------------------------------
  // Framed streams: what a conforming device sends for one file

  // What is left of a framed stream: an empty packet can only be the last one, after a full packet.
  ghost predicate Tail(q: seq<Packet>, P: nat) {
    && |q| > 0
    && (forall i :: 0 <= i < |q| ==> |q[i]| <= P)
    && |q[|q| - 1]| < P
    && (forall i :: 0 <= i < |q| && q[i] == [] ==> i == |q| - 1 && (i > 0 ==> |q[i - 1]| == P))
  }

  // Packets that carry data and end in exactly one terminating short packet; shorter packets may
  // also occur where the device cut the file into several transfers.
  ghost predicate Framed(q: seq<Packet>, P: nat) {
    Tail(q, P) && q[0] != []
  }

  lemma {:induction false} PacketsConcat(data: seq<byte>, P: nat, zlt: bool)
    requires P > 0
    ensures Concat(Packets(data, P, zlt)) == data
    decreases |data|
  {
    if |data| < P {
      assert Packets(data, P, zlt)[1..] == [];
    } else if |data| == P {
      assert Packets(data, P, zlt)[1..] == (if zlt then [[]] else []);
      assert Concat<byte>([[]]) == [] + [];
    } else {
      PacketsConcat(data[P..], P, zlt);
      assert data[..P] + data[P..] == data;
    }
  }

  lemma FullPacketFirst(p: Packet, q: seq<Packet>, size: nat, P: nat, data: seq<byte>, rest: seq<Packet>)
    requires |p| == P && 0 < P <= size && BulkRead(q, size - P, P) == Read(data, rest)
    ensures BulkRead([p] + q, size, P) == Read(p + data, rest)
  {
    assert ([p] + q)[1..] == q;
  }

  lemma ShortPacketFirst(p: Packet, rest: seq<Packet>, size: nat, P: nat)
    requires |p| < P && |p| <= size && size > 0
    ensures BulkRead([p] + rest, size, P) == Read(p, rest)
  {
    assert ([p] + rest)[1..] == rest;
  }

  // Reading a whole transfer, followed by anything else.
  lemma {:induction false} ReadTransfer(data: seq<byte>, P: nat, rest: seq<Packet>)
    requires P > 0 && data != []
    ensures var zlt := |data| % P == 0;
            BulkRead(Packets(data, P, zlt) + rest, |data| + (if zlt then 1 else 0), P) == Read(data, rest)
    decreases |data|
  {
    if |data| < P {
      ModSmall(|data|, P);
      ShortPacketFirst(data, rest, |data|, P);
    } else if |data| == P {
      ReadOnePacket(data, P, rest);
    } else {
      ModMinus(|data|, P);
      ReadTransfer(data[P..], P, rest);
      var zlt := |data| % P == 0;
      ReadLonger(data, P, zlt, |data| + (if zlt then 1 else 0), rest);
    }
  }

  lemma ReadOnePacket(data: seq<byte>, P: nat, rest: seq<Packet>)
    requires |data| == P > 0
    ensures P % P == 0 && BulkRead(Packets(data, P, true) + rest, P + 1, P) == Read(data, rest)
  {
    ModSmall(P, P);
    var zlt: Packet := [];
    ShortPacketFirst(zlt, rest, 1, P);
    FullPacketFirst(data, [zlt] + rest, P + 1, P, zlt, rest);
    assert Packets(data, P, true) + rest == [data] + ([zlt] + rest);
    assert data + zlt == data;
  }

  lemma ReadLonger(data: seq<byte>, P: nat, zlt: bool, size: nat, rest: seq<Packet>)
    requires 0 < P < |data| <= size
    requires BulkRead(Packets(data[P..], P, zlt) + rest, size - P, P) == Read(data[P..], rest)
    ensures BulkRead(Packets(data, P, zlt) + rest, size, P) == Read(data, rest)
  {
    var tail := Packets(data[P..], P, zlt);
    FullPacketFirst(data[..P], tail + rest, size, P, data[P..], rest);
    assert Packets(data, P, zlt) + rest == [data[..P]] + (tail + rest);
    assert data[..P] + data[P..] == data;
  }

  // The size the host asks for when `left` bytes of a file are missing: one block, and one byte
  // more when the last block is aligned and an empty packet is due.
  function ReadSize(left: nat, B: nat, P: nat): nat
    requires P > 0
  {
    var blk := if left < B then left else B;
    blk + if left <= B && blk % P == 0 then 1 else 0
  }

  // A read of `size` bytes is in step with the stream: it is a whole number of packets and ends
  // before the stream does, or it asks for the whole stream and its terminating packet.
  ghost predicate InStep(q: seq<Packet>, size: nat, P: nat)
    requires P > 0
  {
    var total := |Concat(q)|;
    (size % P == 0 && size < total) || size == total + (if total % P == 0 then 1 else 0)
  }

  ghost predicate TookFrom(q: seq<Packet>, rest: seq<Packet>, r: ReadResult, P: nat) {
    && r.Read? && |r.rest| >= |rest| && r.rest[|r.rest| - |rest|..] == rest
    && var left := r.rest[..|r.rest| - |rest|];
       && (left == [] || Framed(left, P))
       && r.data + Concat(left) == Concat(q)
  }

  // The packet p arrives first, and is short.
  lemma ReadShort(p: Packet, t: seq<Packet>, size: nat, P: nat, rest: seq<Packet>)
    requires P > 0 && size > 0 && Tail([p] + t, P) && |p| < P && |p| <= size
    ensures TookFrom([p] + t, rest, BulkRead([p] + t + rest, size, P), P)
  {
    assert [p] + t + rest == [p] + (t + rest);
    ShortPacketFirst(p, t + rest, size, P);
    assert (t + rest)[..|t|] == t && (t + rest)[|t|..] == rest;
    assert ([p] + t)[1..] == t;
    if t != [] {
      assert forall i :: 0 <= i < |t| ==> t[i] == ([p] + t)[i + 1];
    }
  }

  lemma TailOf(p: Packet, t: seq<Packet>, P: nat)
    requires Tail([p] + t, P) && |p| == P > 0
    ensures Tail(t, P) && (t[0] == [] ==> Concat([p] + t) == p)
  {
    assert ([p] + t)[1..] == t;
    assert forall i :: 0 <= i < |t| ==> t[i] == ([p] + t)[i + 1];
    if t[0] == [] {
      assert t == [[]] && t[1..] == [];
      assert Concat(t) == [] + Concat(t[1..]) == [];
      assert p + [] == p;
    }
  }

  // The packet p arrives first, and fills the buffer.
  lemma ReadFilled(p: Packet, t: seq<Packet>, P: nat, rest: seq<Packet>)
    requires P > 0 && Tail([p] + t, P) && |p| == P < |Concat([p] + t)|
    ensures TookFrom([p] + t, rest, BulkRead([p] + t + rest, P, P), P)
  {
    assert [p] + t + rest == [p] + (t + rest);
    FilledByFirst(p, t + rest, P);
    TailOf(p, t, P);
    assert (t + rest)[..|t|] == t && (t + rest)[|t|..] == rest;
    assert ([p] + t)[1..] == t;
  }

  lemma AddFront(p: seq<byte>, data: seq<byte>, left: seq<byte>, whole: seq<byte>)
    requires data + left == whole
    ensures (p + data) + left == p + whole
  {
  }

  lemma ReadMore(p: Packet, t: seq<Packet>, P: nat, rest: seq<Packet>, r: ReadResult)
    requires TookFrom(t, rest, r, P)
    ensures TookFrom([p] + t, rest, Read(p + r.data, r.rest), P)
  {
    assert Concat([p] + t) == p + Concat(t) by { assert ([p] + t)[1..] == t; }
    AddFront(p, r.data, Concat(r.rest[..|r.rest| - |rest|]), Concat(t));
  }

  lemma InStepAfter(p: Packet, t: seq<Packet>, size: nat, P: nat)
    requires P > 0 && size > 0 && |p| == P && Tail([p] + t, P) && InStep([p] + t, size, P)
    ensures P <= size
    ensures if size == P then P < |Concat([p] + t)| else InStep(t, size - P, P)
  {
    assert ([p] + t)[1..] == t;
    ModMinus(|Concat([p] + t)|, P);
    if size % P == 0 {
      MultipleAtLeast(size, P);
      ModMinus(size, P);
    }
    ModSmall(P, P);
  }

  lemma {:induction false} ReadInStep(q: seq<Packet>, size: nat, P: nat, rest: seq<Packet>)
    requires P > 0 && size > 0 && Tail(q, P) && InStep(q, size, P)
    ensures TookFrom(q, rest, BulkRead(q + rest, size, P), P)
    decreases |q|
  {
    var p, t := q[0], q[1..];
    assert q == [p] + t;
    if |p| < P {
      assert |Concat(q)| >= |p|;
      if size % P == 0 { MultipleAtLeast(size, P); }
      ReadShort(p, t, size, P, rest);
    } else {
      InStepAfter(p, t, size, P);
      if size == P {
        ReadFilled(p, t, P, rest);
      } else {
        TailOf(p, t, P);
        ReadInStep(t, size - P, P, rest);
        var r := BulkRead(t + rest, size - P, P);
        ReadMore(p, t, P, rest, r);
        assert q + rest == [p] + (t + rest);
        FullPacketFirst(p, t + rest, size, P, r.data, r.rest);
      }
    }
  }

  lemma FilledByFirst(p: Packet, q: seq<Packet>, P: nat)
    requires |p| == P > 0
    ensures BulkRead([p] + q, P, P) == Read(p, q)
  {
    assert ([p] + q)[1..] == q;
    assert p + [] == p;
  }

  lemma MultipleAtLeast(n: nat, p: nat)
    requires 0 < p && 0 < n && n % p == 0
    ensures p <= n
  {
    if n < p { ModSmall(n, p); }
  }

  // Whatever way the device cut a file into transfers, each read of the host takes some of the data
  // and leaves a framed stream for the rest: it never times out, overflows or swallows what follows.
  lemma HostReadTakes(q: seq<Packet>, B: nat, P: nat, rest: seq<Packet>)
    requires P > 0 && B > 0 && B % P == 0 && Framed(q, P)
    ensures var r := BulkRead(q + rest, ReadSize(|Concat(q)|, B, P), P);
            TookFrom(q, rest, r, P) && r.data != []
  {
    var total := |Concat(q)|;
    assert Concat(q) == q[0] + Concat(q[1..]);
    var size := ReadSize(total, B, P);
    assert InStep(q, size, P);
    ReadInStep(q, size, P, rest);
    FirstReadHasData(q, size, P, rest);
  }

  lemma FirstReadHasData(q: seq<Packet>, size: nat, P: nat, rest: seq<Packet>)
    requires q != [] && q[0] != [] && size > 0 && BulkRead(q + rest, size, P).Read?
    ensures BulkRead(q + rest, size, P).data != []
  {
  }

  // -------------------------------------------------------------------------------------------
  // What usb.c sends for one file

  // usbSendFileData: the empty packet is enabled on the last chunk only, when that is aligned.
  function FileStream(chunks: seq<seq<byte>>, P: nat): seq<Packet>
    requires P > 0
  {
    if chunks == [] then []
    else if |chunks| == 1 then Packets(chunks[0], P, |chunks[0]| % P == 0)
    else Packets(chunks[0], P, false) + FileStream(chunks[1..], P)
  }

  // The packets of one transfer: full ones and at most one short one, at the end.
  lemma {:induction false} PacketsShape(data: seq<byte>, P: nat, zlt: bool)
    requires P > 0 && data != []
    ensures var q := Packets(data, P, zlt);
            && |q| > 0 && q[0] != []
            && (forall i :: 0 <= i < |q| ==> |q[i]| <= P)
            && (!zlt ==> forall i :: 0 <= i < |q| ==> q[i] != [])
            && (zlt == (|data| % P == 0) ==> Tail(q, P))
    decreases |data|
  {
    if |data| <= P {
      ModSmall(|data|, P);
    } else {
      ModMinus(|data|, P);
      PacketsShape(data[P..], P, zlt);
      var t := Packets(data[P..], P, zlt);
      assert Packets(data, P, zlt) == [data[..P]] + t;
      if zlt == (|data| % P == 0) { TailAfter([data[..P]], t, P); }
    }
  }

  lemma TailAfter(a: seq<Packet>, b: seq<Packet>, P: nat)
    requires Framed(b, P)
    requires forall i :: 0 <= i < |a| ==> 0 < |a[i]| <= P
    ensures Framed(a + b, P)
  {
    forall i | 0 <= i < |a + b| && (a + b)[i] == []
      ensures i == |a + b| - 1 && (i > 0 ==> |(a + b)[i - 1]| == P)
    {
      assert (a + b)[i] == b[i - |a|];
      assert i - |a| > 0;
      assert (a + b)[i - 1] == b[i - |a| - 1];
    }
  }

  // Every file is sent as a framed stream of exactly its bytes.
  lemma {:induction false} FileStreamIsFramed(chunks: seq<seq<byte>>, P: nat)
    requires P > 0 && chunks != [] && forall i :: 0 <= i < |chunks| ==> chunks[i] != []
    ensures Framed(FileStream(chunks, P), P)
    ensures Concat(FileStream(chunks, P)) == Concat(chunks)
  {
    var c := chunks[0];
    if |chunks| == 1 {
      PacketsShape(c, P, |c| % P == 0);
      PacketsConcat(c, P, |c| % P == 0);
      assert chunks[1..] == [] && c + [] == c;
    } else {
      PacketsShape(c, P, false);
      PacketsConcat(c, P, false);
      FileStreamIsFramed(chunks[1..], P);
      TailAfter(Packets(c, P, false), FileStream(chunks[1..], P), P);
      ConcatAppend(Packets(c, P, false), FileStream(chunks[1..], P));
    }
  }

  // Reading whole blocks that are followed by more data: no terminating packet is involved.
  lemma {:induction false} ReadWholeBlock(data: seq<byte>, P: nat, rest: seq<Packet>)
    requires P > 0 && data != [] && |data| % P == 0
    ensures BulkRead(Packets(data, P, false) + rest, |data|, P) == Read(data, rest)
    decreases |data|
  {
    MultipleAtLeast(|data|, P);
    if |data| == P {
      assert Packets(data, P, false) + rest == [data] + rest;
      FilledByFirst(data, rest, P);
    } else {
      ModMinus(|data|, P);
      ReadWholeBlock(data[P..], P, rest);
      ReadLonger(data, P, false, |data|, rest);
    }
  }
}
