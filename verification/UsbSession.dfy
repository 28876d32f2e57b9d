// The console's side of the USB ABI (usb.c) and the composition with the host: for every conforming
// script of operations, the host takes exactly the packets the console sends and answers with
// exactly the statuses the console waits for, in order, and every completed file holds its bytes.

module UsbSession {
  import opened Bytes
  import opened UsbFraming
  import opened UsbProtocol
  import opened UsbHostSafety

  // -------------------------------------------------------------------------------------------
  // The host's run over everything the console sends

  datatype Outcome = Outcome(h: Host, events: seq<Event>)

  function Session(env: Env, h: Host, q: seq<Packet>): Outcome
    requires ValidEnv(env) && Consistent(h)
    decreases |q|
  {
    var t := Command(env, h, q);
    CommandKeeps(env, h, q);
    if t.stop then Outcome(t.h, t.events)
    else
      var o := Session(env, t.h, t.rest);
      Outcome(o.h, t.events + o.events)
  }

  // Serving `q` from `h` first exchanges `events` and then goes on with `rest` from `t`.
  ghost predicate Serves(env: Env, h: Host, q: seq<Packet>, events: seq<Event>, t: Host, rest: seq<Packet>)
    requires ValidEnv(env) && Consistent(h)
  {
    && Consistent(t)
    && Session(env, h, q) == var o := Session(env, t, rest); Outcome(o.h, events + o.events)
  }

  lemma ServesOne(env: Env, h: Host, q: seq<Packet>)
    requires ValidEnv(env) && Consistent(h) && !Command(env, h, q).stop
    ensures var t := Command(env, h, q); Serves(env, h, q, t.events, t.h, t.rest)
  {
    CommandKeeps(env, h, q);
  }

  lemma ServesBoth(env: Env, h: Host, q: seq<Packet>, e: seq<Event>, m: Host, mid: seq<Packet>,
                   f: seq<Event>, t: Host, rest: seq<Packet>)
    requires ValidEnv(env) && Consistent(h) && Serves(env, h, q, e, m, mid) && Serves(env, m, mid, f, t, rest)
    ensures Serves(env, h, q, e + f, t, rest)
  {
    var o := Session(env, t, rest);
    assert (e + f) + o.events == e + (f + o.events);
  }

  // -------------------------------------------------------------------------------------------
  // Commands on the wire

  function CommandHeader(id: nat, size: nat): (s: seq<byte>)
    ensures |s| == HEADER_SIZE
  {
    MAGIC + ToLe(id, 4) + ToLe(size, 4) + [0, 0, 0, 0]
  }

  // usbSendCommand: the header, then the block, which is terminated when it is aligned.
  function CommandPackets(id: nat, block: seq<byte>, P: nat): seq<Packet>
    requires P > 0
  {
    [CommandHeader(id, |block|)] + BlockPackets(block, P)
  }

  function BlockPackets(block: seq<byte>, P: nat): seq<Packet>
    requires P > 0
  {
    if block == [] then [] else Packets(block, P, |block| % P == 0)
  }

  lemma HeaderRoundTrip(id: nat, size: nat)
    requires id < 0x1_0000_0000 && size < 0x1_0000_0000
    ensures var s := CommandHeader(id, size);
            && s[..4] == [0x4E, 0x58, 0x44, 0x54] && FromLe(s[4..8]) == id && FromLe(s[8..12]) == size
            && s[12..] == [0, 0, 0, 0]
  {
    assert Pow256(4) == 0x1_0000_0000;
    LeRoundTrip(id, 4);
    LeRoundTrip(size, 4);
    var s := CommandHeader(id, size);
    assert s[4..8] == ToLe(id, 4) && s[8..12] == ToLe(size, 4);
  }

  // The host reads whatever is framed like a command exactly, and dispatches it.
  lemma FramedCommandArrives(env: Env, h: Host, header: seq<byte>, block: seq<byte>, rest: seq<Packet>)
    requires ValidEnv(env) && Consistent(h) && |header| == HEADER_SIZE && FromLe(header[8..12]) == |block|
    ensures var q := [header] + BlockPackets(block, env.P);
            var t := Dispatch(env, h, header, block, rest);
            Command(env, h, q + rest) == t.(events := GotAll(q) + t.events)
  {
    var body := BlockPackets(block, env.P);
    HeaderArrives(env, header, body + rest);
    if block != [] { ReadTransfer(block, env.P, rest); } else { assert body + rest == rest; }
    assert [header] + body + rest == [header] + (body + rest);
    WholeCommand([header] + body, rest, [header] + (body + rest));
  }

  lemma CommandArrives(env: Env, h: Host, id: nat, block: seq<byte>, rest: seq<Packet>)
    requires ValidEnv(env) && Consistent(h) && id <= END_EXTRACTED_FS_DUMP && |block| < 0x1_0000_0000
    ensures FromLe(CommandHeader(id, |block|)[8..12]) == |block|
    ensures var t := Dispatch(env, h, CommandHeader(id, |block|), block, rest);
            (Command(env, h, CommandPackets(id, block, env.P) + rest)
             == t.(events := GotAll(CommandPackets(id, block, env.P)) + t.events))
  {
    HeaderRoundTrip(id, |block|);
    FramedCommandArrives(env, h, CommandHeader(id, |block|), block, rest);
  }

  lemma HeaderArrives(env: Env, header: seq<byte>, rest: seq<Packet>)
    requires ValidEnv(env) && |header| == HEADER_SIZE
    ensures BulkRead([header] + rest, HEADER_SIZE, env.P) == Read(header, rest)
  {
    ShortPacketFirst(header, rest, HEADER_SIZE, env.P);
  }

  lemma WholeCommand(q: seq<Packet>, rest: seq<Packet>, all: seq<Packet>)
    requires all == q + rest
    ensures Taken(all, rest) == GotAll(q)
  {
    assert all[..|q|] == q;
  }

  // -------------------------------------------------------------------------------------------
  // Where the command loop ends, and where it goes on

  // EndSession (4) is answered with 0, and nothing that follows it is looked at.
  lemma EndSessionStops(env: Env, h: Host, rest: seq<Packet>)
    requires ValidEnv(env) && Consistent(h)
    ensures var q := CommandPackets(4, [], env.P);
            Session(env, h, q + rest) == Outcome(h, GotAll(q) + [Sent(0)])
  {
    HeaderRoundTrip(END_SESSION, 0);
    CommandArrives(env, h, END_SESSION, [], rest);
  }

  // StartSession (0) is answered with 0 when its fourth byte is version 1.2 of the ABI, and the loop
  // goes on; with any other version it is answered with 6, and nothing that follows is looked at.
  lemma StartSessionStopsIff(env: Env, h: Host, version: seq<byte>, rest: seq<Packet>)
    requires ValidEnv(env) && Consistent(h) && |version| == 16
    ensures var q := CommandPackets(0, version, env.P);
            if version[3] / 16 == 1 && version[3] % 16 == 2
            then Serves(env, h, q + rest, GotAll(q) + [Sent(0)], h, rest)
            else Session(env, h, q + rest) == Outcome(h, GotAll(q) + [Sent(6)])
  {
    Nibbles(version[3]);
    if version[3] == 0x12 {
      VersionAccepted(env, h, version, rest);
    } else {
      VersionRefused(env, h, version, rest);
    }
  }

  lemma VersionAccepted(env: Env, h: Host, version: seq<byte>, rest: seq<Packet>)
    requires ValidEnv(env) && Consistent(h) && |version| == 16 && version[3] == 0x12
    ensures var q := CommandPackets(0, version, env.P);
            Serves(env, h, q + rest, GotAll(q) + [Sent(0)], h, rest)
  {
    var r := Handle(env, h, 0, version, rest);
    assert r == Reply(h, rest, [], Some(0));
    ServesCommand(env, h, 0, version, rest, r);
    assert r.events + [Sent(0)] == [Sent(0)];
  }

  lemma VersionRefused(env: Env, h: Host, version: seq<byte>, rest: seq<Packet>)
    requires ValidEnv(env) && Consistent(h) && |version| == 16 && version[3] != 0x12
    ensures var q := CommandPackets(0, version, env.P);
            Session(env, h, q + rest) == Outcome(h, GotAll(q) + [Sent(6)])
  {
    HeaderRoundTrip(0, 16);
    CommandArrives(env, h, 0, version, rest);
    assert Dispatch(env, h, CommandHeader(0, 16), version, rest) == Turn(h, rest, [Sent(6)], true);
  }

  lemma Nibbles(b: byte)
    ensures b / 16 == 1 && b % 16 == 2 <==> b == 0x12
  {
  }

  // What is framed like a command but is none, or has a block of the wrong size, is answered with an
  // error and changes nothing; the loop goes on behind it.
  lemma MalformedIsAnswered(env: Env, h: Host, header: seq<byte>, block: seq<byte>, rest: seq<Packet>)
    requires ValidEnv(env) && Consistent(h) && |header| == 16 && FromLe(header[8..12]) == |block|
    requires var id := FromLe(header[4..8]);
             || header[..4] != [0x4E, 0x58, 0x44, 0x54] || id >= 7
             || (id == 0 && |block| != 0x10) || (id == 1 && |block| != 0x320)
             || (id == 3 && block == []) || (id == 5 && |block| != 0x310)
    ensures var q := [header] + BlockPackets(block, env.P);
            var status := if header[..4] != [0x4E, 0x58, 0x44, 0x54] then 4
                          else if FromLe(header[4..8]) >= 7 then 5 else 7;
            Serves(env, h, q + rest, GotAll(q) + [Sent(status)], h, rest)
  {
    FramedCommandArrives(env, h, header, block, rest);
    ServesOne(env, h, [header] + BlockPackets(block, env.P) + rest);
  }

  // A command that is handled and answered.
  lemma ServesCommand(env: Env, h: Host, id: nat, block: seq<byte>, q: seq<Packet>, r: Reply)
    requires ValidEnv(env) && Consistent(h) && id <= END_EXTRACTED_FS_DUMP && id != END_SESSION
    requires |block| < 0x1_0000_0000 && BlockSizeOk(id, |block|)
    requires r == Handle(env, h, id, block, q) && r.status.Some? && r.status.value != UNSUPPORTED_ABI_VERSION
    ensures Serves(env, h, CommandPackets(id, block, env.P) + q,
                   GotAll(CommandPackets(id, block, env.P)) + (r.events + [Sent(r.status.value)]), r.h, r.rest)
  {
    HeaderRoundTrip(id, |block|);
    CommandArrives(env, h, id, block, q);
    ServesOne(env, h, CommandPackets(id, block, env.P) + q);
  }

  // A command of a transfer mode in which the server is not.
  predicate WrongMode(h: Host, id: nat, block: seq<byte>) {
    || (id == 2 && !h.nspMode)
    || (id == 5 && h.nspMode && |block| == 0x310)
    || (id == 3 && block != [] && h.nspFile.Some?
        && (!h.nspMode || h.nspRemaining != 0 || |block| != h.nspHeaderSize))
  }

  // It is answered with 7 and changes nothing; but an NSP header for which no file has been opened
  // ends the server without an answer.
  lemma WrongModeIsRefused(env: Env, h: Host, id: nat, block: seq<byte>, rest: seq<Packet>)
    requires ValidEnv(env) && Consistent(h) && |block| < 0x1_0000_0000 && WrongMode(h, id, block)
    ensures var q := CommandPackets(id, block, env.P);
            Serves(env, h, q + rest, GotAll(q) + [Sent(7)], h, rest)
  {
    var r := Handle(env, h, id, block, rest);
    assert r == Reply(h, rest, [], Some(7));
    ServesCommand(env, h, id, block, rest, r);
    assert r.events + [Sent(7)] == [Sent(7)];
  }

  lemma UnexpectedHeaderStops(env: Env, h: Host, block: seq<byte>, rest: seq<Packet>)
    requires ValidEnv(env) && Consistent(h) && 0 < |block| < 0x1_0000_0000 && h.nspFile.None?
    ensures var q := CommandPackets(3, block, env.P);
            Session(env, h, q + rest) == Outcome(h, GotAll(q))
  {
    HeaderRoundTrip(SEND_NSP_HEADER, |block|);
    CommandArrives(env, h, SEND_NSP_HEADER, block, rest);
    assert GotAll(CommandPackets(3, block, env.P)) + [] == GotAll(CommandPackets(3, block, env.P));
  }

  // File properties that make no sense are refused in the same way.
  lemma BadPropertiesAreRefused(env: Env, h: Host, block: seq<byte>, rest: seq<Packet>)
    requires ValidEnv(env) && Consistent(h) && |block| == 0x320
    requires var size, nameLength, headerSize := FromLe(block[..8]), FromLe(block[8..12]), FromLe(block[12..16]);
             || nameLength == 0 || nameLength > 0x300
             || (if h.nspMode then headerSize > 0 else 0 < size <= headerSize)
    ensures var q := CommandPackets(1, block, env.P);
            Serves(env, h, q + rest, GotAll(q) + [Sent(7)], h, rest)
  {
    var r := HandleProperties(env, h, block, rest);
    assert r == Reply(h, rest, [], Some(7));
    ServesCommand(env, h, SEND_FILE_PROPERTIES, block, rest, r);
    assert r.events + [Sent(7)] == [Sent(7)];
  }

  // -------------------------------------------------------------------------------------------
  // File properties

  // UsbCommandSendFileProperties
  function PropertiesBlock(size: nat, path: Path, nspHeaderSize: nat): (s: seq<byte>)
    requires |path| <= MAX_NAME_LENGTH
    ensures |s| == PROPERTIES_SIZE
  {
    ToLe(size, 8) + ToLe(|path|, 4) + ToLe(nspHeaderSize, 4) + path + Zeros(PROPERTIES_SIZE - 16 - |path|)
  }

  // A C string that fits the command block.
  ghost predicate GoodPath(path: Path) {
    0 < |path| <= MAX_NAME_LENGTH && forall i :: 0 <= i < |path| ==> path[i] != 0
  }

  lemma {:induction false} StripPadding(path: seq<byte>, n: nat)
    requires path != [] && path[|path| - 1] != 0
    ensures StripRight(path + Zeros(n)) == path
  {
    if n == 0 {
      assert path + Zeros(0) == path;
    } else {
      StripPadding(path, n - 1);
      var s := path + Zeros(n);
      assert s[..|s| - 1] == path + Zeros(n - 1);
    }
  }

  lemma PropertiesRoundTrip(size: nat, path: Path, nspHeaderSize: nat)
    requires GoodPath(path) && size < 0x1_0000_0000_0000_0000 && nspHeaderSize < 0x1_0000_0000
    ensures ParseProperties(PropertiesBlock(size, path, nspHeaderSize))
         == Properties(size, |path|, nspHeaderSize, path)
  {
    assert Pow256(4) == 0x1_0000_0000;
    assert Pow256(8) == 0x1_0000_0000_0000_0000;
    LeRoundTrip(size, 8);
    LeRoundTrip(|path|, 4);
    LeRoundTrip(nspHeaderSize, 4);
    var s := PropertiesBlock(size, path, nspHeaderSize);
    assert s[..8] == ToLe(size, 8) && s[8..12] == ToLe(|path|, 4) && s[12..16] == ToLe(nspHeaderSize, 4);
    var name := s[16..16 + MAX_NAME_LENGTH];
    assert name == path + Zeros(MAX_NAME_LENGTH - |path|);
    StripPadding(path, MAX_NAME_LENGTH - |path|);
  }

  // -------------------------------------------------------------------------------------------
  // Data transfers

  // None of the chunks the host will read looks like a cancellation.
  predicate Unambiguous(env: Env, left: int, q: seq<Packet>)
    requires env.P > 0
    decreases |q|
  {
    left > 0 ==>
      match BulkRead(q, ReadSize(left, TRANSFER_BLOCK, env.P), env.P)
      case Read(chunk, rest) => !IsCancel(chunk) && Unambiguous(env, left - |chunk|, rest)
      case _ => true
  }

  ghost predicate FramedOk(env: Env, h: Host, path: Path, q: seq<Packet>, rest: seq<Packet>)
    requires ValidEnv(env) && path in h.disk
  {
    var s := Transfer(env, h, path, |Concat(q)|, q + rest);
    if Unambiguous(env, |Concat(q)|, q + rest)
    then s == Stage(Store(h, path, Concat(q)), rest, GotAll(q), Completed)
    else s.result.Cancelled?
  }

  // The read took the packets `got` of the stream and left `left`.
  ghost predicate Splits(env: Env, q: seq<Packet>, rest: seq<Packet>, got: seq<Packet>, left: seq<Packet>)
    requires ValidEnv(env)
  {
    && q == got + left && |left| < |q|
    && Concat(q) == Concat(got) + Concat(left)
    && |Concat(q)| > 0 && Concat(got) != []
    && (left == [] || Framed(left, env.P))
    && Taken(q + rest, left + rest) == GotAll(got)
    && GotAll(q) == GotAll(got) + GotAll(left)
    && BulkRead(q + rest, ReadSize(|Concat(q)|, TRANSFER_BLOCK, env.P), env.P) == Read(Concat(got), left + rest)
  }

  lemma SuffixSplit(q: seq<Packet>, rest: seq<Packet>, left: seq<Packet>, n: nat)
    requires n + |left| == |q| && (q + rest)[n..] == left + rest
    ensures q == q[..n] + left && (q + rest)[..n] == q[..n]
    ensures GotAll(q) == GotAll(q[..n]) + GotAll(left)
    ensures Taken(q + rest, left + rest) == GotAll(q[..n])
  {
    PrefixAndSuffix(q, rest, left, n);
    GotSplit(q[..n], left);
  }

  lemma PrefixAndSuffix(q: seq<Packet>, rest: seq<Packet>, left: seq<Packet>, n: nat)
    requires n + |left| == |q| && (q + rest)[n..] == left + rest
    ensures (q + rest)[..n] == q[..n] && q[n..] == left && q == q[..n] + left
  {
    assert (q + rest)[n..] == q[n..] + rest;
    assert left == (left + rest)[..|left|];
    assert q[n..] == (q[n..] + rest)[..|left|];
  }

  lemma GotSplit(a: seq<Packet>, b: seq<Packet>)
    ensures GotAll(a + b) == GotAll(a) + GotAll(b)
  {
  }

  lemma ReadSplits(env: Env, q: seq<Packet>, rest: seq<Packet>) returns (got: seq<Packet>, left: seq<Packet>)
    requires ValidEnv(env) && Framed(q, env.P)
    ensures Splits(env, q, rest, got, left)
  {
    HostReadTakes(q, TRANSFER_BLOCK, env.P, rest);
    assert Concat(q) == q[0] + Concat(q[1..]);
    var size := ReadSize(|Concat(q)|, TRANSFER_BLOCK, env.P);
    var r := BulkRead(q + rest, size, env.P);
    ReadTakesPackets(q + rest, size, env.P);
    left := r.rest[..|r.rest| - |rest|];
    assert r.rest == left + rest;
    var n := |q| - |left|;
    SuffixSplit(q, rest, left, n);
    got := q[..n];
    ConcatAppend(got, left);
  }

  lemma TransferOne(env: Env, h: Host, path: Path, left: nat, q: seq<Packet>, chunk: seq<byte>, rest: seq<Packet>)
    requires ValidEnv(env) && path in h.disk && left > 0
    requires BulkRead(q, ReadSize(left, TRANSFER_BLOCK, env.P), env.P) == Read(chunk, rest)
    requires chunk != [] && !IsCancel(chunk)
    ensures |rest| <= |q|
    ensures (var s := Transfer(env, Store(h, path, chunk), path, left - |chunk|, rest);
             Transfer(env, h, path, left, q) == s.(events := Taken(q, rest) + s.events))
    ensures Unambiguous(env, left, q) == Unambiguous(env, left - |chunk|, rest)
  {
  }

  lemma FramedStep(env: Env, h: Host, path: Path, q: seq<Packet>, rest: seq<Packet>,
                   got: seq<Packet>, left: seq<Packet>)
    requires ValidEnv(env) && path in h.disk && Splits(env, q, rest, got, left)
    requires !IsCancel(Concat(got))
    requires FramedOk(env, Store(h, path, Concat(got)), path, left, rest)
    ensures FramedOk(env, h, path, q, rest)
  {
    TransferOne(env, h, path, |Concat(q)|, q + rest, Concat(got), left + rest);
    StoreTwice(h, path, Concat(got), Concat(left));
  }

  lemma FramedDone(env: Env, h: Host, path: Path, rest: seq<Packet>)
    requires ValidEnv(env) && path in h.disk
    ensures FramedOk(env, h, path, [], rest)
  {
    assert [] + rest == rest;
    StoreNothing(h, path);
  }

  // A framed file is received completely, and nothing behind it is touched, exactly when no chunk
  // of it reads like a cancellation; otherwise it is dropped.
  lemma {:induction false} FramedTransfer(env: Env, h: Host, path: Path, q: seq<Packet>, rest: seq<Packet>)
    requires ValidEnv(env) && path in h.disk && Framed(q, env.P)
    ensures FramedOk(env, h, path, q, rest)
    decreases |q|
  {
    var got, left := ReadSplits(env, q, rest);
    if !IsCancel(Concat(got)) {
      if left == [] {
        FramedDone(env, Store(h, path, Concat(got)), path, rest);
      } else {
        FramedTransfer(env, Store(h, path, Concat(got)), path, left, rest);
      }
      FramedStep(env, h, path, q, rest, got, left);
    }
  }
}
