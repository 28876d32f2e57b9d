// Conforming consoles: every sequence of operations that usb.c lets its callers perform, run against
// the host. The console's own view of the session predicts the whole exchange and the host's disk.

module UsbScripts {
  import opened Bytes
  import opened UsbFraming
  import opened UsbProtocol
  import opened UsbHostSafety
  import opened UsbSession

  // What a caller of usb.c asks for.
  datatype Op =
    | Hello(version: seq<byte>)                                 // usbStartSession
    | OpenNsp(path: Path, size: nat, headerSize: nat)                  // usbSendNspProperties
    | Put(path: Path, data: seq<byte>)                                 // usbSendFileProperties, then usbSendFileData
    | PutCancelled(path: Path, size: nat, blocks: seq<seq<byte>>)      // ... given up between two blocks
    | Cancel                                                           // usbCancelFileTransfer between two entries
    | PutNspHeader(header: seq<byte>)                                  // usbSendNspHeader
    | StartFsDump(info: seq<byte>)                                     // usbStartExtractedFsDump
    | EndFsDump                                                        // usbEndExtractedFsDump

  // The NSP being sent: where it goes, its announced size, and the bodies sent so far.
  datatype Nsp = Nsp(path: Path, size: nat, headerSize: nat, bodies: seq<byte>)

  // The session as the console sees it: the NSP in progress, the finished files, and the number of
  // output paths offered to the host.
  datatype View = View(nsp: Option<Nsp>, files: map<Path, seq<byte>>, offers: nat)

  ghost predicate ValidView(v: View) {
    v.nsp.Some? ==> v.nsp.value.path !in v.files && 0 < v.nsp.value.headerSize < v.nsp.value.size
  }

  // The host that corresponds to it.
  function HostOf(v: View): Host {
    match v.nsp
    case None => Host(false, 0, 0, 0, None, v.files, v.offers)
    case Some(n) =>
      Host(true, n.size, n.headerSize, n.size - n.headerSize - |n.bodies|, Some(n.path),
           v.files[n.path := Zeros(n.headerSize) + n.bodies], v.offers)
  }

  lemma HostOfConsistent(v: View)
    requires ValidView(v)
    ensures Consistent(HostOf(v))
    ensures v.nsp.Some? ==> Bodies(HostOf(v)) == v.nsp.value.bodies
  {
    if v.nsp.Some? {
      var n := v.nsp.value;
      assert (Zeros(n.headerSize) + n.bodies)[n.headerSize..] == n.bodies;
    }
  }

  // Does the file's last block read like a cancellation?
  predicate LooksCancelled(data: seq<byte>)
    decreases |data|
  {
    if |data| <= TRANSFER_BLOCK then IsCancel(data) else LooksCancelled(data[TRANSFER_BLOCK..])
  }

  // What usb.c demands of its callers, and the ABI of the data it is given.
  ghost predicate Allowed(v: View, op: Op) {
    match op
    case Hello(version) => |version| == SESSION_SIZE && version[3] == ABI_VERSION
    case OpenNsp(path, size, headerSize) =>
      v.nsp.None? && GoodPath(path) && 0 < headerSize < size < 0x1_0000_0000_0000_0000 && headerSize < 0x1_0000_0000
    case Put(path, data) =>
      && GoodPath(path) && |data| < 0x1_0000_0000_0000_0000 && !LooksCancelled(data)
      && (v.nsp.Some? ==> |data| != v.nsp.value.size)
    case PutCancelled(path, size, blocks) =>
      && GoodPath(path) && size < 0x1_0000_0000_0000_0000
      && (forall i :: 0 <= i < |blocks| ==> |blocks[i]| == TRANSFER_BLOCK)
      && |blocks| * TRANSFER_BLOCK + HEADER_SIZE <= size
      && (v.nsp.Some? ==> size != v.nsp.value.size)
    case Cancel => v.nsp.Some?
    case PutNspHeader(header) =>
      && v.nsp.Some? && |header| == v.nsp.value.headerSize < 0x1_0000_0000
      && v.nsp.value.headerSize + |v.nsp.value.bodies| == v.nsp.value.size
    case StartFsDump(info) => v.nsp.None? && |info| == FS_DUMP_SIZE
    case EndFsDump => v.nsp.None?
  }

  // The first status the console gets for an operation.
  function Answer(env: Env, v: View, op: Op): nat {
    match op
    case OpenNsp(path, size, _) => if env.accepts(v.offers, path, size) then SUCCESS else HOST_IO_ERROR
    case Put(path, data) => if v.nsp.Some? || env.accepts(v.offers, path, |data|) then SUCCESS else HOST_IO_ERROR
    case PutCancelled(path, size, _) => if v.nsp.Some? || env.accepts(v.offers, path, size) then SUCCESS else HOST_IO_ERROR
    case _ => SUCCESS
  }

  // The command an operation opens with.
  function Opening(op: Op): (c: (nat, seq<byte>))
    requires op.OpenNsp? || op.Put? || op.PutCancelled? ==> |op.path| <= MAX_NAME_LENGTH
  {
    match op
    case Hello(version) => (START_SESSION, version)
    case OpenNsp(path, size, headerSize) => (SEND_FILE_PROPERTIES, PropertiesBlock(size, path, headerSize))
    case Put(path, data) => (SEND_FILE_PROPERTIES, PropertiesBlock(|data|, path, 0))
    case PutCancelled(path, size, _) => (SEND_FILE_PROPERTIES, PropertiesBlock(size, path, 0))
    case Cancel => (CANCEL_FILE_TRANSFER, [])
    case PutNspHeader(header) => (SEND_NSP_HEADER, header)
    case StartFsDump(info) => (START_EXTRACTED_FS_DUMP, info)
    case EndFsDump => (END_EXTRACTED_FS_DUMP, [])
  }

  // What the console sends once it has the first status.
  function Following(op: Op, answer: nat, P: nat): seq<Packet>
    requires P > 0
  {
    match op
    case Put(_, data) => if answer == SUCCESS then FileStream(Blocks(data, TRANSFER_BLOCK), P) else []
    case PutCancelled(_, _, blocks) => if answer == SUCCESS then CancelStream(blocks, P) else []
    case _ => []
  }

  // Whole blocks, and then a CancelFileTransfer command in place of the next one.
  function CancelStream(blocks: seq<seq<byte>>, P: nat): seq<Packet>
    requires P > 0
  {
    if blocks == [] then [CommandHeader(CANCEL_FILE_TRANSFER, 0)]
    else Packets(blocks[0], P, false) + CancelStream(blocks[1..], P)
  }

  function OpPackets(env: Env, v: View, op: Op): seq<Packet>
    requires env.P > 0 && Allowed(v, op)
  {
    CommandPackets(Opening(op).0, Opening(op).1, env.P) + Following(op, Answer(env, v, op), env.P)
  }

  // The exchange the console expects: a status for the command, and one for the data if there is any.
  function Exchange(env: Env, v: View, op: Op): seq<Event>
    requires env.P > 0 && Allowed(v, op)
  {
    var answer := Answer(env, v, op);
    var more := Following(op, answer, env.P);
    GotAll(CommandPackets(Opening(op).0, Opening(op).1, env.P)) + [Sent(answer)]
    + if more == [] then [] else GotAll(more) + [Sent(SUCCESS)]
  }

  // The session after the operation.
  function Next(env: Env, v: View, op: Op): View
    requires Allowed(v, op)
  {
    if Answer(env, v, op) != SUCCESS then v.(offers := v.offers + 1)
    else
      match op
      case OpenNsp(path, size, headerSize) =>
        View(Some(Nsp(path, size, headerSize, [])), Remove(v.files, path), v.offers + 1)
      case Put(path, data) =>
        if v.nsp.Some? then v.(nsp := Some(v.nsp.value.(bodies := v.nsp.value.bodies + data)))
        else View(None, v.files[path := data], v.offers + 1)
      case PutCancelled(path, _, _) =>
        if v.nsp.Some? then v.(nsp := None) else View(None, Remove(v.files, path), v.offers + 1)
      case Cancel => v.(nsp := None)
      case PutNspHeader(header) => View(None, v.files[v.nsp.value.path := header + v.nsp.value.bodies], v.offers)
      case _ => v
  }

  lemma NextValid(env: Env, v: View, op: Op)
    requires ValidView(v) && Allowed(v, op)
    ensures ValidView(Next(env, v, op))
  {
  }

  // -------------------------------------------------------------------------------------------
  // Reading blocks and cancellations

  // A chunk is taken for a cancellation when it has sixteen bytes and starts with this command.
  lemma CancelIs(chunk: seq<byte>)
    ensures IsCancel(chunk) <==> |chunk| == 16 && chunk[..8] == [0x4E, 0x58, 0x44, 0x54, 2, 0, 0, 0]
  {
    if |chunk| == 16 {
      FourBytes(chunk[4..8]);
      assert chunk[..8] == chunk[..4] + chunk[4..8];
      assert [0x4E, 0x58, 0x44, 0x54, 2, 0, 0, 0] == MAGIC + [2, 0, 0, 0];
    }
  }

  lemma FourBytes(s: seq<byte>)
    requires |s| == 4
    ensures FromLe(s) == 2 <==> s == [2, 0, 0, 0]
  {
    ToLeFromLe(s);
    assert Pow256(4) == 0x1_0000_0000;
    LeRoundTrip(2, 4);
    assert ToLe(2, 4) == [2, 0, 0, 0];
  }

  // With 8 MiB blocks, the only chunk that can be mistaken is the last one.
  lemma {:induction false} OnlyTheLastBlock(env: Env, data: seq<byte>, rest: seq<Packet>)
    requires ValidEnv(env)
    ensures data != [] ==>
              (Unambiguous(env, |data|, FileStream(Blocks(data, TRANSFER_BLOCK), env.P) + rest) <==> !LooksCancelled(data))
    decreases |data|
  {
    var P := env.P;
    if 0 < |data| <= TRANSFER_BLOCK {
      assert Blocks(data, TRANSFER_BLOCK) == [data];
      ReadTransfer(data, P, rest);
    } else if data != [] {
      var block, tail := data[..TRANSFER_BLOCK], data[TRANSFER_BLOCK..];
      OnlyTheLastBlock(env, tail, rest);
      var more := Blocks(tail, TRANSFER_BLOCK);
      assert Blocks(data, TRANSFER_BLOCK) == [block] + more;
      assert ([block] + more)[1..] == more;
      var q := Packets(block, P, false) + (FileStream(more, P) + rest);
      assert FileStream(Blocks(data, TRANSFER_BLOCK), P) + rest == q;
      ReadWholeBlock(block, P, FileStream(more, P) + rest);
    }
  }

  lemma {:induction false} BlocksExist(data: seq<byte>)
    requires data != []
    ensures Blocks(data, TRANSFER_BLOCK) != []
  {
  }

  // A complete file arrives, whatever follows it.
  lemma FileArrives(env: Env, h: Host, path: Path, data: seq<byte>, rest: seq<Packet>)
    requires ValidEnv(env) && path in h.disk && data != [] && !LooksCancelled(data)
    ensures var q := FileStream(Blocks(data, TRANSFER_BLOCK), env.P);
            && q != []
            && Transfer(env, h, path, |data|, q + rest) == Stage(Store(h, path, data), rest, GotAll(q), Completed)
  {
    var blocks := Blocks(data, TRANSFER_BLOCK);
    BlocksCover(data, TRANSFER_BLOCK);
    BlocksExist(data);
    FileStreamIsFramed(blocks, env.P);
    OnlyTheLastBlock(env, data, rest);
    FramedTransfer(env, h, path, FileStream(blocks, env.P), rest);
  }

  // The cancellation is noticed, exactly when there is room for it; otherwise the server stops.
  ghost predicate CancelOutcome(env: Env, h: Host, path: Path, left: nat, room: bool, q: seq<Packet>, rest: seq<Packet>)
    requires ValidEnv(env) && path in h.disk
  {
    var s := Transfer(env, h, path, left, q + rest);
    if room then s == Stage(CancelTransfer(h, path), rest, GotAll(q), Cancelled) else s.result == Failed
  }

  lemma CancelLater(env: Env, h: Host, path: Path, left: nat, room: bool, block: seq<byte>, tail: seq<Packet>, rest: seq<Packet>)
    requires ValidEnv(env) && Receives(h, path) && |block| == TRANSFER_BLOCK < left
    requires CancelOutcome(env, Store(h, path, block), path, left - TRANSFER_BLOCK, room, tail, rest)
    ensures CancelOutcome(env, h, path, left, room, Packets(block, env.P, false) + tail, rest)
  {
    var first := Packets(block, env.P, false);
    ReadWholeBlock(block, env.P, tail + rest);
    var q := first + tail;
    assert q + rest == first + (tail + rest);
    TransferOne(env, h, path, left, q + rest, block, tail + rest);
    CancelAfterStore(h, path, block);
    SuffixSplit(q, rest, tail, |first|);
    assert q[..|first|] == first;
  }

  // The cancel header reaches the host exactly when at least its own size is still missing;
  // otherwise it overflows the host's read, and the server stops.
  lemma {:induction false} CancelArrives(env: Env, h: Host, path: Path, left: nat, blocks: seq<seq<byte>>, rest: seq<Packet>)
    requires ValidEnv(env) && Receives(h, path)
    requires forall i :: 0 <= i < |blocks| ==> |blocks[i]| == 0x800000
    requires |blocks| * 0x800000 < left
    ensures CancelOutcome(env, h, path, left, |blocks| * 0x800000 + 16 <= left, CancelStream(blocks, env.P), rest)
    decreases |blocks|
  {
    if blocks == [] {
      CancelAtOnce(env, h, path, left, rest);
    } else {
      StoreKeeps(h, path, blocks[0]);
      CancelArrives(env, Store(h, path, blocks[0]), path, left - TRANSFER_BLOCK, blocks[1..], rest);
      CancelLater(env, h, path, left, |blocks| * TRANSFER_BLOCK + HEADER_SIZE <= left, blocks[0],
                  CancelStream(blocks[1..], env.P), rest);
    }
  }

  lemma CancelAtOnce(env: Env, h: Host, path: Path, left: nat, rest: seq<Packet>)
    requires ValidEnv(env) && path in h.disk && left > 0
    ensures CancelOutcome(env, h, path, left, HEADER_SIZE <= left, CancelStream([], env.P), rest)
  {
    var header := CommandHeader(CANCEL_FILE_TRANSFER, 0);
    HeaderRoundTrip(CANCEL_FILE_TRANSFER, 0);
    var size := ReadSize(left, TRANSFER_BLOCK, env.P);
    assert ([header] + rest)[..1] == [header];
    if HEADER_SIZE <= left {
      ShortPacketFirst(header, rest, size, env.P);
    } else {
      ModSmall(left, env.P);
    }
  }

  // -------------------------------------------------------------------------------------------
  // One operation

  ghost predicate OpServed(env: Env, v: View, op: Op, rest: seq<Packet>)
    requires ValidEnv(env) && ValidView(v) && Allowed(v, op) && Consistent(HostOf(v))
  {
    Serves(env, HostOf(v), OpPackets(env, v, op) + rest, Exchange(env, v, op), HostOf(Next(env, v, op)), rest)
  }

  // An operation that is one command without a data stage.
  lemma PlainOp(env: Env, v: View, op: Op, rest: seq<Packet>)
    requires ValidEnv(env) && ValidView(v) && Allowed(v, op) && Consistent(HostOf(v))
    requires Following(op, Answer(env, v, op), env.P) == []
    requires var c := Opening(op); BlockSizeOk(c.0, |c.1|) && |c.1| < 0x1_0000_0000
    requires var c := Opening(op);
             Handle(env, HostOf(v), c.0, c.1, rest) == Reply(HostOf(Next(env, v, op)), rest, [], Some(Answer(env, v, op)))
    ensures OpServed(env, v, op, rest)
  {
    var c := Opening(op);
    var r := Handle(env, HostOf(v), c.0, c.1, rest);
    ServesCommand(env, HostOf(v), c.0, c.1, rest, r);
    var q := CommandPackets(c.0, c.1, env.P);
    assert OpPackets(env, v, op) == q by { assert q + [] == q; }
    assert Exchange(env, v, op) == GotAll(q) + (r.events + [Sent(r.status.value)]);
  }

  lemma DataShape(env: Env, v: View, op: Op, more: seq<Packet>, rest: seq<Packet>)
    requires env.P > 0 && Allowed(v, op) && Answer(env, v, op) == SUCCESS
    requires more == Following(op, SUCCESS, env.P) && more != []
    ensures var q := CommandPackets(Opening(op).0, Opening(op).1, env.P);
            && OpPackets(env, v, op) + rest == q + (more + rest)
            && Exchange(env, v, op) == GotAll(q) + ([Sent(SUCCESS)] + GotAll(more) + [Sent(SUCCESS)])
  {
    var q := CommandPackets(Opening(op).0, Opening(op).1, env.P);
    assert OpPackets(env, v, op) + rest == q + (more + rest);
    assert GotAll(q) + [Sent(SUCCESS)] + (GotAll(more) + [Sent(SUCCESS)])
        == GotAll(q) + ([Sent(SUCCESS)] + GotAll(more) + [Sent(SUCCESS)]);
  }

  // An operation that opens a file and sends data.
  lemma DataOp(env: Env, v: View, op: Op, more: seq<Packet>, rest: seq<Packet>)
    requires ValidEnv(env) && ValidView(v) && Allowed(v, op) && Consistent(HostOf(v))
    requires Opening(op).0 == SEND_FILE_PROPERTIES && |Opening(op).1| == PROPERTIES_SIZE
    requires Answer(env, v, op) == SUCCESS
    requires more == Following(op, SUCCESS, env.P) && more != []
    requires HandleProperties(env, HostOf(v), Opening(op).1, more + rest)
          == Reply(HostOf(Next(env, v, op)), rest, [Sent(SUCCESS)] + GotAll(more), Some(SUCCESS))
    ensures OpServed(env, v, op, rest)
  {
    DataShape(env, v, op, more, rest);
    var r := Reply(HostOf(Next(env, v, op)), rest, [Sent(SUCCESS)] + GotAll(more), Some(SUCCESS));
    ServesCommand(env, HostOf(v), SEND_FILE_PROPERTIES, Opening(op).1, more + rest, r);
  }

  // Opening an output file in the console's view: what the host writes the data to.
  lemma OpensFor(env: Env, v: View, path: Path, size: nat)
    requires ValidEnv(env) && ValidView(v) && GoodPath(path) && 0 < size < 0x1_0000_0000_0000_0000
    requires v.nsp.Some? ==> size != v.nsp.value.size
    requires v.nsp.Some? || env.accepts(v.offers, path, size)
    ensures var h := if v.nsp.Some? then HostOf(v) else HostOf(View(None, v.files[path := []], v.offers + 1));
            var out := if v.nsp.Some? then v.nsp.value.path else path;
            && Receives(h, out)
            && forall q :: HandleProperties(env, HostOf(v), PropertiesBlock(size, path, 0), q)
                 == var s := Transfer(env, h, out, size, q);
                    Reply(s.h, s.rest, [Sent(SUCCESS)] + s.events, if s.result.Failed? then None else Some(SUCCESS))
  {
    PropertiesRoundTrip(size, path, 0);
    HostOfConsistent(v);
    if v.nsp.Some? {
      OpensEntry(env, HostOf(v), path, size);
    } else {
      OpensNew(env, HostOf(v), path, size);
    }
  }

  // An NSP is open, and takes its next entry.
  lemma OpensEntry(env: Env, h: Host, path: Path, size: nat)
    requires ValidEnv(env) && GoodPath(path) && 0 < size && h.nspMode && h.nspFile.Some? && h.nspFile.value in h.disk
    requires ParseProperties(PropertiesBlock(size, path, 0)) == Properties(size, |path|, 0, path) && size != h.nspSize
    ensures forall q :: HandleProperties(env, h, PropertiesBlock(size, path, 0), q)
                 == var s := Transfer(env, h, h.nspFile.value, size, q);
                    Reply(s.h, s.rest, [Sent(SUCCESS)] + s.events, if s.result.Failed? then None else Some(SUCCESS))
  {
  }

  // No NSP is open, and a new file is.
  lemma OpensNew(env: Env, h: Host, path: Path, size: nat)
    requires ValidEnv(env) && GoodPath(path) && 0 < size && !h.nspMode && env.accepts(h.checks, path, size)
    requires ParseProperties(PropertiesBlock(size, path, 0)) == Properties(size, |path|, 0, path)
    ensures forall q :: HandleProperties(env, h, PropertiesBlock(size, path, 0), q)
                 == var s := Transfer(env, h.(disk := h.disk[path := []], checks := h.checks + 1), path, size, q);
                    Reply(s.h, s.rest, [Sent(SUCCESS)] + s.events, if s.result.Failed? then None else Some(SUCCESS))
  {
  }

  lemma PutServed(env: Env, v: View, path: Path, data: seq<byte>, rest: seq<Packet>)
    requires ValidEnv(env) && ValidView(v) && Allowed(v, Put(path, data)) && Consistent(HostOf(v)) && data != []
    requires Answer(env, v, Put(path, data)) == SUCCESS
    ensures OpServed(env, v, Put(path, data), rest)
  {
    var op := Put(path, data);
    OpensFor(env, v, path, |data|);
    var h := if v.nsp.Some? then HostOf(v) else HostOf(View(None, v.files[path := []], v.offers + 1));
    var out := if v.nsp.Some? then v.nsp.value.path else path;
    var more := FileStream(Blocks(data, TRANSFER_BLOCK), env.P);
    FileArrives(env, h, out, data, rest);
    assert Store(h, out, data) == HostOf(Next(env, v, op)) by { Stored(env, v, op); }
    DataOp(env, v, op, more, rest);
  }

  // What the host stores is what the console's view says.
  lemma Stored(env: Env, v: View, op: Op)
    requires ValidView(v) && op.Put? && Allowed(v, op) && Answer(env, v, op) == SUCCESS
    ensures Store(if v.nsp.Some? then HostOf(v) else HostOf(View(None, v.files[op.path := []], v.offers + 1)),
                  if v.nsp.Some? then v.nsp.value.path else op.path, op.data) == HostOf(Next(env, v, op))
  {
    if v.nsp.Some? {
      var n := v.nsp.value;
      assert (Zeros(n.headerSize) + n.bodies) + op.data == Zeros(n.headerSize) + (n.bodies + op.data);
      var d := v.files[n.path := Zeros(n.headerSize) + n.bodies];
      assert d[n.path := Zeros(n.headerSize) + (n.bodies + op.data)]
          == v.files[n.path := Zeros(n.headerSize) + (n.bodies + op.data)];
    } else {
      assert [] + op.data == op.data;
      assert v.files[op.path := []][op.path := op.data] == v.files[op.path := op.data];
    }
  }

  lemma CancelStreamNotEmpty(blocks: seq<seq<byte>>, P: nat)
    requires P > 0
    ensures CancelStream(blocks, P) != []
  {
    if blocks != [] { CancelStreamNotEmpty(blocks[1..], P); }
  }

  lemma PutCancelledServed(env: Env, v: View, op: Op, rest: seq<Packet>)
    requires ValidEnv(env) && ValidView(v) && op.PutCancelled? && Allowed(v, op) && Consistent(HostOf(v))
    requires Answer(env, v, op) == SUCCESS
    ensures OpServed(env, v, op, rest)
  {
    OpensFor(env, v, op.path, op.size);
    var h := if v.nsp.Some? then HostOf(v) else HostOf(View(None, v.files[op.path := []], v.offers + 1));
    var out := if v.nsp.Some? then v.nsp.value.path else op.path;
    var more := CancelStream(op.blocks, env.P);
    CancelStreamNotEmpty(op.blocks, env.P);
    CancelArrives(env, h, out, op.size, op.blocks, rest);
    assert CancelTransfer(h, out) == HostOf(Next(env, v, op)) by { Dropped(env, v, op); }
    DataOp(env, v, op, more, rest);
  }

  lemma Dropped(env: Env, v: View, op: Op)
    requires ValidView(v) && op.PutCancelled? && Allowed(v, op) && Answer(env, v, op) == SUCCESS
    ensures CancelTransfer(if v.nsp.Some? then HostOf(v) else HostOf(View(None, v.files[op.path := []], v.offers + 1)),
                           if v.nsp.Some? then v.nsp.value.path else op.path) == HostOf(Next(env, v, op))
  {
    if v.nsp.Some? {
      var n := v.nsp.value;
      assert Remove(v.files[n.path := Zeros(n.headerSize) + n.bodies], n.path) == v.files;
    } else {
      assert Remove(v.files[op.path := []], op.path) == Remove(v.files, op.path);
    }
  }

  // Refused files, empty files and the opening of an NSP: one command, no data.
  lemma OpenNspServed(env: Env, v: View, op: Op, rest: seq<Packet>)
    requires ValidEnv(env) && ValidView(v) && op.OpenNsp? && Allowed(v, op) && Consistent(HostOf(v))
    ensures OpServed(env, v, op, rest)
  {
    PropertiesRoundTrip(op.size, op.path, op.headerSize);
    var pad := Zeros(op.headerSize);
    assert pad + [] == pad;
    assert Remove(v.files, op.path)[op.path := pad] == v.files[op.path := pad];
    PlainOp(env, v, op, rest);
  }

  lemma RefusedServed(env: Env, v: View, op: Op, rest: seq<Packet>)
    requires ValidEnv(env) && ValidView(v) && (op.Put? || op.PutCancelled?) && Allowed(v, op) && Consistent(HostOf(v))
    requires Answer(env, v, op) != SUCCESS
    ensures OpServed(env, v, op, rest)
  {
    PropertiesRoundTrip(if op.Put? then |op.data| else op.size, op.path, 0);
    PlainOp(env, v, op, rest);
  }

  lemma EmptyServed(env: Env, v: View, op: Op, rest: seq<Packet>)
    requires ValidEnv(env) && ValidView(v) && op.Put? && op.data == [] && Allowed(v, op) && Consistent(HostOf(v))
    requires Answer(env, v, op) == SUCCESS
    ensures OpServed(env, v, op, rest)
  {
    PropertiesRoundTrip(0, op.path, 0);
    if v.nsp.Some? { assert v.nsp.value.bodies + [] == v.nsp.value.bodies; }
    PlainOp(env, v, op, rest);
  }

  lemma OtherServed(env: Env, v: View, op: Op, rest: seq<Packet>)
    requires ValidEnv(env) && ValidView(v) && Allowed(v, op) && Consistent(HostOf(v))
    requires !op.OpenNsp? && !op.Put? && !op.PutCancelled?
    ensures OpServed(env, v, op, rest)
  {
    match op {
      case Cancel =>
        var n := v.nsp.value;
        assert Remove(v.files[n.path := Zeros(n.headerSize) + n.bodies], n.path) == v.files;
      case PutNspHeader(header) =>
        var n := v.nsp.value;
        HostOfConsistent(v);
        NspHeaderCompletes(HostOf(v), header, rest);
        assert v.files[n.path := Zeros(n.headerSize) + n.bodies][n.path := header + n.bodies]
            == v.files[n.path := header + n.bodies];
      case _ =>
    }
    PlainOp(env, v, op, rest);
  }

  // The host serves every operation as the console expects.
  lemma EveryOpIsServed(env: Env, v: View, op: Op, rest: seq<Packet>)
    requires ValidEnv(env) && ValidView(v) && Allowed(v, op)
    ensures Consistent(HostOf(v)) && OpServed(env, v, op, rest)
    ensures Answer(env, v, op) == 0
         || (Answer(env, v, op) == 8 && v.nsp.None? && (op.OpenNsp? || op.Put? || op.PutCancelled?))
  {
    HostOfConsistent(v);
    if op.Put? && op.data != [] && Answer(env, v, op) == SUCCESS {
      PutServed(env, v, op.path, op.data, rest);
    } else if op.PutCancelled? && Answer(env, v, op) == SUCCESS {
      PutCancelledServed(env, v, op, rest);
    } else if op.OpenNsp? {
      OpenNspServed(env, v, op, rest);
    } else if (op.Put? || op.PutCancelled?) && Answer(env, v, op) != SUCCESS {
      RefusedServed(env, v, op, rest);
    } else if op.Put? {
      EmptyServed(env, v, op, rest);
    } else {
      OtherServed(env, v, op, rest);
    }
  }

  // -------------------------------------------------------------------------------------------
  // Whole sessions

  ghost predicate Conforming(env: Env, v: View, script: seq<Op>)
    decreases |script|
  {
    script != [] ==> Allowed(v, script[0]) && Conforming(env, Next(env, v, script[0]), script[1..])
  }

  // Packets sent, exchange expected, and final view of a script.
  datatype Plan = Plan(packets: seq<Packet>, exchange: seq<Event>, view: View)

  function PlanOf(env: Env, v: View, script: seq<Op>): Plan
    requires env.P > 0 && Conforming(env, v, script)
    decreases |script|
  {
    if script == [] then Plan([], [], v)
    else
      var p := PlanOf(env, Next(env, v, script[0]), script[1..]);
      Plan(OpPackets(env, v, script[0]) + p.packets, Exchange(env, v, script[0]) + p.exchange, p.view)
  }

  lemma {:induction false} ScriptServed(env: Env, v: View, script: seq<Op>, rest: seq<Packet>)
    requires ValidEnv(env) && ValidView(v) && Conforming(env, v, script)
    ensures var p := PlanOf(env, v, script);
            && ValidView(p.view) && Consistent(HostOf(v))
            && Serves(env, HostOf(v), p.packets + rest, p.exchange, HostOf(p.view), rest)
    decreases |script|
  {
    HostOfConsistent(v);
    if script == [] {
      ServesNothing(env, HostOf(v), rest);
    } else {
      var op := script[0];
      var m := Next(env, v, op);
      NextValid(env, v, op);
      ScriptServed(env, m, script[1..], rest);
      var p := PlanOf(env, m, script[1..]);
      EveryOpIsServed(env, v, op, p.packets + rest);
      assert OpPackets(env, v, op) + p.packets + rest == OpPackets(env, v, op) + (p.packets + rest);
      ServesBoth(env, HostOf(v), OpPackets(env, v, op) + (p.packets + rest), Exchange(env, v, op), HostOf(m),
                 p.packets + rest, p.exchange, HostOf(p.view), rest);
    }
  }

  lemma ServesNothing(env: Env, h: Host, rest: seq<Packet>)
    requires ValidEnv(env) && Consistent(h)
    ensures Serves(env, h, [] + rest, [], h, rest)
  {
    assert [] + rest == rest;
    var o := Session(env, h, rest);
    assert [] + o.events == o.events;
  }

  // How a session ends: usbEndSession, a console whose ABI version is refused, or one that is
  // unplugged. Whatever the console sends behind the first two, the server has stopped.
  datatype Ending =
    | Bye(behind: seq<Packet>)
    | Refused(version: seq<byte>, behind: seq<Packet>)
    | Unplugged

  predicate Final(e: Ending) {
    e.Refused? ==> |e.version| == SESSION_SIZE && e.version[3] != ABI_VERSION
  }

  function LastCommand(e: Ending, P: nat): seq<Packet>
    requires P > 0
  {
    match e
    case Bye(_) => CommandPackets(END_SESSION, [], P)
    case Refused(version, _) => CommandPackets(START_SESSION, version, P)
    case Unplugged => []
  }

  function EndPackets(e: Ending, P: nat): seq<Packet>
    requires P > 0
  {
    LastCommand(e, P) + if e.Unplugged? then [] else e.behind
  }

  function LastExchange(e: Ending, P: nat): seq<Event>
    requires P > 0
  {
    match e
    case Bye(_) => GotAll(LastCommand(e, P)) + [Sent(SUCCESS)]
    case Refused(_, _) => GotAll(LastCommand(e, P)) + [Sent(UNSUPPORTED_ABI_VERSION)]
    case Unplugged => []
  }

  // A fresh server, any conforming script, any ending: the host takes every packet up to the last
  // command, sends exactly the statuses the console waits for at the places where it waits, and its
  // disk holds exactly the files the console's view holds, together with the padding and bodies of
  // an NSP cut short.
  lemma ConformingSessions(env: Env, files: map<Path, seq<byte>>, script: seq<Op>, ending: Ending)
    requires ValidEnv(env) && Conforming(env, View(None, files, 0), script) && Final(ending)
    ensures var start := Host(false, 0, 0, 0, None, files, 0);
            var p := PlanOf(env, View(None, files, 0), script);
            && Consistent(start)
            && Session(env, start, p.packets + EndPackets(ending, env.P))
            == Outcome(HostOf(p.view), p.exchange + LastExchange(ending, env.P))
  {
    var v := View(None, files, 0);
    ScriptServed(env, v, script, EndPackets(ending, env.P));
    SessionEnds(env, HostOf(PlanOf(env, v, script).view), ending);
  }

  lemma SessionEnds(env: Env, h: Host, ending: Ending)
    requires ValidEnv(env) && Consistent(h) && Final(ending)
    ensures Session(env, h, EndPackets(ending, env.P)) == Outcome(h, LastExchange(ending, env.P))
  {
    match ending
    case Bye(behind) => EndSessionStops(env, h, behind);
    case Refused(version, behind) =>
      StartSessionStopsIff(env, h, version, behind);
      Nibbles(version[3]);
    case Unplugged =>
  }

  // -------------------------------------------------------------------------------------------
  // What scripts leave behind

  // The entries of an NSP one after the other, and then its header.
  function EntriesScript(entries: seq<(Path, seq<byte>)>, header: seq<byte>): seq<Op> {
    if entries == [] then [PutNspHeader(header)]
    else [Put(entries[0].0, entries[0].1)] + EntriesScript(entries[1..], header)
  }

  function EntryBytes(entries: seq<(Path, seq<byte>)>): seq<byte> {
    if entries == [] then [] else entries[0].1 + EntryBytes(entries[1..])
  }

  // An NSP is open, and these entries and this header are what it still misses.
  ghost predicate Misses(v: View, entries: seq<(Path, seq<byte>)>, header: seq<byte>) {
    && ValidView(v) && v.nsp.Some?
    && |header| == v.nsp.value.headerSize < 0x1_0000_0000 && v.nsp.value.size < 0x1_0000_0000_0000_0000
    && v.nsp.value.headerSize + |v.nsp.value.bodies| + |EntryBytes(entries)| == v.nsp.value.size
    && forall i :: 0 <= i < |entries| ==> GoodPath(entries[i].0) && !LooksCancelled(entries[i].1)
  }

  lemma EntryTaken(env: Env, v: View, entries: seq<(Path, seq<byte>)>, header: seq<byte>)
    requires ValidEnv(env) && Misses(v, entries, header) && entries != []
    ensures var op := EntriesScript(entries, header)[0];
            && Allowed(v, op) && Misses(Next(env, v, op), entries[1..], header)
            && Next(env, v, op) == v.(nsp := Some(v.nsp.value.(bodies := v.nsp.value.bodies + entries[0].1)))
  {
  }

  lemma {:induction false} EntriesPlan(env: Env, v: View, entries: seq<(Path, seq<byte>)>, header: seq<byte>)
    requires ValidEnv(env) && Misses(v, entries, header)
    ensures var n := v.nsp.value;
            && Conforming(env, v, EntriesScript(entries, header))
            && PlanOf(env, v, EntriesScript(entries, header)).view
            == View(None, v.files[n.path := header + (n.bodies + EntryBytes(entries))], v.offers)
    decreases |entries|
  {
    var script := EntriesScript(entries, header);
    var n := v.nsp.value;
    if entries == [] {
      assert n.bodies + [] == n.bodies;
      assert script[1..] == [];
    } else {
      EntryTaken(env, v, entries, header);
      EntriesPlan(env, Next(env, v, script[0]), entries[1..], header);
      assert script[1..] == EntriesScript(entries[1..], header);
      assert (n.bodies + entries[0].1) + EntryBytes(entries[1..]) == n.bodies + EntryBytes(entries);
    }
  }

  // An NSP sent entry by entry ends up as its header followed by its entries, although the header
  // is sent last.
  lemma NspIsComplete(env: Env, files: map<Path, seq<byte>>, path: Path, header: seq<byte>, entries: seq<(Path, seq<byte>)>)
    requires ValidEnv(env) && GoodPath(path) && header != [] && |header| < 0x1_0000_0000 && EntryBytes(entries) != []
    requires |header + EntryBytes(entries)| < 0x1_0000_0000_0000_0000
    requires env.accepts(0, path, |header + EntryBytes(entries)|)
    requires forall i :: 0 <= i < |entries| ==> GoodPath(entries[i].0) && !LooksCancelled(entries[i].1)
    ensures var script := [OpenNsp(path, |header + EntryBytes(entries)|, |header|)] + EntriesScript(entries, header);
            var v := View(None, files, 0);
            && Conforming(env, v, script)
            && Consistent(Host(false, 0, 0, 0, None, files, 0))
            && var o := Session(env, Host(false, 0, 0, 0, None, files, 0), PlanOf(env, v, script).packets);
               && o.events == PlanOf(env, v, script).exchange
               && !o.h.nspMode && path in o.h.disk
               && o.h.disk[path] == header + EntryBytes(entries)
               && forall f :: f != path ==> (f in o.h.disk <==> f in files) && (f in files ==> o.h.disk[f] == files[f])
  {
    var v := View(None, files, 0);
    var size := |header + EntryBytes(entries)|;
    var m := View(Some(Nsp(path, size, |header|, [])), Remove(files, path), 1);
    var tail := EntriesScript(entries, header);
    var script := [OpenNsp(path, size, |header|)] + tail;
    assert script[1..] == tail;
    assert Next(env, v, script[0]) == m;
    EntriesPlan(env, m, entries, header);
    assert [] + EntryBytes(entries) == EntryBytes(entries);
    ConformingSessions(env, files, script, Unplugged);
    var p := PlanOf(env, v, script);
    assert EndPackets(Unplugged, env.P) == [] + [] == [];
    assert p.packets + [] == p.packets && p.exchange + [] == p.exchange;
  }
}
