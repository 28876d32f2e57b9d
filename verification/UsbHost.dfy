// The host server as nxdt_host.py runs it: globals updated in place, a transfer loop and a command
// loop, proved against the functions of UsbProtocol.

module UsbHost {
  import opened Bytes
  import opened Bits
  import opened UsbFraming
  import opened UsbProtocol
  import opened UsbHostSafety
  import opened UsbSession

  class Server {
    const env: Env
    var nspTransferMode: bool
    var nspSize: nat
    var nspHeaderSize: nat
    var nspRemainingSize: int
    var nspFile: Option<Path>
    var disk: map<Path, seq<byte>>
    var checks: nat
    var rx: seq<Packet>  // what the console has sent and the server has not read
    var log: seq<Event>

    constructor (env: Env, disk: map<Path, seq<byte>>, rx: seq<Packet>)
      ensures this.env == env && this.rx == rx && log == []
      ensures State() == Host(false, 0, 0, 0, None, disk, 0)
    {
      this.env := env;
      nspTransferMode, nspSize, nspHeaderSize, nspRemainingSize, nspFile := false, 0, 0, 0, None;
      this.disk, checks, this.rx, log := disk, 0, rx, [];
    }

    function State(): Host
      reads this
    {
      Host(nspTransferMode, nspSize, nspHeaderSize, nspRemainingSize, nspFile, disk, checks)
    }

    ghost predicate Valid()
      reads this
    {
      ValidEnv(env) && PowerOfTwo(env.P) && Consistent(State())
    }

    // utilsIsValueAlignedToEndpointPacketSize
    method IsAlignedToPacketSize(value: nat) returns (aligned: bool)
      requires ValidEnv(env) && PowerOfTwo(env.P)
      ensures aligned <==> value % env.P == 0
    {
      aligned := And(value, env.P - 1) == 0;
      AlignedMeansMultiple(value, env.P);
    }

    // utilsResetNspInfo
    method ResetNspInfo(delete: bool)
      modifies this`nspTransferMode, this`nspSize, this`nspHeaderSize, this`nspRemainingSize, this`nspFile, this`disk
      ensures State() == ResetNsp(old(State()), delete)
    {
      if nspFile.Some? && delete {
        disk := Remove(disk, nspFile.value);
      }
      nspTransferMode, nspSize, nspHeaderSize, nspRemainingSize, nspFile := false, 0, 0, 0, None;
    }

    // usbRead: what arrived, or nothing when the transfer failed
    method UsbRead(size: nat) returns (chunk: seq<byte>)
      requires env.P > 0
      modifies this`rx, this`log
      ensures match BulkRead(old(rx), size, env.P)
              case Read(data, rest) => chunk == data && rx == rest && log == old(log) + Taken(old(rx), rest)
              case _ => chunk == [] && rx == [] && log == old(log)
    {
      match BulkRead(rx, size, env.P)
      case Read(data, rest) =>
        chunk, log := data, log + Taken(rx, rest);
        rx := rest;
      case _ =>
        chunk, rx := [], [];
    }

    // usbSendStatus
    method SendStatus(status: nat)
      modifies this`log
      ensures log == old(log) + [Sent(status)]
    {
      log := log + [Sent(status)];
    }

    // cancelTransfer
    method CancelCurrentTransfer(path: Path)
      modifies this`nspTransferMode, this`nspSize, this`nspHeaderSize, this`nspRemainingSize, this`nspFile, this`disk
      ensures State() == CancelTransfer(old(State()), path)
    {
      if nspTransferMode {
        ResetNspInfo(true);
      } else {
        disk := Remove(disk, path);
      }
    }

    // One chunk of the transfer loop, with the byte that makes room for an empty packet.
    method ReadChunk(diff: nat, blksize: nat) returns (chunk: seq<byte>)
      requires ValidEnv(env) && PowerOfTwo(env.P) && diff > 0
      requires blksize == if diff < TRANSFER_BLOCK then diff else TRANSFER_BLOCK
      modifies this`rx, this`log
      ensures var r := BulkRead(old(rx), ReadSize(diff, TRANSFER_BLOCK, env.P), env.P);
              if r.Read? then chunk == r.data && rx == r.rest && log == old(log) + Taken(old(rx), rx)
              else chunk == [] && rx == [] && log == old(log)
    {
      var rdSize := blksize;
      var aligned := IsAlignedToPacketSize(blksize);
      if blksize >= diff && aligned { rdSize := rdSize + 1; }
      chunk := UsbRead(rdSize);
    }

    // The data transfer stage of usbHandleSendFileProperties.
    method ReceiveData(path: Path, fileSize: nat) returns (result: StageResult)
      requires ValidEnv(env) && PowerOfTwo(env.P) && path in disk
      modifies this
      ensures var s := Transfer(env, old(State()), path, fileSize, old(rx));
              State() == s.h && rx == s.rest && log == old(log) + s.events && result == s.result
    {
      var offset, blksize := 0, TRANSFER_BLOCK;
      ghost var goal := Goal(env, State(), path, fileSize, rx, log);
      while offset < fileSize
        invariant path in disk && 0 <= blksize <= TRANSFER_BLOCK
        invariant fileSize - offset < TRANSFER_BLOCK ==> blksize >= fileSize - offset
        invariant fileSize - offset >= TRANSFER_BLOCK ==> blksize == TRANSFER_BLOCK
        invariant goal == Goal(env, State(), path, fileSize - offset, rx, log)
        decreases |rx|
      {
        var diff := fileSize - offset;
        if blksize > diff { blksize := diff; }
        var chunk, ended := ReceiveChunk(path, diff, blksize, goal);
        if ended.Some? { return ended.value; }
        offset := offset + |chunk|;
      }
      return Completed;
    }

    // The body of the transfer loop: one chunk is read and stored, unless it ends the transfer.
    method ReceiveChunk(path: Path, diff: nat, blksize: nat, ghost goal: Stage)
      returns (chunk: seq<byte>, ended: Option<StageResult>)
      requires ValidEnv(env) && PowerOfTwo(env.P) && path in disk && diff > 0
      requires blksize == if diff < TRANSFER_BLOCK then diff else TRANSFER_BLOCK
      requires goal == Goal(env, State(), path, diff, rx, log)
      modifies this
      ensures ended.Some? ==> goal == Stage(State(), rx, log, ended.value)
      ensures ended.None? ==> chunk != [] && path in disk && goal == Goal(env, State(), path, diff - |chunk|, rx, log)
      ensures ended.None? ==> |rx| < |old(rx)|
    {
      ghost var h, q, before := State(), rx, log;
      chunk := ReadChunk(diff, blksize);
      GoalAfterRead(env, h, path, diff, q, before, goal);
      if chunk == [] {
        CancelCurrentTransfer(path);
        return chunk, Some(Failed);
      }
      if IsCancel(chunk) {
        CancelCurrentTransfer(path);
        return chunk, Some(Cancelled);
      }
      ghost var stored := Store(h, path, chunk);
      disk := disk[path := disk[path] + chunk];
      if nspTransferMode { nspRemainingSize := nspRemainingSize - |chunk|; }
      assert State() == stored;
      ended := None;
    }

    // The server is where a reply says, after the events it logged before.
    ghost predicate Replied(before: seq<Event>, r: Reply, status: Option<nat>)
      reads this
    {
      State() == r.h && rx == r.rest && log == before + r.events && status == r.status
    }

    // The output file of a transfer: a new one, or the NSP that is already open.
    method OpenOutputFile(p: Properties) returns (path: Option<Path>)
      modifies this`nspTransferMode, this`nspSize, this`nspHeaderSize, this`nspRemainingSize, this`nspFile,
               this`disk, this`checks
      ensures var h := old(State());
              if h.nspMode && h.nspFile.Some? then path == h.nspFile && State() == h
              else if env.accepts(h.checks, p.path, p.size) then path == Some(p.path) && State() == OpenOutput(h, p.path)
              else path == None && State() == ResetNsp(h.(checks := h.checks + 1), false)
    {
      if nspTransferMode && nspFile.Some? { return nspFile; }
      checks := checks + 1;
      if !env.accepts(checks - 1, p.path, p.size) {
        ResetNspInfo(false);
        return None;
      }
      var padding := [];
      if nspTransferMode {
        nspFile := Some(p.path);
        padding := Zeros(nspHeaderSize);
      }
      disk := disk[p.path := padding];
      return Some(p.path);
    }

    method HandleSendFileProperties(block: seq<byte>) returns (status: Option<nat>)
      requires Valid() && |block| == PROPERTIES_SIZE
      modifies this
      ensures Replied(old(log), HandleProperties(env, old(State()), block, old(rx)), status)
    {
      var p := ParseProperties(block);
      if !nspTransferMode && p.size > 0 && p.nspHeaderSize >= p.size {
        return Some(MALFORMED_COMMAND);
      }
      if nspTransferMode && p.nspHeaderSize > 0 {
        return Some(MALFORMED_COMMAND);
      }
      if p.nameLength == 0 || p.nameLength > MAX_NAME_LENGTH {
        return Some(MALFORMED_COMMAND);
      }
      if !nspTransferMode && p.size > 0 && p.nspHeaderSize > 0 {
        nspTransferMode, nspSize, nspHeaderSize := true, p.size, p.nspHeaderSize;
        nspRemainingSize, nspFile := p.size - p.nspHeaderSize, None;
      }
      var path := OpenOutputFile(p);
      if path.None? { return Some(HOST_IO_ERROR); }
      if p.size == 0 || (nspTransferMode && p.size == nspSize) {
        return Some(SUCCESS);
      }
      ghost var s := Transfer(env, State(), path.value, p.size, rx);
      SendStatus(SUCCESS);
      var result := ReceiveData(path.value, p.size);
      Associative(old(log), [Sent(SUCCESS)], s.events);
      return if result.Failed? then None else Some(SUCCESS);
    }

    method HandleCancelFileTransfer() returns (status: Option<nat>)
      requires Valid()
      modifies this
      ensures Replied(old(log), HandleCancel(old(State()), old(rx)), status)
    {
      if nspTransferMode {
        ResetNspInfo(true);
        return Some(SUCCESS);
      }
      return Some(MALFORMED_COMMAND);
    }

    method HandleSendNspHeader(block: seq<byte>) returns (status: Option<nat>)
      requires Valid()
      modifies this
      ensures Replied(old(log), HandleNspHeader(old(State()), block, old(rx)), status)
    {
      if nspFile.None? { return None; }
      if !nspTransferMode || nspRemainingSize != 0 || |block| != nspHeaderSize {
        return Some(MALFORMED_COMMAND);
      }
      disk := disk[nspFile.value := Overwrite(disk[nspFile.value], block)];
      ResetNspInfo(false);
      return Some(SUCCESS);
    }

    // The handler that the command table names.
    method RunHandler(id: nat, block: seq<byte>) returns (status: Option<nat>)
      requires Valid() && id <= END_EXTRACTED_FS_DUMP && BlockSizeOk(id, |block|)
      modifies this
      ensures Replied(old(log), Handle(env, old(State()), id, block, old(rx)), status)
    {
      if id == START_SESSION {
        status := Some(if block[3] == ABI_VERSION then SUCCESS else UNSUPPORTED_ABI_VERSION);
      } else if id == SEND_FILE_PROPERTIES {
        status := HandleSendFileProperties(block);
      } else if id == CANCEL_FILE_TRANSFER {
        status := HandleCancelFileTransfer();
      } else if id == SEND_NSP_HEADER {
        status := HandleSendNspHeader(block);
      } else if id == START_EXTRACTED_FS_DUMP {
        status := Some(if nspTransferMode then MALFORMED_COMMAND else SUCCESS);
      } else {
        status := Some(SUCCESS);
      }
    }

    // What follows a command's header and block in the command loop.
    method DispatchCommand(header: seq<byte>, block: seq<byte>) returns (stop: bool)
      requires Valid() && |header| == HEADER_SIZE && |block| == FromLe(header[8..12])
      modifies this
      ensures var t := Dispatch(env, old(State()), header, block, old(rx));
              State() == t.h && rx == t.rest && log == old(log) + t.events && stop == t.stop
    {
      var id := FromLe(header[4..8]);
      if header[..4] != MAGIC {
        SendStatus(INVALID_MAGIC_WORD);
        return false;
      }
      if id > END_EXTRACTED_FS_DUMP {
        SendStatus(UNSUPPORTED_COMMAND);
        return false;
      }
      if !BlockSizeOk(id, |block|) {
        SendStatus(MALFORMED_COMMAND);
        return false;
      }
      ghost var r := Handle(env, State(), id, block, rx);
      ghost var before := log;
      var status := RunHandler(id, block);
      if status.None? { return true; }
      SendStatus(status.value);
      assert before + r.events + [Sent(status.value)] == before + (r.events + [Sent(status.value)]);
      return id == END_SESSION || status.value == UNSUPPORTED_ABI_VERSION;
    }

    // One round of the command loop.
    method ServeCommand() returns (stop: bool)
      requires Valid()
      modifies this
      ensures var t := Command(env, old(State()), old(rx));
              State() == t.h && rx == t.rest && log == old(log) + t.events && stop == t.stop
    {
      ghost var h, q, before := State(), rx, log;
      var header := UsbRead(HEADER_SIZE);
      if header == [] || |header| != HEADER_SIZE { return true; }
      ghost var mid := rx;
      var size := FromLe(header[8..12]);
      var block := [];
      if size != 0 {
        block := ReadBlock(size);
        TakenTwice(env, q, mid, BlockReadSize(size, env.P));
        Associative(before, Taken(q, mid), Taken(mid, rx));
        if block == [] || |block| != size { return true; }
      }
      ghost var t := Dispatch(env, h, header, block, rx);
      ghost var taken := Taken(q, rx);
      stop := DispatchCommand(header, block);
      Associative(before, taken, t.events);
    }

    // A command block, with the byte that makes room for an empty packet.
    method ReadBlock(size: nat) returns (block: seq<byte>)
      requires ValidEnv(env) && PowerOfTwo(env.P)
      modifies this`rx, this`log
      ensures var r := BulkRead(old(rx), BlockReadSize(size, env.P), env.P);
              if r.Read? then block == r.data && rx == r.rest && log == old(log) + Taken(old(rx), rx)
              else block == [] && rx == [] && log == old(log)
    {
      var aligned := IsAlignedToPacketSize(size);
      block := UsbRead(if aligned then size + 1 else size);
    }

    // usbCommandHandler
    method Serve()
      requires Valid()
      modifies this
      ensures Valid()
      ensures var o := Session(env, ResetNsp(old(State()), false), old(rx));
              State() == o.h && log == old(log) + o.events
    {
      ResetNspInfo(false);
      var stop := false;
      ghost var goal := Session(env, State(), rx);
      ghost var before := log;
      while !stop
        invariant Valid()
        invariant Progress(env, State(), rx, before, log, stop, goal)
        decreases !stop, |rx|
      {
        ghost var h, q, soFar := State(), rx, log;
        stop := ServeCommand();
        ProgressOn(env, h, q, before, soFar, goal);
      }
    }
  }

  // The command loop is on its way to the goal, or has reached it.
  ghost predicate Progress(env: Env, h: Host, q: seq<Packet>, before: seq<Event>, log: seq<Event>, stop: bool, goal: Outcome)
    requires ValidEnv(env) && Consistent(h)
  {
    if stop then goal.h == h && log == before + goal.events
    else
      var o := Session(env, h, q);
      goal.h == o.h && before + goal.events == log + o.events
  }

  lemma ProgressOn(env: Env, h: Host, q: seq<Packet>, before: seq<Event>, log: seq<Event>, goal: Outcome)
    requires ValidEnv(env) && Consistent(h) && Progress(env, h, q, before, log, false, goal)
    ensures var t := Command(env, h, q);
            Consistent(t.h) && Progress(env, t.h, t.rest, before, log + t.events, t.stop, goal)
  {
    var t := Command(env, h, q);
    CommandKeeps(env, h, q);
    if !t.stop {
      var o := Session(env, t.h, t.rest);
      assert (log + t.events) + o.events == log + (t.events + o.events);
    }
  }

  // A command's two reads.
  lemma TakenTwice(env: Env, q: seq<Packet>, mid: seq<Packet>, size: nat)
    requires env.P > 0 && BulkRead(q, HEADER_SIZE, env.P).Read? && mid == BulkRead(q, HEADER_SIZE, env.P).rest
    ensures var r := BulkRead(mid, size, env.P);
            r.Read? ==> |r.rest| <= |mid| <= |q| && Taken(q, mid) + Taken(mid, r.rest) == Taken(q, r.rest)
  {
    ReadTakesPackets(q, HEADER_SIZE, env.P);
    var r := BulkRead(mid, size, env.P);
    if r.Read? {
      ReadTakesPackets(mid, size, env.P);
      JoinReads(q, mid, r.rest);
    }
  }

  // The end of a transfer, with everything logged by then.
  ghost function Goal(env: Env, h: Host, path: Path, left: int, q: seq<Packet>, log: seq<Event>): Stage
    requires env.P > 0 && path in h.disk
  {
    var s := Transfer(env, h, path, left, q);
    s.(events := log + s.events)
  }

  // One read: the transfer ends in the goal, or goes on towards it.
  lemma GoalAfterRead(env: Env, h: Host, path: Path, left: nat, q: seq<Packet>, log: seq<Event>, goal: Stage)
    requires ValidEnv(env) && path in h.disk && left > 0 && goal == Goal(env, h, path, left, q, log)
    ensures var r := BulkRead(q, ReadSize(left, TRANSFER_BLOCK, env.P), env.P);
            if !r.Read? then goal == Stage(CancelTransfer(h, path), [], log, Failed)
            else if r.data == [] then goal == Stage(CancelTransfer(h, path), r.rest, log + Taken(q, r.rest), Failed)
            else if IsCancel(r.data) then goal == Stage(CancelTransfer(h, path), r.rest, log + Taken(q, r.rest), Cancelled)
            else goal == Goal(env, Store(h, path, r.data), path, left - |r.data|, r.rest, log + Taken(q, r.rest))
  {
    var r := BulkRead(q, ReadSize(left, TRANSFER_BLOCK, env.P), env.P);
    if !r.Read? {
      assert log + [] == log;
    } else if r.data != [] && !IsCancel(r.data) {
      TransferOne(env, h, path, left, q, r.data, r.rest);
      var s := Transfer(env, Store(h, path, r.data), path, left - |r.data|, r.rest);
      assert log + (Taken(q, r.rest) + s.events) == (log + Taken(q, r.rest)) + s.events;
    }
  }
}
