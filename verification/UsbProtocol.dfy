// The USB ABI host of nxdt_host.py as functions on its state: what each command does, and the run
// of the command loop over everything the device sends.

module UsbProtocol {
  import opened Bytes
  import opened UsbFraming

  type Path = seq<byte>

  const TRANSFER_BLOCK: nat := 0x800000
  const HEADER_SIZE: nat := 0x10
  const MAX_NAME_LENGTH: nat := 0x300
  const PROPERTIES_SIZE: nat := 0x320
  const SESSION_SIZE: nat := 0x10
  const FS_DUMP_SIZE: nat := 0x310

  const MAGIC: seq<byte> := [0x4E, 0x58, 0x44, 0x54] // "NXDT"

  const START_SESSION := 0
  const SEND_FILE_PROPERTIES := 1
  const CANCEL_FILE_TRANSFER := 2
  const SEND_NSP_HEADER := 3
  const END_SESSION := 4
  const START_EXTRACTED_FS_DUMP := 5
  const END_EXTRACTED_FS_DUMP := 6

  const SUCCESS := 0
  const INVALID_MAGIC_WORD := 4
  const UNSUPPORTED_COMMAND := 5
  const UNSUPPORTED_ABI_VERSION := 6
  const MALFORMED_COMMAND := 7
  const HOST_IO_ERROR := 8

  const ABI_VERSION: byte := 0x12 // major 1, minor 2

  // P: the endpoint's maximum packet size. accepts: whether the n-th output path offered by the
  // device passes the host's checks (not a directory, enough free space for the given size).
  datatype Env = Env(P: nat, accepts: (nat, Path, nat) -> bool)

  predicate ValidEnv(env: Env) {
    16 < env.P <= TRANSFER_BLOCK && TRANSFER_BLOCK % env.P == 0
  }

  // The g_nsp* globals and the files on disk.
  datatype Host = Host(
    nspMode: bool, nspSize: nat, nspHeaderSize: nat, nspRemaining: int, nspFile: Option<Path>,
    disk: map<Path, seq<byte>>, checks: nat)

  // What passes over the wire: packets taken from the device, status responses sent to it.
  datatype Event = Got(packet: Packet) | Sent(status: nat)

  function GotAll(q: seq<Packet>): (e: seq<Event>)
    ensures |e| == |q| && forall i :: 0 <= i < |e| ==> e[i] == Got(q[i])
  {
    seq(|q|, i requires 0 <= i < |q| => Got(q[i]))
  }

  // The packets a read has consumed.
  function Taken(q: seq<Packet>, rest: seq<Packet>): seq<Event>
    requires |rest| <= |q|
  {
    GotAll(q[..|q| - |rest|])
  }

  function Remove(disk: map<Path, seq<byte>>, path: Path): map<Path, seq<byte>> {
    map p | p in disk && p != path :: disk[p]
  }

  // utilsResetNspInfo
  function ResetNsp(h: Host, delete: bool): Host {
    Host(false, 0, 0, 0, None,
         if delete && h.nspFile.Some? then Remove(h.disk, h.nspFile.value) else h.disk, h.checks)
  }

  // cancelTransfer
  function CancelTransfer(h: Host, path: Path): Host {
    if h.nspMode then ResetNsp(h, true) else h.(disk := Remove(h.disk, path))
  }

  // Does a chunk read during a transfer look like a CancelFileTransfer header?
  predicate IsCancel(chunk: seq<byte>) {
    |chunk| == HEADER_SIZE && chunk[..4] == MAGIC && FromLe(chunk[4..8]) == CANCEL_FILE_TRANSFER
  }

  // -------------------------------------------------------------------------------------------
  // Data transfer stage

  datatype StageResult = Completed | Cancelled | Failed

  datatype Stage = Stage(h: Host, rest: seq<Packet>, events: seq<Event>, result: StageResult)

  // One chunk of a file: appended to the output, and taken off what an NSP still misses.
  function Store(h: Host, path: Path, chunk: seq<byte>): Host
    requires path in h.disk
  {
    h.(disk := h.disk[path := h.disk[path] + chunk],
       nspRemaining := if h.nspMode then h.nspRemaining - |chunk| else h.nspRemaining)
  }

  // The transfer loop, with `left` bytes still missing.
  function Transfer(env: Env, h: Host, path: Path, left: int, q: seq<Packet>): (s: Stage)
    requires env.P > 0 && path in h.disk
    ensures |s.rest| <= |q|
    decreases |q|
  {
    if left <= 0 then Stage(h, q, [], Completed)
    else
      match BulkRead(q, ReadSize(left, TRANSFER_BLOCK, env.P), env.P)
      case Read(chunk, rest) =>
        if chunk == [] then Stage(CancelTransfer(h, path), rest, Taken(q, rest), Failed)
        else if IsCancel(chunk) then Stage(CancelTransfer(h, path), rest, Taken(q, rest), Cancelled)
        else
          var s := Transfer(env, Store(h, path, chunk), path, left - |chunk|, rest);
          s.(events := Taken(q, rest) + s.events)
      case _ => Stage(CancelTransfer(h, path), [], [], Failed)
  }

  // -------------------------------------------------------------------------------------------
  // Command handlers: the new state, what is left to read, what passed over the wire, and the
  // status to send; no status means that the command loop ends at once.

  datatype Reply = Reply(h: Host, rest: seq<Packet>, events: seq<Event>, status: Option<nat>)

  datatype Properties = Properties(size: nat, nameLength: nat, nspHeaderSize: nat, path: Path)

  // struct.unpack_from('<QII768s') and strip('\0')
  function ParseProperties(block: seq<byte>): Properties
    requires |block| == PROPERTIES_SIZE
  {
    Properties(FromLe(block[..8]), FromLe(block[8..12]), FromLe(block[12..16]),
               Strip(block[16..16 + MAX_NAME_LENGTH]))
  }

  function Strip(s: seq<byte>): seq<byte> { StripRight(StripLeft(s)) }

  function StripLeft(s: seq<byte>): seq<byte> {
    if s != [] && s[0] == 0 then StripLeft(s[1..]) else s
  }

  function StripRight(s: seq<byte>): seq<byte> {
    if s != [] && s[|s| - 1] == 0 then StripRight(s[..|s| - 1]) else s
  }

  // Is a SendFileProperties block refused?
  predicate Malformed(h: Host, p: Properties) {
    || (!h.nspMode && p.size > 0 && p.nspHeaderSize >= p.size)
    || (h.nspMode && p.nspHeaderSize > 0)
    || p.nameLength == 0 || p.nameLength > MAX_NAME_LENGTH
  }

  // Entering NSP transfer mode, if the block asks for it.
  function EnterNspMode(h: Host, p: Properties): Host {
    if !h.nspMode && p.size > 0 && p.nspHeaderSize > 0 then
      h.(nspMode := true, nspSize := p.size, nspHeaderSize := p.nspHeaderSize,
         nspRemaining := p.size - p.nspHeaderSize, nspFile := None)
    else h
  }

  // Opening the output file; opening an NSP writes its header padding right away.
  function OpenOutput(h: Host, path: Path): Host {
    if h.nspMode then h.(disk := h.disk[path := Zeros(h.nspHeaderSize)], nspFile := Some(path), checks := h.checks + 1)
    else h.(disk := h.disk[path := []], checks := h.checks + 1)
  }

  function HandleProperties(env: Env, h: Host, block: seq<byte>, q: seq<Packet>): (r: Reply)
    requires env.P > 0 && |block| == PROPERTIES_SIZE
    requires h.nspMode && h.nspFile.Some? ==> h.nspFile.value in h.disk
    ensures |r.rest| <= |q|
  {
    var p := ParseProperties(block);
    if Malformed(h, p) then Reply(h, q, [], Some(MALFORMED_COMMAND))
    else
      var h1 := EnterNspMode(h, p);
      if (!h1.nspMode || h1.nspFile.None?) && !env.accepts(h1.checks, p.path, p.size) then
        Reply(ResetNsp(h1.(checks := h1.checks + 1), false), q, [], Some(HOST_IO_ERROR))
      else
        var h2 := if !h1.nspMode || h1.nspFile.None? then OpenOutput(h1, p.path) else h1;
        var path := if h1.nspMode && h1.nspFile.Some? then h1.nspFile.value else p.path;
        if p.size == 0 || (h2.nspMode && p.size == h2.nspSize) then Reply(h2, q, [], Some(SUCCESS))
        else
          var s := Transfer(env, h2, path, p.size, q);
          Reply(s.h, s.rest, [Sent(SUCCESS)] + s.events, if s.result.Failed? then None else Some(SUCCESS))
  }

  function HandleCancel(h: Host, q: seq<Packet>): Reply {
    if h.nspMode then Reply(ResetNsp(h, true), q, [], Some(SUCCESS))
    else Reply(h, q, [], Some(MALFORMED_COMMAND))
  }

  // `assert g_nspFile is not None` precedes every check, so an unexpected header ends the server.
  function HandleNspHeader(h: Host, block: seq<byte>, q: seq<Packet>): Reply
    requires h.nspMode && h.nspFile.Some? ==> h.nspFile.value in h.disk
  {
    if h.nspFile.None? then Reply(h, q, [], None)
    else if !h.nspMode || h.nspRemaining != 0 || |block| != h.nspHeaderSize then
      Reply(h, q, [], Some(MALFORMED_COMMAND))
    else
      var padded := h.disk[h.nspFile.value];
      var h1 := h.(disk := h.disk[h.nspFile.value := Overwrite(padded, block)]);
      Reply(ResetNsp(h1, false), q, [], Some(SUCCESS))
  }

  // seek(0) and write
  function Overwrite(whole: seq<byte>, data: seq<byte>): seq<byte> {
    if |data| <= |whole| then data + whole[|data|..] else data
  }

  function HandleStartSession(h: Host, block: seq<byte>, q: seq<Packet>): Reply
    requires |block| == SESSION_SIZE
  {
    Reply(h, q, [], Some(if block[3] == ABI_VERSION then SUCCESS else UNSUPPORTED_ABI_VERSION))
  }

  function HandleStartFsDump(h: Host, q: seq<Packet>): Reply {
    Reply(h, q, [], Some(if h.nspMode then MALFORMED_COMMAND else SUCCESS))
  }

  function Handle(env: Env, h: Host, id: nat, block: seq<byte>, q: seq<Packet>): (r: Reply)
    requires env.P > 0 && id <= END_EXTRACTED_FS_DUMP && BlockSizeOk(id, |block|)
    requires h.nspMode && h.nspFile.Some? ==> h.nspFile.value in h.disk
    ensures |r.rest| <= |q|
  {
    if id == START_SESSION then HandleStartSession(h, block, q)
    else if id == SEND_FILE_PROPERTIES then HandleProperties(env, h, block, q)
    else if id == CANCEL_FILE_TRANSFER then HandleCancel(h, q)
    else if id == SEND_NSP_HEADER then HandleNspHeader(h, block, q)
    else if id == START_EXTRACTED_FS_DUMP then HandleStartFsDump(h, q)
    else Reply(h, q, [], Some(SUCCESS))
  }

  predicate BlockSizeOk(id: nat, size: nat) {
    && (id == START_SESSION ==> size == SESSION_SIZE)
    && (id == SEND_FILE_PROPERTIES ==> size == PROPERTIES_SIZE)
    && (id == SEND_NSP_HEADER ==> size > 0)
    && (id == START_EXTRACTED_FS_DUMP ==> size == FS_DUMP_SIZE)
  }

  // -------------------------------------------------------------------------------------------
  // The command loop

  // One command: header, optional block, and the handler's reply followed by its status.
  // `stop` says that the loop ends.
  datatype Turn = Turn(h: Host, rest: seq<Packet>, events: seq<Event>, stop: bool)

  function BlockReadSize(size: nat, P: nat): nat
    requires P > 0
  {
    size + if size % P == 0 then 1 else 0
  }

  function Dispatch(env: Env, h: Host, header: seq<byte>, block: seq<byte>, q: seq<Packet>): (t: Turn)
    requires env.P > 0 && |header| == HEADER_SIZE && |block| == FromLe(header[8..12])
    requires h.nspMode && h.nspFile.Some? ==> h.nspFile.value in h.disk
    ensures |t.rest| <= |q|
  {
    var id := FromLe(header[4..8]);
    if header[..4] != MAGIC then Turn(h, q, [Sent(INVALID_MAGIC_WORD)], false)
    else if id > END_EXTRACTED_FS_DUMP then Turn(h, q, [Sent(UNSUPPORTED_COMMAND)], false)
    else if !BlockSizeOk(id, |block|) then Turn(h, q, [Sent(MALFORMED_COMMAND)], false)
    else
      var r := Handle(env, h, id, block, q);
      if r.status.None? then Turn(r.h, r.rest, r.events, true)
      else Turn(r.h, r.rest, r.events + [Sent(r.status.value)],
                id == END_SESSION || r.status.value == UNSUPPORTED_ABI_VERSION)
  }

  function Command(env: Env, h: Host, q: seq<Packet>): (t: Turn)
    requires env.P > 0
    requires h.nspMode && h.nspFile.Some? ==> h.nspFile.value in h.disk
    ensures |t.rest| <= |q| && (!t.stop ==> |t.rest| < |q|)
  {
    match BulkRead(q, HEADER_SIZE, env.P)
    case Read(header, rest) =>
      if |header| != HEADER_SIZE then Turn(h, rest, Taken(q, rest), true)
      else
        var size := FromLe(header[8..12]);
        if size == 0 then
          var t := Dispatch(env, h, header, [], rest);
          t.(events := Taken(q, rest) + t.events)
        else
          (match BulkRead(rest, BlockReadSize(size, env.P), env.P)
           case Read(block, rest2) =>
             if |block| != size then Turn(h, rest2, Taken(q, rest2), true)
             else
               var t := Dispatch(env, h, header, block, rest2);
               t.(events := Taken(q, rest2) + t.events)
           case _ => Turn(h, [], Taken(q, rest), true))
    case _ => Turn(h, [], [], true)
  }
}
