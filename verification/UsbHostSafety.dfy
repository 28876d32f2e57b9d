// What the host guarantees against any device, conforming or not: the accounting of NSP transfer
// mode, and what a data transfer leaves behind.

module UsbHostSafety {
  import opened Bytes
  import opened UsbFraming
  import opened UsbProtocol

  // The bytes of NSP file entries written so far.
  function Bodies(h: Host): seq<byte>
    requires h.nspFile.Some? && h.nspFile.value in h.disk && h.nspHeaderSize <= |h.disk[h.nspFile.value]|
  {
    h.disk[h.nspFile.value][h.nspHeaderSize..]
  }

  // At the head of the command loop: NSP transfer mode is on exactly when an NSP file is open, and
  // then that file is header padding followed by bodies, whose length the remaining size accounts for.
  ghost predicate Consistent(h: Host) {
    && (h.nspMode <==> h.nspFile.Some?)
    && (!h.nspMode ==> h.nspSize == 0 && h.nspHeaderSize == 0 && h.nspRemaining == 0)
    && (h.nspMode ==>
          && h.nspFile.value in h.disk
          && 0 < h.nspHeaderSize < h.nspSize
          && h.nspHeaderSize <= |h.disk[h.nspFile.value]|
          && h.disk[h.nspFile.value] == Zeros(h.nspHeaderSize) + Bodies(h)
          && h.nspRemaining == h.nspSize - h.nspHeaderSize - |Bodies(h)|)
  }

  // The file that receives the data of the current transfer.
  ghost predicate Receives(h: Host, path: Path) {
    && Consistent(h) && path in h.disk && (h.nspMode ==> h.nspFile.value == path)
  }

  lemma StoreKeeps(h: Host, path: Path, chunk: seq<byte>)
    requires Receives(h, path)
    ensures Receives(Store(h, path, chunk), path)
    ensures h.nspMode ==> Bodies(Store(h, path, chunk)) == Bodies(h) + chunk
  {
    if h.nspMode {
      var file := h.disk[path];
      assert (file + chunk)[h.nspHeaderSize..] == file[h.nspHeaderSize..] + chunk;
      assert Zeros(h.nspHeaderSize) + (Bodies(h) + chunk) == (Zeros(h.nspHeaderSize) + Bodies(h)) + chunk;
    }
  }

  // The outcome of a transfer of `left` bytes that has taken the packets `got`.
  predicate TransferOutcome(h: Host, path: Path, left: int, got: seq<Packet>, s: Stage)
    requires path in h.disk
  {
    match s.result
    case Completed =>
      && s.h == Store(h, path, Concat(got)) && s.events == GotAll(got)
      && (left > 0 ==> left <= |Concat(got)| <= left + 1)
    case Cancelled => s.h == CancelTransfer(h, path) && s.events == GotAll(got)
    case Failed => s.h == CancelTransfer(h, path)
  }

  lemma StoreTwice(h: Host, path: Path, a: seq<byte>, b: seq<byte>)
    requires path in h.disk
    ensures Store(Store(h, path, a), path, b) == Store(h, path, a + b)
  {
    assert h.disk[path] + a + b == h.disk[path] + (a + b);
    assert h.disk[path := h.disk[path] + a][path := h.disk[path] + a + b] == h.disk[path := h.disk[path] + (a + b)];
  }

  lemma StoreNothing(h: Host, path: Path)
    requires path in h.disk
    ensures Store(h, path, []) == h
  {
    assert h.disk[path] + [] == h.disk[path];
    assert h.disk[path := h.disk[path]] == h.disk;
  }

  // Cancelling leaves neither the file nor any NSP state, whatever has been stored.
  lemma CancelRemoves(h: Host, path: Path)
    requires Receives(h, path)
    ensures var t := CancelTransfer(h, path);
            Consistent(t) && !t.nspMode && path !in t.disk && t.disk == Remove(h.disk, path)
  {
  }

  lemma CancelAfterStore(h: Host, path: Path, chunk: seq<byte>)
    requires Receives(h, path)
    ensures CancelTransfer(Store(h, path, chunk), path) == CancelTransfer(h, path)
  {
    assert Remove(Store(h, path, chunk).disk, path) == Remove(h.disk, path);
  }

  // The packets of two consecutive reads.
  lemma JoinReads(q: seq<Packet>, mid: seq<Packet>, rest: seq<Packet>)
    requires |rest| <= |mid| <= |q| && mid == q[|q| - |mid|..]
    ensures var got, more := q[..|q| - |mid|], mid[..|mid| - |rest|];
            && q[..|q| - |rest|] == got + more
            && Taken(q, rest) == Taken(q, mid) + Taken(mid, rest)
            && Concat(got + more) == Concat(got) + Concat(more)
            && (rest == mid[|mid| - |rest|..] ==> rest == q[|q| - |rest|..])
  {
    var got, more := q[..|q| - |mid|], mid[..|mid| - |rest|];
    assert q[..|q| - |rest|] == got + more;
    assert GotAll(got + more) == GotAll(got) + GotAll(more);
    ConcatAppend(got, more);
  }

  // One stored chunk followed by the rest of the transfer.
  lemma Continue(h: Host, path: Path, left: int, got: seq<Packet>, more: seq<Packet>, s: Stage)
    requires Receives(h, path) && left > 0 && |Concat(got)| <= left + 1
    requires TransferOutcome(Store(h, path, Concat(got)), path, left - |Concat(got)|, more, s)
    requires left <= |Concat(got)| ==> more == []
    requires Concat(got + more) == Concat(got) + Concat(more)
    ensures TransferOutcome(h, path, left, got + more, s.(events := GotAll(got) + s.events))
  {
    StoreTwice(h, path, Concat(got), Concat(more));
    CancelAfterStore(h, path, Concat(got));
    assert GotAll(got + more) == GotAll(got) + GotAll(more);
  }

  ghost predicate TransferOk(env: Env, h: Host, path: Path, left: int, q: seq<Packet>)
    requires ValidEnv(env) && path in h.disk
  {
    var s := Transfer(env, h, path, left, q);
    && TransferOutcome(h, path, left, q[..|q| - |s.rest|], s)
    && (s.result.Completed? ==> s.rest == q[|q| - |s.rest|..])
  }

  lemma GoesOn(env: Env, h: Host, path: Path, left: int, q: seq<Packet>, r: ReadResult)
    requires ValidEnv(env) && Receives(h, path) && left > 0
    requires r == BulkRead(q, ReadSize(left, TRANSFER_BLOCK, env.P), env.P)
    requires r.Read? && r.data != [] && !IsCancel(r.data)
    requires TransferOk(env, Store(h, path, r.data), path, left - |r.data|, r.rest)
    ensures TransferOk(env, h, path, left, q)
  {
    ReadTakesPackets(q, ReadSize(left, TRANSFER_BLOCK, env.P), env.P);
    var s := Transfer(env, Store(h, path, r.data), path, left - |r.data|, r.rest);
    var t := s.(events := Taken(q, r.rest) + s.events);
    assert Transfer(env, h, path, left, q) == t;
    if left <= |r.data| { assert r.rest[..0] == []; }
    ContinueRead(h, path, left, q, r.rest, s, t);
    Concludes(env, h, path, left, q, t);
  }

  // The same, by what is left of the packets.
  lemma ContinueRead(h: Host, path: Path, left: int, q: seq<Packet>, mid: seq<Packet>, s: Stage, t: Stage)
    requires |s.rest| <= |mid| <= |q| && mid == q[|q| - |mid|..] && Receives(h, path) && left > 0
    requires var data := Concat(q[..|q| - |mid|]);
             && |data| <= left + 1
             && TransferOutcome(Store(h, path, data), path, left - |data|, mid[..|mid| - |s.rest|], s)
             && (left <= |data| ==> mid[..|mid| - |s.rest|] == [])
    requires t == s.(events := Taken(q, mid) + s.events)
    requires s.result.Completed? ==> s.rest == mid[|mid| - |s.rest|..]
    ensures TransferOutcome(h, path, left, q[..|q| - |t.rest|], t)
    ensures t.result.Completed? ==> t.rest == q[|q| - |t.rest|..]
  {
    JoinReads(q, mid, s.rest);
    Continue(h, path, left, q[..|q| - |mid|], mid[..|mid| - |s.rest|], s);
  }

  lemma Concludes(env: Env, h: Host, path: Path, left: int, q: seq<Packet>, s: Stage)
    requires ValidEnv(env) && path in h.disk && Transfer(env, h, path, left, q) == s
    requires TransferOutcome(h, path, left, q[..|q| - |s.rest|], s)
    requires s.result.Completed? ==> s.rest == q[|q| - |s.rest|..]
    ensures TransferOk(env, h, path, left, q)
  {
  }

  lemma EndsHere(env: Env, h: Host, path: Path, left: int, q: seq<Packet>)
    requires ValidEnv(env) && Receives(h, path)
    requires left > 0 ==> (var r := BulkRead(q, ReadSize(left, TRANSFER_BLOCK, env.P), env.P);
                           !r.Read? || r.data == [] || IsCancel(r.data))
    ensures TransferOk(env, h, path, left, q)
  {
    if left <= 0 {
      assert q[..0] == [];
      StoreNothing(h, path);
    }
  }

  // The data stage against any device: it ends; a completed transfer has written exactly the bytes
  // that were read, ending at the announced size or one byte past it; a cancelled or failed one
  // is rolled back.
  lemma {:induction false} AnyTransfer(env: Env, h: Host, path: Path, left: int, q: seq<Packet>)
    requires ValidEnv(env) && Receives(h, path)
    ensures TransferOk(env, h, path, left, q)
    decreases |q|
  {
    if left <= 0 {
      EndsHere(env, h, path, left, q);
    } else {
      var r := BulkRead(q, ReadSize(left, TRANSFER_BLOCK, env.P), env.P);
      if !r.Read? || r.data == [] || IsCancel(r.data) {
        EndsHere(env, h, path, left, q);
      } else {
        StoreKeeps(h, path, r.data);
        AnyTransfer(env, Store(h, path, r.data), path, left - |r.data|, r.rest);
        GoesOn(env, h, path, left, q, r);
      }
    }
  }

  // What a reader of the files sees after a data stage.
  lemma TransferLeaves(env: Env, h: Host, path: Path, left: int, q: seq<Packet>)
    requires ValidEnv(env) && Receives(h, path) && left > 0
    ensures var s := Transfer(env, h, path, left, q);
            && Consistent(s.h)
            && (forall f :: f in h.disk && f != path ==> f in s.h.disk && s.h.disk[f] == h.disk[f])
            && (s.result.Completed? ==>
                  var data := Concat(q[..|q| - |s.rest|]);
                  && path in s.h.disk && s.h.disk[path] == h.disk[path] + data
                  && left <= |data| <= left + 1)
            && (!s.result.Completed? ==> path !in s.h.disk && !s.h.nspMode)
  {
    AnyTransfer(env, h, path, left, q);
    var s := Transfer(env, h, path, left, q);
    if s.result.Completed? {
      StoreKeeps(h, path, Concat(q[..|q| - |s.rest|]));
    } else {
      CancelRemoves(h, path);
    }
  }

  // -------------------------------------------------------------------------------------------
  // NSP transfer mode

  lemma OpenKeeps(h: Host, p: Properties)
    requires Consistent(h) && !Malformed(h, p)
    ensures var h1 := EnterNspMode(h, p);
            && Consistent(ResetNsp(h1.(checks := h1.checks + 1), false))
            && (h1.nspMode && h1.nspFile.Some? ==> h1 == h && Receives(h, h.nspFile.value))
            && (!h1.nspMode || h1.nspFile.None? ==> Receives(OpenOutput(h1, p.path), p.path))
  {
    var h1 := EnterNspMode(h, p);
    if h1.nspMode && h1.nspFile.None? {
      var pad := Zeros(h1.nspHeaderSize);
      assert pad[h1.nspHeaderSize..] == [] && pad + [] == pad;
    }
  }

  lemma PropertiesKeep(env: Env, h: Host, block: seq<byte>, q: seq<Packet>)
    requires ValidEnv(env) && Consistent(h) && |block| == PROPERTIES_SIZE
    ensures Consistent(HandleProperties(env, h, block, q).h)
  {
    var p := ParseProperties(block);
    if !Malformed(h, p) {
      OpenKeeps(h, p);
      var h1 := EnterNspMode(h, p);
      var h2 := if !h1.nspMode || h1.nspFile.None? then OpenOutput(h1, p.path) else h1;
      var path := if h1.nspMode && h1.nspFile.Some? then h1.nspFile.value else p.path;
      if p.size > 0 {
        TransferLeaves(env, h2, path, p.size, q);
      }
    }
  }

  // The header is accepted exactly when it arrives in NSP mode, has the announced size, and every
  // body byte has been received; the file is then the header followed by the bodies, of exactly the
  // announced size, and NSP transfer mode is over. Outside NSP mode the server stops instead.
  lemma NspHeaderCompletes(h: Host, block: seq<byte>, q: seq<Packet>)
    requires Consistent(h)
    ensures var r := HandleNspHeader(h, block, q);
            && Consistent(r.h)
            && (r.status == Some(SUCCESS) <==> h.nspMode && h.nspRemaining == 0 && |block| == h.nspHeaderSize)
            && (r.status == Some(SUCCESS) ==>
                  var file := h.nspFile.value;
                  && !r.h.nspMode && r.h.disk == h.disk[file := block + Bodies(h)] && |block + Bodies(h)| == h.nspSize)
            && (r.status == Some(MALFORMED_COMMAND) ==> r.h == h)
            && (r.status.None? <==> !h.nspMode)
  {
  }

  // Every command keeps the accounting of NSP mode, whatever the device sends.
  lemma CommandKeeps(env: Env, h: Host, q: seq<Packet>)
    requires ValidEnv(env) && Consistent(h)
    ensures Consistent(Command(env, h, q).h)
  {
    var r := BulkRead(q, HEADER_SIZE, env.P);
    if r.Read? && |r.data| == HEADER_SIZE {
      var size := FromLe(r.data[8..12]);
      if size == 0 {
        DispatchKeeps(env, h, r.data, [], r.rest);
      } else {
        var b := BulkRead(r.rest, BlockReadSize(size, env.P), env.P);
        if b.Read? && |b.data| == size { DispatchKeeps(env, h, r.data, b.data, b.rest); }
      }
    }
  }

  lemma DispatchKeeps(env: Env, h: Host, header: seq<byte>, block: seq<byte>, q: seq<Packet>)
    requires ValidEnv(env) && Consistent(h) && |header| == HEADER_SIZE && |block| == FromLe(header[8..12])
    ensures Consistent(Dispatch(env, h, header, block, q).h)
  {
    var id := FromLe(header[4..8]);
    if header[..4] == MAGIC && id <= END_EXTRACTED_FS_DUMP && BlockSizeOk(id, |block|) {
      if id == SEND_FILE_PROPERTIES {
        PropertiesKeep(env, h, block, q);
      } else if id == SEND_NSP_HEADER {
        NspHeaderCompletes(h, block, q);
      }
    }
  }
}
