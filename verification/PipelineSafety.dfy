// Safety of the dump pipeline over every schedule, whatever the synchronisation and whatever fails:
// one invariant, and what it says about lost blocks, the block in flight and freed memory.

module PipelineSafety {
  import opened Bytes
  import opened Pipeline
  import opened PipelinePrograms

  // -------------------------------------------------------------------------------------------
  // The invariant

  // The block in flight.
  function Slot(s: State): seq<byte> {
    if s.data < |s.bufs| && s.size <= |s.bufs[s.data]| then s.bufs[s.data][..s.size] else []
  }

  predicate GoodPair(p: (nat, nat)) { p.0 < 2 && p.1 < 2 && p.0 != p.1 }

  ghost predicate Shape(job: Job, s: State) {
    && s.ip <= |job.prog|
    && |s.bufs| == 2 && s.data < 2 && GoodPair((s.buf1, s.buf2))
    && (forall i :: 0 <= i < |s.frames| ==> GoodPair(s.frames[i]))
    && |s.frames| == Depth(job, s.ip)
    && ((s.r.Ready? || s.r.Blocked? || s.r.Resume?) ==>
          s.ip < |job.prog| && Waits(job.cfg, job.prog[s.ip])
          && (job.prog[s.ip].Chunk? ==> s.bufs[s.buf1] == job.prog[s.ip].data))
  }

  ghost predicate Flags(job: Job, s: State) {
    && (s.readError ==> (s.r.Alarm? || s.r.End? || s.r.Done?))
    && (s.r.Alarm? ==> s.readError || s.cancelled)
    && ((s.r.End? || s.r.Done?) ==> Flagged(s) || s.ip == |job.prog|)
    && (s.freed <==> s.r.Done?)
    && (s.writeError ==> (s.w.WSignal? || s.w.WDone?) && s.written < Total(job))
    && (s.writeError && s.size == 0 ==> job.cfg.usb && !Safe(job.cfg) && Chunks(job, |job.prog|) >= 2)
    && (s.w.WSleepy? ==> s.size == 0)
    && ((s.w.WSleepy? || s.w.WBlocked? || s.w.WResume?) ==> s.written < Total(job))
    && (s.skipped ==> job.cfg.early && s.ip >= |job.prog| - 1 && s.size == 0 && s.written >= Total(job))
  }

  // The writer leaves silently when it finds no output file.
  predicate GivesUp(job: Job) {
    !job.cfg.usb && job.cfg.closes && !Safe(job.cfg) && Chunks(job, |job.prog|) >= 2
  }

  // When a wake-up can be under way, and what it can do.
  ghost predicate Wakes(job: Job, s: State)
    requires s.ip <= |job.prog|
  {
    && (s.w.WSignal? || s.r.Signal? ==> !job.cfg.atomicWake && Chunks(job, s.ip) > 0)
    && (s.w.WResume? && s.size == 0 && !s.readError && !s.cancelled ==>
          !job.cfg.atomicWake && Chunks(job, s.ip) > 0)
    && (s.r.Blocked? && !s.w.WSignal? ==> s.size > 0)
    && (s.w.WBlocked? ==> s.size == 0 || s.r.Signal?)
    && (s.r.Resume? ==> s.size == 0 || s.writeError
                        || (!job.cfg.atomicWake && !s.w.WSignal? && Overtakes(job, s.ip)))
    && (s.w.WDone? ==> Flagged(s) || s.written >= Total(job) || GivesUp(job))
  }

  // How far the reader can be ahead of the writer.
  ghost predicate Ahead(job: Job, s: State)
    requires s.ip <= |job.prog|
  {
    s.size > 0 && !s.writeError ==>
      && (s.w.WSignal? ==> Chunks(job, s.ip) >= 2)
      && (|| Passed(job, s.ip) == 0
          || (&& Passed(job, s.ip) == 1 && !Safe(job.cfg) && !s.w.WSignal? && Chunks(job, s.ip) >= 2
              && (job.cfg.usb && job.cfg.closes ==> CanStrand(job))))
  }

  // A reader that waits although the write has failed.
  ghost predicate Stranded(job: Job, s: State)
    requires s.ip <= |job.prog|
  {
    s.ip < |job.prog| && s.writeError ==>
      && (s.r.Blocked? && !s.w.WSignal? ==> job.prog[s.ip].Drain?)
      && ((s.r.Ready? || s.r.Blocked? || s.r.Resume?) && job.prog[s.ip].Drain? && s.size > 0 ==> CanStrand(job))
  }

  ghost predicate Buffers(job: Job, s: State)
    requires s.ip <= |job.prog|
  {
    && (s.size > 0 ==> Chunks(job, s.ip) > 0 && s.size == |job.prog[LastChunk(job, s.ip)].data|)
    && (s.size > 0 && !s.writeError ==>
          && s.data < |s.bufs| && s.bufs[s.data] == job.prog[LastChunk(job, s.ip)].data
          && (Left(job, s.ip) == 0 ==> s.data == s.buf2))
  }

  ghost predicate Content(job: Job, s: State)
    requires s.ip <= |job.prog|
  {
    var published := DataTo(job, s.ip);
    && s.written == |s.log| && s.written + s.size <= |published|
    && (NoLoss(job) ==> s.written + s.size == |published|)
    && (s.written + s.size == |published| && !s.torn ==>
          s.log <= published && (!s.writeError ==> s.log + Slot(s) == published))
  }

  ghost predicate Outputs(job: Job, s: State)
    requires s.ip <= |job.prog|
  {
    && (s.r.Done? && job.cfg.closes && !job.cfg.usb ==> s.out.cur.None?)
    && (!s.skipped && !(s.r.Done? && job.cfg.closes) ==> s.out.cur == After(job, s.ip).cur)
    && (s.torn ==>
          && s.r.Done? && s.size == 0
          && (job.cfg.closes ==> job.cfg.usb && !Safe(job.cfg) && Overtakes(job, FinalWait(job))))
  }

  ghost predicate Inv(job: Job, s: State) {
    && Shape(job, s) && Flags(job, s) && Wakes(job, s) && Ahead(job, s) && Stranded(job, s)
    && Buffers(job, s) && Content(job, s) && Outputs(job, s)
  }

  // -------------------------------------------------------------------------------------------
  // Every step keeps it

  lemma InitialInv(job: Job)
    requires WellFormed(job)
    ensures Inv(job, Initial(job))
  {
    assert Slot(Initial(job)) == [];
  }

  // What the data parts of the invariant look at.
  ghost predicate SameData(s: State, t: State) {
    && t.ip == s.ip && t.bufs == s.bufs && t.data == s.data && t.size == s.size && t.buf2 == s.buf2
    && t.written == s.written && t.log == s.log && t.torn == s.torn && t.writeError == s.writeError
  }

  lemma DataKept(job: Job, s: State, t: State)
    requires s.ip <= |job.prog| && SameData(s, t)
    ensures Buffers(job, s) ==> Buffers(job, t)
    ensures Content(job, s) ==> Content(job, t)
    ensures Slot(s) == Slot(t)
  {
  }

  // The reader's critical section after its wait.
  ghost predicate PastWait(job: Job, s: State) {
    && WellFormed(job) && Inv(job, s) && (s.r.Ready? || s.r.Resume?) && MutexFree(s)
    && (!MustWait(job.prog[s.ip], s) || (s.r.Resume? && !job.cfg.recheck))
  }

  ghost predicate Publishing(job: Job, s: State) {
    PastWait(job, s) && job.prog[s.ip].Chunk? && !s.writeError
  }

  lemma PublishWakes(job: Job, s: State, ok: bool)
    requires Publishing(job, s)
    ensures var t := Proceed(job, s, ok);
            && Shape(job, t) && Flags(job, t) && Wakes(job, t) && Ahead(job, t) && Stranded(job, t)
            && Buffers(job, t) && Outputs(job, t)
  {
    assert ActionOk(job, s.ip);
  }

  // The state after a publication, before the wake-up.
  function Published(job: Job, s: State): State
    requires s.ip < |job.prog| && job.prog[s.ip].Chunk?
  {
    s.(data := s.buf1, size := |job.prog[s.ip].data|, buf1 := s.buf2, buf2 := s.buf1, ip := s.ip + 1, r := Signal)
  }

  lemma PublishContent(job: Job, s: State)
    requires Publishing(job, s) && s.ip < |job.prog|
    ensures s.ip + 1 <= |job.prog| && Content(job, Published(job, s))
  {
    assert ActionOk(job, s.ip);
    assert Slot(Published(job, s)) == job.prog[s.ip].data;
    if s.size > 0 {
      assert Overtakes(job, s.ip) && !NoLoss(job);
    } else {
      assert Slot(s) == [];
    }
  }

  lemma PassInv(job: Job, s: State, ok: bool)
    requires PastWait(job, s) && (job.prog[s.ip].Close? || job.prog[s.ip].Drain?) && !s.writeError
    ensures Inv(job, Proceed(job, s, ok))
  {
    var t := Proceed(job, s, ok);
    assert Slot(t) == Slot(s);
    if s.size > 0 && job.prog[s.ip].Drain? {
      assert Strands(job, s.ip);
    }
  }

  // A file is announced to the host only when the one before is complete.
  lemma AnnounceInv(job: Job, s: State, ok: bool)
    requires PastWait(job, s) && job.prog[s.ip].Open? && !s.writeError
    ensures Inv(job, Proceed(job, s, ok))
  {
    assert ActionOk(job, s.ip);
    var t := Proceed(job, s, ok);
    assert Slot(t) == Slot(s);
  }

  lemma PassFailedInv(job: Job, s: State, ok: bool)
    requires PastWait(job, s) && s.writeError
    ensures Inv(job, Proceed(job, s, ok))
  {
  }

  lemma ProceedInv(job: Job, s: State, ok: bool)
    requires PastWait(job, s)
    ensures Inv(job, Proceed(job, s, ok))
  {
    if s.writeError {
      PassFailedInv(job, s, ok);
    } else if job.prog[s.ip].Chunk? {
      PublishWakes(job, s, ok);
      PublishContent(job, s);
      DataKept(job, Published(job, s), Proceed(job, s, ok));
    } else if job.prog[s.ip].Open? {
      AnnounceInv(job, s, ok);
    } else {
      PassInv(job, s, ok);
    }
  }

  ghost predicate AtAction(job: Job, s: State) {
    WellFormed(job) && Inv(job, s) && s.r.Run? && s.ip < |job.prog|
  }

  lemma AdvanceCloseInv(job: Job, s: State, ok: bool)
    requires AtAction(job, s) && job.prog[s.ip].Close?
    ensures Inv(job, Advance(job, s, ok))
  {
    if job.cfg.early && s.written >= Total(job) {
      SkipInv(job, s);
    } else {
      assert Slot(Advance(job, s, ok)) == Slot(s);
    }
  }

  lemma AdvanceOpenInv(job: Job, s: State, ok: bool)
    requires AtAction(job, s) && job.prog[s.ip].Open?
    ensures Inv(job, Advance(job, s, ok))
  {
    if job.cfg.usb || !ok {
      DataKept(job, s, Advance(job, s, ok));
    } else {
      CreateInv(job, s);
    }
  }

  lemma CreateInv(job: Job, s: State)
    requires AtAction(job, s) && job.prog[s.ip].Open? && !job.cfg.usb
    ensures Inv(job, s.(out := Effect(job.cfg, s.out, job.prog[s.ip]), ip := s.ip + 1))
  {
    assert ActionOk(job, s.ip);
    assert Slot(s.(out := Effect(job.cfg, s.out, job.prog[s.ip]), ip := s.ip + 1)) == Slot(s);
  }

  // The block is read into the buffer that is not in flight.
  lemma AdvanceChunkInv(job: Job, s: State, ok: bool)
    requires AtAction(job, s) && job.prog[s.ip].Chunk?
    ensures Inv(job, Advance(job, s, ok))
  {
    if s.size > 0 && !s.writeError { ChunkLeft(job, s.ip); }
    assert Slot(Advance(job, s, ok)) == Slot(s) || s.writeError;
  }

  lemma AdvanceTestInv(job: Job, s: State, ok: bool)
    requires AtAction(job, s) && (job.prog[s.ip].Check? || job.prog[s.ip].Drain?)
    ensures Inv(job, Advance(job, s, ok))
  {
    assert Slot(Advance(job, s, ok)) == Slot(s);
  }

  lemma AdvanceEnterInv(job: Job, s: State, ok: bool)
    requires AtAction(job, s) && job.prog[s.ip].Enter?
    ensures Inv(job, Advance(job, s, ok))
  {
    assert Slot(Advance(job, s, ok)) == Slot(s);
  }

  lemma AdvanceLeaveInv(job: Job, s: State, ok: bool)
    requires AtAction(job, s) && job.prog[s.ip].Leave?
    ensures Inv(job, Advance(job, s, ok))
  {
    assert ActionOk(job, s.ip);
    assert Slot(Advance(job, s, ok)) == Slot(s);
  }

  lemma SkipInv(job: Job, s: State)
    requires WellFormed(job) && Inv(job, s) && s.r.Run? && s.ip < |job.prog|
    requires job.prog[s.ip].Close? && job.cfg.early && s.written >= Total(job)
    ensures Inv(job, s.(ip := |job.prog| - 1, skipped := true))
  {
    DataBounded(job, s.ip);
    DataBounded(job, |job.prog| - 1);
    DataGrows(job, s.ip, |job.prog| - 1);
    ChunksGrow(job, s.ip, |job.prog| - 1);
    FlatDepth(job, s.ip);
    FlatDepth(job, |job.prog| - 1);
    assert s.size == 0 && Slot(s) == [];
  }

  lemma RunInv(job: Job, s: State, ok: bool)
    requires AtAction(job, s)
    ensures Inv(job, Advance(job, s, ok))
  {
    match job.prog[s.ip]
    case Close => AdvanceCloseInv(job, s, ok);
    case Open(_) => AdvanceOpenInv(job, s, ok);
    case Chunk(_) => AdvanceChunkInv(job, s, ok);
    case Check => AdvanceTestInv(job, s, ok);
    case Drain => AdvanceTestInv(job, s, ok);
    case Enter => AdvanceEnterInv(job, s, ok);
    case Leave => AdvanceLeaveInv(job, s, ok);
  }

  lemma SignalInv(job: Job, s: State)
    requires WellFormed(job) && Inv(job, s) && s.r.Signal?
    ensures Inv(job, WakeWriter(s.(r := Run)))
  {
    DataKept(job, s, WakeWriter(s.(r := Run)));
  }

  lemma AlarmInv(job: Job, s: State)
    requires WellFormed(job) && Inv(job, s) && s.r.Alarm?
    ensures Inv(job, WakeWriter(s.(r := End)))
  {
    DataKept(job, s, WakeWriter(s.(r := End)));
  }

  lemma StartInv(job: Job, s: State, ok: bool)
    requires WellFormed(job) && Inv(job, s) && s.r.Start?
    ensures Inv(job, ReaderStep(job, s, ok).value)
  {
    DataKept(job, s, ReaderStep(job, s, ok).value);
  }

  lemma GiveUpInv(job: Job, s: State)
    requires WellFormed(job) && Inv(job, s) && s.r.Start?
    ensures Inv(job, s.(readError := true, r := End))
  {
    DataKept(job, s, s.(readError := true, r := End));
  }

  lemma SleepInv(job: Job, s: State)
    requires WellFormed(job) && Inv(job, s) && (s.r.Ready? || s.r.Resume?) && MustWait(job.prog[s.ip], s)
    ensures Inv(job, s.(r := Blocked))
  {
    DataKept(job, s, s.(r := Blocked));
  }

  lemma FinishInv(job: Job, s: State)
    requires WellFormed(job) && Inv(job, s) && s.r.End?
    ensures Inv(job, Finish(job, s))
  {
    DataKept(job, s, Finish(job, s));
  }

  lemma ReaderInv(job: Job, s: State, ok: bool)
    requires WellFormed(job) && Inv(job, s)
    ensures ReaderStep(job, s, ok).Some? ==> Inv(job, ReaderStep(job, s, ok).value)
  {
    if s.r.Start? {
      StartInv(job, s, ok);
    } else if s.r.Signal? {
      SignalInv(job, s);
    } else if s.r.Alarm? {
      AlarmInv(job, s);
    } else if s.r.End? {
      FinishInv(job, s);
    } else if s.r.Run? {
      if s.ip < |job.prog| { RunInv(job, s, ok); } else { StopInv(job, s); }
    } else if (s.r.Ready? || s.r.Resume?) && MutexFree(s) {
      if MustWait(job.prog[s.ip], s) && (s.r.Ready? || job.cfg.recheck) {
        SleepInv(job, s);
      } else {
        ProceedInv(job, s, ok);
      }
    }
  }

  lemma StopInv(job: Job, s: State)
    requires WellFormed(job) && Inv(job, s) && s.r.Run? && s.ip == |job.prog|
    ensures Inv(job, s.(r := End))
  {
    DataKept(job, s, s.(r := End));
  }

  // The writer inside its critical section, past its wait.
  ghost predicate InSection(job: Job, s: State) {
    && WellFormed(job) && Inv(job, s) && (s.w.WHead? || s.w.WResume?) && s.written < Total(job)
    && (s.size == 0 && !s.readError ==> s.w.WResume? && !job.cfg.recheck)
  }

  // A writer that is awake with nothing to write was woken by an earlier block.
  lemma StaleWake(job: Job, s: State)
    requires InSection(job, s) && s.size == 0 && !s.readError && !s.cancelled
    ensures !Safe(job.cfg) && Chunks(job, s.ip) > 0 && Chunks(job, |job.prog|) >= 2 && !s.skipped
  {
    ChunksGrow(job, s.ip, |job.prog|);
    if Chunks(job, |job.prog|) < 2 {
      FewNoLoss(job);
      NothingMore(job, s.ip, |job.prog|);
    }
  }

  lemma FewNoLoss(job: Job)
    requires Chunks(job, |job.prog|) < 2
    ensures NoLoss(job)
  {
    forall a: nat
      ensures !Overtakes(job, a)
    {
      if a < |job.prog| { ChunksGrow(job, a, |job.prog|); }
    }
  }

  // Where the writer finds no output file: a wait has been passed behind the block in the slot.
  lemma NoFile(job: Job, s: State)
    requires InSection(job, s) && !Flagged(s) && !job.cfg.usb && s.out.cur.None?
    ensures GivesUp(job)
  {
    if s.size == 0 {
      StaleWake(job, s);
      if !job.cfg.closes { PlainKeepsFile(job, s.ip); }
    } else {
      ChunksGrow(job, s.ip, |job.prog|);
      if !job.cfg.closes { PlainKeepsFile(job, s.ip); }
      if s.r.Done? && job.cfg.closes { FinalWaitDrains(job); }
      if Passed(job, s.ip) == 0 && !s.r.Done? { StillOpen(job, s.ip); }
    }
  }

  lemma PlainKeepsFile(job: Job, k: nat)
    requires WellFormed(job) && !job.cfg.closes && k <= |job.prog| && Chunks(job, k) > 0
    ensures After(job, k).cur.Some?
  {
    PlainNeverPasses(job, k);
    StillOpen(job, k);
  }

  lemma LeaveInv(job: Job, s: State, ok: bool, junk: seq<byte>)
    requires InSection(job, s)
    requires s.readError || s.cancelled || (!job.cfg.usb && s.out.cur.None?)
    ensures Act(job, s, ok, junk).Some? ==> Inv(job, Act(job, s, ok, junk).value)
  {
    if !Flagged(s) { NoFile(job, s); }
    DataKept(job, s, s.(w := WDone));
  }

  lemma FailInv(job: Job, s: State, ok: bool, junk: seq<byte>)
    requires InSection(job, s)
    requires !s.readError && !s.cancelled && (job.cfg.usb || s.out.cur.Some?)
    requires if s.size == 0 then job.cfg.usb else !ok
    ensures Act(job, s, ok, junk).Some? ==> Inv(job, Act(job, s, ok, junk).value)
  {
    if s.size == 0 { StaleWake(job, s); }
    if s.size > 0 && (s.r.Ready? || s.r.Blocked? || s.r.Resume?) && job.prog[s.ip].Drain? {
      FailsAtDrain(job, s);
    }
  }

  lemma FailsAtDrain(job: Job, s: State)
    requires InSection(job, s) && !s.writeError && s.size > 0 && (job.cfg.usb || s.out.cur.Some?)
    requires (s.r.Ready? || s.r.Blocked? || s.r.Resume?) && job.prog[s.ip].Drain?
    ensures CanStrand(job)
  {
    if !job.cfg.usb || Passed(job, s.ip) == 0 {
      assert Strands(job, s.ip);
    }
  }

  // A block is written out of freed memory only behind the final wait.
  lemma FreedBlock(job: Job, s: State)
    requires InSection(job, s) && !Flagged(s) && s.freed && s.size > 0 && (job.cfg.usb || s.out.cur.Some?)
    ensures job.cfg.closes ==> job.cfg.usb && !Safe(job.cfg) && Overtakes(job, FinalWait(job))
  {
    if job.cfg.closes { FinalWaitDrains(job); }
  }

  lemma WriteInv(job: Job, s: State, ok: bool, junk: seq<byte>)
    requires InSection(job, s) && !s.readError && !s.cancelled
    requires job.cfg.usb || s.out.cur.Some?
    requires !(if s.size == 0 then job.cfg.usb else !ok)
    ensures Act(job, s, ok, junk).Some? ==> Inv(job, Act(job, s, ok, junk).value)
  {
    var r := Act(job, s, ok, junk);
    if r.Some? {
      if s.freed && s.size > 0 { FreedBlock(job, s); }
      if s.size == 0 { StaleWake(job, s); }
      DataBounded(job, s.ip);
      assert Slot(r.value) == [];
      if !s.freed {
        assert Slot(s) == s.bufs[s.data][..s.size];
      }
    }
  }

  lemma ActInv(job: Job, s: State, ok: bool, junk: seq<byte>)
    requires InSection(job, s)
    ensures Act(job, s, ok, junk).Some? ==> Inv(job, Act(job, s, ok, junk).value)
  {
    if s.readError || s.cancelled || (!job.cfg.usb && s.out.cur.None?) {
      LeaveInv(job, s, ok, junk);
    } else if if s.size == 0 then job.cfg.usb else !ok {
      FailInv(job, s, ok, junk);
    } else {
      WriteInv(job, s, ok, junk);
    }
  }

  // Steps that only move the writer's program counter and wake the reader.
  lemma OverdueWakeInv(job: Job, s: State)
    requires WellFormed(job) && Inv(job, s) && s.w.WSignal?
    ensures Inv(job, WakeReader(s.(w := if s.writeError then WDone else WHead)))
  {
    DataKept(job, s, WakeReader(s.(w := if s.writeError then WDone else WHead)));
  }

  lemma QueueInv(job: Job, s: State, w: WriterPc)
    requires WellFormed(job) && Inv(job, s) && (s.w.WHead? || s.w.WSleepy? || s.w.WResume?) && (w.WSleepy? || w.WBlocked? || w.WDone?)
    requires if w.WDone? then s.written >= Total(job) else s.written < Total(job)
    requires (w.WSleepy? ==> s.size == 0) && (w.WBlocked? ==> s.w.WSleepy?)
    ensures Inv(job, s.(w := w))
  {
    DataKept(job, s, s.(w := w));
  }

  lemma WriterInv(job: Job, s: State, ok: bool, junk: seq<byte>)
    requires WellFormed(job) && Inv(job, s)
    ensures WriterStep(job, s, ok, junk).Some? ==> Inv(job, WriterStep(job, s, ok, junk).value)
  {
    match s.w
    case WSignal => OverdueWakeInv(job, s);
    case WSleepy => QueueInv(job, s, WBlocked);
    case WHead =>
      if s.written >= Total(job) { QueueInv(job, s, WDone); }
      else if s.size == 0 && !s.readError { QueueInv(job, s, WSleepy); }
      else { ActInv(job, s, ok, junk); }
    case WResume =>
      if job.cfg.recheck && s.size == 0 && !s.readError { QueueInv(job, s, WSleepy); }
      else { ActInv(job, s, ok, junk); }
    case _ =>
  }

  lemma StepInv(job: Job, s: State, step: Step)
    requires WellFormed(job) && Inv(job, s)
    ensures Apply(job, s, step).Some? ==> Inv(job, Apply(job, s, step).value)
  {
    match step
    case Reader(ok) => ReaderInv(job, s, ok);
    case Writer(ok, junk) => WriterInv(job, s, ok, junk);
    case ReaderGivesUp => if s.r.Start? { GiveUpInv(job, s); }
    case Cancel => DataKept(job, s, s.(cancelled := true));
  }

  // The invariant holds in every reachable state, under every kind of synchronisation, whatever
  // fails and whenever the user cancels.
  lemma {:induction false} ReachableInv(job: Job, steps: seq<Step>)
    requires WellFormed(job)
    ensures Exec(job, steps).Some? ==> Inv(job, Exec(job, steps).value)
  {
    if steps == [] {
      InitialInv(job);
    } else {
      var before := steps[..|steps| - 1];
      ReachableInv(job, before);
      if Exec(job, before).Some? {
        StepInv(job, Exec(job, before).value, steps[|steps| - 1]);
      }
    }
  }

  lemma FromReachable(job: Job, s: State)
    requires WellFormed(job) && Reachable(job, s)
    ensures Inv(job, s)
  {
    var steps :| Exec(job, steps) == Some(s);
    ReachableInv(job, steps);
  }

  // -------------------------------------------------------------------------------------------
  // Main results

  // Some published byte is neither written nor in the slot.
  predicate LostData(job: Job, s: State) {
    s.ip <= |job.prog| && s.written + s.size < |DataTo(job, s.ip)|
  }

  // In every run, with read errors, write errors and cancellation at any point: unless a wait for
  // the slot can be overtaken by the next block of the same file, the byte counters account for
  // every published byte, and what reached the output is a whole number of blocks from the front
  // of the source.
  lemma WrittenIsBlockPrefix(job: Job, s: State)
    requires WellFormed(job) && Reachable(job, s)
    ensures s.ip <= |job.prog| && s.written == |s.log| && s.written + s.size <= |DataTo(job, s.ip)|
    ensures NoLoss(job) ==> s.written + s.size == |DataTo(job, s.ip)|
    ensures !LostData(job, s) && !s.torn ==> exists j: nat :: j <= s.ip && s.log == DataTo(job, j)
  {
    FromReachable(job, s);
    if !LostData(job, s) && !s.torn {
      if s.size == 0 {
        assert s.log == DataTo(job, s.ip);
      } else {
        var j := LastChunk(job, s.ip);
        LastChunkEnds(job, s.ip);
        assert s.log == DataTo(job, s.ip)[..|s.log|] == DataTo(job, j);
      }
    }
  }

  // The wait at `a` has been ended by an overdue wake-up, with the block before still in the slot.
  predicate Overtaken(job: Job, s: State, a: nat) {
    s.r.Resume? && s.ip == a && s.size > 0 && !s.writeError && !job.cfg.recheck
  }

  lemma OnlyOvertaken(job: Job, s: State)
    requires WellFormed(job) && Reachable(job, s) && Overtaken(job, s, s.ip)
    ensures !Safe(job.cfg) && Overtakes(job, s.ip)
  {
    FromReachable(job, s);
  }

  // A reader that drains has a block written out of freed memory, or ends with one in the slot,
  // only if its last wait has been overtaken.
  lemma DrainedReaderIsTornOnlyIfOvertaken(job: Job, s: State)
    requires WellFormed(job) && job.cfg.closes && Reachable(job, s)
    requires s.torn || (s.freed && s.size > 0 && !Flagged(s))
    ensures !Safe(job.cfg) && Overtakes(job, FinalWait(job)) && (s.torn ==> job.cfg.usb)
  {
    FromReachable(job, s);
    FinalWaitDrains(job);
  }

  ghost predicate LeavesBlock(s: State, t: State) {
    && t.size == s.size && t.data == s.data && Slot(t) == Slot(s)
    && (t.out == s.out || (t.r.Done? && Flagged(s)))
  }

  lemma AdvanceLeavesBlock(job: Job, s: State, ok: bool)
    requires AtAction(job, s) && s.size > 0 && !s.writeError
    ensures var t := Advance(job, s, ok);
            t.size == s.size && t.data == s.data && Slot(t) == Slot(s)
            && (t.out == s.out || ((job.prog[s.ip].Open? || job.prog[s.ip].Leave?) && Passed(job, s.ip) == 1))
  {
    assert ActionOk(job, s.ip);
    if job.prog[s.ip].Chunk? { ChunkLeft(job, s.ip); }
    assert Slot(Advance(job, s, ok)) == Slot(s);
  }

  // A wait has been overtaken since the last block.
  predicate Behind(job: Job, s: State) {
    !Safe(job.cfg) && s.ip <= |job.prog| && Passed(job, s.ip) == 1 && Chunks(job, s.ip) >= 2
  }

  // While a block is in flight no step of the reader touches its buffer, its size or the output,
  // except for one that overtakes the block, the opening of a file behind such a wait, and the
  // cleanup at the end.
  lemma BlockInFlightIsUntouched(job: Job, s: State, ok: bool)
    requires WellFormed(job) && Reachable(job, s)
    requires s.size > 0 && !s.writeError && ReaderStep(job, s, ok).Some?
    ensures var t := ReaderStep(job, s, ok).value;
            || LeavesBlock(s, t)
            || Overtaken(job, s, s.ip)
            || Behind(job, s)
  {
    FromReachable(job, s);
    match s.r
    case Run => if s.ip < |job.prog| { AdvanceLeavesBlock(job, s, ok); }
    case End => if job.cfg.closes { FinalWaitDrains(job); }
    case _ =>
  }
}
