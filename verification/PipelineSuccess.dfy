// What a dump reported as successful has written: everything, each block in its own file, unless an
// overdue wake-up has ended one of a few waits too early.

module PipelineSuccess {
  import opened Bytes
  import opened Pipeline
  import opened PipelinePrograms
  import opened PipelineSafety

  // A wait at which an overtaken block can be lost, misplaced or left out of a successful dump: the
  // final one; and with an output file, one before another block, or before another file.
  predicate Fatal(job: Job, a: nat)
    requires a < |job.prog|
  {
    && job.cfg.closes
    && (|| a == FinalWait(job)
        || (&& !job.cfg.usb
            && (|| job.prog[a].Chunk?
                || (job.prog[a].Close? && a + 1 < |job.prog| && job.prog[a + 1].Open?))))
  }

  ghost predicate Sound(job: Job) {
    Safe(job.cfg) || forall a: nat :: Overtakes(job, a) ==> !Fatal(job, a)
  }

  lemma GuardedIsSound(job: Job)
    requires WellFormed(job) && Guarded(job)
    ensures Sound(job)
  {
    forall a: nat | Overtakes(job, a)
      ensures !Safe(job.cfg) ==> !Fatal(job, a)
    {
      GuardedNeverOvertakes(job, a);
    }
  }

  lemma SoundNoLoss(job: Job)
    requires Sound(job) && job.cfg.closes && !job.cfg.usb
    ensures NoLoss(job)
  {
    forall a: nat | Overtakes(job, a) && !Safe(job.cfg)
      ensures !job.prog[a].Chunk?
    {
      assert !Fatal(job, a);
    }
  }

  // Behind an overtaken wait there is no output file until the next wait, once a drain's call has
  // returned.
  lemma {:induction false} FileGone(job: Job, k: nat)
    requires WellFormed(job) && Sound(job) && !Safe(job.cfg) && job.cfg.closes && !job.cfg.usb
    requires 0 < k <= |job.prog| && Chunks(job, k) >= 2 && Passed(job, k) == 1 && !job.prog[k - 1].Drain?
    ensures After(job, k).cur.None?
  {
    assert ActionOk(job, k - 1);
    if job.prog[k - 1].Open? {
      assert Passed(job, k - 1) == 1 && Passed(job, k - 2) == 0;
      assert Overtakes(job, k - 2) && Fatal(job, k - 2);
      assert false;
    } else if !job.prog[k - 1].Close? && !job.prog[k - 1].Leave? {
      if job.prog[k - 2].Drain? { assert ActionOk(job, k - 2); }
      FileGone(job, k - 1);
    }
  }

  // -------------------------------------------------------------------------------------------
  // The output of a run in which no write fails

  // The block in the slot belongs to the file that is open.
  predicate InItsFile(job: Job, s: State) {
    && s.ip <= |job.prog|
    && (s.size == 0 || job.cfg.usb || Passed(job, s.ip) == 0 || (s.ip > 0 && job.prog[s.ip - 1].Drain?))
  }

  // All output has been deleted, and the reader is on its way out.
  predicate Gone(job: Job, s: State) {
    && Flagged(s) && s.out == Output(None, map[]) && s.ip <= |job.prog|
    && !s.r.Ready? && !s.r.Blocked? && !s.r.Resume?
    && (s.r.Done? || (s.cancelled && !job.cfg.early && (s.ip > 0 ==> !job.prog[s.ip - 1].Close?)))
  }

  // What has been written and the block in the slot, seen from the position of the reader.
  ghost predicate Files(job: Job, s: State) {
    && s.ip <= |job.prog|
    && (job.cfg.closes && s.ip > FinalWait(job) ==> s.size == 0)
    && (s.written + s.size == |DataTo(job, s.ip)| && !s.torn
        && InItsFile(job, s) && !Gone(job, s) ==>
          && (s.size > 0 ==> s.out.cur.Some? && s.out.cur.value in s.out.files)
          && (!s.skipped ==> if s.r.Done? && job.cfg.closes && !job.cfg.usb then s.out.files == After(job, s.ip).files
                             else Append(s.out, Slot(s)) == After(job, s.ip))
          && (s.skipped ==> CoversNonEmpty(s.out.files, After(job, s.ip).files)))
  }

  ghost predicate On(job: Job, s: State) {
    WellFormed(job) && Sound(job) && Inv(job, s) && Files(job, s) && !s.writeError
  }

  lemma FilesKept(job: Job, s: State, t: State)
    requires Files(job, s) && SameData(s, t) && t.out == s.out && t.skipped == s.skipped
    requires (job.cfg.closes ==> (t.r.Done? <==> s.r.Done?)) && (Gone(job, s) ==> Gone(job, t))
    ensures Files(job, t)
  {
  }

  // The reader leaves, or goes to a wait.
  lemma LeaverFiles(job: Job, s: State, t: State)
    requires Files(job, s) && t == s.(r := t.r, readError := t.readError) && !s.r.Done? && Flagged(t)
    requires t.r.Alarm? || t.r.End?
    ensures Files(job, t)
  {
    FilesKept(job, s, t);
  }

  lemma WaiterFiles(job: Job, s: State, t: State)
    requires Files(job, s) && t == s.(r := t.r) && !s.r.Done? && !t.r.Done? && !Gone(job, s)
    ensures Files(job, t)
  {
    FilesKept(job, s, t);
  }

  lemma InitialFiles(job: Job)
    requires WellFormed(job)
    ensures Files(job, Initial(job))
  {
    AppendNothing(job.start);
    assert Slot(Initial(job)) == [];
  }

  lemma ChunkBeforeFinal(job: Job, k: nat)
    requires WellFormed(job) && job.cfg.closes && k < |job.prog| && job.prog[k].Chunk?
    ensures k < FinalWait(job)
  {
    FinalWaitDrains(job);
  }

  lemma PublishFiles(job: Job, s: State)
    requires On(job, s) && Publishing(job, s)
    ensures s.ip < |job.prog| && Files(job, Published(job, s))
  {
    assert ActionOk(job, s.ip);
    CurExists(job, s.ip);
    var t := Published(job, s);
    assert Slot(t) == job.prog[s.ip].data;
    if job.cfg.closes { ChunkBeforeFinal(job, s.ip); }
    if s.size > 0 {
      assert Overtakes(job, s.ip) && !Safe(job.cfg) && !Fatal(job, s.ip);
      assert Passed(job, s.ip) == 0;
      if !job.cfg.closes && !job.cfg.usb { PlainNeverPasses(job, s.ip); }
    } else {
      assert Slot(s) == [];
      AppendNothing(s.out);
    }
  }

  lemma PassFiles(job: Job, s: State, ok: bool)
    requires On(job, s) && PastWait(job, s) && (job.prog[s.ip].Close? || job.prog[s.ip].Drain?)
    ensures Files(job, Proceed(job, s, ok))
  {
    var t := Proceed(job, s, ok);
    assert Slot(t) == Slot(s);
    if s.size > 0 {
      assert Overtakes(job, s.ip) && !Safe(job.cfg) && !Fatal(job, s.ip);
    } else {
      assert Slot(s) == [];
      AppendNothing(s.out);
      AppendNothing(t.out);
    }
    if job.cfg.closes { FinalWaitDrains(job); }
  }

  lemma AnnounceFiles(job: Job, s: State, ok: bool)
    requires On(job, s) && PastWait(job, s) && job.prog[s.ip].Open? && !Proceed(job, s, ok).writeError
    ensures Files(job, Proceed(job, s, ok))
  {
    assert ActionOk(job, s.ip);
    var t := Proceed(job, s, ok);
    if t.readError {
      LeaverFiles(job, s, t);
    } else {
      assert Slot(t) == Slot(s) == [];
      AppendNothing(s.out);
      AppendNothing(t.out);
    }
  }

  lemma ProceedFiles(job: Job, s: State, ok: bool)
    requires On(job, s) && PastWait(job, s) && !Proceed(job, s, ok).writeError
    ensures Files(job, Proceed(job, s, ok))
  {
    if job.prog[s.ip].Chunk? {
      PublishFiles(job, s);
      FilesKept(job, Published(job, s), Proceed(job, s, ok));
    } else if job.prog[s.ip].Open? {
      AnnounceFiles(job, s, ok);
    } else {
      PassFiles(job, s, ok);
    }
  }

  lemma SkipFiles(job: Job, s: State)
    requires On(job, s) && AtAction(job, s) && job.prog[s.ip].Close? && job.cfg.early && s.written >= Total(job)
    ensures Files(job, s.(ip := |job.prog| - 1, skipped := true))
  {
    DataBounded(job, s.ip);
    DataBounded(job, |job.prog| - 1);
    DataGrows(job, s.ip, |job.prog| - 1);
    RestIsEmpty(job, s.ip, |job.prog| - 1);
    AppendNothing(s.out);
    assert s.size == 0 && Slot(s) == [];
  }

  lemma CreateFiles(job: Job, s: State)
    requires On(job, s) && AtAction(job, s) && job.prog[s.ip].Open? && !job.cfg.usb
    ensures Files(job, s.(out := Effect(job.cfg, s.out, job.prog[s.ip]), ip := s.ip + 1))
  {
    assert ActionOk(job, s.ip);
    var t := s.(out := Effect(job.cfg, s.out, job.prog[s.ip]), ip := s.ip + 1);
    assert Slot(t) == Slot(s);
    if job.cfg.closes { FinalWaitDrains(job); }
    if s.size == 0 {
      AppendNothing(s.out);
      AppendNothing(t.out);
    }
  }

  lemma ReadFiles(job: Job, s: State, ok: bool)
    requires On(job, s) && AtAction(job, s) && job.prog[s.ip].Chunk?
    ensures Files(job, Advance(job, s, ok))
  {
    if s.size > 0 { ChunkLeft(job, s.ip); }
    assert Slot(Advance(job, s, ok)) == Slot(s);
  }

  // Actions that leave both the output and the slot alone.
  lemma StepFiles(job: Job, s: State, t: State)
    requires On(job, s) && AtAction(job, s) && t.ip == s.ip + 1 && !t.torn && !s.skipped
    requires job.prog[s.ip].Check? || job.prog[s.ip].Enter? || (job.prog[s.ip].Close? && job.cfg.usb && !s.cancelled)
    requires t.r.Run? && t.cancelled == s.cancelled && t.readError == s.readError
    requires SameData(s, t.(ip := s.ip, buf2 := s.buf2)) && t.out == s.out && t.skipped == s.skipped
    ensures Files(job, t)
  {
    assert Slot(t) == Slot(s);
    assert ActionOk(job, s.ip);
    if s.ip > 0 { assert ActionOk(job, s.ip - 1); }
    if job.cfg.closes { FinalWaitDrains(job); }
  }

  // The return from a call closes the output file, or deletes the output.
  lemma ReturnFiles(job: Job, s: State, t: State)
    requires On(job, s) && AtAction(job, s) && job.prog[s.ip].Leave? && t == Advance(job, s, true) && s.frames != []
    ensures Files(job, t)
  {
    assert Slot(t) == Slot(s);
    assert ActionOk(job, s.ip);
    FinalWaitDrains(job);
    if s.size == 0 {
      AppendNothing(s.out);
      AppendNothing(t.out);
    }
  }

  lemma AtCloseFiles(job: Job, s: State, ok: bool)
    requires On(job, s) && AtAction(job, s) && job.prog[s.ip].Close?
    ensures Files(job, Advance(job, s, ok))
  {
    var t := Advance(job, s, ok);
    if job.cfg.early && s.written >= Total(job) { SkipFiles(job, s); }
    else if s.cancelled { LeaverFiles(job, s, t); }
    else if job.cfg.usb { StepFiles(job, s, t); }
    else { WaiterFiles(job, s, t); }
  }

  lemma AtOpenFiles(job: Job, s: State, ok: bool)
    requires On(job, s) && AtAction(job, s) && job.prog[s.ip].Open?
    ensures Files(job, Advance(job, s, ok))
  {
    var t := Advance(job, s, ok);
    assert ActionOk(job, s.ip);
    if !ok { LeaverFiles(job, s, t); }
    else if job.cfg.usb { WaiterFiles(job, s, t); }
    else { CreateFiles(job, s); }
  }

  lemma AtChunkFiles(job: Job, s: State, ok: bool)
    requires On(job, s) && AtAction(job, s) && job.prog[s.ip].Chunk?
    ensures Files(job, Advance(job, s, ok))
  {
    if s.cancelled || !ok { LeaverFiles(job, s, Advance(job, s, ok)); } else { ReadFiles(job, s, ok); }
  }

  lemma AtTestFiles(job: Job, s: State, ok: bool)
    requires On(job, s) && AtAction(job, s) && (job.prog[s.ip].Check? || job.prog[s.ip].Drain?)
    ensures Files(job, Advance(job, s, ok))
  {
    var t := Advance(job, s, ok);
    if Flagged(s) { LeaverFiles(job, s, t); }
    else if job.prog[s.ip].Check? { StepFiles(job, s, t); }
    else { WaiterFiles(job, s, t); }
  }

  lemma AtEnterFiles(job: Job, s: State, ok: bool)
    requires On(job, s) && AtAction(job, s) && job.prog[s.ip].Enter?
    ensures Files(job, Advance(job, s, ok))
  {
    var t := Advance(job, s, ok);
    assert ActionOk(job, s.ip);
    if !ok { LeaverFiles(job, s, t); } else { StepFiles(job, s, t); }
  }

  lemma AdvanceFiles(job: Job, s: State, ok: bool)
    requires On(job, s) && AtAction(job, s)
    ensures Files(job, Advance(job, s, ok))
  {
    match job.prog[s.ip]
    case Close => AtCloseFiles(job, s, ok);
    case Open(_) => AtOpenFiles(job, s, ok);
    case Chunk(_) => AtChunkFiles(job, s, ok);
    case Check => AtTestFiles(job, s, ok);
    case Drain => AtTestFiles(job, s, ok);
    case Enter => AtEnterFiles(job, s, ok);
    case Leave => assert ActionOk(job, s.ip); ReturnFiles(job, s, Advance(job, s, ok));
  }

  lemma FinishFiles(job: Job, s: State)
    requires On(job, s) && s.r.End?
    ensures Files(job, Finish(job, s))
  {
    var t := Finish(job, s);
    assert Slot(s) == Slot(t);
    if job.cfg.closes && !job.cfg.usb {
      FinalWaitDrains(job);
      if s.out.cur.None? { AppendNoFile(s.out, Slot(s)); } else if !Flagged(s) { AppendNothing(s.out); }
    }
  }

  lemma AppendNoFile(o: Output, d: seq<byte>)
    requires o.cur.None?
    ensures Append(o, d) == o
  {
  }

  lemma ReaderFiles(job: Job, s: State, ok: bool)
    requires On(job, s) && ReaderStep(job, s, ok).Some? && !ReaderStep(job, s, ok).value.writeError
    ensures Files(job, ReaderStep(job, s, ok).value)
  {
    match s.r
    case Run => if s.ip < |job.prog| { AdvanceFiles(job, s, ok); } else { FilesKept(job, s, s.(r := End)); }
    case Ready => AtWaitFiles(job, s, ok);
    case Resume => AtWaitFiles(job, s, ok);
    case End => FinishFiles(job, s);
    case _ => EndsFiles(job, s, ok);
  }

  lemma AtWaitFiles(job: Job, s: State, ok: bool)
    requires On(job, s) && (s.r.Ready? || s.r.Resume?)
    requires ReaderStep(job, s, ok).Some? && !ReaderStep(job, s, ok).value.writeError
    ensures Files(job, ReaderStep(job, s, ok).value)
  {
    if MustWait(job.prog[s.ip], s) && (s.r.Ready? || job.cfg.recheck) {
      WaiterFiles(job, s, s.(r := Blocked));
    } else {
      ProceedFiles(job, s, ok);
    }
  }

  lemma EndsFiles(job: Job, s: State, ok: bool)
    requires On(job, s) && (s.r.Start? || s.r.Signal? || s.r.Alarm?)
    ensures Files(job, ReaderStep(job, s, ok).value)
  {
    FilesKept(job, s, ReaderStep(job, s, ok).value);
  }

  // The writer writes into a file only while it is the file of the block.
  lemma RightFile(job: Job, s: State)
    requires On(job, s) && InSection(job, s) && s.size > 0 && (job.cfg.usb || s.out.cur.Some?)
    ensures InItsFile(job, s)
  {
    if !job.cfg.usb {
      if !job.cfg.closes { PlainNeverPasses(job, s.ip); }
      else if Passed(job, s.ip) > 0 && !job.prog[s.ip - 1].Drain? { FileGone(job, s.ip); }
    }
  }

  // The writer has written what was in the slot, or something else out of freed memory.
  lemma WriteFiles(job: Job, s: State, t: State, bytes: seq<byte>)
    requires On(job, s) && InSection(job, s) && (job.cfg.usb || s.out.cur.Some?) && !s.readError && !s.cancelled
    requires s.freed || bytes == Slot(s)
    requires t == s.(log := t.log, written := s.written + s.size, out := Append(s.out, bytes), size := 0,
                     torn := s.torn || (s.freed && s.size > 0), w := t.w, r := t.r)
    requires (t.r.Done? <==> s.r.Done?) && (s.size == 0 ==> bytes == [])
    ensures Files(job, t)
  {
    if s.size > 0 { RightFile(job, s); }
    assert Slot(t) == [];
    AppendNothing(s.out);
    AppendNothing(t.out);
    if s.size == 0 { assert Slot(s) == []; }
  }

  lemma ActFiles(job: Job, s: State, ok: bool, junk: seq<byte>)
    requires On(job, s) && InSection(job, s)
    requires Act(job, s, ok, junk).Some? && !Act(job, s, ok, junk).value.writeError
    ensures Files(job, Act(job, s, ok, junk).value)
  {
    var t := Act(job, s, ok, junk).value;
    if s.readError || s.cancelled || (!job.cfg.usb && s.out.cur.None?) {
      FilesKept(job, s, t);
    } else {
      Wrote(job, s, ok, junk);
      WriteFiles(job, s, t, if s.freed then junk else Slot(s));
    }
  }

  lemma Wrote(job: Job, s: State, ok: bool, junk: seq<byte>)
    requires !s.readError && !s.cancelled && (job.cfg.usb || s.out.cur.Some?)
    requires Act(job, s, ok, junk).Some? && !Act(job, s, ok, junk).value.writeError && !s.writeError
    ensures var t := Act(job, s, ok, junk).value;
            var bytes := if s.freed then junk else Slot(s);
            && t == s.(log := t.log, written := s.written + s.size, out := Append(s.out, bytes), size := 0,
                       torn := s.torn || (s.freed && s.size > 0), w := t.w, r := t.r)
            && (t.r.Done? <==> s.r.Done?) && (s.size == 0 ==> bytes == [])
  {
  }

  lemma WriterFiles(job: Job, s: State, ok: bool, junk: seq<byte>)
    requires On(job, s) && WriterStep(job, s, ok, junk).Some? && !WriterStep(job, s, ok, junk).value.writeError
    ensures Files(job, WriterStep(job, s, ok, junk).value)
  {
    match s.w
    case WHead =>
      if s.written >= Total(job) { QueuedFiles(job, s, s.(w := WDone)); }
      else if s.size == 0 && !s.readError { QueuedFiles(job, s, s.(w := WSleepy)); }
      else { ActFiles(job, s, ok, junk); }
    case WResume =>
      if job.cfg.recheck && s.size == 0 && !s.readError { QueuedFiles(job, s, s.(w := WSleepy)); }
      else { ActFiles(job, s, ok, junk); }
    case WSleepy => QueuedFiles(job, s, s.(w := WBlocked));
    case WSignal => QueuedFiles(job, s, WakeReader(s.(w := WHead)));
  }

  lemma QueuedFiles(job: Job, s: State, t: State)
    requires On(job, s) && t == s.(w := t.w, r := t.r) && (t.r == s.r || (s.r.Blocked? && t.r.Resume?))
    ensures Files(job, t)
  {
    FilesKept(job, s, t);
  }

  lemma AnyStepFiles(job: Job, s: State, step: Step)
    requires On(job, s) && Apply(job, s, step).Some? && !Apply(job, s, step).value.writeError
    ensures Files(job, Apply(job, s, step).value)
  {
    match step
    case Reader(ok) => ReaderFiles(job, s, ok);
    case Writer(ok, junk) => WriterFiles(job, s, ok, junk);
    case ReaderGivesUp => FilesKept(job, s, s.(readError := true, r := End));
    case Cancel => FilesKept(job, s, s.(cancelled := true));
  }

  // A failed write stays failed.
  lemma CloseKeepsError(job: Job, s: State, ok: bool)
    requires s.ip < |job.prog| && (job.prog[s.ip].Close? || job.prog[s.ip].Open?)
    ensures Advance(job, s, ok).writeError == s.writeError
  {
  }

  lemma TestKeepsError(job: Job, s: State, ok: bool)
    requires s.ip < |job.prog| && (job.prog[s.ip].Chunk? || job.prog[s.ip].Check? || job.prog[s.ip].Drain?)
    ensures Advance(job, s, ok).writeError == s.writeError
  {
  }

  lemma CallKeepsError(job: Job, s: State, ok: bool)
    requires s.ip < |job.prog| && (job.prog[s.ip].Enter? || job.prog[s.ip].Leave?)
    ensures Advance(job, s, ok).writeError == s.writeError
  {
  }

  lemma ProceedKeepsError(job: Job, s: State, ok: bool)
    requires s.ip < |job.prog| && s.writeError
    ensures Proceed(job, s, ok).writeError
  {
  }

  lemma ReaderKeepsError(job: Job, s: State, ok: bool)
    requires ReaderStep(job, s, ok).Some? && s.writeError
    ensures ReaderStep(job, s, ok).value.writeError
  {
    match s.r
    case Run =>
      if s.ip < |job.prog| {
        match job.prog[s.ip]
        case Close => CloseKeepsError(job, s, ok);
        case Open(_) => CloseKeepsError(job, s, ok);
        case Enter => CallKeepsError(job, s, ok);
        case Leave => CallKeepsError(job, s, ok);
        case _ => TestKeepsError(job, s, ok);
      }
    case Ready => if !MustWait(job.prog[s.ip], s) { ProceedKeepsError(job, s, ok); }
    case Resume => ProceedKeepsError(job, s, ok);
    case _ =>
  }

  lemma ActKeepsError(job: Job, s: State, ok: bool, junk: seq<byte>)
    requires Act(job, s, ok, junk).Some? && s.writeError
    ensures Act(job, s, ok, junk).value.writeError
  {
  }

  lemma WriterKeepsError(job: Job, s: State, ok: bool, junk: seq<byte>)
    requires WriterStep(job, s, ok, junk).Some? && s.writeError
    ensures WriterStep(job, s, ok, junk).value.writeError
  {
    if s.w.WHead? && s.written < Total(job) && (s.size > 0 || s.readError) { ActKeepsError(job, s, ok, junk); }
    if s.w.WResume? && !(job.cfg.recheck && s.size == 0 && !s.readError) { ActKeepsError(job, s, ok, junk); }
  }

  lemma WriteErrorStays(job: Job, s: State, step: Step)
    requires Apply(job, s, step).Some? && s.writeError
    ensures Apply(job, s, step).value.writeError
  {
    match step
    case Reader(ok) => ReaderKeepsError(job, s, ok);
    case Writer(ok, junk) => WriterKeepsError(job, s, ok, junk);
    case _ =>
  }

  lemma {:induction false} ReachableFiles(job: Job, steps: seq<Step>)
    requires WellFormed(job) && Sound(job) && Exec(job, steps).Some? && !Exec(job, steps).value.writeError
    ensures Files(job, Exec(job, steps).value)
  {
    if steps == [] {
      InitialFiles(job);
    } else {
      var before := steps[..|steps| - 1];
      var step := steps[|steps| - 1];
      var s := Exec(job, before).value;
      if s.writeError { WriteErrorStays(job, s, step); }
      ReachableFiles(job, before);
      ReachableInv(job, before);
      AnyStepFiles(job, s, step);
    }
  }

  // -------------------------------------------------------------------------------------------
  // Main result

  // A dump reported as successful whose output is not the source.
  ghost predicate Lies(job: Job, s: State) {
    && ReportsSuccess(s)
    && (s.log != DataTo(job, |job.prog|) || !CoversNonEmpty(s.out.files, After(job, |job.prog|).files))
  }

  // A dump reported as successful is complete, and each file holds exactly its source; a reader
  // with the early exit may only have left out files that are empty. For a raw dump this holds
  // under every synchronisation, unless its last block was written out of freed memory.
  lemma SuccessIsComplete(job: Job, s: State)
    requires WellFormed(job) && Sound(job) && Reachable(job, s) && ReportsSuccess(s)
    requires job.cfg.closes || !s.torn
    ensures !s.torn && s.written == Total(job) && s.log == DataTo(job, |job.prog|)
    ensures !job.cfg.early ==> s.out.files == After(job, |job.prog|).files
    ensures !Lies(job, s)
  {
    var steps :| Exec(job, steps) == Some(s);
    ReachableInv(job, steps);
    ReachableFiles(job, steps);
    DataBounded(job, s.ip);
    AppendNothing(s.out);
    if job.cfg.closes {
      FinalWaitDrains(job);
      assert s.torn ==> Overtakes(job, FinalWait(job)) && Fatal(job, FinalWait(job));
      if !job.cfg.usb { SoundNoLoss(job); }
    }
    assert s.size == 0 && Slot(s) == [];
  }
}
