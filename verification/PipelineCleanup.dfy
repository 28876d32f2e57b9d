// What a dump leaves on the storage device when it does not get to its end. The reader deletes all
// output when it ends with a flag set and an output file open; with no file open it deletes nothing.

module PipelineCleanup {
  import opened Bytes
  import opened Pipeline
  import opened PipelinePrograms
  import opened PipelineSafety
  import opened PipelineSuccess
  import opened PipelineRuns
  import opened PipelineLies

  // The reader owns the output files, and they are on a storage device of the console.
  predicate Stores(job: Job) { job.cfg.closes && !job.cfg.usb }

  // -------------------------------------------------------------------------------------------
  // Which files there are, whatever the synchronisation and whatever fails

  // A return from a call has deleted all output, and the reader is on its way out.
  predicate Deleted(job: Job, s: State) {
    && s.out.files == map[] && s.ip <= |job.prog|
    && (|| s.r.Done?
        || (&& (s.writeError || (s.cancelled && !s.r.Ready? && !s.r.Blocked? && !s.r.Resume?))
            && !job.cfg.early && (s.ip > 0 ==> !job.prog[s.ip - 1].Close?)))
  }

  // A loop head that finds no open file finds no files at all.
  ghost predicate Tidy(job: Job) {
    forall k :: 0 <= k < |job.prog| && job.prog[k].Close? && After(job, k).cur.None? ==> After(job, k).files == map[]
  }

  ghost predicate Kept(job: Job, s: State) {
    && s.ip <= |job.prog|
    && (s.writeError && s.out.cur.None? ==> s.out.files == map[])
    && (!s.skipped ==> Deleted(job, s) || s.out.files.Keys == After(job, s.ip).files.Keys)
    && (!s.skipped && s.r.Done? && s.ip < |job.prog| && After(job, s.ip).cur.Some? ==> s.out.files == map[])
    && (s.skipped && Tidy(job) ==>
          if s.r.Done? then s.ip < |job.prog| ==> s.out.files == map[]
          else s.out.cur.Some? || s.out.files == map[])
  }

  ghost predicate Own(job: Job, s: State) {
    WellFormed(job) && Stores(job) && Inv(job, s) && Kept(job, s)
  }

  // Neither the output nor the position has changed.
  lemma StillKept(job: Job, s: State, t: State)
    requires Own(job, s) && t.ip == s.ip && t.out == s.out && t.skipped == s.skipped
    requires (s.r.Done? <==> t.r.Done?) && (s.cancelled ==> t.cancelled) && (s.writeError ==> t.writeError)
    requires t.writeError ==> s.writeError || s.out.cur.Some?
    requires (t.r.Ready? || t.r.Blocked? || t.r.Resume?) && !s.writeError && s.cancelled ==>
               s.r.Ready? || s.r.Blocked? || s.r.Resume?
    ensures Kept(job, t)
  {
  }

  lemma AppendKeepsNames(o: Output, d: seq<byte>)
    ensures var p := Append(o, d); p.cur == o.cur && p.files.Keys == o.files.Keys
    ensures Append(o, d).files == map[] <==> o.files == map[]
  {
    var p := Append(o, d);
    assert p.files.Keys == o.files.Keys;
    assert o.files == map[] <==> o.files.Keys == {};
    assert p.files == map[] <==> p.files.Keys == {};
  }

  lemma WrittenKept(job: Job, s: State, t: State, d: seq<byte>)
    requires Own(job, s) && t.ip == s.ip && t.out == Append(s.out, d) && t.skipped == s.skipped
    requires (s.r.Done? <==> t.r.Done?) && t.cancelled == s.cancelled && t.writeError == s.writeError
    requires t.r == s.r || (s.r.Blocked? && t.r.Resume?)
    ensures Kept(job, t)
  {
    AppendKeepsNames(s.out, d);
  }

  // The reader goes past an action that leaves the output alone.
  lemma PassedKept(job: Job, s: State, t: State)
    requires Own(job, s) && s.ip < |job.prog| && t.ip == s.ip + 1 && t.out == s.out
    requires t.skipped == s.skipped && (!s.skipped || !t.r.Done?)
    requires !s.r.Done? && !t.r.Done? && t.cancelled == s.cancelled && t.writeError == s.writeError
    requires job.prog[s.ip].Chunk? ==> !Deleted(job, s)
    requires job.prog[s.ip].Check? || job.prog[s.ip].Drain? || job.prog[s.ip].Enter? || job.prog[s.ip].Chunk?
    requires Deleted(job, s) ==> !t.r.Ready? && !t.r.Blocked? && !t.r.Resume?
    ensures Kept(job, t)
  {
    AppendKeepsNames(After(job, s.ip), if job.prog[s.ip].Chunk? then job.prog[s.ip].data else []);
  }

  lemma CloseKept(job: Job, s: State, t: State)
    requires Own(job, s) && s.ip < |job.prog| && job.prog[s.ip].Close? && !Deleted(job, s) && !s.writeError
    requires !s.r.Done? && t == s.(out := s.out.(cur := None), ip := s.ip + 1, r := Run)
    ensures Kept(job, t)
  {
  }

  lemma OpenKept(job: Job, s: State)
    requires Own(job, s) && s.ip < |job.prog| && job.prog[s.ip].Open? && s.r.Run?
    ensures Kept(job, s.(out := Effect(job.cfg, s.out, job.prog[s.ip]), ip := s.ip + 1))
  {
    assert ActionOk(job, s.ip);
    var f := job.prog[s.ip].file;
    assert s.out.files[f := []].Keys == s.out.files.Keys + {f};
    assert After(job, s.ip + 1).files.Keys == After(job, s.ip).files.Keys + {f};
  }

  lemma LeaveKept(job: Job, s: State, t: State)
    requires Own(job, s) && AtAction(job, s) && job.prog[s.ip].Leave? && t == Advance(job, s, true) && s.frames != []
    ensures Kept(job, t)
  {
    assert ActionOk(job, s.ip);
  }

  lemma SkipKept(job: Job, s: State)
    requires Own(job, s) && AtAction(job, s) && job.prog[s.ip].Close? && job.cfg.early && s.written >= Total(job)
    ensures Kept(job, s.(ip := |job.prog| - 1, skipped := true))
  {
    assert s.out.files.Keys == {} ==> s.out.files == map[];
  }

  lemma FinishKept(job: Job, s: State)
    requires Own(job, s) && s.r.End?
    ensures Kept(job, Finish(job, s))
  {
  }

  lemma LeavesKept(job: Job, s: State, t: State)
    requires Own(job, s) && t == s.(r := t.r, readError := t.readError) && !s.r.Done? && (t.r.Alarm? || t.r.End?)
    ensures Kept(job, t)
  {
    StillKept(job, s, t);
  }

  lemma WaitsKept(job: Job, s: State, t: State)
    requires Own(job, s) && t == s.(r := t.r, bufs := t.bufs) && s.r.Run? && !s.cancelled && t.r.Ready?
    ensures Kept(job, t)
  {
    StillKept(job, s, t);
  }

  lemma AdvanceKept(job: Job, s: State, ok: bool)
    requires Own(job, s) && AtAction(job, s)
    ensures Kept(job, Advance(job, s, ok))
  {
    var t := Advance(job, s, ok);
    match job.prog[s.ip]
    case Close =>
      if job.cfg.early && s.written >= Total(job) { SkipKept(job, s); }
      else if s.cancelled { LeavesKept(job, s, t); }
      else { WaitsKept(job, s, t); }
    case Open(_) => if !ok { LeavesKept(job, s, t); } else { OpenKept(job, s); }
    case Chunk(_) => if s.cancelled || !ok { LeavesKept(job, s, t); } else { WaitsKept(job, s, t); }
    case Check => if Flagged(s) { LeavesKept(job, s, t); } else { PassedKept(job, s, t); }
    case Drain => if Flagged(s) { LeavesKept(job, s, t); } else { WaitsKept(job, s, t); }
    case Enter => if !ok { LeavesKept(job, s, t); } else { PassedKept(job, s, t); }
    case Leave => assert ActionOk(job, s.ip); LeaveKept(job, s, t);
  }

  lemma ProceedKept(job: Job, s: State, ok: bool)
    requires Own(job, s) && PastWait(job, s)
    ensures Kept(job, Proceed(job, s, ok))
  {
    var t := Proceed(job, s, ok);
    if s.writeError && !job.prog[s.ip].Drain? { LeavesKept(job, s, t); }
    else if job.prog[s.ip].Close? { CloseKept(job, s, t); }
    else { PassedKept(job, s, t); }
  }

  lemma ReaderKept(job: Job, s: State, ok: bool)
    requires Own(job, s) && ReaderStep(job, s, ok).Some?
    ensures Kept(job, ReaderStep(job, s, ok).value)
  {
    match s.r
    case Run => if s.ip < |job.prog| { AdvanceKept(job, s, ok); } else { LeavesKept(job, s, s.(r := End)); }
    case Ready => ReadyKept(job, s, ok);
    case Resume => ReadyKept(job, s, ok);
    case End => FinishKept(job, s);
    case Start => StillKept(job, s, ReaderStep(job, s, ok).value);
    case Signal => StillKept(job, s, WakeWriter(s.(r := Run)));
    case Alarm => StillKept(job, s, WakeWriter(s.(r := End)));
    case _ =>
  }

  lemma ReadyKept(job: Job, s: State, ok: bool)
    requires Own(job, s) && (s.r.Ready? || s.r.Resume?) && ReaderStep(job, s, ok).Some?
    ensures Kept(job, ReaderStep(job, s, ok).value)
  {
    if MustWait(job.prog[s.ip], s) && (s.r.Ready? || job.cfg.recheck) {
      StillKept(job, s, s.(r := Blocked));
    } else {
      ProceedKept(job, s, ok);
    }
  }

  lemma ActKept(job: Job, s: State, ok: bool, junk: seq<byte>)
    requires Own(job, s) && InSection(job, s) && Act(job, s, ok, junk).Some?
    ensures Kept(job, Act(job, s, ok, junk).value)
  {
    var t := Act(job, s, ok, junk).value;
    if s.readError || s.cancelled || s.out.cur.None? || (s.size > 0 && !ok) {
      StillKept(job, s, t);
    } else {
      WrittenKept(job, s, t, if s.freed then junk else s.bufs[s.data][..s.size]);
    }
  }

  lemma WriterKept(job: Job, s: State, ok: bool, junk: seq<byte>)
    requires Own(job, s) && WriterStep(job, s, ok, junk).Some?
    ensures Kept(job, WriterStep(job, s, ok, junk).value)
  {
    match s.w
    case WHead =>
      if s.written >= Total(job) { StillKept(job, s, s.(w := WDone)); }
      else if s.size == 0 && !s.readError { StillKept(job, s, s.(w := WSleepy)); }
      else { ActKept(job, s, ok, junk); }
    case WResume =>
      if job.cfg.recheck && s.size == 0 && !s.readError { StillKept(job, s, s.(w := WSleepy)); }
      else { ActKept(job, s, ok, junk); }
    case WSleepy => StillKept(job, s, s.(w := WBlocked));
    case WSignal => StillKept(job, s, WriterStep(job, s, ok, junk).value);
    case _ =>
  }

  lemma StepKept(job: Job, s: State, step: Step)
    requires Own(job, s) && Apply(job, s, step).Some?
    ensures Kept(job, Apply(job, s, step).value)
  {
    match step
    case Reader(ok) => ReaderKept(job, s, ok);
    case Writer(ok, junk) => WriterKept(job, s, ok, junk);
    case ReaderGivesUp => StillKept(job, s, s.(readError := true, r := End));
    case Cancel => StillKept(job, s, s.(cancelled := true));
  }

  lemma {:induction false} ReachableKept(job: Job, steps: seq<Step>)
    requires WellFormed(job) && Stores(job) && Exec(job, steps).Some?
    ensures Kept(job, Exec(job, steps).value)
  {
    if steps != [] {
      var before := steps[..|steps| - 1];
      ReachableKept(job, before);
      ReachableInv(job, before);
      StepKept(job, Exec(job, before).value, steps[|steps| - 1]);
    }
  }

  // -------------------------------------------------------------------------------------------
  // A dump of nothing

  predicate Refused(s: State) {
    && s.ip == 0 && s.log == [] && !s.skipped && (s.w.WHead? || s.w.WDone?)
    && (s.r.Start? || (s.readError && (s.r.Alarm? || s.r.End? || s.r.Done?)))
  }

  lemma RefusedReader(job: Job, s: State, ok: bool)
    requires Total(job) == 0 && Refused(s) && ReaderStep(job, s, ok).Some?
    ensures Refused(ReaderStep(job, s, ok).value)
  {
  }

  lemma RefusedWriter(job: Job, s: State, ok: bool, junk: seq<byte>)
    requires Total(job) == 0 && Refused(s) && WriterStep(job, s, ok, junk).Some?
    ensures Refused(WriterStep(job, s, ok, junk).value)
  {
  }

  lemma {:induction false} AlwaysRefused(job: Job, steps: seq<Step>)
    requires Total(job) == 0 && Exec(job, steps).Some?
    ensures Refused(Exec(job, steps).value)
  {
    if steps != [] {
      var before, step := steps[..|steps| - 1], steps[|steps| - 1];
      AlwaysRefused(job, before);
      var s := Exec(job, before).value;
      if step.Reader? { RefusedReader(job, s, step.ok); }
      if step.Writer? { RefusedWriter(job, s, step.ok, step.junk); }
    }
  }

  // A dump of no bytes opens no file, writes nothing and is never reported as successful.
  lemma NothingToDump(job: Job, s: State)
    requires Total(job) == 0 && Reachable(job, s)
    ensures s.ip == 0 && s.log == [] && !s.skipped && !ReportsSuccess(s)
  {
    var steps :| Exec(job, steps) == Some(s);
    AlwaysRefused(job, steps);
  }

  // -------------------------------------------------------------------------------------------
  // Main results

  lemma StepsKept(job: Job, s: State)
    requires WellFormed(job) && Stores(job) && Reachable(job, s)
    ensures Inv(job, s) && Kept(job, s) && s.ip <= |job.prog|
  {
    var steps :| Exec(job, steps) == Some(s);
    ReachableInv(job, steps);
    ReachableKept(job, steps);
  }

  // Whatever the synchronisation: a dump with a failed write leaves nothing, nor does one that ends
  // early with a file open. Any other leaves nothing, or the files it had opened where it ended.
  lemma WhatIsLeft(job: Job, s: State)
    requires WellFormed(job) && Stores(job) && Reachable(job, s) && s.r.Done?
    ensures s.ip <= |job.prog|
    ensures s.writeError ==> s.out.files == map[]
    ensures s.ip < |job.prog| && !s.skipped && After(job, s.ip).cur.Some? ==> s.out.files == map[]
    ensures !s.skipped && s.out.files != map[] ==> s.out.files.Keys == After(job, s.ip).files.Keys
    ensures s.skipped && Tidy(job) && s.ip < |job.prog| ==> s.out.files == map[]
  {
    StepsKept(job, s);
  }

  // When no block can be overtaken, what is left are whole files.
  lemma LeftFilesAreWhole(job: Job, s: State)
    requires WellFormed(job) && Stores(job) && Guarded(job) && Reachable(job, s) && s.r.Done?
    ensures s.ip <= |job.prog|
    ensures s.out.files == map[] || s.skipped || s.out.files == After(job, s.ip).files
    ensures s.out.files == map[] || !s.skipped || CoversNonEmpty(s.out.files, After(job, |job.prog|).files)
  {
    WhatIsLeft(job, s);
    if s.out.files != map[] {
      var steps :| Exec(job, steps) == Some(s);
      GuardedIsSound(job);
      ReachableInv(job, steps);
      ReachableFiles(job, steps);
      WholeFiles(job, s);
    }
  }

  lemma NotBehindBlock(job: Job, s: State)
    requires WellFormed(job) && Stores(job) && Guarded(job) && Inv(job, s) && Files(job, s)
    requires s.r.Done? && !s.writeError && s.out.files != map[]
    requires s.ip < |job.prog| && !s.skipped ==> After(job, s.ip).cur.None?
    ensures s.size == 0
  {
    if s.size > 0 {
      FinalWaitDrains(job);
      if Passed(job, s.ip) == 0 { StillOpen(job, s.ip); } else { NeverOvertaken(job, s.ip); }
    }
  }

  // Nor can it be behind the last block.
  lemma NeverOvertaken(job: Job, k: nat)
    requires WellFormed(job) && job.cfg.closes && Guarded(job) && k <= |job.prog| && Chunks(job, k) >= 2
    ensures Safe(job.cfg)
  {
    ChunksGrow(job, k, |job.prog|);
  }

  lemma WholeFiles(job: Job, s: State)
    requires WellFormed(job) && Stores(job) && Guarded(job) && Inv(job, s) && Files(job, s)
    requires s.r.Done? && !s.writeError && s.out.files != map[]
    requires s.ip < |job.prog| && !s.skipped ==> After(job, s.ip).cur.None?
    ensures if s.skipped then CoversNonEmpty(s.out.files, After(job, |job.prog|).files)
            else s.out.files == After(job, s.ip).files
  {
    NotBehindBlock(job, s);
    GuardedNoLoss(job);
    if s.skipped && s.ip < |job.prog| {
      FinalWaitDrains(job);
      assert job.prog[s.ip].Drain?;
      assert After(job, |job.prog|) == After(job, s.ip);
    }
  }

  lemma {:induction false} NotOpenedAgain(job: Job, k: nat, f: nat)
    requires DistinctFiles(job) && job.start.files == map[] && k <= |job.prog| && f in After(job, k).files
    ensures exists j :: 0 <= j < k && job.prog[j] == Open(f)
    ensures forall i :: k <= i < |job.prog| ==> job.prog[i] != Open(f)
  {
    if f in After(job, k - 1).files {
      NotOpenedAgain(job, k - 1, f);
    } else {
      AppendKeepsNames(After(job, k - 1), if job.prog[k - 1].Chunk? then job.prog[k - 1].data else []);
      assert job.prog[k - 1] == Open(f);
    }
  }

  // In a dump that opens every file once, whole files are those of the source.
  lemma WholeFilesAreFinal(job: Job, k: nat)
    requires DistinctFiles(job) && job.start.files == map[] && k <= |job.prog| && After(job, k).cur.None?
    ensures After(job, k).files.Keys <= After(job, |job.prog|).files.Keys
    ensures forall f :: f in After(job, k).files ==> After(job, |job.prog|).files[f] == After(job, k).files[f]
  {
    AfterEffects(job, k, |job.prog|);
    forall f | f in After(job, k).files
      ensures f in After(job, |job.prog|).files && After(job, |job.prog|).files[f] == After(job, k).files[f]
    {
      NotOpenedAgain(job, k, f);
      EffectsKeep(job, k, |job.prog|, After(job, k), f);
    }
  }

  // The reader has ended before its program has, and there are files.
  ghost predicate LeavesFiles(job: Job, s: State) {
    s.r.Done? && s.ip < |job.prog| && s.out.files != map[]
  }

  // Files have been written up to here, and none is open.
  ghost predicate BetweenFiles(job: Job, k: nat) {
    k < |job.prog| && After(job, k).cur.None? && After(job, k).files != map[]
  }

  // The reader fails to open the next file, or to list a directory; or it is stopped.
  lemma Stops(job: Job, u: State)
    requires u.ip < |job.prog| && u.r.Run? && u.w.WHead? && !job.prog[u.ip].Chunk? && !job.prog[u.ip].Leave?
    requires job.cfg.early ==> !job.prog[u.ip].Close?
    ensures if job.prog[u.ip].Open? || job.prog[u.ip].Enter? then
              Apply(job, u, Reader(false)) == Some(u.(readError := true, r := Alarm))
            else
              && Apply(job, u, Cancel) == Some(u.(cancelled := true))
              && Apply(job, u.(cancelled := true), Reader(true))
                 == Some(u.(cancelled := true, r := if job.prog[u.ip].Close? then Alarm else End))
  {
  }

  lemma GoesHome(job: Job, u: State) returns (t: State)
    requires Reachable(job, u) && (u.r.Alarm? || u.r.End?) && u.w.WHead? && u.out.cur.None?
    ensures Reachable(job, t) && t.r.Done? && t.ip == u.ip && t.out == u.out
  {
    t := u;
    if t.r.Alarm? { t := GoOn(job, t, Reader(true)); }
    t := GoOn(job, t, Reader(true));
  }

  lemma EndsHere(job: Job, u: State) returns (t: State)
    requires Reachable(job, u) && u.ip < |job.prog| && u.r.Run? && u.w.WHead? && u.out.cur.None?
    requires !job.prog[u.ip].Chunk? && !job.prog[u.ip].Leave? && (job.cfg.early ==> !job.prog[u.ip].Close?)
    ensures Reachable(job, t) && t.r.Done? && t.ip == u.ip && t.out == u.out
  {
    Stops(job, u);
    if job.prog[u.ip].Open? || job.prog[u.ip].Enter? {
      t := GoOn(job, u, Reader(false));
    } else {
      t := GoOn(job, u, Cancel);
      t := GoOn(job, t, Reader(true));
    }
    t := GoesHome(job, t);
  }

  lemma LeavesThese(job: Job, k: nat) returns (s: State)
    requires WellFormed(job) && Stores(job) && BetweenFiles(job, k) && Total(job) > 0
    requires job.cfg.early ==> job.prog[k].Open? && |DataTo(job, k)| < Total(job)
    ensures Reachable(job, s) && LeavesFiles(job, s)
  {
    assert ActionOk(job, k);
    var j := if job.prog[k].Leave? then k - 1 else k;
    s := Sequential(job, j);
    var steps := CleanlyMeansReachable(job, s);
    s := EndsBetween(job, s);
  }

  // The reader is between two files.
  ghost predicate InBetween(job: Job, s: State) {
    && s.ip < |job.prog| && s.r.Run? && s.w.WHead? && s.out.cur.None? && s.out.files != map[]
    && !job.prog[s.ip].Chunk? && !job.prog[s.ip].Leave? && (job.cfg.early ==> !job.prog[s.ip].Close?)
  }

  lemma EndsBetween(job: Job, s: State) returns (t: State)
    requires Reachable(job, s) && InBetween(job, s)
    ensures Reachable(job, t) && LeavesFiles(job, t) && t.ip == s.ip && t.out == s.out
  {
    t := EndsHere(job, s);
  }

  // A dump of nothing leaves what there was.
  lemma LeavesTheStart(job: Job) returns (s: State)
    requires BetweenFiles(job, 0)
    ensures Reachable(job, s) && LeavesFiles(job, s)
  {
    assert Exec(job, []) == Some(Initial(job));
    s := GoOn(job, Initial(job), ReaderGivesUp);
    s := GoOn(job, s, Reader(true));
  }

  // A reader that ends early can leave files exactly when its program comes to a place, other than
  // its end, where there are files and none of them is open.
  lemma LeavesFilesIff(job: Job)
    requires WellFormed(job) && Stores(job) && !job.cfg.early
    ensures (exists s :: Reachable(job, s) && LeavesFiles(job, s))
       <==> (exists k :: BetweenFiles(job, k) && (k == 0 || Total(job) > 0))
  {
    forall s | Reachable(job, s) && LeavesFiles(job, s)
      ensures BetweenFiles(job, s.ip) && (s.ip == 0 || Total(job) > 0)
    {
      StepsKept(job, s);
      assert s.out.files.Keys != {};
      if Total(job) == 0 { NothingToDump(job, s); }
    }
    if k :| BetweenFiles(job, k) && (k == 0 || Total(job) > 0) {
      var s;
      if k == 0 { s := LeavesTheStart(job); } else { s := LeavesThese(job, k); }
    }
  }

  // The reader is at a loop head while the block before it is in the slot.
  ghost predicate AtClose(job: Job, s: State, k: nat) {
    && s.ip == k < |job.prog| && job.prog[k].Close? && s.r.Run? && s.w.WHead? && s.size > 0 && !Flagged(s)
    && s.written < Total(job) && s.out.cur.Some? && !s.freed && s.data < |s.bufs| && s.size <= |s.bufs[s.data]|
  }

  lemma CloseSteps(job: Job, s: State, k: nat)
    requires Stores(job) && AtClose(job, s, k)
    ensures var t := s.(r := Blocked);
            var u := Eaten(s).(r := Resume);
            && Apply(job, s, Reader(true)) == Some(s.(r := Ready))
            && Apply(job, s.(r := Ready), Reader(true)) == Some(t)
            && Apply(job, t, Writer(true, [])) == Some(if job.cfg.atomicWake then u else Eaten(t).(w := WSignal))
            && Apply(job, Eaten(t).(w := WSignal), Writer(true, [])) == Some(u)
            && Apply(job, u, Reader(true)) == Some(u.(out := u.out.(cur := None), ip := k + 1, r := Run))
  {
  }

  // It waits there until the block has been written, and closes the file.
  lemma ClosesBehind(job: Job, s: State, k: nat) returns (t: State)
    requires CleanlyReachable(job, s) && Stores(job) && AtClose(job, s, k)
    ensures CleanlyReachable(job, t) && JustClosed(t, k + 1)
  {
    CloseSteps(job, s, k);
    t := Go(job, s, Reader(true));
    t := Go(job, t, Reader(true));
    t := Go(job, t, Writer(true, []));
    if !job.cfg.atomicWake { t := Go(job, t, Writer(true, [])); }
    t := Go(job, t, Reader(true));
  }

  lemma ComesToClose(job: Job, k: nat) returns (s: State)
    requires WellFormed(job) && Stores(job) && k < |job.prog| && job.prog[k].Close?
    requires Chunks(job, k) > 0 && Passed(job, k) == 0
    ensures CleanlyReachable(job, s) && AtClose(job, s, k)
  {
    var c := LastChunk(job, k);
    assert ActionOk(job, c);
    MoreToWrite(job, c);
    s := Sequential(job, c);
    Knows(job, s);
    s := Feed(job, s);
    s := Drift(job, s, k);
    Knows(job, s);
    StillOpen(job, k);
  }

  // The file in front of k has just been closed.
  ghost predicate JustClosed(s: State, k: nat) {
    s.ip == k && s.r.Run? && s.w.WHead? && s.out.cur.None? && !Flagged(s)
  }

  lemma StillThere(job: Job, s: State, k: nat)
    requires WellFormed(job) && Stores(job) && Inv(job, s) && Kept(job, s) && JustClosed(s, k)
    requires BetweenFiles(job, k) && job.prog[k].Open?
    ensures InBetween(job, s)
  {
    assert After(job, k).files.Keys != {};
  }

  // A reader can come to a place where the file has just been closed even if it would stop once all
  // has been written: it has been waiting for the last block.
  lemma LeavesBehindClose(job: Job, k: nat) returns (s: State)
    requires WellFormed(job) && Stores(job) && BetweenFiles(job, k + 1) && job.prog[k].Close? && job.prog[k + 1].Open?
    requires Chunks(job, k) > 0 && Passed(job, k) == 0
    ensures Reachable(job, s) && LeavesFiles(job, s)
  {
    s := ComesBehind(job, k);
    s := EndsBetween(job, s);
  }

  lemma ComesBehind(job: Job, k: nat) returns (s: State)
    requires WellFormed(job) && Stores(job) && BetweenFiles(job, k + 1) && job.prog[k].Close? && job.prog[k + 1].Open?
    requires Chunks(job, k) > 0 && Passed(job, k) == 0
    ensures Reachable(job, s) && InBetween(job, s)
  {
    s := ComesToClose(job, k);
    s := ClosesBehind(job, s, k);
    IsStillThere(job, s, k + 1);
  }

  lemma IsStillThere(job: Job, s: State, k: nat)
    requires WellFormed(job) && Stores(job) && CleanlyReachable(job, s) && JustClosed(s, k)
    requires BetweenFiles(job, k) && job.prog[k].Open?
    ensures Reachable(job, s) && InBetween(job, s)
  {
    var steps := CleanlyMeansReachable(job, s);
    StepsKept(job, s);
    StillThere(job, s, k);
  }

  // A file has been closed at `a` without the block that is still in the slot.
  ghost predicate ClosedShort(job: Job, t: State, a: nat) {
    InBetween(job, t) && t.ip == a + 1 && t.out.files != After(job, a + 1).files
  }

  lemma ClosesShort(job: Job, s: State, t: State, a: nat)
    requires WellFormed(job) && Stores(job) && !job.cfg.early && Trails(job, s, a) && job.prog[a].Close?
    requires t == Executed(job, s).(r := Run, w := WHead)
    ensures ClosedShort(job, t, a)
  {
    StillOpen(job, a);
    BeforeTheBlock(job, s, a);
    FinalWaitDrains(job);
    assert ActionOk(job, a + 1);
  }

  lemma ComesShort(job: Job, a: nat) returns (s: State)
    requires WellFormed(job) && Stores(job) && !job.cfg.early && !Safe(job.cfg)
    requires Overtakes(job, a) && job.prog[a].Close?
    ensures Reachable(job, s) && ClosedShort(job, s, a)
  {
    var was;
    was, s := Overtook(job, a);
    ClosesShort(job, was, s, a);
    var steps := CleanlyMeansReachable(job, s);
  }

  // The wake-up that is overdue can also end the wait before a file is closed: a dump that then
  // fails to go on leaves a file without its last block.
  lemma LeavesTruncated(job: Job, a: nat) returns (s: State)
    requires WellFormed(job) && Stores(job) && !job.cfg.early && !Safe(job.cfg)
    requires Overtakes(job, a) && job.prog[a].Close?
    ensures Reachable(job, s) && s.ip == a + 1 < |job.prog| && LeavesFiles(job, s)
    ensures s.out.files != After(job, a + 1).files
  {
    s := ComesShort(job, a);
    s := EndsBetween(job, s);
  }

  // A stop that comes after the reader has ended leaves everything.
  lemma LateStop(job: Job, s: State) returns (t: State)
    requires Reachable(job, s) && ReportsSuccess(s)
    ensures Reachable(job, t) && t.r.Done? && t.w.WDone? && !ReportsSuccess(t) && t.out == s.out
  {
    t := GoOn(job, s, Cancel);
  }
}
