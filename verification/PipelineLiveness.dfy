// Progress of the dump pipeline: every run of every reader is bounded, a run that fails at nothing
// gets stuck only where a block or the output file can be lost, and otherwise ends in success.

module PipelineLiveness {
  import opened Bytes
  import opened Pipeline
  import opened PipelinePrograms
  import opened PipelineSafety

  // -------------------------------------------------------------------------------------------
  // Flags are never lowered

  lemma AdvanceFlags(job: Job, s: State, ok: bool)
    requires s.ip < |job.prog|
    ensures Flagged(s) ==> Flagged(Advance(job, s, ok))
  {
  }

  lemma ProceedFlags(job: Job, s: State, ok: bool)
    requires s.ip < |job.prog|
    ensures Flagged(s) ==> Flagged(Proceed(job, s, ok))
  {
  }

  lemma ReaderFlags(job: Job, s: State, ok: bool)
    requires ReaderStep(job, s, ok).Some? && Flagged(s)
    ensures Flagged(ReaderStep(job, s, ok).value)
  {
    match s.r
    case Run => if s.ip < |job.prog| { AdvanceFlags(job, s, ok); }
    case Ready => ProceedFlags(job, s, ok);
    case Resume => ProceedFlags(job, s, ok);
    case _ =>
  }

  lemma ActFlags(job: Job, s: State, ok: bool, junk: seq<byte>)
    requires Act(job, s, ok, junk).Some? && Flagged(s)
    ensures Flagged(Act(job, s, ok, junk).value)
  {
  }

  lemma WriterFlags(job: Job, s: State, ok: bool, junk: seq<byte>)
    requires WriterStep(job, s, ok, junk).Some? && Flagged(s)
    ensures Flagged(WriterStep(job, s, ok, junk).value)
  {
    if Act(job, s, ok, junk).Some? { ActFlags(job, s, ok, junk); }
  }

  lemma StepFlags(job: Job, s: State, step: Step)
    requires Apply(job, s, step).Some? && !Flagged(Apply(job, s, step).value)
    ensures !Flagged(s) && (step.Reader? || step.Writer?)
  {
    if Flagged(s) {
      if step.Reader? { ReaderFlags(job, s, step.ok); }
      if step.Writer? { WriterFlags(job, s, step.ok, step.junk); }
    }
  }

  // -------------------------------------------------------------------------------------------
  // Stuck states

  predicate Finished(s: State) { s.r.Done? && s.w.WDone? }

  // Neither thread can take a step, whatever the environment chooses.
  ghost predicate Stuck(job: Job, s: State) {
    && !Finished(s)
    && (forall ok :: ReaderStep(job, s, ok).None?) && !s.r.Start?
    && (forall ok, junk :: WriterStep(job, s, ok, junk).None?)
  }

  lemma WriterCanMove(job: Job, s: State)
    requires WellFormed(job) && Inv(job, s) && (s.w.WHead? || s.w.WSleepy? || s.w.WResume? || s.w.WSignal?)
    ensures WriterStep(job, s, true, Zeros(s.size)).Some?
  {
  }

  lemma ReaderCanMove(job: Job, s: State)
    requires WellFormed(job) && Inv(job, s) && MutexFree(s) && !s.r.Blocked? && !s.r.Done?
    ensures ReaderStep(job, s, true).Some?
  {
  }

  // Where a run can stop for good: each thread has ended, or sleeps with no wake-up under way.
  lemma StuckThreads(job: Job, s: State)
    requires WellFormed(job) && Inv(job, s)
    ensures (ReaderStep(job, s, true).None? && WriterStep(job, s, true, Zeros(s.size)).None?)
       <==> (s.r.Blocked? || s.r.Done?) && (s.w.WBlocked? || s.w.WDone?)
    ensures Stuck(job, s) <==> (s.r.Blocked? || s.r.Done?) && (s.w.WBlocked? || s.w.WDone?) && !Finished(s)
  {
    if (s.w.WHead? || s.w.WSleepy? || s.w.WResume? || s.w.WSignal?) {
      WriterCanMove(job, s);
    } else if !s.r.Blocked? && !s.r.Done? {
      ReaderCanMove(job, s);
    }
  }

  // When there is nothing to write, no run of any reader gets stuck.
  lemma NothingToWriteNeverHangs(job: Job, s: State)
    requires WellFormed(job) && Reachable(job, s) && Total(job) == 0
    ensures !Stuck(job, s)
  {
    FromReachable(job, s);
    StuckThreads(job, s);
    DataBounded(job, s.ip);
  }

  // After a failed write only the reader can be asleep, at a drain with a block in the slot.
  lemma FailedWriteHangsAtDrain(job: Job, s: State)
    requires WellFormed(job) && Reachable(job, s) && Stuck(job, s) && s.writeError
    ensures s.r.Blocked? && s.w.WDone? && CanStrand(job)
  {
    FromReachable(job, s);
    StuckThreads(job, s);
  }

  // -------------------------------------------------------------------------------------------
  // Every step decreases a measure

  function ChunksFrom(job: Job, k: nat): nat
    requires k <= |job.prog|
    decreases |job.prog| - k
  {
    if k == |job.prog| then 0 else (if job.prog[k].Chunk? then 1 else 0) + ChunksFrom(job, k + 1)
  }

  lemma {:induction false} ChunksShrink(job: Job, j: nat, k: nat)
    requires j <= k <= |job.prog|
    ensures ChunksFrom(job, k) <= ChunksFrom(job, j)
    decreases k - j
  {
    if j < k { ChunksShrink(job, j + 1, k); }
  }

  function ReaderRank(r: ReaderPc): nat {
    match r
    case Start => 22 case Run => 13 case Ready => 12 case Blocked => 10 case Resume => 11
    case Signal => 21 case Alarm => 9 case End => 1 case Done => 0
  }

  function WriterRank(w: WriterPc): nat {
    match w
    case WHead => 6 case WSleepy => 4 case WBlocked => 2 case WResume => 9 case WSignal => 8 case WDone => 0
  }

  function Rank(s: State): nat {
    ReaderRank(s.r) + WriterRank(s.w) + (if s.writeError then 0 else 5) + (if s.size > 0 then 10 else 0)
  }

  // What is left of the program.
  function Rest(job: Job, k: nat): nat
    requires k <= |job.prog|
  {
    16 * (|job.prog| - k) + 10 * ChunksFrom(job, k)
  }

  function Measure(job: Job, s: State): nat
    requires s.ip <= |job.prog|
  {
    Rest(job, s.ip) + Rank(s)
  }

  lemma RestShrinks(job: Job, j: nat, k: nat)
    requires j < k <= |job.prog|
    ensures Rest(job, k) + (if job.prog[j].Chunk? then 26 else 16) <= Rest(job, j)
  {
    ChunksShrink(job, j + 1, k);
  }

  lemma WakeCosts(s: State)
    ensures Rank(WakeReader(s)) <= Rank(s) + 1
    ensures Rank(WakeWriter(s)) <= Rank(s) + 7
  {
  }

  lemma RankMoves(s: State, t: State)
    ensures s.w == t.w && s.writeError == t.writeError ==>
              Rank(t) - Rank(s) == ReaderRank(t.r) - ReaderRank(s.r)
                                   + (if t.size > 0 then 10 else 0) - (if s.size > 0 then 10 else 0)
    ensures s.r == t.r ==>
              Rank(t) - Rank(s) == WriterRank(t.w) - WriterRank(s.w)
                                   + (if t.size > 0 then 10 else 0) - (if s.size > 0 then 10 else 0)
                                   + (if t.writeError then 0 else 5) - (if s.writeError then 0 else 5)
  {
  }

  // A step of the reader either lowers the rank where it is, or goes on and raises it by less than
  // what that takes from the rest.
  ghost predicate Advances(job: Job, s: State, t: State) {
    && s.ip <= t.ip <= |job.prog|
    && (if t.ip == s.ip then Rank(t) < Rank(s) else Rank(t) < Rank(s) + if job.prog[s.ip].Chunk? then 26 else 16)
  }

  lemma StopsAdvancing(job: Job, s: State, t: State)
    requires s.ip < |job.prog| && s.r.Run? && (t.r.Ready? || t.r.Alarm? || t.r.End?)
    requires t.ip == s.ip && t.w == s.w && t.size == s.size && t.writeError == s.writeError
    ensures Advances(job, s, t)
  {
    RankMoves(s, t);
  }

  lemma GoesOn(job: Job, s: State, t: State)
    requires s.ip < t.ip <= |job.prog| && s.r.Run? && t.r.Run?
    requires t.w == s.w && t.size == s.size && t.writeError == s.writeError
    ensures Advances(job, s, t)
  {
    RankMoves(s, t);
  }

  lemma AtCloseAdvances(job: Job, s: State, ok: bool)
    requires WellFormed(job) && s.r.Run? && s.ip < |job.prog| && job.prog[s.ip].Close?
    ensures Advances(job, s, Advance(job, s, ok))
  {
    if job.cfg.early && s.written >= Total(job) { GoesOn(job, s, s.(ip := |job.prog| - 1, skipped := true)); }
    else if s.cancelled { StopsAdvancing(job, s, s.(r := Alarm)); }
    else if job.cfg.usb { GoesOn(job, s, s.(ip := s.ip + 1)); }
    else { StopsAdvancing(job, s, s.(r := Ready)); }
  }

  lemma AtOpenAdvances(job: Job, s: State, ok: bool)
    requires s.r.Run? && s.ip < |job.prog| && job.prog[s.ip].Open?
    ensures Advances(job, s, Advance(job, s, ok))
  {
    if !ok { StopsAdvancing(job, s, s.(readError := true, r := Alarm)); }
    else if job.cfg.usb { StopsAdvancing(job, s, s.(r := Ready)); }
    else { GoesOn(job, s, s.(out := Effect(job.cfg, s.out, job.prog[s.ip]), ip := s.ip + 1)); }
  }

  lemma AtChunkAdvances(job: Job, s: State, ok: bool)
    requires s.buf1 < |s.bufs| && s.r.Run? && s.ip < |job.prog| && job.prog[s.ip].Chunk?
    ensures Advances(job, s, Advance(job, s, ok))
  {
    StopsAdvancing(job, s, Advance(job, s, ok));
  }

  lemma AtTestAdvances(job: Job, s: State, ok: bool)
    requires s.r.Run? && s.ip < |job.prog| && (job.prog[s.ip].Check? || job.prog[s.ip].Drain?)
    ensures Advances(job, s, Advance(job, s, ok))
  {
    if Flagged(s) { StopsAdvancing(job, s, s.(r := End)); }
    else if job.prog[s.ip].Check? { GoesOn(job, s, s.(ip := s.ip + 1)); }
    else { StopsAdvancing(job, s, s.(r := Ready)); }
  }

  lemma AtCallAdvances(job: Job, s: State, ok: bool)
    requires WellFormed(job) && Shape(job, s) && s.r.Run? && s.ip < |job.prog|
    requires job.prog[s.ip].Enter? || job.prog[s.ip].Leave?
    ensures Advances(job, s, Advance(job, s, ok))
  {
    assert ActionOk(job, s.ip);
    if job.prog[s.ip].Enter? && !ok { StopsAdvancing(job, s, s.(readError := true, r := Alarm)); }
    else { GoesOn(job, s, Advance(job, s, ok)); }
  }

  lemma AdvanceAdvances(job: Job, s: State, ok: bool)
    requires WellFormed(job) && Shape(job, s) && s.r.Run? && s.ip < |job.prog|
    ensures Advances(job, s, Advance(job, s, ok))
  {
    match job.prog[s.ip]
    case Close => AtCloseAdvances(job, s, ok);
    case Open(_) => AtOpenAdvances(job, s, ok);
    case Chunk(_) => AtChunkAdvances(job, s, ok);
    case Check => AtTestAdvances(job, s, ok);
    case Drain => AtTestAdvances(job, s, ok);
    case Enter => AtCallAdvances(job, s, ok);
    case Leave => AtCallAdvances(job, s, ok);
  }

  lemma LeavesWait(job: Job, s: State, t: State)
    requires s.ip < |job.prog| && (s.r.Ready? || s.r.Resume?)
    requires if t.r.Run? then t.ip == s.ip + 1 else t.ip == s.ip && (t.r.Alarm? || t.r.End?)
    requires t.w == s.w && t.size == s.size && t.writeError == s.writeError
    ensures Advances(job, s, t)
  {
    RankMoves(s, t);
  }

  lemma Publishes(job: Job, s: State, t: State)
    requires s.ip < |job.prog| && (s.r.Ready? || s.r.Resume?) && job.prog[s.ip].Chunk?
    requires t.ip == s.ip + 1 && (t.r.Run? || t.r.Signal?) && t.w == s.w && t.writeError == s.writeError
    ensures Advances(job, s, t)
    ensures t.r.Run? ==> Advances(job, s, WakeWriter(t))
  {
    RankMoves(s, t);
    WakeCosts(t);
  }

  lemma PublishAdvances(job: Job, s: State, ok: bool)
    requires s.ip < |job.prog| && (s.r.Ready? || s.r.Resume?) && job.prog[s.ip].Chunk? && !s.writeError
    ensures Advances(job, s, Proceed(job, s, ok))
  {
    var t := Published(job, s);
    if job.cfg.atomicWake { Publishes(job, s, t.(r := Run)); } else { Publishes(job, s, t); }
  }

  lemma PassAdvances(job: Job, s: State, ok: bool)
    requires s.ip < |job.prog| && (s.r.Ready? || s.r.Resume?) && (!job.prog[s.ip].Chunk? || s.writeError)
    ensures Advances(job, s, Proceed(job, s, ok))
  {
    var a := job.prog[s.ip];
    if s.writeError && !a.Drain? {
      LeavesWait(job, s, s.(r := End));
    } else if a.Open? && (!ok || (job.cfg.usb && s.written != |DataTo(job, s.ip)|)) {
      LeavesWait(job, s, s.(readError := true, r := Alarm));
    } else {
      LeavesWait(job, s, s.(out := Effect(job.cfg, s.out, a), ip := s.ip + 1, r := Run));
    }
  }

  lemma ProceedAdvances(job: Job, s: State, ok: bool)
    requires s.ip < |job.prog| && (s.r.Ready? || s.r.Resume?)
    ensures Advances(job, s, Proceed(job, s, ok))
  {
    if job.prog[s.ip].Chunk? && !s.writeError { PublishAdvances(job, s, ok); } else { PassAdvances(job, s, ok); }
  }

  lemma WaitAdvances(job: Job, s: State)
    requires s.ip < |job.prog| && (s.r.Ready? || s.r.Resume?)
    ensures Advances(job, s, s.(r := Blocked))
  {
  }

  lemma EndsAdvance(job: Job, s: State, ok: bool)
    requires s.ip <= |job.prog| && (s.r.Start? || s.r.Signal? || s.r.Alarm?)
    ensures Advances(job, s, ReaderStep(job, s, ok).value)
  {
    match s.r
    case Start =>
    case Signal => WakeCosts(s.(r := Run));
    case Alarm => WakeCosts(s.(r := End));
  }

  lemma FinishAdvances(job: Job, s: State)
    requires s.ip <= |job.prog| && s.r.End?
    ensures Advances(job, s, Finish(job, s))
  {
    RankMoves(s, Finish(job, s));
  }

  lemma StopAdvances(job: Job, s: State)
    requires s.ip <= |job.prog| && s.r.Run?
    ensures Advances(job, s, s.(r := End))
  {
    RankMoves(s, s.(r := End));
  }

  lemma ReaderAdvances(job: Job, s: State, ok: bool)
    requires WellFormed(job) && Shape(job, s) && ReaderStep(job, s, ok).Some?
    ensures Advances(job, s, ReaderStep(job, s, ok).value)
  {
    match s.r
    case Run => if s.ip < |job.prog| { AdvanceAdvances(job, s, ok); } else { StopAdvances(job, s); }
    case End => FinishAdvances(job, s);
    case Ready => if MustWait(job.prog[s.ip], s) { WaitAdvances(job, s); } else { ProceedAdvances(job, s, ok); }
    case Resume =>
      if job.cfg.recheck && MustWait(job.prog[s.ip], s) { WaitAdvances(job, s); } else { ProceedAdvances(job, s, ok); }
    case _ => EndsAdvance(job, s, ok);
  }

  lemma ReaderDecreases(job: Job, s: State, ok: bool)
    requires WellFormed(job) && Shape(job, s) && ReaderStep(job, s, ok).Some?
    ensures var t := ReaderStep(job, s, ok).value;
            t.ip <= |job.prog| && Measure(job, t) < Measure(job, s)
  {
    ReaderAdvances(job, s, ok);
    var t := ReaderStep(job, s, ok).value;
    if t.ip > s.ip { RestShrinks(job, s.ip, t.ip); }
  }

  lemma WriterDecreases(job: Job, s: State, ok: bool, junk: seq<byte>)
    requires (s.writeError ==> (s.w.WSignal? || s.w.WDone?)) && WriterStep(job, s, ok, junk).Some?
    ensures var t := WriterStep(job, s, ok, junk).value;
            t.ip == s.ip && Rank(t) < Rank(s)
  {
    var t := WriterStep(job, s, ok, junk).value;
    match s.w
    case WHead =>
      if s.written >= Total(job) || (s.size == 0 && !s.readError) { } else { ActDecreases(job, s, ok, junk); }
    case WSleepy =>
    case WResume =>
      if job.cfg.recheck && s.size == 0 && !s.readError { } else { ActDecreases(job, s, ok, junk); }
    case WSignal => WakeCosts(s.(w := if s.writeError then WDone else WHead));
  }

  lemma FailDecreases(job: Job, s: State, ok: bool, junk: seq<byte>)
    requires (s.w.WHead? || s.w.WResume?) && !s.writeError && Act(job, s, ok, junk).Some?
    requires if s.size == 0 then job.cfg.usb else !ok
    ensures Rank(Act(job, s, ok, junk).value) < Rank(s)
  {
    WakeCosts(s.(writeError := true, w := WDone));
  }

  lemma Writes(s: State, t: State)
    requires (s.w.WHead? && s.size > 0) || s.w.WResume?
    requires t.r == s.r && t.size == 0 && t.writeError == s.writeError && (t.w.WSignal? || t.w.WHead?)
    ensures Rank(t) < Rank(s) && (t.w.WHead? ==> Rank(WakeReader(t)) < Rank(s))
  {
    RankMoves(s, t);
    WakeCosts(t);
  }

  lemma WriteDecreases(job: Job, s: State, ok: bool, junk: seq<byte>)
    requires (s.w.WHead? || s.w.WResume?) && !s.writeError && Act(job, s, ok, junk).Some?
    requires !(if s.size == 0 then job.cfg.usb else !ok) && (s.w.WHead? ==> s.size > 0 || s.readError)
    ensures Rank(Act(job, s, ok, junk).value) < Rank(s)
  {
    var t := Act(job, s, ok, junk).value;
    if !t.w.WDone? {
      Writes(s, t.(r := s.r));
    }
  }

  lemma ActDecreases(job: Job, s: State, ok: bool, junk: seq<byte>)
    requires (s.w.WHead? || s.w.WResume?) && !s.writeError && Act(job, s, ok, junk).Some?
    requires s.w.WHead? ==> s.size > 0 || s.readError
    ensures var t := Act(job, s, ok, junk).value;
            t.ip == s.ip && Rank(t) < Rank(s)
  {
    if if s.size == 0 then job.cfg.usb else !ok {
      FailDecreases(job, s, ok, junk);
    } else {
      WriteDecreases(job, s, ok, junk);
    }
  }

  // How often a run is cancelled.
  function Cancels(steps: seq<Step>): nat {
    if steps == [] then 0 else Cancels(steps[..|steps| - 1]) + (if steps[|steps| - 1].Cancel? then 1 else 0)
  }

  // Neither thread ever spins: whatever the synchronisation and whatever fails, the two threads
  // take a bounded number of steps.
  lemma {:induction false} RunsAreBounded(job: Job, steps: seq<Step>)
    requires WellFormed(job) && Exec(job, steps).Some?
    ensures var s := Exec(job, steps).value;
            s.ip <= |job.prog| && |steps| + Measure(job, s) <= Measure(job, Initial(job)) + Cancels(steps)
  {
    if steps != [] {
      var before := steps[..|steps| - 1];
      RunsAreBounded(job, before);
      ReachableInv(job, before);
      var s := Exec(job, before).value;
      match steps[|steps| - 1]
      case Reader(ok) => ReaderDecreases(job, s, ok);
      case Writer(ok, junk) => WriterDecreases(job, s, ok, junk);
      case ReaderGivesUp => Forsaken(s);
      case Cancel => RankMoves(s, s.(cancelled := true));
    }
  }

  lemma Forsaken(s: State)
    requires s.r.Start?
    ensures Rank(s.(readError := true, r := End)) < Rank(s)
  {
  }

  // -------------------------------------------------------------------------------------------
  // Runs without failures

  predicate CleanStep(step: Step) {
    (step.Reader? && step.ok) || (step.Writer? && step.ok)
  }

  predicate Clean(steps: seq<Step>) {
    steps == [] || (CleanStep(steps[|steps| - 1]) && Clean(steps[..|steps| - 1]))
  }

  // There is something to dump; and the synchronisation is safe, or there are too few blocks for any
  // stray wake-up to matter.
  predicate Reliable(job: Job) {
    && Total(job) > 0
    && (Safe(job.cfg) || Chunks(job, |job.prog|) <= if job.cfg.closes || job.cfg.usb then 1 else 2)
  }

  lemma CleanAdvance(job: Job, s: State)
    requires s.ip < |job.prog| && !Flagged(s)
    ensures !Flagged(Advance(job, s, true))
  {
  }

  lemma CleanProceed(job: Job, s: State)
    requires WellFormed(job) && Reliable(job) && Inv(job, s) && !Flagged(s) && (s.r.Ready? || s.r.Resume?)
    requires !MustWait(job.prog[s.ip], s) || (s.r.Resume? && !job.cfg.recheck)
    ensures !Flagged(Proceed(job, s, true))
  {
    GuardedNoLoss(job);
    if s.size > 0 { GuardedNeverOvertakes(job, s.ip); }
  }

  lemma ReliableReader(job: Job, s: State)
    requires WellFormed(job) && Reliable(job) && Inv(job, s) && !Flagged(s) && ReaderStep(job, s, true).Some?
    ensures !Flagged(ReaderStep(job, s, true).value)
  {
    match s.r
    case Run => if s.ip < |job.prog| { CleanAdvance(job, s); }
    case Ready => if !MustWait(job.prog[s.ip], s) { CleanProceed(job, s); }
    case Resume => if !MustWait(job.prog[s.ip], s) || !job.cfg.recheck { CleanProceed(job, s); }
    case _ =>
  }

  lemma ReliableWriter(job: Job, s: State, junk: seq<byte>)
    requires WellFormed(job) && Reliable(job) && Inv(job, s) && !Flagged(s) && WriterStep(job, s, true, junk).Some?
    ensures !Flagged(WriterStep(job, s, true, junk).value)
  {
    if s.w.WResume? && s.size == 0 && job.cfg.usb && !job.cfg.recheck {
      StaleWake(job, s);
    }
  }

  lemma {:induction false} ReliableStaysUnflagged(job: Job, steps: seq<Step>)
    requires WellFormed(job) && Reliable(job) && Clean(steps) && Exec(job, steps).Some?
    ensures !Flagged(Exec(job, steps).value)
  {
    if steps != [] {
      var before := steps[..|steps| - 1];
      ReliableStaysUnflagged(job, before);
      ReachableInv(job, before);
      var s := Exec(job, before).value;
      var step := steps[|steps| - 1];
      if step.Reader? { ReliableReader(job, s); } else { ReliableWriter(job, s, step.junk); }
    }
  }

  // A dump that nothing failed in, which can no longer succeed: something has been flagged all the
  // same, a block has been lost, or the writer has left with bytes missing.
  predicate Derailed(job: Job, s: State) {
    Flagged(s) || LostData(job, s) || (s.w.WDone? && s.written < Total(job))
  }

  // Every clean run of a reliable dump stays on track, is finite, and can be continued until both
  // threads are done; then the dump is reported as successful with all of its data written.
  lemma CleanRunsComplete(job: Job, steps: seq<Step>)
    requires WellFormed(job) && Reliable(job) && Clean(steps) && Exec(job, steps).Some?
    ensures |steps| <= Measure(job, Initial(job))
    ensures var s := Exec(job, steps).value;
            && !Derailed(job, s)
            && (if Finished(s) then ReportsSuccess(s) && s.written == Total(job)
                else exists step :: CleanStep(step) && Apply(job, s, step).Some?)
  {
    RunsAreBounded(job, steps);
    CleanNeverCancels(steps);
    ReliableStaysUnflagged(job, steps);
    ReachableInv(job, steps);
    GuardedNoLoss(job);
    var s := Exec(job, steps).value;
    DataBounded(job, s.ip);
    if !Finished(s) {
      StuckThreads(job, s);
      if Apply(job, s, Reader(true)).Some? {
        assert CleanStep(Reader(true));
      } else {
        assert CleanStep(Writer(true, Zeros(s.size)));
      }
    }
  }

  lemma {:induction false} CleanNeverCancels(steps: seq<Step>)
    requires Clean(steps)
    ensures Cancels(steps) == 0
  {
    if steps != [] {
      CleanNeverCancels(steps[..|steps| - 1]);
    }
  }
}
