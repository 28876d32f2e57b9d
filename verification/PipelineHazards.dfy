// What the code as written allows: its waits are guarded by `if`, it wakes the other thread after
// it has released the mutex, its raw readers free both buffers without waiting for the last block,
// and its error paths signal without holding the mutex. For each hazard, the jobs that are exposed
// to it are given exactly.

module PipelineHazards {
  import opened Bytes
  import opened Pipeline
  import opened PipelinePrograms
  import opened PipelineSafety
  import opened PipelineLiveness
  import opened PipelineRuns

  // The code's own synchronisation, writing to an SD card or UMS device.
  const AS_WRITTEN := Config(false, false, false, false, false)

  // A whole image dumped block by block into one file that is already open.
  function RawJob(cfg: Config, blocks: seq<seq<byte>>): Job {
    Job(cfg, seq(|blocks|, i requires 0 <= i < |blocks| => Chunk(blocks[i])), Output(Some(0), map[0 := []]))
  }

  lemma RawWellFormed(cfg: Config, blocks: seq<seq<byte>>)
    requires NonEmptyBlocks(blocks) && !cfg.early && !cfg.closes
    ensures WellFormed(RawJob(cfg, blocks)) && Plain(RawJob(cfg, blocks))
    ensures Chunks(RawJob(cfg, blocks), |blocks|) == |blocks|
  {
    var job := RawJob(cfg, blocks);
    forall k | 0 <= k <= |job.prog|
      ensures After(job, k).cur == Some(0)
    {
      RawCur(cfg, blocks, k);
    }
    PlainNeverPasses(job, |blocks|);
  }

  lemma {:induction false} RawCur(cfg: Config, blocks: seq<seq<byte>>, k: nat)
    requires k <= |blocks|
    ensures After(RawJob(cfg, blocks), k).cur == Some(0)
  {
    if k > 0 { RawCur(cfg, blocks, k - 1); }
  }

  // -------------------------------------------------------------------------------------------
  // A lost block

  // A block has just been published over one that was never written.
  ghost predicate JustLost(job: Job, s: State) {
    && LostData(job, s) && s.written + s.size < Total(job) && s.size > 0 && !Flagged(s) && !s.skipped
    && s.r.Signal? && s.w.WHead? && 0 < s.ip <= |job.prog| && job.prog[s.ip - 1].Chunk?
  }

  lemma FedOver(job: Job, s: State, a: nat)
    requires WellFormed(job) && Trails(job, s, a) && job.prog[a].Chunk? && s.buf1 < |s.bufs|
    ensures JustLost(job, Fed(job, s).(r := Signal, w := WHead)) && Fed(job, s).ip == a + 1
  {
    LastChunkEnds(job, a);
    MoreToWrite(job, a);
    assert ActionOk(job, a);
  }

  // The writer consumes a block and releases the mutex; the reader publishes the next one and
  // waits with the one behind it; the overdue wake-up then lets it overwrite the one in between.
  lemma LosingRun(job: Job, a: nat) returns (t: State)
    requires WellFormed(job) && !Safe(job.cfg) && Overtakes(job, a) && job.prog[a].Chunk?
    ensures CleanlyReachable(job, t) && JustLost(job, t) && t.ip == a + 1
  {
    var s;
    s, t := Overtook(job, a);
    FedOver(job, s, a);
  }

  // A block can be lost exactly when a block waits right behind one that is not the first.
  lemma LosesDataIff(job: Job)
    requires WellFormed(job)
    ensures (exists s :: Reachable(job, s) && LostData(job, s)) <==> !NoLoss(job)
  {
    if !NoLoss(job) {
      var a: nat :| Overtakes(job, a) && job.prog[a].Chunk?;
      var s := LosingRun(job, a);
      var steps := CleanlyMeansReachable(job, s);
    } else {
      forall s | Reachable(job, s)
        ensures !LostData(job, s)
      {
        WrittenIsBlockPrefix(job, s);
      }
    }
  }

  lemma RawNoLoss(cfg: Config, blocks: seq<seq<byte>>)
    ensures NoLoss(RawJob(cfg, blocks)) <==> Safe(cfg) || |blocks| < 3
    ensures |blocks| >= 3 ==> Overtakes(RawJob(cfg, blocks), 2)
  {
    var job := RawJob(cfg, blocks);
    forall a: nat | a <= |blocks|
      ensures Passed(job, a) == 0 && Chunks(job, a) == a
    {
      PlainNeverPasses(job, a);
    }
    if |blocks| >= 3 {
      assert Overtakes(job, 2) && job.prog[2].Chunk?;
    }
  }

  // As written, a raw dump can lose a block exactly when it has three or more.
  lemma LosesDataIffThreeBlocks(cfg: Config, blocks: seq<seq<byte>>)
    requires NonEmptyBlocks(blocks) && !cfg.early && !cfg.closes
    ensures (exists s :: Reachable(RawJob(cfg, blocks), s) && LostData(RawJob(cfg, blocks), s))
       <==> !Safe(cfg) && |blocks| >= 3
  {
    RawWellFormed(cfg, blocks);
    RawNoLoss(cfg, blocks);
    LosesDataIff(RawJob(cfg, blocks));
  }

  lemma WakesUp(job: Job, s: State) returns (t: State)
    requires CleanlyReachable(job, s) && s.r.Signal? && s.w.WHead?
    ensures CleanlyReachable(job, t) && t == s.(r := Run)
  {
    t := Go(job, s, Reader(true));
  }

  // The lost block stays behind, and the threads take turns again.
  lemma CalmAfterLoss(job: Job, s: State) returns (t: State)
    requires WellFormed(job) && CleanlyReachable(job, s) && JustLost(job, s)
    ensures CleanlyReachable(job, t) && Calm(job, t) && t.ip == s.ip && t.written < |DataTo(job, t.ip)|
  {
    Knows(job, s);
    assert ActionOk(job, s.ip - 1);
    t := WakesUp(job, s);
    t := Eat(job, t);
  }

  lemma ReaderEnds(job: Job, s: State) returns (t: State)
    requires CleanlyReachable(job, s) && s.r.Run? && s.ip == |job.prog|
    ensures CleanlyReachable(job, t) && t == Finish(job, s.(r := End))
  {
    t := Go(job, s, Reader(true));
    t := Go(job, t, Reader(true));
  }

  lemma FallsAsleep(job: Job, s: State) returns (t: State)
    requires CleanlyReachable(job, s) && s.w.WHead? && s.written < Total(job) && s.size == 0 && !s.readError
    ensures CleanlyReachable(job, t) && t == s.(w := WBlocked)
  {
    t := Go(job, s, Writer(true, []));
    t := Go(job, t, Writer(true, []));
  }

  // -------------------------------------------------------------------------------------------
  // Lost wake-ups

  // An alarm that finds the writer asleep ends it: at its next step it leaves, unless it tests its
  // guard again, which does not look at cancellations.
  lemma AlarmEndsSleeper(job: Job, s: State, ok: bool, junk: seq<byte>)
    requires WellFormed(job) && Reachable(job, s) && s.r.Alarm? && s.w.WBlocked?
    ensures Apply(job, s, Reader(true)) == Some(s.(r := End, w := WResume))
    ensures Apply(job, s.(r := End, w := WResume), Writer(ok, junk))
         == Some(s.(r := End, w := if job.cfg.recheck && s.size == 0 && !s.readError then WSleepy else WDone))
  {
    FromReachable(job, s);
  }

  // Any dump of at least one byte can hang when its reader fails before the loop, and no other dump
  // can hang at all.
  lemma ReadErrorHangsIff(job: Job)
    requires WellFormed(job)
    ensures (exists s :: Reachable(job, s) && Stuck(job, s) && s.readError && !s.writeError && !s.cancelled)
       <==> Total(job) > 0
  {
    if Total(job) > 0 {
      var s := ReadErrorHangs(job);
    } else {
      forall s | Reachable(job, s)
        ensures !Stuck(job, s)
      {
        NothingToWriteNeverHangs(job, s);
      }
    }
  }

  lemma Initially(job: Job)
    ensures Reachable(job, Initial(job))
  {
    assert Exec(job, []) == Some(Initial(job));
  }

  // The writer has tested its guard and not yet joined the queue when the reader signals.
  lemma ReadErrorSteps(job: Job)
    requires Total(job) > 0
    ensures var i := Initial(job);
            var a := i.(w := WSleepy, readError := true, r := Alarm);
            var e := Finish(job, a.(r := End));
            && Apply(job, i, Writer(true, [])) == Some(i.(w := WSleepy))
            && Apply(job, i.(w := WSleepy), Reader(false)) == Some(a)
            && Apply(job, a, Reader(true)) == Some(a.(r := End))
            && Apply(job, a.(r := End), Reader(true)) == Some(e)
            && Apply(job, e, Writer(true, [])) == Some(e.(w := WBlocked))
            && Stuck(job, e.(w := WBlocked))
  {
  }

  lemma ReadErrorHangs(job: Job) returns (s: State)
    requires Total(job) > 0
    ensures Reachable(job, s) && Stuck(job, s) && s.readError && !s.writeError && !s.cancelled
  {
    ReadErrorSteps(job);
    Initially(job);
    s := GoOn(job, Initial(job), Writer(true, []));
    s := GoOn(job, s, Reader(false));
    s := GoOn(job, s, Reader(true));
    s := GoOn(job, s, Reader(true));
    s := GoOn(job, s, Writer(true, []));
  }

  // The same for a cancellation: the writer's wait guard does not look at the flag.
  lemma CancelHangsIff(job: Job)
    requires WellFormed(job)
    ensures (exists s :: Reachable(job, s) && Stuck(job, s) && s.cancelled && !s.readError && !s.writeError)
       <==> Total(job) > 0
  {
    if Total(job) > 0 {
      var s := CancelHangs(job);
    } else {
      forall s | Reachable(job, s)
        ensures !Stuck(job, s)
      {
        NothingToWriteNeverHangs(job, s);
      }
    }
  }

  lemma CancelHangs(job: Job) returns (s: State)
    requires WellFormed(job) && Total(job) > 0
    ensures Reachable(job, s) && Stuck(job, s) && s.cancelled && !s.readError && !s.writeError
  {
    s := Initial(job);
    Initially(job);
    s := GoOn(job, s, Cancel);
    s := GoOn(job, s, Reader(true));
    s := CancelledReaderEnds(job, s);
    s := WriterFallsAsleep(job, s);
  }

  // A cancelled reader at its first actions.
  ghost predicate Cancelled(job: Job, s: State) {
    && s.ip <= |job.prog| && s.w.WHead? && s.size == 0 && s.written == 0
    && s.cancelled && !s.readError && !s.writeError
  }

  // It enters the calls it starts with, and leaves at the first test of the flag.
  lemma CancelledReaderEnds(job: Job, s: State) returns (t: State)
    requires WellFormed(job) && Reachable(job, s) && Cancelled(job, s) && s.r.Run? && Total(job) > 0
    requires Calls(job, s.ip)
    ensures Reachable(job, t) && Cancelled(job, t) && t.r.Done?
    decreases |job.prog| - s.ip
  {
    if s.ip < |job.prog| && job.prog[s.ip].Enter? {
      CancelledCall(job, s);
      t := GoOn(job, s, Reader(true));
      t := CancelledReaderEnds(job, t);
    } else {
      t := CancelledReaderStops(job, s);
    }
  }

  // The first k actions are calls.
  predicate Calls(job: Job, k: nat) {
    k <= |job.prog| && forall i :: 0 <= i < k ==> job.prog[i].Enter?
  }

  lemma CancelledCall(job: Job, s: State)
    requires Cancelled(job, s) && s.r.Run? && Calls(job, s.ip) && s.ip < |job.prog| && job.prog[s.ip].Enter?
    ensures var t := Apply(job, s, Reader(true));
            t.Some? && Cancelled(job, t.value) && t.value.r.Run? && t.value.ip == s.ip + 1 && Calls(job, s.ip + 1)
  {
  }

  lemma CancelledStep(job: Job, s: State)
    requires WellFormed(job) && Cancelled(job, s) && s.r.Run? && Total(job) > 0
    requires Calls(job, s.ip) && (s.ip < |job.prog| ==> !job.prog[s.ip].Enter?)
    ensures Apply(job, s, Reader(true)) == Some(s.(r := End))
            || (Apply(job, s, Reader(true)) == Some(s.(r := Alarm))
                && Apply(job, s.(r := Alarm), Reader(true)) == Some(s.(r := End)))
    ensures var t := Apply(job, s.(r := End), Reader(true));
            t.Some? && Cancelled(job, t.value) && t.value.r.Done?
  {
    if s.ip < |job.prog| { assert ActionOk(job, s.ip); }
  }

  lemma CancelledReaderStops(job: Job, s: State) returns (t: State)
    requires WellFormed(job) && Reachable(job, s) && Cancelled(job, s) && s.r.Run? && Total(job) > 0
    requires Calls(job, s.ip) && (s.ip < |job.prog| ==> !job.prog[s.ip].Enter?)
    ensures Reachable(job, t) && Cancelled(job, t) && t.r.Done?
  {
    CancelledStep(job, s);
    t := GoOn(job, s, Reader(true));
    if t.r.Alarm? { t := GoOn(job, t, Reader(true)); }
    t := GoOn(job, t, Reader(true));
  }

  lemma WriterFallsAsleep(job: Job, s: State) returns (t: State)
    requires Reachable(job, s) && Cancelled(job, s) && s.r.Done? && Total(job) > 0
    ensures Reachable(job, t) && t == s.(w := WBlocked) && Stuck(job, t)
  {
    t := GoOn(job, s, Writer(true, []));
    assert t == s.(w := WSleepy);
    t := GoOn(job, t, Writer(true, []));
  }

  // -------------------------------------------------------------------------------------------
  // A failed write

  // The reader is about to test a drain's guard while the writer has a block to write.
  ghost predicate AtDrain(job: Job, s: State) {
    && s.ip < |job.prog| && job.prog[s.ip].Drain? && s.r.Run? && s.w.WHead? && s.size > 0 && !Flagged(s)
    && s.written < Total(job) && (job.cfg.usb || s.out.cur.Some?)
  }

  lemma DrainSteps(job: Job, s: State)
    requires AtDrain(job, s)
    ensures var t := s.(r := Ready);
            && Apply(job, s, Reader(true)) == Some(t)
            && Apply(job, t, Writer(false, []))
               == Some(t.(writeError := true, w := if job.cfg.atomicWake then WDone else WSignal))
            && Apply(job, t.(writeError := true, w := WSignal), Writer(false, [])) == Some(t.(writeError := true, w := WDone))
            && Apply(job, t.(writeError := true, w := WDone), Reader(true))
               == Some(t.(writeError := true, w := WDone, r := Blocked))
  {
  }

  // The write fails, its only wake-up is sent, and only then the reader goes to sleep.
  lemma StrandedRun(job: Job, s: State) returns (t: State)
    requires CleanlyReachable(job, s) && AtDrain(job, s)
    ensures Reachable(job, t) && Stuck(job, t) && t.writeError && !t.readError && !t.cancelled
  {
    var steps := CleanlyMeansReachable(job, s);
    DrainSteps(job, s);
    t := GoOn(job, s, Reader(true));
    t := GoOn(job, t, Writer(false, []));
    if !job.cfg.atomicWake { t := GoOn(job, t, Writer(false, [])); }
    t := GoOn(job, t, Reader(true));
  }

  // The block in the slot was published right before the drain.
  lemma RightBehind(job: Job, a: nat) returns (s: State)
    requires WellFormed(job) && Strands(job, a) && Passed(job, a) == 0
    ensures CleanlyReachable(job, s) && AtDrain(job, s)
  {
    var c := LastChunk(job, a);
    MoreToWrite(job, c);
    s := Sequential(job, c);
    Knows(job, s);
    s := Feed(job, s);
    BehindDrifts(job, s, a);
    s := Drift(job, s, a);
    Knows(job, s);
    StillOpen(job, a);
  }

  lemma BehindDrifts(job: Job, s: State, a: nat)
    requires WellFormed(job) && Strands(job, a) && Passed(job, a) == 0 && s.ip == LastChunk(job, a) + 1
    requires s.r.Run? && s.w.WHead? && !Flagged(s) && s.size == |job.prog[s.ip - 1].data| && s.written < Total(job)
    ensures s.size > 0 && CanDrift(job, s, a)
  {
    assert ActionOk(job, s.ip - 1);
  }

  // The wait that has been passed since the last block.
  lemma {:induction false} PassedAt(job: Job, a: nat) returns (b: nat)
    requires a <= |job.prog| && Chunks(job, a) >= 2 && Passed(job, a) == 1
    ensures Overtakes(job, b) && LastChunk(job, a) < b < a && Passed(job, b + 1) == 1
    ensures !job.prog[b].Chunk? && LastChunk(job, b) == LastChunk(job, a)
  {
    if Waits(job.cfg, job.prog[a - 1]) { b := a - 1; } else { b := PassedAt(job, a - 1); }
  }

  // An overdue wake-up has led the reader past one wait, to the drain at the end of another file.
  lemma OneWaitFurther(job: Job, a: nat) returns (s: State)
    requires WellFormed(job) && Strands(job, a) && Passed(job, a) == 1
    ensures CleanlyReachable(job, s) && AtDrain(job, s)
  {
    var b := PassedAt(job, a);
    var r;
    r, s := Overtook(job, b);
    assert CanDrift(job, s, a);
    s := Drift(job, s, a);
    Knows(job, s);
  }

  // A dump can hang after nothing but a failed write exactly when it has a drain at which the
  // failed block may be waited for: that wait does not look at write_error.
  lemma WriteErrorHangsIff(job: Job)
    requires WellFormed(job)
    ensures (exists s :: Reachable(job, s) && Stuck(job, s) && s.writeError && !s.readError && !s.cancelled)
       <==> CanStrand(job)
  {
    if CanStrand(job) {
      var a: nat :| Strands(job, a);
      var s;
      if Passed(job, a) == 0 { s := RightBehind(job, a); } else { s := OneWaitFurther(job, a); }
      s := StrandedRun(job, s);
    } else {
      forall s | Reachable(job, s) && Stuck(job, s)
        ensures !s.writeError
      {
        if s.writeError { FailedWriteHangsAtDrain(job, s); }
      }
    }
  }

  // A raw dump never hangs after a failed write.
  lemma RawDumpNeverStrands(cfg: Config, blocks: seq<seq<byte>>, s: State)
    requires NonEmptyBlocks(blocks) && !cfg.early && !cfg.closes
    requires Reachable(RawJob(cfg, blocks), s) && s.writeError
    ensures !Stuck(RawJob(cfg, blocks), s)
  {
    RawWellFormed(cfg, blocks);
    if Stuck(RawJob(cfg, blocks), s) { FailedWriteHangsAtDrain(RawJob(cfg, blocks), s); }
  }

  // -------------------------------------------------------------------------------------------
  // Freed blocks

  // A raw reader has ended while the last block is still in the slot.
  lemma ReaderGone(job: Job) returns (s: State)
    requires WellFormed(job) && !job.cfg.early && !job.cfg.closes && |job.prog| > 0
    ensures CleanlyReachable(job, s) && !Flagged(s) && s.r.Done? && s.freed && s.w.WHead? && s.out.cur.Some?
    ensures s.log == DataTo(job, |job.prog| - 1) && s.written == |s.log| < Total(job)
    ensures s.size == |job.prog[|job.prog| - 1].data| > 0 && s.data < |s.bufs| && s.size <= |s.bufs[s.data]|
  {
    var n := |job.prog|;
    assert job.prog[n - 1].Chunk?;
    MoreToWrite(job, n - 1);
    s := Sequential(job, n - 1);
    Knows(job, s);
    assert ActionOk(job, n - 1);
    s := Feed(job, s);
    s := ReaderEnds(job, s);
  }

  // A raw reader frees its buffers right after publishing the last block. Under every kind of
  // synchronisation, a dump reported as successful may then end in anything at all.
  lemma RawDumpMayEndInGarbage(job: Job, junk: seq<byte>)
    requires WellFormed(job) && !job.cfg.early && !job.cfg.closes
    requires |job.prog| > 0 && |junk| == |job.prog[|job.prog| - 1].data|
    ensures exists s :: Reachable(job, s) && ReportsSuccess(s) && s.log == DataTo(job, |job.prog| - 1) + junk
  {
    assert job.prog[|job.prog| - 1].Chunk?;
    var s := ReaderGone(job);
    s := Go(job, s, Writer(true, junk));
    if !job.cfg.atomicWake { s := Go(job, s, Writer(true, junk)); }
    assert s.written == |DataTo(job, |job.prog|)| && s.w.WHead?;
    s := Go(job, s, Writer(true, []));
    var steps := CleanlyMeansReachable(job, s);
  }
}
