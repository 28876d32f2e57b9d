// Which dumps can hang although nothing fails, for every reader and every synchronisation.

module PipelineHangs {
  import opened Bytes
  import opened Pipeline
  import opened PipelinePrograms
  import opened PipelineSafety
  import opened PipelineLiveness
  import opened PipelineRuns
  import opened PipelineHazards
  import opened PipelineLies

  // The only blocks of the dump are two in a row, and nothing but the final wait follows.
  predicate OnlyPair(job: Job) {
    && Chunks(job, |job.prog|) == 2 && Overtakes(job, FinalWait(job))
    && (var c := LastChunk(job, |job.prog|); c > 0 && job.prog[c - 1].Chunk?)
  }

  // A block of the file that is opened last can be overwritten.
  ghost predicate LosesAtEnd(job: Job) {
    exists a: nat :: Overtakes(job, a) && job.prog[a].Chunk? && NoOpen(job, a, |job.prog|)
  }

  ghost predicate Hangs(job: Job) {
    && !Safe(job.cfg)
    && (if job.cfg.closes && !job.cfg.usb then Chunks(job, |job.prog|) >= 2 && !OnlyPair(job) else LosesAtEnd(job))
  }

  // -------------------------------------------------------------------------------------------
  // Hanging runs

  // The reader comes to the end, and the writer waits for a block that has been lost.
  lemma WaitsForLost(job: Job, a: nat) returns (s: State)
    requires WellFormed(job) && !Safe(job.cfg) && Overtakes(job, a) && job.prog[a].Chunk?
    requires job.cfg.usb ==> NoOpen(job, a, |job.prog|)
    ensures CleanlyReachable(job, s) && Stuck(job, s) && !Flagged(s)
  {
    s := LosingRun(job, a);
    s := CalmAfterLoss(job, s);
    s := TakeTurns(job, s, |job.prog|);
    s := ReaderEnds(job, s);
    s := FallsAsleep(job, s);
    Knows(job, s);
    StuckThreads(job, s);
  }

  // The writer has left, and the reader has published a block.
  ghost predicate Forsaken(job: Job, s: State) {
    && s.r.Run? && s.w.WDone? && s.size > 0 && !Flagged(s) && s.written < Total(job)
    && s.ip <= FinalWait(job) && LastChunk(job, FinalWait(job)) >= 0
  }

  // The next wait at or behind m.
  lemma {:induction false} NextWait(job: Job, m: nat, f: nat) returns (b: nat)
    requires m <= f < |job.prog| && Waits(job.cfg, job.prog[f])
    ensures m <= b <= f && Waits(job.cfg, job.prog[b])
    ensures LastChunk(job, m) == LastChunk(job, b) && Passed(job, m) == Passed(job, b)
    decreases f - m
  {
    if Waits(job.cfg, job.prog[m]) { b := m; } else { b := NextWait(job, m + 1, f); }
  }

  // It waits for ever at the next wait.
  lemma WaitsForWriter(job: Job, s: State) returns (t: State)
    requires WellFormed(job) && job.cfg.closes && CleanlyReachable(job, s) && Forsaken(job, s)
    ensures CleanlyReachable(job, t) && Stuck(job, t) && !Flagged(t)
  {
    FinalWaitDrains(job);
    var b := NextWait(job, s.ip, FinalWait(job));
    t := Drift(job, s, b);
    Knows(job, t);
    BlockSteps(job, t);
    t := Go(job, t, Reader(true));
    t := Go(job, t, Reader(true));
    Knows(job, t);
    StuckThreads(job, t);
  }

  // A wait other than the final one is overtaken, and the writer finds no file.
  lemma ForsakenBehind(job: Job, a: nat) returns (s: State)
    requires WellFormed(job) && job.cfg.closes && !job.cfg.usb && !Safe(job.cfg)
    requires Overtakes(job, a) && !job.prog[a].Chunk? && a < FinalWait(job)
    ensures CleanlyReachable(job, s) && Forsaken(job, s)
  {
    FinalWaitDrains(job);
    s := FileClosedBehind(job, a);
    s := Go(job, s, Writer(true, []));
    LastFrom(job, LastChunk(job, a), FinalWait(job));
  }

  // The writer is woken with nothing to write after the file of block b has been closed.
  ghost predicate WokenBehind(job: Job, s: State, b: nat) {
    && b < |job.prog| && s.ip == b + 1 && s.r.Run? && s.w.WResume? && s.size == 0 && !Flagged(s) && !s.skipped
    && s.written == |DataTo(job, b + 1)| < Total(job)
  }

  lemma LeavesEarly(job: Job, s: State, b: nat, w: nat) returns (t: State)
    requires WellFormed(job) && job.cfg.closes && !job.cfg.usb && !Safe(job.cfg)
    requires CleanlyReachable(job, s) && WokenBehind(job, s, b)
    requires b < w < |job.prog| && job.prog[w].Close? && LastChunk(job, w + 1) == b
    ensures CleanlyReachable(job, t) && t.ip == w + 1 && t.r.Run? && t.w.WDone? && t.size == 0 && !Flagged(t)
    ensures t.written == s.written && !t.skipped
  {
    NoChunkBetween(job, b + 1, w + 1);
    t := Drift(job, s, w + 1);
    Knows(job, t);
    assert After(job, w + 1).cur.None?;
    t := Go(job, t, Writer(true, []));
  }

  // Between two blocks that are not in a row lies a wait that closes the file.
  lemma {:induction false} ClosedBetween(job: Job, b: nat, c: nat) returns (w: nat)
    requires WellFormed(job) && !job.cfg.usb && b + 1 < c < |job.prog| && job.prog[c].Chunk? && LastChunk(job, c) == b
    ensures b < w < c && job.prog[w].Close? && LastChunk(job, w + 1) == b
  {
    assert ActionOk(job, c);
    assert job.prog[c - 1].Open?;
    assert ActionOk(job, c - 1);
    w := c - 2;
    assert LastChunk(job, c - 1) == b;
  }

  lemma ForsakenAhead(job: Job, b: nat, c: nat) returns (s: State)
    requires WellFormed(job) && job.cfg.closes && !job.cfg.usb && !Safe(job.cfg)
    requires b + 1 < c < |job.prog| && job.prog[b].Chunk? && job.prog[c].Chunk? && LastChunk(job, c) == b
    ensures CleanlyReachable(job, s) && Forsaken(job, s)
  {
    var w := ClosedBetween(job, b, c);
    MoreToWrite(job, b);
    DataGrows(job, b + 1, c);
    MoreToWrite(job, c);
    s := Sequential(job, b);
    Knows(job, s);
    FirstOwed(job, s, b, c);
    s := FeedQuietly(job, s);
    s := WokenAgain(job, s);
    s := LeavesEarly(job, s, b, w);
    NoChunkBetween(job, w + 1, c);
    s := Drift(job, s, c);
    Knows(job, s);
    assert ActionOk(job, c);
    s := Feed(job, s);
    ChunkBeforeFinalWait(job, c);
  }

  lemma ChunkBeforeFinalWait(job: Job, c: nat)
    requires WellFormed(job) && job.cfg.closes && c < |job.prog| && job.prog[c].Chunk?
    ensures c < FinalWait(job) && LastChunk(job, FinalWait(job)) >= 0
  {
    FinalWaitDrains(job);
    LastFrom(job, c, FinalWait(job));
  }

  // Two blocks or more, but not only a pair at the end.
  lemma SomethingForsakes(job: Job) returns (s: State)
    requires WellFormed(job) && job.cfg.closes && !job.cfg.usb && Hangs(job)
    ensures CleanlyReachable(job, s) && Stuck(job, s) && !Flagged(s)
  {
    var c := LastChunk(job, |job.prog|);
    LastChunkEnds(job, |job.prog|);
    var b := LastChunk(job, c);
    if b + 1 < c {
      s := ForsakenAhead(job, b, c);
      s := WaitsForWriter(job, s);
    } else if Chunks(job, c) >= 2 {
      assert Overtakes(job, c);
      s := WaitsForLost(job, c);
    } else {
      var a := TwoBlocksOvertake(job);
      LastFromHere(job, a);
      FinalWaitDrains(job);
      assert a <= FinalWait(job);
      s := ForsakenBehind(job, a);
      s := WaitsForWriter(job, s);
    }
  }

  // -------------------------------------------------------------------------------------------
  // Dumps that cannot hang

  // What an unflagged run keeps: over USB, where a block has been lost no file has been opened since;
  // and of a pair of blocks, the writer leaves nothing behind before the final wait is over.
  ghost predicate Lasting(job: Job, s: State)
    requires s.ip <= |job.prog|
  {
    && (job.cfg.usb && LostData(job, s) ==> LostAhead(job, s.ip))
    && (!job.cfg.usb && job.cfg.closes && OnlyPair(job) && s.w.WDone? && s.written < Total(job) ==> s.ip > FinalWait(job))
  }

  ghost predicate LostAhead(job: Job, k: nat) {
    exists a: nat :: a < k && Overtakes(job, a) && job.prog[a].Chunk? && NoOpen(job, a, k)
  }

  lemma LostStays(job: Job, k: nat)
    requires k < |job.prog| && LostAhead(job, k) && !job.prog[k].Open?
    ensures LostAhead(job, k + 1)
  {
    var a: nat :| a < k && Overtakes(job, a) && job.prog[a].Chunk? && NoOpen(job, a, k);
    assert NoOpen(job, a, k + 1);
  }

  lemma LostNow(job: Job, k: nat)
    requires Overtakes(job, k) && job.prog[k].Chunk?
    ensures LostAhead(job, k + 1)
  {
    assert NoOpen(job, k, k + 1);
  }

  // A step of the reader that goes on by one action, or skips when nothing is missing.
  lemma ReaderLasting(job: Job, s: State, ok: bool)
    requires WellFormed(job) && Inv(job, s) && !Flagged(s) && Lasting(job, s)
    requires ReaderStep(job, s, ok).Some? && !Flagged(ReaderStep(job, s, ok).value)
    ensures var t := ReaderStep(job, s, ok).value; t.ip <= |job.prog| && Lasting(job, t)
  {
    var t := ReaderStep(job, s, ok).value;
    ReaderInv(job, s, ok);
    match s.r
    case Run => if s.ip < |job.prog| { AdvanceLasting(job, s, ok); }
    case Ready => if !MustWait(job.prog[s.ip], s) { ProceedLasting(job, s, ok); }
    case Resume => if !MustWait(job.prog[s.ip], s) || !job.cfg.recheck { ProceedLasting(job, s, ok); }
    case _ =>
  }

  lemma MovesLasting(job: Job, s: State, t: State)
    requires s.ip < |job.prog| && Lasting(job, s) && t.written == s.written && t.size == s.size && t.w == s.w
    requires t.ip == s.ip || (t.ip == s.ip + 1 && !job.prog[s.ip].Chunk? && (job.cfg.usb ==> !job.prog[s.ip].Open?))
    ensures t.ip <= |job.prog| && Lasting(job, t)
  {
    if t.ip > s.ip && job.cfg.usb && LostAhead(job, s.ip) { LostStays(job, s.ip); }
  }

  // Nothing is missing where everything has been written.
  lemma CompleteLasts(job: Job, t: State)
    requires t.ip <= |job.prog| && t.written >= Total(job)
    ensures Lasting(job, t)
  {
    DataBounded(job, t.ip);
  }

  lemma AdvanceLasting(job: Job, s: State, ok: bool)
    requires AtAction(job, s) && !Flagged(s) && Lasting(job, s)
    ensures var t := Advance(job, s, ok); t.ip <= |job.prog| && Lasting(job, t)
  {
    if job.prog[s.ip].Close? && job.cfg.early && s.written >= Total(job) {
      CompleteLasts(job, s.(ip := |job.prog| - 1, skipped := true));
    } else {
      MovesLasting(job, s, Advance(job, s, ok));
    }
  }

  lemma ProceedLasting(job: Job, s: State, ok: bool)
    requires PastWait(job, s) && !Flagged(s) && Lasting(job, s) && !Flagged(Proceed(job, s, ok))
    ensures var t := Proceed(job, s, ok); t.ip <= |job.prog| && Lasting(job, t)
  {
    if job.prog[s.ip].Chunk? && s.size > 0 { LostNow(job, s.ip); }
    if !job.prog[s.ip].Open? && LostAhead(job, s.ip) { LostStays(job, s.ip); }
  }

  // Up to the final wait, the file of the pair is open.
  lemma {:induction false} PairStaysOpen(job: Job, k: nat)
    requires WellFormed(job) && job.cfg.closes && !job.cfg.usb && OnlyPair(job)
    requires k <= FinalWait(job) && Chunks(job, k) > 0
    ensures After(job, k).cur.Some?
  {
    FinalWaitDrains(job);
    var c := LastChunk(job, |job.prog|);
    LastChunkEnds(job, |job.prog|);
    assert Chunks(job, c - 1) == 0;
    if k <= c - 1 {
      ChunksGrow(job, k, c - 1);
      assert false;
    } else if k <= c {
      assert ActionOk(job, c);
    } else {
      PassedUpTo(job, k, FinalWait(job));
      ChunkAtMost(job, k);
      StillOpen(job, k);
    }
  }

  lemma {:induction false} PassedUpTo(job: Job, k: nat, f: nat)
    requires k <= f <= |job.prog| && Passed(job, f) == 0 && LastChunk(job, f) < k
    ensures Passed(job, k) == 0
  {
    if k < f { PassedUpTo(job, k, f - 1); }
  }

  lemma ChunkAtMost(job: Job, k: nat)
    requires k <= |job.prog| && LastChunk(job, |job.prog|) < k
    ensures Chunks(job, k) == Chunks(job, |job.prog|)
  {
    NoChunkBetween(job, k, |job.prog|);
  }

  lemma ActLasting(job: Job, s: State, ok: bool, junk: seq<byte>)
    requires InSection(job, s) && !Flagged(s) && Lasting(job, s)
    requires Act(job, s, ok, junk).Some? && !Flagged(Act(job, s, ok, junk).value)
    ensures Lasting(job, Act(job, s, ok, junk).value)
  {
    if !job.cfg.usb && s.out.cur.None? && job.cfg.closes && OnlyPair(job) && s.ip <= FinalWait(job) {
      FinalWaitDrains(job);
      if s.size == 0 { StaleWake(job, s); }
      PairStaysOpen(job, s.ip);
    }
  }

  lemma WriterLasting(job: Job, s: State, ok: bool, junk: seq<byte>)
    requires WellFormed(job) && Inv(job, s) && !Flagged(s) && Lasting(job, s)
    requires WriterStep(job, s, ok, junk).Some? && !Flagged(WriterStep(job, s, ok, junk).value)
    ensures WriterStep(job, s, ok, junk).value.ip == s.ip && Lasting(job, WriterStep(job, s, ok, junk).value)
  {
    match s.w
    case WHead => if s.written < Total(job) && s.size > 0 { ActLasting(job, s, ok, junk); }
    case WResume => if !(job.cfg.recheck && s.size == 0) { ActLasting(job, s, ok, junk); }
    case _ =>
  }

  lemma {:induction false} ReachableLasting(job: Job, steps: seq<Step>)
    requires WellFormed(job) && Exec(job, steps).Some? && !Flagged(Exec(job, steps).value)
    ensures var s := Exec(job, steps).value; s.ip <= |job.prog| && Lasting(job, s)
  {
    if steps != [] {
      var before := steps[..|steps| - 1];
      var step := steps[|steps| - 1];
      var s := Exec(job, before).value;
      StepFlags(job, s, step);
      ReachableLasting(job, before);
      ReachableInv(job, before);
      if step.Reader? { ReaderLasting(job, s, step.ok); } else { WriterLasting(job, s, step.ok, step.junk); }
    }
  }

  // Where an unflagged run is stuck, a block has been lost, or the writer has left one to the reader.
  lemma StuckUnflagged(job: Job, s: State)
    requires WellFormed(job) && Inv(job, s) && Stuck(job, s) && !Flagged(s)
    ensures || (LostData(job, s) && s.ip == |job.prog|)
            || (GivesUp(job) && s.w.WDone? && s.written < Total(job) && s.r.Blocked?)
  {
    StuckThreads(job, s);
    DataBounded(job, s.ip);
  }

  lemma StuckMeansHangs(job: Job, steps: seq<Step>)
    requires WellFormed(job) && Exec(job, steps).Some? && !Flagged(Exec(job, steps).value)
    requires Stuck(job, Exec(job, steps).value)
    ensures Hangs(job)
  {
    ReachableInv(job, steps);
    ReachableLasting(job, steps);
    StuckLasting(job, Exec(job, steps).value);
  }

  lemma StuckLasting(job: Job, s: State)
    requires WellFormed(job) && Inv(job, s) && Stuck(job, s) && !Flagged(s) && Lasting(job, s)
    ensures Hangs(job)
  {
    StuckUnflagged(job, s);
    if LostData(job, s) && s.ip == |job.prog| {
      LossMeansHangs(job, s);
    } else {
      BlockedBeforeEnd(job, s);
    }
  }

  // Behind the final wait no reader is blocked.
  lemma BlockedBeforeEnd(job: Job, s: State)
    requires WellFormed(job) && Inv(job, s) && Lasting(job, s) && GivesUp(job)
    requires s.w.WDone? && s.written < Total(job) && s.r.Blocked?
    ensures Hangs(job)
  {
    FinalWaitDrains(job);
  }

  lemma LossMeansHangs(job: Job, s: State)
    requires WellFormed(job) && Inv(job, s) && Lasting(job, s) && LostData(job, s) && s.ip == |job.prog|
    ensures Hangs(job)
  {
    assert !NoLoss(job);
    if job.cfg.closes && !job.cfg.usb {
      LossNeedsTwo(job);
      if OnlyPair(job) { PairLosesNothing(job); }
    } else if !job.cfg.usb {
      PlainLoss(job);
    }
  }

  lemma LossNeedsTwo(job: Job)
    requires !NoLoss(job)
    ensures Chunks(job, |job.prog|) >= 2
  {
    var a: nat :| Overtakes(job, a) && job.prog[a].Chunk?;
    ChunksGrow(job, a, |job.prog|);
  }

  lemma PlainLoss(job: Job)
    requires Plain(job) && !NoLoss(job)
    ensures LosesAtEnd(job)
  {
    var a: nat :| Overtakes(job, a) && job.prog[a].Chunk?;
    assert NoOpen(job, a, |job.prog|);
  }

  lemma PairLosesNothing(job: Job)
    requires OnlyPair(job)
    ensures NoLoss(job)
  {
    forall a: nat | Overtakes(job, a)
      ensures !job.prog[a].Chunk?
    {
      if job.prog[a].Chunk? { ChunksGrow(job, a + 1, |job.prog|); }
    }
  }

  // A run in which nothing fails can hang exactly when: the dump goes to a file that its reader
  // closes, and has two blocks or more, unless they are a single pair at its end; or it is another
  // one, and a block of the file that is opened last can be overwritten.
  lemma CleanRunHangsIff(job: Job)
    requires WellFormed(job)
    ensures (exists s :: Reachable(job, s) && Stuck(job, s) && !Flagged(s)) <==> Hangs(job)
  {
    if Hangs(job) {
      var s;
      if job.cfg.closes && !job.cfg.usb {
        s := SomethingForsakes(job);
      } else {
        var a: nat :| Overtakes(job, a) && job.prog[a].Chunk? && NoOpen(job, a, |job.prog|);
        s := WaitsForLost(job, a);
      }
      var steps := CleanlyMeansReachable(job, s);
    } else {
      forall s | Reachable(job, s) && Stuck(job, s)
        ensures Flagged(s)
      {
        var steps :| Exec(job, steps) == Some(s);
        if !Flagged(s) { StuckMeansHangs(job, steps); }
      }
    }
  }

  // A raw dump can hang exactly when it has three blocks or more.
  lemma CleanRawDumpHangsIffThreeBlocks(cfg: Config, blocks: seq<seq<byte>>)
    requires NonEmptyBlocks(blocks) && !cfg.early && !cfg.closes
    ensures var job := RawJob(cfg, blocks);
            (exists s :: Reachable(job, s) && Stuck(job, s) && !Flagged(s)) <==> !Safe(cfg) && |blocks| >= 3
  {
    var job := RawJob(cfg, blocks);
    RawWellFormed(cfg, blocks);
    RawNoLoss(cfg, blocks);
    CleanRunHangsIff(job);
    if |blocks| >= 3 {
      assert Overtakes(job, 2) && job.prog[2].Chunk? && NoOpen(job, 2, |job.prog|);
    }
  }
}
