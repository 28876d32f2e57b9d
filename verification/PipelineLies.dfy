// Dumps that are reported as successful although they are incomplete, misplaced or end in garbage,
// and runs that nothing fails in and that can no longer succeed: which jobs allow them.

module PipelineLies {
  import opened Bytes
  import opened Pipeline
  import opened PipelinePrograms
  import opened PipelineSafety
  import opened PipelineLiveness
  import opened PipelineSuccess
  import opened PipelineRuns
  import opened PipelineHazards

  // Every file is opened once.
  ghost predicate DistinctFiles(job: Job) {
    && job.start.cur.None?
    && (forall i, j :: 0 <= i < j < |job.prog| && job.prog[i].Open? && job.prog[j].Open? ==>
                         job.prog[i].file != job.prog[j].file)
  }

  // -------------------------------------------------------------------------------------------
  // The final wait is overtaken

  // The reader has ended with a block in the slot.
  ghost predicate LeftBehind(job: Job, s: State) {
    && s.r.Done? && s.freed && s.w.WHead? && !Flagged(s) && s.size > 0 && s.written < Total(job)
    && LastChunk(job, |job.prog|) >= 0 && s.size == |job.prog[LastChunk(job, |job.prog|)].data|
    && s.log == DataTo(job, LastChunk(job, |job.prog|)) && s.written == |s.log|
  }

  lemma PastFinalWait(job: Job, s: State, t: State)
    requires WellFormed(job) && job.cfg.closes && Trails(job, s, FinalWait(job))
    requires t == Executed(job, s).(r := Run, w := WHead)
    ensures CanDrift(job, t, |job.prog|)
    ensures forall u :: Drifted(job, t, u, |job.prog|) ==>
              u.r.Run? && LeftBehind(job, u.(r := Done, freed := true)) && u.ip == |job.prog|
  {
    var n, f := |job.prog|, FinalWait(job);
    assert ActionOk(job, n - 1);
    assert LastChunk(job, n) == LastChunk(job, f) && Passed(job, n) == Passed(job, f + 1);
  }

  lemma EndsLeftBehind(job: Job) returns (s: State)
    requires WellFormed(job) && job.cfg.closes && !Safe(job.cfg) && Overtakes(job, FinalWait(job))
    ensures CleanlyReachable(job, s) && LeftBehind(job, s)
    ensures !job.cfg.usb ==> s.out.cur.None?
  {
    FinalWaitDrains(job);
    var r;
    r, s := Overtook(job, FinalWait(job));
    PastFinalWait(job, r, s);
    s := Drift(job, s, |job.prog|);
    s := ReaderEnds(job, s);
    Knows(job, s);
  }

  // The writer finds no output file and leaves without a flag.
  lemma LeavesBlockOut(job: Job, s: State) returns (t: State)
    requires WellFormed(job) && CleanlyReachable(job, s) && LeftBehind(job, s) && !job.cfg.usb && s.out.cur.None?
    ensures CleanlyReachable(job, t) && ReportsSuccess(t) && t.written < Total(job) && t.written == |t.log|
  {
    t := Go(job, s, Writer(true, []));
  }

  // The writer sends what it finds in freed memory.
  lemma SendsGarbage(job: Job, s: State, junk: seq<byte>) returns (t: State)
    requires WellFormed(job) && CleanlyReachable(job, s) && LeftBehind(job, s) && job.cfg.usb && !job.cfg.atomicWake
    requires |junk| == s.size
    ensures CleanlyReachable(job, t) && ReportsSuccess(t) && t.log == DataTo(job, LastChunk(job, |job.prog|)) + junk
    ensures t.torn
  {
    LastChunkEnds(job, |job.prog|);
    Knows(job, s);
    t := Go(job, s, Writer(true, junk));
    t := Go(job, t, Writer(true, []));
    t := Go(job, t, Writer(true, []));
  }

  // A reader that drains has a block written out of freed memory, or ends with one in the slot with
  // nothing failing, exactly when its final wait can be overtaken.
  lemma DrainedReaderIsTornIff(job: Job)
    requires WellFormed(job) && job.cfg.closes
    ensures (exists s :: Reachable(job, s) && s.torn) <==> job.cfg.usb && !Safe(job.cfg) && Overtakes(job, FinalWait(job))
    ensures (exists s :: Reachable(job, s) && s.freed && s.size > 0 && !Flagged(s))
       <==> !Safe(job.cfg) && Overtakes(job, FinalWait(job))
  {
    if !Safe(job.cfg) && Overtakes(job, FinalWait(job)) {
      var s := EndsLeftBehind(job);
      var steps := CleanlyMeansReachable(job, s);
      if job.cfg.usb {
        var t := SendsGarbage(job, s, Zeros(s.size));
        var more := CleanlyMeansReachable(job, t);
      }
    }
    forall s | Reachable(job, s) && (s.torn || (s.freed && s.size > 0 && !Flagged(s)))
      ensures !Safe(job.cfg) && Overtakes(job, FinalWait(job)) && (s.torn ==> job.cfg.usb)
    {
      DrainedReaderIsTornOnlyIfOvertaken(job, s);
    }
  }

  lemma FinalWaitLies(job: Job) returns (s: State)
    requires WellFormed(job) && job.cfg.closes && !Safe(job.cfg) && Overtakes(job, FinalWait(job))
    ensures CleanlyReachable(job, s) && Lies(job, s)
  {
    s := EndsLeftBehind(job);
    if job.cfg.usb {
      var c := LastChunk(job, |job.prog|);
      var data := job.prog[c].data;
      var junk := data[0 := if data[0] == 0 then 1 else 0];
      LastChunkEnds(job, |job.prog|);
      s := SendsGarbage(job, s, junk);
      assert s.log[|DataTo(job, c)|] != DataTo(job, |job.prog|)[|DataTo(job, c)|];
    } else {
      s := LeavesBlockOut(job, s);
    }
  }

  // -------------------------------------------------------------------------------------------
  // A block has been lost

  // The last block has been published, bytes are missing, and its wake-up is still to be sent.
  ghost predicate LastOwed(job: Job, s: State) {
    && s.r.Signal? && s.w.WHead? && !Flagged(s) && !s.skipped && s.size > 0 && s.written + s.size < Total(job)
    && s.ip <= |job.prog| && LastChunk(job, |job.prog|) < s.ip && 0 < s.ip && job.prog[s.ip - 1].Chunk?
  }

  lemma FedLast(job: Job, s: State)
    requires WellFormed(job) && Inv(job, s) && Calm(job, s) && s.ip == LastChunk(job, |job.prog|)
    requires s.written < |DataTo(job, s.ip)|
    ensures CanFeed(job, s) && LastOwed(job, Fed(job, s).(r := Signal))
  {
    MoreToWrite(job, s.ip);
    assert ActionOk(job, s.ip);
  }

  lemma LossReachesLast(job: Job, a: nat) returns (s: State)
    requires WellFormed(job) && !job.cfg.usb && !Safe(job.cfg) && Overtakes(job, a) && job.prog[a].Chunk?
    ensures CleanlyReachable(job, s) && LastOwed(job, s)
  {
    s := LosingRun(job, a);
    var l := LastChunk(job, |job.prog|);
    if l > a {
      s := CalmAfterLoss(job, s);
      MoreToWrite(job, l);
      s := TakeTurns(job, s, l);
      Knows(job, s);
      FedLast(job, s);
      s := FeedQuietly(job, s);
    } else {
      LastIsLast(job, a);
    }
  }

  lemma {:induction false} LastIsLast(job: Job, a: nat)
    requires a < |job.prog| && job.prog[a].Chunk?
    ensures LastChunk(job, |job.prog|) >= a
  {
    LastFrom(job, a, |job.prog|);
  }

  lemma {:induction false} LastFrom(job: Job, a: nat, k: nat)
    requires a < k <= |job.prog| && job.prog[a].Chunk?
    ensures LastChunk(job, k) >= a
  {
    if a + 1 < k { LastFrom(job, a, k - 1); }
  }

  // The writer writes the block before its wake-up comes, goes to sleep, and is woken by it.
  lemma WokenAgain(job: Job, s: State) returns (t: State)
    requires WellFormed(job) && CleanlyReachable(job, s) && !job.cfg.atomicWake
    requires s.r.Signal? && s.w.WHead? && !Flagged(s) && s.size > 0 && s.written + s.size < Total(job)
    requires CanEat(job, s)
    ensures CleanlyReachable(job, t) && t == Eaten(s).(r := Run, w := WResume)
  {
    EatStep(job, s);
    t := Go(job, s, Writer(true, []));
    t := Go(job, t, Writer(true, []));
    t := FallsAsleep(job, t);
    t := Go(job, t, Reader(true));
  }

  lemma OwedCanEat(job: Job, s: State)
    requires WellFormed(job) && Inv(job, s) && s.r.Signal? && s.w.WHead? && !Flagged(s) && !s.skipped
    requires s.size > 0 && s.written < Total(job) && 0 < s.ip && job.prog[s.ip - 1].Chunk?
    ensures CanEat(job, s)
  {
    assert ActionOk(job, s.ip - 1);
  }

  // A block has been lost; the writer is woken with nothing to write after the last file has been
  // closed, and leaves without a flag.
  lemma LossLies(job: Job, a: nat) returns (s: State)
    requires WellFormed(job) && job.cfg.closes && !job.cfg.usb && !Safe(job.cfg)
    requires Overtakes(job, a) && job.prog[a].Chunk?
    ensures CleanlyReachable(job, s) && Lies(job, s)
  {
    s := LossReachesLast(job, a);
    Knows(job, s);
    OwedCanEat(job, s);
    s := WokenAgain(job, s);
    s := Drift(job, s, |job.prog|);
    s := ReaderEnds(job, s);
    Knows(job, s);
    s := Go(job, s, Writer(true, []));
  }

  // -------------------------------------------------------------------------------------------
  // A block has been misplaced

  // The current file has been opened by an action.
  lemma {:induction false} OpenedAt(job: Job, k: nat) returns (j: nat)
    requires k <= |job.prog| && job.start.cur.None? && After(job, k).cur.Some?
    ensures j < k && job.prog[j] == Open(After(job, k).cur.value)
  {
    if job.prog[k - 1].Open? { j := k - 1; } else { j := OpenedAt(job, k - 1); }
  }

  // File g no longer changes.
  ghost predicate Settled(job: Job, k: nat, o: Output, g: nat) {
    && g in o.files && o.cur != Some(g)
    && (forall i :: k <= i < |job.prog| ==> job.prog[i] != Open(g))
  }

  lemma SettledKept(job: Job, j: nat, k: nat, o: Output, g: nat)
    requires j <= k <= |job.prog| && Settled(job, j, o, g)
    ensures var p := Effects(job, j, k, o); Settled(job, k, p, g) && p.files[g] == o.files[g]
  {
    EffectsKeep(job, j, k, o, g);
  }

  // The block in the slot has ended up behind the wrong file.
  ghost predicate Misplaced(job: Job, s: State, g: nat) {
    && Calm(job, s) && s.written == |DataTo(job, s.ip)|
    && Settled(job, s.ip, s.out, g) && Settled(job, s.ip, After(job, s.ip), g)
    && s.out.files[g] != After(job, s.ip).files[g]
  }

  lemma InTheNextFile(job: Job, s: State, t: State, a: nat) returns (g: nat)
    requires WellFormed(job) && DistinctFiles(job) && job.cfg.closes && !job.cfg.usb
    requires Trails(job, s, a) && job.prog[a].Close? && a + 1 < |job.prog| && job.prog[a + 1].Open?
    requires t == Executed(job, s).(r := Run, w := WHead) && Inv(job, t)
    ensures Free(job, t) && CanEat(job, Executed(job, t)) && Misplaced(job, Eaten(Executed(job, t)), g)
    ensures Eaten(Executed(job, t)).ip == a + 2
  {
    var c, f := LastChunk(job, a), job.prog[a + 1].file;
    var u := Executed(job, t);
    var v := Eaten(u);
    StillOpen(job, a);
    CurExists(job, a);
    g := After(job, a).cur.value;
    var j := OpenedAt(job, a);
    assert ActionOk(job, c);
    LastChunkEnds(job, a);
    BeforeTheBlock(job, s, a);
    assert Slot(u) == Slot(s);
    assert forall i :: a + 2 <= i < |job.prog| ==> job.prog[i] != Open(g);
    assert DataTo(job, a + 2) == DataTo(job, a + 1) == DataTo(job, a);
    assert After(job, a + 1) == Effect(job.cfg, After(job, a), job.prog[a]);
    assert After(job, a + 2) == Effect(job.cfg, After(job, a + 1), job.prog[a + 1]);
    assert v.out.cur == Some(f);
  }

  // Up to the first wait behind a block, the output differs from the program's by just this block.
  lemma BeforeTheBlock(job: Job, s: State, a: nat)
    requires WellFormed(job) && Trails(job, s, a) && !job.cfg.usb && After(job, a).cur.Some?
    ensures s.out.cur == After(job, a).cur
    ensures s.out.cur.value in s.out.files && s.out.cur.value in After(job, a).files
    ensures s.out.files[s.out.cur.value] != After(job, a).files[s.out.cur.value]
  {
    var c := LastChunk(job, a);
    assert ActionOk(job, c);
    CurExists(job, c);
    var o := After(job, c);
    NothingBetween(job, c + 1, a, o);
    NothingBetween(job, c + 1, a, Append(o, Slot(s)));
  }

  lemma {:induction false} NothingBetween(job: Job, j: nat, k: nat, o: Output)
    requires WellFormed(job) && !job.cfg.usb && j <= k <= |job.prog| && Passed(job, k) == 0 && LastChunk(job, k) == j - 1
    ensures Effects(job, j, k, o) == o
  {
    if j < k {
      assert ActionOk(job, k - 1);
      NothingBetween(job, j, k - 1, o);
    }
  }

  // Nothing more to publish, and everything has been written.
  ghost predicate Winding(job: Job, s: State, g: nat) {
    && s.ip <= |job.prog| && s.r.Run? && s.w.WHead? && s.size == 0 && !Flagged(s) && s.written == Total(job)
    && LastChunk(job, |job.prog|) < s.ip && Settled(job, s.ip, s.out, g)
    && (s.skipped ==> s.ip >= |job.prog| - 1)
  }

  lemma WindStep(job: Job, s: State, g: nat)
    requires WellFormed(job) && Inv(job, s) && Winding(job, s, g) && s.ip < |job.prog|
    ensures if job.cfg.early && job.prog[s.ip].Close? then
              var t := s.(ip := |job.prog| - 1, skipped := true);
              Apply(job, s, Reader(true)) == Some(t) && Winding(job, t, g) && t.ip > s.ip
            else
              var t := Executed(job, s);
              Free(job, s) && Winding(job, t, g) && t.ip == s.ip + 1 && t.out.files[g] == s.out.files[g]
  {
    assert ActionOk(job, s.ip);
    NoChunkBetween(job, s.ip, |job.prog|);
    LastFromHere(job, s.ip);
    ExecutedMoves(job, s);
  }

  lemma LastFromHere(job: Job, k: nat)
    requires k < |job.prog| && LastChunk(job, |job.prog|) < k
    ensures !job.prog[k].Chunk?
  {
    if job.prog[k].Chunk? { LastIsLast(job, k); }
  }

  lemma {:induction false} WindsUp(job: Job, s: State, g: nat) returns (t: State)
    requires WellFormed(job) && CleanlyReachable(job, s) && Winding(job, s, g)
    ensures CleanlyReachable(job, t) && ReportsSuccess(t) && g in t.out.files && t.out.files[g] == s.out.files[g]
    decreases |job.prog| - s.ip
  {
    if s.ip < |job.prog| {
      Knows(job, s);
      WindStep(job, s, g);
      if job.cfg.early && job.prog[s.ip].Close? { t := Go(job, s, Reader(true)); } else { t := Execute(job, s); }
      t := WindsUp(job, t, g);
    } else {
      t := ReaderEnds(job, s);
      t := Go(job, t, Writer(true, []));
    }
  }

  lemma MisplacedTurns(job: Job, s: State, t: State, g: nat)
    requires Misplaced(job, s, g) && Turned(job, s, t)
    ensures Misplaced(job, t, g)
  {
    SettledKept(job, s.ip, t.ip, s.out, g);
    AfterEffects(job, s.ip, t.ip);
    SettledKept(job, s.ip, t.ip, After(job, s.ip), g);
  }

  // The threads take turns until everything has been written.
  lemma MisplacedToTheEnd(job: Job, s: State, g: nat) returns (t: State)
    requires WellFormed(job) && CleanlyReachable(job, s) && Misplaced(job, s, g)
    ensures CleanlyReachable(job, t) && Misplaced(job, t, g) && Winding(job, t, g)
  {
    var l := LastChunk(job, |job.prog|);
    t := s;
    if s.ip <= l {
      MoreToWrite(job, l);
      t := TakeTurns(job, s, l);
      MisplacedTurns(job, s, t, g);
      var u := t;
      t := Turn(job, u);
      MisplacedTurns(job, u, t, g);
    }
    NoChunkBetween(job, t.ip, |job.prog|);
  }

  lemma MisplacedLies(job: Job, a: nat) returns (s: State)
    requires WellFormed(job) && DistinctFiles(job) && job.cfg.closes && !job.cfg.usb && !Safe(job.cfg)
    requires Overtakes(job, a) && job.prog[a].Close? && a + 1 < |job.prog| && job.prog[a + 1].Open?
    ensures CleanlyReachable(job, s) && Lies(job, s)
  {
    var r;
    r, s := Overtook(job, a);
    Knows(job, s);
    var g := InTheNextFile(job, r, s, a);
    s := Execute(job, s);
    s := Eat(job, s);
    s := MisplacedToTheEnd(job, s, g);
    AfterEffects(job, s.ip, |job.prog|);
    SettledKept(job, s.ip, |job.prog|, After(job, s.ip), g);
    s := WindsUp(job, s, g);
  }

  // -------------------------------------------------------------------------------------------
  // Main results

  // A dump that waits for its last block can be reported as successful while it is incomplete,
  // misplaced or ends in garbage, in a run in which nothing fails, exactly when one of its fatal
  // waits can be overtaken.
  lemma SuccessLiesIff(job: Job)
    requires WellFormed(job) && DistinctFiles(job) && job.cfg.closes
    ensures (exists s :: Reachable(job, s) && Lies(job, s)) <==> !Sound(job)
  {
    if !Sound(job) {
      var a: nat :| Overtakes(job, a) && Fatal(job, a);
      var s;
      if a == FinalWait(job) { s := FinalWaitLies(job); }
      else if job.prog[a].Chunk? { s := LossLies(job, a); }
      else { s := MisplacedLies(job, a); }
      var steps := CleanlyMeansReachable(job, s);
    } else {
      forall s | Reachable(job, s) && ReportsSuccess(s)
        ensures !Lies(job, s)
      {
        SuccessIsComplete(job, s);
      }
    }
  }

  // The first wait behind the last block.
  lemma {:induction false} FirstWaitFrom(job: Job, k: nat, m: nat) returns (a: nat)
    requires k <= m < |job.prog| && Waits(job.cfg, job.prog[m])
    requires Passed(job, k) == 0 && Chunks(job, k) >= 2
    ensures Overtakes(job, a) && k <= a
    decreases m - k
  {
    if Waits(job.cfg, job.prog[k]) { a := k; } else { a := FirstWaitFrom(job, k + 1, m); }
  }

  lemma TwoBlocksOvertake(job: Job) returns (a: nat)
    requires WellFormed(job) && job.cfg.closes && Chunks(job, |job.prog|) >= 2
    ensures Overtakes(job, a) && LastChunk(job, |job.prog|) < a
  {
    FinalWaitDrains(job);
    var l := LastChunk(job, |job.prog|);
    ChunkBeforeFinal(job, l);
    LastChunkEnds(job, |job.prog|);
    a := FirstWaitFrom(job, l + 1, FinalWait(job));
  }

  // Block b has been published with another one still to come.
  lemma FirstOwed(job: Job, s: State, b: nat, l: nat)
    requires WellFormed(job) && UpTo(job, s, b) && Inv(job, s) && b < l < |job.prog|
    requires job.prog[b].Chunk? && job.prog[l].Chunk?
    ensures CanFeed(job, s) && CanEat(job, Fed(job, s).(r := Signal))
    ensures var t := Fed(job, s); t.size > 0 && t.written + t.size < Total(job)
  {
    assert ActionOk(job, b);
    MoreToWrite(job, b);
    DataGrows(job, b + 1, l);
    MoreToWrite(job, l);
  }

  // A USB transfer of nothing, after the writer has been woken for a block it had already sent.
  lemma StrayTransfer(job: Job) returns (s: State)
    requires WellFormed(job) && job.cfg.usb && !Safe(job.cfg) && Chunks(job, |job.prog|) >= 2
    ensures CleanlyReachable(job, s) && Derailed(job, s)
  {
    var l := LastChunk(job, |job.prog|);
    LastChunkEnds(job, |job.prog|);
    var b := LastChunk(job, l);
    MoreToWrite(job, b);
    DataGrows(job, b + 1, l);
    MoreToWrite(job, l);
    s := Sequential(job, b);
    Knows(job, s);
    FirstOwed(job, s, b, l);
    s := FeedQuietly(job, s);
    s := WokenAgain(job, s);
    s := Go(job, s, Writer(true, []));
  }

  // The writer finds the output file closed while a block is in the slot.
  lemma NoFileLeft(job: Job, a: nat) returns (s: State)
    requires WellFormed(job) && job.cfg.closes && !job.cfg.usb && !Safe(job.cfg)
    requires Overtakes(job, a) && !job.prog[a].Chunk?
    ensures CleanlyReachable(job, s) && Derailed(job, s)
  {
    if a == FinalWait(job) {
      s := EndsLeftBehind(job);
      s := LeavesBlockOut(job, s);
    } else {
      s := FileClosedBehind(job, a);
      s := Go(job, s, Writer(true, []));
    }
  }

  // The reader is behind an overtaken wait that is not the final one, and has closed the file.
  ghost predicate Fileless(job: Job, s: State, a: nat) {
    && s.r.Run? && s.w.WHead? && !Flagged(s) && s.out.cur.None? && s.size > 0 && s.written < Total(job)
    && a < s.ip <= a + 2 && s.ip <= |job.prog| && Passed(job, s.ip) == 1 && LastChunk(job, s.ip) == LastChunk(job, a)
    && (s.ip == a + 2 ==> job.prog[a].Drain? && job.prog[a + 1].Leave?)
  }

  lemma FileClosedBehind(job: Job, a: nat) returns (s: State)
    requires WellFormed(job) && job.cfg.closes && !job.cfg.usb && !Safe(job.cfg)
    requires Overtakes(job, a) && !job.prog[a].Chunk? && a != FinalWait(job)
    ensures CleanlyReachable(job, s) && Fileless(job, s, a)
  {
    assert ActionOk(job, a);
    var r;
    r, s := Overtook(job, a);
    if job.prog[a].Drain? {
      Knows(job, s);
      ReturnsFileless(job, r, s, a);
      s := Execute(job, s);
    }
  }

  // Behind a drain other than the final one, its call returns.
  lemma ReturnsFileless(job: Job, r: State, s: State, a: nat)
    requires WellFormed(job) && job.cfg.closes && !job.cfg.usb && Shape(job, s) && Trails(job, r, a)
    requires job.prog[a].Drain? && a != FinalWait(job) && s == Executed(job, r).(r := Run, w := WHead)
    ensures Free(job, s) && Fileless(job, Executed(job, s), a)
  {
    assert ActionOk(job, a) && ActionOk(job, a + 1);
    assert job.prog[a + 1].Leave?;
    assert Passed(job, a + 1) == 1 && Passed(job, a + 2) == 1;
    assert LastChunk(job, a + 1) == LastChunk(job, a) && LastChunk(job, a + 2) == LastChunk(job, a);
  }

  lemma Derails(job: Job) returns (s: State)
    requires WellFormed(job) && !Reliable(job)
    ensures CleanlyReachable(job, s) && Derailed(job, s)
  {
    if Total(job) == 0 {
      assert CleanRun(job, [Initial(job)], []);
      s := Go(job, Initial(job), Reader(true));
    } else if job.cfg.usb {
      s := StrayTransfer(job);
    } else if job.cfg.closes {
      var a := TwoBlocksOvertake(job);
      if job.prog[a].Chunk? { s := LosingRun(job, a); } else { s := NoFileLeft(job, a); }
    } else {
      PlainNeverPasses(job, |job.prog|);
      PlainNeverPasses(job, 2);
      s := LosingRun(job, 2);
    }
  }

  // Every run in which nothing fails stays on its way to success exactly when there is something to
  // dump, and the synchronisation is safe or there are too few blocks: at most one, or two of a raw
  // dump to a file.
  lemma StaysOnTrackIff(job: Job)
    requires WellFormed(job)
    ensures (forall steps :: Clean(steps) && Exec(job, steps).Some? ==> !Derailed(job, Exec(job, steps).value))
       <==> Reliable(job)
  {
    if Reliable(job) {
      forall steps | Clean(steps) && Exec(job, steps).Some?
        ensures !Derailed(job, Exec(job, steps).value)
      {
        CleanRunsComplete(job, steps);
      }
    } else {
      var s := Derails(job);
      var steps := CleanlyMeansReachable(job, s);
      assert Clean(steps) && Exec(job, steps).Some?;
    }
  }
}
