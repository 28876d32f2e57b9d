// Runs of the two threads that take a reader to a given place: taking turns, and with a wake-up
// that is overdue. No operation fails in any of them.

module PipelineRuns {
  import opened Bytes
  import opened Pipeline
  import opened PipelinePrograms
  import opened PipelineSafety
  import opened PipelineLiveness

  // A run without failures, state by state.
  ghost predicate CleanRun(job: Job, run: seq<State>, steps: seq<Step>) {
    && |run| == |steps| + 1 && run[0] == Initial(job)
    && (forall i {:trigger steps[i]} :: 0 <= i < |steps| ==>
          CleanStep(steps[i]) && Apply(job, run[i], steps[i]) == Some(run[i + 1]))
  }

  ghost predicate CleanlyReachable(job: Job, s: State) {
    exists run, steps :: CleanRun(job, run, steps) && run[|steps|] == s
  }

  lemma {:induction false} CleanRunExecutes(job: Job, run: seq<State>, steps: seq<Step>, k: nat)
    requires CleanRun(job, run, steps) && k <= |steps|
    ensures Clean(steps[..k]) && Exec(job, steps[..k]) == Some(run[k])
  {
    if k > 0 {
      CleanRunExecutes(job, run, steps, k - 1);
      assert steps[..k][..k - 1] == steps[..k - 1];
      assert steps[..k][k - 1] == steps[k - 1];
    }
  }

  lemma CleanlyMeansReachable(job: Job, s: State) returns (steps: seq<Step>)
    requires CleanlyReachable(job, s)
    ensures Reachable(job, s) && Clean(steps) && Exec(job, steps) == Some(s)
  {
    var run;
    run, steps :| CleanRun(job, run, steps) && run[|steps|] == s;
    CleanRunExecutes(job, run, steps, |steps|);
    assert steps[..|steps|] == steps;
  }

  lemma Knows(job: Job, s: State)
    requires WellFormed(job) && CleanlyReachable(job, s)
    ensures Inv(job, s)
  {
    var steps := CleanlyMeansReachable(job, s);
    ReachableInv(job, steps);
  }

  // One more step of a run.
  lemma GoOn(job: Job, s: State, step: Step) returns (t: State)
    requires Reachable(job, s) && Apply(job, s, step).Some?
    ensures Reachable(job, t) && Apply(job, s, step) == Some(t)
  {
    var steps :| Exec(job, steps) == Some(s);
    assert (steps + [step])[..|steps + [step]| - 1] == steps;
    t := Apply(job, s, step).value;
    assert Exec(job, steps + [step]) == Some(t);
  }

  lemma Go(job: Job, s: State, step: Step) returns (t: State)
    requires CleanlyReachable(job, s) && CleanStep(step) && Apply(job, s, step).Some?
    ensures CleanlyReachable(job, t) && Apply(job, s, step) == Some(t)
  {
    var run, steps :| CleanRun(job, run, steps) && run[|steps|] == s;
    t := Apply(job, s, step).value;
    LongerRun(job, run, steps, step, t);
  }

  lemma LongerRun(job: Job, run: seq<State>, steps: seq<Step>, step: Step, t: State)
    requires CleanRun(job, run, steps) && CleanStep(step) && Apply(job, run[|steps|], step) == Some(t)
    ensures CleanRun(job, run + [t], steps + [step])
  {
  }

  lemma Started(job: Job) returns (s: State)
    requires Total(job) > 0
    ensures CleanlyReachable(job, s) && s == Initial(job).(r := Run)
  {
    assert CleanRun(job, [Initial(job)], []);
    s := Go(job, Initial(job), Reader(true));
  }

  // -------------------------------------------------------------------------------------------
  // One action of the reader

  // The reader has executed an action other than a chunk.
  function Executed(job: Job, s: State): State
    requires s.ip < |job.prog|
  {
    var a := job.prog[s.ip];
    if a.Enter? then s.(frames := s.frames + [(s.buf1, s.buf2)], ip := s.ip + 1)
    else if a.Leave? then
      if s.frames == [] then s
      else
        var top := s.frames[|s.frames| - 1];
        s.(out := Closed(job, s), buf1 := top.0, buf2 := top.1, frames := s.frames[..|s.frames| - 1], ip := s.ip + 1)
    else s.(out := Effect(job.cfg, s.out, a), ip := s.ip + 1)
  }

  // The reader can execute it at once.
  ghost predicate Free(job: Job, s: State) {
    && s.r.Run? && !s.w.WSleepy? && !Flagged(s) && s.ip < |job.prog| && !job.prog[s.ip].Chunk?
    && (Waits(job.cfg, job.prog[s.ip]) ==> s.size == 0)
    && (job.prog[s.ip].Close? && job.cfg.early ==> s.written < Total(job))
    && (job.prog[s.ip].Open? && job.cfg.usb ==> s.written == |DataTo(job, s.ip)|)
  }

  lemma FreeStep(job: Job, s: State)
    requires Free(job, s)
    ensures if Waits(job.cfg, job.prog[s.ip]) then
              && Apply(job, s, Reader(true)) == Some(s.(r := Ready))
              && Apply(job, s.(r := Ready), Reader(true)) == Some(Executed(job, s))
            else Apply(job, s, Reader(true)) == Some(Executed(job, s))
  {
  }

  lemma Execute(job: Job, s: State) returns (t: State)
    requires CleanlyReachable(job, s) && Free(job, s)
    ensures CleanlyReachable(job, t) && t == Executed(job, s)
  {
    FreeStep(job, s);
    t := Go(job, s, Reader(true));
    if Waits(job.cfg, job.prog[s.ip]) { t := Go(job, t, Reader(true)); }
  }

  // The reader has published a block and sent its wake-up to a writer that needs none.
  function Fed(job: Job, s: State): State
    requires s.ip < |job.prog| && job.prog[s.ip].Chunk? && s.buf1 < |s.bufs|
  {
    var d := job.prog[s.ip].data;
    s.(ip := s.ip + 1, bufs := s.bufs[s.buf1 := d], data := s.buf1, size := |d|, buf1 := s.buf2, buf2 := s.buf1)
  }

  ghost predicate CanFeed(job: Job, s: State) {
    && s.r.Run? && (s.w.WHead? || s.w.WSignal? || s.w.WDone?) && !Flagged(s) && s.size == 0
    && s.ip < |job.prog| && job.prog[s.ip].Chunk? && s.buf1 < |s.bufs|
  }

  lemma FeedStep(job: Job, s: State)
    requires CanFeed(job, s)
    ensures var t := s.(bufs := s.bufs[s.buf1 := job.prog[s.ip].data], r := Ready);
            && Apply(job, s, Reader(true)) == Some(t)
            && Apply(job, t, Reader(true)) == Some(Fed(job, s).(r := if job.cfg.atomicWake then Run else Signal))
            && Apply(job, Fed(job, s).(r := Signal), Reader(true)) == Some(Fed(job, s))
  {
  }

  lemma Feed(job: Job, s: State) returns (t: State)
    requires CleanlyReachable(job, s) && CanFeed(job, s)
    ensures CleanlyReachable(job, t) && t == Fed(job, s)
  {
    FeedStep(job, s);
    t := Go(job, s, Reader(true));
    t := Go(job, t, Reader(true));
    if !job.cfg.atomicWake { t := Go(job, t, Reader(true)); }
  }

  // The same, before the wake-up.
  lemma FeedQuietly(job: Job, s: State) returns (t: State)
    requires CleanlyReachable(job, s) && CanFeed(job, s) && !job.cfg.atomicWake
    ensures CleanlyReachable(job, t) && t == Fed(job, s).(r := Signal)
  {
    FeedStep(job, s);
    t := Go(job, s, Reader(true));
    t := Go(job, t, Reader(true));
  }

  // The writer has written the block in the slot.
  function Eaten(s: State): State {
    s.(log := s.log + Slot(s), written := s.written + s.size, out := Append(s.out, Slot(s)), size := 0)
  }

  ghost predicate CanEat(job: Job, s: State) {
    && s.w.WHead? && !s.r.Blocked? && !Flagged(s) && !s.freed && s.size > 0 && s.written < Total(job)
    && s.data < |s.bufs| && s.size <= |s.bufs[s.data]| && (job.cfg.usb || s.out.cur.Some?)
  }

  lemma EatStep(job: Job, s: State)
    requires CanEat(job, s)
    ensures Apply(job, s, Writer(true, [])) == Some(Eaten(s).(w := if job.cfg.atomicWake then WHead else WSignal))
    ensures Apply(job, Eaten(s).(w := WSignal), Writer(true, [])) == Some(Eaten(s))
  {
  }

  // The writer writes the block and keeps its wake-up back.
  lemma EatQuietly(job: Job, s: State) returns (t: State)
    requires CleanlyReachable(job, s) && CanEat(job, s) && !job.cfg.atomicWake
    ensures CleanlyReachable(job, t) && t == Eaten(s).(w := WSignal)
  {
    EatStep(job, s);
    t := Go(job, s, Writer(true, []));
  }

  lemma Eat(job: Job, s: State) returns (t: State)
    requires CleanlyReachable(job, s) && CanEat(job, s)
    ensures CleanlyReachable(job, t) && t == Eaten(s)
  {
    EatStep(job, s);
    t := Go(job, s, Writer(true, []));
    if !job.cfg.atomicWake { t := Go(job, t, Writer(true, [])); }
  }

  // -------------------------------------------------------------------------------------------
  // Several actions

  // What the actions from j to k make of an output.
  function Effects(job: Job, j: nat, k: nat, o: Output): Output
    requires k <= |job.prog|
  {
    if k <= j then o else Effect(job.cfg, Effects(job, j, k - 1, o), job.prog[k - 1])
  }

  lemma {:induction false} AfterEffects(job: Job, j: nat, k: nat)
    requires j <= k <= |job.prog|
    ensures After(job, k) == Effects(job, j, k, After(job, j))
  {
    if j < k { AfterEffects(job, j, k - 1); }
  }

  // Files that are neither current nor opened again keep what they hold.
  lemma {:induction false} EffectsKeep(job: Job, j: nat, k: nat, o: Output, f: nat)
    requires j <= k <= |job.prog| && f in o.files && o.cur != Some(f)
    requires forall i :: j <= i < k ==> job.prog[i] != Open(f)
    ensures var p := Effects(job, j, k, o); f in p.files && p.files[f] == o.files[f] && p.cur != Some(f)
  {
    if j < k { EffectsKeep(job, j, k - 1, o, f); }
  }

  lemma {:induction false} NoChunkBetween(job: Job, i: nat, k: nat)
    requires i <= k <= |job.prog| && LastChunk(job, k) < i
    ensures LastChunk(job, k) == LastChunk(job, i) && DataTo(job, i) == DataTo(job, k)
    ensures Passed(job, i) <= Passed(job, k) && Chunks(job, i) == Chunks(job, k)
  {
    if i < k { NoChunkBetween(job, i, k - 1); }
  }

  // Only the position, the output and the reader's view of its buffers have changed.
  ghost predicate Moved(s: State, t: State) {
    t == s.(ip := t.ip, out := t.out, buf1 := t.buf1, buf2 := t.buf2, frames := t.frames)
  }

  lemma ExecutedMoves(job: Job, s: State)
    requires s.ip < |job.prog| && !job.prog[s.ip].Chunk? && !Flagged(s)
    requires job.prog[s.ip].Leave? ==> s.frames != [] && job.cfg.closes
    ensures var t := Executed(job, s);
            Moved(s, t) && t.ip == s.ip + 1 && t.out == Effect(job.cfg, s.out, job.prog[s.ip])
  {
    var t := Executed(job, s);
    if job.prog[s.ip].Enter? || job.prog[s.ip].Leave? {
      MovedBy(s, s.ip + 1, t.out, t.buf1, t.buf2, t.frames);
    } else {
      MovedBy(s, s.ip + 1, Effect(job.cfg, s.out, job.prog[s.ip]), s.buf1, s.buf2, s.frames);
    }
  }

  lemma MovedBy(s: State, ip: nat, out: Output, buf1: nat, buf2: nat, frames: seq<(nat, nat)>)
    ensures Moved(s, s.(ip := ip, out := out, buf1 := buf1, buf2 := buf2, frames := frames))
  {
  }

  lemma MovedTwice(s: State, t: State, u: State)
    requires Moved(s, t) && Moved(t, u)
    ensures Moved(s, u)
  {
  }

  ghost predicate CanDrift(job: Job, s: State, k: nat) {
    && s.ip <= k <= |job.prog| && LastChunk(job, k) < s.ip && s.r.Run? && !s.w.WSleepy? && !Flagged(s)
    && (s.size > 0 ==> Passed(job, k) == Passed(job, s.ip))
    && (s.size == 0 && job.cfg.usb ==> s.written == |DataTo(job, s.ip)|)
    && (job.cfg.early ==> s.written < Total(job))
  }

  ghost predicate Drifted(job: Job, s: State, t: State, k: nat) {
    Moved(s, t) && t.ip == k <= |job.prog| && t.out == Effects(job, s.ip, k, s.out)
  }

  lemma DriftsOn(job: Job, s: State, t: State)
    requires WellFormed(job) && s.ip <= t.ip < |job.prog| && CanDrift(job, s, t.ip + 1)
    requires Drifted(job, s, t, t.ip) && Shape(job, t)
    ensures Free(job, t) && Drifted(job, s, Executed(job, t), t.ip + 1)
  {
    NoChunkBetween(job, s.ip, t.ip);
    NoChunkBetween(job, s.ip, t.ip + 1);
    assert ActionOk(job, t.ip);
    ExecutedMoves(job, t);
    MovedTwice(s, t, Executed(job, t));
  }

  lemma DriftsBefore(job: Job, s: State, k: nat)
    requires s.ip < k && CanDrift(job, s, k)
    ensures CanDrift(job, s, k - 1)
  {
    NoChunkBetween(job, s.ip, k - 1);
    NoChunkBetween(job, s.ip, k);
  }

  // The reader executes the actions up to k, while the writer stays where it is.
  lemma {:induction false} Drift(job: Job, s: State, k: nat) returns (t: State)
    requires WellFormed(job) && CleanlyReachable(job, s) && CanDrift(job, s, k)
    ensures CleanlyReachable(job, t) && Drifted(job, s, t, k)
    decreases k
  {
    if s.ip == k {
      t := s;
    } else {
      DriftsBefore(job, s, k);
      t := Drift(job, s, k - 1);
      Knows(job, t);
      DriftsOn(job, s, t);
      t := Execute(job, t);
    }
  }

  // Both threads are between two blocks.
  ghost predicate Calm(job: Job, s: State) {
    s.ip <= |job.prog| && s.r.Run? && s.w.WHead? && s.size == 0 && !Flagged(s) && !s.skipped
  }

  ghost predicate CanTurn(job: Job, s: State) {
    && Calm(job, s) && s.ip < |job.prog| && (job.cfg.early ==> s.written < Total(job))
    && (job.prog[s.ip].Open? && job.cfg.usb ==> s.written == |DataTo(job, s.ip)|)
  }

  // The threads have taken turns from one calm state to another.
  ghost predicate Turned(job: Job, s: State, t: State) {
    && Calm(job, s) && Calm(job, t) && s.ip <= t.ip
    && t.out == Effects(job, s.ip, t.ip, s.out)
    && t.written + |DataTo(job, s.ip)| == s.written + |DataTo(job, t.ip)|
    && (s.log == DataTo(job, s.ip) ==> t.log == DataTo(job, t.ip))
  }

  lemma TurnedTwice(job: Job, s: State, t: State, u: State)
    requires Turned(job, s, t) && Turned(job, t, u) && u.ip == t.ip + 1
    ensures Turned(job, s, u)
  {
    assert Effects(job, t.ip, u.ip, t.out) == Effect(job.cfg, t.out, job.prog[t.ip]);
  }

  lemma ExecutedTurned(job: Job, s: State)
    requires CanTurn(job, s) && !job.prog[s.ip].Chunk? && (job.prog[s.ip].Leave? ==> s.frames != [] && job.cfg.closes)
    ensures Free(job, s) && Turned(job, s, Executed(job, s)) && Executed(job, s).ip == s.ip + 1
  {
    ExecutedMoves(job, s);
    assert Effects(job, s.ip, s.ip + 1, s.out) == Effect(job.cfg, s.out, job.prog[s.ip]);
  }

  lemma FedTurned(job: Job, s: State)
    requires WellFormed(job) && CanTurn(job, s) && Inv(job, s) && job.prog[s.ip].Chunk?
    ensures CanFeed(job, s) && CanEat(job, Fed(job, s)) && Turned(job, s, Eaten(Fed(job, s)))
    ensures Eaten(Fed(job, s)).ip == s.ip + 1
  {
    assert ActionOk(job, s.ip);
    MoreToWrite(job, s.ip);
    assert Slot(Fed(job, s)) == job.prog[s.ip].data;
    assert Effects(job, s.ip, s.ip + 1, s.out) == Effect(job.cfg, s.out, job.prog[s.ip]);
  }

  // One action, and the block it publishes written at once.
  lemma Turn(job: Job, s: State) returns (t: State)
    requires WellFormed(job) && CleanlyReachable(job, s) && CanTurn(job, s)
    ensures CleanlyReachable(job, t) && Turned(job, s, t) && t.ip == s.ip + 1
  {
    Knows(job, s);
    if job.prog[s.ip].Chunk? {
      FedTurned(job, s);
      t := Feed(job, s);
      t := Eat(job, t);
    } else {
      assert ActionOk(job, s.ip);
      ExecutedTurned(job, s);
      t := Execute(job, s);
    }
  }

  lemma MoreToWrite(job: Job, k: nat)
    requires WellFormed(job) && k < |job.prog| && job.prog[k].Chunk?
    ensures |DataTo(job, k)| < |DataTo(job, k + 1)| <= Total(job)
  {
    assert ActionOk(job, k);
    DataBounded(job, k + 1);
  }

  ghost predicate CanTurnTo(job: Job, s: State, k: nat) {
    && Calm(job, s) && s.ip <= k <= |job.prog|
    && (job.cfg.early && s.ip < k ==> s.written + |DataTo(job, k)| < Total(job) + |DataTo(job, s.ip)|)
    && (job.cfg.usb ==> s.written == |DataTo(job, s.ip)| || NoOpen(job, s.ip, k))
  }

  // No file is opened from j up to k.
  ghost predicate NoOpen(job: Job, j: nat, k: nat) {
    k <= |job.prog| && forall i :: j <= i < k ==> !job.prog[i].Open?
  }

  lemma TurnsOn(job: Job, s: State, t: State)
    requires Turned(job, s, t) && t.ip < |job.prog| && CanTurnTo(job, s, t.ip + 1)
    ensures CanTurn(job, t)
  {
    DataGrows(job, t.ip, t.ip + 1);
  }

  lemma TurnsBefore(job: Job, s: State, k: nat)
    requires s.ip < k && CanTurnTo(job, s, k)
    ensures CanTurnTo(job, s, k - 1)
  {
    DataGrows(job, k - 1, k);
  }

  lemma TurnedNowhere(job: Job, s: State)
    requires Calm(job, s)
    ensures Turned(job, s, s)
  {
  }

  lemma OneMoreTurn(job: Job, s: State, t: State) returns (u: State)
    requires WellFormed(job) && CleanlyReachable(job, t)
    requires Turned(job, s, t) && t.ip < |job.prog| && CanTurnTo(job, s, t.ip + 1)
    ensures CleanlyReachable(job, u) && Turned(job, s, u) && u.ip == t.ip + 1
  {
    TurnsOn(job, s, t);
    u := Turn(job, t);
    TurnedTwice(job, s, t, u);
  }

  // The threads take turns up to position k.
  lemma {:induction false} TakeTurns(job: Job, s: State, k: nat) returns (t: State)
    requires WellFormed(job) && CleanlyReachable(job, s) && CanTurnTo(job, s, k)
    ensures CleanlyReachable(job, t) && Turned(job, s, t) && t.ip == k
    decreases k
  {
    if s.ip == k {
      t := s;
      TurnedNowhere(job, s);
    } else {
      TurnsBefore(job, s, k);
      var u := TakeTurns(job, s, k - 1);
      t := OneMoreTurn(job, s, u);
    }
  }

  // The reader is at k, and everything before has been written.
  ghost predicate UpTo(job: Job, s: State, k: nat) {
    Calm(job, s) && s.ip == k && s.out == After(job, k) && s.log == DataTo(job, k) && s.written == |DataTo(job, k)|
  }

  lemma Sequential(job: Job, k: nat) returns (s: State)
    requires WellFormed(job) && k <= |job.prog| && Total(job) > 0
    requires job.cfg.early && k > 0 ==> |DataTo(job, k)| < Total(job)
    ensures CleanlyReachable(job, s) && UpTo(job, s, k)
  {
    s := Started(job);
    s := TakeTurns(job, s, k);
    AfterEffects(job, 0, k);
  }

  // -------------------------------------------------------------------------------------------
  // An overtaken block

  // The reader is at `a`, and the block before it, which is not the first one, in the slot.
  ghost predicate Trails(job: Job, s: State, a: nat) {
    && Overtakes(job, a) && s.ip == a && !Flagged(s) && !s.skipped
    && s.size > 0 && Slot(s) == job.prog[LastChunk(job, a)].data && s.size == |Slot(s)|
    && s.data < |s.bufs| && s.size <= |s.bufs[s.data]|
    && s.log == DataTo(job, LastChunk(job, a)) && s.written == |s.log| < Total(job)
    && s.out == Effects(job, LastChunk(job, a) + 1, a, After(job, LastChunk(job, a)))
    && After(job, a) == Effects(job, LastChunk(job, a) + 1, a, Append(After(job, LastChunk(job, a)), Slot(s)))
  }

  lemma BlockBefore(job: Job, a: nat)
    requires WellFormed(job) && Overtakes(job, a)
    ensures var c := LastChunk(job, a);
            c > 0 && Chunks(job, c) > 0 && 0 <= LastChunk(job, c) < c && |DataTo(job, c)| < Total(job)
  {
    LastChunkEnds(job, a);
    MoreToWrite(job, LastChunk(job, a));
  }

  // The writer owes the wake-up for a block it has written; the reader is at the next one.
  ghost predicate Owes(job: Job, s: State, c: nat) {
    && s.ip == c < |job.prog| && s.r.Run? && s.w.WSignal? && s.size == 0 && !Flagged(s) && !s.skipped
    && s.log == DataTo(job, c) && s.written == |s.log| && s.out == After(job, c)
  }

  // Block b has just been written.
  ghost predicate Wrote(job: Job, s: State, b: nat) {
    && s.ip == b + 1 <= |job.prog| && s.r.Run? && s.w.WSignal? && s.size == 0 && !Flagged(s) && !s.skipped
    && s.log == DataTo(job, b + 1) && s.written == |s.log| && s.out == After(job, b + 1)
  }

  lemma EatenWrote(job: Job, s: State, b: nat)
    requires WellFormed(job) && UpTo(job, s, b) && Inv(job, s) && b < |job.prog| && job.prog[b].Chunk?
    ensures CanFeed(job, s) && CanEat(job, Fed(job, s)) && Wrote(job, Eaten(Fed(job, s)).(w := WSignal), b)
  {
    assert ActionOk(job, b);
    MoreToWrite(job, b);
    assert Slot(Fed(job, s)) == job.prog[b].data;
  }

  lemma WroteDrifts(job: Job, s: State, b: nat, c: nat)
    requires WellFormed(job) && Wrote(job, s, b) && b < c < |job.prog| && job.prog[c].Chunk? && LastChunk(job, c) == b
    ensures CanDrift(job, s, c)
    ensures forall t :: Drifted(job, s, t, c) ==> Owes(job, t, c)
  {
    MoreToWrite(job, c);
    NoChunkBetween(job, b + 1, c);
    AfterEffects(job, b + 1, c);
  }

  lemma OneOwed(job: Job, b: nat, c: nat) returns (s: State)
    requires WellFormed(job) && !job.cfg.atomicWake && b < c < |job.prog|
    requires job.prog[b].Chunk? && job.prog[c].Chunk? && LastChunk(job, c) == b
    ensures CleanlyReachable(job, s) && Owes(job, s, c)
  {
    MoreToWrite(job, b);
    s := Sequential(job, b);
    Knows(job, s);
    EatenWrote(job, s, b);
    s := Feed(job, s);
    s := EatQuietly(job, s);
    WroteDrifts(job, s, b, c);
    s := Drift(job, s, c);
  }

  // Block c has just been published, and the wake-up for the one before is owed.
  ghost predicate OneAhead(job: Job, s: State, c: nat) {
    && s.ip == c + 1 <= |job.prog| && job.prog[c].Chunk? && s.r.Run? && s.w.WSignal? && !Flagged(s) && !s.skipped
    && s.size > 0 && Slot(s) == job.prog[c].data && s.size == |Slot(s)|
    && s.data < |s.bufs| && s.size <= |s.bufs[s.data]|
    && s.log == DataTo(job, c) && s.written == |s.log| && s.out == After(job, c)
  }

  lemma FedAhead(job: Job, s: State, c: nat)
    requires WellFormed(job) && Owes(job, s, c) && job.prog[c].Chunk? && Inv(job, s)
    ensures CanFeed(job, s) && OneAhead(job, Fed(job, s), c)
  {
    assert ActionOk(job, c);
    assert Slot(Fed(job, s)) == job.prog[c].data;
  }

  lemma AheadDrifts(job: Job, s: State, a: nat)
    requires WellFormed(job) && Overtakes(job, a) && OneAhead(job, s, LastChunk(job, a))
    ensures CanDrift(job, s, a)
  {
    var c := LastChunk(job, a);
    MoreToWrite(job, c);
    assert Passed(job, c + 1) == 0;
  }

  lemma DriftedTrails(job: Job, s: State, t: State, a: nat)
    requires WellFormed(job) && Overtakes(job, a) && OneAhead(job, s, LastChunk(job, a)) && Drifted(job, s, t, a)
    ensures Trails(job, t, a) && t.r.Run? && t.w.WSignal?
  {
    var c := LastChunk(job, a);
    MoreToWrite(job, c);
    AfterEffects(job, c + 1, a);
    assert After(job, c + 1) == Append(After(job, c), Slot(s));
    assert Slot(t) == Slot(s);
  }

  // The reader comes to `a` while the wake-up for the block before the one in the slot is owed.
  lemma Trailing(job: Job, a: nat) returns (s: State)
    requires WellFormed(job) && !job.cfg.atomicWake && Overtakes(job, a)
    ensures CleanlyReachable(job, s) && Trails(job, s, a) && s.r.Run? && s.w.WSignal?
  {
    BlockBefore(job, a);
    var c := LastChunk(job, a);
    s := OneOwed(job, LastChunk(job, c), c);
    Knows(job, s);
    FedAhead(job, s, c);
    var fed := Feed(job, s);
    AheadDrifts(job, fed, a);
    s := Drift(job, fed, a);
    DriftedTrails(job, fed, s, a);
  }

  lemma BlockSteps(job: Job, s: State)
    requires s.r.Run? && (s.w.WSignal? || s.w.WDone?) && !Flagged(s) && s.size > 0 && s.ip < |job.prog|
    requires Waits(job.cfg, job.prog[s.ip]) && (job.cfg.early ==> s.written < Total(job)) && s.buf1 < |s.bufs|
    ensures var t := s.(r := Ready, bufs := if job.prog[s.ip].Chunk? then s.bufs[s.buf1 := job.prog[s.ip].data] else s.bufs);
            && Apply(job, s, Reader(true)) == Some(t)
            && Apply(job, t, Reader(true)) == Some(t.(r := Blocked))
            && (s.w.WSignal? ==>
                  Apply(job, t.(r := Blocked), Writer(true, [])) == Some(t.(r := Resume, w := WHead)))
  {
  }

  // The overdue wake-up ends the wait.
  lemma Overtaking(job: Job, a: nat) returns (s: State)
    requires WellFormed(job) && !Safe(job.cfg) && Overtakes(job, a)
    ensures CleanlyReachable(job, s) && Trails(job, s, a) && s.r.Resume? && s.w.WHead?
    ensures job.prog[a].Chunk? ==> s.buf1 < |s.bufs| && s.bufs[s.buf1] == job.prog[a].data
  {
    s := Trailing(job, a);
    Knows(job, s);
    if job.prog[a].Chunk? { ChunkLeft(job, a); }
    BlockSteps(job, s);
    var t := s;
    s := Go(job, s, Reader(true));
    s := Go(job, s, Reader(true));
    s := Go(job, s, Writer(true, []));
    assert Slot(s) == Slot(t);
  }

  // A wait can be overtaken exactly when it is the first one behind a block other than the first
  // block, and the code neither wakes inside the critical section nor tests its guards again.
  lemma OvertakenIff(job: Job, a: nat)
    requires WellFormed(job)
    ensures (exists s :: Reachable(job, s) && Overtaken(job, s, a)) <==> !Safe(job.cfg) && Overtakes(job, a)
  {
    if !Safe(job.cfg) && Overtakes(job, a) {
      var s := Overtaking(job, a);
      var steps := CleanlyMeansReachable(job, s);
      assert Overtaken(job, s, a);
    } else {
      forall s | Reachable(job, s)
        ensures !Overtaken(job, s, a)
      {
        if Overtaken(job, s, a) { OnlyOvertaken(job, s); }
      }
    }
  }

  // The reader is past the wait.
  lemma Overtook(job: Job, a: nat) returns (s: State, t: State)
    requires WellFormed(job) && !Safe(job.cfg) && Overtakes(job, a) && !(job.prog[a].Open? && job.cfg.usb)
    ensures CleanlyReachable(job, t) && Trails(job, s, a)
    ensures if job.prog[a].Chunk? then
              && s.buf1 < |s.bufs| && t == Fed(job, s).(r := Signal, w := WHead)
            else t == Executed(job, s).(r := Run, w := WHead)
  {
    s := Overtaking(job, a);
    t := Go(job, s, Reader(true));
    if job.prog[a].Chunk? { assert s.bufs[s.buf1 := job.prog[a].data] == s.bufs; }
  }
}
