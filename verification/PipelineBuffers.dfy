// The reader's two buffers: which of them the next block goes into is a matter of the position in
// the program alone, and a recursive call leaves its caller's order as it was.

module PipelineBuffers {
  import opened Bytes
  import opened Pipeline
  import opened PipelinePrograms
  import opened PipelineSafety

  // The pairs of the calls that are under way, the innermost last: every block swaps it, and a call
  // works on a copy of its own.
  function Pairs(job: Job, k: nat): (p: seq<(nat, nat)>)
    requires k <= |job.prog|
    ensures p != []
  {
    if k == 0 then [(0, 1)]
    else
      var p := Pairs(job, k - 1);
      var top := p[|p| - 1];
      match job.prog[k - 1]
      case Chunk(_) => p[..|p| - 1] + [(top.1, top.0)]
      case Enter => p + [top]
      case Leave => if |p| > 1 then p[..|p| - 1] else p
      case _ => p
  }

  ghost predicate Paired(job: Job, s: State) {
    s.ip <= |job.prog| && (s.skipped || s.frames + [(s.buf1, s.buf2)] == Pairs(job, s.ip))
  }

  // The reader has gone past an action that does nothing with them.
  ghost predicate NextPair(s: State, t: State) {
    t.ip == s.ip + 1 && t.buf1 == s.buf1 && t.buf2 == s.buf2 && t.frames == s.frames && t.skipped == s.skipped
  }

  lemma PairKept(job: Job, s: State, t: State)
    requires Paired(job, s)
    requires t.ip == s.ip && t.buf1 == s.buf1 && t.buf2 == s.buf2 && t.frames == s.frames && t.skipped == s.skipped
    ensures Paired(job, t)
  {
  }

  lemma PassesPair(job: Job, s: State, t: State)
    requires Paired(job, s) && s.ip < |job.prog| && NextPair(s, t)
    requires !job.prog[s.ip].Chunk? && !job.prog[s.ip].Enter? && !job.prog[s.ip].Leave?
    ensures Paired(job, t)
  {
  }

  lemma CallPairs(job: Job, s: State)
    requires Paired(job, s) && s.ip < |job.prog|
    requires job.prog[s.ip].Enter? || (job.prog[s.ip].Leave? && s.frames != [])
    ensures Paired(job, Advance(job, s, true))
  {
    var t := Advance(job, s, true);
    if !s.skipped && job.prog[s.ip].Leave? {
      var p := Pairs(job, s.ip);
      assert p[..|p| - 1] == s.frames;
      var n := |s.frames| - 1;
      assert s.frames == s.frames[..n] + [(t.buf1, t.buf2)];
    }
  }

  lemma SwapPairs(job: Job, s: State, t: State)
    requires Paired(job, s) && s.ip < |job.prog| && job.prog[s.ip].Chunk?
    requires t.ip == s.ip + 1 && t.buf1 == s.buf2 && t.buf2 == s.buf1 && t.frames == s.frames && t.skipped == s.skipped
    ensures Paired(job, t)
  {
    if !s.skipped {
      var p := Pairs(job, s.ip);
      assert p[..|p| - 1] == s.frames;
    }
  }

  lemma ClosePairs(job: Job, s: State, ok: bool)
    requires Paired(job, s) && s.ip < |job.prog| && job.prog[s.ip].Close?
    ensures Paired(job, Advance(job, s, ok))
  {
    if job.cfg.early && s.written >= Total(job) { assert Advance(job, s, ok).skipped; }
    else if s.cancelled { PairKept(job, s, s.(r := Alarm)); }
    else if job.cfg.usb { PassesPair(job, s, s.(ip := s.ip + 1)); }
    else { PairKept(job, s, s.(r := Ready)); }
  }

  lemma OpenPairs(job: Job, s: State, ok: bool)
    requires Paired(job, s) && s.ip < |job.prog| && job.prog[s.ip].Open?
    ensures Paired(job, Advance(job, s, ok))
  {
    if !ok { PairKept(job, s, s.(readError := true, r := Alarm)); }
    else if job.cfg.usb { PairKept(job, s, s.(r := Ready)); }
    else { PassesPair(job, s, Advance(job, s, ok)); }
  }

  lemma TestPairs(job: Job, s: State, ok: bool)
    requires Paired(job, s) && s.ip < |job.prog| && (job.prog[s.ip].Check? || job.prog[s.ip].Drain?)
    ensures Paired(job, Advance(job, s, ok))
  {
    if Advance(job, s, ok).ip == s.ip + 1 { PassesPair(job, s, Advance(job, s, ok)); }
  }

  lemma ReadPairs(job: Job, s: State, ok: bool)
    requires Paired(job, s) && s.ip < |job.prog| && job.prog[s.ip].Chunk?
    ensures Paired(job, Advance(job, s, ok))
  {
  }

  lemma AdvancePairs(job: Job, s: State, ok: bool)
    requires WellFormed(job) && Inv(job, s) && Paired(job, s) && s.ip < |job.prog|
    ensures Paired(job, Advance(job, s, ok))
  {
    match job.prog[s.ip]
    case Close => ClosePairs(job, s, ok);
    case Open(_) => OpenPairs(job, s, ok);
    case Chunk(_) => ReadPairs(job, s, ok);
    case Enter => if ok { CallPairs(job, s); }
    case Leave => assert ActionOk(job, s.ip); CallPairs(job, s);
    case _ => TestPairs(job, s, ok);
  }

  lemma PublishPairs(job: Job, s: State, ok: bool)
    requires Paired(job, s) && s.ip < |job.prog| && job.prog[s.ip].Chunk?
    ensures Paired(job, Proceed(job, s, ok))
  {
    if !s.writeError { SwapPairs(job, s, Proceed(job, s, ok)); }
  }

  lemma ProceedPairs(job: Job, s: State, ok: bool)
    requires Paired(job, s) && s.ip < |job.prog| && Waits(job.cfg, job.prog[s.ip])
    ensures Paired(job, Proceed(job, s, ok))
  {
    if job.prog[s.ip].Chunk? { PublishPairs(job, s, ok); }
    else if Proceed(job, s, ok).ip != s.ip { PassesPair(job, s, Proceed(job, s, ok)); }
  }

  lemma ReaderPairs(job: Job, s: State, ok: bool)
    requires WellFormed(job) && Inv(job, s) && Paired(job, s) && ReaderStep(job, s, ok).Some?
    ensures Paired(job, ReaderStep(job, s, ok).value)
  {
    match s.r
    case Run => if s.ip < |job.prog| { AdvancePairs(job, s, ok); }
    case Ready => if !MustWait(job.prog[s.ip], s) { ProceedPairs(job, s, ok); }
    case Resume => if !(job.cfg.recheck && MustWait(job.prog[s.ip], s)) { ProceedPairs(job, s, ok); }
    case _ =>
  }

  lemma ActPairs(job: Job, s: State, ok: bool, junk: seq<byte>)
    requires Paired(job, s) && Act(job, s, ok, junk).Some?
    ensures Paired(job, Act(job, s, ok, junk).value)
  {
    PairKept(job, s, Act(job, s, ok, junk).value);
  }

  lemma WriterPairs(job: Job, s: State, ok: bool, junk: seq<byte>)
    requires Paired(job, s) && WriterStep(job, s, ok, junk).Some?
    ensures Paired(job, WriterStep(job, s, ok, junk).value)
  {
    match s.w
    case WHead =>
      if s.written >= Total(job) { PairKept(job, s, s.(w := WDone)); }
      else if s.size == 0 && !s.readError { PairKept(job, s, s.(w := WSleepy)); }
      else { ActPairs(job, s, ok, junk); }
    case WResume =>
      if job.cfg.recheck && s.size == 0 && !s.readError { PairKept(job, s, s.(w := WSleepy)); }
      else { ActPairs(job, s, ok, junk); }
    case WSleepy => PairKept(job, s, s.(w := WBlocked));
    case WSignal => PairKept(job, s, WriterStep(job, s, ok, junk).value);
    case _ =>
  }

  lemma {:induction false} ReachablePairs(job: Job, steps: seq<Step>)
    requires WellFormed(job) && Exec(job, steps).Some?
    ensures Paired(job, Exec(job, steps).value)
  {
    if steps != [] {
      var before, step := steps[..|steps| - 1], steps[|steps| - 1];
      ReachablePairs(job, before);
      ReachableInv(job, before);
      var s := Exec(job, before).value;
      match step
      case Reader(ok) => ReaderPairs(job, s, ok);
      case Writer(ok, junk) => WriterPairs(job, s, ok, junk);
      case _ =>
    }
  }

  // A call from j up to k: it is entered at j, and the action before k returns from it.
  ghost predicate Call(job: Job, j: nat, k: nat) {
    && j < k <= |job.prog| && job.prog[j].Enter? && job.prog[k - 1].Leave? && Depth(job, k) == Depth(job, j)
    && forall i {:trigger Depth(job, i)} :: j < i < k ==> Depth(job, i) > Depth(job, j)
  }

  // Inside a call, the pairs of the callers stay.
  lemma {:induction false} InsideCall(job: Job, j: nat, k: nat, i: nat)
    requires Call(job, j, k) && j < i < k
    ensures |Pairs(job, i)| == |Pairs(job, j)| + Depth(job, i) - Depth(job, j)
    ensures Pairs(job, i)[..|Pairs(job, j)|] == Pairs(job, j)
  {
    var n := |Pairs(job, j)|;
    if i > j + 1 {
      InsideCall(job, j, k, i - 1);
      assert Depth(job, i) > Depth(job, j);
    } else {
      assert Pairs(job, i) == Pairs(job, j) + [Pairs(job, j)[n - 1]];
    }
  }

  lemma CallRestoresPairs(job: Job, j: nat, k: nat)
    requires Call(job, j, k)
    ensures Pairs(job, k) == Pairs(job, j)
  {
    if k - 1 > j { InsideCall(job, j, k, k - 1); }
  }

  // In every run, when a recursive call returns, the next block goes into the buffer it would have
  // gone into at its start, however many blocks the call has read.
  lemma CallsKeepBuffers(job: Job, j: nat, k: nat, s: State, t: State)
    requires WellFormed(job) && Call(job, j, k)
    requires Reachable(job, s) && s.ip == j && !s.skipped && Reachable(job, t) && t.ip == k && !t.skipped
    ensures t.buf1 == s.buf1 && t.buf2 == s.buf2 && t.frames == s.frames
  {
    var before :| Exec(job, before) == Some(s);
    var after :| Exec(job, after) == Some(t);
    ReachablePairs(job, before);
    ReachablePairs(job, after);
    CallRestoresPairs(job, j, k);
    LastOfPairs(s.frames, (s.buf1, s.buf2), t.frames, (t.buf1, t.buf2));
  }

  lemma LastOfPairs(a: seq<(nat, nat)>, p: (nat, nat), b: seq<(nat, nat)>, q: (nat, nat))
    requires a + [p] == b + [q]
    ensures a == b && p == q
  {
    assert (a + [p])[..|a|] == a && (b + [q])[..|b|] == b;
    assert (a + [p])[|a|] == p && (b + [q])[|b|] == q;
  }
}
