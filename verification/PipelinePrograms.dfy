// Facts about reader programs that no schedule enters: how much they publish, where they wait, and
// which of their waits a wake-up that is overdue can end too early.

module PipelinePrograms {
  import opened Bytes
  import opened Pipeline

  // -------------------------------------------------------------------------------------------
  // Published data

  lemma {:induction false} DataGrows(job: Job, j: nat, k: nat)
    requires j <= k <= |job.prog|
    ensures DataTo(job, j) <= DataTo(job, k)
  {
    if j < k {
      DataGrows(job, j, k - 1);
    }
  }

  lemma DataBounded(job: Job, k: nat)
    requires k <= |job.prog|
    ensures DataTo(job, k) <= DataTo(job, |job.prog|)
    ensures |DataTo(job, k)| <= Total(job)
  {
    DataGrows(job, k, |job.prog|);
  }

  // The number of blocks published by the first k actions.
  function Chunks(job: Job, k: nat): (c: nat)
    requires k <= |job.prog|
    ensures c <= k
  {
    if k == 0 then 0 else Chunks(job, k - 1) + (if job.prog[k - 1].Chunk? then 1 else 0)
  }

  lemma {:induction false} ChunksGrow(job: Job, j: nat, k: nat)
    requires j <= k <= |job.prog|
    ensures Chunks(job, j) <= Chunks(job, k)
  {
    if j < k {
      ChunksGrow(job, j, k - 1);
    }
  }

  // The last block published by the first k actions, or -1.
  function LastChunk(job: Job, k: nat): (j: int)
    requires k <= |job.prog|
    ensures -1 <= j < k
    ensures j >= 0 ==> job.prog[j].Chunk?
    ensures j >= 0 <==> Chunks(job, k) > 0
  {
    if k == 0 then -1 else if job.prog[k - 1].Chunk? then k - 1 else LastChunk(job, k - 1)
  }

  lemma {:induction false} LastChunkEnds(job: Job, k: nat)
    requires k <= |job.prog| && LastChunk(job, k) >= 0
    ensures DataTo(job, k) == DataTo(job, LastChunk(job, k)) + job.prog[LastChunk(job, k)].data
    ensures Chunks(job, k) == Chunks(job, LastChunk(job, k)) + 1
  {
    if !job.prog[k - 1].Chunk? {
      LastChunkEnds(job, k - 1);
    }
  }

  lemma {:induction false} NothingMore(job: Job, j: nat, k: nat)
    requires WellFormed(job) && j <= k <= |job.prog|
    ensures DataTo(job, j) == DataTo(job, k) <==> Chunks(job, j) == Chunks(job, k)
    ensures |DataTo(job, j)| == |DataTo(job, k)| <==> Chunks(job, j) == Chunks(job, k)
  {
    DataGrows(job, j, k);
    if j < k {
      NothingMore(job, j, k - 1);
      DataGrows(job, j, k - 1);
      ChunksGrow(job, j, k - 1);
      assert ActionOk(job, k - 1);
    }
  }

  // -------------------------------------------------------------------------------------------
  // Output files

  // The current output file exists whenever there is one.
  lemma {:induction false} CurExists(job: Job, k: nat)
    requires WellFormed(job) && k <= |job.prog|
    ensures var a := After(job, k); a.cur.Some? ==> a.cur.value in a.files
  {
    if k > 0 {
      CurExists(job, k - 1);
    }
  }

  lemma {:induction false} FlatDepth(job: Job, k: nat)
    requires WellFormed(job) && job.cfg.early && k <= |job.prog|
    ensures Depth(job, k) == 0
  {
    if k > 0 {
      FlatDepth(job, k - 1);
    }
  }

  // Which files a flat program has opened so far.
  lemma {:induction false} OpenedBy(job: Job, k: nat, f: nat)
    requires WellFormed(job) && job.cfg.early && k <= |job.prog|
    ensures f in After(job, k).files ==>
              exists j :: 0 <= j < k && job.prog[j] == Open(f)
  {
    if k > 0 {
      OpenedBy(job, k - 1, f);
      CurExists(job, k - 1);
      if f in After(job, k).files
         && f !in After(job, k - 1).files {
        assert job.prog[k - 1] == Open(f);
      }
    }
  }

  // `mine` holds every non-empty file of `full`, with the same bytes, and no other file.
  ghost predicate CoversNonEmpty(mine: map<nat, seq<byte>>, full: map<nat, seq<byte>>) {
    && (forall f :: f in full && full[f] != [] ==> f in mine)
    && (forall f :: f in mine ==> f in full && mine[f] == full[f])
  }

  // When nothing is left to publish, the rest of a flat program only opens empty files.
  lemma {:induction false} RestIsEmpty(job: Job, j: nat, k: nat)
    requires WellFormed(job) && job.cfg.early && j <= k <= |job.prog|
    requires DataTo(job, j) == DataTo(job, k)
    ensures CoversNonEmpty(After(job, j).files,
                           After(job, k).files)
  {
    if j < k {
      DataGrows(job, j, k - 1);
      assert ActionOk(job, k - 1);
      RestIsEmpty(job, j, k - 1);
      if job.prog[k - 1].Open? {
        OpenedBy(job, k - 1, job.prog[k - 1].file);
      }
    }
  }

  lemma AppendNothing(o: Output)
    ensures Append(o, []) == o
  {
    if o.cur.Some? && o.cur.value in o.files {
      assert o.files[o.cur.value] + [] == o.files[o.cur.value];
    }
  }

  lemma AppendTwice(o: Output, a: seq<byte>, b: seq<byte>)
    ensures Append(Append(o, a), b) == Append(o, a + b)
  {
    if o.cur.Some? && o.cur.value in o.files {
      assert (o.files[o.cur.value] + a) + b == o.files[o.cur.value] + (a + b);
    }
  }

  // -------------------------------------------------------------------------------------------
  // Waits

  predicate Waits(cfg: Config, a: Action) {
    a.Chunk? || a.Drain? || (a.Close? && !cfg.usb) || (a.Open? && cfg.usb)
  }

  // The number of waits between the last block published by the first k actions and position k.
  function Passed(job: Job, k: nat): nat
    requires k <= |job.prog|
  {
    if k == 0 || job.prog[k - 1].Chunk? then 0
    else Passed(job, k - 1) + (if Waits(job.cfg, job.prog[k - 1]) then 1 else 0)
  }

  // The number of returns from recursive calls since that block.
  function Left(job: Job, k: nat): nat
    requires k <= |job.prog|
  {
    if k == 0 || job.prog[k - 1].Chunk? then 0
    else Left(job, k - 1) + (if job.prog[k - 1].Leave? then 1 else 0)
  }

  // Every call drains before it returns.
  lemma {:induction false} LeftPassed(job: Job, k: nat)
    requires WellFormed(job) && k <= |job.prog| && Left(job, k) > 0
    ensures Passed(job, k) > 0
  {
    assert ActionOk(job, k - 1);
    if !job.prog[k - 1].Leave? { LeftPassed(job, k - 1); }
  }

  // A block is never read behind a return and one more wait.
  lemma ChunkLeft(job: Job, k: nat)
    requires WellFormed(job) && k < |job.prog| && job.prog[k].Chunk? && Passed(job, k) <= 1
    ensures Left(job, k) == 0
  {
    assert ActionOk(job, k);
    if k > 0 && job.prog[k - 1].Open? && Left(job, k) > 0 {
      assert ActionOk(job, k - 1);
      assert Left(job, k - 1) > 0 && Left(job, k - 2) > 0;
      LeftPassed(job, k - 2);
    }
  }

  // Until the first wait behind a block, the file of the block stays the current one.
  lemma {:induction false} StillOpen(job: Job, k: nat)
    requires WellFormed(job) && k <= |job.prog| && Chunks(job, k) > 0 && Passed(job, k) == 0
    ensures After(job, k).cur.Some?
  {
    assert ActionOk(job, k - 1);
    if !job.prog[k - 1].Chunk? { StillOpen(job, k - 1); }
  }

  lemma {:induction false} PlainNeverPasses(job: Job, k: nat)
    requires Plain(job) && k <= |job.prog|
    ensures Passed(job, k) == 0 && Chunks(job, k) == k
  {
    if k > 0 { PlainNeverPasses(job, k - 1); }
  }

  // The last wait of a reader that drains.
  function FinalWait(job: Job): nat {
    var n := |job.prog|;
    if n > 1 && job.prog[n - 1].Leave? then n - 2 else if n > 0 then n - 1 else 0
  }

  lemma FinalWaitDrains(job: Job)
    requires WellFormed(job) && job.cfg.closes
    ensures var n, f := |job.prog|, FinalWait(job);
            && f < n && job.prog[f].Drain? && Passed(job, n) == Passed(job, f) + 1
            && Chunks(job, n) == Chunks(job, f)
  {
    assert ActionOk(job, |job.prog| - 1);
  }

  // -------------------------------------------------------------------------------------------
  // Waits that can end too early

  // The first wait behind a block other than the first one. While the reader sleeps there, the
  // wake-up for the block before may still be under way.
  predicate Overtakes(job: Job, a: nat) {
    a < |job.prog| && Waits(job.cfg, job.prog[a]) && Passed(job, a) == 0 && Chunks(job, a) >= 2
  }

  // No block is published over one that has not been written.
  ghost predicate NoLoss(job: Job) {
    Safe(job.cfg) || forall a: nat :: Overtakes(job, a) ==> !job.prog[a].Chunk?
  }

  // The synchronisation is safe, or there are too few blocks for an overdue wake-up to matter.
  predicate Guarded(job: Job) {
    Safe(job.cfg) || Chunks(job, |job.prog|) <= if job.cfg.closes then 1 else 2
  }

  lemma GuardedNeverOvertakes(job: Job, a: nat)
    requires WellFormed(job) && Guarded(job) && Overtakes(job, a)
    ensures Safe(job.cfg)
  {
    ChunksGrow(job, a, |job.prog|);
    if !job.cfg.closes {
      ChunksGrow(job, a + 1, |job.prog|);
    }
  }

  lemma GuardedNoLoss(job: Job)
    requires WellFormed(job) && Guarded(job)
    ensures NoLoss(job)
  {
    forall a: nat | Overtakes(job, a)
      ensures !Safe(job.cfg) ==> !job.prog[a].Chunk?
    {
      GuardedNeverOvertakes(job, a);
    }
  }

  // A drain at which a block that cannot be written may be waited for: the block was published
  // right before it, or an overdue wake-up has led past one wait into another file.
  predicate Strands(job: Job, a: nat) {
    && a < |job.prog| && job.prog[a].Drain? && Chunks(job, a) > 0
    && (|| Passed(job, a) == 0
        || (!job.cfg.usb && !Safe(job.cfg) && Passed(job, a) == 1 && Chunks(job, a) >= 2
            && After(job, a).cur.Some?))
  }

  ghost predicate CanStrand(job: Job) {
    exists a: nat :: Strands(job, a)
  }
}
