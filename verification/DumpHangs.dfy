// Extracted and recursive dumps that can hang although nothing fails, by their files.

module DumpHangs {
  import opened Bytes
  import opened Pipeline
  import opened PipelinePrograms
  import opened PipelineLiveness
  import opened PipelineRuns
  import opened PipelineHangs
  import opened DumpReaders
  import opened DumpResults
  import opened DumpTrees

  // A file right before the final wait.
  ghost predicate EndsInFile(job: Job, k: nat, chunks: seq<Action>) {
    && WellFormed(job) && job.cfg.closes && FileAt(job, k, FinalWait(job), chunks)
  }

  lemma LastOfFile(job: Job, k: nat, chunks: seq<Action>)
    requires EndsInFile(job, k, chunks) && chunks != []
    ensures LastChunk(job, |job.prog|) == k + 1 + |chunks| && Passed(job, FinalWait(job)) == 0
    ensures job.prog[k + |chunks|].Chunk? <==> |chunks| > 1
  {
    var f := FinalWait(job);
    FinalWaitDrains(job);
    BlockOfFile(job, k, f, chunks, |chunks| - 1);
    if |chunks| > 1 { BlockOfFile(job, k, f, chunks, |chunks| - 2); }
    assert LastChunk(job, f - 1) == f - 2 && LastChunk(job, f) == f - 2;
    assert LastChunk(job, f + 1) == f - 2;
  }

  lemma EmptyLastFile(job: Job, k: nat)
    requires EndsInFile(job, k, [])
    ensures Passed(job, FinalWait(job)) > 0
  {
    var f := FinalWait(job);
    assert f == k + 3;
    assert Passed(job, k + 1) == Passed(job, k) + if job.cfg.usb then 0 else 1;
    assert Passed(job, k + 2) == Passed(job, k) + 1;
    assert Passed(job, k + 3) == Passed(job, k) + 1;
  }

  // Two blocks in the last file, and no others.
  lemma OnlyPairIff(job: Job, k: nat, chunks: seq<Action>)
    requires EndsInFile(job, k, chunks)
    ensures OnlyPair(job) <==> Chunks(job, |job.prog|) == 2 && |chunks| == 2
  {
    FinalWaitDrains(job);
    if chunks == [] {
      EmptyLastFile(job, k);
    } else {
      LastOfFile(job, k, chunks);
      CountAt(job, k + 2, chunks);
      CountOnly(chunks);
      assert Chunks(job, k + 2) == Chunks(job, k + 1) == Chunks(job, k);
      ChunksGrow(job, k + 2 + |chunks|, |job.prog|);
      if |chunks| == 1 { assert !job.prog[k + 1].Chunk?; }
    }
  }

  lemma {:induction false} CountOnly(chunks: seq<Action>)
    requires OnlyChunks(chunks)
    ensures Count(chunks) == |chunks|
  {
    if chunks != [] { CountOnly(chunks[1..]); }
  }

  // The file that is opened last.
  ghost predicate OpenedLast(job: Job, k: nat, m: nat, chunks: seq<Action>) {
    && FileAt(job, k, m, chunks)
    && (forall i :: m <= i < |job.prog| ==> !job.prog[i].Open? && !job.prog[i].Chunk?)
  }

  // Only a block of that file has no file opened behind it.
  lemma LosesAtEndIff(job: Job, k: nat, m: nat, chunks: seq<Action>)
    requires OpenedLast(job, k, m, chunks) && job.cfg.usb
    ensures LosesAtEnd(job) <==> |chunks| >= 2 && Chunks(job, |job.prog|) >= 3
  {
    BlocksBehind(job, k, m, chunks);
    assert Passed(job, k + 2) == Passed(job, k + 1) + 1;
    if LosesAtEnd(job) {
      var a: nat :| Overtakes(job, a) && job.prog[a].Chunk? && NoOpen(job, a, |job.prog|);
      assert a > k + 1;
      BlocksOfFile(job, k, m, chunks, a);
      BlockOfFile(job, k, m, chunks, a - k - 2);
    }
    if |chunks| >= 2 && Chunks(job, |job.prog|) >= 3 {
      BlockOfFile(job, k, m, chunks, |chunks| - 1);
      BlockOfFile(job, k, m, chunks, |chunks| - 2);
      assert Overtakes(job, k + 1 + |chunks|);
      NothingOpened(job, k, m, chunks);
    }
  }

  lemma {:induction false} NoChunksFrom(job: Job, m: nat, n: nat)
    requires m <= n <= |job.prog| && forall i :: m <= i < n ==> !job.prog[i].Chunk?
    ensures Chunks(job, n) == Chunks(job, m)
  {
    if m < n { NoChunksFrom(job, m, n - 1); }
  }

  lemma BlocksBehind(job: Job, k: nat, m: nat, chunks: seq<Action>)
    requires OpenedLast(job, k, m, chunks)
    ensures Chunks(job, |job.prog|) == Chunks(job, k) + |chunks|
  {
    NoChunksFrom(job, m, |job.prog|);
    CountAt(job, k + 2, chunks);
    CountOnly(chunks);
    assert Chunks(job, k + 2) == Chunks(job, k + 1) == Chunks(job, k);
    assert Chunks(job, m) == Chunks(job, m - 1);
  }

  lemma NothingOpened(job: Job, k: nat, m: nat, chunks: seq<Action>)
    requires OpenedLast(job, k, m, chunks) && chunks != []
    ensures NoOpen(job, k + 1 + |chunks|, |job.prog|)
  {
    BlockOfFile(job, k, m, chunks, |chunks| - 1);
  }

  // The data of the last file of a tree, in the order of the dump.
  function LastData(entries: seq<Node>): Option<seq<byte>>
    decreases entries
  {
    if entries == [] then None
    else
      var n := |entries| - 1;
      match entries[n]
      case File(_, data) => Some(data)
      case Dir(inner) => if LastData(inner).Some? then LastData(inner) else LastData(entries[..n])
  }

  // The end of a segment: the last file in it, or none.
  ghost predicate Tail(job: Job, k: nat, e: nat, last: Option<seq<byte>>, blockSize: nat)
    requires blockSize > 0
  {
    && k <= e <= |job.prog|
    && match last
       case None => NoFiles(job, k, e)
       case Some(data) => exists p: nat :: k <= p < e && FileFrom(job, p, e, data, blockSize)
  }

  ghost predicate NoFiles(job: Job, k: nat, e: nat) {
    e <= |job.prog| && forall i :: k <= i < e ==> !job.prog[i].Open? && !job.prog[i].Chunk?
  }

  ghost predicate FileFrom(job: Job, p: nat, e: nat, data: seq<byte>, blockSize: nat)
    requires blockSize > 0
  {
    var chunks := ChunkActions(Blocks(data, blockSize));
    var m := p + 3 + |chunks|;
    m <= e && FileAt(job, p, m, chunks) && NoFiles(job, m, e)
  }

  lemma TailLonger(job: Job, k: nat, e: nat, f: nat, last: Option<seq<byte>>, blockSize: nat)
    requires blockSize > 0 && Tail(job, k, e, last, blockSize) && e <= f <= |job.prog| && NoFiles(job, e, f)
    ensures Tail(job, k, f, last, blockSize)
  {
    if last.Some? {
      var p: nat :| k <= p < e && FileFrom(job, p, e, last.value, blockSize);
      assert FileFrom(job, p, f, last.value, blockSize);
    }
  }

  lemma TailEarlier(job: Job, j: nat, k: nat, e: nat, data: seq<byte>, blockSize: nat)
    requires blockSize > 0 && j <= k && Tail(job, k, e, Some(data), blockSize)
    ensures Tail(job, j, e, Some(data), blockSize)
  {
    var p: nat :| k <= p < e && FileFrom(job, p, e, data, blockSize);
    assert FileFrom(job, p, e, data, blockSize);
  }

  lemma TailOfFile(job: Job, j: nat, k: nat, e: nat, id: nat, data: seq<byte>, blockSize: nat)
    requires blockSize > 0 && j <= k && At(job, k, NodeProgram(File(id, data), blockSize))
    requires e == k + |NodeProgram(File(id, data), blockSize)|
    ensures Tail(job, j, e, Some(data), blockSize)
  {
    var chunks := ChunkActions(Blocks(data, blockSize));
    FileIsAt(job, k, e, id, chunks);
    assert FileFrom(job, k, e, data, blockSize);
  }

  lemma {:induction false} TailOf(job: Job, k: nat, e: nat, entries: seq<Node>, blockSize: nat)
    requires blockSize > 0 && At(job, k, Entries(entries, blockSize)) && e == k + |Entries(entries, blockSize)|
    ensures Tail(job, k, e, LastData(entries), blockSize)
    decreases entries, 0
  {
    if entries != [] {
      var n := |entries| - 1;
      var front := Entries(entries[..n], blockSize);
      var m := k + |front|;
      LastNodeProgram(entries, blockSize);
      AtSplit(job, k, front, NodeProgram(entries[n], blockSize));
      match entries[n]
      case File(id, data) => TailOfFile(job, k, m, e, id, data, blockSize);
      case Dir(inner) =>
        TailOfDir(job, m, e, inner, blockSize);
        if LastData(inner).Some? {
          TailEarlier(job, k, m, e, LastData(inner).value, blockSize);
        } else {
          TailOf(job, k, m, entries[..n], blockSize);
          TailLonger(job, k, m, e, LastData(entries[..n]), blockSize);
        }
    }
  }

  lemma TailOfDir(job: Job, k: nat, e: nat, inner: seq<Node>, blockSize: nat)
    requires blockSize > 0 && At(job, k, NodeProgram(Dir(inner), blockSize))
    requires e == k + |NodeProgram(Dir(inner), blockSize)|
    ensures Tail(job, k, e, LastData(inner), blockSize)
    decreases inner, 1
  {
    var body := Entries(inner, blockSize);
    DirIsAt(job, k, body);
    TailOf(job, k + 2, k + 2 + |body|, inner, blockSize);
    TailLonger(job, k + 2, k + 2 + |body|, e, LastData(inner), blockSize);
    if LastData(inner).Some? { TailEarlier(job, k, k + 2, e, LastData(inner).value, blockSize); }
  }

  lemma LastNodeProgram(entries: seq<Node>, blockSize: nat)
    requires blockSize > 0 && entries != []
    ensures var n := |entries| - 1;
            Entries(entries, blockSize) == Entries(entries[..n], blockSize) + NodeProgram(entries[n], blockSize)
  {
    var n := |entries| - 1;
    assert entries == entries[..n] + [entries[n]];
    EntriesBoth(entries[..n], [entries[n]], blockSize);
    assert [entries[n]][1..] == [];
    assert Entries([entries[n]], blockSize) == NodeProgram(entries[n], blockSize) + [];
  }

  // -------------------------------------------------------------------------------------------
  // Main results

  // Of the files of an extracted dump.
  predicate FilesHang(cfg: Config, files: seq<seq<byte>>, blockSize: nat)
    requires blockSize > 0
  {
    var total := FileBlocks(files, blockSize);
    var last := if files == [] then 0 else |Blocks(files[|files| - 1], blockSize)|;
    !Safe(cfg) && (if cfg.usb then last >= 2 && total >= 3 else total >= 2 && !(total == 2 && last == 2))
  }

  lemma ExtractedEnds(cfg: Config, files: seq<seq<byte>>, blockSize: nat) returns (k: nat, chunks: seq<Action>)
    requires blockSize > 0 && cfg.closes && files != []
    ensures var job := ExtractedJob(cfg, files, blockSize);
            EndsInFile(job, k, chunks) && |chunks| == |Blocks(files[|files| - 1], blockSize)|
  {
    var job := ExtractedJob(cfg, files, blockSize);
    var m := |files| - 1;
    var body := FilesProgram(files, blockSize);
    ExtractedWellFormed(cfg, files, blockSize);
    AtBody(job, body, [Drain]);
    assert job.prog[|body|] == [Drain][0];
    LastFileProgram(files, blockSize);
    var front := FilesProgram(files[..m], blockSize);
    AtSplit(job, 0, front, NodeProgram(File(m, files[m]), blockSize));
    k, chunks := |front|, ChunkActions(Blocks(files[m], blockSize));
    FileEnds(job, k, |body|, m, chunks);
  }

  lemma FileEnds(job: Job, k: nat, f: nat, id: nat, chunks: seq<Action>)
    requires WellFormed(job) && job.cfg.closes && FinalWait(job) == f && OnlyChunks(chunks)
    requires At(job, k, [Close, Open(id)] + chunks + [Check]) && f == k + |[Close, Open(id)] + chunks + [Check]|
    ensures EndsInFile(job, k, chunks)
  {
    FileIsAt(job, k, f, id, chunks);
  }

  // An extracted dump in which nothing fails can hang exactly when: as written, to files, it has two
  // blocks or more, unless the two are all of its last file; over USB, it has three or more, two of
  // them in its last file.
  lemma ExtractedHangsIff(cfg: Config, files: seq<seq<byte>>, blockSize: nat)
    requires blockSize > 0 && cfg.closes
    ensures var job := ExtractedJob(cfg, files, blockSize);
            (exists s :: Reachable(job, s) && Stuck(job, s) && !Flagged(s)) <==> FilesHang(cfg, files, blockSize)
  {
    var job := ExtractedJob(cfg, files, blockSize);
    ExtractedWellFormed(cfg, files, blockSize);
    ExtractedBlocks(cfg, files, blockSize);
    CleanRunHangsIff(job);
    if files == [] {
      NoBlocksNoLoss(job);
    } else {
      var k, chunks := ExtractedEnds(cfg, files, blockSize);
      OnlyPairIff(job, k, chunks);
      if cfg.usb {
        FinalWaitDrains(job);
        LosesAtEndIff(job, k, FinalWait(job), chunks);
      }
    }
  }

  lemma NoBlocksNoLoss(job: Job)
    requires Chunks(job, |job.prog|) == 0
    ensures !LosesAtEnd(job)
  {
    forall a: nat
      ensures !Overtakes(job, a)
    {
      if a < |job.prog| { ChunksGrow(job, a, |job.prog|); }
    }
  }

  // Two blocks, and both in the file that ends the dump.
  predicate EndsInPair(entries: seq<Node>, blockSize: nat)
    requires blockSize > 0
  {
    && EntriesBlocks(entries, blockSize) == 2 && entries != []
    && (var last := entries[|entries| - 1]; last.File? && |Blocks(last.data, blockSize)| == 2)
  }

  lemma RecursivePairIff(cfg: Config, entries: seq<Node>, blockSize: nat)
    requires blockSize > 0 && cfg.closes && !cfg.early
    ensures OnlyPair(RecursiveJob(cfg, entries, blockSize)) <==> EndsInPair(entries, blockSize)
  {
    var job := RecursiveJob(cfg, entries, blockSize);
    var body := Entries(entries, blockSize);
    RecursiveWellFormed(cfg, entries, blockSize);
    EnterDid(job, body);
    if entries == [] {
    } else {
      var n := |entries| - 1;
      var last := entries[n];
      var front := Entries(entries[..n], blockSize);
      LastNodeProgram(entries, blockSize);
      AtSplit(job, 1, front, NodeProgram(last, blockSize));
      if last.File? {
        var chunks := ChunkActions(Blocks(last.data, blockSize));
        FileIsAt(job, 1 + |front|, FinalWait(job), last.id, chunks);
        OnlyPairIff(job, 1 + |front|, chunks);
      } else {
        DirIsAt(job, 1 + |front|, Entries(last.entries, blockSize));
        BehindCall(job, FinalWait(job));
      }
    }
  }

  lemma RecursiveLosesAtEndIff(cfg: Config, entries: seq<Node>, blockSize: nat)
    requires blockSize > 0 && cfg.closes && !cfg.early && cfg.usb
    ensures LosesAtEnd(RecursiveJob(cfg, entries, blockSize)) <==>
              && LastData(entries).Some? && |Blocks(LastData(entries).value, blockSize)| >= 2
              && EntriesBlocks(entries, blockSize) >= 3
  {
    var job := RecursiveJob(cfg, entries, blockSize);
    var body := Entries(entries, blockSize);
    var n := |job.prog|;
    RecursiveWellFormed(cfg, entries, blockSize);
    EnterDid(job, body);
    TailOf(job, 1, 1 + |body|, entries, blockSize);
    AtTwo(job, n - 2, Drain, Leave);
    OneAction(job, n - 2, Drain);
    OneAction(job, n - 1, Leave);
    TailLonger(job, 1, n - 2, n, LastData(entries), blockSize);
    TailLoses(job, LastData(entries), blockSize);
  }

  lemma TailLoses(job: Job, last: Option<seq<byte>>, blockSize: nat)
    requires blockSize > 0 && Tail(job, 1, |job.prog|, last, blockSize) && job.cfg.usb
    requires |job.prog| > 0 && !job.prog[0].Chunk?
    ensures LosesAtEnd(job) <==>
              last.Some? && |Blocks(last.value, blockSize)| >= 2 && Chunks(job, |job.prog|) >= 3
  {
    var n := |job.prog|;
    if last.Some? {
      var p: nat :| 1 <= p < n && FileFrom(job, p, n, last.value, blockSize);
      var chunks := ChunkActions(Blocks(last.value, blockSize));
      LosesAtEndIff(job, p, p + 3 + |chunks|, chunks);
    }
  }

  // A recursive dump in which nothing fails can hang exactly when: as written, to files, it has two
  // blocks or more, unless the two are all of the file that ends it; over USB, it has three or more,
  // two of them in the file that is opened last.
  lemma RecursiveHangsIff(cfg: Config, entries: seq<Node>, blockSize: nat)
    requires blockSize > 0 && cfg.closes && !cfg.early
    ensures var job := RecursiveJob(cfg, entries, blockSize);
            (exists s :: Reachable(job, s) && Stuck(job, s) && !Flagged(s)) <==>
              && !Safe(cfg)
              && (if cfg.usb then
                    && LastData(entries).Some? && |Blocks(LastData(entries).value, blockSize)| >= 2
                    && EntriesBlocks(entries, blockSize) >= 3
                  else EntriesBlocks(entries, blockSize) >= 2 && !EndsInPair(entries, blockSize))
  {
    RecursiveWellFormed(cfg, entries, blockSize);
    RecursivePairIff(cfg, entries, blockSize);
    CleanRunHangsIff(RecursiveJob(cfg, entries, blockSize));
    if cfg.usb { RecursiveLosesAtEndIff(cfg, entries, blockSize); }
  }
}
