// What the extracted and the recursive readers promise, and when: the results about pipeline
// programs, in terms of the files and directories that are dumped.

module DumpResults {
  import opened Bytes
  import opened Pipeline
  import opened PipelinePrograms
  import opened PipelineLiveness
  import opened PipelineSuccess
  import opened PipelineRuns
  import opened PipelineHazards
  import opened PipelineLies
  import opened DumpReaders

  // -------------------------------------------------------------------------------------------
  // Counting blocks and files

  function Count(seg: seq<Action>): nat {
    if seg == [] then 0 else (if seg[0].Chunk? then 1 else 0) + Count(seg[1..])
  }

  lemma {:induction false} CountBoth(a: seq<Action>, b: seq<Action>)
    ensures Count(a + b) == Count(a) + Count(b)
  {
    if a == [] {
      assert a + b == b;
    } else {
      assert (a + b)[1..] == a[1..] + b;
      CountBoth(a[1..], b);
    }
  }

  lemma {:induction false} CountChunks(blocks: seq<seq<byte>>)
    ensures Count(ChunkActions(blocks)) == |blocks|
  {
    if blocks != [] {
      assert ChunkActions(blocks)[1..] == ChunkActions(blocks[1..]);
      CountChunks(blocks[1..]);
    }
  }

  lemma {:induction false} CountAt(job: Job, k: nat, seg: seq<Action>)
    requires At(job, k, seg)
    ensures Chunks(job, k + |seg|) == Chunks(job, k) + Count(seg)
    decreases |seg|
  {
    if seg != [] {
      assert seg == [seg[0]] + seg[1..];
      AtSplit(job, k, [seg[0]], seg[1..]);
      CountAt(job, k + 1, seg[1..]);
      assert job.prog[k] == seg[0];
    }
  }

  function NodeBlocks(node: Node, blockSize: nat): nat
    requires blockSize > 0
    decreases node, 1
  {
    match node
    case File(_, data) => |Blocks(data, blockSize)|
    case Dir(entries) => EntriesBlocks(entries, blockSize)
  }

  // The number of blocks in which entries are dumped.
  function EntriesBlocks(entries: seq<Node>, blockSize: nat): nat
    requires blockSize > 0
    decreases entries, 0
  {
    if entries == [] then 0 else NodeBlocks(entries[0], blockSize) + EntriesBlocks(entries[1..], blockSize)
  }

  lemma {:induction false} NodeCount(node: Node, blockSize: nat)
    requires blockSize > 0
    ensures Count(NodeProgram(node, blockSize)) == NodeBlocks(node, blockSize)
    decreases node, 1
  {
    match node
    case File(id, data) =>
      var chunks := ChunkActions(Blocks(data, blockSize));
      CountChunks(Blocks(data, blockSize));
      CountBoth([Close, Open(id)] + chunks, [Check]);
      CountBoth([Close, Open(id)], chunks);
    case Dir(entries) =>
      var inner := Entries(entries, blockSize);
      EntriesCount(entries, blockSize);
      CountBoth([Close, Enter] + inner, [Drain, Leave]);
      CountBoth([Close, Enter], inner);
  }

  lemma {:induction false} EntriesCount(entries: seq<Node>, blockSize: nat)
    requires blockSize > 0
    ensures Count(Entries(entries, blockSize)) == EntriesBlocks(entries, blockSize)
    decreases entries, 0
  {
    if entries != [] {
      NodeCount(entries[0], blockSize);
      EntriesCount(entries[1..], blockSize);
      CountBoth(NodeProgram(entries[0], blockSize), Entries(entries[1..], blockSize));
    }
  }

  // -------------------------------------------------------------------------------------------
  // Extracted file systems

  // The entries of a file system image, identified by their position.
  function FileNodes(files: seq<seq<byte>>, base: nat): (n: seq<Node>)
    ensures |n| == |files|
  {
    if files == [] then [] else [File(base, files[0])] + FileNodes(files[1..], base + 1)
  }

  function ExtractedJob(cfg: Config, files: seq<seq<byte>>, blockSize: nat): Job
    requires blockSize > 0
  {
    Job(cfg, Entries(FileNodes(files, 0), blockSize) + [Drain], Output(None, map[]))
  }

  // Entry i goes to file i.
  function FileTable(files: seq<seq<byte>>): map<nat, seq<byte>> {
    map i: nat | i < |files| :: files[i]
  }

  lemma {:induction false} FileNodesHold(files: seq<seq<byte>>, base: nat)
    ensures EntriesData(FileNodes(files, base)) == Concat(files)
    ensures forall f :: f in EntriesFiles(FileNodes(files, base)) ==> base <= f < base + |files|
    decreases |files|
  {
    if files != [] {
      FileNodesHold(files[1..], base + 1);
      assert FileNodes(files, base)[1..] == FileNodes(files[1..], base + 1);
    }
  }

  lemma {:induction false} FileNodeAt(files: seq<seq<byte>>, base: nat, i: nat)
    requires i < |files|
    ensures base + i in EntriesFiles(FileNodes(files, base))
    ensures EntriesFiles(FileNodes(files, base))[base + i] == files[i]
    decreases i
  {
    assert FileNodes(files, base)[1..] == FileNodes(files[1..], base + 1);
    if i > 0 {
      FileNodeAt(files[1..], base + 1, i - 1);
    } else {
      FileNodesHold(files[1..], base + 1);
    }
  }

  lemma FileNodesTable(files: seq<seq<byte>>)
    ensures EntriesFiles(FileNodes(files, 0)) == FileTable(files)
  {
    FileNodesHold(files, 0);
    var m := EntriesFiles(FileNodes(files, 0));
    forall i: nat | i < |files|
      ensures i in m && m[i] == files[i]
    {
      FileNodeAt(files, 0, i);
    }
  }

  // Files are opened in increasing order, each right after the previous one has been closed.
  ghost predicate Increasing(prog: seq<Action>, lo: nat) {
    && (forall i :: 0 <= i < |prog| && prog[i].Open? ==> lo <= prog[i].file)
    && (forall i, j :: 0 <= i < j < |prog| && prog[i].Open? && prog[j].Open? ==> prog[i].file < prog[j].file)
    && (forall i :: 0 <= i < |prog| ==> !prog[i].Enter? && !prog[i].Leave? && !prog[i].Drain?)
    && (forall i :: 0 <= i < |prog| && prog[i].Close? ==> i + 1 < |prog| && prog[i + 1].Open?)
  }

  lemma {:induction false} FilesOpenInOrder(files: seq<seq<byte>>, base: nat, blockSize: nat)
    requires blockSize > 0
    ensures Increasing(Entries(FileNodes(files, base), blockSize), base)
    decreases |files|
  {
    if files != [] {
      FilesOpenInOrder(files[1..], base + 1, blockSize);
      assert FileNodes(files, base)[1..] == FileNodes(files[1..], base + 1);
      var first := [Close, Open(base)] + ChunkActions(Blocks(files[0], blockSize)) + [Check];
      var rest := Entries(FileNodes(files[1..], base + 1), blockSize);
      assert forall i :: 0 <= i < |first| && first[i].Open? ==> first[i].file == base && i == 1;
      assert forall i :: 0 <= i < |first| && first[i].Close? ==> i == 0;
      assert Entries(FileNodes(files, base), blockSize) == first + rest;
    }
  }

  lemma ExtractedShape(cfg: Config, files: seq<seq<byte>>, blockSize: nat)
    requires blockSize > 0
    ensures var job := ExtractedJob(cfg, files, blockSize);
            && EarlyOk(job) && DistinctFiles(job)
            && (forall k :: 0 <= k < |job.prog| - 1 ==> !job.prog[k].Drain?)
            && (forall k :: 0 <= k < |job.prog| - 1 && job.prog[k].Close? ==> job.prog[k + 1].Open?)
  {
    FilesOpenInOrder(files, 0, blockSize);
    var body := Entries(FileNodes(files, 0), blockSize);
    assert forall i :: 0 <= i < |body| ==> ExtractedJob(cfg, files, blockSize).prog[i] == body[i];
  }

  lemma AtBody(job: Job, body: seq<Action>, tail: seq<Action>)
    requires job.prog == body + tail
    ensures At(job, 0, body) && At(job, |body|, tail)
  {
    assert At(job, 0, body + tail);
    AtSplit(job, 0, body, tail);
  }

  lemma ExtractedWellFormed(cfg: Config, files: seq<seq<byte>>, blockSize: nat)
    requires blockSize > 0 && cfg.closes
    ensures var job := ExtractedJob(cfg, files, blockSize);
            && WellFormed(job)
            && DataTo(job, |job.prog|) == Concat(files)
            && After(job, |job.prog|).files == FileTable(files)
  {
    var job := ExtractedJob(cfg, files, blockSize);
    var body := Entries(FileNodes(files, 0), blockSize);
    AtBody(job, body, [Drain]);
    EntriesDo(job, 0, FileNodes(files, 0), blockSize);
    OneAction(job, |body|, Drain);
    FileNodesHold(files, 0);
    FileNodesTable(files);
    ExtractedTable(job, files);
    ExtractedShape(cfg, files, blockSize);
  }

  lemma ExtractedTable(job: Job, files: seq<seq<byte>>)
    requires job.start.files == map[]
    ensures After(job, 0).files + FileTable(files) == FileTable(files)
  {
  }

  // The number of blocks of an extracted dump.
  function FileBlocks(files: seq<seq<byte>>, blockSize: nat): nat
    requires blockSize > 0
  {
    if files == [] then 0 else |Blocks(files[0], blockSize)| + FileBlocks(files[1..], blockSize)
  }

  lemma {:induction false} FileNodesBlocks(files: seq<seq<byte>>, base: nat, blockSize: nat)
    requires blockSize > 0
    ensures EntriesBlocks(FileNodes(files, base), blockSize) == FileBlocks(files, blockSize)
    decreases |files|
  {
    if files != [] {
      FileNodesBlocks(files[1..], base + 1, blockSize);
      assert FileNodes(files, base)[1..] == FileNodes(files[1..], base + 1);
    }
  }

  lemma ExtractedBlocks(cfg: Config, files: seq<seq<byte>>, blockSize: nat)
    requires blockSize > 0
    ensures var job := ExtractedJob(cfg, files, blockSize);
            && Chunks(job, |job.prog|) == FileBlocks(files, blockSize)
            && |job.prog| > 0 && Chunks(job, |job.prog| - 1) == FileBlocks(files, blockSize)
  {
    var job := ExtractedJob(cfg, files, blockSize);
    var body := Entries(FileNodes(files, 0), blockSize);
    AtBody(job, body, [Drain]);
    CountAt(job, 0, body);
    EntriesCount(FileNodes(files, 0), blockSize);
    FileNodesBlocks(files, 0, blockSize);
    assert job.prog[|body|] == [Drain][0];
  }

  // -------------------------------------------------------------------------------------------
  // How an extracted dump ends

  lemma {:induction false} EntriesBoth(a: seq<Node>, b: seq<Node>, blockSize: nat)
    requires blockSize > 0
    ensures Entries(a + b, blockSize) == Entries(a, blockSize) + Entries(b, blockSize)
    decreases |a|
  {
    if a == [] {
      assert a + b == b;
    } else {
      assert (a + b)[1..] == a[1..] + b;
      EntriesBoth(a[1..], b, blockSize);
      Associative(NodeProgram(a[0], blockSize), Entries(a[1..], blockSize), Entries(b, blockSize));
    }
  }

  lemma {:induction false} FileNodesLast(files: seq<seq<byte>>, base: nat)
    requires files != []
    ensures var m := |files| - 1;
            FileNodes(files, base) == FileNodes(files[..m], base) + [File(base + m, files[m])]
    decreases |files|
  {
    var m := |files| - 1;
    if m > 0 {
      FileNodesLast(files[1..], base + 1);
      assert files[1..][..m - 1] == files[..m][1..];
    }
  }

  function FilesProgram(files: seq<seq<byte>>, blockSize: nat): seq<Action>
    requires blockSize > 0
  {
    Entries(FileNodes(files, 0), blockSize)
  }

  lemma LastFileProgram(files: seq<seq<byte>>, blockSize: nat)
    requires blockSize > 0 && files != []
    ensures var m := |files| - 1;
            FilesProgram(files, blockSize) == FilesProgram(files[..m], blockSize) + NodeProgram(File(m, files[m]), blockSize)
  {
    var m := |files| - 1;
    var last := File(m, files[m]);
    FileNodesLast(files, 0);
    EntriesBoth(FileNodes(files[..m], 0), [last], blockSize);
    assert Entries([last][1..], blockSize) == [];
    assert Entries([last], blockSize) == NodeProgram(last, blockSize) + [];
  }

  // Where the reader is behind its last file.
  lemma BehindLastFile(job: Job, files: seq<seq<byte>>, blockSize: nat)
    requires blockSize > 0 && files != [] && At(job, 0, FilesProgram(files, blockSize))
    ensures var m, e := |files| - 1, |FilesProgram(files, blockSize)|;
            if files[m] != [] then
              Passed(job, e) == 0 && Chunks(job, e) > 0
            else
              var k := |FilesProgram(files[..m], blockSize)|;
              && e == k + 3 && At(job, 0, FilesProgram(files[..m], blockSize))
              && Passed(job, e) == Passed(job, k) + 1 && Chunks(job, e) == Chunks(job, k)
              && After(job, e).cur.Some?
  {
    var m := |files| - 1;
    var before := FilesProgram(files[..m], blockSize);
    LastFileProgram(files, blockSize);
    AtSplit(job, 0, before, NodeProgram(File(m, files[m]), blockSize));
    if files[m] != [] {
      EndsInChunk(job, |before|, m, ChunkActions(Blocks(files[m], blockSize)));
    } else {
      EndsInEmptyFile(job, |before|, m);
    }
  }

  lemma EndsInChunk(job: Job, k: nat, id: nat, chunks: seq<Action>)
    requires At(job, k, [Close, Open(id)] + chunks + [Check]) && chunks != [] && chunks[|chunks| - 1].Chunk?
    ensures var e := k + |[Close, Open(id)] + chunks + [Check]|; Passed(job, e) == 0 && Chunks(job, e) > 0
  {
    var e := k + 2 + |chunks|;
    AtThree(job, k, k + 2, e, [Close, Open(id)], chunks, [Check]);
    assert job.prog[e] == [Check][0];
    assert job.prog[e - 1] == chunks[|chunks| - 1];
    assert Passed(job, e) == 0;
  }

  lemma EndsInEmptyFile(job: Job, k: nat, id: nat)
    requires At(job, k, NodeProgram(File(id, []), 1))
    ensures k + 3 <= |job.prog| && |NodeProgram(File(id, []), 1)| == 3
    ensures Passed(job, k + 3) == Passed(job, k) + 1 && Chunks(job, k + 3) == Chunks(job, k)
    ensures After(job, k + 3).cur.Some?
  {
    var p := [Close, Open(id)] + [] + [Check];
    assert NodeProgram(File(id, []), 1) == p;
    assert p[0] == Close && p[1] == Open(id) && p[2] == Check;
    assert job.prog[k] == Close && job.prog[k + 1] == Open(id) && job.prog[k + 2] == Check;
    assert Passed(job, k + 1) == Passed(job, k) + if job.cfg.usb then 0 else 1;
    assert Passed(job, k + 2) == Passed(job, k) + 1;
    assert Chunks(job, k + 1) == Chunks(job, k) && Chunks(job, k + 2) == Chunks(job, k);
  }

  // -------------------------------------------------------------------------------------------
  // Main results about extracted dumps

  // Under the code's own synchronisation at most one block is safe; over USB any number is, when
  // the last file is empty.
  predicate ExtractedSound(cfg: Config, files: seq<seq<byte>>, blockSize: nat)
    requires blockSize > 0
  {
    || Safe(cfg) || FileBlocks(files, blockSize) <= 1
    || (cfg.usb && files != [] && files[|files| - 1] == [])
  }

  lemma ExtractedFinalWait(cfg: Config, files: seq<seq<byte>>, blockSize: nat)
    requires blockSize > 0 && FileBlocks(files, blockSize) > 0
    ensures var job := ExtractedJob(cfg, files, blockSize);
            FinalWait(job) == |job.prog| - 1
            && (Passed(job, |job.prog| - 1) == 0 <==> files[|files| - 1] != [])
  {
    var job := ExtractedJob(cfg, files, blockSize);
    AtBody(job, FilesProgram(files, blockSize), [Drain]);
    assert job.prog[|job.prog| - 1] == [Drain][0];
    BehindLastFile(job, files, blockSize);
  }

  lemma ExtractedIsSoundIff(cfg: Config, files: seq<seq<byte>>, blockSize: nat)
    requires blockSize > 0 && cfg.closes
    ensures Sound(ExtractedJob(cfg, files, blockSize)) <==> ExtractedSound(cfg, files, blockSize)
  {
    var job := ExtractedJob(cfg, files, blockSize);
    var n := |job.prog|;
    ExtractedWellFormed(cfg, files, blockSize);
    ExtractedBlocks(cfg, files, blockSize);
    ExtractedShape(cfg, files, blockSize);
    if FileBlocks(files, blockSize) <= 1 || Safe(cfg) {
      GuardedIsSound(job);
    } else {
      ExtractedFinalWait(cfg, files, blockSize);
      if !cfg.usb {
        var a := TwoBlocksOvertake(job);
        LastFromHere(job, a);
        assert Fatal(job, a);
      } else if files[|files| - 1] != [] {
        assert Overtakes(job, n - 1) && Fatal(job, n - 1);
      }
    }
  }

  // A successful extracted dump has written every byte of every entry, each entry into its own
  // file; the RomFS reader, which stops once all bytes are written, may only skip empty files.
  lemma ExtractedDumpIsFaithful(cfg: Config, files: seq<seq<byte>>, blockSize: nat, s: State)
    requires blockSize > 0 && cfg.closes && ExtractedSound(cfg, files, blockSize)
    requires Reachable(ExtractedJob(cfg, files, blockSize), s) && ReportsSuccess(s)
    ensures s.written == |Concat(files)| && s.log == Concat(files)
    ensures !cfg.early ==> s.out.files == FileTable(files)
    ensures CoversNonEmpty(s.out.files, FileTable(files))
  {
    var job := ExtractedJob(cfg, files, blockSize);
    ExtractedWellFormed(cfg, files, blockSize);
    ExtractedIsSoundIff(cfg, files, blockSize);
    SuccessIsComplete(job, s);
  }

  // An extracted dump that is reported as successful has written something else.
  ghost predicate WrongFiles(files: seq<seq<byte>>, s: State) {
    ReportsSuccess(s) && (s.log != Concat(files) || !CoversNonEmpty(s.out.files, FileTable(files)))
  }

  // It can be exactly when the code wakes after unlocking, waits with `if`, and dumps two blocks or
  // more; over USB, when besides the last file is not empty.
  lemma ExtractedSuccessIsWrongIff(cfg: Config, files: seq<seq<byte>>, blockSize: nat)
    requires blockSize > 0 && cfg.closes
    ensures (exists s :: Reachable(ExtractedJob(cfg, files, blockSize), s) && WrongFiles(files, s))
       <==> !ExtractedSound(cfg, files, blockSize)
  {
    var job := ExtractedJob(cfg, files, blockSize);
    ExtractedWellFormed(cfg, files, blockSize);
    ExtractedShape(cfg, files, blockSize);
    ExtractedIsSoundIff(cfg, files, blockSize);
    SuccessLiesIff(job);
    forall s
      ensures Lies(job, s) <==> WrongFiles(files, s)
    {
    }
    if !ExtractedSound(cfg, files, blockSize) {
      var s :| Reachable(job, s) && Lies(job, s);
      assert WrongFiles(files, s);
    }
  }

  // One file of two blocks is enough: the dump ends in success with its second block missing.
  lemma TwoBlocksSufficeToLoseOne(d: seq<byte>, blockSize: nat)
    requires 0 < blockSize < |d| <= 2 * blockSize
    ensures exists s :: Reachable(ExtractedJob(AS_WRITTEN.(closes := true), [d], blockSize), s)
                        && ReportsSuccess(s) && s.written < |d|
  {
    var cfg := AS_WRITTEN.(closes := true);
    var job := ExtractedJob(cfg, [d], blockSize);
    ExtractedWellFormed(cfg, [d], blockSize);
    ExtractedBlocks(cfg, [d], blockSize);
    assert [d][1..] == [];
    assert FileBlocks([d], blockSize) == |Blocks(d, blockSize)| == 2;
    ConcatOne(d);
    ExtractedFinalWait(cfg, [d], blockSize);
    var s := EndsLeftBehind(job);
    s := LeavesBlockOut(job, s);
    var steps := CleanlyMeansReachable(job, s);
  }

  // For any list of file sizes, zeros included, that is not all empty (the reader refuses those), of
  // at most one block or under a safe synchronisation: a run without failures never gets stuck, ends
  // within a fixed number of steps, and ends in success.
  lemma ExtractedDumpFinishes(cfg: Config, files: seq<seq<byte>>, blockSize: nat, steps: seq<Step>)
    requires blockSize > 0 && cfg.closes && (Safe(cfg) || FileBlocks(files, blockSize) <= 1) && Concat(files) != []
    requires Clean(steps) && Exec(ExtractedJob(cfg, files, blockSize), steps).Some?
    ensures var job := ExtractedJob(cfg, files, blockSize);
            var s := Exec(job, steps).value;
            && |steps| <= Measure(job, Initial(job))
            && (if Finished(s) then ReportsSuccess(s) && s.log == Concat(files)
                else exists step :: CleanStep(step) && Apply(job, s, step).Some?)
  {
    var job := ExtractedJob(cfg, files, blockSize);
    ExtractedWellFormed(cfg, files, blockSize);
    ExtractedBlocks(cfg, files, blockSize);
    CleanRunsComplete(job, steps);
    var s := Exec(job, steps).value;
    if Finished(s) {
      assert Reachable(job, s);
      ExtractedDumpIsFaithful(cfg, files, blockSize, s);
    }
  }

  // Any other dump can go off its way to success with nothing failing.
  lemma ExtractedStaysOnTrackIff(cfg: Config, files: seq<seq<byte>>, blockSize: nat)
    requires blockSize > 0 && cfg.closes
    ensures var job := ExtractedJob(cfg, files, blockSize);
            (forall steps :: Clean(steps) && Exec(job, steps).Some? ==> !Derailed(job, Exec(job, steps).value))
            <==> Concat(files) != [] && (Safe(cfg) || FileBlocks(files, blockSize) <= 1)
  {
    ExtractedWellFormed(cfg, files, blockSize);
    ExtractedBlocks(cfg, files, blockSize);
    StaysOnTrackIff(ExtractedJob(cfg, files, blockSize));
  }

  // The last file is not empty; or an overdue wake-up can lead from the last but one into it.
  predicate EndsBehindBlock(cfg: Config, files: seq<seq<byte>>, blockSize: nat)
    requires blockSize > 0
  {
    var n := |files|;
    && n > 0
    && (|| files[n - 1] != []
        || (&& !cfg.usb && !Safe(cfg) && n > 1 && files[n - 2] != [] && FileBlocks(files, blockSize) >= 2))
  }

  lemma ExtractedCanStrandIff(cfg: Config, files: seq<seq<byte>>, blockSize: nat)
    requires blockSize > 0 && cfg.closes
    ensures CanStrand(ExtractedJob(cfg, files, blockSize)) <==> EndsBehindBlock(cfg, files, blockSize)
  {
    var job := ExtractedJob(cfg, files, blockSize);
    var n := |job.prog|;
    ExtractedShape(cfg, files, blockSize);
    ExtractedBlocks(cfg, files, blockSize);
    assert CanStrand(job) <==> Strands(job, n - 1);
    AtBody(job, FilesProgram(files, blockSize), [Drain]);
    assert job.prog[n - 1] == [Drain][0];
    if files != [] {
      BehindLastFile(job, files, blockSize);
      if files[|files| - 1] == [] { BehindLastButOne(job, files, blockSize); }
    }
  }

  lemma BehindLastButOne(job: Job, files: seq<seq<byte>>, blockSize: nat)
    requires blockSize > 0 && files != [] && files[|files| - 1] == [] && At(job, 0, FilesProgram(files, blockSize))
    ensures var e := |FilesProgram(files, blockSize)|;
            Passed(job, e) == 1 && Chunks(job, e) > 0 <==> |files| > 1 && files[|files| - 2] != []
  {
    var m := |files| - 1;
    BehindLastFile(job, files, blockSize);
    if m > 0 {
      BehindLastFile(job, files[..m], blockSize);
    } else {
      assert files[..m] == [];
    }
  }

  // After a failed write, and with nothing else failing, an extracted dump can hang exactly when
  // its last file is not empty, or an overdue wake-up can lead into it from the last but one.
  lemma ExtractedWriteErrorHangsIff(cfg: Config, files: seq<seq<byte>>, blockSize: nat)
    requires blockSize > 0 && cfg.closes
    ensures var job := ExtractedJob(cfg, files, blockSize);
            (exists s :: Reachable(job, s) && Stuck(job, s) && s.writeError && !s.readError && !s.cancelled)
            <==> EndsBehindBlock(cfg, files, blockSize)
  {
    ExtractedWellFormed(cfg, files, blockSize);
    ExtractedCanStrandIff(cfg, files, blockSize);
    WriteErrorHangsIff(ExtractedJob(cfg, files, blockSize));
  }

  // With only a cancellation, or only a read error, it can hang exactly when there is a byte to dump.
  lemma ExtractedStopHangsIff(cfg: Config, files: seq<seq<byte>>, blockSize: nat)
    requires blockSize > 0 && cfg.closes
    ensures var job := ExtractedJob(cfg, files, blockSize);
            && ((exists s :: Reachable(job, s) && Stuck(job, s) && s.cancelled && !s.readError && !s.writeError)
                <==> Concat(files) != [])
            && ((exists s :: Reachable(job, s) && Stuck(job, s) && s.readError && !s.writeError && !s.cancelled)
                <==> Concat(files) != [])
  {
    ExtractedWellFormed(cfg, files, blockSize);
    CancelHangsIff(ExtractedJob(cfg, files, blockSize));
    ReadErrorHangsIff(ExtractedJob(cfg, files, blockSize));
  }
}
