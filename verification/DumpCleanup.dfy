// Which files a dump leaves on the storage device when its reader ends early, in terms of the files
// and directories that are dumped.

module DumpCleanup {
  import opened Bytes
  import opened Pipeline
  import opened PipelinePrograms
  import opened PipelineSafety
  import opened PipelineCleanup
  import opened DumpReaders
  import opened DumpResults
  import opened DumpTrees

  // -------------------------------------------------------------------------------------------
  // Where no file is open

  // From the action that opens a file up to the end of the file's segment, the file is open.
  lemma {:induction false} StaysOpen(job: Job, k: nat, m: nat, id: nat, chunks: seq<Action>)
    requires At(job, k, [Close, Open(id)] + chunks + [Check]) && (forall i :: 0 <= i < |chunks| ==> chunks[i].Chunk?)
    requires k + 2 <= m <= k + 3 + |chunks|
    ensures After(job, m).cur == Some(id)
  {
    FileAround(job, k, k + 2 + |chunks|, id, chunks);
    if m > k + 2 {
      StaysOpen(job, k, m - 1, id, chunks);
      if m - 1 < k + 2 + |chunks| { assert job.prog[k + 2 + (m - 3 - k)] == chunks[m - 3 - k]; }
    }
  }

  // Behind the first i files of an extracted dump, and the action that closes the last of them.
  ghost predicate Behind(job: Job, files: seq<seq<byte>>, k: nat, i: nat) {
    && i <= |files| && k <= |job.prog| && After(job, k).files == FileTable(files[..i])
    && (if k == 0 then i == 0 else i < |files| && job.prog[k - 1].Close?)
  }

  lemma FilesDo(job: Job, files: seq<seq<byte>>, blockSize: nat)
    requires blockSize > 0 && job.start == Output(None, map[]) && At(job, 0, FilesProgram(files, blockSize))
    ensures After(job, |FilesProgram(files, blockSize)|).files == FileTable(files)
    ensures DataTo(job, |FilesProgram(files, blockSize)|) == Concat(files)
  {
    EntriesDo(job, 0, FileNodes(files, 0), blockSize);
    FileNodesHold(files, 0);
    FileNodesTable(files);
    ExtractedTable(job, files);
  }

  lemma {:induction false} BehindWhole(job: Job, files: seq<seq<byte>>, blockSize: nat, k: nat) returns (i: nat)
    requires blockSize > 0 && job.start == Output(None, map[]) && !job.cfg.usb
    requires At(job, 0, FilesProgram(files, blockSize))
    requires k <= |FilesProgram(files, blockSize)| && After(job, k).cur.None?
    ensures Behind(job, files, k, i)
    decreases |files|
  {
    if k == 0 {
      i := 0;
    } else {
      var m := |files| - 1;
      var front := FilesProgram(files[..m], blockSize);
      var chunks := ChunkActions(Blocks(files[m], blockSize));
      LastFileProgram(files, blockSize);
      AtSplit(job, 0, front, NodeProgram(File(m, files[m]), blockSize));
      if k <= |front| {
        i := BehindWhole(job, files[..m], blockSize, k);
        assert files[..m][..i] == files[..i];
      } else if k == |front| + 1 {
        i := m;
        FilesDo(job, files[..m], blockSize);
        FileAround(job, |front|, |front| + 2 + |chunks|, m, chunks);
      } else {
        StaysOpen(job, |front|, k, m, chunks);
        assert false;
      }
    }
  }

  // -------------------------------------------------------------------------------------------
  // Extracted file systems

  lemma ExtractedTidy(cfg: Config, files: seq<seq<byte>>, blockSize: nat)
    requires blockSize > 0 && !cfg.usb
    ensures Tidy(ExtractedJob(cfg, files, blockSize))
  {
    var job := ExtractedJob(cfg, files, blockSize);
    ExtractedShape(cfg, files, blockSize);
    AtBody(job, FilesProgram(files, blockSize), [Drain]);
    forall k | 0 <= k < |job.prog| && job.prog[k].Close? && After(job, k).cur.None?
      ensures After(job, k).files == map[]
    {
      var i := BehindWhole(job, files, blockSize, k);
    }
  }

  // A dump that ends early leaves nothing, or the first files of the image without the last one: no
  // write has failed then, and no other file has been created. They are whole when no block can be
  // overtaken.
  lemma ExtractedLeaves(cfg: Config, files: seq<seq<byte>>, blockSize: nat, s: State) returns (i: nat)
    requires blockSize > 0 && cfg.closes && !cfg.usb
    requires Reachable(ExtractedJob(cfg, files, blockSize), s) && LeavesFiles(ExtractedJob(cfg, files, blockSize), s)
    ensures 0 < i < |files| && s.out.files.Keys == FileTable(files[..i]).Keys && !s.writeError
    ensures Safe(cfg) || FileBlocks(files, blockSize) <= 1 ==> s.out.files == FileTable(files[..i])
  {
    var job := ExtractedJob(cfg, files, blockSize);
    ExtractedWellFormed(cfg, files, blockSize);
    ExtractedBlocks(cfg, files, blockSize);
    ExtractedTidy(cfg, files, blockSize);
    WhatIsLeft(job, s);
    if Guarded(job) { LeftFilesAreWhole(job, s); }
    AtBody(job, FilesProgram(files, blockSize), [Drain]);
    i := BehindWhole(job, files, blockSize, s.ip);
    assert s.out.files.Keys != {};
  }

  // Where the second file is opened.
  lemma SecondFile(job: Job, files: seq<seq<byte>>, blockSize: nat) returns (k: nat)
    requires blockSize > 0 && |files| >= 2 && job.start == Output(None, map[]) && !job.cfg.usb
    requires At(job, 0, FilesProgram(files, blockSize))
    ensures BetweenFiles(job, k + 1) && job.prog[k].Close? && job.prog[k + 1].Open?
    ensures if files[0] != [] then Passed(job, k) == 0 && Chunks(job, k) > 0 else DataTo(job, k + 1) == []
    ensures After(job, k + 1).files == map[0 := files[0]] && Chunks(job, k) == |Blocks(files[0], blockSize)|
  {
    var one, rest := FileNodes(files[..1], 0), FileNodes(files[1..], 1);
    assert files[..1][1..] == [] && files[1..][1..] == files[2..];
    var first := FilesProgram(files[..1], blockSize);
    k := |first|;
    assert FileNodes(files, 0) == one + rest;
    EntriesBoth(one, rest, blockSize);
    AtSplit(job, 0, first, Entries(rest, blockSize));
    var chunks := ChunkActions(Blocks(files[1], blockSize));
    AtSplit(job, k, NodeProgram(rest[0], blockSize), Entries(rest[1..], blockSize));
    FileAround(job, k, k + 2 + |chunks|, 1, chunks);
    BehindLastFile(job, files[..1], blockSize);
    BlocksOfFirst(job, files, blockSize, first);
    FilesDo(job, files[..1], blockSize);
    assert 0 in FileTable(files[..1]);
    ConcatOne(files[0]);
    assert files[..1] == [files[0]];
  }

  // It can leave files exactly when the image has two files or more, and there is a byte to dump.
  lemma ExtractedLeavesFilesIff(cfg: Config, files: seq<seq<byte>>, blockSize: nat)
    requires blockSize > 0 && cfg.closes && !cfg.usb
    ensures var job := ExtractedJob(cfg, files, blockSize);
            (exists s :: Reachable(job, s) && LeavesFiles(job, s)) <==> |files| >= 2 && Concat(files) != []
  {
    var job := ExtractedJob(cfg, files, blockSize);
    ExtractedWellFormed(cfg, files, blockSize);
    forall s | Reachable(job, s) && LeavesFiles(job, s)
      ensures |files| >= 2 && Concat(files) != []
    {
      var i := ExtractedLeaves(cfg, files, blockSize, s);
      if Concat(files) == [] {
        NothingToDump(job, s);
        StartsEmpty(job, s);
      }
    }
    if |files| >= 2 && Concat(files) != [] {
      AtBody(job, FilesProgram(files, blockSize), [Drain]);
      var s := LeavesFirst(job, files, blockSize);
    }
  }

  lemma StartsEmpty(job: Job, s: State)
    requires WellFormed(job) && Stores(job) && Reachable(job, s) && s.r.Done? && s.ip == 0 && !s.skipped
    requires job.start.files == map[]
    ensures s.out.files == map[]
  {
    WhatIsLeft(job, s);
    assert After(job, 0).files.Keys == {};
  }

  // The first file has been written, and the second cannot be opened.
  lemma LeavesFirst(job: Job, files: seq<seq<byte>>, blockSize: nat) returns (s: State)
    requires blockSize > 0 && |files| >= 2 && At(job, 0, FilesProgram(files, blockSize))
    requires WellFormed(job) && Stores(job) && job.start == Output(None, map[]) && Total(job) > 0
    ensures Reachable(job, s) && LeavesFiles(job, s)
  {
    var k := SecondFile(job, files, blockSize);
    if files[0] != [] {
      s := LeavesBehindClose(job, k);
    } else {
      s := LeavesThese(job, k + 1);
    }
  }

  lemma BlocksOfFirst(job: Job, files: seq<seq<byte>>, blockSize: nat, first: seq<Action>)
    requires blockSize > 0 && files != [] && first == FilesProgram(files[..1], blockSize) && At(job, 0, first)
    ensures Chunks(job, |first|) == |Blocks(files[0], blockSize)|
  {
    CountAt(job, 0, first);
    EntriesCount(FileNodes(files[..1], 0), blockSize);
    FileNodesBlocks(files[..1], 0, blockSize);
    assert files[..1][1..] == [];
  }

  // As written, a first file of two blocks or more can be left without its last block.
  lemma FirstFileTruncated(cfg: Config, files: seq<seq<byte>>, blockSize: nat)
    requires blockSize > 0 && cfg.closes && !cfg.usb && !cfg.early && !Safe(cfg)
    requires |files| >= 2 && |files[0]| > blockSize
    ensures exists s :: Reachable(ExtractedJob(cfg, files, blockSize), s) && LeavesFiles(ExtractedJob(cfg, files, blockSize), s)
                        && OnlyFirst(s, files[0])
  {
    var job := ExtractedJob(cfg, files, blockSize);
    ExtractedWellFormed(cfg, files, blockSize);
    AtBody(job, FilesProgram(files, blockSize), [Drain]);
    var k := SecondFile(job, files, blockSize);
    assert Blocks(files[0], blockSize) == [files[0][..blockSize]] + Blocks(files[0][blockSize..], blockSize);
    var s := LeavesShort(job, k, files[0]);
  }

  // Only the first file is there, and it is not complete.
  ghost predicate OnlyFirst(s: State, first: seq<byte>) {
    s.out.files.Keys == {0} && s.out.files[0] != first
  }

  ghost predicate FirstAt(job: Job, k: nat, first: seq<byte>) {
    0 < k <= |job.prog| && After(job, k).files == map[0 := first]
  }

  lemma LeavesShort(job: Job, k: nat, first: seq<byte>) returns (s: State)
    requires WellFormed(job) && Stores(job) && !job.cfg.early && !Safe(job.cfg)
    requires Overtakes(job, k) && job.prog[k].Close? && FirstAt(job, k + 1, first)
    ensures Reachable(job, s) && LeavesFiles(job, s) && OnlyFirst(s, first)
  {
    s := LeavesTruncated(job, k);
    IsShort(job, s, k + 1, first);
  }

  lemma IsShort(job: Job, s: State, k: nat, first: seq<byte>)
    requires WellFormed(job) && Stores(job) && !job.cfg.early && Reachable(job, s) && LeavesFiles(job, s) && s.ip == k
    requires FirstAt(job, k, first) && s.out.files != After(job, k).files
    ensures OnlyFirst(s, first)
  {
    WhatIsLeft(job, s);
    NeverSkipped(job, s);
    assert s.out.files.Keys == {0};
    assert s.out.files == map[0 := s.out.files[0]];
  }

  // -------------------------------------------------------------------------------------------
  // Directory trees

  lemma {:induction false} FilesGrow(job: Job, j: nat, k: nat)
    requires j <= k <= |job.prog|
    ensures After(job, j).files.Keys <= After(job, k).files.Keys
  {
    if j < k {
      FilesGrow(job, j, k - 1);
      AppendKeepsNames(After(job, k - 1), if job.prog[k - 1].Chunk? then job.prog[k - 1].data else []);
    }
  }

  // A file lies somewhere before the last entry, or in a directory that is the last entry.
  ghost predicate FileBeforeEnd(entries: seq<Node>) {
    && entries != []
    && (|| EntriesFiles(entries[..|entries| - 1]) != map[]
        || (entries[|entries| - 1].Dir? && NodeFiles(entries[|entries| - 1]) != map[]))
  }

  // The last entry stands between q and e.
  ghost predicate LastEntry(job: Job, entries: seq<Node>, blockSize: nat, q: nat, e: nat)
    requires blockSize > 0 && entries != []
  {
    var last := entries[|entries| - 1];
    && At(job, q, NodeProgram(last, blockSize)) && e == q + |NodeProgram(last, blockSize)|
    && e + 2 == |job.prog| && job.prog[e].Drain? && job.prog[e + 1].Leave?
    && After(job, q).files == EntriesFiles(entries[..|entries| - 1])
    && After(job, e).files == After(job, q).files + NodeFiles(last)
  }

  lemma EntriesLast(entries: seq<Node>, blockSize: nat)
    requires blockSize > 0 && entries != []
    ensures var m := |entries| - 1;
            Entries(entries, blockSize) == Entries(entries[..m], blockSize) + NodeProgram(entries[m], blockSize)
  {
    var m := |entries| - 1;
    EntriesBoth(entries[..m], [entries[m]], blockSize);
    assert entries == entries[..m] + [entries[m]];
    assert Entries([entries[m]], blockSize) == NodeProgram(entries[m], blockSize) + Entries([], blockSize);
  }

  lemma RecursiveLast(cfg: Config, entries: seq<Node>, blockSize: nat) returns (q: nat, e: nat)
    requires blockSize > 0 && entries != []
    ensures LastEntry(RecursiveJob(cfg, entries, blockSize), entries, blockSize, q, e)
  {
    var job := RecursiveJob(cfg, entries, blockSize);
    var body := Entries(entries, blockSize);
    EnterDid(job, body);
    q, e := 1 + |Entries(entries[..|entries| - 1], blockSize)|, 1 + |body|;
    EntriesLast(entries, blockSize);
    LastPlaces(job, entries, blockSize, q, e);
  }

  lemma LastPlaces(job: Job, entries: seq<Node>, blockSize: nat, q: nat, e: nat)
    requires blockSize > 0 && entries != [] && job.start.files == map[] && Did(job, 0, 1, [], map[], 1)
    requires At(job, 1, Entries(entries[..|entries| - 1], blockSize) + NodeProgram(entries[|entries| - 1], blockSize))
    requires q == 1 + |Entries(entries[..|entries| - 1], blockSize)|
    requires e == q + |NodeProgram(entries[|entries| - 1], blockSize)|
    requires At(job, e, [Drain, Leave]) && e + 2 == |job.prog|
    ensures LastEntry(job, entries, blockSize, q, e)
  {
    var m := |entries| - 1;
    TailOf(job, e);
    AtSplit(job, 1, Entries(entries[..m], blockSize), NodeProgram(entries[m], blockSize));
    EntriesDo(job, 1, entries[..m], blockSize);
    NodeDoes(job, q, entries[m], blockSize);
    assert map[] + EntriesFiles(entries[..m]) == EntriesFiles(entries[..m]);
  }

  lemma TailOf(job: Job, e: nat)
    requires At(job, e, [Drain, Leave])
    ensures e + 2 <= |job.prog| && job.prog[e].Drain? && job.prog[e + 1].Leave?
  {
    AtTwo(job, e, Drain, Leave);
    OneAction(job, e, Drain);
    OneAction(job, e + 1, Leave);
  }

  lemma NoRoomBehindLast(job: Job, entries: seq<Node>, blockSize: nat, q: nat, e: nat, k: nat)
    requires blockSize > 0 && entries != [] && !job.cfg.usb && LastEntry(job, entries, blockSize, q, e)
    requires BetweenFiles(job, k)
    ensures FileBeforeEnd(entries)
  {
    var last := entries[|entries| - 1];
    if !FileBeforeEnd(entries) {
      FilesGrow(job, k, if k <= q then q else k);
      assert After(job, q).files.Keys == {} && After(job, k).files.Keys != {};
      assert k > q;
      match last
      case File(id, data) =>
        var chunks := ChunkActions(Blocks(data, blockSize));
        FileAround(job, q, q + 2 + |chunks|, id, chunks);
        assert k > q + 1;
        StaysOpen(job, q, if k <= e then k else e, id, chunks);
        assert false;
      case Dir(_) =>
        FilesGrow(job, if k <= e then k else e, e);
    }
  }

  lemma RoomBehindLast(job: Job, entries: seq<Node>, blockSize: nat, q: nat, e: nat) returns (k: nat)
    requires blockSize > 0 && !job.cfg.usb && FileBeforeEnd(entries) && LastEntry(job, entries, blockSize, q, e)
    ensures BetweenFiles(job, k)
  {
    var last := entries[|entries| - 1];
    var p := NodeProgram(last, blockSize);
    if EntriesFiles(entries[..|entries| - 1]) != map[] {
      k := q + 1;
      assert p[0] == Close && job.prog[q + 0] == p[0];
    } else {
      k := e;
      assert p[|p| - 1] == Leave && job.prog[q + (|p| - 1)] == p[|p| - 1];
    }
  }

  // A recursive dump that ends early can leave files exactly when there is a byte to dump, and some
  // file is not the last entry of the directory that is dumped.
  lemma RecursiveLeavesFilesIff(cfg: Config, entries: seq<Node>, blockSize: nat)
    requires blockSize > 0 && cfg.closes && !cfg.usb && !cfg.early
    ensures var job := RecursiveJob(cfg, entries, blockSize);
            (exists s :: Reachable(job, s) && LeavesFiles(job, s))
            <==> EntriesData(entries) != [] && FileBeforeEnd(entries)
  {
    var job := RecursiveJob(cfg, entries, blockSize);
    RecursiveWellFormed(cfg, entries, blockSize);
    LeavesFilesIff(job);
    assert !BetweenFiles(job, 0);
    if entries != [] {
      var q, e := RecursiveLast(cfg, entries, blockSize);
      forall k | BetweenFiles(job, k)
        ensures FileBeforeEnd(entries)
      {
        NoRoomBehindLast(job, entries, blockSize, q, e, k);
      }
      if FileBeforeEnd(entries) {
        var k := RoomBehindLast(job, entries, blockSize, q, e);
      }
    }
  }

  // What it leaves: nothing, or files of the tree, which are whole when no block can be overtaken.
  lemma RecursiveLeaves(cfg: Config, entries: seq<Node>, blockSize: nat, s: State)
    requires blockSize > 0 && cfg.closes && !cfg.usb && !cfg.early && Distinct(EntriesIds(entries))
    requires Reachable(RecursiveJob(cfg, entries, blockSize), s) && LeavesFiles(RecursiveJob(cfg, entries, blockSize), s)
    ensures !s.writeError && s.out.files.Keys <= EntriesFiles(entries).Keys
    ensures Safe(cfg) || EntriesBlocks(entries, blockSize) <= 1 ==>
              forall f :: f in s.out.files ==> s.out.files[f] == EntriesFiles(entries)[f]
  {
    var job := RecursiveJob(cfg, entries, blockSize);
    RecursiveWellFormed(cfg, entries, blockSize);
    RecursiveDistinct(cfg, entries, blockSize);
    WhatIsLeft(job, s);
    NeverSkipped(job, s);
    WholeFilesAreFinal(job, s.ip);
    if Guarded(job) { LeftFilesAreWhole(job, s); }
  }

  lemma NeverSkipped(job: Job, s: State)
    requires WellFormed(job) && Stores(job) && !job.cfg.early && Reachable(job, s)
    ensures !s.skipped
  {
    StepsKept(job, s);
  }
}
