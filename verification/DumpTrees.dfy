// Dumps of directory trees by the recursive reader: what a successful dump holds, and which trees
// are exposed to the hazards of the code's own synchronisation.

module DumpTrees {
  import opened Bytes
  import opened Pipeline
  import opened PipelinePrograms
  import opened PipelineSafety
  import opened PipelineLiveness
  import opened PipelineSuccess
  import opened PipelineRuns
  import opened PipelineHazards
  import opened PipelineLies
  import opened DumpReaders
  import opened DumpResults

  function RecursiveJob(cfg: Config, entries: seq<Node>, blockSize: nat): Job
    requires blockSize > 0
  {
    Job(cfg, [Enter] + Entries(entries, blockSize) + [Drain, Leave], Output(None, map[]))
  }

  // The call that starts a recursive dump, around a body.
  lemma EnterDid(job: Job, body: seq<Action>)
    requires job.prog == [Enter] + body + [Drain, Leave]
    ensures At(job, 1, body) && At(job, 1 + |body|, [Drain, Leave]) && Did(job, 0, 1, [], map[], 1)
    ensures FinalWait(job) == 1 + |body| == |job.prog| - 2 && job.prog[0] == Enter
  {
    assert At(job, 0, [Enter] + body + [Drain, Leave]);
    AtThree(job, 0, 1, 1 + |body|, [Enter], body, [Drain, Leave]);
    OneAction(job, 0, Enter);
    AtTwo(job, 1 + |body|, Drain, Leave);
    OneAction(job, 2 + |body|, Leave);
    assert After(job, 0).files + map[] == After(job, 0).files;
  }

  lemma LeaveDid(job: Job, body: seq<Action>, data: seq<byte>, files: map<nat, seq<byte>>)
    requires job.prog == [Enter] + body + [Drain, Leave] && job.start.files == map[]
    requires Did(job, 0, 1, [], map[], 1) && Did(job, 1, 1 + |body|, data, files, 0)
    ensures Did(job, 0, |job.prog|, data, files, 0)
    ensures DataTo(job, |job.prog|) == data && After(job, |job.prog|).files == files
  {
    EnterDid(job, body);
    DirTail(job, 1 + |body|);
    DidThree(job, 0, 1, 1 + |body|, 3 + |body|, data, files, 1);
    assert map[] + files == files && [] + data == data;
  }

  lemma RecursiveWellFormed(cfg: Config, entries: seq<Node>, blockSize: nat)
    requires blockSize > 0 && cfg.closes && !cfg.early
    ensures var job := RecursiveJob(cfg, entries, blockSize);
            && WellFormed(job)
            && DataTo(job, |job.prog|) == EntriesData(entries)
            && After(job, |job.prog|).files == EntriesFiles(entries)
            && Chunks(job, |job.prog|) == EntriesBlocks(entries, blockSize)
  {
    var job := RecursiveJob(cfg, entries, blockSize);
    var body := Entries(entries, blockSize);
    EnterDid(job, body);
    EntriesDo(job, 1, entries, blockSize);
    LeaveDid(job, body, EntriesData(entries), EntriesFiles(entries));
    RecursiveBlocks(job, body);
    EntriesCount(entries, blockSize);
  }

  lemma RecursiveBlocks(job: Job, body: seq<Action>)
    requires job.prog == [Enter] + body + [Drain, Leave]
    ensures Chunks(job, |job.prog|) == Count(body)
  {
    EnterDid(job, body);
    CountAt(job, 1, body);
    AtTwo(job, 1 + |body|, Drain, Leave);
    OneAction(job, 1 + |body|, Drain);
    OneAction(job, 2 + |body|, Leave);
    assert Chunks(job, 1) == 0;
  }

  // -------------------------------------------------------------------------------------------
  // Each file of a tree is opened once

  function NodeIds(node: Node): seq<nat>
    decreases node, 1
  {
    match node
    case File(id, _) => [id]
    case Dir(entries) => EntriesIds(entries)
  }

  function EntriesIds(entries: seq<Node>): seq<nat>
    decreases entries, 0
  {
    if entries == [] then [] else NodeIds(entries[0]) + EntriesIds(entries[1..])
  }

  // Different files have different paths.
  ghost predicate Distinct(ids: seq<nat>) {
    forall i, j :: 0 <= i < j < |ids| ==> ids[i] != ids[j]
  }

  function Opens(seg: seq<Action>): seq<nat> {
    if seg == [] then [] else (if seg[0].Open? then [seg[0].file] else []) + Opens(seg[1..])
  }

  lemma {:induction false} OpensBoth(a: seq<Action>, b: seq<Action>)
    ensures Opens(a + b) == Opens(a) + Opens(b)
  {
    if a == [] {
      assert a + b == b;
    } else {
      assert (a + b)[1..] == a[1..] + b;
      OpensBoth(a[1..], b);
      Associative(if a[0].Open? then [a[0].file] else [], Opens(a[1..]), Opens(b));
    }
  }

  lemma {:induction false} NoOpens(seg: seq<Action>)
    requires forall i :: 0 <= i < |seg| ==> !seg[i].Open?
    ensures Opens(seg) == []
  {
    if seg != [] { NoOpens(seg[1..]); }
  }

  lemma {:induction false} NodeOpens(node: Node, blockSize: nat)
    requires blockSize > 0
    ensures Opens(NodeProgram(node, blockSize)) == NodeIds(node)
    decreases node, 1
  {
    match node
    case File(id, data) =>
      var chunks := ChunkActions(Blocks(data, blockSize));
      NoOpens(chunks);
      OpensBoth([Close, Open(id)] + chunks, [Check]);
      OpensBoth([Close, Open(id)], chunks);
      assert [Close, Open(id)][1..] == [Open(id)];
      assert Opens([Close, Open(id)]) == [id];
    case Dir(entries) =>
      var inner := Entries(entries, blockSize);
      EntriesOpens(entries, blockSize);
      OpensBoth([Close, Enter] + inner, [Drain, Leave]);
      OpensBoth([Close, Enter], inner);
      NoOpens([Close, Enter]);
      NoOpens([Drain, Leave]);
  }

  lemma {:induction false} EntriesOpens(entries: seq<Node>, blockSize: nat)
    requires blockSize > 0
    ensures Opens(Entries(entries, blockSize)) == EntriesIds(entries)
    decreases entries, 0
  {
    if entries != [] {
      NodeOpens(entries[0], blockSize);
      EntriesOpens(entries[1..], blockSize);
      OpensBoth(NodeProgram(entries[0], blockSize), Entries(entries[1..], blockSize));
    }
  }

  lemma OpensTwo(seg: seq<Action>, i: nat, j: nat)
    requires i < j < |seg| && seg[i].Open? && seg[j].Open? && Distinct(Opens(seg))
    ensures seg[i].file != seg[j].file
  {
    var a, b, c := seg[..i], seg[i + 1..j], seg[j + 1..];
    assert seg == a + ([seg[i]] + (b + ([seg[j]] + c)));
    OpensBoth(a, [seg[i]] + (b + ([seg[j]] + c)));
    OpensBoth([seg[i]], b + ([seg[j]] + c));
    OpensBoth(b, [seg[j]] + c);
    OpensBoth([seg[j]], c);
    var ids := Opens(seg);
    assert ids == Opens(a) + ([seg[i].file] + (Opens(b) + ([seg[j].file] + Opens(c))));
    assert ids[|Opens(a)|] == seg[i].file;
    assert ids[|Opens(a)| + 1 + |Opens(b)|] == seg[j].file;
  }

  lemma RecursiveDistinct(cfg: Config, entries: seq<Node>, blockSize: nat)
    requires blockSize > 0 && Distinct(EntriesIds(entries))
    ensures DistinctFiles(RecursiveJob(cfg, entries, blockSize))
  {
    var body := Entries(entries, blockSize);
    var job := RecursiveJob(cfg, entries, blockSize);
    EntriesOpens(entries, blockSize);
    OpensBoth([Enter] + body, [Drain, Leave]);
    OpensBoth([Enter], body);
    NoOpens([Enter]);
    NoOpens([Drain, Leave]);
    assert Opens(job.prog) == [] + EntriesIds(entries) + [];
    forall i, j | 0 <= i < j < |job.prog| && job.prog[i].Open? && job.prog[j].Open?
      ensures job.prog[i].file != job.prog[j].file
    {
      OpensTwo(job.prog, i, j);
    }
  }

  // -------------------------------------------------------------------------------------------
  // Which action follows which

  predicate Next(a: Action, b: Action) {
    match a
    case Close => b.Open? || b.Enter?
    case Open(_) => b.Chunk? || b.Check?
    case Chunk(_) => b.Chunk? || b.Check?
    case Drain => b.Leave?
    case _ => b.Close? || b.Drain?
  }

  ghost predicate Neat(seg: seq<Action>) {
    forall i {:trigger seg[i]} :: 0 < i < |seg| ==> Next(seg[i - 1], seg[i])
  }

  lemma NeatBoth(a: seq<Action>, b: seq<Action>)
    requires Neat(a) && Neat(b)
    requires a != [] && b != [] ==> Next(a[|a| - 1], b[0])
    ensures Neat(a + b)
  {
    var s := a + b;
    forall i | 0 < i < |s|
      ensures Next(s[i - 1], s[i])
    {
      if i < |a| { assert Next(a[i - 1], a[i]); }
      else if i > |a| { assert s[i] == b[i - |a|] && s[i - 1] == b[i - |a| - 1]; }
    }
  }

  // A loop body starts by closing a file and ends at a test or a return.
  ghost predicate Loop(seg: seq<Action>) {
    Neat(seg) && (seg != [] ==> seg[0].Close? && (seg[|seg| - 1].Check? || seg[|seg| - 1].Leave?))
  }

  lemma FileNeat(id: nat, blocks: seq<seq<byte>>)
    ensures Loop([Close, Open(id)] + ChunkActions(blocks) + [Check])
  {
    NeatBoth([Close, Open(id)], ChunkActions(blocks));
    NeatBoth([Close, Open(id)] + ChunkActions(blocks), [Check]);
  }

  lemma DirNeat(inner: seq<Action>)
    requires Loop(inner)
    ensures Loop([Close, Enter] + inner + [Drain, Leave])
  {
    NeatBoth([Close, Enter], inner);
    NeatBoth([Close, Enter] + inner, [Drain, Leave]);
  }

  lemma {:induction false} NodeNeat(node: Node, blockSize: nat)
    requires blockSize > 0
    ensures Loop(NodeProgram(node, blockSize))
    decreases node, 1
  {
    match node
    case File(id, data) => FileNeat(id, Blocks(data, blockSize));
    case Dir(entries) =>
      EntriesNeat(entries, blockSize);
      DirNeat(Entries(entries, blockSize));
  }

  lemma {:induction false} EntriesNeat(entries: seq<Node>, blockSize: nat)
    requires blockSize > 0
    ensures Loop(Entries(entries, blockSize))
    decreases entries, 0
  {
    if entries != [] {
      NodeNeat(entries[0], blockSize);
      EntriesNeat(entries[1..], blockSize);
      NeatBoth(NodeProgram(entries[0], blockSize), Entries(entries[1..], blockSize));
    }
  }

  // The shape of a recursive dump as a whole.
  ghost predicate Called(job: Job) {
    && Neat(job.prog)
    && (var f := FinalWait(job); f == 1 || (1 < f < |job.prog| && (job.prog[f - 1].Check? || job.prog[f - 1].Leave?)))
  }

  lemma RecursiveCalled(cfg: Config, entries: seq<Node>, blockSize: nat)
    requires blockSize > 0
    ensures Called(RecursiveJob(cfg, entries, blockSize))
  {
    EntriesNeat(entries, blockSize);
    LoopCalled(RecursiveJob(cfg, entries, blockSize), Entries(entries, blockSize));
  }

  lemma LoopCalled(job: Job, body: seq<Action>)
    requires job.prog == [Enter] + body + [Drain, Leave] && Loop(body)
    ensures Called(job)
  {
    NeatBoth([Enter], body);
    NeatBoth([Enter] + body, [Drain, Leave]);
    EnterDid(job, body);
    if body != [] { assert job.prog[|body|] == body[|body| - 1]; }
  }

  // -------------------------------------------------------------------------------------------
  // Blocks that can be lost, misplaced or left out

  predicate Is(job: Job, k: nat, a: Action) { k < |job.prog| && job.prog[k] == a }

  predicate OpensAt(job: Job, k: nat) { k < |job.prog| && job.prog[k].Open? }

  predicate ChunkAt(job: Job, k: nat) { k < |job.prog| && job.prog[k].Chunk? }

  // Block c, which is not the first one, is behind a fatal wait if it is overtaken.
  predicate RiskyAt(job: Job, c: nat) {
    && ChunkAt(job, c) && Chunks(job, c) > 0
    && (|| (!job.cfg.usb && ChunkAt(job, c + 1))
        || (Is(job, c + 1, Check) && c + 2 == FinalWait(job))
        || (!job.cfg.usb && Is(job, c + 1, Check) && Is(job, c + 2, Close) && OpensAt(job, c + 3)))
  }

  lemma RiskyOvertakes(job: Job, c: nat)
    requires WellFormed(job) && job.cfg.closes && RiskyAt(job, c)
    ensures exists a: nat :: Overtakes(job, a) && Fatal(job, a)
  {
    FinalWaitDrains(job);
    assert Passed(job, c + 1) == 0 && Chunks(job, c + 1) >= 2;
    if ChunkAt(job, c + 1) {
      assert Overtakes(job, c + 1) && Fatal(job, c + 1);
    } else {
      assert Passed(job, c + 2) == 0 && Chunks(job, c + 2) >= 2;
      assert Overtakes(job, c + 2) && Fatal(job, c + 2);
    }
  }

  // From position m on to a there is no wait and no block.
  lemma {:induction false} SilentTo(job: Job, m: nat, a: nat)
    requires m < a <= |job.prog| && Passed(job, a) == 0 && LastChunk(job, a) < m
    ensures !Waits(job.cfg, job.prog[m])
  {
    if m + 1 < a { SilentTo(job, m, a - 1); }
  }

  // The file of the block before `a` ends between them.
  lemma BehindFileEnd(job: Job, a: nat)
    requires WellFormed(job) && Neat(job.prog) && Overtakes(job, a)
    ensures var c := LastChunk(job, a);
            a == c + 1 || (Is(job, c + 1, Check) && c + 2 <= a && (a > c + 2 ==> job.cfg.usb && Is(job, c + 2, Close)))
  {
    var c := LastChunk(job, a);
    if a > c + 1 {
      SilentTo(job, c + 1, a);
      assert Next(job.prog[c], job.prog[c + 1]);
      if a > c + 2 {
        SilentTo(job, c + 2, a);
        assert Next(job.prog[c + 1], job.prog[c + 2]);
      }
    }
  }

  lemma OvertakenIsRisky(job: Job, a: nat)
    requires WellFormed(job) && job.cfg.closes && Called(job) && Overtakes(job, a) && Fatal(job, a)
    ensures RiskyAt(job, LastChunk(job, a))
  {
    var c := LastChunk(job, a);
    LastChunkEnds(job, a);
    FinalWaitDrains(job);
    BehindFileEnd(job, a);
    if a > c + 2 {
      BeforeFinalWait(job, c);
    }
  }

  // No chain of directories leads from a block to the final wait.
  lemma BeforeFinalWait(job: Job, c: nat)
    requires WellFormed(job) && job.cfg.closes && job.cfg.usb && Called(job) && Overtakes(job, FinalWait(job))
    requires c == LastChunk(job, FinalWait(job))
    ensures c + 2 == FinalWait(job)
  {
    var f := FinalWait(job);
    FinalWaitDrains(job);
    assert ActionOk(job, f - 1);
    if f > 1 {
      assert job.prog[f - 1].Check?;
      assert Next(job.prog[f - 2], job.prog[f - 1]);
      assert Passed(job, f - 1) == 0 && job.prog[f - 2].Chunk?;
    }
  }

  // -------------------------------------------------------------------------------------------
  // From the blocks of a program to the files of a tree

  // Some block between k and m has property p.
  ghost predicate Among(job: Job, k: nat, m: nat, p: nat -> bool) {
    exists c: nat :: k <= c < m && ChunkAt(job, c) && p(c)
  }

  lemma AmongSplits(job: Job, k: nat, l: nat, m: nat, p: nat -> bool)
    requires k <= l <= m
    ensures Among(job, k, m, p) <==> Among(job, k, l, p) || Among(job, l, m, p)
  {
  }

  // Some file of the tree has property f, given the number of blocks before it, its data, what
  // follows it in its directory, and whether the dump ends with this directory.
  type FileProperty = (nat, seq<byte>, seq<Node>, bool) -> bool

  predicate NodeHas(node: Node, rest: seq<Node>, before: nat, ends: bool, f: FileProperty, blockSize: nat)
    requires blockSize > 0
    decreases node, 1
  {
    match node
    case File(_, data) => f(before, data, rest, ends)
    case Dir(inner) => TreeHas(inner, before, false, f, blockSize)
  }

  predicate TreeHas(entries: seq<Node>, before: nat, ends: bool, f: FileProperty, blockSize: nat)
    requires blockSize > 0
    decreases entries, 0
  {
    && entries != []
    && (|| NodeHas(entries[0], entries[1..], before, ends, f, blockSize)
        || TreeHas(entries[1..], before + NodeBlocks(entries[0], blockSize), ends, f, blockSize))
  }

  // A node between k and m, with the rest of its directory up to the drain at e.
  ghost predicate NodeAt(job: Job, k: nat, m: nat, e: nat, node: Node, rest: seq<Node>, blockSize: nat)
    requires blockSize > 0
  {
    && At(job, k, NodeProgram(node, blockSize)) && m == k + |NodeProgram(node, blockSize)|
    && At(job, m, Entries(rest, blockSize)) && e == m + |Entries(rest, blockSize)|
    && e < |job.prog| && job.prog[e].Drain? && e <= FinalWait(job)
  }

  // The property of files says of each file what that of blocks says of its blocks.
  ghost predicate Agree(job: Job, p: nat -> bool, f: FileProperty, blockSize: nat)
    requires blockSize > 0
  {
    forall k, m, e, id, data, rest :: NodeAt(job, k, m, e, File(id, data), rest, blockSize) ==>
      (Among(job, k, m, p) <==> f(Chunks(job, k), data, rest, e == FinalWait(job)))
  }

  lemma DirIsAt(job: Job, k: nat, inner: seq<Action>)
    requires At(job, k, [Close, Enter] + inner + [Drain, Leave])
    ensures var e := k + 2 + |inner|;
            && At(job, k + 2, inner) && e + 2 <= |job.prog| && job.prog[e].Drain? && job.prog[e + 1].Leave?
            && job.prog[k].Close? && job.prog[k + 1].Enter? && Chunks(job, k + 2) == Chunks(job, k)
  {
    var e := k + 2 + |inner|;
    AtThree(job, k, k + 2, e, [Close, Enter], inner, [Drain, Leave]);
    AtTwo(job, k, Close, Enter);
    AtTwo(job, e, Drain, Leave);
    OneAction(job, k, Close);
    OneAction(job, k + 1, Enter);
    OneAction(job, e, Drain);
    OneAction(job, e + 1, Leave);
    assert Chunks(job, k + 1) == Chunks(job, k);
  }

  lemma AmongCall(job: Job, k: nat, e: nat, p: nat -> bool)
    requires k + 2 <= e && e + 2 <= |job.prog|
    requires job.prog[k].Close? && job.prog[k + 1].Enter? && job.prog[e].Drain? && job.prog[e + 1].Leave?
    ensures Among(job, k, e + 2, p) <==> Among(job, k + 2, e, p)
  {
    AmongSplits(job, k, k + 2, e + 2, p);
    AmongSplits(job, k + 2, e, e + 2, p);
    assert !Among(job, k, k + 2, p) && !Among(job, e, e + 2, p);
  }

  lemma NodeHasIff(job: Job, k: nat, m: nat, e: nat, node: Node, rest: seq<Node>,
                   p: nat -> bool, f: FileProperty, blockSize: nat)
    requires blockSize > 0 && Agree(job, p, f, blockSize) && NodeAt(job, k, m, e, node, rest, blockSize)
    ensures Among(job, k, m, p) <==> NodeHas(node, rest, Chunks(job, k), e == FinalWait(job), f, blockSize)
    decreases node, 0
  {
    match node
    case File(id, data) =>
    case Dir(inner) =>
      var body := Entries(inner, blockSize);
      DirIsAt(job, k, body);
      TreeHasIff(job, k + 2, k + 2 + |body|, inner, p, f, blockSize);
      AmongCall(job, k, k + 2 + |body|, p);
  }

  // What holds of a block of the program holds of a file of the tree.
  lemma {:induction false} TreeHasIff(job: Job, k: nat, e: nat, entries: seq<Node>,
                                      p: nat -> bool, f: FileProperty, blockSize: nat)
    requires blockSize > 0 && Agree(job, p, f, blockSize)
    requires At(job, k, Entries(entries, blockSize)) && e == k + |Entries(entries, blockSize)|
    requires e < |job.prog| && job.prog[e].Drain? && e <= FinalWait(job)
    ensures Among(job, k, e, p) <==> TreeHas(entries, Chunks(job, k), e == FinalWait(job), f, blockSize)
    decreases entries, 0
  {
    if entries != [] {
      var node, rest := entries[0], entries[1..];
      var prog := NodeProgram(node, blockSize);
      var m := k + |prog|;
      AtSplit(job, k, prog, Entries(rest, blockSize));
      TreeHasIff(job, m, e, rest, p, f, blockSize);
      AmongSplits(job, k, m, e, p);
      CountAt(job, k, prog);
      NodeCount(node, blockSize);
      NodeHasIff(job, k, m, e, node, rest, p, f, blockSize);
    }
  }

  // Around the entries of a dump there is no block.
  lemma AmongEntries(job: Job, body: seq<Action>, p: nat -> bool)
    requires job.prog == [Enter] + body + [Drain, Leave]
    ensures Among(job, 0, |job.prog|, p) <==> Among(job, 1, 1 + |body|, p)
    ensures job.prog[1 + |body|].Drain? && Chunks(job, 1) == 0
  {
    var n := |job.prog|;
    EnterDid(job, body);
    AtTwo(job, n - 2, Drain, Leave);
    OneAction(job, n - 2, Drain);
    OneAction(job, n - 1, Leave);
    AmongSplits(job, 0, 1, n, p);
    AmongSplits(job, 1, n - 2, n, p);
    assert !Among(job, 0, 1, p) && !Among(job, n - 2, n, p);
  }

  lemma RecursiveHasIff(cfg: Config, entries: seq<Node>, p: nat -> bool, f: FileProperty, blockSize: nat)
    requires blockSize > 0 && Agree(RecursiveJob(cfg, entries, blockSize), p, f, blockSize)
    ensures var job := RecursiveJob(cfg, entries, blockSize);
            Among(job, 0, |job.prog|, p) <==> TreeHas(entries, 0, true, f, blockSize)
  {
    var job := RecursiveJob(cfg, entries, blockSize);
    var body := Entries(entries, blockSize);
    AmongEntries(job, body, p);
    EnterDid(job, body);
    TreeHasIff(job, 1, 1 + |body|, entries, p, f, blockSize);
  }

  // -------------------------------------------------------------------------------------------
  // The blocks of one file

  ghost predicate OnlyChunks(seg: seq<Action>) {
    forall i :: 0 <= i < |seg| ==> seg[i].Chunk?
  }

  lemma {:induction false} ChunksInside(job: Job, m: nat, chunks: seq<Action>, i: nat)
    requires At(job, m, chunks) && OnlyChunks(chunks) && i <= |chunks|
    ensures Chunks(job, m + i) == Chunks(job, m) + i
  {
    if i > 0 {
      ChunksInside(job, m, chunks, i - 1);
      assert job.prog[m + i - 1] == chunks[i - 1];
    }
  }

  // A file between k and m, as actions.
  ghost predicate FileAt(job: Job, k: nat, m: nat, chunks: seq<Action>) {
    && m == k + 3 + |chunks| && m <= |job.prog| && job.prog[k].Close? && job.prog[k + 1].Open?
    && At(job, k + 2, chunks) && OnlyChunks(chunks) && job.prog[m - 1].Check?
  }

  lemma FileIsAt(job: Job, k: nat, m: nat, id: nat, chunks: seq<Action>)
    requires At(job, k, [Close, Open(id)] + chunks + [Check]) && m == k + 3 + |chunks| && OnlyChunks(chunks)
    ensures FileAt(job, k, m, chunks)
  {
    FileAround(job, k, m - 1, id, chunks);
  }

  lemma BlockOfFile(job: Job, k: nat, m: nat, chunks: seq<Action>, i: nat)
    requires FileAt(job, k, m, chunks) && i < |chunks|
    ensures ChunkAt(job, k + 2 + i) && Chunks(job, k + 2 + i) == Chunks(job, k) + i
    ensures if i + 1 < |chunks| then ChunkAt(job, k + 3 + i) else k + 3 + i == m - 1
  {
    ChunksInside(job, k + 2, chunks, i);
    assert job.prog[k + 2 + i] == chunks[i];
    if i + 1 < |chunks| { assert job.prog[k + 2 + (i + 1)] == chunks[i + 1]; }
    assert Chunks(job, k + 1) == Chunks(job, k) && Chunks(job, k + 2) == Chunks(job, k + 1);
  }

  // Where the blocks of a file are.
  lemma BlocksOfFile(job: Job, k: nat, m: nat, chunks: seq<Action>, c: nat)
    requires FileAt(job, k, m, chunks) && k <= c < m && ChunkAt(job, c)
    ensures k + 2 <= c < m - 1
  {
  }

  // What comes behind a node: the next one of its directory, or the drain at the end of it.
  lemma Behind(job: Job, m: nat, rest: seq<Node>, blockSize: nat)
    requires blockSize > 0 && At(job, m, Entries(rest, blockSize))
    requires var e := m + |Entries(rest, blockSize)|; e < |job.prog| && job.prog[e].Drain?
    ensures m < |job.prog|
    ensures if rest == [] then job.prog[m].Drain? else
              job.prog[m].Close? && m + 1 < |job.prog|
              && (if rest[0].File? then job.prog[m + 1].Open? else job.prog[m + 1].Enter?)
  {
    if rest != [] {
      AtSplit(job, m, NodeProgram(rest[0], blockSize), Entries(rest[1..], blockSize));
      NodeStarts(job, m, rest[0], blockSize);
    }
  }

  lemma NodeStarts(job: Job, m: nat, node: Node, blockSize: nat)
    requires blockSize > 0 && At(job, m, NodeProgram(node, blockSize))
    ensures m + 1 < |job.prog| && job.prog[m].Close?
    ensures if node.File? then job.prog[m + 1].Open? else job.prog[m + 1].Enter?
  {
    var p := NodeProgram(node, blockSize);
    assert p[0].Close? && (if node.File? then p[1].Open? else p[1].Enter?);
    assert job.prog[m + 0] == p[0] && job.prog[m + 1] == p[1];
  }

  // -------------------------------------------------------------------------------------------
  // Risky files

  function RiskyBlock(job: Job): nat -> bool {
    (c: nat) => RiskyAt(job, c)
  }

  lemma SoundIffNotRisky(job: Job)
    requires WellFormed(job) && job.cfg.closes && Called(job)
    ensures Sound(job) <==> Safe(job.cfg) || !Among(job, 0, |job.prog|, RiskyBlock(job))
  {
    if Among(job, 0, |job.prog|, RiskyBlock(job)) {
      var c: nat :| c < |job.prog| && ChunkAt(job, c) && RiskyBlock(job)(c);
      RiskyOvertakes(job, c);
    }
    if !Sound(job) {
      var a: nat :| Overtakes(job, a) && Fatal(job, a);
      OvertakenIsRisky(job, a);
      assert RiskyBlock(job)(LastChunk(job, a));
    }
  }

  // A file of n blocks, behind as many others as given: one of its blocks but the first of the dump
  // can be left out at the end, misplaced into the next file, or overwritten by a later one.
  predicate Exposed(usb: bool, before: nat, n: nat, fileNext: bool, ends: bool) {
    && n > 0
    && (|| ((ends || (!usb && fileNext)) && before + n >= 2)
        || (!usb && n >= 2 && before + n >= 3))
  }

  function RiskyFile(usb: bool, blockSize: nat): FileProperty
    requires blockSize > 0
  {
    (before: nat, data: seq<byte>, rest: seq<Node>, ends: bool) =>
      Exposed(usb, before, |Blocks(data, blockSize)|, rest != [] && rest[0].File?, rest == [] && ends)
  }

  lemma BlockIsRisky(job: Job, k: nat, m: nat, chunks: seq<Action>, i: nat)
    requires FileAt(job, k, m, chunks) && i < |chunks| && m < |job.prog|
    ensures var next, ends := Is(job, m, Close) && OpensAt(job, m + 1), m == FinalWait(job);
            RiskyAt(job, k + 2 + i) <==>
              && Chunks(job, k) + i > 0
              && (if i + 1 < |chunks| then !job.cfg.usb else ends || (!job.cfg.usb && next))
  {
    BlockOfFile(job, k, m, chunks, i);
  }

  lemma FileRiskyIff(job: Job, k: nat, m: nat, chunks: seq<Action>)
    requires FileAt(job, k, m, chunks) && m < |job.prog|
    ensures Among(job, k, m, RiskyBlock(job)) <==>
              Exposed(job.cfg.usb, Chunks(job, k), |chunks|, Is(job, m, Close) && OpensAt(job, m + 1), m == FinalWait(job))
  {
    var n := |chunks|;
    if Among(job, k, m, RiskyBlock(job)) {
      var c: nat :| k <= c < m && ChunkAt(job, c) && RiskyBlock(job)(c);
      BlocksOfFile(job, k, m, chunks, c);
      BlockIsRisky(job, k, m, chunks, c - k - 2);
    }
    if n > 0 {
      BlockIsRisky(job, k, m, chunks, n - 1);
      if n > 1 { BlockIsRisky(job, k, m, chunks, n - 2); }
      if Exposed(job.cfg.usb, Chunks(job, k), n, Is(job, m, Close) && OpensAt(job, m + 1), m == FinalWait(job)) {
        assert RiskyBlock(job)(k + n + 1) || (n > 1 && RiskyBlock(job)(k + n));
      }
    }
  }

  lemma RiskyNode(job: Job, k: nat, m: nat, e: nat, id: nat, data: seq<byte>, rest: seq<Node>, blockSize: nat)
    requires blockSize > 0 && NodeAt(job, k, m, e, File(id, data), rest, blockSize)
    ensures Among(job, k, m, RiskyBlock(job)) <==>
              RiskyFile(job.cfg.usb, blockSize)(Chunks(job, k), data, rest, e == FinalWait(job))
  {
    var chunks := ChunkActions(Blocks(data, blockSize));
    FileIsAt(job, k, m, id, chunks);
    Behind(job, m, rest, blockSize);
    FileRiskyIff(job, k, m, chunks);
    assert rest == [] ==> m == e;
  }

  lemma RiskyAgree(job: Job, blockSize: nat)
    requires blockSize > 0
    ensures Agree(job, RiskyBlock(job), RiskyFile(job.cfg.usb, blockSize), blockSize)
  {
    forall k, m, e, id, data, rest | NodeAt(job, k, m, e, File(id, data), rest, blockSize)
      ensures Among(job, k, m, RiskyBlock(job)) <==>
                RiskyFile(job.cfg.usb, blockSize)(Chunks(job, k), data, rest, e == FinalWait(job))
    {
      RiskyNode(job, k, m, e, id, data, rest, blockSize);
    }
  }

  // -------------------------------------------------------------------------------------------
  // Files a failed write can leave the reader waiting for

  // From position m the reader comes to a drain without another wait.
  predicate Leads(job: Job, m: nat)
    decreases |job.prog| - m
  {
    && m < |job.prog|
    && (|| job.prog[m].Drain?
        || (job.cfg.usb && job.prog[m].Close? && Is(job, m + 1, Enter) && Leads(job, m + 2)))
  }

  // Block c, the last one of its file, may be waited for at a drain.
  predicate StrandsAt(job: Job, c: nat) {
    && ChunkAt(job, c) && Is(job, c + 1, Check)
    && (|| Leads(job, c + 2)
        || (&& !job.cfg.usb && !Safe(job.cfg) && Chunks(job, c) > 0
            && Is(job, c + 2, Close) && OpensAt(job, c + 3) && Is(job, c + 4, Check) && Is(job, c + 5, Drain)))
  }

  lemma {:induction false} LeadsTo(job: Job, m: nat) returns (a: nat)
    requires Leads(job, m) && Passed(job, m) == 0 && Chunks(job, m) > 0
    ensures Strands(job, a)
    decreases |job.prog| - m
  {
    if job.prog[m].Drain? {
      a := m;
    } else {
      assert Passed(job, m + 1) == 0 && Chunks(job, m + 1) == Chunks(job, m);
      a := LeadsTo(job, m + 2);
    }
  }

  lemma StrandingBlock(job: Job, c: nat)
    requires WellFormed(job) && StrandsAt(job, c)
    ensures CanStrand(job)
  {
    assert Passed(job, c + 1) == 0 && Chunks(job, c + 1) == Chunks(job, c) + 1;
    if Leads(job, c + 2) {
      var a := LeadsTo(job, c + 2);
    } else {
      assert Passed(job, c + 2) == 0 && Chunks(job, c + 2) == Chunks(job, c) + 1;
      assert Passed(job, c + 3) == 1 && Chunks(job, c + 3) == Chunks(job, c) + 1;
      assert Passed(job, c + 4) == 1 && Chunks(job, c + 4) == Chunks(job, c) + 1;
      assert After(job, c + 4).cur.Some?;
      assert Strands(job, c + 5);
    }
  }

  // Behind the file of the last block, before the first wait.
  lemma {:induction false} LeadsFrom(job: Job, m: nat, a: nat)
    requires WellFormed(job) && Neat(job.prog) && m <= a < |job.prog| && job.prog[a].Drain? && Passed(job, a) == 0
    requires LastChunk(job, a) < m && 0 < m
    requires job.prog[m - 1].Check? || job.prog[m - 1].Enter?
    ensures Leads(job, m)
    decreases a - m
  {
    assert Next(job.prog[m - 1], job.prog[m]);
    if m < a {
      SilentTo(job, m, a);
      assert Next(job.prog[m], job.prog[m + 1]);
      if m + 1 < a { SilentTo(job, m + 1, a); }
      LeadsFrom(job, m + 2, a);
    }
  }

  // A drain without a wait between it and the block before.
  lemma DrainRightBehind(job: Job, a: nat)
    requires WellFormed(job) && Neat(job.prog) && Strands(job, a) && Passed(job, a) == 0
    ensures StrandsAt(job, LastChunk(job, a))
  {
    var c := LastChunk(job, a);
    assert Next(job.prog[c], job.prog[c + 1]);
    if c + 1 < a { SilentTo(job, c + 1, a); }
    LeadsFrom(job, c + 2, a);
  }

  // No wait and no block from position m on.
  lemma OneWaitTo(job: Job, b: nat, m: nat, a: nat)
    requires b < m < a <= |job.prog| && Passed(job, b + 1) == 1 && Passed(job, a) == 1 && LastChunk(job, a) < b
    ensures !Waits(job.cfg, job.prog[m]) && !job.prog[m].Chunk?
  {
    LastBefore(job, m, a);
    NoChunkBetween(job, b + 1, m);
  }

  lemma {:induction false} LastBefore(job: Job, m: nat, a: nat)
    requires m < a <= |job.prog| && LastChunk(job, a) < m
    ensures !job.prog[m].Chunk? && LastChunk(job, m) == LastChunk(job, a)
    ensures Passed(job, m) + (if Waits(job.cfg, job.prog[m]) then 1 else 0) <= Passed(job, a)
  {
    if m + 1 < a { LastBefore(job, m, a - 1); }
  }

  // A drain behind an empty file, with the block in front of that file.
  lemma DrainBehindEmpty(job: Job, a: nat)
    requires WellFormed(job) && Neat(job.prog) && Strands(job, a) && Passed(job, a) == 1 && !job.cfg.usb
    ensures StrandsAt(job, LastChunk(job, a))
  {
    var b := PassedAt(job, a);
    var c := LastChunk(job, a);
    BehindFileEnd(job, b);
    LastChunkEnds(job, a);
    assert b == c + 2;
    assert Next(job.prog[c + 1], job.prog[b]);
    StillOpenBehind(job, b, a);
  }

  lemma StillOpenBehind(job: Job, b: nat, a: nat)
    requires WellFormed(job) && Neat(job.prog) && !job.cfg.usb && b < a < |job.prog| && job.prog[a].Drain?
    requires Passed(job, b + 1) == 1 && Passed(job, a) == 1 && LastChunk(job, a) < b && 0 < b
    requires job.prog[b - 1].Check? && After(job, a).cur.Some?
    ensures job.prog[b].Close? && OpensAt(job, b + 1) && Is(job, b + 2, Check) && a == b + 3
  {
    assert Next(job.prog[b - 1], job.prog[b]);
    assert Next(job.prog[b], job.prog[b + 1]);
    assert job.prog[b].Close? ==> After(job, b + 1).cur.None?;
    if job.prog[b].Drain? { assert After(job, b + 2).cur.None?; }
    if b + 1 < a {
      OneWaitTo(job, b, b + 1, a);
      assert Next(job.prog[b + 1], job.prog[b + 2]);
      assert !job.prog[b + 1].Open? ==> After(job, b + 2).cur.None?;
      if b + 2 < a {
        OneWaitTo(job, b, b + 2, a);
        assert Next(job.prog[b + 2], job.prog[b + 3]);
        if b + 3 < a { OneWaitTo(job, b, b + 3, a); }
      }
    }
  }

  function StrandingBlockAt(job: Job): nat -> bool {
    (c: nat) => StrandsAt(job, c)
  }

  lemma CanStrandIffBlock(job: Job)
    requires WellFormed(job) && job.cfg.closes && Called(job)
    ensures CanStrand(job) <==> Among(job, 0, |job.prog|, StrandingBlockAt(job))
  {
    if Among(job, 0, |job.prog|, StrandingBlockAt(job)) {
      var c: nat :| c < |job.prog| && ChunkAt(job, c) && StrandingBlockAt(job)(c);
      StrandingBlock(job, c);
    }
    if CanStrand(job) {
      var a: nat :| Strands(job, a);
      if Passed(job, a) == 0 { DrainRightBehind(job, a); } else { DrainBehindEmpty(job, a); }
      assert StrandingBlockAt(job)(LastChunk(job, a));
    }
  }

  // Nothing follows in the directory; over USB, also where directories follow down to an empty one.
  predicate LeadsOut(usb: bool, rest: seq<Node>) {
    rest == [] || (usb && rest[0].Dir? && LeadsOut(usb, rest[0].entries))
  }

  // A file that is not empty with nothing behind it in its directory; as written also with one
  // empty file, if it does not hold the first block of the dump alone.
  function StrandingFile(cfg: Config, blockSize: nat): FileProperty
    requires blockSize > 0
  {
    (before: nat, data: seq<byte>, rest: seq<Node>, ends: bool) =>
      && data != []
      && (|| LeadsOut(cfg.usb, rest)
          || (&& !cfg.usb && !Safe(cfg) && before + |Blocks(data, blockSize)| >= 2
              && |rest| == 1 && rest[0].File? && rest[0].data == []))
  }

  lemma {:induction false} LeadsOutIff(job: Job, m: nat, rest: seq<Node>, blockSize: nat)
    requires blockSize > 0 && At(job, m, Entries(rest, blockSize))
    requires var e := m + |Entries(rest, blockSize)|; e < |job.prog| && job.prog[e].Drain?
    ensures Leads(job, m) <==> LeadsOut(job.cfg.usb, rest)
    decreases rest
  {
    Behind(job, m, rest, blockSize);
    if rest != [] && rest[0].Dir? && job.cfg.usb {
      var inner := Entries(rest[0].entries, blockSize);
      AtSplit(job, m, NodeProgram(rest[0], blockSize), Entries(rest[1..], blockSize));
      DirIsAt(job, m, inner);
      LeadsOutIff(job, m + 2, rest[0].entries, blockSize);
    }
  }

  // Exactly one file follows, and it is empty.
  lemma EmptyFileIff(job: Job, m: nat, rest: seq<Node>, blockSize: nat)
    requires blockSize > 0 && At(job, m, Entries(rest, blockSize))
    requires var e := m + |Entries(rest, blockSize)|; e < |job.prog| && job.prog[e].Drain?
    ensures Is(job, m, Close) && OpensAt(job, m + 1) && Is(job, m + 2, Check) && Is(job, m + 3, Drain)
       <==> |rest| == 1 && rest[0].File? && rest[0].data == []
  {
    Behind(job, m, rest, blockSize);
    if rest != [] && rest[0].File? {
      var data := rest[0].data;
      var chunks := ChunkActions(Blocks(data, blockSize));
      BlocksAreWhole(data, blockSize);
      AtSplit(job, m, NodeProgram(rest[0], blockSize), Entries(rest[1..], blockSize));
      FileIsAt(job, m, m + 3 + |chunks|, rest[0].id, chunks);
      Behind(job, m + 3 + |chunks|, rest[1..], blockSize);
      if data != [] {
        assert chunks != [];
        assert job.prog[m + 2 + 0] == chunks[0];
      }
    }
  }

  lemma FileStrandsIff(job: Job, k: nat, m: nat, chunks: seq<Action>)
    requires FileAt(job, k, m, chunks)
    ensures Among(job, k, m, StrandingBlockAt(job)) <==>
              && chunks != []
              && (|| Leads(job, m)
                  || (&& !job.cfg.usb && !Safe(job.cfg) && Chunks(job, k) + |chunks| >= 2
                      && Is(job, m, Close) && OpensAt(job, m + 1) && Is(job, m + 2, Check) && Is(job, m + 3, Drain)))
  {
    var n := |chunks|;
    if Among(job, k, m, StrandingBlockAt(job)) {
      var c: nat :| k <= c < m && ChunkAt(job, c) && StrandingBlockAt(job)(c);
      BlocksOfFile(job, k, m, chunks, c);
      BlockOfFile(job, k, m, chunks, c - k - 2);
    }
    if n > 0 {
      BlockOfFile(job, k, m, chunks, n - 1);
      if StrandsAt(job, k + n + 1) { assert StrandingBlockAt(job)(k + n + 1); }
    }
  }

  lemma StrandingNode(job: Job, k: nat, m: nat, e: nat, id: nat, data: seq<byte>, rest: seq<Node>, blockSize: nat)
    requires blockSize > 0 && NodeAt(job, k, m, e, File(id, data), rest, blockSize)
    ensures Among(job, k, m, StrandingBlockAt(job)) <==>
              StrandingFile(job.cfg, blockSize)(Chunks(job, k), data, rest, e == FinalWait(job))
  {
    var chunks := ChunkActions(Blocks(data, blockSize));
    FileIsAt(job, k, m, id, chunks);
    FileStrandsIff(job, k, m, chunks);
    LeadsOutIff(job, m, rest, blockSize);
    EmptyFileIff(job, m, rest, blockSize);
    assert chunks != [] <==> data != [];
  }

  lemma StrandingAgree(job: Job, blockSize: nat)
    requires blockSize > 0
    ensures Agree(job, StrandingBlockAt(job), StrandingFile(job.cfg, blockSize), blockSize)
  {
    forall k, m, e, id, data, rest | NodeAt(job, k, m, e, File(id, data), rest, blockSize)
      ensures Among(job, k, m, StrandingBlockAt(job)) <==>
                StrandingFile(job.cfg, blockSize)(Chunks(job, k), data, rest, e == FinalWait(job))
    {
      StrandingNode(job, k, m, e, id, data, rest, blockSize);
    }
  }

  // -------------------------------------------------------------------------------------------
  // Main results about recursive dumps

  // No file but one of a single, first block stands where an overdue wake-up does harm.
  predicate TreeSound(cfg: Config, entries: seq<Node>, blockSize: nat)
    requires blockSize > 0
  {
    Safe(cfg) || !TreeHas(entries, 0, true, RiskyFile(cfg.usb, blockSize), blockSize)
  }

  lemma TreeIsSoundIff(cfg: Config, entries: seq<Node>, blockSize: nat)
    requires blockSize > 0 && cfg.closes && !cfg.early
    ensures Sound(RecursiveJob(cfg, entries, blockSize)) <==> TreeSound(cfg, entries, blockSize)
  {
    var job := RecursiveJob(cfg, entries, blockSize);
    RecursiveWellFormed(cfg, entries, blockSize);
    RecursiveCalled(cfg, entries, blockSize);
    SoundIffNotRisky(job);
    RiskyAgree(job, blockSize);
    RecursiveHasIff(cfg, entries, RiskyBlock(job), RiskyFile(cfg.usb, blockSize), blockSize);
  }

  // A successful dump of a directory tree holds every file of the tree with its own bytes.
  lemma RecursiveDumpIsFaithful(cfg: Config, entries: seq<Node>, blockSize: nat, s: State)
    requires blockSize > 0 && cfg.closes && !cfg.early && TreeSound(cfg, entries, blockSize)
    requires Reachable(RecursiveJob(cfg, entries, blockSize), s) && ReportsSuccess(s)
    ensures s.log == EntriesData(entries) && s.out.files == EntriesFiles(entries)
  {
    RecursiveWellFormed(cfg, entries, blockSize);
    TreeIsSoundIff(cfg, entries, blockSize);
    SuccessIsComplete(RecursiveJob(cfg, entries, blockSize), s);
  }

  // A recursive dump that is reported as successful has written something else.
  ghost predicate WrongTree(entries: seq<Node>, s: State) {
    ReportsSuccess(s) && (s.log != EntriesData(entries) || !CoversNonEmpty(s.out.files, EntriesFiles(entries)))
  }

  // It can be exactly when the synchronisation is the code's own and the tree is risky.
  lemma RecursiveSuccessIsWrongIff(cfg: Config, entries: seq<Node>, blockSize: nat)
    requires blockSize > 0 && cfg.closes && !cfg.early && Distinct(EntriesIds(entries))
    ensures (exists s :: Reachable(RecursiveJob(cfg, entries, blockSize), s) && WrongTree(entries, s))
       <==> !TreeSound(cfg, entries, blockSize)
  {
    var job := RecursiveJob(cfg, entries, blockSize);
    RecursiveWellFormed(cfg, entries, blockSize);
    RecursiveDistinct(cfg, entries, blockSize);
    TreeIsSoundIff(cfg, entries, blockSize);
    SuccessLiesIff(job);
    forall s
      ensures Lies(job, s) <==> WrongTree(entries, s)
    {
    }
    if !TreeSound(cfg, entries, blockSize) {
      var s :| Reachable(job, s) && Lies(job, s);
      assert WrongTree(entries, s);
    }
  }

  // A run in which nothing fails stays on its way to success exactly when there is a byte to dump,
  // and the synchronisation is safe or the tree has at most one block.
  lemma RecursiveStaysOnTrackIff(cfg: Config, entries: seq<Node>, blockSize: nat)
    requires blockSize > 0 && cfg.closes && !cfg.early
    ensures var job := RecursiveJob(cfg, entries, blockSize);
            (forall steps :: Clean(steps) && Exec(job, steps).Some? ==> !Derailed(job, Exec(job, steps).value))
            <==> EntriesData(entries) != [] && (Safe(cfg) || EntriesBlocks(entries, blockSize) <= 1)
  {
    RecursiveWellFormed(cfg, entries, blockSize);
    StaysOnTrackIff(RecursiveJob(cfg, entries, blockSize));
  }

  // The recursive reader passes its buffers by value, so a call may return with the caller's pair
  // in the other order; nothing is in flight then, unless the drain of the call was overtaken.
  lemma CallsReturnWithEmptySlot(cfg: Config, entries: seq<Node>, blockSize: nat, s: State)
    requires blockSize > 0 && cfg.closes && !cfg.early
    requires var job := RecursiveJob(cfg, entries, blockSize);
             Reachable(job, s) && 0 < s.ip <= |job.prog| && job.prog[s.ip - 1].Leave? && !s.writeError
    ensures s.buf1 != s.buf2
    ensures s.size > 0 ==> !Safe(cfg) && Overtakes(RecursiveJob(cfg, entries, blockSize), s.ip - 2)
  {
    var job := RecursiveJob(cfg, entries, blockSize);
    RecursiveWellFormed(cfg, entries, blockSize);
    FromReachable(job, s);
    BehindCall(job, s.ip);
  }

  lemma BehindCall(job: Job, k: nat)
    requires WellFormed(job) && 0 < k <= |job.prog| && job.prog[k - 1].Leave?
    ensures k >= 2 && Passed(job, k) > 0
    ensures Passed(job, k) == 1 && Chunks(job, k) >= 2 ==> Overtakes(job, k - 2)
  {
    assert ActionOk(job, k - 1);
    assert Passed(job, k) == Passed(job, k - 1) == Passed(job, k - 2) + 1;
    assert Chunks(job, k) == Chunks(job, k - 1) == Chunks(job, k - 2);
  }

  // With only a cancellation, or only a read error, a recursive dump can hang exactly when there is
  // a byte to dump.
  lemma RecursiveStopHangsIff(cfg: Config, entries: seq<Node>, blockSize: nat)
    requires blockSize > 0 && cfg.closes && !cfg.early
    ensures var job := RecursiveJob(cfg, entries, blockSize);
            && ((exists s :: Reachable(job, s) && Stuck(job, s) && s.cancelled && !s.readError && !s.writeError)
                <==> EntriesData(entries) != [])
            && ((exists s :: Reachable(job, s) && Stuck(job, s) && s.readError && !s.writeError && !s.cancelled)
                <==> EntriesData(entries) != [])
  {
    RecursiveWellFormed(cfg, entries, blockSize);
    CancelHangsIff(RecursiveJob(cfg, entries, blockSize));
    ReadErrorHangsIff(RecursiveJob(cfg, entries, blockSize));
  }

  // After a failed write, and with nothing else failing, a recursive dump can hang exactly when
  // some directory of the tree ends behind a block.
  lemma RecursiveWriteErrorHangsIff(cfg: Config, entries: seq<Node>, blockSize: nat)
    requires blockSize > 0 && cfg.closes && !cfg.early
    ensures var job := RecursiveJob(cfg, entries, blockSize);
            (exists s :: Reachable(job, s) && Stuck(job, s) && s.writeError && !s.readError && !s.cancelled)
            <==> TreeHas(entries, 0, true, StrandingFile(cfg, blockSize), blockSize)
  {
    var job := RecursiveJob(cfg, entries, blockSize);
    RecursiveWellFormed(cfg, entries, blockSize);
    RecursiveCalled(cfg, entries, blockSize);
    WriteErrorHangsIff(job);
    CanStrandIffBlock(job);
    StrandingAgree(job, blockSize);
    RecursiveHasIff(cfg, entries, StrandingBlockAt(job), StrandingFile(cfg, blockSize), blockSize);
  }
}
