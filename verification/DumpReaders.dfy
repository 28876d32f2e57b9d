// The readers of nxdt_rw_poc.c as pipeline programs: raw images, extracted file systems (HFS, PFS,
// RomFS, system updates) and the recursive directory dump of the file browser.

module DumpReaders {
  import opened Bytes
  import opened Pipeline
  import opened PipelinePrograms

  // What is dumped: files, and directories for the recursive reader.
  datatype Node = File(id: nat, data: seq<byte>) | Dir(entries: seq<Node>)

  function ChunkActions(blocks: seq<seq<byte>>): (p: seq<Action>)
    ensures |p| == |blocks|
    ensures forall i :: 0 <= i < |p| ==> p[i] == Chunk(blocks[i])
  {
    if blocks == [] then [] else [Chunk(blocks[0])] + ChunkActions(blocks[1..])
  }

  function NodeProgram(node: Node, blockSize: nat): seq<Action>
    requires blockSize > 0
    decreases node, 1
  {
    match node
    case File(id, data) => [Close, Open(id)] + ChunkActions(Blocks(data, blockSize)) + [Check]
    case Dir(entries) => [Close, Enter] + Entries(entries, blockSize) + [Drain, Leave]
  }

  // One pass of a reader's entry loop.
  function Entries(entries: seq<Node>, blockSize: nat): seq<Action>
    requires blockSize > 0
    decreases entries, 0
  {
    if entries == [] then [] else NodeProgram(entries[0], blockSize) + Entries(entries[1..], blockSize)
  }

  // The bytes of a node, in the order in which they are dumped.
  function NodeData(node: Node): seq<byte>
    decreases node, 1
  {
    match node
    case File(_, data) => data
    case Dir(entries) => EntriesData(entries)
  }

  function EntriesData(entries: seq<Node>): seq<byte>
    decreases entries, 0
  {
    if entries == [] then [] else NodeData(entries[0]) + EntriesData(entries[1..])
  }

  // The files of a node.
  function NodeFiles(node: Node): map<nat, seq<byte>>
    decreases node, 1
  {
    match node
    case File(id, data) => map[id := data]
    case Dir(entries) => EntriesFiles(entries)
  }

  function EntriesFiles(entries: seq<Node>): map<nat, seq<byte>>
    decreases entries, 0
  {
    if entries == [] then map[] else NodeFiles(entries[0]) + EntriesFiles(entries[1..])
  }

  // -------------------------------------------------------------------------------------------
  // What a segment of a program does

  // The program of `job` contains `seg` at position k.
  ghost predicate At(job: Job, k: nat, seg: seq<Action>) {
    k + |seg| <= |job.prog| && forall i {:trigger seg[i]} :: 0 <= i < |seg| ==> job.prog[k + i] == seg[i]
  }

  lemma AtSplit(job: Job, k: nat, a: seq<Action>, b: seq<Action>)
    requires At(job, k, a + b)
    ensures At(job, k, a) && At(job, k + |a|, b)
  {
    forall i | 0 <= i < |a|
      ensures job.prog[k + i] == a[i]
    {
      assert (a + b)[i] == a[i];
    }
    forall i | 0 <= i < |b|
      ensures job.prog[k + |a| + i] == b[i]
    {
      assert (a + b)[|a| + i] == b[i];
    }
  }

  lemma AtThree(job: Job, k: nat, m: nat, n: nat, a: seq<Action>, b: seq<Action>, c: seq<Action>)
    requires At(job, k, a + b + c) && m == k + |a| && n == m + |b|
    ensures At(job, k, a) && At(job, m, b) && At(job, n, c)
  {
    AtSplit(job, k, a + b, c);
    AtSplit(job, k, a, b);
  }

  lemma AtTwo(job: Job, k: nat, a: Action, b: Action)
    requires At(job, k, [a, b])
    ensures At(job, k, [a]) && At(job, k + 1, [b])
  {
    assert [a, b][0] == a && [a, b][1] == b;
  }

  // The segment between two positions is well formed and has this effect.
  ghost predicate Did(job: Job, k: nat, n: nat, data: seq<byte>, files: map<nat, seq<byte>>, deeper: int) {
    && k <= n <= |job.prog|
    && (forall i :: k <= i < n ==> ActionOk(job, i))
    && DataTo(job, n) == DataTo(job, k) + data
    && After(job, n).files == After(job, k).files + files
    && Depth(job, n) == Depth(job, k) + deeper
  }

  lemma DidBoth(job: Job, k: nat, m: nat, n: nat, d: seq<byte>, e: seq<byte>,
                f: map<nat, seq<byte>>, g: map<nat, seq<byte>>, i: int, j: int)
    requires Did(job, k, m, d, f, i) && Did(job, m, n, e, g, j)
    ensures Did(job, k, n, d + e, f + g, i + j)
  {
    assert (DataTo(job, k) + d) + e == DataTo(job, k) + (d + e);
    assert (After(job, k).files + f) + g == After(job, k).files + (f + g);
  }

  lemma DidThree(job: Job, k: nat, m: nat, e: nat, n: nat, d: seq<byte>, f: map<nat, seq<byte>>, down: int)
    requires Did(job, k, m, [], map[], down) && Did(job, m, e, d, f, 0) && Did(job, e, n, [], map[], -down)
    ensures Did(job, k, n, d, f, 0)
  {
    DidBoth(job, k, m, e, [], d, map[], f, down, 0);
    assert [] + d == d && map[] + f == f;
    DidBoth(job, k, e, n, d, [], f, map[], down, -down);
    assert d + [] == d && f + map[] == f;
  }

  lemma OneAction(job: Job, k: nat, a: Action)
    requires At(job, k, [a])
    ensures job.prog[k] == a && After(job, k + 1) == Effect(job.cfg, After(job, k), a)
    ensures DataTo(job, k + 1) == DataTo(job, k) + if a.Chunk? then a.data else []
    ensures Depth(job, k + 1) == Depth(job, k) + if a.Enter? then 1 else if a.Leave? then -1 else 0
  {
    assert job.prog[k] == [a][0];
  }

  ghost predicate ChunksDid(job: Job, k: nat, n: nat, data: seq<byte>) {
    && k <= n <= |job.prog|
    && (forall i :: k <= i < n ==> ActionOk(job, i))
    && DataTo(job, n) == DataTo(job, k) + data
    && After(job, n) == Append(After(job, k), data)
    && Depth(job, n) == Depth(job, k)
  }

  // A block belongs here: the action before opens its file or publishes the block before.
  predicate BehindFile(job: Job, k: nat) {
    0 < k <= |job.prog| && (job.prog[k - 1].Open? || job.prog[k - 1].Chunk?)
  }

  lemma FirstChunk(job: Job, k: nat, n: nat, d: seq<byte>, rest: seq<byte>)
    requires At(job, k, [Chunk(d)]) && d != [] && After(job, k).cur.Some? && BehindFile(job, k)
    requires ChunksDid(job, k + 1, n, rest)
    ensures ChunksDid(job, k, n, d + rest)
  {
    OneAction(job, k, Chunk(d));
    AppendTwice(After(job, k), d, rest);
    assert (DataTo(job, k) + d) + rest == DataTo(job, k) + (d + rest);
  }

  lemma {:induction false} ChunksDo(job: Job, k: nat, blocks: seq<seq<byte>>)
    requires At(job, k, ChunkActions(blocks))
    requires NonEmptyBlocks(blocks)
    requires After(job, k).cur.Some? && BehindFile(job, k)
    ensures ChunksDid(job, k, k + |blocks|, Concat(blocks))
    decreases |blocks|
  {
    if blocks == [] {
      AppendNothing(After(job, k));
    } else {
      AtSplit(job, k, [Chunk(blocks[0])], ChunkActions(blocks[1..]));
      OneAction(job, k, Chunk(blocks[0]));
      ChunksDo(job, k + 1, blocks[1..]);
      FirstChunk(job, k, k + |blocks|, blocks[0], Concat(blocks[1..]));
    }
  }

  lemma FileHead(job: Job, k: nat, id: nat)
    requires At(job, k, [Close, Open(id)])
    ensures k + 2 <= |job.prog| && Headed(job, k, k + 2, id) && job.prog[k].Close? && job.prog[k + 1].Open?
  {
    AtTwo(job, k, Close, Open(id));
    OneAction(job, k, Close);
    OneAction(job, k + 1, Open(id));
  }

  // A file has been opened between k and m.
  ghost predicate Headed(job: Job, k: nat, m: nat, id: nat) {
    && k <= m <= |job.prog| && BehindFile(job, m)
    && After(job, m).cur == Some(id) && After(job, m).files == After(job, k).files[id := []]
    && (forall i :: k <= i < m ==> ActionOk(job, i))
    && DataTo(job, m) == DataTo(job, k) && Depth(job, m) == Depth(job, k)
  }

  lemma FileBody(job: Job, k: nat, m: nat, e: nat, id: nat, data: seq<byte>)
    requires Headed(job, k, m, id) && ChunksDid(job, m, e, data) && e < |job.prog| && job.prog[e].Check?
    ensures Did(job, k, e + 1, data, map[id := data], 0)
  {
    assert [] + data == data;
    assert After(job, e).files == After(job, k).files + map[id := data];
  }

  lemma FileDoes(job: Job, k: nat, id: nat, data: seq<byte>, blockSize: nat)
    requires blockSize > 0 && At(job, k, NodeProgram(File(id, data), blockSize))
    ensures Did(job, k, k + |NodeProgram(File(id, data), blockSize)|, data, map[id := data], 0)
  {
    BlocksAreWhole(data, blockSize);
    var blocks := Blocks(data, blockSize);
    var chunks := ChunkActions(blocks);
    FileAround(job, k, k + 2 + |chunks|, id, chunks);
    ChunksInFile(job, k + 2, k + 2 + |chunks|, data, blocks);
    FileBody(job, k, k + 2, k + 2 + |chunks|, id, data);
  }

  lemma FileAround(job: Job, k: nat, e: nat, id: nat, chunks: seq<Action>)
    requires At(job, k, [Close, Open(id)] + chunks + [Check]) && e == k + 2 + |chunks|
    ensures Headed(job, k, k + 2, id) && At(job, k + 2, chunks) && e < |job.prog| && job.prog[e].Check?
    ensures job.prog[k].Close? && job.prog[k + 1].Open?
  {
    AtThree(job, k, k + 2, e, [Close, Open(id)], chunks, [Check]);
    FileHead(job, k, id);
    OneAction(job, e, Check);
  }

  lemma ChunksInFile(job: Job, k: nat, e: nat, data: seq<byte>, blocks: seq<seq<byte>>)
    requires At(job, k, ChunkActions(blocks)) && e == k + |blocks| && Concat(blocks) == data
    requires NonEmptyBlocks(blocks)
    requires BehindFile(job, k) && After(job, k).cur.Some?
    ensures ChunksDid(job, k, e, data)
  {
    ChunksDo(job, k, blocks);
  }

  lemma DirHead(job: Job, k: nat)
    requires At(job, k, [Close, Enter])
    ensures Did(job, k, k + 2, [], map[], 1)
  {
    AtTwo(job, k, Close, Enter);
    OneAction(job, k, Close);
    OneAction(job, k + 1, Enter);
  }

  lemma DirTail(job: Job, k: nat)
    requires At(job, k, [Drain, Leave]) && Depth(job, k) > 0
    ensures Did(job, k, k + 2, [], map[], -1)
  {
    AtTwo(job, k, Drain, Leave);
    OneAction(job, k, Drain);
    OneAction(job, k + 1, Leave);
  }

  // A call around the entries of a directory.
  lemma CallDoes(job: Job, k: nat, inner: seq<Action>)
    requires At(job, k, [Close, Enter] + inner + [Drain, Leave])
    ensures At(job, k + 2, inner) && At(job, k + 2 + |inner|, [Drain, Leave])
    ensures Did(job, k, k + 2, [], map[], 1)
  {
    AtThree(job, k, k + 2, k + 2 + |inner|, [Close, Enter], inner, [Drain, Leave]);
    DirHead(job, k);
  }

  lemma {:induction false} NodeDoes(job: Job, k: nat, node: Node, blockSize: nat)
    requires blockSize > 0 && At(job, k, NodeProgram(node, blockSize)) && Depth(job, k) >= 0
    ensures Did(job, k, k + |NodeProgram(node, blockSize)|, NodeData(node), NodeFiles(node), 0)
    decreases node, 1
  {
    match node
    case File(id, data) => FileDoes(job, k, id, data, blockSize);
    case Dir(entries) =>
      var inner := Entries(entries, blockSize);
      CallDoes(job, k, inner);
      EntriesDo(job, k + 2, entries, blockSize);
      DirTail(job, k + 2 + |inner|);
      DidThree(job, k, k + 2, k + 2 + |inner|, k + 4 + |inner|, EntriesData(entries), EntriesFiles(entries), 1);
  }

  lemma {:induction false} EntriesDo(job: Job, k: nat, entries: seq<Node>, blockSize: nat)
    requires blockSize > 0 && At(job, k, Entries(entries, blockSize)) && Depth(job, k) >= 0
    ensures Did(job, k, k + |Entries(entries, blockSize)|, EntriesData(entries), EntriesFiles(entries), 0)
    decreases entries, 0
  {
    if entries != [] {
      var first := NodeProgram(entries[0], blockSize);
      var rest := Entries(entries[1..], blockSize);
      AtSplit(job, k, first, rest);
      NodeDoes(job, k, entries[0], blockSize);
      EntriesDo(job, k + |first|, entries[1..], blockSize);
      DidBoth(job, k, k + |first|, k + |first| + |rest|, NodeData(entries[0]), EntriesData(entries[1..]),
              NodeFiles(entries[0]), EntriesFiles(entries[1..]), 0, 0);
    } else {
      assert After(job, k).files + map[] == After(job, k).files;
    }
  }
}
