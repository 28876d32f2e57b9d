// A RomFS image through the pipeline: its table walk is the loop of the extracted reader that stops
// as soon as the writer has written everything.

module RomFsDump {
  import opened Bytes
  import opened Pipeline
  import opened PipelineSafety
  import DumpReaders
  import opened DumpResults
  import opened RomFsWalk

  // The entries of the table and the data they lead to.
  ghost predicate Sizes(es: seq<FileEntry>, files: seq<seq<byte>>) {
    |files| == |es| && forall i :: 0 <= i < |es| ==> |files[i]| == es[i].size
  }

  // The position of the reader when the loop condition is checked for the (i + 1)-th time.
  function Head(files: seq<seq<byte>>, i: nat, blockSize: nat): nat
    requires i <= |files| && blockSize > 0
  {
    |FilesProgram(files[..i], blockSize)|
  }

  lemma {:induction false} PrefixAt(job: Job, files: seq<seq<byte>>, i: nat, blockSize: nat)
    requires blockSize > 0 && i <= |files| && DumpReaders.At(job, 0, FilesProgram(files, blockSize))
    ensures DumpReaders.At(job, 0, FilesProgram(files[..i], blockSize))
    decreases |files|
  {
    if i < |files| {
      var m := |files| - 1;
      LastFileProgram(files, blockSize);
      DumpReaders.AtSplit(job, 0, FilesProgram(files[..m], blockSize), DumpReaders.NodeProgram(DumpReaders.File(m, files[m]), blockSize));
      PrefixAt(job, files[..m], i, blockSize);
      assert files[..m][..i] == files[..i];
    } else {
      assert files[..i] == files;
    }
  }

  lemma {:induction false} SumIsLength(es: seq<FileEntry>, files: seq<seq<byte>>, i: nat)
    requires Sizes(es, files) && i <= |es|
    ensures |Concat(files[..i])| == SumSizes(es, i)
  {
    if i > 0 {
      SumIsLength(es, files, i - 1);
      assert files[..i] == files[..i - 1] + [files[i - 1]];
      ConcatAppend(files[..i - 1], [files[i - 1]]);
      ConcatOne(files[i - 1]);
    } else {
      assert files[..0] == [];
    }
  }

  lemma DataAtHead(cfg: Config, files: seq<seq<byte>>, i: nat, blockSize: nat)
    requires blockSize > 0 && i <= |files|
    ensures var job := ExtractedJob(cfg, files, blockSize);
            && Head(files, i, blockSize) <= |job.prog|
            && DataTo(job, Head(files, i, blockSize)) == Concat(files[..i])
  {
    var job := ExtractedJob(cfg, files, blockSize);
    AtBody(job, FilesProgram(files, blockSize), [Drain]);
    PrefixAt(job, files, i, blockSize);
    DumpReaders.EntriesDo(job, 0, FileNodes(files[..i], 0), blockSize);
    FileNodesHold(files[..i], 0);
  }

  // In every run, the writer is never ahead of the entries that have been dumped.
  lemma WrittenAtHead(cfg: Config, es: seq<FileEntry>, files: seq<seq<byte>>, i: nat, blockSize: nat, s: State)
    requires blockSize > 0 && cfg.closes && Sizes(es, files) && i <= |files|
    requires Reachable(ExtractedJob(cfg, files, blockSize), s) && s.ip == Head(files, i, blockSize)
    ensures s.written <= SumSizes(es, i)
  {
    ExtractedWellFormed(cfg, files, blockSize);
    DataAtHead(cfg, files, i, blockSize);
    SumIsLength(es, files, i);
    WrittenIsBlockPrefix(ExtractedJob(cfg, files, blockSize), s);
  }

  // The walk over a table of entries while the two threads run, in the states `head` in which its
  // loop condition is checked: whatever the synchronisation and whatever fails, it visits the
  // entries in order and never fails itself, and when it stops, all entries left are empty.
  lemma {:induction false} DumpSkipsEmptyFilesOnly(cfg: Config, es: seq<FileEntry>, files: seq<seq<byte>>, blockSize: nat,
                                table: seq<byte>, head: nat -> State, visited: seq<nat>, ok: bool)
    requires blockSize > 0 && cfg.closes && HoldsEntries(table, es) && Sizes(es, files)
    requires forall i: nat :: i <= |visited| && i <= |es| ==>
               Reachable(ExtractedJob(cfg, files, blockSize), head(i)) && head(i).ip == Head(files, i, blockSize)
    requires Walked(table, Total(ExtractedJob(cfg, files, blockSize)), i => head(i).written, visited, ok)
    ensures ok && |visited| <= |es|
    ensures forall i :: 0 <= i < |visited| ==> visited[i] == RomFsWalk.Start(es, i)
    ensures forall i :: |visited| <= i < |es| ==> files[i] == []
  {
    var k := |visited|;
    ExtractedWellFormed(cfg, files, blockSize);
    SumIsLength(es, files, |es|);
    assert files[..|es|] == files;
    if k <= |es| { WrittenAtHead(cfg, es, files, k, blockSize, head(k)); }
    WalkSkipsEmptyFilesOnly(es, table, SumSizes(es, |es|), i => head(i).written, visited, ok);
  }
}
