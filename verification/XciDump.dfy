// A gamecard image through the pipeline: its read loop publishes the blocks of the image, and the
// two threads bring them to the output.

module XciDump {
  import opened Bytes
  import opened Pipeline
  import PipelineSuccess
  import PipelineHazards
  import Xci

  lemma {:induction false} RawData(cfg: Config, blocks: seq<seq<byte>>, k: nat)
    requires k <= |blocks|
    ensures DataTo(PipelineHazards.RawJob(cfg, blocks), k) == Concat(blocks[..k])
  {
    if k > 0 {
      RawData(cfg, blocks, k - 1);
      assert blocks[..k] == blocks[..k - 1] + [blocks[k - 1]];
      ConcatAppend(blocks[..k - 1], [blocks[k - 1]]);
      ConcatOne(blocks[k - 1]);
    }
  }

  // Under every kind of synchronisation, a gamecard dump reported as successful has written exactly
  // the image with its certificate kept or removed, unless the last block was written after the
  // reader had freed its buffers.
  lemma SuccessfulDumpIsTheImage(cfg: Config, image: seq<byte>, keepCertificate: bool, blockSize: nat, s: State)
    requires blockSize > 0 && !cfg.early && !cfg.closes
    requires var job := PipelineHazards.RawJob(cfg, Blocks(Xci.Dumped(image, keepCertificate), blockSize));
             Reachable(job, s) && ReportsSuccess(s) && !s.torn
    ensures s.log == Xci.Dumped(image, keepCertificate)
  {
    var d := Xci.Dumped(image, keepCertificate);
    var blocks := Blocks(d, blockSize);
    BlocksAreWhole(d, blockSize);
    PipelineHazards.RawWellFormed(cfg, blocks);
    PipelineSuccess.SuccessIsComplete(PipelineHazards.RawJob(cfg, blocks), s);
    RawData(cfg, blocks, |blocks|);
    assert blocks[..|blocks|] == blocks;
  }
}
