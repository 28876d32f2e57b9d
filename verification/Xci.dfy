// Gamecard image dumps (xciReadThreadFunc, saveGameCardImage): what is published for an image, and
// the checksums that go with it, whatever the block size.

module Xci {
  import opened Bytes

  const CERT_OFFSET: nat := 0x7000
  const CERT_SIZE: nat := 0x200

  // crc32CalculateWithSeed: a fold over the bytes; the step is the table look-up of CRC-32.
  function Crc(step: (nat, byte) -> nat, seed: nat, data: seq<byte>): nat {
    CrcTo(step, seed, data, |data|)
  }

  // Over the first k bytes.
  function CrcTo(step: (nat, byte) -> nat, seed: nat, data: seq<byte>, k: nat): nat
    requires k <= |data|
  {
    if k == 0 then seed else step(CrcTo(step, seed, data, k - 1), data[k - 1])
  }

  // Going on with a part of the data.
  lemma {:induction false} CrcNext(step: (nat, byte) -> nat, seed: nat, d: seq<byte>, offset: nat, block: seq<byte>, k: nat)
    requires offset + |block| <= |d| && block == d[offset..offset + |block|] && k <= |block|
    ensures CrcTo(step, CrcTo(step, seed, d, offset), block, k) == CrcTo(step, seed, d, offset + k)
  {
    if k > 0 { CrcNext(step, seed, d, offset, block, k - 1); }
  }

  lemma {:induction false} CrcPrefix(step: (nat, byte) -> nat, seed: nat, a: seq<byte>, b: seq<byte>, k: nat)
    requires k <= |a| <= |b| && a == b[..|a|]
    ensures CrcTo(step, seed, a, k) == CrcTo(step, seed, b, k)
  {
    if k > 0 { CrcPrefix(step, seed, a, b, k - 1); }
  }

  // Checksums compose: checking a part, and then the rest with its result as the seed.
  lemma CrcAppend(step: (nat, byte) -> nat, seed: nat, a: seq<byte>, b: seq<byte>)
    ensures Crc(step, seed, a + b) == Crc(step, Crc(step, seed, a), b)
  {
    CrcPrefix(step, seed, a, a + b, |a|);
    CrcNext(step, seed, a + b, |a|, b, |b|);
  }

  datatype Options = Options(keepCertificate: bool, calculateChecksum: bool, prependKeyArea: bool)

  // The dumped image: the certificate range is set to 0xFF, as far as the image reaches.
  function Dumped(image: seq<byte>, keepCertificate: bool): (d: seq<byte>)
    ensures |d| == |image|
  {
    seq<byte>(|image|, i requires 0 <= i < |image| =>
                if !keepCertificate && CERT_OFFSET <= i < CERT_OFFSET + CERT_SIZE then 0xFF else image[i])
  }

  // One block: read, and without the certificate if it is the first one.
  method FillBlock(image: seq<byte>, keepCertificate: bool, buf: array<byte>, offset: nat, size: nat)
    requires offset + size <= |image| && size <= buf.Length && buf.Length >= CERT_OFFSET + CERT_SIZE
    requires offset == 0 || offset >= CERT_OFFSET + CERT_SIZE
    requires offset == 0 ==> size == |image| || size >= CERT_OFFSET + CERT_SIZE
    modifies buf
    ensures buf[..size] == Dumped(image, keepCertificate)[offset..offset + size]
  {
    forall k | 0 <= k < size { buf[k] := image[offset + k]; }
    if !keepCertificate && offset == 0 {
      forall k | CERT_OFFSET <= k < CERT_OFFSET + CERT_SIZE { buf[k] := 0xFF; }
    }
    ghost var d := Dumped(image, keepCertificate);
    assert forall k :: 0 <= k < size ==> buf[k] == d[offset + k];
  }

  // The checksums of the first n bytes that have been asked for.
  ghost predicate Checked(o: Options, step: (nat, byte) -> nat, keyArea: seq<byte>, d: seq<byte>, n: nat, sums: (nat, nat))
    requires n <= |d|
  {
    && (o.calculateChecksum ==> sums.0 == CrcTo(step, 0, d, n))
    && (o.calculateChecksum && o.prependKeyArea ==> sums.1 == CrcTo(step, Crc(step, 0, keyArea), d, n))
  }

  method UpdateChecksums(o: Options, step: (nat, byte) -> nat, sums: (nat, nat), block: seq<byte>,
                         ghost keyArea: seq<byte>, ghost d: seq<byte>, ghost offset: nat) returns (next: (nat, nat))
    requires offset + |block| <= |d| && block == d[offset..offset + |block|] && Checked(o, step, keyArea, d, offset, sums)
    ensures Checked(o, step, keyArea, d, offset + |block|, next)
  {
    next := sums;
    if o.calculateChecksum {
      CrcNext(step, 0, d, offset, block, |block|);
      next := (Crc(step, sums.0, block), next.1);
      if o.prependKeyArea {
        CrcNext(step, Crc(step, 0, keyArea), d, offset, block, |block|);
        next := (next.0, Crc(step, sums.1, block));
      }
    }
  }

  // The read loop, without its waits: the blocks it publishes, and the checksums of the image and of the
  // key area followed by the image.
  method ReadImage(image: seq<byte>, o: Options, keyArea: seq<byte>, step: (nat, byte) -> nat, blockSize: nat)
    returns (blocks: seq<seq<byte>>, sums: (nat, nat))
    requires blockSize >= CERT_OFFSET + CERT_SIZE
    ensures blocks == Blocks(Dumped(image, o.keepCertificate), blockSize)
    ensures Concat(blocks) == Dumped(image, o.keepCertificate)
    ensures o.calculateChecksum ==> sums.0 == Crc(step, 0, Dumped(image, o.keepCertificate))
    ensures o.calculateChecksum && o.prependKeyArea ==>
              sums.1 == Crc(step, 0, keyArea + Dumped(image, o.keepCertificate))
  {
    ghost var d := Dumped(image, o.keepCertificate);
    blocks, sums := [], (0, 0);
    if o.calculateChecksum && o.prependKeyArea { sums := (0, Crc(step, 0, keyArea)); }
    var buf := new byte[blockSize](_ => 0);
    var offset, blksize := 0, blockSize;
    assert d[0..] == d;
    while offset < |image|
      invariant offset <= |image| && 0 < blksize <= blockSize
      invariant offset < |image| ==> blksize == blockSize && (offset == 0 || offset >= CERT_OFFSET + CERT_SIZE)
      invariant Blocks(d, blockSize) == blocks + Blocks(d[offset..], blockSize)
      invariant Checked(o, step, keyArea, d, offset, sums)
      decreases |image| - offset
    {
      if blksize > |image| - offset { blksize := |image| - offset; }
      FillBlock(image, o.keepCertificate, buf, offset, blksize);
      var block := buf[..blksize];
      sums := UpdateChecksums(o, step, sums, block, keyArea, d, offset);
      NextBlock(d, offset, blksize, blockSize);
      Associative(blocks, [block], Blocks(d[offset + blksize..], blockSize));
      blocks := blocks + [block];
      offset := offset + blksize;
    }
    CrcAppend(step, 0, keyArea, d);
    BlocksCover(d, blockSize);
  }

  lemma NextBlock(d: seq<byte>, offset: nat, size: nat, blockSize: nat)
    requires blockSize > 0 && offset < |d|
    requires size == if |d| - offset < blockSize then |d| - offset else blockSize
    ensures Blocks(d[offset..], blockSize) == [d[offset..offset + size]] + Blocks(d[offset + size..], blockSize)
  {
    var rest := d[offset..];
    if |rest| <= blockSize {
      assert rest == d[offset..offset + size] && d[offset + size..] == [];
    } else {
      assert rest[..blockSize] == d[offset..offset + size] && rest[blockSize..] == d[offset + size..];
    }
  }

  // Removing the certificate changes the certificate range and nothing else.
  lemma OnlyTheCertificateChanges(image: seq<byte>)
    requires |image| >= 0x7200
    ensures Dumped(image, true) == image
    ensures Dumped(image, false) == image[..0x7000] + seq<byte>(0x200, _ => 0xFF) + image[0x7200..]
  {
  }
}
