// Reading a filesystem section of an encrypted content file (nca.c): any range, aligned or not, with
// or without a plaintext hash region, through one fixed-size crypto buffer.

module NcaSection {
  import opened Bytes
  import opened Bits
  import opened Ctr

  const CRYPTO_BUFFER_SIZE: nat := 0x800000
  const AES_BLOCK_SIZE: nat := 16

  // The end of the cipher block that holds the byte before x.
  function CipherEnd(x: nat): nat { (x + 15) / 16 * 16 }

  function CipherStart(x: nat): nat { x / 16 * 16 }

  lemma Align16(x: nat)
    ensures AlignDown(x, AES_BLOCK_SIZE) == CipherStart(x) && AlignUp(x, AES_BLOCK_SIZE) == CipherEnd(x)
  {
    assert PowerOfTwo(AES_BLOCK_SIZE) by { assert Pow2(4) == AES_BLOCK_SIZE; }
    AlignDownIsGreatest(x, AES_BLOCK_SIZE);
    AlignUpIsLeast(x, AES_BLOCK_SIZE);
    CipherBlocks(x);
  }

  lemma CipherBlocks(x: nat)
    ensures CipherStart(x) % 16 == 0 && CipherStart(x) == x - x % 16
    ensures CipherEnd(x) % 16 == 0 && x <= CipherEnd(x) < x + 16
    ensures forall e: nat :: e % 16 == 0 && x <= e < x + 16 ==> e == CipherEnd(x)
  {
  }

  // The sizes of one unaligned read.
  lemma BlockSizes(p: nat, size: nat)
    requires size > 0
    ensures var start, end := CipherStart(p), CipherEnd(p + size);
            && start <= p < p + size <= end < p + size + 16 && p - start < 16 && start % 16 == 0
            && (end - start > CRYPTO_BUFFER_SIZE ==> start + CRYPTO_BUFFER_SIZE < p + size)
  {
    CipherBlocks(p);
    CipherBlocks(p + size);
    Multiples(CipherStart(p), CipherEnd(p + size), p + size);
  }

  lemma Multiples(start: nat, end: nat, stop: nat)
    requires start % 16 == 0 && end % 16 == 0 && end < stop + 16
    ensures end - start > CRYPTO_BUFFER_SIZE ==> start + CRYPTO_BUFFER_SIZE < stop
  {
  }

  lemma SumOfMultiples(a: nat, b: nat)
    requires a % 16 == 0 && b % 16 == 0
    ensures (a + b) % 16 == 0
  {
  }

  lemma AlignedEnd(p: nat, size: nat)
    requires p % 16 == 0 && size % 16 == 0
    ensures CipherEnd(p + size) == p + size
  {
  }

  // The key stream of a whole content file: every byte meets the counter block of its own offset.
  function KeyAt(cipher: Cipher, iv: seq<byte>, p: nat): byte
    requires |iv| == 8
  {
    cipher(CounterBlock(iv, p))[p % 16]
  }

  // The whole content file, decrypted.
  ghost function Decrypted(cipher: Cipher, iv: seq<byte>, content: seq<byte>): nat -> byte
    requires |iv| == 8
  {
    (p: nat) => if p < |content| then XorByte(content[p], KeyAt(cipher, iv, p)) else 0
  }

  lemma KeyFromCounter(cipher: Cipher, iv: seq<byte>, offset: nat, k: nat)
    requires |iv| == 8 && offset + k < WORD_64 && offset % 16 == 0
    ensures KeyByte(cipher, FromBe(CounterBlock(iv, offset)), k) == KeyAt(cipher, iv, offset + k)
  {
    KeyByCounterBlock(cipher, iv, offset, k);
    SplitBlocks(offset, k);
  }

  function Updated(iv: seq<byte>, generation: Option<nat>): (r: seq<byte>)
    requires |iv| == 8
    ensures |r| == 8
  {
    match generation
    case None => iv
    case Some(value) => WithGeneration(iv, value)
  }

  lemma UpdatedTwice(iv: seq<byte>, generation: Option<nat>)
    requires |iv| == 8
    ensures Updated(Updated(iv, generation), generation) == Updated(iv, generation)
  {
  }

  class FsSection {
    const cipher: Cipher
    const content: seq<byte>   // the whole content file
    const sectionOffset: nat
    const sectionSize: nat
    const encrypted: bool      // AES-CTR; otherwise the section is plaintext
    const skipHash: bool       // the hash region is stored in plaintext
    const hashOffset: nat
    const hashSize: nat
    const ctr: array<byte>
    const buffer: array<byte>  // g_ncaCryptoBuffer

    constructor (cipher: Cipher, content: seq<byte>, sectionOffset: nat, sectionSize: nat, encrypted: bool,
                 skipHash: bool, hashSize: nat, iv: array<byte>)
      requires sectionOffset + sectionSize + 16 < WORD_64 && iv.Length == 8
      ensures Valid() && fresh(ctr) && fresh(buffer)
      ensures this.content == content && this.sectionOffset == sectionOffset && this.sectionSize == sectionSize
      ensures this.encrypted == encrypted && this.skipHash == skipHash && this.hashOffset == 0 && this.hashSize == hashSize
      ensures this.cipher == cipher && Iv() == iv[..]
    {
      this.cipher, this.content := cipher, content;
      this.sectionOffset, this.sectionSize, this.encrypted := sectionOffset, sectionSize, encrypted;
      this.skipHash, this.hashOffset, this.hashSize := skipHash, 0, hashSize;
      var c := new byte[16](_ => 0);
      ctr, buffer := c, new byte[CRYPTO_BUFFER_SIZE](_ => 0);
      new;
      InitializePartialCtr(c, iv, sectionOffset);
      assert iv[..8] == iv[..];
      assert ctr[..8] == Reverse(iv[..]);
      ReverseTwice(iv[..]);
    }

    ghost predicate Valid()
      reads this
    {
      ctr != buffer && ctr.Length == 16 && buffer.Length == CRYPTO_BUFFER_SIZE && sectionOffset + sectionSize + 16 < WORD_64
    }

    // The section's IV, as the counter holds it.
    ghost function Iv(): (iv: seq<byte>)
      requires ctr.Length == 16
      reads ctr
      ensures |iv| == 8
    {
      Reverse(ctr[..8])
    }

    // `clear` gives the bytes of the content file, decrypted with an IV: a name for the result of the
    // key stream that the proofs need not look into.
    ghost predicate IsClear(iv: seq<byte>, clear: nat -> byte)
      requires |iv| == 8
    {
      forall p: nat {:trigger KeyAt(cipher, iv, p)} :: p < |content| ==>
        clear(p) == XorByte(content[p], cipher(CounterBlock(iv, p))[p % 16])
    }

    predicate StoredInPlaintext(offset: int) {
      !encrypted || (skipHash && hashOffset <= offset < hashOffset + hashSize)
    }

    // What the section means: byte p of the content, decrypted with the counter block of p, unless it
    // is stored in plaintext.
    ghost function Meaning(clear: nat -> byte, p: nat): byte
      requires p < |content|
    {
      if StoredInPlaintext(p - sectionOffset) then content[p] else clear(p)
    }

    // The same for another content file of the same layout.
    ghost function MeaningOf(file: seq<byte>, iv: seq<byte>, p: nat): byte
      requires p < |file| && |iv| == 8
    {
      if StoredInPlaintext(p - sectionOffset) then file[p] else Decrypted(cipher, iv, file)(p)
    }

    // ncaReadContentFile
    method ReadContent(out: array<byte>, at: nat, size: nat, offset: nat) returns (ok: bool)
      requires at + size <= out.Length
      modifies out
      ensures ok <==> size > 0 && offset + size <= |content|
      ensures ok ==> forall j :: at <= j < at + size ==> out[j] == content[offset + j - at]
      ensures forall i :: 0 <= i < out.Length && !(at <= i < at + size) ==> out[i] == old(out[i])
    {
      if size == 0 || offset + size > |content| { return false; }
      for k := 0 to size
        invariant forall j :: at <= j < at + k ==> out[j] == content[offset + j - at]
        invariant forall i :: 0 <= i < out.Length && !(at <= i < at + size) ==> out[i] == old(out[i])
      {
        out[at + k] := content[offset + k];
      }
      return true;
    }

    // ncaReadContentFile, aes128CtrUpdatePartialCtr or aes128CtrUpdatePartialCtrEx,
    // aes128CtrContextResetCtr and aes128CtrCrypt
    method ReadAndDecrypt(out: array<byte>, at: nat, size: nat, offset: nat, generation: Option<nat>, ghost clear: nat -> byte)
      returns (ok: bool)
      requires Valid() && out != ctr && at + size <= out.Length && offset + size < WORD_64 && offset % 16 == 0
      requires IsClear(Updated(Iv(), generation), clear)
      requires generation.Some? ==> generation.value < 0x1_0000_0000
      modifies out, ctr
      ensures Iv() == if ok then Updated(old(Iv()), generation) else old(Iv())
      ensures ok <==> size > 0 && offset + size <= |content|
      ensures ok ==> forall j :: at <= j < at + size ==> out[j] == clear(offset + j - at)
      ensures forall i :: 0 <= i < out.Length && !(at <= i < at + size) ==> out[i] == old(out[i])
    {
      ok := ReadContent(out, at, size, offset);
      if !ok { return; }
      SetCounter(offset, generation);
      ghost var iv := Iv();
      var counter := FromBe(ctr[..]);
      forall k: nat | k < size
        ensures clear(offset + k) == XorByte(content[offset + k], KeyByte(cipher, counter, k))
      {
        KeyFromCounter(cipher, iv, offset, k);
      }
      ApplyKeys(out, at, size, counter, offset, content, clear);
    }

    // The counter of a content offset, with or without a new generation.
    method SetCounter(offset: nat, generation: Option<nat>)
      requires Valid() && offset < WORD_64 && (generation.Some? ==> generation.value < 0x1_0000_0000)
      modifies ctr
      ensures Iv() == Updated(old(Iv()), generation) && ctr[..] == CounterBlock(Iv(), offset)
    {
      ghost var iv := Iv();
      ReverseTwice(ctr[..8]);
      match generation {
        case None =>
          UpdatePartialCtr(ctr, offset);
          UpdatesAgreeWithInitialisation(iv, 0, offset, 0);
        case Some(value) =>
          UpdatePartialCtrEx(ctr, value, offset);
          UpdatesAgreeWithInitialisation(iv, 0, offset, value);
          assert old(ctr[..4]) == CounterBlock(iv, 0)[..4];
      }
      assert ctr[..] == CounterBlock(Updated(iv, generation), offset);
      ReverseTwice(Updated(iv, generation));
      assert ctr[..8] == Reverse(Updated(iv, generation));
    }

    // aes128CtrCrypt: `source` becomes `target`, as far as the buffer holds it.
    method ApplyKeys(out: array<byte>, at: nat, size: nat, counter: nat, ghost offset: nat,
                     ghost source: seq<byte>, ghost target: nat -> byte)
      requires at + size <= out.Length && offset + size <= |source|
      requires forall j :: at <= j < at + size ==> out[j] == source[offset + j - at]
      requires forall k: nat {:trigger KeyByte(cipher, counter, k)} :: k < size ==>
                 target(offset + k) == XorByte(source[offset + k], KeyByte(cipher, counter, k))
      modifies out
      ensures forall j :: at <= j < at + size ==> out[j] == target(offset + j - at)
      ensures forall i :: 0 <= i < out.Length && !(at <= i < at + size) ==> out[i] == old(out[i])
    {
      for k := 0 to size
        invariant forall j :: at <= j < at + k ==> out[j] == target(offset + j - at)
        invariant forall j :: at + k <= j < at + size ==> out[j] == source[offset + j - at]
        invariant forall i :: 0 <= i < out.Length && !(at <= i < at + size) ==> out[i] == old(out[i])
      {
        out[at + k] := XorByte(out[at + k], KeyByte(cipher, counter, k));
      }
    }

    // Where the encrypted part of a range ends, if it has one: ahead of a plaintext hash region that
    // begins inside the range, and else at the range's end.
    function EncryptedEnd(offset: nat, size: nat): Option<nat> {
      var hashEnd := hashOffset + hashSize;
      if !encrypted then None
      else if !skipHash || hashEnd <= offset || offset + size <= hashOffset then Some(offset + size)
      else if hashOffset <= offset then if offset + size <= hashEnd then None else Some(offset + size)
      else Some(hashOffset)
    }

    // A range can be read when it is inside the section and the file, and the last cipher block of
    // its encrypted part is completely in the file.
    predicate Readable(offset: nat, size: nat) {
      && size > 0 && offset + size <= sectionSize && sectionOffset + offset + size <= |content|
      && (EncryptedEnd(offset, size).Some? ==>
            CipherEnd(sectionOffset + EncryptedEnd(offset, size).value) <= |content|)
    }

    // The range does not reach over both ends of the hash region. Since the region is set up to
    // start with the section, this is always so.
    predicate OneSided(offset: nat, size: nat) {
      skipHash ==> hashOffset <= offset || offset + size <= hashOffset + hashSize
    }

    predicate MissesHash(offset: nat, size: nat) {
      skipHash ==> hashOffset + hashSize <= offset || offset + size <= hashOffset
    }

    // A range that misses the hash region is encrypted throughout.
    lemma EncryptedRange(clear: nat -> byte, offset: nat, size: nat)
      requires encrypted && MissesHash(offset, size)
      requires size > 0 && offset + size <= sectionSize && sectionOffset + offset + size <= |content|
      ensures Readable(offset, size) <==> CipherEnd(sectionOffset + offset + size) <= |content|
      ensures forall p: nat :: sectionOffset + offset <= p < sectionOffset + offset + size ==> Meaning(clear, p) == clear(p)
    {
    }

    // The hash region is stored in plaintext.
    lemma PlaintextRange(clear: nat -> byte, offset: nat, size: nat)
      requires skipHash && hashOffset <= offset && offset + size <= hashOffset + hashSize
      requires sectionOffset + offset + size <= |content|
      ensures forall p: nat :: sectionOffset + offset <= p < sectionOffset + offset + size ==> Meaning(clear, p) == content[p]
    {
    }

    // Cutting a range at the start or at the end of the hash region.
    lemma ReadableParts(offset: nat, size: nat, n: nat)
      requires skipHash && 0 < n < size && offset + size <= sectionSize && sectionOffset + offset + size <= |content|
      ensures hashOffset <= offset && offset + n == hashOffset + hashSize ==>
                (Readable(offset, size) <==> Readable(offset + n, size - n))
      ensures offset + n == hashOffset && offset + size <= hashOffset + hashSize ==>
                (Readable(offset, size) <==> Readable(offset, n))
    {
    }

    // ncaFsSectionCheckPlaintextHashRegionAccess
    method CheckPlaintextHashRegionAccess(offset: nat, size: nat) returns (hit: bool, from: nat, length: nat)
      requires size > 0
      ensures hit <==> skipHash && if hashOffset <= offset then offset < hashOffset + hashSize else hashOffset < offset + size
      ensures hit ==> from == if hashOffset <= offset then offset else hashOffset
      ensures hit ==> from + length == if hashOffset + hashSize <= offset + size then hashOffset + hashSize else offset + size
    {
      if !skipHash { return false, 0, 0; }
      var hashEnd := hashOffset + hashSize;
      if hashOffset <= offset {
        if offset < hashEnd {
          return true, offset, if hashEnd <= offset + size then hashEnd - offset else size;
        }
      } else if hashOffset < offset + size {
        return true, hashOffset, if offset + size <= hashEnd then offset + size - hashOffset else hashSize;
      }
      return false, 0, 0;
    }

    // _ncaReadFsSection
    method Read(out: array<byte>, at: nat, size: nat, offset: nat, ghost clear: nat -> byte)
      returns (ok: bool)
      requires Valid() && IsClear(Iv(), clear) && out != ctr && out != buffer && at + size <= out.Length && OneSided(offset, size)
      modifies out, ctr, buffer
      ensures Iv() == old(Iv())
      ensures ok <==> Readable(offset, size)
      ensures ok ==> forall j :: at <= j < at + size ==> out[j] == Meaning(clear, sectionOffset + offset + j - at)
      ensures forall i :: 0 <= i < out.Length && !(at <= i < at + size) ==> out[i] == old(out[i])
      decreases size, 2
    {
      if size == 0 || offset + size > sectionSize { return false; }
      var p := sectionOffset + offset;
      if p + size > |content| { return false; }
      var hit, from, length := CheckPlaintextHashRegionAccess(offset, size);
      if hit {
        if from == offset {
          ok := ReadHashFirst(out, at, size, offset, length, clear);
        } else {
          ok := ReadHashLast(out, at, size, offset, from, clear);
        }
      } else if !encrypted {
        ok := ReadContent(out, at, size, p);
      } else {
        ok := ReadEncrypted(out, at, size, offset, clear);
      }
    }

    // The range begins in the plaintext hash region: `length` plaintext bytes, and then the rest.
    method ReadHashFirst(out: array<byte>, at: nat, size: nat, offset: nat, length: nat, ghost clear: nat -> byte)
      returns (ok: bool)
      requires Valid() && IsClear(Iv(), clear) && out != ctr && out != buffer && at + size <= out.Length && OneSided(offset, size)
      requires size > 0 && offset + size <= sectionSize && sectionOffset + offset + size <= |content|
      requires skipHash && hashOffset <= offset < hashOffset + hashSize
      requires offset + length == if hashOffset + hashSize <= offset + size then hashOffset + hashSize else offset + size
      modifies out, ctr, buffer
      ensures Iv() == old(Iv())
      ensures ok <==> Readable(offset, size)
      ensures ok ==> forall j :: at <= j < at + size ==> out[j] == Meaning(clear, sectionOffset + offset + j - at)
      ensures forall i :: 0 <= i < out.Length && !(at <= i < at + size) ==> out[i] == old(out[i])
      decreases size, 1
    {
      var p := sectionOffset + offset;
      PlaintextRange(clear, offset, length);
      ok := ReadContent(out, at, length, p);
      if size - length > 0 {
        ReadableParts(offset, size, length);
        ok := Read(out, at + length, size - length, offset + length, clear);
        assert ok ==> forall j :: at <= j < at + length ==> out[j] == content[p + j - at];
      }
    }

    // The range ends in the plaintext hash region, which begins at `from`.
    method ReadHashLast(out: array<byte>, at: nat, size: nat, offset: nat, from: nat, ghost clear: nat -> byte)
      returns (ok: bool)
      requires Valid() && IsClear(Iv(), clear) && out != ctr && out != buffer && at + size <= out.Length && OneSided(offset, size)
      requires size > 0 && offset + size <= sectionSize && sectionOffset + offset + size <= |content|
      requires skipHash && offset < from == hashOffset < offset + size
      modifies out, ctr, buffer
      ensures Iv() == old(Iv())
      ensures ok <==> Readable(offset, size)
      ensures ok ==> forall j :: at <= j < at + size ==> out[j] == Meaning(clear, sectionOffset + offset + j - at)
      ensures forall i :: 0 <= i < out.Length && !(at <= i < at + size) ==> out[i] == old(out[i])
      decreases size, 1
    {
      var n := from - offset;
      ReadableParts(offset, size, n);
      ok := Read(out, at, n, offset, clear);
      if ok { ok := ReadContent(out, at + n, size - n, sectionOffset + from); }
    }

    // The part of _ncaReadFsSection that decrypts: directly into the output when everything is
    // aligned, and else through the crypto buffer.
    method ReadEncrypted(out: array<byte>, at: nat, size: nat, offset: nat, ghost clear: nat -> byte)
      returns (ok: bool)
      requires Valid() && IsClear(Iv(), clear) && out != ctr && out != buffer && at + size <= out.Length
      requires encrypted && 0 < size && offset + size <= sectionSize && sectionOffset + offset + size <= |content|
      requires MissesHash(offset, size)
      modifies out, ctr, buffer
      ensures Iv() == old(Iv())
      ensures ok <==> CipherEnd(sectionOffset + offset + size) <= |content|
      ensures ok ==> forall j :: at <= j < at + size ==> out[j] == clear(sectionOffset + offset + j - at)
      ensures forall i :: 0 <= i < out.Length && !(at <= i < at + size) ==> out[i] == old(out[i])
      decreases size, 1
    {
      var p := sectionOffset + offset;
      if p % 16 == 0 && size % 16 == 0 {
        AlignedEnd(p, size);
        ok := ReadAndDecrypt(out, at, size, p, None, clear);
      } else {
        ok := ReadUnaligned(out, at, size, offset, clear);
      }
    }

    // The cipher blocks around an unaligned range, cut off at the size of the crypto buffer.
    method UnalignedSizes(p: nat, size: nat) returns (start: nat, chunk: nat, outChunk: nat, more: bool)
      requires size > 0
      ensures start <= p && start % 16 == 0 && 0 < outChunk && p + outChunk <= start + chunk && chunk <= CRYPTO_BUFFER_SIZE
      ensures start + chunk < p + size + 16
      ensures if more then outChunk < size && start + chunk < p + size && start + chunk == p + outChunk
              else outChunk == size && start + chunk == CipherEnd(p + size)
    {
      Align16(p);
      Align16(p + size);
      BlockSizes(p, size);
      start := AlignDown(p, AES_BLOCK_SIZE);
      var blockSize := AlignUp(p + size, AES_BLOCK_SIZE) - start;
      more := blockSize > CRYPTO_BUFFER_SIZE;
      chunk := if more then CRYPTO_BUFFER_SIZE else blockSize;
      outChunk := if more then CRYPTO_BUFFER_SIZE - (p - start) else size;
    }

    // One buffer of an unaligned range, and then the rest of it.
    method ReadUnaligned(out: array<byte>, at: nat, size: nat, offset: nat, ghost clear: nat -> byte)
      returns (ok: bool)
      requires Valid() && IsClear(Iv(), clear) && out != ctr && out != buffer && at + size <= out.Length
      requires encrypted && 0 < size && offset + size <= sectionSize && sectionOffset + offset + size <= |content|
      requires MissesHash(offset, size)
      modifies out, ctr, buffer
      ensures Iv() == old(Iv())
      ensures ok <==> CipherEnd(sectionOffset + offset + size) <= |content|
      ensures ok ==> forall j :: at <= j < at + size ==> out[j] == clear(sectionOffset + offset + j - at)
      ensures forall i :: 0 <= i < out.Length && !(at <= i < at + size) ==> out[i] == old(out[i])
      decreases size, 0
    {
      var p := sectionOffset + offset;
      var start, chunk, outChunk, more := UnalignedSizes(p, size);
      ok := ReadThroughBuffer(out, at, outChunk, chunk, start, p, None, clear);
      if !ok { return; }
      if more {
        EncryptedRange(clear, offset + outChunk, size - outChunk);
        ok := Read(out, at + outChunk, size - outChunk, offset + outChunk, clear);
      }
    }

    // The cipher blocks around a range go through the crypto buffer, and the range is copied.
    method ReadThroughBuffer(out: array<byte>, at: nat, size: nat, chunk: nat, start: nat, p: nat,
                             generation: Option<nat>, ghost clear: nat -> byte) returns (ok: bool)
      requires Valid() && out != ctr && out != buffer && at + size <= out.Length
      requires start <= p && p + size <= start + chunk < WORD_64 && chunk <= CRYPTO_BUFFER_SIZE && start % 16 == 0
      requires IsClear(Updated(Iv(), generation), clear)
      requires generation.Some? ==> generation.value < 0x1_0000_0000
      modifies out, ctr, buffer
      ensures Iv() == if ok then Updated(old(Iv()), generation) else old(Iv())
      ensures ok <==> chunk > 0 && start + chunk <= |content|
      ensures ok ==> forall j :: at <= j < at + size ==> out[j] == clear(p + j - at)
      ensures forall i :: 0 <= i < out.Length && !(at <= i < at + size) ==> out[i] == old(out[i])
    {
      ok := ReadAndDecrypt(buffer, 0, chunk, start, generation, clear);
      if !ok { return; }
      CopyOut(out, at, size, p - start);
      forall j | at <= j < at + size
        ensures out[j] == clear(p + j - at)
      {
        var i := p - start + j - at;
        assert buffer[i] == clear(start + i - 0);
      }
    }

    // memcpy from the crypto buffer
    method CopyOut(out: array<byte>, at: nat, size: nat, skip: nat)
      requires out != buffer && at + size <= out.Length && skip + size <= buffer.Length
      modifies out
      ensures forall j :: at <= j < at + size ==> out[j] == buffer[skip + j - at]
      ensures forall i :: 0 <= i < out.Length && !(at <= i < at + size) ==> out[i] == old(out[i])
    {
      for k := 0 to size
        invariant forall j :: at <= j < at + k ==> out[j] == buffer[skip + j - at]
        invariant forall i :: 0 <= i < out.Length && !(at <= i < at + size) ==> out[i] == old(out[i])
      {
        out[at + k] := buffer[skip + k];
      }
    }

    // _ncaReadAesCtrExStorage: every range has its own generation. The counter keeps it afterwards,
    // so a following Read decrypts with this generation as well.
    method ReadAesCtrEx(out: array<byte>, at: nat, size: nat, offset: nat, ctrVal: nat, decrypt: bool,
                        ghost clear: nat -> byte) returns (ok: bool)
      requires Valid() && out != ctr && out != buffer && at + size <= out.Length && ctrVal < 0x1_0000_0000
      requires decrypt ==> IsClear(WithGeneration(Iv(), ctrVal), clear)
      modifies out, ctr, buffer
      ensures ok ==> Iv() == if decrypt then WithGeneration(old(Iv()), ctrVal) else old(Iv())
      ensures ok <==> size > 0 && offset + size <= sectionSize && sectionOffset + offset + size <= |content|
                      && (decrypt ==> CipherEnd(sectionOffset + offset + size) <= |content|)
      ensures ok ==> forall j :: at <= j < at + size ==>
                       out[j] == if decrypt then clear(sectionOffset + offset + j - at) else content[sectionOffset + offset + j - at]
      ensures forall i :: 0 <= i < out.Length && !(at <= i < at + size) ==> out[i] == old(out[i])
      decreases size
    {
      if size == 0 || offset + size > sectionSize { return false; }
      var p := sectionOffset + offset;
      if p + size > |content| { return false; }
      if !decrypt {
        ok := ReadContent(out, at, size, p);
        return;
      }
      if p % 16 == 0 && size % 16 == 0 {
        AlignedEnd(p, size);
        ok := ReadAndDecrypt(out, at, size, p, Some(ctrVal), clear);
        return;
      }
      var start, chunk, outChunk, more := UnalignedSizes(p, size);
      UpdatedTwice(Iv(), Some(ctrVal));
      ok := ReadThroughBuffer(out, at, outChunk, chunk, start, p, Some(ctrVal), clear);
      if ok && more {
        ok := ReadAesCtrEx(out, at + outChunk, size - outChunk, offset + outChunk, ctrVal, decrypt, clear);
      }
    }

    // Is a block for this range generated straight from the new data?
    predicate Aligned(offset: nat, size: nat) {
      !encrypted || ((sectionOffset + offset) % 16 == 0 && size % 16 == 0)
    }

    // The plaintext of a generated block: the new data, with what the section means around it.
    ghost function Intended(clear: nat -> byte, data: seq<byte>, offset: nat, p: nat): byte
      requires p < |content|
    {
      if offset <= p - sectionOffset < offset + |data| then data[p - sectionOffset - offset] else Meaning(clear, p)
    }

    // The key stream by another name.
    ghost predicate HasKeys(keys: nat -> byte)
      requires ctr.Length == 16
      reads ctr
    {
      forall p: nat {:trigger KeyAt(cipher, Iv(), p)} :: KeyAt(cipher, Iv(), p) == keys(p)
    }

    // ncaGenerateEncryptedFsSectionBlock: the bytes to put into the content file so that the section
    // holds new data, and where to put them.
    method GenerateBlock(data: seq<byte>, offset: nat, ghost clear: nat -> byte, ghost keys: nat -> byte)
      returns (ok: bool, out: array<byte>, at: nat)
      requires Valid() && IsClear(Iv(), clear) && HasKeys(keys) && sectionOffset % 16 == 0 && (skipHash ==> hashOffset == 0)
      modifies ctr, buffer
      ensures fresh(out) && Iv() == old(Iv())
      ensures ok <==> data != [] && offset + |data| <= sectionSize && sectionOffset + offset + |data| <= |content|
                      && (Aligned(offset, |data|) || Readable(CipherStart(offset), CipherEnd(offset + |data|) - CipherStart(offset)))
      ensures ok ==> at <= sectionOffset + offset && sectionOffset + offset + |data| <= at + out.Length <= |content|
      ensures ok ==> forall j :: 0 <= j < out.Length ==>
                       (if encrypted then XorByte(out[j], keys(at + j)) else out[j]) == Intended(clear, data, offset, at + j)
    {
      if data == [] || offset + |data| > sectionSize || sectionOffset + offset + |data| > |content| {
        out := new byte[0];
        return false, out, 0;
      }
      if !encrypted || ((sectionOffset + offset) % 16 == 0 && |data| % 16 == 0) {
        out, at := GenerateAligned(data, offset, clear, keys);
        ok := true;
        return;
      }
      ok, out, at := GenerateUnaligned(data, offset, clear, keys);
    }

    method GenerateAligned(data: seq<byte>, offset: nat, ghost clear: nat -> byte, ghost keys: nat -> byte)
      returns (out: array<byte>, at: nat)
      requires Valid() && HasKeys(keys)
      requires data != [] && offset + |data| <= sectionSize && sectionOffset + offset + |data| <= |content|
      requires Aligned(offset, |data|)
      modifies ctr
      ensures fresh(out) && Iv() == old(Iv()) && at == sectionOffset + offset && out.Length == |data|
      ensures forall j :: 0 <= j < out.Length ==>
                (if encrypted then XorByte(out[j], keys(at + j)) else out[j]) == Intended(clear, data, offset, at + j)
    {
      at := sectionOffset + offset;
      out := new byte[|data|](i requires 0 <= i < |data| => data[i]);
      if encrypted { EncryptInPlace(out, at, keys); }
    }

    method GenerateUnaligned(data: seq<byte>, offset: nat, ghost clear: nat -> byte, ghost keys: nat -> byte)
      returns (ok: bool, out: array<byte>, at: nat)
      requires Valid() && IsClear(Iv(), clear) && HasKeys(keys) && sectionOffset % 16 == 0 && (skipHash ==> hashOffset == 0)
      requires encrypted && data != [] && offset + |data| <= sectionSize && sectionOffset + offset + |data| <= |content|
      modifies ctr, buffer
      ensures fresh(out) && Iv() == old(Iv())
      ensures ok <==> Readable(CipherStart(offset), CipherEnd(offset + |data|) - CipherStart(offset))
      ensures at == sectionOffset + CipherStart(offset) && out.Length == CipherEnd(offset + |data|) - CipherStart(offset)
      ensures at <= sectionOffset + offset && sectionOffset + offset + |data| <= at + out.Length
      ensures ok ==> at + out.Length <= |content|
      ensures ok ==> forall j :: 0 <= j < out.Length ==>
                       XorByte(out[j], keys(at + j)) == Intended(clear, data, offset, at + j)
    {
      var start, end := BlockBounds(offset, |data|);
      at := sectionOffset + start;
      out := new byte[end - start](_ => 0);
      ok := ReadAndReplace(out, start, data, offset, clear);
      if !ok { return; }
      EncryptInPlace(out, at, keys);
    }

    // The bounds of the cipher blocks around a range of an aligned section.
    method BlockBounds(offset: nat, size: nat) returns (start: nat, end: nat)
      requires sectionOffset % 16 == 0 && size > 0
      ensures start == CipherStart(offset) <= offset && offset + size <= CipherEnd(offset + size) == end < offset + size + 16
      ensures (sectionOffset + start) % 16 == 0
    {
      Align16(offset);
      Align16(offset + size);
      BlockSizes(offset, size);
      SumOfMultiples(sectionOffset, CipherStart(offset));
      start, end := AlignDown(offset, AES_BLOCK_SIZE), AlignUp(offset + size, AES_BLOCK_SIZE);
    }

    // The aligned plaintext around the new data, with the new data in it.
    method ReadAndReplace(out: array<byte>, start: nat, data: seq<byte>, offset: nat, ghost clear: nat -> byte)
      returns (ok: bool)
      requires Valid() && IsClear(Iv(), clear) && out != ctr && out != buffer && OneSided(start, out.Length)
      requires start <= offset && offset + |data| <= start + out.Length
      modifies out, ctr, buffer
      ensures Iv() == old(Iv())
      ensures ok <==> Readable(start, out.Length)
      ensures ok ==> forall j :: 0 <= j < out.Length ==> out[j] == Intended(clear, data, offset, sectionOffset + start + j)
    {
      ok := Read(out, 0, out.Length, start, clear);
      if !ok { return; }
      forall i | 0 <= i < |data| { out[offset - start + i] := data[i]; }
    }

    // The counter for a content offset, and aes128CtrCrypt over a whole buffer.
    method EncryptInPlace(out: array<byte>, at: nat, ghost keys: nat -> byte)
      requires Valid() && HasKeys(keys) && out != ctr && at + out.Length < WORD_64 && at % 16 == 0
      modifies out, ctr
      ensures Iv() == old(Iv())
      ensures forall j :: 0 <= j < out.Length ==> XorByte(out[j], keys(at + j)) == old(out[j])
    {
      SetCounter(at, None);
      var counter := FromBe(ctr[..]);
      ghost var iv := Iv();
      forall k: nat | k < out.Length
        ensures KeyByte(cipher, counter, k) == keys(at + k)
      {
        KeyFromCounter(cipher, iv, at, k);
      }
      CryptInPlace(out, counter, at, keys);
    }

    // aes128CtrCrypt, undone by the same keys
    method CryptInPlace(out: array<byte>, counter: nat, ghost at: nat, ghost keys: nat -> byte)
      requires forall k: nat {:trigger KeyByte(cipher, counter, k)} :: k < out.Length ==>
                 KeyByte(cipher, counter, k) == keys(at + k)
      modifies out
      ensures forall j :: 0 <= j < out.Length ==> XorByte(out[j], keys(at + j)) == old(out[j])
    {
      for k := 0 to out.Length
        invariant forall j :: 0 <= j < k ==> XorByte(out[j], keys(at + j)) == old(out[j])
        invariant forall j :: k <= j < out.Length ==> out[j] == old(out[j])
      {
        XorUndoes(out[k], keys(at + k));
        out[k] := XorByte(out[k], KeyByte(cipher, counter, k));
      }
    }
  }
}
