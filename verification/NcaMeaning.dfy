// What reading and patching an encrypted section amount to: a slice of the section decrypted in
// sequence, and a content file in which exactly the new data has changed.

module NcaMeaning {
  import opened Bytes
  import opened Bits
  import opened Ctr
  import opened NcaSection

  // An encrypted section means what sequential decryption from its own first counter gives.
  lemma MeaningIsSequential(s: FsSection, iv: seq<byte>, i: nat)
    requires |iv| == 8 && s.encrypted && !s.skipHash && s.sectionOffset % 16 == 0
    requires i < s.sectionSize && s.sectionOffset + s.sectionSize <= |s.content| && s.sectionOffset + s.sectionSize <= WORD_64
    ensures var section := s.content[s.sectionOffset..s.sectionOffset + s.sectionSize];
            (s.Meaning(Decrypted(s.cipher, iv, s.content), s.sectionOffset + i)
             == Crypt(s.cipher, FromBe(CounterBlock(iv, s.sectionOffset)), section)[i])
  {
    CryptOfSlice(s.cipher, iv, s.content, s.sectionOffset, s.sectionSize, i);
    DecryptedIs(s.cipher, iv, s.content, s.sectionOffset + i);
  }

  lemma DecryptedIs(cipher: Cipher, iv: seq<byte>, content: seq<byte>, p: nat)
    requires |iv| == 8 && p < |content|
    ensures Decrypted(cipher, iv, content)(p) == XorByte(content[p], KeyAt(cipher, iv, p))
  {
  }

  lemma CryptOfSlice(cipher: Cipher, iv: seq<byte>, content: seq<byte>, from: nat, size: nat, i: nat)
    requires |iv| == 8 && from % 16 == 0 && i < size && from + size <= |content| && from + size <= WORD_64
    ensures Crypt(cipher, FromBe(CounterBlock(iv, from)), content[from..from + size])[i]
         == XorByte(content[from + i], KeyAt(cipher, iv, from + i))
  {
    assert content[from..from + size][i] == content[from + i];
    KeyFromCounter(cipher, iv, from, i);
  }

  // In a content file of whole cipher blocks, every range of the section can be read.
  lemma WholeBlocksAreReadable(s: FsSection, offset: nat, size: nat)
    requires |s.content| % 16 == 0
    ensures s.Readable(offset, size)
       <==> size > 0 && offset + size <= s.sectionSize && s.sectionOffset + offset + size <= |s.content|
  {
  }

  // -------------------------------------------------------------------------------------------
  // Patched content files

  // The content file with a block put over it.
  function PutBlock(file: seq<byte>, at: nat, block: seq<byte>): (r: seq<byte>)
    requires at + |block| <= |file|
    ensures |r| == |file|
  {
    file[..at] + block + file[at + |block|..]
  }

  // What GenerateBlock ensures about a block.
  ghost predicate Generated(s: FsSection, iv: seq<byte>, data: seq<byte>, offset: nat, at: nat, block: seq<byte>)
    requires |iv| == 8
  {
    && at <= s.sectionOffset + offset && s.sectionOffset + offset + |data| <= at + |block| <= |s.content|
    && forall j :: 0 <= j < |block| ==>
         (if s.encrypted then XorByte(block[j], KeyAt(s.cipher, iv, at + j)) else block[j])
         == s.Intended(Decrypted(s.cipher, iv, s.content), data, offset, at + j)
  }

  lemma BlockByte(s: FsSection, file: seq<byte>, at: nat, block: seq<byte>, p: nat)
    requires at + |block| <= |file| && p < |file|
    ensures PutBlock(file, at, block)[p] == if at <= p < at + |block| then block[p - at] else file[p]
  {
  }

  lemma {:induction false} XorIsNeutralOnlyForZero(a: nat, k: nat)
    ensures Xor(a, k) == a <==> k == 0
    decreases a + k
  {
    if k == 0 {
      NoBits(a);
    } else {
      XorIsNeutralOnlyForZero(a / 2, k / 2);
    }
  }

  lemma {:induction false} NoBits(a: nat)
    ensures Xor(a, 0) == a
  {
    if a > 0 { NoBits(a / 2); }
  }

  // Does byte p of the patched file mean what was intended?
  ghost predicate Seamless(s: FsSection, iv: seq<byte>, data: seq<byte>, offset: nat, at: nat, block: seq<byte>, p: nat)
    requires at + |block| <= |s.content| && p < |s.content| && |iv| == 8
  {
    s.MeaningOf(PutBlock(s.content, at, block), iv, p)
    == s.Intended(Decrypted(s.cipher, iv, s.content), data, offset, p)
  }

  lemma OutsideBlock(s: FsSection, iv: seq<byte>, data: seq<byte>, offset: nat, at: nat, block: seq<byte>, p: nat)
    requires |iv| == 8 && at <= s.sectionOffset + offset && s.sectionOffset + offset + |data| <= at + |block| <= |s.content|
    requires p < |s.content| && !(at <= p < at + |block|)
    ensures Seamless(s, iv, data, offset, at, block, p)
  {
    BlockByte(s, s.content, at, block, p);
  }

  lemma InsideBlock(s: FsSection, iv: seq<byte>, data: seq<byte>, offset: nat, at: nat, block: seq<byte>, p: nat)
    requires |iv| == 8 && Generated(s, iv, data, offset, at, block) && at <= p < at + |block|
    ensures Seamless(s, iv, data, offset, at, block, p)
       <==> (s.encrypted && s.StoredInPlaintext(p - s.sectionOffset) ==> KeyAt(s.cipher, iv, p) == 0)
  {
    BlockByte(s, s.content, at, block, p);
    var j := p - at;
    assert at + j == p;
    if s.encrypted && s.StoredInPlaintext(p - s.sectionOffset) {
      XorIsNeutralOnlyForZero(block[j], KeyAt(s.cipher, iv, p));
    }
  }

  // Putting a generated block into the content file changes the meaning of the section in exactly
  // the new data, if and only if no encrypted byte of the block falls into the plaintext hash
  // region, other than one the key stream leaves alone.
  lemma PatchIsSeamlessIff(s: FsSection, iv: seq<byte>, data: seq<byte>, offset: nat, at: nat, block: seq<byte>)
    requires |iv| == 8 && Generated(s, iv, data, offset, at, block)
    ensures (forall p: nat :: p < |s.content| ==> Seamless(s, iv, data, offset, at, block, p))
       <==> (forall p: nat :: at <= p < at + |block| && s.encrypted && s.StoredInPlaintext(p - s.sectionOffset) ==>
               KeyAt(s.cipher, iv, p) == 0)
  {
    forall p: nat | p < |s.content| && !(at <= p < at + |block|)
      ensures Seamless(s, iv, data, offset, at, block, p)
    {
      OutsideBlock(s, iv, data, offset, at, block, p);
    }
    forall p: nat | at <= p < at + |block|
      ensures Seamless(s, iv, data, offset, at, block, p)
         <==> (s.encrypted && s.StoredInPlaintext(p - s.sectionOffset) ==> KeyAt(s.cipher, iv, p) == 0)
    {
      InsideBlock(s, iv, data, offset, at, block, p);
    }
  }

  // A block that misses the hash region can always be put in.
  lemma PatchBesideHashRegion(s: FsSection, iv: seq<byte>, data: seq<byte>, offset: nat, at: nat, block: seq<byte>)
    requires |iv| == 8 && Generated(s, iv, data, offset, at, block)
    requires !s.encrypted || !s.skipHash
          || at + |block| <= s.sectionOffset + s.hashOffset || s.sectionOffset + s.hashOffset + s.hashSize <= at
    ensures forall p: nat :: p < |s.content| ==> Seamless(s, iv, data, offset, at, block, p)
  {
    PatchIsSeamlessIff(s, iv, data, offset, at, block);
  }
}
