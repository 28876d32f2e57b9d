// Counter blocks for AES-128-CTR (aes.h) and counter mode itself (section 6.5 and appendix B.1 of
// NIST SP 800-38A) over an arbitrary block cipher.

module Ctr {
  import opened Bytes
  import opened Bits

  type Block = s: seq<byte> | |s| == 16 witness seq(16, _ => 0)
  type Cipher = Block -> Block

  const WORD_64: nat := 0x1_0000_0000_0000_0000

  function Reverse(s: seq<byte>): (r: seq<byte>)
    ensures |r| == |s| && forall i :: 0 <= i < |s| ==> r[i] == s[|s| - 1 - i]
  {
    seq(|s|, i requires 0 <= i < |s| => s[|s| - 1 - i])
  }

  // Big-endian integers.
  function ToBe(v: nat, n: nat): (s: seq<byte>)
    ensures |s| == n
  {
    Reverse(ToLe(v, n))
  }

  function FromBe(s: seq<byte>): nat { FromLe(Reverse(s)) }

  lemma ReverseTwice(s: seq<byte>)
    ensures Reverse(Reverse(s)) == s
  {
  }

  lemma {:induction false} FromLeAppend(a: seq<byte>, b: seq<byte>)
    ensures FromLe(a + b) == FromLe(a) + Pow256(|a|) * FromLe(b)
  {
    if a == [] {
      assert a + b == b;
    } else {
      FromLeAppend(a[1..], b);
      assert (a + b)[1..] == a[1..] + b;
      assert 256 * (Pow256(|a| - 1) * FromLe(b)) == Pow256(|a|) * FromLe(b);
    }
  }

  lemma {:induction false} FromLeBound(s: seq<byte>)
    ensures FromLe(s) < Pow256(|s|)
  {
    if s != [] { FromLeBound(s[1..]); }
  }

  // The counter block of a content offset: the upper half comes from the section's IV, which is
  // stored little-endian, and the lower half counts 16-byte blocks.
  function CounterBlock(iv: seq<byte>, offset: nat): (b: seq<byte>)
    requires |iv| == 8
    ensures |b| == 16
  {
    Reverse(iv) + ToBe(offset / 16, 8)
  }

  lemma Pow256At4And8()
    ensures Pow256(4) == 0x1_0000_0000 && Pow256(8) == WORD_64
  {
  }

  // Read as a 128-bit number, it is the counter of offset 0 plus the block number, without any
  // carry into the upper half.
  lemma CounterValue(iv: seq<byte>, offset: nat)
    requires |iv| == 8 && offset < WORD_64
    ensures FromBe(CounterBlock(iv, offset)) == FromBe(CounterBlock(iv, 0)) + offset / 16
    ensures FromBe(CounterBlock(iv, 0)) == FromLe(iv) * WORD_64
  {
    CounterIs(iv, offset);
    CounterIs(iv, 0);
  }

  lemma CounterIs(iv: seq<byte>, offset: nat)
    requires |iv| == 8 && offset < WORD_64
    ensures FromBe(CounterBlock(iv, offset)) == FromLe(iv) * WORD_64 + offset / 16
  {
    HalvesValue(iv, offset / 16);
  }

  lemma HalvesValue(iv: seq<byte>, low: nat)
    requires |iv| == 8 && low < WORD_64
    ensures FromBe(Reverse(iv) + ToBe(low, 8)) == FromLe(iv) * WORD_64 + low
  {
    var bytes := ToLe(low, 8);
    ReversedHalves(iv, bytes);
    LowThenHigh(bytes, iv);
    Pow256At4And8();
    LeRoundTrip(low, 8);
  }

  lemma LowThenHigh(low: seq<byte>, high: seq<byte>)
    requires |low| == 8
    ensures FromLe(low + high) == FromLe(low) + FromLe(high) * WORD_64
  {
    Pow256At4And8();
    FromLeAppend(low, high);
    var p := Pow256(|low|);
    assert p == WORD_64;
  }

  lemma ReversedHalves(a: seq<byte>, b: seq<byte>)
    ensures Reverse(Reverse(a) + Reverse(b)) == b + a
  {
  }

  // Big-endian bytes are determined by their value: the counter block is the 128-bit number that
  // counter mode asks for.
  lemma CounterBytes(iv: seq<byte>, offset: nat)
    requires |iv| == 8 && offset < WORD_64
    ensures CounterBlock(iv, offset) == ToBe(FromLe(iv) * WORD_64 + offset / 16, 16)
  {
    CounterIs(iv, offset);
    ToBeFromBe(CounterBlock(iv, offset));
  }

  lemma ToBeFromBe(s: seq<byte>)
    ensures ToBe(FromBe(s), |s|) == s
  {
    ToLeFromLe(Reverse(s));
    ReverseTwice(s);
  }

  // NcaAesCtrUpperIv: the generation, then the secure value.
  function WithGeneration(iv: seq<byte>, generation: nat): (r: seq<byte>)
    requires |iv| == 8
    ensures |r| == 8
  {
    ToLe(generation, 4) + iv[4..]
  }

  // One more little-endian byte has been taken off.
  lemma {:induction false} TakeByte(v: nat, n: nat, i: nat)
    requires i < n
    ensures ToLe(v, n)[i] == Shifted(v, i) % 256 && Shifted(v, i + 1) == Shifted(v, i) / 256
    decreases n
  {
    if i > 0 { TakeByte(v / 256, n - 1, i - 1); }
  }

  function Shifted(v: nat, i: nat): nat {
    if i == 0 then v else Shifted(v / 256, i - 1)
  }

  method InitializePartialCtr(out: array?<byte>, ctr: array?<byte>, offset: nat)
    requires offset < WORD_64
    requires out != null && ctr != null ==> out != ctr && out.Length >= 16 && ctr.Length >= 8
    modifies if out != null && ctr != null then {out} else {}
    ensures out != null && ctr != null ==>
              out[..] == CounterBlock(ctr[..8], offset) + old(out[16..])
  {
    if out == null || ctr == null { return; }
    var rest := offset / 16;
    for i := 0 to 8
      invariant rest == Shifted(offset / 16, i)
      invariant forall k :: 0 <= k < i ==> out[k] == ctr[7 - k] && out[15 - k] == ToLe(offset / 16, 8)[k]
      invariant out[16..] == old(out[16..])
    {
      TakeByte(offset / 16, 8, i);
      out[i] := ctr[8 - i - 1];
      out[16 - i - 1] := rest % 256;
      rest := rest / 256;
    }
    assert out[..16] == CounterBlock(ctr[..8], offset);
    assert out[..] == out[..16] + out[16..];
  }

  // The new counter keeps the upper half.
  method UpdatePartialCtr(ctr: array?<byte>, offset: nat)
    requires offset < WORD_64 && (ctr != null ==> ctr.Length >= 16)
    modifies if ctr != null then {ctr} else {}
    ensures ctr != null ==> ctr[..] == old(ctr[..8]) + ToBe(offset / 16, 8) + old(ctr[16..])
  {
    if ctr == null { return; }
    var rest := offset / 16;
    for i := 0 to 8
      invariant rest == Shifted(offset / 16, i)
      invariant forall k :: 0 <= k < i ==> ctr[15 - k] == ToLe(offset / 16, 8)[k]
      invariant ctr[..8] == old(ctr[..8]) && ctr[16..] == old(ctr[16..])
    {
      TakeByte(offset / 16, 8, i);
      ctr[16 - i - 1] := rest % 256;
      rest := rest / 256;
    }
    assert ctr[8..16] == ToBe(offset / 16, 8);
    assert ctr[..] == ctr[..8] + ctr[8..16] + ctr[16..];
  }

  // The new counter keeps the secure value and replaces the generation.
  method UpdatePartialCtrEx(ctr: array?<byte>, ctrVal: nat, offset: nat)
    requires offset < WORD_64 && ctrVal < 0x1_0000_0000 && (ctr != null ==> ctr.Length >= 16)
    modifies if ctr != null then {ctr} else {}
    ensures ctr != null ==>
              ctr[..] == old(ctr[..4]) + ToBe(ctrVal, 4) + ToBe(offset / 16, 8) + old(ctr[16..])
  {
    if ctr == null { return; }
    UpdatePartialCtr(ctr, offset);
    var val := ctrVal;
    for i := 0 to 4
      invariant val == Shifted(ctrVal, i)
      invariant forall k :: 0 <= k < i ==> ctr[7 - k] == ToLe(ctrVal, 4)[k]
      invariant ctr[..4] == old(ctr[..4]) && ctr[8..16] == ToBe(offset / 16, 8) && ctr[16..] == old(ctr[16..])
    {
      TakeByte(ctrVal, 4, i);
      ctr[8 - i - 1] := val % 256;
      val := val / 256;
    }
    assert ctr[4..8] == ToBe(ctrVal, 4);
    assert ctr[..] == ctr[..4] + ctr[4..8] + ctr[8..16] + ctr[16..];
  }

  // The plain update continues an initialised counter; the extended update is the initialisation
  // from the IV with its generation replaced.
  lemma UpdatesAgreeWithInitialisation(iv: seq<byte>, first: nat, offset: nat, generation: nat)
    requires |iv| == 8
    ensures CounterBlock(iv, first)[..8] + ToBe(offset / 16, 8) == CounterBlock(iv, offset)
    ensures CounterBlock(iv, first)[..4] + ToBe(generation, 4) + ToBe(offset / 16, 8)
         == CounterBlock(WithGeneration(iv, generation), offset)
  {
    assert CounterBlock(iv, first)[..8] == Reverse(iv);
    assert Reverse(WithGeneration(iv, generation)) == Reverse(iv)[..4] + ToBe(generation, 4);
  }

  // -------------------------------------------------------------------------------------------
  // Counter mode

  function XorByte(a: byte, b: byte): byte {
    assert Pow2(8) == 256;
    XorBelow(a, b, 8);
    Xor(a, b)
  }

  // Sequential counter mode from an initial counter: byte i meets byte i % 16 of block i / 16.
  function Crypt(cipher: Cipher, counter: nat, data: seq<byte>): (r: seq<byte>)
    ensures |r| == |data|
  {
    seq(|data|, i requires 0 <= i < |data| => XorByte(data[i], KeyByte(cipher, counter, i)))
  }

  function KeyByte(cipher: Cipher, counter: nat, i: nat): byte {
    cipher(ToBe(counter + i / 16, 16))[i % 16]
  }

  // From an aligned offset on, every byte meets the cipher's output for the counter block of its own
  // offset.
  lemma CryptByCounterBlocks(cipher: Cipher, iv: seq<byte>, offset: nat, data: seq<byte>, i: nat)
    requires |iv| == 8 && offset % 16 == 0 && i < |data| && offset + |data| <= WORD_64
    ensures Crypt(cipher, FromBe(CounterBlock(iv, offset)), data)[i]
         == XorByte(data[i], cipher(CounterBlock(iv, offset + i))[i % 16])
  {
    KeyByCounterBlock(cipher, iv, offset, i);
  }

  lemma KeyByCounterBlock(cipher: Cipher, iv: seq<byte>, offset: nat, i: nat)
    requires |iv| == 8 && offset % 16 == 0 && offset + i < WORD_64
    ensures KeyByte(cipher, FromBe(CounterBlock(iv, offset)), i) == cipher(CounterBlock(iv, offset + i))[i % 16]
  {
    CounterIs(iv, offset);
    CounterBytes(iv, offset + i);
    SplitBlocks(offset, i);
  }

  // Decryption undoes encryption.
  lemma CryptTwice(cipher: Cipher, counter: nat, data: seq<byte>)
    ensures Crypt(cipher, counter, Crypt(cipher, counter, data)) == data
  {
    forall i | 0 <= i < |data|
      ensures XorByte(XorByte(data[i], KeyByte(cipher, counter, i)), KeyByte(cipher, counter, i)) == data[i]
    {
      XorUndoes(data[i], KeyByte(cipher, counter, i));
    }
  }

  lemma SplitBlocks(a: nat, i: nat)
    requires a % 16 == 0
    ensures (a + i) / 16 == a / 16 + i / 16 && (a + i) % 16 == i % 16
  {
  }

  // Random access: decrypting an aligned sub-range from its own counter is the same as decrypting
  // everything in sequence and taking the sub-range.
  lemma RandomAccess(cipher: Cipher, iv: seq<byte>, data: seq<byte>, from: nat, to: nat)
    requires |iv| == 8 && |data| < WORD_64 && from <= to <= |data| && from % 16 == 0
    ensures Crypt(cipher, FromBe(CounterBlock(iv, from)), data[from..to])
         == Crypt(cipher, FromBe(CounterBlock(iv, 0)), data)[from..to]
  {
    CounterValue(iv, from);
    forall i | 0 <= i < to - from
      ensures KeyByte(cipher, FromBe(CounterBlock(iv, from)), i) == KeyByte(cipher, FromBe(CounterBlock(iv, 0)), from + i)
    {
      SplitBlocks(from, i);
    }
  }
}
