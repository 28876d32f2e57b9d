// Bytes, option values and the sequence facts shared by every module of the project.

module Bytes {
  type byte = x: int | 0 <= x < 256 witness 0

  datatype Option<+T> = None | Some(value: T)

  function Zeros(n: nat): (s: seq<byte>)
    ensures |s| == n && forall i :: 0 <= i < n ==> s[i] == 0
  {
    seq(n, _ => 0)
  }

  // Concatenation of a sequence of blocks, in order.
  function Concat<T>(blocks: seq<seq<T>>): seq<T> {
    if blocks == [] then [] else blocks[0] + Concat(blocks[1..])
  }

  ghost predicate NonEmptyBlocks<T>(blocks: seq<seq<T>>) {
    forall i :: 0 <= i < |blocks| ==> blocks[i] != []
  }

  lemma {:induction false} ConcatAppend<T>(a: seq<seq<T>>, b: seq<seq<T>>)
    ensures Concat(a + b) == Concat(a) + Concat(b)
  {
    if a == [] {
      assert a + b == b;
    } else {
      ConcatAppend(a[1..], b);
      assert (a + b)[1..] == a[1..] + b;
    }
  }

  lemma ConcatOne<T>(block: seq<T>)
    ensures Concat([block]) == block
  {
    assert [block][1..] == [];
    assert block + [] == block;
  }

  lemma Associative<T>(a: seq<T>, b: seq<T>, c: seq<T>)
    ensures (a + b) + c == a + (b + c)
  {
  }

  lemma SplitAt<T>(s: seq<T>, k: nat)
    requires k < |s|
    ensures s == s[..k] + ([s[k]] + s[k + 1..])
  {
  }

  lemma MiddleAt<T>(a: seq<T>, b: seq<T>, c: seq<T>, k: nat)
    requires k < |b|
    ensures |a| + k < |a + b + c| && (a + b + c)[|a| + k] == b[k]
  {
  }

  lemma ModMinus(n: nat, p: nat)
    requires 0 < p <= n
    ensures (n - p) % p == n % p
  {
    var q, r := n / p, n % p;
    assert n - p == (q - 1) * p + r;
    ModUnique(n - p, p, q - 1, r);
  }

  lemma ModUnique(n: int, p: nat, q: int, r: nat)
    requires 0 <= r < p && n == q * p + r
    ensures n % p == r && n / p == q
  {
    var d := n / p - q;
    assert n == (n / p) * p + n % p;
    assert d * p == r - n % p;
  }

  lemma ModSmall(n: nat, p: nat)
    requires 0 < p && n <= p
    ensures n % p == if n == p then 0 else n
  {
    ModUnique(n, p, if n == p then 1 else 0, if n == p then 0 else n);
  }

  // Little-endian integers.
  function FromLe(s: seq<byte>): nat {
    if s == [] then 0 else s[0] + 256 * FromLe(s[1..])
  }

  function ToLe(v: nat, n: nat): (s: seq<byte>)
    ensures |s| == n
  {
    if n == 0 then [] else [v % 256] + ToLe(v / 256, n - 1)
  }

  function Pow256(n: nat): nat { if n == 0 then 1 else 256 * Pow256(n - 1) }

  lemma {:induction false} LeRoundTrip(v: nat, n: nat)
    requires v < Pow256(n)
    ensures FromLe(ToLe(v, n)) == v
  {
    if n > 0 {
      LeRoundTrip(v / 256, n - 1);
      assert ToLe(v, n)[1..] == ToLe(v / 256, n - 1);
    }
  }

  lemma {:induction false} ToLeFromLe(s: seq<byte>)
    ensures ToLe(FromLe(s), |s|) == s
  {
    if s != [] {
      ToLeFromLe(s[1..]);
      assert FromLe(s) % 256 == s[0] && FromLe(s) / 256 == FromLe(s[1..]);
    }
  }

  // The blocks one `offset`/`blksize` loop reads: full blocks, and a shorter one at the end.
  function Blocks(data: seq<byte>, blockSize: nat): (b: seq<seq<byte>>)
    requires blockSize > 0
  {
    if data == [] then []
    else if |data| <= blockSize then [data]
    else [data[..blockSize]] + Blocks(data[blockSize..], blockSize)
  }

  lemma {:induction false} BlocksCover(data: seq<byte>, blockSize: nat)
    requires blockSize > 0
    ensures Concat(Blocks(data, blockSize)) == data
    ensures forall i :: 0 <= i < |Blocks(data, blockSize)| ==>
              0 < |Blocks(data, blockSize)[i]| <= blockSize
              && (i < |Blocks(data, blockSize)| - 1 ==> |Blocks(data, blockSize)[i]| == blockSize)
  {
    if |data| > blockSize {
      BlocksCover(data[blockSize..], blockSize);
      assert data[..blockSize] + data[blockSize..] == data;
    } else if data != [] {
      assert Blocks(data, blockSize)[1..] == [];
    }
  }

  lemma BlocksAreWhole(data: seq<byte>, blockSize: nat)
    requires blockSize > 0
    ensures Concat(Blocks(data, blockSize)) == data && NonEmptyBlocks(Blocks(data, blockSize))
  {
    BlocksCover(data, blockSize);
  }
}
