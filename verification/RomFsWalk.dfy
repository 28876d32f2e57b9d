// The walk over a RomFS file table (extractedRomFsReadThreadFunc, romfs.h): entries one after the
// other, until the table or the data to be written ends.

module RomFsWalk {
  import opened Bytes
  import opened Bits

  const ENTRY_LENGTH: nat := 0x20
  const TABLE_ALIGNMENT: nat := 4

  datatype FileEntry = FileEntry(parent: nat, next: nat, offset: nat, size: nat, bucket: nat, name: seq<byte>)

  // romfsGetFileEntryByOffset and the fields of the entry it leads to
  function SizeAt(table: seq<byte>, cur: nat): nat
    requires cur + ENTRY_LENGTH <= |table|
  {
    FromLe(table[cur + 0x10..cur + 0x18])
  }

  function NameLengthAt(table: seq<byte>, cur: nat): nat
    requires cur + ENTRY_LENGTH <= |table|
  {
    FromLe(table[cur + 0x1C..cur + 0x20])
  }

  // ALIGN_UP to the table alignment
  function EntrySpan(nameLength: nat): nat { (ENTRY_LENGTH + nameLength + 3) / 4 * 4 }

  lemma SpanIsAlignUp(nameLength: nat)
    ensures AlignUp(ENTRY_LENGTH + nameLength, TABLE_ALIGNMENT) == EntrySpan(nameLength)
  {
    assert PowerOfTwo(TABLE_ALIGNMENT) by { assert Pow2(2) == TABLE_ALIGNMENT; }
    AlignUpIsLeast(ENTRY_LENGTH + nameLength, TABLE_ALIGNMENT);
    LeastMultiple(ENTRY_LENGTH + nameLength, AlignUp(ENTRY_LENGTH + nameLength, TABLE_ALIGNMENT));
  }

  lemma LeastMultiple(n: nat, m: int)
    requires n <= m < n + 4 && m % 4 == 0
    ensures m == (n + 3) / 4 * 4
  {
  }

  // Where the walk goes from an offset.
  function NextOffset(table: seq<byte>, cur: nat): (n: nat)
    requires cur + ENTRY_LENGTH <= |table|
    ensures n >= cur + ENTRY_LENGTH
  {
    cur + EntrySpan(NameLengthAt(table, cur))
  }

  // The offset behind the first k visited entries.
  function Behind(table: seq<byte>, visited: seq<nat>, k: nat): nat
    requires k <= |visited| && (k > 0 ==> visited[k - 1] + ENTRY_LENGTH <= |table|)
  {
    if k == 0 then 0 else NextOffset(table, visited[k - 1])
  }

  // The first k visited offsets form one chain from the start of the table, inside it.
  ghost predicate Chain(table: seq<byte>, visited: seq<nat>, k: nat)
    requires k <= |visited|
  {
    k > 0 ==>
      && visited[k - 1] + ENTRY_LENGTH <= |table| && Chain(table, visited, k - 1)
      && visited[k - 1] == Behind(table, visited, k - 1)
  }

  lemma {:induction false} ChainGrows(table: seq<byte>, visited: seq<nat>, cur: nat, k: nat)
    requires k <= |visited| && Chain(table, visited, k)
    ensures Chain(table, visited + [cur], k)
    ensures Behind(table, visited + [cur], k) == Behind(table, visited, k)
  {
    if k > 0 { ChainGrows(table, visited, cur, k - 1); }
  }

  // The walk ends, stays inside the table, and stops because everything has been written, because
  // the table ends, or, failing, because an entry would reach over its end.
  ghost predicate Walked(table: seq<byte>, total: nat, written: nat -> nat, visited: seq<nat>, ok: bool) {
    && Chain(table, visited, |visited|)
    && (forall i :: 0 <= i < |visited| ==> written(i) < total)
    && (var n := Behind(table, visited, |visited|);
        if ok then written(|visited|) >= total || n >= |table|
        else written(|visited|) < total && n < |table| < n + ENTRY_LENGTH)
  }

  // The loop. `written(i)` is the writer's progress when the loop condition is checked for the
  // (i + 1)-th time; the other thread advances it between checks.
  method Walk(table: seq<byte>, total: nat, written: nat -> nat) returns (visited: seq<nat>, ok: bool)
    ensures Walked(table, total, written, visited, ok)
  {
    visited := [];
    var cur := 0;
    while written(|visited|) < total && cur < |table|
      invariant Chain(table, visited, |visited|) && cur == Behind(table, visited, |visited|)
      invariant forall i :: 0 <= i < |visited| ==> written(i) < total
      decreases if cur <= |table| then |table| - cur else 0
    {
      if cur + ENTRY_LENGTH > |table| { return visited, false; }
      SpanIsAlignUp(NameLengthAt(table, cur));
      ChainGrows(table, visited, cur, |visited|);
      visited := visited + [cur];
      cur := cur + AlignUp(ENTRY_LENGTH + NameLengthAt(table, cur), TABLE_ALIGNMENT);
    }
    ok := true;
  }

  // -------------------------------------------------------------------------------------------
  // Well-formed tables

  function Encode(e: FileEntry): (s: seq<byte>)
    ensures |s| == EntrySpan(|e.name|)
  {
    ToLe(e.parent, 4) + ToLe(e.next, 4) + ToLe(e.offset, 8) + ToLe(e.size, 8) + ToLe(e.bucket, 4) + ToLe(|e.name|, 4)
    + e.name + Zeros(EntrySpan(|e.name|) - ENTRY_LENGTH - |e.name|)
  }

  // The first k entries, and the sum of their sizes.
  function Table(es: seq<FileEntry>, k: nat): seq<byte>
    requires k <= |es|
  {
    if k == 0 then [] else Table(es, k - 1) + Encode(es[k - 1])
  }

  function SumSizes(es: seq<FileEntry>, k: nat): nat
    requires k <= |es|
  {
    if k == 0 then 0 else SumSizes(es, k - 1) + es[k - 1].size
  }

  ghost predicate Fits(es: seq<FileEntry>) {
    forall i :: 0 <= i < |es| ==> es[i].size < Pow256(8) && |es[i].name| < Pow256(4)
  }

  lemma EncodedFields(e: FileEntry)
    requires e.size < Pow256(8) && |e.name| < Pow256(4)
    ensures SizeAt(Encode(e), 0) == e.size && NameLengthAt(Encode(e), 0) == |e.name|
  {
    LeRoundTrip(e.size, 8);
    LeRoundTrip(|e.name|, 4);
    var s := Encode(e);
    assert s[0x10..0x18] == ToLe(e.size, 8) && s[0x1C..0x20] == ToLe(|e.name|, 4);
  }

  lemma FieldsInside(front: seq<byte>, s: seq<byte>, back: seq<byte>)
    requires |s| >= ENTRY_LENGTH
    ensures SizeAt(front + s + back, |front|) == SizeAt(s, 0) && NameLengthAt(front + s + back, |front|) == NameLengthAt(s, 0)
  {
    var t := front + s + back;
    assert t[|front| + 0x10..|front| + 0x18] == s[0x10..0x18];
    assert t[|front| + 0x1C..|front| + 0x20] == s[0x1C..0x20];
  }

  // At `cur` a table has this entry, which ends at `next`.
  ghost predicate HasEntry(table: seq<byte>, cur: nat, e: FileEntry, next: nat) {
    cur + ENTRY_LENGTH <= next <= |table| && SizeAt(table, cur) == e.size && NextOffset(table, cur) == next
  }

  // The entry behind the first k of them, in the table of the first n.
  lemma {:induction false} EntryAt(es: seq<FileEntry>, k: nat, n: nat)
    requires k < n <= |es| && Fits(es)
    ensures HasEntry(Table(es, n), |Table(es, k)|, es[k], |Table(es, k + 1)|)
    decreases n
  {
    if k == n - 1 {
      LastEntry(Table(es, k), es[k]);
    } else {
      EntryAt(es, k, n - 1);
      Extend(Table(es, n - 1), Encode(es[n - 1]), |Table(es, k)|, es[k], |Table(es, k + 1)|);
    }
  }

  lemma LastEntry(front: seq<byte>, e: FileEntry)
    requires e.size < Pow256(8) && |e.name| < Pow256(4)
    ensures HasEntry(front + Encode(e), |front|, e, |front + Encode(e)|)
  {
    EncodedFields(e);
    FieldsInside(front, Encode(e), []);
    assert front + Encode(e) + [] == front + Encode(e);
  }

  lemma Extend(t: seq<byte>, more: seq<byte>, cur: nat, e: FileEntry, next: nat)
    requires HasEntry(t, cur, e, next)
    ensures HasEntry(t + more, cur, e, next)
  {
    assert (t + more)[cur + 0x10..cur + 0x18] == t[cur + 0x10..cur + 0x18];
    assert (t + more)[cur + 0x1C..cur + 0x20] == t[cur + 0x1C..cur + 0x20];
  }

  // Where the k-th entry starts.
  function Start(es: seq<FileEntry>, k: nat): nat
    requires k <= |es|
  {
    if k == 0 then 0 else Start(es, k - 1) + EntrySpan(|es[k - 1].name|)
  }

  ghost predicate HoldsEntry(table: seq<byte>, es: seq<FileEntry>, k: nat)
    requires k < |es|
  {
    HasEntry(table, Start(es, k), es[k], Start(es, k + 1))
  }

  // The table holds these entries, and nothing else.
  ghost predicate HoldsEntries(table: seq<byte>, es: seq<FileEntry>) {
    |table| == Start(es, |es|) && forall k: nat :: k < |es| ==> HoldsEntry(table, es, k)
  }

  lemma {:induction false} TableLength(es: seq<FileEntry>, k: nat)
    requires k <= |es|
    ensures |Table(es, k)| == Start(es, k)
  {
    if k > 0 { TableLength(es, k - 1); }
  }

  lemma TableHoldsEntries(es: seq<FileEntry>)
    requires Fits(es)
    ensures HoldsEntries(Table(es, |es|), es)
    ensures forall k: nat :: k < |es| ==> FourAligned(Start(es, k), |es[k].name|, Start(es, k + 1))
  {
    TableLength(es, |es|);
    forall k: nat | k < |es|
      ensures HoldsEntry(Table(es, |es|), es, k) && FourAligned(Start(es, k), |es[k].name|, Start(es, k + 1))
    {
      EntryAt(es, k, |es|);
      TableLength(es, k);
      TableLength(es, k + 1);
      StartIsAligned(es, k);
    }
  }

  // An entry starts at a multiple of four, and the next one at the first multiple behind its name.
  predicate FourAligned(cur: nat, nameLength: nat, next: nat) {
    cur % 4 == 0 && next % 4 == 0 && cur + 0x20 + nameLength <= next < cur + 0x20 + nameLength + 4
  }

  lemma {:induction false} StartIsAligned(es: seq<FileEntry>, k: nat)
    requires k < |es|
    ensures FourAligned(Start(es, k), |es[k].name|, Start(es, k + 1))
  {
    if k > 0 { StartIsAligned(es, k - 1); }
    SpanIsMultiple(|es[k].name|);
    SumOfFours(Start(es, k), EntrySpan(|es[k].name|));
  }

  lemma SpanIsMultiple(nameLength: nat)
    ensures EntrySpan(nameLength) % 4 == 0 && 0x20 + nameLength <= EntrySpan(nameLength) < 0x20 + nameLength + 4
  {
  }

  lemma SumOfFours(a: nat, b: nat)
    requires a % 4 == 0 && b % 4 == 0
    ensures (a + b) % 4 == 0
  {
  }

  // On a table of entries, the walk visits a prefix of them, in order.
  lemma {:induction false} VisitsEntries(es: seq<FileEntry>, table: seq<byte>, visited: seq<nat>, k: nat)
    requires HoldsEntries(table, es) && k <= |visited| && Chain(table, visited, k)
    ensures k <= |es| && Behind(table, visited, k) == Start(es, k)
    ensures forall i :: 0 <= i < k ==> visited[i] == Start(es, i)
  {
    if k > 0 {
      VisitsEntries(es, table, visited, k - 1);
      assert k - 1 < |es|;
      assert HoldsEntry(table, es, k - 1);
    }
  }

  lemma {:induction false} SumGrows(es: seq<FileEntry>, k: nat, n: nat)
    requires k <= n <= |es|
    ensures SumSizes(es, k) <= SumSizes(es, n)
    ensures SumSizes(es, k) == SumSizes(es, n) ==> forall i :: k <= i < n ==> es[i].size == 0
    decreases n
  {
    if k < n { SumGrows(es, k, n - 1); }
  }

  // The walk never fails on a table of entries. When it stops, it has visited a prefix of them, and
  // every entry it has not visited is empty, given that the total is the sum of all sizes and that
  // the writer cannot be ahead of what has been read.
  lemma WalkSkipsEmptyFilesOnly(es: seq<FileEntry>, table: seq<byte>, total: nat, written: nat -> nat, visited: seq<nat>, ok: bool)
    requires HoldsEntries(table, es) && Walked(table, total, written, visited, ok) && total == SumSizes(es, |es|)
    requires |visited| <= |es| ==> written(|visited|) <= SumSizes(es, |visited|)
    ensures ok && |visited| <= |es|
    ensures forall i :: 0 <= i < |visited| ==> visited[i] == Start(es, i)
    ensures forall i :: |visited| <= i < |es| ==> es[i].size == 0
  {
    var k := |visited|;
    VisitsEntries(es, table, visited, k);
    if k < |es| { NotAtEnd(es, table, k); }
    StopsBeforeEmpty(es, table, written, visited, ok);
  }

  // The walk is at the start of entry k, if there is one.
  lemma StopsBeforeEmpty(es: seq<FileEntry>, table: seq<byte>, written: nat -> nat, visited: seq<nat>, ok: bool)
    requires Walked(table, SumSizes(es, |es|), written, visited, ok) && |visited| <= |es|
    requires Behind(table, visited, |visited|) == Start(es, |visited|) && |table| == Start(es, |es|)
    requires |visited| < |es| ==> Start(es, |visited|) + ENTRY_LENGTH <= |table|
    requires written(|visited|) <= SumSizes(es, |visited|)
    ensures ok && forall i :: |visited| <= i < |es| ==> es[i].size == 0
  {
    if |visited| < |es| { RestEmpty(es, |visited|, written(|visited|)); }
  }

  lemma NotAtEnd(es: seq<FileEntry>, table: seq<byte>, k: nat)
    requires HoldsEntries(table, es) && k < |es|
    ensures Start(es, k) + ENTRY_LENGTH <= |table|
  {
    assert HoldsEntry(table, es, k);
  }

  lemma RestEmpty(es: seq<FileEntry>, k: nat, written: nat)
    requires k < |es| && written <= SumSizes(es, k)
    ensures written >= SumSizes(es, |es|) ==> forall i :: k <= i < |es| ==> es[i].size == 0
  {
    SumGrows(es, k, |es|);
  }
}
