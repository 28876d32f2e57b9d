// Partition FS images under construction (pfs.c): entries, a name table of terminated strings with
// padding, and the header built from them, which reads back as exactly these entries and names.

module PfsImage {
  import opened Bytes
  import opened Bits

  const HEADER_LENGTH: nat := 0x10
  const ENTRY_LENGTH: nat := 0x18
  const PADDING_ALIGNMENT: nat := 0x20
  const PFS_MAGIC: seq<byte> := [0x50, 0x46, 0x53, 0x30] // "PFS0"

  datatype Entry = Entry(offset: nat, size: nat, nameOffset: nat)

  // A name as a C string.
  ghost predicate IsString(s: seq<byte>) { forall i :: 0 <= i < |s| ==> s[i] != 0 }

  // Terminated names, one after the other.
  ghost function Join(names: seq<seq<byte>>): seq<byte> {
    if names == [] then [] else Join(names[..|names| - 1]) + names[|names| - 1] + [0]
  }

  function SumSizes(entries: seq<Entry>): nat {
    if entries == [] then 0 else SumSizes(entries[..|entries| - 1]) + entries[|entries| - 1].size
  }

  // strlen, when the string is terminated
  function StrLen(s: seq<byte>): (n: nat)
    ensures n <= |s| && (forall i :: 0 <= i < n ==> s[i] != 0) && (n < |s| ==> s[n] == 0)
  {
    if s == [] || s[0] == 0 then 0 else 1 + StrLen(s[1..])
  }

  lemma {:induction false} StrLenIs(s: seq<byte>, name: seq<byte>)
    requires |name| < |s| && s[..|name|] == name && IsString(name) && s[|name|] == 0
    ensures StrLen(s) == |name|
  {
    if name != [] {
      assert s[0] == name[0];
      assert s[1..][..|name| - 1] == name[1..];
      StrLenIs(s[1..], name[1..]);
    }
  }

  lemma {:induction false} JoinAppend(a: seq<seq<byte>>, b: seq<seq<byte>>)
    ensures Join(a + b) == Join(a) + Join(b)
    decreases |b|
  {
    if b == [] {
      assert a + b == a;
    } else {
      var n := |b| - 1;
      JoinAppend(a, b[..n]);
      assert (a + b)[..|a + b| - 1] == a + b[..n];
      assert (a + b)[|a + b| - 1] == b[n];
      Associative(Join(a), Join(b[..n]), b[n]);
      Associative(Join(a), Join(b[..n]) + b[n], [0]);
    }
  }

  lemma JoinOne(name: seq<byte>)
    ensures Join([name]) == name + [0]
  {
    assert [name][..0] == [];
  }

  // The k-th name in joined names.
  lemma JoinAt(names: seq<seq<byte>>, k: nat)
    requires k < |names|
    ensures Join(names) == Join(names[..k]) + (names[k] + [0] + Join(names[k + 1..]))
  {
    SplitAt(names, k);
    JoinThree(names, names[..k], names[k], names[k + 1..]);
  }

  lemma JoinThree(names: seq<seq<byte>>, a: seq<seq<byte>>, name: seq<byte>, b: seq<seq<byte>>)
    requires names == a + ([name] + b)
    ensures Join(names) == Join(a) + (name + [0] + Join(b))
  {
    JoinAppend([name], b);
    JoinOne(name);
    JoinAppend(a, [name] + b);
  }

  // Replacing the k-th name by one of the same length overwrites its bytes and nothing else.
  lemma JoinReplace(names: seq<seq<byte>>, k: nat, name: seq<byte>)
    requires k < |names| && |name| == |names[k]|
    ensures Join(names[k := name]) == Join(names[..k]) + (name + [0] + Join(names[k + 1..]))
  {
    var after := names[k := name];
    JoinAt(after, k);
    assert after[..k] == names[..k] && after[k + 1..] == names[k + 1..];
  }

  // Where names start depends on the lengths of the names before them only.
  lemma {:induction false} SameStarts(a: seq<seq<byte>>, b: seq<seq<byte>>)
    requires |a| == |b| && forall i :: 0 <= i < |a| ==> |a[i]| == |b[i]|
    ensures |Join(a)| == |Join(b)|
    decreases |a|
  {
    if a != [] { SameStarts(a[..|a| - 1], b[..|b| - 1]); }
  }

  // Every entry starts where the one before it ends, in the data and in the name table.
  ghost predicate Layout(names: seq<seq<byte>>, entries: seq<Entry>)
    decreases |entries|
  {
    && |names| == |entries|
    && (entries != [] ==>
          var n := |entries| - 1;
          && Layout(names[..n], entries[..n])
          && names[n] != [] && IsString(names[n])
          && entries[n].offset == SumSizes(entries[..n]) && entries[n].nameOffset == |Join(names[..n])|)
  }

  lemma {:induction false} LayoutAt(names: seq<seq<byte>>, entries: seq<Entry>, k: nat)
    requires Layout(names, entries) && k < |entries|
    ensures names[k] != [] && IsString(names[k])
    ensures entries[k].offset == SumSizes(entries[..k]) && entries[k].nameOffset == |Join(names[..k])|
    decreases |entries|
  {
    var n := |entries| - 1;
    if k < n {
      LayoutAt(names[..n], entries[..n], k);
      assert names[..n][..k] == names[..k] && entries[..n][..k] == entries[..k];
    }
  }

  // The names are joined in the table, which is padded with at least one zero.
  ghost predicate Table(names: seq<seq<byte>>, table: seq<byte>) {
    var n := |Join(names)|;
    n <= |table| && table == Join(names) + Zeros(|table| - n) && (names != [] ==> n < |table|)
  }

  class Image {
    var entries: seq<Entry>
    var nameTable: seq<byte>
    var fsSize: nat
    ghost var names: seq<seq<byte>>
    ghost var tight: bool   // every name so far has at least 0x1F bytes

    // pfsInitializeImageContext
    constructor ()
      ensures Valid() && names == [] && entries == [] && tight
    {
      entries, nameTable, fsSize, names, tight := [], [], 0, [], true;
    }

    ghost predicate Valid()
      reads this
    {
      && Layout(names, entries) && Table(names, nameTable) && fsSize == SumSizes(entries)
      && (tight ==> Grown(|entries|, |Join(names)|, |nameTable|))
    }

    function HeaderSize(): nat
      reads this
    {
      HEADER_LENGTH + |entries| * ENTRY_LENGTH + |nameTable|
    }

    // The name an index has, as strlen sees it in the name table.
    ghost function NameAt(k: nat): seq<byte>
      requires k < |entries| && entries[k].nameOffset <= |nameTable|
      reads this
    {
      var s := nameTable[entries[k].nameOffset..];
      s[..StrLen(s)]
    }

    lemma NameAtIs(k: nat)
      requires Valid() && k < |entries|
      ensures entries[k].nameOffset + |names[k]| < |nameTable| && NameAt(k) == names[k]
      ensures StrLen(nameTable[entries[k].nameOffset..]) == |names[k]|
    {
      NameInTable(names, entries, nameTable, [], k);
      assert nameTable + [] == nameTable;
    }

    // pfsAddEntryInformationToImageContext
    method AddEntry(name: seq<byte>, size: nat) returns (ok: bool)
      requires Valid() && IsString(name)
      modifies this
      ensures Valid()
      ensures ok <==> name != []
      ensures names == (if ok then old(names) + [name] else old(names))
      ensures |entries| == |names| && entries[..|old(entries)|] == old(entries)
      ensures ok ==> entries[|old(entries)|].size == size
      ensures |nameTable| == if ok then GrownTable(HEADER_LENGTH + |entries| * ENTRY_LENGTH, |Join(names)|, |old(nameTable)|)
                             else |old(nameTable)|
      ensures tight == (old(tight) && (ok ==> |name| >= 0x1F))
    {
      if name == [] { return false; }
      var offset, nameOffset := NextSlot();
      var e := Entry(offset, size, nameOffset);
      var nameless := HEADER_LENGTH + (|entries| + 1) * ENTRY_LENGTH;
      AppendToTable(name, nameOffset, nameless, Join(names));
      RecordEntry(e, name, |old(nameTable)|);
      assert nameless == HEADER_LENGTH + |entries| * ENTRY_LENGTH;
      ok := true;
    }

    // The name is in the table; the entry follows.
    method RecordEntry(e: Entry, ghost name: seq<byte>, ghost room: nat)
      requires Layout(names, entries) && fsSize == SumSizes(entries) && (tight ==> Grown(|entries|, |Join(names)|, room))
      requires e.offset == fsSize && e.nameOffset == |Join(names)| && name != [] && IsString(name)
      requires var unpadded := |Join(names)| + |name| + 1;
               && |nameTable| == GrownTable(HEADER_LENGTH + (|entries| + 1) * ENTRY_LENGTH, unpadded, room)
               && unpadded < |nameTable|
               && nameTable == (Join(names) + name + [0]) + Zeros(|nameTable| - unpadded)
      modifies this`entries, this`fsSize, this`names, this`tight
      ensures Valid() && names == old(names) + [name] && entries == old(entries) + [e]
      ensures |Join(names)| == |Join(old(names))| + |name| + 1
      ensures tight == (old(tight) && |name| >= 0x1F)
    {
      AddedEntry(names, entries, name, e);
      if tight && |name| >= 0x1F { LongNamesKeepAlignment(|entries|, |Join(names)|, room, |name|); }
      tight := tight && |name| >= 0x1F;
      entries := entries + [e];
      fsSize := fsSize + e.size;
      names := names + [name];
    }

    // The name table takes one more name, and grows when it would not keep its padding.
    method AppendToTable(name: seq<byte>, nameOffset: nat, nameless: nat, ghost joined: seq<byte>)
      requires |joined| == nameOffset <= |nameTable| && nameTable == joined + Zeros(|nameTable| - nameOffset)
      modifies this`nameTable
      ensures var unpadded := nameOffset + |name| + 1;
              && |nameTable| == GrownTable(nameless, unpadded, |old(nameTable)|)
              && unpadded < |nameTable|
              && nameTable == (joined + name + [0]) + Zeros(|nameTable| - unpadded)
    {
      var unpadded := nameOffset + |name| + 1;
      if unpadded >= |nameTable| {
        var padded := PaddedSize(nameless, unpadded);
        nameTable := nameTable[..nameOffset] + Zeros(padded - nameOffset);
      }
      PutName(joined, |nameTable| - nameOffset, name);
      nameTable := nameTable[..nameOffset] + name + nameTable[nameOffset + |name|..];
    }

    method PaddedSize(nameless: nat, unpadded: nat) returns (padded: nat)
      ensures padded == NextMultiple(nameless + unpadded) - nameless > unpadded
    {
      AlignedHeader(nameless + unpadded);
      padded := AlignUp(nameless + unpadded, PADDING_ALIGNMENT) - nameless;
      if padded == unpadded { padded := padded + PADDING_ALIGNMENT; }
    }

    // Where the next entry goes: behind the last one, in the data and in the name table.
    method NextSlot() returns (offset: nat, nameOffset: nat)
      requires Valid()
      ensures offset == fsSize && nameOffset == |Join(names)|
    {
      if entries == [] { return 0, 0; }
      var last := |entries| - 1;
      NameAtIs(last);
      offset := entries[last].offset + entries[last].size;
      nameOffset := entries[last].nameOffset + StrLen(nameTable[entries[last].nameOffset..]) + 1;
    }

    // pfsUpdateEntryNameFromImageContext: the new name replaces the start of the old one.
    method UpdateName(idx: nat, newName: seq<byte>) returns (ok: bool)
      requires Valid() && IsString(newName)
      modifies this`nameTable, this`names
      ensures Valid() && HeaderSize() == old(HeaderSize())
      ensures ok <==> idx < |entries| && newName != [] && |newName| <= |old(names)[idx]|
      ensures names == if ok then old(names)[idx := Renamed(old(names)[idx], newName)] else old(names)
    {
      if entries == [] || idx >= |entries| || newName == [] { return false; }
      NameAtIs(idx);
      var at := entries[idx].nameOffset;
      if |newName| > StrLen(nameTable[at..]) { return false; }
      LayoutAt(names, entries, idx);
      RenameLayout(names, entries, idx, Renamed(names[idx], newName));
      RenameInTable(names, nameTable, idx, at, newName);
      SameStarts(names, names[idx := Renamed(names[idx], newName)]);
      ghost var after := names[idx := Renamed(names[idx], newName)];
      var table := nameTable[..at] + newName + nameTable[at + |newName|..];
      assert Layout(after, entries) && Table(after, table) && |table| == |nameTable|;
      nameTable, names := table, after;
      ok := true;
    }

    // pfsWriteImageContextHeaderToMemoryBuffer: the header, if there is one and it fits
    method WriteHeader(bufSize: nat) returns (header: Option<seq<byte>>)
      requires Valid()
      ensures header.Some? <==> entries != [] && HeaderSize() <= bufSize
      ensures header.Some? ==> header.value == HeaderBytes(entries, nameTable) && |header.value| == HeaderSize()
    {
      if entries == [] || bufSize < HeaderSize() { return None; }
      EntriesBytesSize(entries);
      return Some(HeaderBytes(entries, nameTable));
    }
  }

  function Renamed(name: seq<byte>, newName: seq<byte>): (r: seq<byte>)
    requires |newName| <= |name|
    ensures |r| == |name|
  {
    newName + name[|newName|..]
  }

  // The k-th name, where its entry says, with whatever follows the table.
  lemma NameInTable(names: seq<seq<byte>>, entries: seq<Entry>, table: seq<byte>, body: seq<byte>, k: nat)
    requires Layout(names, entries) && Table(names, table) && k < |entries|
    ensures var at := entries[k].nameOffset;
            && at + |names[k]| < |table|
            && StrLen((table + body)[at..]) == |names[k]|
            && (table + body)[at..][..|names[k]|] == names[k]
  {
    LayoutAt(names, entries, k);
    JoinAt(names, k);
    StringAt(Join(names[..k]), names[k], Join(names[k + 1..]), Zeros(|table| - |Join(names)|) + body);
    assert table + body == Join(names) + (Zeros(|table| - |Join(names)|) + body);
  }

  lemma StringAt(front: seq<byte>, name: seq<byte>, rest: seq<byte>, tail: seq<byte>)
    requires IsString(name)
    ensures var s := (front + (name + [0] + rest) + tail)[|front|..];
            s[..|name|] == name && StrLen(s) == |name|
  {
    var s := (front + (name + [0] + rest) + tail)[|front|..];
    assert s == name + [0] + rest + tail;
    StrLenIs(s, name);
  }

  lemma {:induction false} RenameLayout(names: seq<seq<byte>>, entries: seq<Entry>, k: nat, name: seq<byte>)
    requires Layout(names, entries) && k < |names| && |name| == |names[k]| && IsString(name)
    ensures Layout(names[k := name], entries)
    decreases |entries|
  {
    var n := |entries| - 1;
    var after := names[k := name];
    SameStarts(names[..n], after[..n]);
    if k < n {
      RenameLayout(names[..n], entries[..n], k, name);
      assert after[..n] == names[..n][k := name];
    } else {
      assert after[..n] == names[..n];
    }
  }

  lemma RenameInTable(names: seq<seq<byte>>, table: seq<byte>, k: nat, at: nat, newName: seq<byte>)
    requires Table(names, table) && k < |names| && |newName| <= |names[k]| && at == |Join(names[..k])|
    ensures at + |names[k]| < |table|
            && Table(names[k := Renamed(names[k], newName)], table[..at] + newName + table[at + |newName|..])
  {
    var name := Renamed(names[k], newName);
    JoinAt(names, k);
    JoinReplace(names, k, name);
    SameStarts(names, names[k := name]);
    RenamedSlice(Join(names[..k]), names[k], [0] + Join(names[k + 1..]), newName, Zeros(|table| - |Join(names)|));
    Associative(names[k], [0], Join(names[k + 1..]));
    Associative(name, [0], Join(names[k + 1..]));
  }

  lemma RenamedSlice(front: seq<byte>, name: seq<byte>, tail: seq<byte>, newName: seq<byte>, pad: seq<byte>)
    requires |newName| <= |name|
    ensures var table := (front + (name + tail)) + pad;
            table[..|front|] + newName + table[|front| + |newName|..] == (front + (Renamed(name, newName) + tail)) + pad
  {
  }

  // -------------------------------------------------------------------------------------------
  // The header on disk

  function EntryBytes(e: Entry): (s: seq<byte>)
    ensures |s| == ENTRY_LENGTH
  {
    ToLe(e.offset, 8) + ToLe(e.size, 8) + ToLe(e.nameOffset, 4) + Zeros(4)
  }

  function EntriesBytes(entries: seq<Entry>): seq<byte> {
    if entries == [] then [] else EntryBytes(entries[0]) + EntriesBytes(entries[1..])
  }

  function HeaderBytes(entries: seq<Entry>, table: seq<byte>): seq<byte> {
    FixedHeader(|entries|, |table|) + EntriesBytes(entries) + table
  }

  function FixedHeader(count: nat, tableSize: nat): (s: seq<byte>)
    ensures |s| == HEADER_LENGTH
  {
    PFS_MAGIC + ToLe(count, 4) + ToLe(tableSize, 4) + Zeros(4)
  }

  lemma {:induction false} EntriesBytesSize(entries: seq<Entry>)
    ensures |EntriesBytes(entries)| == |entries| * ENTRY_LENGTH
  {
    if entries != [] { EntriesBytesSize(entries[1..]); }
  }

  // pfsInitializeContext on a header in memory: what it accepts, and where the data starts.
  predicate Acceptable(header: seq<byte>) {
    && |header| >= HEADER_LENGTH && header[..4] == PFS_MAGIC && ReadCount(header) > 0 && ReadTableSize(header) > 0
  }

  function ReadTableSize(header: seq<byte>): nat
    requires |header| >= HEADER_LENGTH
  {
    FromLe(header[8..12])
  }

  function DataStart(header: seq<byte>): nat
    requires |header| >= HEADER_LENGTH
  {
    HEADER_LENGTH + ReadCount(header) * ENTRY_LENGTH + ReadTableSize(header)
  }

  // pfsGetEntryCount, pfsGetEntryByIndex and pfsGetEntryNameByIndex
  function ReadCount(header: seq<byte>): nat
    requires |header| >= HEADER_LENGTH
  {
    FromLe(header[4..8])
  }

  function ReadEntry(header: seq<byte>, idx: nat): Entry
    requires |header| >= HEADER_LENGTH + (idx + 1) * ENTRY_LENGTH
  {
    var at := HEADER_LENGTH + idx * ENTRY_LENGTH;
    ParseEntry(header[at..at + ENTRY_LENGTH])
  }

  function ParseEntry(s: seq<byte>): Entry
    requires |s| == ENTRY_LENGTH
  {
    Entry(FromLe(s[..8]), FromLe(s[8..16]), FromLe(s[16..20]))
  }

  function ReadName(header: seq<byte>, idx: nat): seq<byte>
    requires |header| >= HEADER_LENGTH + (idx + 1) * ENTRY_LENGTH
  {
    var at := HEADER_LENGTH + ReadCount(header) * ENTRY_LENGTH + ReadEntry(header, idx).nameOffset;
    if at > |header| then [] else header[at..][..StrLen(header[at..])]
  }

  lemma {:induction false} EntriesBytesAt(entries: seq<Entry>, k: nat)
    requires k < |entries|
    ensures |EntriesBytes(entries)| == |entries| * ENTRY_LENGTH
    ensures EntriesBytes(entries)[k * ENTRY_LENGTH..k * ENTRY_LENGTH + ENTRY_LENGTH] == EntryBytes(entries[k])
  {
    EntriesBytesSize(entries);
    if k > 0 {
      EntriesBytesAt(entries[1..], k - 1);
      var rest := EntriesBytes(entries[1..]);
      var at := (k - 1) * ENTRY_LENGTH;
      assert (EntryBytes(entries[0]) + rest)[ENTRY_LENGTH + at..ENTRY_LENGTH + at + ENTRY_LENGTH] == rest[at..at + ENTRY_LENGTH];
    }
  }

  lemma EntryRoundTrip(e: Entry)
    requires e.offset < Pow256(8) && e.size < Pow256(8) && e.nameOffset < Pow256(4)
    ensures ParseEntry(EntryBytes(e)) == e
  {
    EntrySlices(e);
    LeRoundTrip(e.offset, 8);
    LeRoundTrip(e.size, 8);
    LeRoundTrip(e.nameOffset, 4);
  }

  // The fields of an entry on disk.
  lemma EntrySlices(e: Entry)
    ensures var s := EntryBytes(e);
            s[..8] == ToLe(e.offset, 8) && s[8..16] == ToLe(e.size, 8) && s[16..20] == ToLe(e.nameOffset, 4)
  {
    Slices(ToLe(e.offset, 8), ToLe(e.size, 8), ToLe(e.nameOffset, 4), Zeros(4));
  }

  lemma Slices(a: seq<byte>, b: seq<byte>, c: seq<byte>, d: seq<byte>)
    requires |a| == 8 && |b| == 8 && |c| == 4
    ensures var s := a + b + c + d; s[..8] == a && s[8..16] == b && s[16..20] == c
  {
  }

  // The fields fit their widths on disk.
  ghost predicate Fits(entries: seq<Entry>, table: seq<byte>) {
    && |entries| < Pow256(4) && |table| < Pow256(4)
    && forall k :: 0 <= k < |entries| ==> entries[k].offset < Pow256(8) && entries[k].size < Pow256(8)
  }

  // A written header is one that is accepted, and reads back as the entries and names it was made
  // from, whatever follows it.
  lemma HeaderRoundTrip(names: seq<seq<byte>>, entries: seq<Entry>, table: seq<byte>, body: seq<byte>, k: nat)
    requires Layout(names, entries) && Table(names, table) && Fits(entries, table) && k < |entries|
    ensures var file := HeaderBytes(entries, table) + body;
            && |file| >= 0x10 + (k + 1) * 0x18 && file[..4] == [0x50, 0x46, 0x53, 0x30] && Acceptable(file)
            && FromLe(file[4..8]) == |entries| && FromLe(file[8..12]) == |table|
            && DataStart(file) == |HeaderBytes(entries, table)| == 0x10 + |entries| * 0x18 + |table|
            && ReadEntry(file, k) == entries[k] && ReadName(file, k) == names[k]
    ensures var file, at := HeaderBytes(entries, table) + body, 0x10 + k * 0x18;
            && FromLe(file[at..at + 8]) == entries[k].offset && FromLe(file[at + 8..at + 16]) == entries[k].size
            && FromLe(file[at + 16..at + 20]) == entries[k].nameOffset
  {
    EntriesBytesAt(entries, k);
    SlicesOfSlice(HeaderBytes(entries, table) + body, 0x10 + k * 0x18);
    FixedReads(entries, table, body);
    EntryReads(names, entries, table, body, k);
    NameReads(names, entries, table, body, k);
    NameInTable(names, entries, table, body, k);
  }

  lemma SlicesOfSlice(file: seq<byte>, at: nat)
    requires at + 0x18 <= |file|
    ensures var s := file[at..at + 0x18];
            s[..8] == file[at..at + 8] && s[8..16] == file[at + 8..at + 16] && s[16..20] == file[at + 16..at + 20]
  {
    var s := file[at..at + 0x18];
    assert |s| == 0x18 && forall i :: 0 <= i < 0x18 ==> s[i] == file[at + i];
  }

  lemma FixedReads(entries: seq<Entry>, table: seq<byte>, body: seq<byte>)
    requires |entries| < Pow256(4) && |table| < Pow256(4)
    ensures var file := HeaderBytes(entries, table) + body;
            && |file| >= HEADER_LENGTH && file[..4] == PFS_MAGIC && file[12..16] == Zeros(4)
            && ReadCount(file) == |entries| && ReadTableSize(file) == |table|
            && |HeaderBytes(entries, table)| == DataStart(file)
  {
    var fixed := FixedHeader(|entries|, |table|);
    var file := HeaderBytes(entries, table) + body;
    EntriesBytesSize(entries);
    LeRoundTrip(|entries|, 4);
    LeRoundTrip(|table|, 4);
    assert file[..HEADER_LENGTH] == fixed;
    assert file[4..8] == fixed[4..8] == ToLe(|entries|, 4);
    assert file[8..12] == fixed[8..12] == ToLe(|table|, 4);
    assert file[..4] == fixed[..4] == PFS_MAGIC;
    assert file[12..16] == fixed[12..16] == Zeros(4);
  }

  lemma EntryReads(names: seq<seq<byte>>, entries: seq<Entry>, table: seq<byte>, body: seq<byte>, k: nat)
    requires Layout(names, entries) && Table(names, table) && Fits(entries, table) && k < |entries|
    ensures var file := HeaderBytes(entries, table) + body;
            && |file| >= HEADER_LENGTH + (k + 1) * ENTRY_LENGTH && ReadEntry(file, k) == entries[k]
  {
    EntriesBytesAt(entries, k);
    NameInTable(names, entries, table, body, k);
    EntryRoundTrip(entries[k]);
    FileParts(FixedHeader(|entries|, |table|), EntriesBytes(entries), table, body, k * ENTRY_LENGTH, entries[k].nameOffset);
  }

  lemma NameReads(names: seq<seq<byte>>, entries: seq<Entry>, table: seq<byte>, body: seq<byte>, k: nat)
    requires Layout(names, entries) && Table(names, table) && Fits(entries, table) && k < |entries|
    ensures var file := HeaderBytes(entries, table) + body;
            && |file| >= HEADER_LENGTH + (k + 1) * ENTRY_LENGTH && ReadName(file, k) == names[k]
  {
    var file := HeaderBytes(entries, table) + body;
    EntriesBytesAt(entries, k);
    NameInTable(names, entries, table, body, k);
    FixedReads(entries, table, body);
    EntryReads(names, entries, table, body, k);
    FileParts(FixedHeader(|entries|, |table|), EntriesBytes(entries), table, body, k * ENTRY_LENGTH, entries[k].nameOffset);
  }

  lemma FileParts(fixed: seq<byte>, middle: seq<byte>, table: seq<byte>, body: seq<byte>, at: nat, n: nat)
    requires |fixed| == HEADER_LENGTH && at + ENTRY_LENGTH <= |middle| && n <= |table|
    ensures var file := (fixed + middle + table) + body;
            && file[HEADER_LENGTH + at..HEADER_LENGTH + at + ENTRY_LENGTH] == middle[at..at + ENTRY_LENGTH]
            && file[HEADER_LENGTH + |middle| + n..] == (table + body)[n..]
  {
  }

  // -------------------------------------------------------------------------------------------
  // Header alignment

  // Adding an entry to an aligned image keeps the header aligned exactly when the name table has to
  // grow: a table that still has room leaves the header 0x18 bytes longer than an aligned one.
  lemma AlignmentKeptIffGrown(count: nat, size: nat, unpadded: nat)
    requires (HEADER_LENGTH + count * ENTRY_LENGTH + size) % PADDING_ALIGNMENT == 0
    ensures var nameless := HEADER_LENGTH + (count + 1) * ENTRY_LENGTH;
            (nameless + GrownTable(nameless, unpadded, size)) % PADDING_ALIGNMENT == 0 <==> unpadded >= size
  {
    var before := HEADER_LENGTH + count * ENTRY_LENGTH + size;
    ModUnique(before + ENTRY_LENGTH, PADDING_ALIGNMENT, before / PADDING_ALIGNMENT, ENTRY_LENGTH);
    NextIsMultiple(HEADER_LENGTH + (count + 1) * ENTRY_LENGTH + unpadded);
  }

  // The size of a name table that every name has made grow.
  predicate Grown(count: nat, joined: nat, table: nat) {
    var nameless := HEADER_LENGTH + count * ENTRY_LENGTH;
    if count == 0 then joined == table == 0 else nameless + table == NextMultiple(nameless + joined)
  }

  // Names of at least 0x1F bytes, which all names in an NSP have, always make the name table grow.
  lemma LongNamesKeepAlignment(count: nat, joined: nat, table: nat, len: nat)
    requires Grown(count, joined, table) && len >= 0x1F
    ensures var nameless := HEADER_LENGTH + (count + 1) * ENTRY_LENGTH;
            joined + len + 1 >= table && GrownTable(nameless, joined + len + 1, table) >= 0
            && Grown(count + 1, joined + len + 1, GrownTable(nameless, joined + len + 1, table))
  {
  }

  lemma NextIsMultiple(n: nat)
    ensures NextMultiple(n) % PADDING_ALIGNMENT == 0
  {
    ModUnique(NextMultiple(n), PADDING_ALIGNMENT, n / PADDING_ALIGNMENT + 1, 0);
  }

  // A name goes over the zeros behind the joined names.
  lemma PutName(joined: seq<byte>, room: nat, name: seq<byte>)
    requires |name| < room
    ensures var table := joined + Zeros(room);
            table[..|joined|] + name + table[|joined| + |name|..] == (joined + name + [0]) + Zeros(room - |name| - 1)
  {
  }

  lemma AddedEntry(names: seq<seq<byte>>, entries: seq<Entry>, name: seq<byte>, e: Entry)
    requires Layout(names, entries) && e.offset == SumSizes(entries) && e.nameOffset == |Join(names)|
    requires name != [] && IsString(name)
    ensures Join(names + [name]) == Join(names) + name + [0]
    ensures SumSizes(entries + [e]) == SumSizes(entries) + e.size
    ensures Layout(names + [name], entries + [e])
  {
    assert (names + [name])[..|names|] == names && (entries + [e])[..|entries|] == entries;
  }

  // h is the first multiple of 0x20 above n.
  predicate Rounded(n: nat, h: nat) { n < h <= n + 0x20 && h % 0x20 == 0 }

  lemma NextIsRounded(n: nat)
    ensures Rounded(n, NextMultiple(n))
  {
    NextIsMultiple(n);
  }

  // The first multiple of the padding alignment above n.
  function NextMultiple(n: nat): nat { (n / PADDING_ALIGNMENT + 1) * PADDING_ALIGNMENT }

  function GrownTable(nameless: nat, unpadded: nat, size: nat): int {
    if unpadded >= size then NextMultiple(nameless + unpadded) - nameless else size
  }

  lemma AlignedHeader(n: nat)
    ensures var r := AlignUp(n, PADDING_ALIGNMENT);
            r >= n && NextMultiple(n) == if r == n then n + PADDING_ALIGNMENT else r
  {
    assert Pow2(5) == PADDING_ALIGNMENT;
    AlignUpIsLeast(n, PADDING_ALIGNMENT);
  }
}
