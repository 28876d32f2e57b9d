// What a finished NSP is: a header of aligned size, and every body behind it at its entry's offset,
// named by the hash of what was sent.

module NspResult {
  import opened Bytes
  import opened PfsImage
  import opened NcaPatch
  import opened NspBuilder

  // Sizes that agree except at one index.
  lemma {:induction false} SumsDiffer(entries: seq<Entry>, bodies: seq<seq<byte>>, x: nat)
    requires |entries| == |bodies|
    requires forall k :: 0 <= k < |entries| && k != x ==> entries[k].size == |bodies[k]|
    ensures |Concat(bodies)| - SumSizes(entries) == if x < |entries| then |bodies[x]| - entries[x].size else 0
    decreases |entries|
  {
    if entries != [] {
      var n := |entries| - 1;
      SumsDiffer(entries[..n], bodies[..n], x);
      ConcatLast(bodies);
    }
  }

  lemma ConcatLast(bodies: seq<seq<byte>>)
    requires bodies != []
    ensures var n := |bodies| - 1; Concat(bodies) == Concat(bodies[..n]) + bodies[n]
  {
    var n := |bodies| - 1;
    ConcatAppend(bodies[..n], [bodies[n]]);
    ConcatOne(bodies[n]);
    assert bodies == bodies[..n] + [bodies[n]];
  }

  lemma BodyAt(bodies: seq<seq<byte>>, k: nat)
    requires k < |bodies|
    ensures var at := |Concat(bodies[..k])|;
            at + |bodies[k]| <= |Concat(bodies)| && Concat(bodies)[at..at + |bodies[k]|] == bodies[k]
  {
    ConcatAppend(bodies[..k], bodies[k..]);
    assert bodies == bodies[..k] + bodies[k..];
    assert bodies[k..][0] == bodies[k];
  }

  // The header of a finished NSP is aligned, whatever names its entries have: it ends at the first
  // multiple of 0x20 behind its entries and names.
  lemma HeaderIsAligned(b: Builder)
    requires b.Finished()
    ensures Rounded(0x10 + |b.slots| * 0x18 + |Join(b.image.names)|, b.image.HeaderSize())
    ensures b.image.HeaderSize() == NspHeaderSize(Slots(b.t))
  {
    NcaSlotAt(b.t, 0);
    b.HeaderIs();
  }

  // The bytes written make up the announced size exactly when the regenerated XML of the content
  // meta has the size it had in the first pass.
  lemma SizeIsAnnounced(b: Builder)
    requires b.Finished()
    ensures var xml1, xml2 := |b.t.cnmtXml(b.t.records, b.t.labels)|, |b.t.cnmtXml(b.records, b.labels[..|b.t.ncas| + 1])|;
            b.dataWritten - b.nspSize == if b.t.generateXml then xml2 - xml1 else 0
  {
    var t := b.t;
    var x := if t.generateXml then |t.ncas| + 1 else |b.slots|;
    PassesAgree(t, b.records, b.labels[..|t.ncas| + 1]);
    forall k | 0 <= k < |b.slots| ensures b.image.entries[k].size == b.slots[k].size {
      NamedAt(b.image.names, b.image.entries, b.slots, b.done, b.labels, AllLabels(t, t.labels), k);
    }
    SumsDiffer(b.image.entries, b.bodies, x);
    if t.generateXml { XmlAt(t, b.records, b.labels[..|t.ncas| + 1]); }
  }

  lemma XmlAt(t: Title, records: seq<Record>, labels: seq<Label>)
    requires t.generateXml
    ensures |t.ncas| + 1 < |Slots(t)| && |t.ncas| + 1 < |Bodies(t, records, labels)|
    ensures Slots(t)[|t.ncas| + 1] == XmlSlots(t)[0]
    ensures Bodies(t, records, labels)[|t.ncas| + 1] == XmlBodies(t, records, labels)[0]
  {
    Associative(NcaSlots(t) + XmlSlots(t), CtxSlots(t, Limit(t)), TicketSlots(t));
    MiddleAt(NcaSlots(t), XmlSlots(t), CtxSlots(t, Limit(t)) + TicketSlots(t), 0);
    Associative(NcaBodies(t, records) + XmlBodies(t, records, labels), CtxBodies(t, Limit(t)), TicketBodies(t));
    MiddleAt(NcaBodies(t, records), XmlBodies(t, records, labels), CtxBodies(t, Limit(t)) + TicketBodies(t), 0);
  }

  // Has the regenerated XML kept its size?
  ghost predicate XmlKeptSize(b: Builder)
    reads b
    requires |b.t.ncas| < |b.labels|
  {
    b.t.generateXml ==> |b.t.cnmtXml(b.records, b.labels[..|b.t.ncas| + 1])| == |b.t.cnmtXml(b.t.records, b.t.labels)|
  }

  // Entry k of a file has this name, and leads to this body from where the header's counts end it.
  ghost predicate Leads(file: seq<byte>, k: nat, name: seq<byte>, body: seq<byte>) {
    && |file| >= 0x10 + (k + 1) * 0x18 && Acceptable(file) && ReadName(file, k) == name
    && (var e := ReadEntry(file, k);
        var at := 0x10 + FromLe(file[4..8]) * 0x18 + FromLe(file[8..12]) + e.offset;
        at + e.size <= |file| && file[at..at + e.size] == body)
  }

  // An image's header followed by bodies of its entries' sizes: entry k leads to body k.
  lemma EntryLeadsToBody(names: seq<seq<byte>>, entries: seq<Entry>, table: seq<byte>, bodies: seq<seq<byte>>, k: nat)
    requires Layout(names, entries) && Table(names, table) && Fits(entries, table) && k < |entries| == |bodies|
    requires forall j :: 0 <= j < |entries| ==> entries[j].size == |bodies[j]|
    ensures var header := HeaderBytes(entries, table);
            var file := header + Concat(bodies);
            Leads(file, k, names[k], bodies[k]) && ReadCount(file) == |entries| && DataStart(file) == |header|
  {
    HeaderRoundTrip(names, entries, table, Concat(bodies), k);
    OffsetIs(names, entries, bodies, k);
    BodyBehind(HeaderBytes(entries, table), bodies, k, entries[k].offset);
  }

  lemma BodyBehind(header: seq<byte>, bodies: seq<seq<byte>>, k: nat, offset: nat)
    requires k < |bodies| && offset == |Concat(bodies[..k])|
    ensures |header| + offset + |bodies[k]| <= |header + Concat(bodies)|
    ensures (header + Concat(bodies))[|header| + offset..|header| + offset + |bodies[k]|] == bodies[k]
  {
    BodyAt(bodies, k);
    InTail(header, Concat(bodies), offset, |bodies[k]|);
  }

  lemma OffsetIs(names: seq<seq<byte>>, entries: seq<Entry>, bodies: seq<seq<byte>>, k: nat)
    requires Layout(names, entries) && k < |entries| == |bodies|
    requires forall j :: 0 <= j < |entries| ==> entries[j].size == |bodies[j]|
    ensures entries[k].offset == |Concat(bodies[..k])| && entries[k].size == |bodies[k]|
  {
    LayoutAt(names, entries, k);
    SumsDiffer(entries[..k], bodies[..k], k);
  }

  lemma InTail(header: seq<byte>, data: seq<byte>, at: nat, n: nat)
    requires at + n <= |data|
    ensures (header + data)[|header| + at..|header| + at + n] == data[at..at + n]
  {
  }

  lemma FinishedFile(b: Builder)
    requires b.Finished() && XmlKeptSize(b)
    ensures |b.file| == b.nspSize == b.dataWritten
    ensures b.file == HeaderBytes(b.image.entries, b.image.nameTable) + Concat(b.bodies)
    ensures |b.bodies| == |b.slots| == |b.image.entries|
    ensures forall j :: 0 <= j < |b.slots| ==> b.image.entries[j].size == |b.bodies[j]|
  {
    SizeIsAnnounced(b);
    PassesAgree(b.t, b.records, b.labels[..|b.t.ncas| + 1]);
    forall j | 0 <= j < |b.slots| ensures b.image.entries[j].size == |b.bodies[j]| {
      NamedAt(b.image.names, b.image.entries, b.slots, b.done, b.labels, AllLabels(b.t, b.t.labels), j);
    }
    assert b.file[..b.dataWritten] == b.file;
  }

  lemma FinalName(b: Builder, k: nat)
    requires b.Finished() && k < |b.slots|
    ensures b.slots[k].owner < |b.labels| && k < |b.image.names| && b.image.names[k] == NameOf(b.slots[k], b.labels)
  {
    NamedAt(b.image.names, b.image.entries, b.slots, b.done, b.labels, AllLabels(b.t, b.t.labels), k);
  }

  // Two-pass agreement, as a reader of the finished file sees it: entry k of the header names body k
  // by its final label and leads to exactly its bytes, from where the header's two counts end it.
  lemma EveryEntryLeadsToItsBody(b: Builder, k: nat)
    requires b.Finished() && XmlKeptSize(b) && k < |b.slots|
    requires Fits(b.image.entries, b.image.nameTable)
    ensures |b.bodies| == |b.slots| && |b.file| == b.nspSize && b.slots[k].owner < |b.labels|
    ensures Leads(b.file, k, NameOf(b.slots[k], b.labels), b.bodies[k])
    ensures ReadCount(b.file) == |b.slots| && DataStart(b.file) == b.image.HeaderSize()
  {
    FinishedFile(b);
    FinalName(b, k);
    EntriesBytesSize(b.image.entries);
    EntryLeadsToBody(b.image.names, b.image.entries, b.image.nameTable, b.bodies, k);
  }

  // -------------------------------------------------------------------------------------------
  // Hashes

  // The label of a content is the start of the hash of what was sent, if sending has changed it,
  // and else the label it had.
  function FinalLabel(hash: seq<byte> -> Hash, content: seq<byte>, sent: seq<byte>, first: Label): Label {
    if hash(content) == hash(sent) then first else IdOf(hash(sent))
  }

  lemma {:induction false} LabelsFollowHashes(t: Title, hash: seq<byte> -> Hash, n: nat, i: nat)
    requires ValidTitle(t) && n <= |t.ncas| && AfterNcas(t, hash, n).Some? && i < |AllLabels(t, t.labels)|
    ensures AfterNcas(t, hash, n).value.1[i]
         == if i < n then FinalLabel(hash, t.ncas[i].content, SentBytes(t.ncas[i]), AllLabels(t, t.labels)[i])
            else AllLabels(t, t.labels)[i]
    decreases n
  {
    if n > 0 { LabelsFollowHashes(t, hash, n - 1, i); }
  }

  // Every content, the meta content included, is named in the finished header by the hash of the
  // bytes sent for it, exactly when sending changed them or it was named by its hash before.
  lemma NamesAreHashes(b: Builder, i: nat)
    requires b.Finished() && i <= |b.t.ncas|
    ensures i < |b.bodies| && i < |b.slots| && |b.t.ncas| + 1 <= |b.labels|
    ensures b.slots[i].owner == i && b.slots[i].suffix == if i < |b.t.ncas| then NCA_SUFFIX else META_SUFFIX
    ensures var content := if i < |b.t.ncas| then b.t.ncas[i].content else b.t.meta.content;
            && b.labels[i] == (if b.hash(content) != b.hash(b.bodies[i]) then b.hash(b.bodies[i])[..16] else b.t.labels[i])
            && (b.labels[i] == b.hash(b.bodies[i])[..16]
                <==> b.hash(content) != b.hash(b.bodies[i]) || b.t.labels[i] == b.hash(content)[..16])
  {
    var t := b.t;
    LabelsFollowHashes(t, b.hash, |t.ncas|, i);
    NcaSlotAt(t, i);
    NcaBodyAt(t, b.records, b.labels[..|t.ncas| + 1], i);
  }
}
