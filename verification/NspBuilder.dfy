// The two passes that build an NSP (nspThreadFunc): the first lays out every entry, the second
// streams the bodies, renames what its hash has changed, and writes the final header.

module NspBuilder {
  import opened Bytes
  import opened PfsImage
  import opened NcaPatch

  type Label = s: seq<byte> | |s| == 16 witness seq<byte>(16, _ => 0)
  type Hash = s: seq<byte> | |s| == 32 witness seq<byte>(32, _ => 0)

  type CString = s: seq<byte> | IsString(s) witness []

  const BLOCK_SIZE: nat := 0x800000

  datatype Icon = Icon(language: CString, data: seq<byte>)

  // What a content's type context adds to the NSP.
  datatype Ctx =
    | NoCtx
    | Single(suffix: CString, xml: seq<byte>)   // program info, legal information
    | Control(icons: seq<Icon>, xml: seq<byte>)

  // A content other than the meta content, with the patches that will be written into it.
  datatype Nca = Nca(kind: nat, idOffset: nat, content: seq<byte>, dirty: bool,
                     header: seq<Region>, patch: seq<Region>, ctx: Ctx)

  // A content record of the CNMT.
  datatype Record = Record(id: Label, hash: Hash, size: nat, kind: nat, idOffset: nat)

  // The meta content: its patches are generated from the content records.
  datatype Meta = Meta(content: seq<byte>, dirty: seq<Record> -> bool,
                       header: seq<Record> -> seq<Region>, patch: seq<Record> -> seq<Region>)

  datatype Ticket = Ticket(rights: Label, tik: seq<byte>, cert: seq<byte>)

  // labels: the content IDs of the contents, and of the meta content.
  datatype Title = Title(ncas: seq<Nca>, labels: seq<Label>, records: seq<Record>, meta: Meta,
                         generateXml: bool, cnmtXml: (seq<Record>, seq<Label>) -> seq<byte>,
                         ticket: Option<Ticket>)

  predicate ValidTitle(t: Title) { |t.labels| == |t.ncas| + 1 }

  // utilsGenerateHexString, in lower case
  function HexDigit(n: nat): (b: byte)
    requires n < 16
    ensures b != 0
  {
    if n < 10 then 48 + n else 87 + n
  }

  function Hex(s: seq<byte>): (r: seq<byte>)
    ensures |r| == 2 * |s| && forall i :: 0 <= i < |r| ==> r[i] != 0
  {
    if s == [] then [] else [HexDigit(s[0] / 16), HexDigit(s[0] % 16)] + Hex(s[1..])
  }

  const NCA_SUFFIX: seq<byte> := [0x2E, 0x6E, 0x63, 0x61] // ".nca"
  const META_SUFFIX: seq<byte> := [0x2E, 0x63, 0x6E, 0x6D, 0x74, 0x2E, 0x6E, 0x63, 0x61] // ".cnmt.nca"
  const CNMT_XML_SUFFIX: seq<byte> := [0x2E, 0x63, 0x6E, 0x6D, 0x74, 0x2E, 0x78, 0x6D, 0x6C] // ".cnmt.xml"
  const NACP_XML_SUFFIX: seq<byte> := [0x2E, 0x6E, 0x61, 0x63, 0x70, 0x2E, 0x78, 0x6D, 0x6C] // ".nacp.xml"
  const ICON_INFIX: seq<byte> := [0x2E, 0x6E, 0x78, 0x2E] // ".nx."
  const JPG_SUFFIX: seq<byte> := [0x2E, 0x6A, 0x70, 0x67] // ".jpg"
  const TIK_SUFFIX: seq<byte> := [0x2E, 0x74, 0x69, 0x6B] // ".tik"
  const CERT_SUFFIX: seq<byte> := [0x2E, 0x63, 0x65, 0x72, 0x74] // ".cert"

  // -------------------------------------------------------------------------------------------
  // The layout

  // An entry: the label its name starts with, the rest of its name, and its size.
  datatype Slot = Slot(owner: nat, suffix: seq<byte>, size: nat)

  // All labels an entry name can start with: those of the contents, and the rights ID.
  function AllLabels(t: Title, labels: seq<Label>): seq<Label> {
    labels + (match t.ticket case Some(k) => [k.rights] case None => [])
  }

  function NameOf(s: Slot, labels: seq<Label>): (n: seq<byte>)
    requires s.owner < |labels|
    ensures |n| == 32 + |s.suffix| && (IsString(s.suffix) ==> IsString(n))
  {
    Hex(labels[s.owner]) + s.suffix
  }

  function NcaSlot(t: Title, i: nat): Slot
    requires i <= |t.ncas|
  {
    if i == |t.ncas| then Slot(i, META_SUFFIX, |t.meta.content|) else Slot(i, NCA_SUFFIX, |t.ncas[i].content|)
  }

  // Of the first n contents; the meta content is the last one.
  function NcaSlotsTo(t: Title, n: nat): (s: seq<Slot>)
    requires n <= |t.ncas| + 1
    ensures |s| == n
  {
    if n == 0 then [] else NcaSlotsTo(t, n - 1) + [NcaSlot(t, n - 1)]
  }

  function NcaSlots(t: Title): seq<Slot> { NcaSlotsTo(t, |t.ncas| + 1) }

  function XmlSlots(t: Title): seq<Slot> {
    if t.generateXml then [Slot(|t.ncas|, CNMT_XML_SUFFIX, |t.cnmtXml(t.records, t.labels)|)] else []
  }

  function IconSlot(owner: nat, icon: Icon): Slot {
    Slot(owner, ICON_INFIX + icon.language + JPG_SUFFIX, |icon.data|)
  }

  function IconSlots(owner: nat, icons: seq<Icon>, n: nat): (s: seq<Slot>)
    requires n <= |icons|
    ensures |s| == n
  {
    if n == 0 then [] else IconSlots(owner, icons, n - 1) + [IconSlot(owner, icons[n - 1])]
  }

  function CtxSlotsOf(owner: nat, c: Ctx): seq<Slot> {
    match c
    case NoCtx => []
    case Single(suffix, xml) => [Slot(owner, suffix, |xml|)]
    case Control(icons, xml) => IconSlots(owner, icons, |icons|) + [Slot(owner, NACP_XML_SUFFIX, |xml|)]
  }

  // Of the first n contents.
  function CtxSlots(t: Title, n: nat): seq<Slot>
    requires n <= |t.ncas|
  {
    if n == 0 then [] else CtxSlots(t, n - 1) + CtxSlotsOf(n - 1, t.ncas[n - 1].ctx)
  }

  function Limit(t: Title): nat { if t.generateXml then |t.ncas| else 0 }

  function TicketSlots(t: Title): seq<Slot> {
    match t.ticket
    case None => []
    case Some(k) => [Slot(|t.ncas| + 1, TIK_SUFFIX, |k.tik|), Slot(|t.ncas| + 1, CERT_SUFFIX, |k.cert|)]
  }

  function Slots(t: Title): seq<Slot> {
    NcaSlots(t) + XmlSlots(t) + CtxSlots(t, Limit(t)) + TicketSlots(t)
  }

  // The joined names, and the header they make up.
  function NameRoom(slots: seq<Slot>): nat {
    if slots == [] then 0 else NameRoom(slots[..|slots| - 1]) + 33 + |slots[|slots| - 1].suffix|
  }

  function NspHeaderSize(slots: seq<Slot>): nat {
    NextMultiple(HEADER_LENGTH + |slots| * ENTRY_LENGTH + NameRoom(slots))
  }

  // -------------------------------------------------------------------------------------------
  // The bodies, once the final records and labels are known

  function SentBytes(n: Nca): (s: seq<byte>)
    ensures |s| == |n.content|
  {
    Sent(n.content, n.dirty, n.header, n.patch)
  }

  function MetaBytes(m: Meta, records: seq<Record>): (s: seq<byte>)
    ensures |s| == |m.content|
  {
    Sent(m.content, m.dirty(records), m.header(records), m.patch(records))
  }

  function NcaBodies(t: Title, records: seq<Record>): seq<seq<byte>> {
    NcaBodiesUpTo(t, |t.ncas|) + [MetaBytes(t.meta, records)]
  }

  function NcaBodiesUpTo(t: Title, n: nat): (b: seq<seq<byte>>)
    requires n <= |t.ncas|
    ensures |b| == n
  {
    if n == 0 then [] else NcaBodiesUpTo(t, n - 1) + [SentBytes(t.ncas[n - 1])]
  }

  function XmlBodies(t: Title, records: seq<Record>, labels: seq<Label>): seq<seq<byte>> {
    if t.generateXml then [t.cnmtXml(records, labels)] else []
  }

  function IconBodies(icons: seq<Icon>, n: nat): (b: seq<seq<byte>>)
    requires n <= |icons|
    ensures |b| == n
  {
    if n == 0 then [] else IconBodies(icons, n - 1) + [icons[n - 1].data]
  }

  function CtxBodiesOf(c: Ctx): seq<seq<byte>> {
    match c
    case NoCtx => []
    case Single(_, xml) => [xml]
    case Control(icons, xml) => IconBodies(icons, |icons|) + [xml]
  }

  function CtxBodies(t: Title, n: nat): seq<seq<byte>>
    requires n <= |t.ncas|
  {
    if n == 0 then [] else CtxBodies(t, n - 1) + CtxBodiesOf(t.ncas[n - 1].ctx)
  }

  function TicketBodies(t: Title): seq<seq<byte>> {
    match t.ticket
    case None => []
    case Some(k) => [k.tik, k.cert]
  }

  function Bodies(t: Title, records: seq<Record>, labels: seq<Label>): seq<seq<byte>> {
    NcaBodies(t, records) + XmlBodies(t, records, labels) + CtxBodies(t, Limit(t)) + TicketBodies(t)
  }

  // Body k belongs to slot k and has its size.
  ghost predicate Agree(slots: seq<Slot>, bodies: seq<seq<byte>>) {
    |slots| == |bodies| && forall k :: 0 <= k < |slots| ==> slots[k].size == |bodies[k]|
  }

  lemma AgreeAppend(a: seq<Slot>, b: seq<seq<byte>>, c: seq<Slot>, d: seq<seq<byte>>)
    requires Agree(a, b) && Agree(c, d)
    ensures Agree(a + c, b + d)
  {
  }

  lemma {:induction false} IconsAgree(owner: nat, icons: seq<Icon>, n: nat)
    requires n <= |icons|
    ensures Agree(IconSlots(owner, icons, n), IconBodies(icons, n))
  {
    if n > 0 { IconsAgree(owner, icons, n - 1); }
  }

  lemma CtxOfAgree(owner: nat, c: Ctx)
    ensures Agree(CtxSlotsOf(owner, c), CtxBodiesOf(c))
  {
    if c.Control? { IconsAgree(owner, c.icons, |c.icons|); }
  }

  lemma {:induction false} NcasAgree(t: Title, n: nat)
    requires n <= |t.ncas|
    ensures Agree(NcaSlotsTo(t, n), NcaBodiesUpTo(t, n))
  {
    if n > 0 { NcasAgree(t, n - 1); }
  }

  lemma {:induction false} CtxAgree(t: Title, n: nat)
    requires n <= |t.ncas|
    ensures Agree(CtxSlots(t, n), CtxBodies(t, n))
  {
    if n > 0 {
      CtxAgree(t, n - 1);
      CtxOfAgree(n - 1, t.ncas[n - 1].ctx);
      AgreeAppend(CtxSlots(t, n - 1), CtxBodies(t, n - 1),
                  CtxSlotsOf(n - 1, t.ncas[n - 1].ctx), CtxBodiesOf(t.ncas[n - 1].ctx));
    }
  }

  // The two passes agree: every body has the size of its entry, exactly when the regenerated XML
  // of the content meta has kept its size.
  lemma PassesAgree(t: Title, records: seq<Record>, labels: seq<Label>)
    ensures |Slots(t)| == |Bodies(t, records, labels)|
    ensures Agree(Slots(t), Bodies(t, records, labels))
       <==> (t.generateXml ==> |t.cnmtXml(records, labels)| == |t.cnmtXml(t.records, t.labels)|)
    ensures forall k :: 0 <= k < |Slots(t)| && !(t.generateXml && k == |t.ncas| + 1) ==>
              Slots(t)[k].size == |Bodies(t, records, labels)[k]|
  {
    NcasAgree(t, |t.ncas|);
    CtxAgree(t, Limit(t));
    AgreeAppend(CtxSlots(t, Limit(t)), CtxBodies(t, Limit(t)), TicketSlots(t), TicketBodies(t));
    var c, d := CtxSlots(t, Limit(t)) + TicketSlots(t), CtxBodies(t, Limit(t)) + TicketBodies(t);
    AgreeAround(NcaSlots(t), NcaBodies(t, records), XmlSlots(t), XmlBodies(t, records, labels), c, d);
    if t.generateXml {
      assert Agree(XmlSlots(t), XmlBodies(t, records, labels))
        <==> XmlSlots(t)[0].size == |XmlBodies(t, records, labels)[0]|;
    }
    Associative(NcaSlots(t) + XmlSlots(t), CtxSlots(t, Limit(t)), TicketSlots(t));
    Associative(NcaBodies(t, records) + XmlBodies(t, records, labels), CtxBodies(t, Limit(t)), TicketBodies(t));
  }

  lemma AgreeAround(a: seq<Slot>, b: seq<seq<byte>>, x: seq<Slot>, y: seq<seq<byte>>, c: seq<Slot>, d: seq<seq<byte>>)
    requires Agree(a, b) && Agree(c, d) && |x| == |y| <= 1
    ensures Agree(a + x + c, b + y + d) <==> Agree(x, y)
    ensures |a + x + c| == |b + y + d|
    ensures forall k :: 0 <= k < |a + x + c| && !(x != [] && k == |a|) ==> (a + x + c)[k].size == |(b + y + d)[k]|
  {
    if x != [] {
      assert (a + x + c)[|a|] == x[0] && (b + y + d)[|a|] == y[0];
    }
  }

  // -------------------------------------------------------------------------------------------
  // Content records

  predicate SameKey(r: Record, n: Nca) {
    r.size == |n.content| && r.kind == n.kind && r.idOffset == n.idOffset
  }

  // The first record with an ID, or with a content's size, type and ID offset.
  function IndexById(records: seq<Record>, id: Label): (k: nat)
    ensures k <= |records| && (k < |records| ==> records[k].id == id) && forall j :: 0 <= j < k ==> records[j].id != id
  {
    IdFrom(records, id, 0)
  }

  function IdFrom(records: seq<Record>, id: Label, i: nat): (k: nat)
    requires i <= |records|
    ensures i <= k <= |records| && (k < |records| ==> records[k].id == id) && forall j :: i <= j < k ==> records[j].id != id
    decreases |records| - i
  {
    if i == |records| || records[i].id == id then i else IdFrom(records, id, i + 1)
  }

  function IndexByKey(records: seq<Record>, n: Nca): (k: nat)
    ensures k <= |records| && (k < |records| ==> SameKey(records[k], n)) && forall j :: 0 <= j < k ==> !SameKey(records[j], n)
  {
    KeyFrom(records, n, 0)
  }

  function KeyFrom(records: seq<Record>, n: Nca, i: nat): (k: nat)
    requires i <= |records|
    ensures i <= k <= |records| && (k < |records| ==> SameKey(records[k], n)) && forall j :: i <= j < k ==> !SameKey(records[j], n)
    decreases |records| - i
  {
    if i == |records| || SameKey(records[i], n) then i else KeyFrom(records, n, i + 1)
  }

  function IdOf(h: Hash): Label { h[..16] }

  // The records after a content has been streamed: verified, and updated if its hash has changed.
  datatype Step = Refused | Streamed(records: seq<Record>, id: Label)

  function StreamStep(n: Nca, records: seq<Record>, id: Label, clean: Hash, sent: Hash): Step {
    var k := IndexById(records, id);
    if k == |records| || records[k].hash != clean then Refused
    else if clean == sent then Streamed(records, id)
    else
      var u := IndexByKey(records, n);
      if u == |records| then Refused
      else Streamed(records[u := records[u].(hash := sent, id := IdOf(sent))], IdOf(sent))
  }

  // The records and labels after the first n contents, unless one of them was refused.
  function AfterNcas(t: Title, hash: seq<byte> -> Hash, n: nat): (r: Option<(seq<Record>, seq<Label>)>)
    requires n <= |t.ncas| && ValidTitle(t)
    ensures r.Some? ==> |r.value.1| == |AllLabels(t, t.labels)|
  {
    if n == 0 then Some((t.records, AllLabels(t, t.labels)))
    else
      match AfterNcas(t, hash, n - 1)
      case None => None
      case Some(before) =>
        var nca := t.ncas[n - 1];
        match StreamStep(nca, before.0, before.1[n - 1], hash(nca.content), hash(SentBytes(nca)))
        case Refused => None
        case Streamed(records, id) => Some((records, before.1[n - 1 := id]))
  }

  // The meta content is last: its patch is made from the records all others have left, and its
  // label follows its own hash.
  function MetaLabels(t: Title, hash: seq<byte> -> Hash, records: seq<Record>, labels: seq<Label>): seq<Label>
    requires |t.ncas| < |labels|
  {
    var clean, sent := hash(t.meta.content), hash(MetaBytes(t.meta, records));
    if clean == sent then labels else labels[|t.ncas| := IdOf(sent)]
  }

  // Names while the second pass is at slot `done`, and the sizes of the entries.
  ghost predicate Named(names: seq<seq<byte>>, entries: seq<Entry>, slots: seq<Slot>, done: nat,
                        labels: seq<Label>, first: seq<Label>)
    decreases |slots|
  {
    && |names| == |entries| == |slots|
    && (slots != [] ==>
          var n := |slots| - 1;
          && Named(names[..n], entries[..n], slots[..n], done, labels, first)
          && slots[n].owner < |labels| == |first|
          && names[n] == NameOf(slots[n], if n < done then labels else first)
          && entries[n].size == slots[n].size)
  }

  // The indices saved in the first pass are those of the contents' first extra entries.
  ghost predicate Indexed(t: Title, ctxIdx: seq<nat>, base: nat, n: nat)
    requires n <= |t.ncas| == |ctxIdx|
  {
    forall i {:trigger ctxIdx[i]} :: 0 <= i < n && !t.ncas[i].ctx.NoCtx? ==> ctxIdx[i] == base + |CtxSlots(t, i)|
  }

  // -------------------------------------------------------------------------------------------
  // Names in the second pass

  lemma {:induction false} NamedAt(names: seq<seq<byte>>, entries: seq<Entry>, slots: seq<Slot>, done: nat,
                                   labels: seq<Label>, first: seq<Label>, k: nat)
    requires Named(names, entries, slots, done, labels, first) && k < |slots|
    ensures slots[k].owner < |labels| == |first|
    ensures names[k] == NameOf(slots[k], if k < done then labels else first) && entries[k].size == slots[k].size
    decreases |slots|
  {
    var n := |slots| - 1;
    if k < n { NamedAt(names[..n], entries[..n], slots[..n], done, labels, first, k); }
  }

  // Labels have one length, and so do names, whatever their label.
  lemma {:induction false} NamesTakeRoom(names: seq<seq<byte>>, entries: seq<Entry>, slots: seq<Slot>, done: nat,
                                         labels: seq<Label>, first: seq<Label>)
    requires Named(names, entries, slots, done, labels, first)
    ensures |Join(names)| == NameRoom(slots)
    decreases |slots|
  {
    if slots != [] {
      var n := |slots| - 1;
      NamesTakeRoom(names[..n], entries[..n], slots[..n], done, labels, first);
    }
  }

  // A label changes before any entry with that label has been passed.
  lemma {:induction false} Relabel(names: seq<seq<byte>>, entries: seq<Entry>, slots: seq<Slot>, done: nat,
                                   labels: seq<Label>, first: seq<Label>, i: nat, id: Label)
    requires Named(names, entries, slots, done, labels, first) && i < |labels|
    requires forall k :: 0 <= k < |slots| && k < done ==> slots[k].owner != i
    ensures Named(names, entries, slots, done, labels[i := id], first)
    decreases |slots|
  {
    if slots != [] {
      var n := |slots| - 1;
      Relabel(names[..n], entries[..n], slots[..n], done, labels, first, i, id);
    }
  }

  // The next entry gets its final name.
  lemma {:induction false} RenameNext(names: seq<seq<byte>>, entries: seq<Entry>, slots: seq<Slot>, done: nat,
                                      labels: seq<Label>, first: seq<Label>)
    requires Named(names, entries, slots, done, labels, first) && done < |slots|
    ensures slots[done].owner < |labels|
    ensures Named(names[done := NameOf(slots[done], labels)], entries, slots, done + 1, labels, first)
    decreases |slots|
  {
    NamedAt(names, entries, slots, done, labels, first, done);
    var n := |slots| - 1;
    var after := names[done := NameOf(slots[done], labels)];
    if done < n {
      RenameNext(names[..n], entries[..n], slots[..n], done, labels, first);
      assert after[..n] == names[..n][done := NameOf(slots[done], labels)];
    } else {
      assert after[..n] == names[..n];
      SameUpTo(names[..n], entries[..n], slots[..n], done, done + 1, labels, first);
    }
  }

  lemma {:induction false} SameUpTo(names: seq<seq<byte>>, entries: seq<Entry>, slots: seq<Slot>, done: nat, more: nat,
                                    labels: seq<Label>, first: seq<Label>)
    requires Named(names, entries, slots, done, labels, first) && |slots| <= done <= more
    ensures Named(names, entries, slots, more, labels, first)
    decreases |slots|
  {
    if slots != [] {
      var n := |slots| - 1;
      SameUpTo(names[..n], entries[..n], slots[..n], done, more, labels, first);
    }
  }

  // Putting the new label over the start of an entry's name.
  lemma RenamedTo(s: Slot, labels: seq<Label>, first: seq<Label>)
    requires s.owner < |labels| == |first|
    ensures |Hex(labels[s.owner])| <= |NameOf(s, first)|
    ensures Renamed(NameOf(s, first), Hex(labels[s.owner])) == NameOf(s, labels)
  {
    var name := NameOf(s, first);
    assert name[|Hex(first[s.owner])|..] == s.suffix;
  }

  class Builder {
    const t: Title
    const hash: seq<byte> -> Hash
    const stops: nat -> bool   // which checks find a cancellation, a failed read or a refused write
    var ticks: nat
    const image: Image
    var labels: seq<Label>
    var records: seq<Record>
    var ctxIdx: seq<nat>       // content_type_ctx_data_idx
    var xmlIdx: nat
    var file: seq<byte>
    var position: nat
    var dataWritten: nat
    var nspSize: nat
    ghost var slots: seq<Slot>
    ghost var bodies: seq<seq<byte>>
    ghost var done: nat        // slots whose names are final

    constructor (t: Title, hash: seq<byte> -> Hash, stops: nat -> bool)
      requires ValidTitle(t)
      ensures Valid() && fresh(image) && this.t == t && this.hash == hash && this.stops == stops
      ensures LayingOut() && slots == [] && ticks == 0
    {
      this.t, this.hash, this.stops, ticks := t, hash, stops, 0;
      image := new Image();
      labels, records, ctxIdx, xmlIdx := AllLabels(t, t.labels), t.records, seq(|t.ncas|, _ => 0), 0;
      file, position, dataWritten, nspSize, slots, bodies, done := [], 0, 0, 0, [], [], 0;
    }

    ghost predicate Valid()
      reads this, image
    {
      && ValidTitle(t) && image.Valid() && |ctxIdx| == |t.ncas|
      && Named(image.names, image.entries, slots, done, labels, AllLabels(t, t.labels))
      && image.tight
    }

    lemma HeaderIs()
      requires Valid() && slots != []
      ensures image.entries != [] && image.HeaderSize() == NspHeaderSize(slots)
      ensures Rounded(0x10 + |slots| * 0x18 + |Join(image.names)|, image.HeaderSize())
    {
      NextIsRounded(HEADER_LENGTH + |slots| * ENTRY_LENGTH + NameRoom(slots));
      NamesTakeRoom(image.names, image.entries, slots, done, labels, AllLabels(t, t.labels));
    }

    // One entry of the first pass.
    method AddSlot(s: Slot)
      requires Valid() && done == 0 && s.owner < |labels| && labels == AllLabels(t, t.labels) && IsString(s.suffix)
      modifies this`slots, image
      ensures Valid() && slots == old(slots) + [s]
    {
      var name := NameOf(s, labels);
      var ok := image.AddEntry(name, s.size);
      slots := slots + [s];
    }

    // The first pass is under way: nothing has been sent or renamed yet.
    ghost predicate LayingOut()
      reads this, image
    {
      Valid() && bodies == [] && done == 0 && labels == AllLabels(t, t.labels) && records == t.records
    }

    method AddNcaSlots()
      requires LayingOut() && slots == []
      modifies this`slots, image
      ensures LayingOut() && slots == NcaSlots(t)
    {
      for i := 0 to |t.ncas| + 1
        invariant LayingOut() && slots == NcaSlotsTo(t, i)
      {
        if i == |t.ncas| {
          AddSlot(Slot(i, META_SUFFIX, |t.meta.content|));
        } else {
          AddSlot(Slot(i, NCA_SUFFIX, |t.ncas[i].content|));
        }
      }
    }

    method AddXmlSlot()
      requires LayingOut()
      modifies this`slots, this`xmlIdx, image
      ensures LayingOut() && slots == old(slots) + XmlSlots(t)
      ensures t.generateXml ==> xmlIdx == |old(slots)|
    {
      if t.generateXml {
        xmlIdx := |image.entries|;
        AddSlot(Slot(|t.ncas|, CNMT_XML_SUFFIX, |t.cnmtXml(t.records, t.labels)|));
      }
    }

    // The extra data of the first i contents has been laid out, behind other entries.
    ghost predicate CtxLaid(before: seq<Slot>, i: nat)
      reads this, image
      requires i <= |t.ncas|
    {
      LayingOut() && slots == before + CtxSlots(t, i) && Indexed(t, ctxIdx, |before|, i)
    }

    method AddCtxSlots()
      requires LayingOut()
      modifies this`slots, this`ctxIdx, image
      ensures CtxLaid(old(slots), Limit(t))
    {
      ghost var before := slots;
      for i := 0 to Limit(t)
        invariant CtxLaid(before, i)
      {
        AddCtx(i, before);
      }
    }

    method AddCtx(i: nat, ghost before: seq<Slot>)
      requires i < |t.ncas| && CtxLaid(before, i)
      modifies this`slots, this`ctxIdx, image
      ensures CtxLaid(before, i + 1)
    {
      SaveIndex(i, |before|);
      AddCtxSlotsOf(i, t.ncas[i].ctx);
      MoreCtxSlots(t, before, i);
    }

    // The index of a content's first extra entry is saved, if it has one.
    method SaveIndex(i: nat, ghost base: nat)
      requires i < |t.ncas| == |ctxIdx| && Indexed(t, ctxIdx, base, i)
      requires |image.entries| == base + |CtxSlots(t, i)|
      modifies this`ctxIdx
      ensures |ctxIdx| == |t.ncas| && Indexed(t, ctxIdx, base, i + 1)
    {
      if !t.ncas[i].ctx.NoCtx? { ctxIdx := ctxIdx[i := |image.entries|]; }
    }

    method AddCtxSlotsOf(i: nat, c: Ctx)
      requires LayingOut() && i < |t.ncas| && c == t.ncas[i].ctx
      modifies this`slots, image
      ensures LayingOut() && slots == old(slots) + CtxSlotsOf(i, c)
    {
      match c
      case NoCtx =>
      case Single(suffix, xml) => AddSlot(Slot(i, suffix, |xml|));
      case Control(icons, xml) =>
        for j := 0 to |icons|
          invariant LayingOut() && slots == old(slots) + IconSlots(i, icons, j)
        {
          AddSlot(IconSlot(i, icons[j]));
        }
        AddSlot(Slot(i, NACP_XML_SUFFIX, |xml|));
    }

    method AddTicketSlots()
      requires LayingOut()
      modifies this`slots, image
      ensures LayingOut() && slots == old(slots) + TicketSlots(t)
    {
      match t.ticket
      case None =>
      case Some(k) =>
        AddSlot(Slot(|t.ncas| + 1, TIK_SUFFIX, |k.tik|));
        AddSlot(Slot(|t.ncas| + 1, CERT_SUFFIX, |k.cert|));
    }

    method LayOut()
      requires LayingOut() && slots == []
      modifies this`slots, this`xmlIdx, this`ctxIdx, image
      ensures LayingOut() && slots == Slots(t) && Plan(t, slots, ctxIdx, xmlIdx)
    {
      AddNcaSlots();
      AddXmlSlot();
      AddCtxSlots();
      AddTicketSlots();
      PlanHolds(t, ctxIdx, xmlIdx);
    }

    method FirstPass() returns (ok: bool)
      requires LayingOut() && slots == [] && ticks == 0
      modifies this`slots, this`xmlIdx, this`ctxIdx, this`nspSize, this`file, this`position, this`dataWritten, image
      ensures slots == Slots(t)
      ensures ok <==> NspHeaderSize(slots) <= BLOCK_SIZE
      ensures ok ==> NcasSent(0) && Plan(t, slots, ctxIdx, xmlIdx)
    {
      LayOut();
      ok := Announce();
    }

    // The header's size, and room for it.
    method Announce() returns (ok: bool)
      requires LayingOut() && Plan(t, slots, ctxIdx, xmlIdx)
      modifies this`nspSize, this`file, this`position, this`dataWritten
      ensures ok <==> NspHeaderSize(slots) <= BLOCK_SIZE
      ensures ok ==> NcasSent(0)
    {
      HeaderIs();
      var header := image.WriteHeader(BLOCK_SIZE);
      if header.None? { return false; }
      WritePlaceholder(|header.value|);
      return true;
    }

    // The output gets its full size, and room for the header.
    method WritePlaceholder(headerSize: nat)
      requires LayingOut() && headerSize == image.HeaderSize()
      modifies this`nspSize, this`file, this`position, this`dataWritten
      ensures Sending()
    {
      nspSize := headerSize + image.fsSize;
      NothingWritten(headerSize, nspSize);
      file, position, dataWritten := Zeros(nspSize), headerSize, 0;
      assert Concat(bodies) == [];
    }

    // The second pass is under way: behind the room for the header are the bodies sent so far.
    ghost predicate Sending()
      reads this, image
    {
      && Valid()
      && nspSize == image.HeaderSize() + image.fsSize
      && Written(file, image.HeaderSize(), position, nspSize, Concat(bodies))
      && dataWritten == |Concat(bodies)|
    }

    // fwrite at the output's position
    method Emit(body: seq<byte>)
      requires Sending()
      modifies this`file, this`position, this`dataWritten, this`bodies
      ensures Sending() && bodies == old(bodies) + [body]
    {
      ConcatAppend(bodies, [body]);
      ConcatOne(body);
      WriteMore(file, image.HeaderSize(), position, nspSize, Concat(bodies), body);
      var end := position + |body|;
      file := file[..position] + body + if end < |file| then file[end..] else [];
      position, dataWritten, bodies := end, dataWritten + |body|, bodies + [body];
    }

    // pfsUpdateEntryNameFromImageContext for the next entry
    method RenameEntry(idx: nat, id: Label) returns (ok: bool)
      requires Sending() && idx == done < |slots| && slots[done].owner < |labels| && id == labels[slots[done].owner]
      modifies this`done, image`nameTable, image`names
      ensures ok && Sending() && done == old(done) + 1
    {
      ghost var first, s := AllLabels(t, t.labels), slots[done];
      NamedAt(image.names, image.entries, slots, done, labels, first, done);
      RenameNext(image.names, image.entries, slots, done, labels, first);
      RenamedTo(s, labels, first);
      ok := image.UpdateName(idx, Hex(id));
      done := done + 1;
    }

    // The next entry keeps its name, because its label has not changed.
    ghost method KeepName()
      requires Sending() && done < |slots| && slots[done].owner < |labels| == |AllLabels(t, t.labels)|
      requires labels[slots[done].owner] == AllLabels(t, t.labels)[slots[done].owner]
      modifies this`done
      ensures Sending() && done == old(done) + 1
    {
      var first := AllLabels(t, t.labels);
      NamedAt(image.names, image.entries, slots, done, labels, first, done);
      RenameNext(image.names, image.entries, slots, done, labels, first);
      assert image.names[done := NameOf(slots[done], labels)] == image.names;
      done := done + 1;
    }

    // cnmtVerifyContentHash
    method VerifyContentHash(id: Label, clean: Hash) returns (ok: bool)
      ensures var k := IndexById(records, id); ok <==> k < |records| && records[k].hash == clean
    {
      for i := 0 to |records|
        invariant forall j :: 0 <= j < i ==> records[j].id != id
      {
        if records[i].id == id { return records[i].hash == clean; }
      }
      return false;
    }

    // cnmtUpdateContentInfo
    method UpdateContentInfo(n: Nca, id: Label, sent: Hash) returns (ok: bool)
      modifies this`records
      ensures var u := IndexByKey(old(records), n);
              if u == |old(records)| then !ok && records == old(records)
              else ok && records == old(records)[u := old(records)[u].(hash := sent, id := id)]
    {
      for i := 0 to |records|
        invariant records == old(records)
        invariant forall j :: 0 <= j < i ==> !SameKey(records[j], n)
      {
        if SameKey(records[i], n) {
          records := records[i := records[i].(hash := sent, id := id)];
          return true;
        }
      }
      return false;
    }

    // ncaUpdateContentIdAndHash
    method SetLabel(i: nat, id: Label)
      requires Sending() && NcasFirst(slots, |t.ncas|) && done == i <= |t.ncas| < |labels|
      modifies this`labels
      ensures Sending() && labels == old(labels)[i := id]
    {
      Relabel(image.names, image.entries, slots, done, labels, AllLabels(t, t.labels), i, id);
      labels := labels[i := id];
    }

    // The name of content i follows its label.
    method NameNca(i: nat, changed: bool)
      requires Sending() && NcasFirst(slots, |t.ncas|) && done == i <= |t.ncas| < |labels| == |AllLabels(t, t.labels)|
      requires !changed ==> labels[i] == AllLabels(t, t.labels)[i]
      modifies this`done, image`nameTable, image`names
      ensures Sending() && done == i + 1
    {
      if changed {
        var ok := RenameEntry(i, labels[i]);
      } else {
        KeepName();
      }
    }

    // What is read, patched and sent for one content.
    method Stream(content: seq<byte>, dirty: bool, header: seq<Region>, patch: seq<Region>) returns (sent: seq<byte>)
      requires Sending()
      modifies this`file, this`position, this`dataWritten, this`bodies
      ensures Sending() && sent == Sent(content, dirty, header, patch) && bodies == old(bodies) + [sent]
    {
      var headerPatch := new Patch(header, |content|);
      var ctxPatch := new Patch(patch, |content|);
      sent := StreamPatched(content, dirty, headerPatch, ctxPatch, BLOCK_SIZE);
      Emit(sent);
    }

    // The content is verified, and its record updated if its hash has changed.
    method Account(i: nat, clean: Hash, sent: Hash) returns (ok: bool)
      requires Sending() && NcasFirst(slots, |t.ncas|) && done == i < |t.ncas| < |labels|
      modifies this`records, this`labels
      ensures Sending()
      ensures match StreamStep(t.ncas[i], old(records), old(labels)[i], clean, sent)
              case Refused => !ok
              case Streamed(rs, id) => ok && records == rs && labels == old(labels)[i := id]
    {
      var verified := VerifyContentHash(labels[i], clean);
      if !verified { return false; }
      if clean != sent {
        SetLabel(i, IdOf(sent));
        ok := UpdateContentInfo(t.ncas[i], labels[i], sent);
        return;
      }
      return true;
    }

    // The first i contents have been sent.
    ghost predicate NcasSent(i: nat)
      reads this, image
      requires i <= |t.ncas|
    {
      && Sending() && NcasFirst(slots, |t.ncas|) && done == i
      && bodies == NcaBodiesUpTo(t, i)
      && AfterNcas(t, hash, i) == Some((records, labels)) && SameFrom(labels, AllLabels(t, t.labels), i)
    }

    // Content i has been sent, and its entry is still to be named.
    ghost predicate NcaStreamed(i: nat, changed: bool)
      reads this, image
      requires i < |t.ncas|
    {
      && Sending() && NcasFirst(slots, |t.ncas|) && done == i
      && bodies == NcaBodiesUpTo(t, i + 1)
      && AfterNcas(t, hash, i + 1) == Some((records, labels)) && SameFrom(labels, AllLabels(t, t.labels), i + 1)
      && (!changed ==> labels[i] == AllLabels(t, t.labels)[i])
    }

    // The body of a content, and what it does to its record and label.
    method StreamNca(i: nat) returns (ok: bool, changed: bool)
      requires i < |t.ncas| && NcasSent(i)
      modifies this`file, this`position, this`dataWritten, this`bodies, this`records, this`labels
      ensures ok <==> AfterNcas(t, hash, i + 1).Some?
      ensures ok ==> NcaStreamed(i, changed)
    {
      var n := t.ncas[i];
      ghost var before := (records, labels);
      var sent := Stream(n.content, n.dirty, n.header, n.patch);
      assert sent == SentBytes(n);
      var clean, dirty := hash(n.content), hash(sent);
      changed := clean != dirty;
      ok := Account(i, clean, dirty);
      OneAccounted(t, hash, i, before);
    }

    method NameStreamed(i: nat, changed: bool)
      requires i < |t.ncas| && NcaStreamed(i, changed)
      modifies this`done, image`nameTable, image`names
      ensures NcasSent(i + 1)
    {
      NameNca(i, changed);
    }

    // One content other than the meta content.
    method SendNca(i: nat) returns (ok: bool)
      requires i < |t.ncas| && NcasSent(i) && ticks == i
      modifies this`ticks, this`file, this`position, this`dataWritten, this`bodies, this`records, this`labels, this`done,
               image`nameTable, image`names
      ensures ok <==> !stops(i + 1) && AfterNcas(t, hash, i + 1).Some?
      ensures ok ==> NcasSent(i + 1) && ticks == i + 1
    {
      ticks := ticks + 1;
      if stops(ticks) { return false; }
      var changed;
      ok, changed := StreamNca(i);
      if ok { NameStreamed(i, changed); }
    }

    method SendNcas() returns (ok: bool)
      requires NcasSent(0) && ticks == 0
      modifies this`ticks, this`file, this`position, this`dataWritten, this`bodies, this`records, this`labels, this`done,
               image`nameTable, image`names
      ensures ok <==> RunsTo(stops, |t.ncas|) && AfterNcas(t, hash, |t.ncas|).Some?
      ensures ok ==> NcasSent(|t.ncas|) && ticks == |t.ncas|
    {
      for i := 0 to |t.ncas|
        invariant NcasSent(i) && RunsTo(stops, i) && ticks == i
      {
        RunsOneMore(stops, i);
        var sent := SendNca(i);
        if !sent {
          NoneLater(t, hash, stops, i + 1, |t.ncas|);
          return false;
        }
      }
      return true;
    }

    // The meta content has been sent, and its entry is still to be named.
    ghost predicate MetaStreamed(changed: bool)
      reads this, image
    {
      && Sending() && NcasFirst(slots, |t.ncas|) && done == |t.ncas|
      && SameFrom(labels, AllLabels(t, t.labels), |t.ncas| + 1)
      && bodies == NcaBodies(t, records) && Accounted(t, hash, records, labels)
      && (!changed ==> labels[|t.ncas|] == AllLabels(t, t.labels)[|t.ncas|])
    }

    // What is read, patched and sent of the meta content, whose patch is generated only now.
    method StreamMeta() returns (changed: bool)
      requires NcasSent(|t.ncas|)
      modifies this`file, this`position, this`dataWritten, this`bodies, this`labels
      ensures MetaStreamed(changed)
    {
      var m := t.meta;
      var sent := Stream(m.content, m.dirty(records), m.header(records), m.patch(records));
      assert sent == MetaBytes(m, records);
      changed := hash(m.content) != hash(sent);
      ghost var before := labels;
      if changed { SetLabel(|t.ncas|, IdOf(hash(sent))); }
      MetaAccounted(t, hash, records, before, labels);
    }

    method NameMeta(changed: bool)
      requires MetaStreamed(changed)
      modifies this`done, image`nameTable, image`names
      ensures ContentsSent()
    {
      NameNca(|t.ncas|, changed);
    }

    method SendMeta() returns (ok: bool)
      requires NcasSent(|t.ncas|) && ticks == |t.ncas|
      modifies this`ticks, this`file, this`position, this`dataWritten, this`bodies, this`labels, this`done,
               image`nameTable, image`names
      ensures ok <==> !stops(|t.ncas| + 1)
      ensures ok ==> ContentsSent()
    {
      ticks := ticks + 1;
      if stops(ticks) { return false; }
      var changed := StreamMeta();
      NameMeta(changed);
      return true;
    }

    // A body and the new name of its entry.
    method SendNamed(body: seq<byte>, idx: nat, owner: nat)
      requires Sending() && idx == done < |slots| && slots[done].owner == owner < |labels|
      modifies this`file, this`position, this`dataWritten, this`bodies, this`done, image`nameTable, image`names
      ensures Sending() && done == old(done) + 1 && bodies == old(bodies) + [body]
    {
      Emit(body);
      var ok := RenameEntry(idx, labels[owner]);
    }

    // The XML of the content meta, generated once more.
    method SendXml()
      requires ContentsSent() && Plan(t, slots, ctxIdx, xmlIdx)
      modifies this`file, this`position, this`dataWritten, this`bodies, this`done, image`nameTable, image`names
      ensures XmlSent()
    {
      if t.generateXml {
        SendNamed(t.cnmtXml(records, labels[..|t.ncas| + 1]), xmlIdx, |t.ncas|);
      }
    }

    // The extra data of the first i contents has been sent.
    ghost predicate CtxSending(base: nat, before: seq<seq<byte>>, i: nat)
      reads this, image
      requires i <= |t.ncas|
    {
      && Sending() && CtxPlan(t, slots, ctxIdx, base) && |labels| > |t.ncas|
      && done == base + |CtxBodies(t, i)| && bodies == before + CtxBodies(t, i)
    }

    method SendCtxs(ghost base: nat, ghost before: seq<seq<byte>>)
      requires CtxSending(base, before, 0)
      modifies this`file, this`position, this`dataWritten, this`bodies, this`done, image`nameTable, image`names
      ensures CtxSending(base, before, Limit(t))
    {
      for i := 0 to Limit(t)
        invariant CtxSending(base, before, i)
      {
        SendCtxAt(i, base, before);
      }
    }

    // One round of the loop over the contents' extra data.
    method SendCtxAt(i: nat, ghost base: nat, ghost before: seq<seq<byte>>)
      requires i < Limit(t) && CtxSending(base, before, i)
      modifies this`file, this`position, this`dataWritten, this`bodies, this`done, image`nameTable, image`names
      ensures CtxSending(base, before, i + 1)
    {
      Associative(before, CtxBodies(t, i), CtxBodiesOf(t.ncas[i].ctx));
      if !t.ncas[i].ctx.NoCtx? { SendCtx(i, t.ncas[i].ctx, ctxIdx[i]); }
    }

    method SendExtra()
      requires XmlSent() && Plan(t, slots, ctxIdx, xmlIdx)
      modifies this`file, this`position, this`dataWritten, this`bodies, this`done, image`nameTable, image`names
      ensures CtxsSent()
    {
      SendCtxs(CtxBase(t), bodies);
    }

    method SendCtx(i: nat, c: Ctx, idx: nat)
      requires Sending() && i < |labels| && !c.NoCtx? && idx == done && Owned(slots, idx, |CtxBodiesOf(c)|, i)
      modifies this`file, this`position, this`dataWritten, this`bodies, this`done, image`nameTable, image`names
      ensures Sending() && done == old(done) + |CtxBodiesOf(c)| && bodies == old(bodies) + CtxBodiesOf(c)
    {
      match c
      case Single(_, xml) =>
        SendNamed(xml, idx, i);
      case Control(icons, xml) =>
        SendIcons(i, icons, idx);
        SendNamed(xml, idx + |icons|, i);
    }

    method SendIcons(i: nat, icons: seq<Icon>, idx: nat)
      requires Sending() && i < |labels| && idx == done && Owned(slots, idx, |icons|, i)
      modifies this`file, this`position, this`dataWritten, this`bodies, this`done, image`nameTable, image`names
      ensures Sending() && done == old(done) + |icons| && bodies == old(bodies) + IconBodies(icons, |icons|)
    {
      var dataIdx := idx;
      for j := 0 to |icons|
        invariant Sending() && dataIdx == done == idx + j && bodies == old(bodies) + IconBodies(icons, j)
      {
        SendNamed(icons[j].data, dataIdx, i);
        dataIdx := dataIdx + 1;
      }
    }

    method SendTicket()
      requires CtxsSent() && Plan(t, slots, ctxIdx, xmlIdx)
      modifies this`file, this`position, this`dataWritten, this`bodies, this`done
      ensures AllSent()
    {
      match t.ticket
      case None =>
      case Some(k) =>
        SendUnnamed(k.tik, |t.ncas| + 1);
        SendUnnamed(k.cert, |t.ncas| + 1);
    }

    // A body whose entry keeps its name.
    method SendUnnamed(body: seq<byte>, ghost owner: nat)
      requires Sending() && done < |slots| && slots[done].owner == owner < |labels|
      requires |labels| == |AllLabels(t, t.labels)| && labels[owner] == AllLabels(t, t.labels)[owner]
      modifies this`file, this`position, this`dataWritten, this`bodies, this`done
      ensures Sending() && done == old(done) + 1 && bodies == old(bodies) + [body]
    {
      Emit(body);
      KeepName();
    }

    // All contents have been sent, the meta content last.
    ghost predicate ContentsSent()
      reads this, image
    {
      && Sending() && done == |t.ncas| + 1
      && SameFrom(labels, AllLabels(t, t.labels), |t.ncas| + 1)
      && bodies == NcaBodies(t, records) && Accounted(t, hash, records, labels)
    }

    ghost predicate XmlSent()
      reads this, image
    {
      && Sending() && done == CtxBase(t)
      && SameFrom(labels, AllLabels(t, t.labels), |t.ncas| + 1) && Accounted(t, hash, records, labels)
      && bodies == NcaBodies(t, records) + XmlBodies(t, records, labels[..|t.ncas| + 1])
    }

    ghost predicate CtxsSent()
      reads this, image
    {
      && Sending() && done == CtxBase(t) + |CtxBodies(t, Limit(t))|
      && SameFrom(labels, AllLabels(t, t.labels), |t.ncas| + 1) && Accounted(t, hash, records, labels)
      && bodies == NcaBodies(t, records) + XmlBodies(t, records, labels[..|t.ncas| + 1]) + CtxBodies(t, Limit(t))
    }

    // Everything has been sent.
    ghost predicate AllSent()
      reads this, image
    {
      && Sending() && done == |slots| && slots != []
      && Accounted(t, hash, records, labels)
      && bodies == Bodies(t, records, labels[..|t.ncas| + 1])
    }

    method SendContents() returns (ok: bool)
      requires NcasSent(0) && ticks == 0
      modifies this`ticks, this`file, this`position, this`dataWritten, this`bodies, this`records, this`labels, this`done,
               image`nameTable, image`names
      ensures ok <==> RunsTo(stops, |t.ncas| + 1) && AfterNcas(t, hash, |t.ncas|).Some?
      ensures ok ==> ContentsSent()
    {
      RunsOneMore(stops, |t.ncas|);
      ok := SendNcas();
      if ok { ok := SendMeta(); }
    }

    // Everything behind the meta content.
    method SendRest()
      requires ContentsSent() && Plan(t, slots, ctxIdx, xmlIdx)
      modifies this`file, this`position, this`dataWritten, this`bodies, this`done, image`nameTable, image`names
      ensures AllSent()
    {
      SendXml();
      SendExtra();
      SendTicket();
    }

    // Second pass: the bodies, and then the final header over the room left for it.
    method SecondPass() returns (ok: bool)
      requires NcasSent(0) && ticks == 0 && Plan(t, slots, ctxIdx, xmlIdx)
      modifies this`ticks, this`file, this`position, this`dataWritten, this`bodies, this`records, this`labels, this`done,
               image`nameTable, image`names
      ensures ok <==> RunsTo(stops, |t.ncas| + 1) && AfterNcas(t, hash, |t.ncas|).Some? && NspHeaderSize(slots) <= BLOCK_SIZE
      ensures ok ==> Assembled()
    {
      ok := SendContents();
      if !ok { return; }
      SendRest();
      ok := FinishHeader();
    }

    // rewind, and the header once more
    method FinishHeader() returns (ok: bool)
      requires AllSent()
      modifies this`file, this`dataWritten
      ensures ok <==> NspHeaderSize(slots) <= BLOCK_SIZE
      ensures ok ==> Assembled()
    {
      HeaderIs();
      var header := image.WriteHeader(BLOCK_SIZE);
      if header.None? { return false; }
      HeaderOver(file, header.value, position, nspSize, Concat(bodies));
      file := header.value + file[|header.value|..];
      dataWritten := dataWritten + |header.value|;
      return true;
    }

    // The output holds the header of the image and the bodies.
    ghost predicate Completed()
      reads this, image
    {
      && Valid() && image.entries != [] && nspSize == image.HeaderSize() + image.fsSize
      && dataWritten == image.HeaderSize() + |Concat(bodies)| <= |file|
      && |file| == (if dataWritten > nspSize then dataWritten else nspSize)
      && file[..dataWritten] == HeaderBytes(image.entries, image.nameTable) + Concat(bodies)
    }

    // All that a successful second pass has done: the records and labels follow the hashes of what
    // was sent, the bodies are those of the final records, and every name has its final label.
    ghost predicate Assembled()
      reads this, image
    {
      && Completed() && done == |slots|
      && Accounted(t, hash, records, labels)
      && bodies == Bodies(t, records, labels[..|t.ncas| + 1])
    }

    ghost predicate Finished()
      reads this, image
    {
      Assembled() && slots == Slots(t)
    }

    // nspThreadFunc succeeds exactly when nothing stops it, every content is verified and, if its
    // hash has changed, finds a record with its key, and the header fits into one block.
    method Build() returns (ok: bool)
      requires LayingOut() && slots == [] && ticks == 0
      modifies this, image
      ensures ok <==> Buildable(t, hash, stops)
      ensures ok ==> Finished()
    {
      ok := FirstPass();
      if ok { ok := SecondPass(); }
      if !ok { file := []; }
    }
  }

  // None of the first n checks finds a reason to stop.
  ghost predicate RunsTo(stops: nat -> bool, n: nat) {
    forall i :: 1 <= i <= n ==> !stops(i)
  }

  ghost predicate Buildable(t: Title, hash: seq<byte> -> Hash, stops: nat -> bool) {
    && ValidTitle(t) && NspHeaderSize(Slots(t)) <= 0x800000
    && RunsTo(stops, |t.ncas| + 1) && AfterNcas(t, hash, |t.ncas|).Some?
  }

  lemma RunsOneMore(stops: nat -> bool, n: nat)
    ensures RunsTo(stops, n + 1) <==> RunsTo(stops, n) && !stops(n + 1)
  {
  }

  // The accounting of one more content.
  lemma OneAccounted(t: Title, hash: seq<byte> -> Hash, i: nat, before: (seq<Record>, seq<Label>))
    requires ValidTitle(t) && i < |t.ncas| && AfterNcas(t, hash, i) == Some(before)
    ensures var n := t.ncas[i];
            var step := StreamStep(n, before.0, before.1[i], hash(n.content), hash(SentBytes(n)));
            AfterNcas(t, hash, i + 1) == if step.Refused? then None else Some((step.records, before.1[i := step.id]))
  {
  }

  // A content that is refused, or a check that stops, ends the second pass.
  lemma {:induction false} NoneLater(t: Title, hash: seq<byte> -> Hash, stops: nat -> bool, i: nat, n: nat)
    requires i <= n <= |t.ncas| && ValidTitle(t) && !(RunsTo(stops, i) && AfterNcas(t, hash, i).Some?)
    ensures !(RunsTo(stops, n) && AfterNcas(t, hash, n).Some?)
  {
    if i < n { NoneLater(t, hash, stops, i, n - 1); }
  }

  ghost predicate Written(file: seq<byte>, header: nat, position: nat, size: nat, data: seq<byte>) {
    && position == header + |data| <= |file|
    && file[header..position] == data
    && |file| == if position > size then position else size
  }

  lemma NothingWritten(header: nat, size: nat)
    requires header <= size
    ensures Written(Zeros(size), header, header, size, [])
  {
  }

  ghost predicate SameFrom(a: seq<Label>, b: seq<Label>, from: nat) {
    |a| == |b| && forall k :: from <= k < |a| ==> a[k] == b[k]
  }

  // The records and labels at the end of the second pass.
  ghost predicate Accounted(t: Title, hash: seq<byte> -> Hash, records: seq<Record>, labels: seq<Label>)
    requires ValidTitle(t)
  {
    var r := AfterNcas(t, hash, |t.ncas|);
    && r.Some? && |t.ncas| + 1 <= |labels|
    && records == r.value.0 && labels == MetaLabels(t, hash, records, r.value.1)
  }

  // The meta content ends the accounting.
  lemma MetaAccounted(t: Title, hash: seq<byte> -> Hash, records: seq<Record>, before: seq<Label>, labels: seq<Label>)
    requires ValidTitle(t) && AfterNcas(t, hash, |t.ncas|) == Some((records, before))
    requires labels == MetaLabels(t, hash, records, before) && SameFrom(before, AllLabels(t, t.labels), |t.ncas|)
    ensures Accounted(t, hash, records, labels) && SameFrom(labels, AllLabels(t, t.labels), |t.ncas| + 1)
  {
  }

  lemma HeaderOver(file: seq<byte>, header: seq<byte>, position: nat, size: nat, data: seq<byte>)
    requires Written(file, |header|, position, size, data)
    ensures (header + file[|header|..])[..position] == header + data
  {
  }

  // The contents' own entries come first.
  ghost predicate NcasFirst(slots: seq<Slot>, n: nat) {
    n < |slots| && forall k :: 0 <= k <= n ==> slots[k].owner == k
  }

  lemma {:induction false} NcaSlotIn(t: Title, k: nat, n: nat)
    requires k < n <= |t.ncas| + 1
    ensures NcaSlotsTo(t, n)[k] == NcaSlot(t, k)
    decreases n
  {
    if k < n - 1 { NcaSlotIn(t, k, n - 1); }
  }

  lemma NcaSlotAt(t: Title, k: nat)
    requires k <= |t.ncas|
    ensures k < |Slots(t)| && Slots(t)[k] == NcaSlot(t, k)
  {
    NcaSlotIn(t, k, |t.ncas| + 1);
    assert Slots(t)[k] == NcaSlots(t)[k];
  }

  lemma {:induction false} NcaBodyIn(t: Title, k: nat, n: nat)
    requires k < n <= |t.ncas|
    ensures NcaBodiesUpTo(t, n)[k] == SentBytes(t.ncas[k])
    decreases n
  {
    if k < n - 1 { NcaBodyIn(t, k, n - 1); }
  }

  lemma NcaBodyAt(t: Title, records: seq<Record>, labels: seq<Label>, k: nat)
    requires k <= |t.ncas|
    ensures k < |Bodies(t, records, labels)|
    ensures Bodies(t, records, labels)[k] == if k < |t.ncas| then SentBytes(t.ncas[k]) else MetaBytes(t.meta, records)
  {
    if k < |t.ncas| { NcaBodyIn(t, k, |t.ncas|); }
    assert Bodies(t, records, labels)[k] == NcaBodies(t, records)[k];
  }

  lemma NcasAreFirst(t: Title)
    ensures NcasFirst(Slots(t), |t.ncas|)
  {
    forall k | 0 <= k <= |t.ncas| ensures Slots(t)[k].owner == k { NcaSlotAt(t, k); }
  }

  lemma MoreCtxSlots(t: Title, before: seq<Slot>, i: nat)
    requires i < |t.ncas|
    ensures before + CtxSlots(t, i) + CtxSlotsOf(i, t.ncas[i].ctx) == before + CtxSlots(t, i + 1)
  {
  }

  // Where the entries of the contents' extra data begin.
  function CtxBase(t: Title): nat { |t.ncas| + 1 + if t.generateXml then 1 else 0 }

  // The saved indices lead to the entries of the contents' extra data.
  ghost predicate CtxPlan(t: Title, slots: seq<Slot>, ctxIdx: seq<nat>, base: nat)
    requires |ctxIdx| == |t.ncas|
  {
    forall i {:trigger ctxIdx[i]} {:trigger Planned(t, slots, ctxIdx, base, i)} :: 0 <= i < Limit(t) ==>
      Planned(t, slots, ctxIdx, base, i)
  }

  // All the second pass relies on: which label every entry has, and where the saved indices lead.
  ghost predicate Plan(t: Title, slots: seq<Slot>, ctxIdx: seq<nat>, xmlIdx: nat)
    requires |ctxIdx| == |t.ncas|
  {
    && NcasFirst(slots, |t.ncas|)
    && (t.generateXml ==> xmlIdx == |t.ncas| + 1 && Owned(slots, xmlIdx, 1, |t.ncas|))
    && CtxPlan(t, slots, ctxIdx, CtxBase(t))
    && |slots| == CtxBase(t) + |CtxBodies(t, Limit(t))| + |TicketBodies(t)|
    && Owned(slots, |slots| - |TicketBodies(t)|, |TicketBodies(t)|, |t.ncas| + 1)
  }

  lemma PlanHolds(t: Title, ctxIdx: seq<nat>, xmlIdx: nat)
    requires |ctxIdx| == |t.ncas| && Indexed(t, ctxIdx, CtxBase(t), Limit(t))
    requires t.generateXml ==> xmlIdx == |t.ncas| + 1
    ensures Plan(t, Slots(t), ctxIdx, xmlIdx)
  {
    NcasAreFirst(t);
    if t.generateXml { XmlSlotAt(t); }
    CtxArePlanned(t, ctxIdx);
    CtxAgree(t, Limit(t));
    TicketOwned(t);
  }

  ghost predicate Planned(t: Title, slots: seq<Slot>, ctxIdx: seq<nat>, base: nat, i: nat)
    requires i < |ctxIdx| == |t.ncas|
  {
    && Owned(slots, base + |CtxBodies(t, i)|, |CtxBodiesOf(t.ncas[i].ctx)|, i)
    && (!t.ncas[i].ctx.NoCtx? ==> ctxIdx[i] == base + |CtxBodies(t, i)|)
  }

  lemma CtxIsPlanned(t: Title, ctxIdx: seq<nat>, i: nat)
    requires |ctxIdx| == |t.ncas| && Indexed(t, ctxIdx, CtxBase(t), Limit(t)) && i < Limit(t)
    ensures Planned(t, Slots(t), ctxIdx, CtxBase(t), i)
  {
    CtxOwned(t, i);
    CtxAgree(t, i);
  }

  lemma CtxArePlanned(t: Title, ctxIdx: seq<nat>)
    requires |ctxIdx| == |t.ncas| && Indexed(t, ctxIdx, CtxBase(t), Limit(t))
    ensures CtxPlan(t, Slots(t), ctxIdx, CtxBase(t))
  {
    forall i | 0 <= i < Limit(t)
      ensures Planned(t, Slots(t), ctxIdx, CtxBase(t), i)
    {
      CtxIsPlanned(t, ctxIdx, i);
    }
  }

  lemma XmlSlotAt(t: Title)
    requires t.generateXml
    ensures Owned(Slots(t), |t.ncas| + 1, 1, |t.ncas|)
  {
    Associative(NcaSlots(t) + XmlSlots(t), CtxSlots(t, Limit(t)), TicketSlots(t));
    MiddleAt(NcaSlots(t), XmlSlots(t), CtxSlots(t, Limit(t)) + TicketSlots(t), 0);
  }

  // A run of slots with the same label.
  ghost predicate Owned(slots: seq<Slot>, from: nat, n: nat, owner: nat) {
    from + n <= |slots| && forall k :: from <= k < from + n ==> slots[k].owner == owner
  }

  lemma {:induction false} IconsOwned(owner: nat, icons: seq<Icon>, n: nat)
    requires n <= |icons|
    ensures Owned(IconSlots(owner, icons, n), 0, n, owner)
  {
    if n > 0 { IconsOwned(owner, icons, n - 1); }
  }

  lemma CtxSlotsOwned(owner: nat, c: Ctx)
    ensures |CtxSlotsOf(owner, c)| == |CtxBodiesOf(c)|
    ensures Owned(CtxSlotsOf(owner, c), 0, |CtxBodiesOf(c)|, owner)
  {
    if c.Control? { IconsOwned(owner, c.icons, |c.icons|); }
  }

  lemma OwnedWithin(a: seq<Slot>, b: seq<Slot>, c: seq<Slot>, from: nat, n: nat, owner: nat)
    requires Owned(b, from, n, owner)
    ensures Owned(a + b + c, |a| + from, n, owner)
  {
    forall k | |a| + from <= k < |a| + from + n ensures (a + b + c)[k].owner == owner {
      MiddleAt(a, b, c, k - |a|);
    }
  }

  lemma {:induction false} CtxSlotsPart(t: Title, i: nat, n: nat)
    requires i < n <= |t.ncas|
    ensures Owned(CtxSlots(t, n), |CtxSlots(t, i)|, |CtxBodiesOf(t.ncas[i].ctx)|, i)
    decreases n
  {
    var c, d := CtxSlots(t, n - 1), CtxSlotsOf(n - 1, t.ncas[n - 1].ctx);
    if i < n - 1 {
      CtxSlotsPart(t, i, n - 1);
      OwnedWithin([], c, d, |CtxSlots(t, i)|, |CtxBodiesOf(t.ncas[i].ctx)|, i);
      assert [] + c + d == c + d;
    } else {
      CtxSlotsOwned(i, t.ncas[i].ctx);
      OwnedWithin(c, d, [], 0, |d|, i);
      assert c + d + [] == c + d;
    }
  }

  lemma CtxOwned(t: Title, i: nat)
    requires i < Limit(t)
    ensures Owned(Slots(t), CtxBase(t) + |CtxSlots(t, i)|, |CtxBodiesOf(t.ncas[i].ctx)|, i)
  {
    CtxSlotsPart(t, i, Limit(t));
    OwnedWithin(NcaSlots(t) + XmlSlots(t), CtxSlots(t, Limit(t)), TicketSlots(t),
                |CtxSlots(t, i)|, |CtxBodiesOf(t.ncas[i].ctx)|, i);
  }

  lemma TicketOwned(t: Title)
    ensures |TicketSlots(t)| == |TicketBodies(t)|
    ensures |Slots(t)| == CtxBase(t) + |CtxSlots(t, Limit(t))| + |TicketSlots(t)|
    ensures Owned(Slots(t), |Slots(t)| - |TicketSlots(t)|, |TicketSlots(t)|, |t.ncas| + 1)
  {
    var front, back := NcaSlots(t) + XmlSlots(t) + CtxSlots(t, Limit(t)), TicketSlots(t);
    OwnedWithin(front, back, [], 0, |back|, |t.ncas| + 1);
    assert front + back + [] == front + back;
  }

  lemma WriteMore(file: seq<byte>, header: nat, position: nat, size: nat, data: seq<byte>, body: seq<byte>)
    requires Written(file, header, position, size, data)
    ensures var end := position + |body|;
            Written(file[..position] + body + (if end < |file| then file[end..] else []), header, end, size, data + body)
  {
    var end := position + |body|;
    var after := file[..position] + body + if end < |file| then file[end..] else [];
    assert after[..position] == file[..position];
    assert after[header..end] == file[header..position] + body;
  }
}
