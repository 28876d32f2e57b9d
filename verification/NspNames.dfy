// What the entries of a finished NSP are called and what they hold: the contents, what is generated
// for them, and the ticket with its certificate chain.

module NspNames {
  import opened Bytes
  import opened NcaPatch
  import opened NspBuilder
  import opened NspResult

  function Ascii(s: string): (b: seq<byte>)
    ensures |b| == |s|
  {
    seq(|s|, i requires 0 <= i < |s| => if s[i] < 128 as char then s[i] as int else 63)
  }

  // -------------------------------------------------------------------------------------------
  // Labels in hexadecimal

  // What a lower-case digit stands for.
  function DigitValue(c: byte): Option<nat> {
    if '0' as int <= c <= '9' as int then Some(c - '0' as int)
    else if 'a' as int <= c <= 'f' as int then Some(c - 'a' as int + 10)
    else None
  }

  // Every byte is written as two lower-case digits, its upper half first.
  lemma {:induction false} HexReadsBack(s: seq<byte>, i: nat)
    requires i < |s|
    ensures var upper, lower := DigitValue(Hex(s)[2 * i]), DigitValue(Hex(s)[2 * i + 1]);
            upper.Some? && lower.Some? && 16 * upper.value + lower.value == s[i]
  {
    if i > 0 { HexReadsBack(s[1..], i - 1); }
  }

  // -------------------------------------------------------------------------------------------
  // Entries

  // The NSP of a title has an entry of this owner and suffix, with this body.
  ghost predicate Holds(t: Title, records: seq<Record>, labels: seq<Label>, owner: nat, suffix: seq<byte>, body: seq<byte>) {
    var n := |t.ncas|;
    if owner < n then
      || (suffix == Ascii(".nca") && body == SentBytes(t.ncas[owner]))
      || (t.generateXml && ContextHolds(t.ncas[owner].ctx, suffix, body))
    else if owner == n then
      || (suffix == Ascii(".cnmt.nca") && body == MetaBytes(t.meta, records))
      || (t.generateXml && suffix == Ascii(".cnmt.xml") && body == t.cnmtXml(records, labels))
    else
      && owner == n + 1 && t.ticket.Some?
      && (|| (suffix == Ascii(".tik") && body == t.ticket.value.tik)
          || (suffix == Ascii(".cert") && body == t.ticket.value.cert))
  }

  ghost predicate ContextHolds(c: Ctx, suffix: seq<byte>, body: seq<byte>) {
    match c
    case NoCtx => false
    case Single(own, xml) => suffix == own && body == xml
    case Control(icons, xml) =>
      || (suffix == Ascii(".nacp.xml") && body == xml)
      || exists j :: 0 <= j < |icons| && suffix == Ascii(".nx.") + icons[j].language + Ascii(".jpg") && body == icons[j].data
  }

  ghost predicate AllHold(t: Title, records: seq<Record>, labels: seq<Label>, slots: seq<Slot>, bodies: seq<seq<byte>>) {
    |slots| == |bodies|
    && forall k :: 0 <= k < |slots| ==> Holds(t, records, labels, slots[k].owner, slots[k].suffix, bodies[k])
  }

  lemma HoldBoth(t: Title, records: seq<Record>, labels: seq<Label>,
                 a: seq<Slot>, b: seq<seq<byte>>, c: seq<Slot>, d: seq<seq<byte>>)
    requires AllHold(t, records, labels, a, b) && AllHold(t, records, labels, c, d)
    ensures AllHold(t, records, labels, a + c, b + d)
  {
  }

  lemma Suffixes()
    ensures NCA_SUFFIX == Ascii(".nca") && META_SUFFIX == Ascii(".cnmt.nca") && CNMT_XML_SUFFIX == Ascii(".cnmt.xml")
    ensures NACP_XML_SUFFIX == Ascii(".nacp.xml") && ICON_INFIX == Ascii(".nx.") && JPG_SUFFIX == Ascii(".jpg")
    ensures TIK_SUFFIX == Ascii(".tik") && CERT_SUFFIX == Ascii(".cert")
  {
  }

  lemma {:induction false} IconsHold(owner: nat, icons: seq<Icon>, n: nat, k: nat)
    requires k < n <= |icons|
    ensures var s := IconSlots(owner, icons, n)[k];
            && s.owner == owner && s.suffix == Ascii(".nx.") + icons[k].language + Ascii(".jpg")
            && IconBodies(icons, n)[k] == icons[k].data
  {
    Suffixes();
    if k < n - 1 { IconsHold(owner, icons, n - 1, k); }
  }

  lemma ContextsHold(owner: nat, c: Ctx, k: nat)
    requires k < |CtxSlotsOf(owner, c)|
    ensures |CtxSlotsOf(owner, c)| == |CtxBodiesOf(c)| && CtxSlotsOf(owner, c)[k].owner == owner
    ensures ContextHolds(c, CtxSlotsOf(owner, c)[k].suffix, CtxBodiesOf(c)[k])
  {
    Suffixes();
    if c.Control? && k < |c.icons| { IconsHold(owner, c.icons, |c.icons|, k); }
  }

  lemma {:induction false} CtxsHold(t: Title, records: seq<Record>, labels: seq<Label>, n: nat)
    requires n <= |t.ncas| && t.generateXml
    ensures AllHold(t, records, labels, CtxSlots(t, n), CtxBodies(t, n))
  {
    if n > 0 {
      CtxsHold(t, records, labels, n - 1);
      var c := t.ncas[n - 1].ctx;
      CtxOfAgree(n - 1, c);
      forall k | 0 <= k < |CtxSlotsOf(n - 1, c)|
        ensures Holds(t, records, labels, CtxSlotsOf(n - 1, c)[k].owner, CtxSlotsOf(n - 1, c)[k].suffix, CtxBodiesOf(c)[k])
      {
        ContextsHold(n - 1, c, k);
      }
      HoldBoth(t, records, labels, CtxSlots(t, n - 1), CtxBodies(t, n - 1), CtxSlotsOf(n - 1, c), CtxBodiesOf(c));
    }
  }

  lemma {:induction false} NcasHold(t: Title, records: seq<Record>, labels: seq<Label>, n: nat)
    requires n <= |t.ncas|
    ensures AllHold(t, records, labels, NcaSlotsTo(t, n), NcaBodiesUpTo(t, n))
  {
    Suffixes();
    if n > 0 { NcasHold(t, records, labels, n - 1); }
  }

  // Every entry is one of them.
  lemma EntriesHold(t: Title, records: seq<Record>, labels: seq<Label>)
    ensures AllHold(t, records, labels, Slots(t), Bodies(t, records, labels))
  {
    Suffixes();
    NcasHold(t, records, labels, |t.ncas|);
    if t.generateXml { CtxsHold(t, records, labels, |t.ncas|); }
    HoldBoth(t, records, labels, NcaSlotsTo(t, |t.ncas|), NcaBodiesUpTo(t, |t.ncas|), [NcaSlot(t, |t.ncas|)], [MetaBytes(t.meta, records)]);
    HoldBoth(t, records, labels, NcaSlots(t), NcaBodies(t, records), XmlSlots(t), XmlBodies(t, records, labels));
    HoldBoth(t, records, labels, NcaSlots(t) + XmlSlots(t), NcaBodies(t, records) + XmlBodies(t, records, labels),
             CtxSlots(t, Limit(t)), CtxBodies(t, Limit(t)));
    HoldBoth(t, records, labels, NcaSlots(t) + XmlSlots(t) + CtxSlots(t, Limit(t)),
             NcaBodies(t, records) + XmlBodies(t, records, labels) + CtxBodies(t, Limit(t)), TicketSlots(t), TicketBodies(t));
  }

  // -------------------------------------------------------------------------------------------
  // Nothing is missing

  // Slot and body k are these.
  ghost predicate Is(slots: seq<Slot>, bodies: seq<seq<byte>>, k: nat, owner: nat, suffix: seq<byte>, body: seq<byte>) {
    k < |slots| && k < |bodies| && slots[k].owner == owner && slots[k].suffix == suffix && bodies[k] == body
  }

  lemma IsBehind(a: seq<Slot>, b: seq<seq<byte>>, c: seq<Slot>, d: seq<seq<byte>>, k: nat, owner: nat, suffix: seq<byte>, body: seq<byte>)
    requires |a| == |b| && Is(c, d, k, owner, suffix, body)
    ensures Is(a + c, b + d, |a| + k, owner, suffix, body)
  {
  }

  lemma IsInFront(a: seq<Slot>, b: seq<seq<byte>>, c: seq<Slot>, d: seq<seq<byte>>, k: nat, owner: nat, suffix: seq<byte>, body: seq<byte>)
    requires |a| == |b| && Is(a, b, k, owner, suffix, body)
    ensures Is(a + c, b + d, k, owner, suffix, body)
  {
  }

  lemma ContextIsThere(owner: nat, c: Ctx, suffix: seq<byte>, body: seq<byte>) returns (k: nat)
    requires ContextHolds(c, suffix, body)
    ensures Is(CtxSlotsOf(owner, c), CtxBodiesOf(c), k, owner, suffix, body)
  {
    Suffixes();
    match c
    case Single(_, _) => k := 0;
    case Control(icons, xml) =>
      if suffix == Ascii(".nacp.xml") && body == xml {
        k := |icons|;
      } else {
        k :| 0 <= k < |icons| && suffix == Ascii(".nx.") + icons[k].language + Ascii(".jpg") && body == icons[k].data;
        IconsHold(owner, icons, |icons|, k);
      }
  }

  lemma {:induction false} CtxIsThere(t: Title, n: nat, owner: nat, suffix: seq<byte>, body: seq<byte>) returns (k: nat)
    requires owner < n <= |t.ncas| && ContextHolds(t.ncas[owner].ctx, suffix, body)
    ensures Is(CtxSlots(t, n), CtxBodies(t, n), k, owner, suffix, body)
  {
    var c := t.ncas[n - 1].ctx;
    CtxAgree(t, n - 1);
    if owner == n - 1 {
      k := ContextIsThere(owner, c, suffix, body);
      IsBehind(CtxSlots(t, n - 1), CtxBodies(t, n - 1), CtxSlotsOf(owner, c), CtxBodiesOf(c), k, owner, suffix, body);
      k := |CtxSlots(t, n - 1)| + k;
    } else {
      k := CtxIsThere(t, n - 1, owner, suffix, body);
      IsInFront(CtxSlots(t, n - 1), CtxBodies(t, n - 1), CtxSlotsOf(n - 1, c), CtxBodiesOf(c), k, owner, suffix, body);
    }
  }

  lemma IsThere(t: Title, records: seq<Record>, labels: seq<Label>, owner: nat, suffix: seq<byte>, body: seq<byte>)
    returns (k: nat)
    requires Holds(t, records, labels, owner, suffix, body)
    ensures Is(Slots(t), Bodies(t, records, labels), k, owner, suffix, body)
  {
    Suffixes();
    var n := |t.ncas|;
    PassesAgree(t, records, labels);
    CtxAgree(t, Limit(t));
    var a, b := NcaSlots(t) + XmlSlots(t), NcaBodies(t, records) + XmlBodies(t, records, labels);
    var c, d := CtxSlots(t, Limit(t)), CtxBodies(t, Limit(t));
    if owner > n {
      k := if suffix == TIK_SUFFIX && body == t.ticket.value.tik then 0 else 1;
      IsBehind(a + c, b + d, TicketSlots(t), TicketBodies(t), k, owner, suffix, body);
      k := |a + c| + k;
    } else if t.generateXml && owner < n && ContextHolds(t.ncas[owner].ctx, suffix, body) {
      k := CtxIsThere(t, n, owner, suffix, body);
      IsBehind(a, b, c, d, k, owner, suffix, body);
      k := |a| + k;
      IsInFront(a + c, b + d, TicketSlots(t), TicketBodies(t), k, owner, suffix, body);
    } else if owner == n && t.generateXml && suffix == CNMT_XML_SUFFIX && body == t.cnmtXml(records, labels) {
      k := n + 1;
      IsInFront(a, b, c, d, k, owner, suffix, body);
      IsInFront(a + c, b + d, TicketSlots(t), TicketBodies(t), k, owner, suffix, body);
    } else {
      k := owner;
      NcaSlotAt(t, owner);
      NcaBodyAt(t, records, labels, owner);
    }
  }

  // A finished NSP holds every content, what is generated for it, and the ticket with its
  // certificate chain, each under its own suffix, and nothing else.
  lemma EntriesAreThese(b: Builder, owner: nat, suffix: seq<byte>, body: seq<byte>)
    requires b.Finished()
    ensures |b.t.ncas| + 1 <= |b.labels|
    ensures (exists k :: Is(b.slots, b.bodies, k, owner, suffix, body))
       <==> Holds(b.t, b.records, b.labels[..|b.t.ncas| + 1], owner, suffix, body)
  {
    var labels := b.labels[..|b.t.ncas| + 1];
    EntriesHold(b.t, b.records, labels);
    if Holds(b.t, b.records, labels, owner, suffix, body) {
      var k := IsThere(b.t, b.records, labels, owner, suffix, body);
    }
  }

  // The ticket and its certificate chain are named by the rights ID.
  lemma TicketIsNamedByRights(b: Builder)
    requires b.Finished() && b.t.ticket.Some?
    ensures |b.labels| == |b.t.ncas| + 2 && b.labels[|b.t.ncas| + 1] == b.t.ticket.value.rights
  {
    LabelsFollowHashes(b.t, b.hash, |b.t.ncas|, |b.t.ncas| + 1);
  }
}
