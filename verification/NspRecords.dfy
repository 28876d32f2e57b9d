// The content records of a finished NSP: which of them tell the hash and the label of the content
// they belong to, when records are looked up by their ID and updated by size, type and ID offset.

module NspRecords {
  import opened Bytes
  import opened NcaPatch
  import opened NspBuilder

  // The hashes of what is sent for each content.
  function SentHashes(t: Title, hash: seq<byte> -> Hash): (h: seq<Hash>)
    ensures |h| == |t.ncas| && forall i :: 0 <= i < |h| ==> h[i] == hash(SentBytes(t.ncas[i]))
  {
    seq<Hash>(|t.ncas|, i requires 0 <= i < |t.ncas| => hash(SentBytes(t.ncas[i])))
  }

  function CleanHashes(t: Title, hash: seq<byte> -> Hash): (h: seq<Hash>)
    ensures |h| == |t.ncas| && forall i :: 0 <= i < |h| ==> h[i] == hash(t.ncas[i].content)
  {
    seq<Hash>(|t.ncas|, i requires 0 <= i < |t.ncas| => hash(t.ncas[i].content))
  }

  // A title with the hashes of its contents, before and after patching.
  predicate Hashed(t: Title, clean: seq<Hash>, sent: seq<Hash>) {
    ValidTitle(t) && |t.ncas| == |clean| == |sent|
  }

  predicate Changed(clean: seq<Hash>, sent: seq<Hash>, i: nat) {
    i < |clean| && i < |sent| && clean[i] != sent[i]
  }

  // The records and labels after n contents, as a function of the hashes alone.
  function After(t: Title, clean: seq<Hash>, sent: seq<Hash>, n: nat): (r: Option<(seq<Record>, seq<Label>)>)
    requires Hashed(t, clean, sent) && n <= |t.ncas|
    ensures r.Some? ==> |r.value.1| > |t.ncas|
  {
    if n == 0 then Some((t.records, AllLabels(t, t.labels)))
    else
      match After(t, clean, sent, n - 1)
      case None => None
      case Some(before) =>
        match StreamStep(t.ncas[n - 1], before.0, before.1[n - 1], clean[n - 1], sent[n - 1])
        case Refused => None
        case Streamed(records, id) => Some((records, before.1[n - 1 := id]))
  }

  lemma {:induction false} AfterIsAfter(t: Title, hash: seq<byte> -> Hash, n: nat)
    requires n <= |t.ncas| && ValidTitle(t)
    ensures AfterNcas(t, hash, n) == After(t, CleanHashes(t, hash), SentHashes(t, hash), n)
  {
    if n > 0 { AfterIsAfter(t, hash, n - 1); }
  }

  lemma {:induction false} AfterBefore(t: Title, clean: seq<Hash>, sent: seq<Hash>, m: nat, n: nat)
    requires Hashed(t, clean, sent) && m <= n <= |t.ncas| && After(t, clean, sent, n).Some?
    ensures After(t, clean, sent, m).Some?
  {
    if m < n { AfterBefore(t, clean, sent, m, n - 1); }
  }

  // The label of a content is still the first one before it is streamed, and final afterwards.
  lemma {:induction false} LabelsAre(t: Title, clean: seq<Hash>, sent: seq<Hash>, n: nat, i: nat)
    requires Hashed(t, clean, sent) && n <= |t.ncas| && i <= |t.ncas| && After(t, clean, sent, n).Some?
    ensures After(t, clean, sent, n).value.1[i] == if i < n && Changed(clean, sent, i) then IdOf(sent[i]) else t.labels[i]
    decreases n
  {
    if n > 0 { LabelsAre(t, clean, sent, n - 1, i); }
  }

  // -------------------------------------------------------------------------------------------
  // Who writes a record

  // The record of a content, and the one that is updated for it.
  function Own(t: Title, i: nat): nat
    requires i < |t.labels|
  {
    IndexById(t.records, t.labels[i])
  }

  function Keyed(t: Title, i: nat): nat
    requires i < |t.ncas|
  {
    IndexByKey(t.records, t.ncas[i])
  }

  predicate Writes(t: Title, clean: seq<Hash>, sent: seq<Hash>, i: nat, k: nat) {
    i < |t.ncas| && Changed(clean, sent, i) && Keyed(t, i) == k
  }

  // The last of the first n contents that record k is updated for, or -1.
  function Writer(t: Title, clean: seq<Hash>, sent: seq<Hash>, n: nat, k: nat): (w: int)
    ensures -1 <= w < n && (w >= 0 ==> Writes(t, clean, sent, w, k))
    ensures forall i {:trigger Writes(t, clean, sent, i, k)} :: 0 <= i < n && Writes(t, clean, sent, i, k) ==> i <= w
  {
    if n == 0 then -1 else if Writes(t, clean, sent, n - 1, k) then n - 1 else Writer(t, clean, sent, n - 1, k)
  }

  function Updated(r: Record, sent: seq<Hash>, w: int): Record
    requires w < |sent|
  {
    if w < 0 then r else r.(hash := sent[w], id := IdOf(sent[w]))
  }

  // Updates keep the keys, and so they keep who is found by them.
  ghost predicate SameRecordKeys(a: seq<Record>, b: seq<Record>) {
    |a| == |b|
    && forall k {:trigger a[k]} :: 0 <= k < |a| ==> a[k].size == b[k].size && a[k].kind == b[k].kind && a[k].idOffset == b[k].idOffset
  }

  lemma SameKeysFound(a: seq<Record>, b: seq<Record>, n: Nca)
    requires SameRecordKeys(a, b)
    ensures IndexByKey(a, n) == IndexByKey(b, n)
  {
    var x, y := IndexByKey(a, n), IndexByKey(b, n);
    assert x < |a| ==> SameKey(b[x], n);
    assert y < |b| ==> SameKey(a[y], n);
  }

  // What the records are after n contents, without looking at their IDs.
  ghost predicate Followed(t: Title, clean: seq<Hash>, sent: seq<Hash>, records: seq<Record>, n: nat)
    requires Hashed(t, clean, sent) && n <= |t.ncas|
  {
    && SameRecordKeys(records, t.records)
    && (forall k: nat {:trigger records[k]} :: k < |records| ==>
          records[k] == Updated(t.records[k], sent, Writer(t, clean, sent, n, k)))
  }

  lemma FollowedOne(t: Title, clean: seq<Hash>, sent: seq<Hash>, records: seq<Record>, after: seq<Record>, n: nat)
    requires Hashed(t, clean, sent) && n < |t.ncas| && Followed(t, clean, sent, records, n)
    requires var u := Keyed(t, n);
             if clean[n] == sent[n] then after == records
             else u < |records| && after == records[u := records[u].(hash := sent[n], id := IdOf(sent[n]))]
    ensures Followed(t, clean, sent, after, n + 1)
  {
    forall k: nat | k < |after|
      ensures after[k] == Updated(t.records[k], sent, Writer(t, clean, sent, n + 1, k))
    {
      assert records[k] == Updated(t.records[k], sent, Writer(t, clean, sent, n, k));
    }
  }

  lemma StepFollows(t: Title, clean: seq<Hash>, sent: seq<Hash>, records: seq<Record>, id: Label, n: nat)
    requires Hashed(t, clean, sent) && n < |t.ncas| && Followed(t, clean, sent, records, n)
    ensures var r := StreamStep(t.ncas[n], records, id, clean[n], sent[n]);
            r.Streamed? ==> Followed(t, clean, sent, r.records, n + 1)
  {
    SameKeysFound(records, t.records, t.ncas[n]);
    var r := StreamStep(t.ncas[n], records, id, clean[n], sent[n]);
    if r.Streamed? { FollowedOne(t, clean, sent, records, r.records, n); }
  }

  // The records after n contents are the updated ones.
  ghost predicate FollowedAfter(t: Title, clean: seq<Hash>, sent: seq<Hash>, n: nat)
    requires Hashed(t, clean, sent) && n <= |t.ncas|
  {
    After(t, clean, sent, n).Some? && Followed(t, clean, sent, After(t, clean, sent, n).value.0, n)
  }

  lemma FollowedNext(t: Title, clean: seq<Hash>, sent: seq<Hash>, n: nat)
    requires Hashed(t, clean, sent) && n < |t.ncas| && After(t, clean, sent, n + 1).Some?
    requires FollowedAfter(t, clean, sent, n)
    ensures FollowedAfter(t, clean, sent, n + 1)
  {
    var before := After(t, clean, sent, n).value;
    StepFollows(t, clean, sent, before.0, before.1[n], n);
  }

  lemma {:induction false} RecordsFollow(t: Title, clean: seq<Hash>, sent: seq<Hash>, n: nat)
    requires Hashed(t, clean, sent) && n <= |t.ncas| && After(t, clean, sent, n).Some?
    ensures FollowedAfter(t, clean, sent, n)
  {
    if n > 0 {
      AfterBefore(t, clean, sent, n - 1, n);
      RecordsFollow(t, clean, sent, n - 1);
      FollowedNext(t, clean, sent, n - 1);
    } else {
      FollowedNone(t, clean, sent);
    }
  }

  lemma FollowedNone(t: Title, clean: seq<Hash>, sent: seq<Hash>)
    requires Hashed(t, clean, sent)
    ensures Followed(t, clean, sent, t.records, 0)
  {
  }

  // -------------------------------------------------------------------------------------------
  // Titles whose IDs tell contents apart

  predicate IdsDiffer(t: Title, a: nat, b: nat) {
    a < b < |t.records| ==> t.records[a].id != t.records[b].id
  }

  predicate LabelsDiffer(t: Title, i: nat, j: nat)
    requires ValidTitle(t)
  {
    i < j < |t.ncas| ==> t.labels[i] != t.labels[j]
  }

  predicate OwnKey(t: Title, i: nat)
    requires ValidTitle(t)
  {
    i < |t.ncas| && Own(t, i) < |t.records| ==> SameKey(t.records[Own(t, i)], t.ncas[i])
  }

  predicate NewLabel(t: Title, clean: seq<Hash>, sent: seq<Hash>, i: nat)
    requires Hashed(t, clean, sent)
  {
    i < |t.ncas| && Changed(clean, sent, i) ==>
      && (forall k :: 0 <= k < |t.records| ==> t.records[k].id != sent[i][..16])
      && (forall j :: 0 <= j < |t.ncas| ==> t.labels[j] != sent[i][..16])
      && (forall j :: 0 <= j < |t.ncas| && j != i && Changed(clean, sent, j) ==> sent[j][..16] != sent[i][..16])
  }

  // No two records have one ID and no two contents one label; a record with the label of a content
  // describes that content; and the hashes of changed contents make labels that are new.
  ghost predicate Distinguished(t: Title, clean: seq<Hash>, sent: seq<Hash>)
    requires Hashed(t, clean, sent)
  {
    && (forall a: nat, b: nat :: IdsDiffer(t, a, b))
    && (forall i: nat, j: nat :: LabelsDiffer(t, i, j))
    && (forall i: nat :: OwnKey(t, i))
    && (forall i: nat :: NewLabel(t, clean, sent, i))
  }

  lemma UpdatedId(t: Title, clean: seq<Hash>, sent: seq<Hash>, n: nat, k: nat, i: nat)
    requires Hashed(t, clean, sent) && Distinguished(t, clean, sent) && k < |t.records| && n <= |t.ncas| && i < |t.ncas|
    ensures var r := Updated(t.records[k], sent, Writer(t, clean, sent, n, k));
            r.id == t.labels[i] <==> Writer(t, clean, sent, n, k) < 0 && t.records[k].id == t.labels[i]
  {
    var w := Writer(t, clean, sent, n, k);
    if w >= 0 { assert NewLabel(t, clean, sent, w); }
  }

  // A content that is not refused has its own record, with its hash, which no content before it
  // has taken.
  lemma Verified(t: Title, clean: seq<Hash>, sent: seq<Hash>, i: nat)
    requires Hashed(t, clean, sent) && Distinguished(t, clean, sent) && i < |t.ncas| && After(t, clean, sent, i + 1).Some?
    ensures Own(t, i) < |t.records| && t.records[Own(t, i)].hash == clean[i]
    ensures Writer(t, clean, sent, i, Own(t, i)) < 0
  {
    RecordsFollow(t, clean, sent, i);
    LabelsAre(t, clean, sent, i, i);
    var records := After(t, clean, sent, i).value.0;
    var m := IndexById(records, t.labels[i]);
    assert records[m] == Updated(t.records[m], sent, Writer(t, clean, sent, i, m));
    UpdatedId(t, clean, sent, i, m, i);
    var own := Own(t, i);
    assert IdsDiffer(t, own, m);
  }

  // The content's own record tells the hash of what was sent for it, and its final label.
  predicate Recorded(t: Title, clean: seq<Hash>, sent: seq<Hash>, records: seq<Record>, i: nat)
    requires Hashed(t, clean, sent) && i < |t.ncas|
  {
    var k := Own(t, i);
    && k < |records| && records[k].hash == sent[i]
    && records[k].id == if Changed(clean, sent, i) then sent[i][..16] else t.labels[i]
  }

  // A content is recorded exactly when its update, if it needs one, meets its own record, and no
  // other content's does.
  lemma RecordedIff(t: Title, clean: seq<Hash>, sent: seq<Hash>, i: nat)
    requires Hashed(t, clean, sent) && Distinguished(t, clean, sent) && i < |t.ncas|
    requires After(t, clean, sent, |t.ncas|).Some?
    ensures Recorded(t, clean, sent, After(t, clean, sent, |t.ncas|).value.0, i)
       <==> && (Changed(clean, sent, i) ==> Keyed(t, i) == Own(t, i))
            && (forall j: nat {:trigger Writes(t, clean, sent, j, Own(t, i))} ::
                  j != i ==> !Writes(t, clean, sent, j, Own(t, i)))
  {
    var n, own := |t.ncas|, Own(t, i);
    AfterBefore(t, clean, sent, i + 1, n);
    Verified(t, clean, sent, i);
    RecordsFollow(t, clean, sent, n);
    var records := After(t, clean, sent, n).value.0;
    var w := Writer(t, clean, sent, n, own);
    assert records[own] == Updated(t.records[own], sent, w);
    if w >= 0 && w != i {
      assert Writes(t, clean, sent, w, own);
      assert NewLabel(t, clean, sent, w) && NewLabel(t, clean, sent, i);
    }
    if Changed(clean, sent, i) { assert Writes(t, clean, sent, i, own) <==> Keyed(t, i) == own; }
  }

  // No record in front of the content's own one has its size, type and ID offset.
  predicate FirstOfItsKey(t: Title, i: nat)
    requires ValidTitle(t) && i < |t.ncas|
  {
    var n := t.ncas[i];
    forall k :: 0 <= k < Own(t, i) && k < |t.records| ==>
      !(t.records[k].size == |n.content| && t.records[k].kind == n.kind && t.records[k].idOffset == n.idOffset)
  }

  lemma FirstIsKeyed(t: Title, clean: seq<Hash>, sent: seq<Hash>, i: nat)
    requires Hashed(t, clean, sent) && Distinguished(t, clean, sent) && i < |t.ncas| && After(t, clean, sent, i + 1).Some?
    ensures FirstOfItsKey(t, i) <==> Keyed(t, i) == Own(t, i)
  {
    Verified(t, clean, sent, i);
    assert OwnKey(t, i);
  }

  lemma OwnsDiffer(t: Title, clean: seq<Hash>, sent: seq<Hash>, i: nat, j: nat)
    requires Hashed(t, clean, sent) && Distinguished(t, clean, sent) && i < |t.ncas| && j < |t.ncas| && i != j
    requires After(t, clean, sent, i + 1).Some? && After(t, clean, sent, j + 1).Some?
    ensures Own(t, i) != Own(t, j)
  {
    Verified(t, clean, sent, i);
    Verified(t, clean, sent, j);
    assert LabelsDiffer(t, i, j) && LabelsDiffer(t, j, i);
  }

  // All contents are recorded exactly when every changed one is the first of its key.
  lemma AllRecordedIff(t: Title, clean: seq<Hash>, sent: seq<Hash>)
    requires Hashed(t, clean, sent) && Distinguished(t, clean, sent) && After(t, clean, sent, |t.ncas|).Some?
    ensures (forall i: nat :: i < |t.ncas| ==> Recorded(t, clean, sent, After(t, clean, sent, |t.ncas|).value.0, i))
       <==> (forall i: nat :: i < |t.ncas| && Changed(clean, sent, i) ==> FirstOfItsKey(t, i))
  {
    var records := After(t, clean, sent, |t.ncas|).value.0;
    forall i: nat | i < |t.ncas|
      ensures FirstOfItsKey(t, i) <==> Keyed(t, i) == Own(t, i)
      ensures Recorded(t, clean, sent, records, i) ==> Changed(clean, sent, i) ==> Keyed(t, i) == Own(t, i)
    {
      AfterBefore(t, clean, sent, i + 1, |t.ncas|);
      FirstIsKeyed(t, clean, sent, i);
      RecordedIff(t, clean, sent, i);
    }
    if forall i: nat :: i < |t.ncas| && Changed(clean, sent, i) ==> FirstOfItsKey(t, i) {
      forall i: nat | i < |t.ncas|
        ensures Recorded(t, clean, sent, records, i)
      {
        ThenRecorded(t, clean, sent, i);
      }
    }
  }

  lemma ThenRecorded(t: Title, clean: seq<Hash>, sent: seq<Hash>, i: nat)
    requires Hashed(t, clean, sent) && Distinguished(t, clean, sent) && After(t, clean, sent, |t.ncas|).Some? && i < |t.ncas|
    requires forall j: nat :: j < |t.ncas| && Changed(clean, sent, j) ==> FirstOfItsKey(t, j)
    ensures Recorded(t, clean, sent, After(t, clean, sent, |t.ncas|).value.0, i)
  {
    AfterBefore(t, clean, sent, i + 1, |t.ncas|);
    FirstIsKeyed(t, clean, sent, i);
    forall j: nat | j != i
      ensures !Writes(t, clean, sent, j, Own(t, i))
    {
      if j < |t.ncas| && Changed(clean, sent, j) {
        AfterBefore(t, clean, sent, j + 1, |t.ncas|);
        FirstIsKeyed(t, clean, sent, j);
        OwnsDiffer(t, clean, sent, i, j);
      }
    }
    RecordedIff(t, clean, sent, i);
  }

  // -------------------------------------------------------------------------------------------
  // Main results

  // The title of a finished build, with the hashes it has seen.
  ghost predicate FinishedWith(b: Builder, clean: seq<Hash>, sent: seq<Hash>)
    reads b, b.image
  {
    b.Finished() && clean == CleanHashes(b.t, b.hash) && sent == SentHashes(b.t, b.hash)
  }

  // The label of a content in the finished NSP, and what its body hashes to.
  lemma ContentLabel(b: Builder, clean: seq<Hash>, sent: seq<Hash>, i: nat)
    requires FinishedWith(b, clean, sent) && i < |b.t.ncas|
    ensures |b.t.ncas| < |b.bodies| && |b.t.ncas| < |b.labels| && b.hash(b.bodies[i]) == sent[i]
    ensures b.labels[i] == if Changed(clean, sent, i) then sent[i][..16] else b.t.labels[i]
  {
    AfterIsAfter(b.t, b.hash, |b.t.ncas|);
    NcaBodyAt(b.t, b.records, b.labels[..|b.t.ncas| + 1], i);
    LabelsAre(b.t, clean, sent, |b.t.ncas|, i);
  }

  // The content meta that is sent, last of all, is patched from records; every other content is in
  // them, by the hash of the bytes sent for it and the label it is named by, exactly when no record
  // in front of a changed content's own one has that content's size, type and ID offset.
  lemma MetaRecordsAllIff(b: Builder, clean: seq<Hash>, sent: seq<Hash>)
    requires FinishedWith(b, clean, sent) && Distinguished(b.t, clean, sent)
    ensures |b.t.ncas| < |b.bodies| && |b.t.ncas| < |b.labels|
    ensures b.bodies[|b.t.ncas|] == MetaBytes(b.t.meta, b.records)
    ensures forall i: nat :: i < |b.t.ncas| ==> b.labels[i] == if Changed(clean, sent, i) then sent[i][..16] else b.t.labels[i]
    ensures (forall i: nat :: i < |b.t.ncas| ==>
               var k := Own(b.t, i);
               k < |b.records| && b.records[k].hash == b.hash(b.bodies[i]) && b.records[k].id == b.labels[i])
       <==> (forall i: nat :: i < |b.t.ncas| && Changed(clean, sent, i) ==> FirstOfItsKey(b.t, i))
  {
    var t := b.t;
    AfterIsAfter(t, b.hash, |t.ncas|);
    AllRecordedIff(t, clean, sent);
    NcaBodyAt(t, b.records, b.labels[..|t.ncas| + 1], |t.ncas|);
    forall i: nat | i < |t.ncas|
      ensures b.labels[i] == if Changed(clean, sent, i) then sent[i][..16] else t.labels[i]
      ensures Recorded(t, clean, sent, b.records, i) <==>
                var k := Own(t, i);
                k < |b.records| && b.records[k].hash == b.hash(b.bodies[i]) && b.records[k].id == b.labels[i]
    {
      ContentLabel(b, clean, sent, i);
    }
  }

  // -------------------------------------------------------------------------------------------
  // A title that loses a hash

  // A hash that shows the first byte.
  function FirstByte(s: seq<byte>): Hash {
    seq<byte>(32, _ => if s == [] then 0 else s[0])
  }

  function Same(b: byte): Label { seq<byte>(16, _ => b) }

  // A content of one byte that a patch replaces by another.
  function OneByte(from: byte, to: byte): Nca {
    Nca(0, 0, [from], true, [], [Region(0, [to])], NoCtx)
  }

  function RecordOf(b: byte): Record { Record(Same(b), FirstByte([b]), 1, 0, 0) }

  // Two contents of one size, type and ID offset.
  function TwoAlike(): Title {
    Title([OneByte(1, 3), OneByte(2, 4)], [Same(1), Same(2), Same(5)], [RecordOf(1), RecordOf(2)],
          Meta([5], _ => false, _ => [], _ => []), false, (_, _) => [], None)
  }

  lemma OneByteSends(from: byte, to: byte)
    ensures SentBytes(OneByte(from, to)) == [to]
  {
    var n := OneByte(from, to);
    var r := n.patch[0];
    assert n.patch[..0] == [];
    assert At(Patched(n.content, n.header)[0], n.patch, 0, 1) == to;
  }

  lemma TwoAlikeHashes()
    ensures var t := TwoAlike();
            && Hashed(t, [FirstByte([1]), FirstByte([2])], [FirstByte([3]), FirstByte([4])])
            && CleanHashes(t, FirstByte) == [FirstByte([1]), FirstByte([2])]
            && SentHashes(t, FirstByte) == [FirstByte([3]), FirstByte([4])]
  {
    var t := TwoAlike();
    OneByteSends(1, 3);
    OneByteSends(2, 4);
    PairOf(CleanHashes(t, FirstByte), FirstByte([1]), FirstByte([2]));
    PairOf(SentHashes(t, FirstByte), FirstByte([3]), FirstByte([4]));
  }

  lemma PairOf(s: seq<Hash>, a: Hash, b: Hash)
    requires |s| == 2 && s[0] == a && s[1] == b
    ensures s == [a, b]
  {
  }

  lemma IdsOf(a: byte, b: byte)
    ensures IdOf(FirstByte([a])) == Same(a)
    ensures FirstByte([a]) == FirstByte([b]) <==> a == b
    ensures Same(a) == Same(b) <==> a == b
  {
    assert FirstByte([a])[0] == a && FirstByte([b])[0] == b;
    assert Same(a)[0] == a && Same(b)[0] == b;
  }

  // The second content takes the record of the first.
  lemma SecondTakesFirst()
    ensures var t, sent := TwoAlike(), [FirstByte([3]), FirstByte([4])];
            var r := After(t, [FirstByte([1]), FirstByte([2])], sent, 2);
            && r.Some? && r.value.0 == [RecordOf(4), RecordOf(2)]
  {
    var t := TwoAlike();
    IdsOf(1, 3);
    IdsOf(2, 4);
    IdsOf(3, 2);
    IdsOf(1, 2);
    IdsOf(4, 2);
    var clean, sent := [FirstByte([1]), FirstByte([2])], [FirstByte([3]), FirstByte([4])];
    assert IndexById(t.records, Same(1)) == 0 && IndexByKey(t.records, t.ncas[0]) == 0;
    var mid := [RecordOf(3), RecordOf(2)];
    assert AllLabels(t, t.labels) == [Same(1), Same(2), Same(5)];
    assert t.records[0 := RecordOf(3)] == mid && [Same(1), Same(2), Same(5)][0 := Same(3)] == [Same(3), Same(2), Same(5)];
    assert After(t, clean, sent, 1) == Some((mid, [Same(3), Same(2), Same(5)]));
    assert IndexById(mid, Same(2)) == 1 && IndexByKey(mid, t.ncas[1]) == 0;
    assert mid[0 := RecordOf(4)] == [RecordOf(4), RecordOf(2)];
  }

  // Once its NSP is finished, the hash of what was sent for the first content is in no record of the
  // content meta.
  lemma FirstHashIsLost(b: Builder)
    requires b.Finished() && b.t == TwoAlike() && b.hash == FirstByte
    ensures |b.bodies| > 0
    ensures forall k :: 0 <= k < |b.records| ==> b.records[k].hash != b.hash(b.bodies[0])
  {
    FirstBodyIs(b);
    RecordsLeft(b);
    IdsOf(3, 4);
    IdsOf(3, 2);
  }

  lemma FirstBodyIs(b: Builder)
    requires b.Finished() && b.t == TwoAlike()
    ensures |b.bodies| > 0 && b.bodies[0] == [3]
  {
    NcaBodyAt(b.t, b.records, b.labels[..|b.t.ncas| + 1], 0);
    OneByteSends(1, 3);
  }

  lemma RecordsLeft(b: Builder)
    requires b.Finished() && b.t == TwoAlike() && b.hash == FirstByte
    ensures b.records == [RecordOf(4), RecordOf(2)]
  {
    TwoAlikeHashes();
    SecondTakesFirst();
    AfterIsAfter(b.t, FirstByte, 2);
  }

  // And its NSP is finished, when nothing stops it.
  method LosesAHash() returns (b: Builder, ok: bool)
    ensures ok && b.Finished() && b.t == TwoAlike() && b.hash == FirstByte
  {
    b := new Builder(TwoAlike(), FirstByte, _ => false);
    TwoAlikeBuilds(b.stops);
    ok := b.Build();
  }

  lemma TwoAlikeBuilds(stops: nat -> bool)
    requires forall i: nat :: !stops(i)
    ensures Buildable(TwoAlike(), FirstByte, stops)
  {
    TwoAlikeHashes();
    SecondTakesFirst();
    AfterIsAfter(TwoAlike(), FirstByte, 2);
    TwoAlikeHeader();
  }

  lemma TwoAlikeHeader()
    ensures NspHeaderSize(Slots(TwoAlike())) <= BLOCK_SIZE
  {
    var t := TwoAlike();
    var a, b, c := NcaSlot(t, 0), NcaSlot(t, 1), NcaSlot(t, 2);
    assert NcaSlotsTo(t, 1) == [] + [a];
    assert NcaSlotsTo(t, 2) == NcaSlotsTo(t, 1) + [b];
    assert NcaSlotsTo(t, 3) == NcaSlotsTo(t, 2) + [c];
    assert Slots(t) == [a, b, c];
    RoomOfThree(a, b, c);
  }

  lemma RoomOfThree(a: Slot, b: Slot, c: Slot)
    ensures NameRoom([a, b, c]) == 99 + |a.suffix| + |b.suffix| + |c.suffix|
  {
    assert [a, b, c][..2] == [a, b] && [a, b][..1] == [a] && [a][..0] == [];
    assert NameRoom([a]) == 33 + |a.suffix|;
    assert NameRoom([a, b]) == NameRoom([a]) + 33 + |b.suffix|;
  }
}
