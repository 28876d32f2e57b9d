// Patches that are written into content while it is streamed (nca.c, cnmt.c): whatever the block
// size, what is sent is the content with every patch region put over it.

module NcaPatch {
  import opened Bytes

  datatype Region = Region(offset: nat, data: seq<byte>)

  predicate Usable(r: Region, contentSize: nat) {
    r.data != [] && r.offset + |r.data| <= contentSize
  }

  predicate Covers(r: Region, p: nat, contentSize: nat) {
    Usable(r, contentSize) && r.offset <= p < r.offset + |r.data|
  }

  // A byte of the patched content: the last region over it wins.
  function At(b: byte, regions: seq<Region>, p: nat, contentSize: nat): byte {
    if regions == [] then b
    else
      var r := regions[|regions| - 1];
      if Covers(r, p, contentSize) then r.data[p - r.offset]
      else At(b, regions[..|regions| - 1], p, contentSize)
  }

  // The whole patched content.
  function Patched(content: seq<byte>, regions: seq<Region>): (s: seq<byte>)
    ensures |s| == |content| && forall p :: 0 <= p < |content| ==> s[p] == At(content[p], regions, p, |content|)
  {
    seq<byte>(|content|, p requires 0 <= p < |content| => At(content[p], regions, p, |content|))
  }

  // ncaWritePatchToMemoryBuffer: overwrites what the buffer and the region have in common, and tells
  // whether the region's end has been written.
  method WriteRegion(r: Region, contentSize: nat, buf: array<byte>, size: nat, offset: nat) returns (done: bool)
    requires size <= buf.Length
    modifies buf
    ensures forall k :: 0 <= k < size ==>
              buf[k] == if Covers(r, offset + k, contentSize) then r.data[offset + k - r.offset] else old(buf[k])
    ensures forall k :: size <= k < buf.Length ==> buf[k] == old(buf[k])
    ensures done <==> Usable(r, contentSize) && r.offset < offset + size && offset < r.offset + |r.data| <= offset + size
  {
    if r.data == [] || r.offset + |r.data| > contentSize || offset + size <= r.offset || r.offset + |r.data| <= offset {
      return false;
    }
    var patchBlockOffset := if r.offset < offset then offset - r.offset else 0;
    var patchRemaining := |r.data| - patchBlockOffset;
    var bufBlockOffset := if offset < r.offset then r.offset - offset else 0;
    var bufRemaining := size - bufBlockOffset;
    var blockSize := if bufRemaining < patchRemaining then bufRemaining else patchRemaining;
    forall i | 0 <= i < blockSize { buf[bufBlockOffset + i] := r.data[patchBlockOffset + i]; }
    return patchBlockOffset + blockSize == |r.data|;
  }

  class Patch {
    const regions: seq<Region>
    const contentSize: nat
    var done: seq<bool>
    var written: bool

    constructor (regions: seq<Region>, contentSize: nat)
      ensures this.regions == regions && this.contentSize == contentSize && Valid(0) && !written
    {
      this.regions, this.contentSize := regions, contentSize;
      done, written := seq(|regions|, _ => false), false;
    }

    // Everything before `offset` has been streamed: the regions that end there are done.
    ghost predicate Valid(offset: nat)
      reads this
    {
      && |done| == |regions|
      && (forall i :: 0 <= i < |regions| ==> (done[i] <==> Ended(regions[i], offset)))
      && (written ==> forall i :: 0 <= i < |regions| ==> done[i])
    }

    predicate Ended(r: Region, offset: nat) {
      Usable(r, contentSize) && r.offset + |r.data| <= offset
    }

    // ncaWriteHierarchicalSha256PatchToMemoryBuffer and its siblings
    method WriteToBuffer(buf: array<byte>, size: nat, offset: nat)
      requires Valid(offset) && 0 < size <= buf.Length && offset + size <= contentSize
      modifies this`done, this`written, buf
      ensures Valid(offset + size)
      ensures forall k :: 0 <= k < size ==> buf[k] == At(old(buf[k]), regions, offset + k, contentSize)
      ensures forall k :: size <= k < buf.Length ==> buf[k] == old(buf[k])
      ensures written <==> (old(written) || (forall i :: 0 <= i < |regions| ==> Ended(regions[i], offset + size)))
    {
      ghost var was := buf[..];
      if written {
        forall k | 0 <= k < size ensures buf[k] == At(buf[k], regions, offset + k, contentSize) {
          Untouched(buf[k], regions, offset + k, contentSize);
        }
        return;
      }
      var all := true;
      for i := 0 to |regions|
        invariant |done| == |regions|
        invariant forall j :: 0 <= j < i ==> (done[j] <==> Ended(regions[j], offset + size))
        invariant forall j :: i <= j < |regions| ==> (done[j] <==> Ended(regions[j], offset))
        invariant all <==> forall j :: 0 <= j < i ==> done[j]
        invariant forall k :: 0 <= k < size ==> buf[k] == At(was[k], regions[..i], offset + k, contentSize)
        invariant forall k :: size <= k < buf.Length ==> buf[k] == was[k]
        invariant !written
      {
        assert regions[..i + 1][..i] == regions[..i];
        if !done[i] {
          var d := WriteRegion(regions[i], contentSize, buf, size, offset);
          done := done[i := d];
          if !d { all := false; }
        }
      }
      assert regions[..|regions|] == regions;
      written := all;
    }
  }

  lemma {:induction false} Untouched(b: byte, regions: seq<Region>, p: nat, contentSize: nat)
    requires forall i :: 0 <= i < |regions| ==> !Covers(regions[i], p, contentSize)
    ensures At(b, regions, p, contentSize) == b
  {
    if regions != [] { Untouched(b, regions[..|regions| - 1], p, contentSize); }
  }

  // What is sent for a content file with patches of its header and of what is inside it.
  function Sent(content: seq<byte>, dirty: bool, header: seq<Region>, ctx: seq<Region>): (s: seq<byte>)
    ensures |s| == |content|
  {
    if dirty then Patched(Patched(content, header), ctx) else content
  }

  lemma {:induction false} LastRegionWins(b: byte, regions: seq<Region>, i: nat, p: nat, contentSize: nat)
    requires i < |regions| && Covers(regions[i], p, contentSize)
    requires forall j :: i < j < |regions| ==> !Covers(regions[j], p, contentSize)
    ensures At(b, regions, p, contentSize) == regions[i].data[p - regions[i].offset]
  {
    if i < |regions| - 1 { LastRegionWins(b, regions[..|regions| - 1], i, p, contentSize); }
  }

  // The last region over a byte, if there is one.
  ghost predicate Tops(regions: seq<Region>, i: nat, p: nat, contentSize: nat) {
    && i < |regions| && Covers(regions[i], p, contentSize)
    && forall j :: i < j < |regions| ==> !Covers(regions[j], p, contentSize)
  }

  ghost predicate Bare(regions: seq<Region>, p: nat, contentSize: nat) {
    forall i :: 0 <= i < |regions| ==> !Covers(regions[i], p, contentSize)
  }

  // Every byte sent comes from the last region of the inner patch over it, else from the last one of
  // the header patch, else from the content.
  lemma InnerPatchWins(content: seq<byte>, dirty: bool, header: seq<Region>, ctx: seq<Region>, p: nat, i: nat)
    requires p < |content|
    ensures dirty && Tops(ctx, i, p, |content|) ==> Sent(content, dirty, header, ctx)[p] == ctx[i].data[p - ctx[i].offset]
    ensures dirty && Bare(ctx, p, |content|) && Tops(header, i, p, |content|) ==>
              Sent(content, dirty, header, ctx)[p] == header[i].data[p - header[i].offset]
    ensures !dirty || (Bare(ctx, p, |content|) && Bare(header, p, |content|)) ==>
              Sent(content, dirty, header, ctx)[p] == content[p]
  {
    var inner := Patched(content, header);
    if Tops(ctx, i, p, |content|) { LastRegionWins(inner[p], ctx, i, p, |content|); }
    if Bare(ctx, p, |content|) { Untouched(inner[p], ctx, p, |content|); }
    if Tops(header, i, p, |content|) { LastRegionWins(content[p], header, i, p, |content|); }
    if Bare(header, p, |content|) { Untouched(content[p], header, p, |content|); }
  }

  // No region reaches past the offset.
  ghost predicate Finished(regions: seq<Region>, contentSize: nat, offset: nat) {
    forall i :: 0 <= i < |regions| ==> Usable(regions[i], contentSize) && regions[i].offset + |regions[i].data| <= offset
  }

  lemma NothingLeft(content: seq<byte>, header: seq<Region>, ctx: seq<Region>, offset: nat)
    requires Finished(header, |content|, offset) && Finished(ctx, |content|, offset)
    ensures forall p :: offset <= p < |content| ==> Sent(content, true, header, ctx)[p] == content[p]
  {
    forall p | offset <= p < |content|
      ensures Sent(content, true, header, ctx)[p] == content[p]
    {
      Untouched(content[p], header, p, |content|);
      Untouched(content[p], ctx, p, |content|);
    }
  }

  // The loop over one content file: each block is read, patched and sent.
  method StreamPatched(content: seq<byte>, dirty: bool, header: Patch, ctx: Patch, blockSize: nat) returns (sent: seq<byte>)
    requires blockSize > 0 && header != ctx
    requires header.contentSize == |content| == ctx.contentSize && header.Valid(0) && ctx.Valid(0)
    modifies header`done, header`written, ctx`done, ctx`written
    ensures sent == Sent(content, dirty, header.regions, ctx.regions)
  {
    sent := [];
    var buf := new byte[blockSize](_ => 0);
    var offset, blksize := 0, blockSize;
    var dirtyHeader := dirty;
    ghost var goal := Sent(content, dirty, header.regions, ctx.regions);
    while offset < |content|
      invariant 0 < blksize <= buf.Length && offset <= |content|
      invariant sent == goal[..offset]
      invariant dirtyHeader ==> dirty && header.Valid(offset) && ctx.Valid(offset)
      invariant dirty && !dirtyHeader ==> Finished(header.regions, |content|, offset) && Finished(ctx.regions, |content|, offset)
      decreases |content| - offset
    {
      if |content| - offset < blksize { blksize := |content| - offset; }
      dirtyHeader := FillBlock(content, dirty, dirtyHeader, header, ctx, buf, blksize, offset);
      assert goal[..offset + blksize] == goal[..offset] + goal[offset..offset + blksize];
      sent := sent + buf[..blksize];
      offset := offset + blksize;
    }
    assert goal[..offset] == goal;
  }

  // One block: read, and patched while any patch is unfinished.
  method FillBlock(content: seq<byte>, ghost dirty: bool, dirtyHeader: bool, header: Patch, ctx: Patch,
                   buf: array<byte>, size: nat, offset: nat) returns (pending: bool)
    requires header != ctx && 0 < size <= buf.Length && offset + size <= |content|
    requires header.contentSize == |content| == ctx.contentSize
    requires dirtyHeader ==> dirty && header.Valid(offset) && ctx.Valid(offset)
    requires dirty && !dirtyHeader ==> Finished(header.regions, |content|, offset) && Finished(ctx.regions, |content|, offset)
    modifies header`done, header`written, ctx`done, ctx`written, buf
    ensures buf[..size] == Sent(content, dirty, header.regions, ctx.regions)[offset..offset + size]
    ensures pending ==> dirtyHeader && header.Valid(offset + size) && ctx.Valid(offset + size)
    ensures dirty && !pending ==>
              Finished(header.regions, |content|, offset + size) && Finished(ctx.regions, |content|, offset + size)
  {
    forall k | 0 <= k < size { buf[k] := content[offset + k]; }
    pending := dirtyHeader;
    if dirtyHeader {
      header.WriteToBuffer(buf, size, offset);
      ctx.WriteToBuffer(buf, size, offset);
      pending := !header.written || !ctx.written;
    } else if dirty {
      NothingLeft(content, header.regions, ctx.regions, offset);
    }
  }
}
